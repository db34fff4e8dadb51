/**
 * The wire format: big-endian integers, and packets written and read field by
 * field the way the derive macros generate it for every packet struct.
 */
module Wire {
  import opened Common

  // ---------------------------------------------------------------- integers

  function Pow256(w: nat): (r: nat)
    ensures r > 0
  {
    if w == 0 then 1 else 256 * Pow256(w - 1)
  }

  function EncodeInt(n: nat, w: nat): (r: seq<byte>)
    ensures |r| == w
  {
    if w == 0 then [] else EncodeInt(n / 256, w - 1) + [(n % 256) as bv8]
  }

  function DecodeInt(s: seq<byte>): nat {
    if s == [] then 0 else DecodeInt(s[..|s| - 1]) * 256 + s[|s| - 1] as nat
  }

  lemma ByteSucc(b: byte)
    requires b != 255
    ensures (b + 1) as nat == b as nat + 1
  {
  }

  /** The byte with value `n`, reached by counting, which spares the solver the conversion. */
  function ByteOf(n: nat): (b: byte)
    requires n < 256
    ensures b as nat == n
  {
    if n == 0 then 0 else ByteSucc(ByteOf(n - 1)); ByteOf(n - 1) + 1
  }

  lemma ByteBack(b: byte)
    ensures (b as nat) as bv8 == b
  {
  }

  lemma ByteValue(n: nat)
    requires n < 256
    ensures (n as bv8) as nat == n
  {
    ByteBack(ByteOf(n));
  }

  lemma {:induction false} IntRoundTrip(n: nat, w: nat)
    requires n < Pow256(w)
    ensures DecodeInt(EncodeInt(n, w)) == n
  {
    if w == 0 {
    } else {
      var high, low := n / 256, n % 256;
      IntRoundTrip(high, w - 1);
      ByteValue(low);
      assert EncodeInt(n, w) == EncodeInt(high, w - 1) + [low as bv8];
      assert EncodeInt(n, w)[..w - 1] == EncodeInt(high, w - 1);
    }
  }

  lemma {:induction false} DecodeBound(s: seq<byte>)
    ensures DecodeInt(s) < Pow256(|s|)
  {
    if s == [] {
    } else {
      DecodeBound(s[..|s| - 1]);
    }
  }

  lemma LastByte(n: nat, b: byte)
    ensures (n * 256 + b as nat) / 256 == n && ((n * 256 + b as nat) % 256) as bv8 == b
  {
    ByteBack(b);
    assert (n * 256 + b as nat) % 256 == b as nat;
  }

  /** Reading then writing gives the same bytes back: the encoding is unique. */
  lemma {:induction false} BytesRoundTrip(s: seq<byte>)
    ensures EncodeInt(DecodeInt(s), |s|) == s
  {
    if s == [] {
    } else {
      var init, last := s[..|s| - 1], s[|s| - 1];
      var high := DecodeInt(init);
      BytesRoundTrip(init);
      LastByte(high, last);
      assert DecodeInt(s) == high * 256 + last as nat;
      assert EncodeInt(DecodeInt(s), |s|) == EncodeInt(high, |init|) + [last];
      assert s == init + [last];
    }
  }

  lemma Distributes(a: nat, p: nat, x: nat)
    ensures (a * p + x) * 256 == a * (256 * p) + x * 256
  {
  }

  /** Big-endian: the first byte weighs most. */
  lemma {:induction false} FirstByteWeighsMost(s: seq<byte>)
    requires s != []
    ensures DecodeInt(s) == s[0] as nat * Pow256(|s| - 1) + DecodeInt(s[1..])
  {
    if |s| == 1 {
      assert s[..0] == [] && s[1..] == [];
    } else {
      var init := s[..|s| - 1];
      FirstByteWeighsMost(init);
      Distributes(s[0] as nat, Pow256(|s| - 2), DecodeInt(init[1..]));
      assert s[1..][..|s| - 2] == init[1..];
    }
  }

  /** A two-byte field holds the high byte, then the low one. */
  lemma HighByteFirst(n: nat)
    requires n < U16
    ensures EncodeInt(n, 2) == [(n / 256) as bv8, (n % 256) as bv8]
  {
    assert n / 256 < 256;
    assert EncodeInt(n / 256, 1) == EncodeInt(n / 256 / 256, 0) + [(n / 256) as bv8];
  }

  lemma Widths()
    ensures Pow256(0) == 1 && Pow256(1) == 0x100 && Pow256(2) == U16 && Pow256(4) == U32
  {
    assert Pow256(3) == 0x100_0000 by { assert Pow256(2) == 256 * Pow256(1); }
  }

  // ---------------------------------------------------------------- fields

  const PACKET_TYPES: set<nat> := {1, 2, 3, 4, 5, 7, 8, 9, 10, 11}
  const HOST_CONTROL: set<nat> := {201, 202}
  const SESSION_CONTROL: set<nat> := {1, 2, 3, 4, 5}
  const PLAYBACK_CONTROL: set<nat> := {101, 102, 103, 104, 105}

  /** On-wire size of one `ByteRange`: a u32 and a u16. */
  const STRIDE: nat := 6

  datatype Control = Host(code: nat) | Session(code: nat) | Playback(code: nat)

  datatype FieldType = Int(width: nat) | Code(codes: set<nat>) | ControlCode | BufferId | Reserved(n: nat) | Bytes
    | RangeList

  datatype Field = Num(n: nat) | Ctl(control: Control) | Id(id: Option<nat>) | Hole | Raw(bytes: seq<byte>)
    | Ranges(ranges: seq<ByteRange>)

  predicate ControlOk(c: Control) {
    match c
    case Host(code) => code in HOST_CONTROL
    case Session(code) => code in SESSION_CONTROL
    case Playback(code) => code in PLAYBACK_CONTROL
  }

  predicate RangesOk(rs: seq<ByteRange>) {
    forall k :: 0 <= k < |rs| ==> rs[k].start < Pow256(4) && rs[k].length < Pow256(2)
  }

  /** `f` is a value a field of type `t` can hold. */
  predicate Typed(t: FieldType, f: Field) {
    match t
    case Int(w) => f.Num? && f.n < Pow256(w)
    case Code(codes) => f.Num? && f.n in codes && f.n < Pow256(1)
    case ControlCode => f.Ctl? && ControlOk(f.control)
    case BufferId => f.Id? && (f.id.Some? ==> 0 < f.id.value < Pow256(2))
    case Reserved(_) => f.Hole?
    case Bytes => f.Raw?
    case RangeList => f.Ranges? && RangesOk(f.ranges)
  }

  function EncodeRanges(rs: seq<ByteRange>): (r: seq<byte>)
    ensures |r| == |rs| * STRIDE
  {
    if rs == [] then []
    else EncodeInt(rs[0].start, 4) + EncodeInt(rs[0].length, 2) + EncodeRanges(rs[1..])
  }

  /** Whole strides only; a trailing partial one is dropped. */
  function DecodeRanges(bytes: seq<byte>): (r: seq<ByteRange>)
    ensures |r| == |bytes| / STRIDE
  {
    if |bytes| < STRIDE then []
    else [ByteRange(DecodeInt(bytes[..4]), DecodeInt(bytes[4..STRIDE]))] + DecodeRanges(bytes[STRIDE..])
  }

  /** The size a field claims before it is written. */
  function SizeOf(t: FieldType, f: Field): nat
    requires Typed(t, f)
  {
    match t
    case Int(w) => w
    case Code(_) => 1
    case ControlCode => 1
    case BufferId => 2
    case Reserved(n) => n
    case Bytes => |f.bytes|
    case RangeList => |f.ranges| * STRIDE
  }

  function EncodeField(t: FieldType, f: Field): (r: seq<byte>)
    requires Typed(t, f)
    ensures |r| == SizeOf(t, f)
  {
    match t
    case Int(w) => EncodeInt(f.n, w)
    case Code(_) => EncodeInt(f.n, 1)
    case ControlCode => EncodeInt(f.control.code, 1)
    case BufferId => EncodeInt(if f.id.Some? then f.id.value else 0, 2)
    case Reserved(n) => seq(n, _ => 0)
    case Bytes => f.bytes
    case RangeList => EncodeRanges(f.ranges)
  }

  /** Reads a field off the front of `bytes`. */
  function DecodeField(t: FieldType, bytes: seq<byte>): (r: Option<Field>)
    ensures r.Some? ==> Typed(t, r.value) && SizeOf(t, r.value) <= |bytes|
  {
    match t
    case Int(w) =>
      if |bytes| < w then None else DecodeBound(bytes[..w]); Some(Num(DecodeInt(bytes[..w])))
    case Code(codes) =>
      if |bytes| < 1 then None
      else
        DecodeBound(bytes[..1]);
        var n := DecodeInt(bytes[..1]);
        if n in codes then Some(Num(n)) else None
    case ControlCode =>
      if |bytes| < 1 then None
      else
        var n := DecodeInt(bytes[..1]);
        if n in HOST_CONTROL then Some(Ctl(Host(n)))
        else if n in SESSION_CONTROL then Some(Ctl(Session(n)))
        else if n in PLAYBACK_CONTROL then Some(Ctl(Playback(n)))
        else None
    case BufferId =>
      if |bytes| < 2 then None
      else
        DecodeBound(bytes[..2]);
        var n := DecodeInt(bytes[..2]);
        Some(Id(if n == 0 then None else Some(n)))
    case Reserved(n) => if |bytes| < n then None else Some(Hole)
    case Bytes => Some(Raw(bytes))
    case RangeList =>
      if |bytes| < STRIDE then None else DecodeRangesOk(bytes); Some(Ranges(DecodeRanges(bytes)))
  }

  lemma {:induction false} DecodeRangesOk(bytes: seq<byte>)
    ensures RangesOk(DecodeRanges(bytes))
  {
    if |bytes| >= STRIDE {
      DecodeBound(bytes[..4]);
      DecodeBound(bytes[4..STRIDE]);
      DecodeRangesOk(bytes[STRIDE..]);
    }
  }

  lemma {:induction false} RangesRoundTrip(rs: seq<ByteRange>)
    requires RangesOk(rs)
    ensures DecodeRanges(EncodeRanges(rs)) == rs
  {
    if rs == [] {
    } else {
      RangesRoundTrip(rs[1..]);
      IntRoundTrip(rs[0].start, 4);
      IntRoundTrip(rs[0].length, 2);
      var bytes := EncodeRanges(rs);
      assert bytes[..4] == EncodeInt(rs[0].start, 4);
      assert bytes[4..STRIDE] == EncodeInt(rs[0].length, 2);
      assert bytes[STRIDE..] == EncodeRanges(rs[1..]);
    }
  }

  /** Types that read to the end of the packet and so can only come last. */
  predicate Open(t: FieldType) { t.Bytes? || t.RangeList? }

  lemma FieldRoundTrip(t: FieldType, f: Field, rest: seq<byte>)
    requires Typed(t, f) && (Open(t) ==> rest == [])
    requires t.RangeList? ==> f.ranges != []
    ensures DecodeField(t, EncodeField(t, f) + rest) == Some(f)
  {
    var bytes := EncodeField(t, f);
    assert (bytes + rest)[..|bytes|] == bytes;
    assert rest == [] ==> bytes + rest == bytes;
    match t
    case Int(w) => IntRoundTrip(f.n, w);
    case Code(_) => IntRoundTrip(f.n, 1);
    case ControlCode =>
      Widths();
      IntRoundTrip(f.control.code, 1);
    case BufferId =>
      Widths();
      IntRoundTrip(if f.id.Some? then f.id.value else 0, 2);
    case Reserved(_) =>
    case Bytes =>
    case RangeList => RangesRoundTrip(f.ranges);
  }

  // ---------------------------------------------------------------- structs

  ghost predicate AllTyped(ts: seq<FieldType>, fs: seq<Field>) {
    |ts| == |fs| && forall k :: 0 <= k < |ts| ==> Typed(ts[k], fs[k])
  }

  function SizeAll(ts: seq<FieldType>, fs: seq<Field>): nat
    requires AllTyped(ts, fs)
  {
    if ts == [] then 0 else SizeOf(ts[0], fs[0]) + SizeAll(ts[1..], fs[1..])
  }

  function Encode(ts: seq<FieldType>, fs: seq<Field>): (r: seq<byte>)
    requires AllTyped(ts, fs)
    ensures |r| == SizeAll(ts, fs)
  {
    if ts == [] then [] else EncodeField(ts[0], fs[0]) + Encode(ts[1..], fs[1..])
  }

  function Decode(ts: seq<FieldType>, bytes: seq<byte>): (r: Option<seq<Field>>)
    ensures r.Some? ==> AllTyped(ts, r.value)
  {
    if ts == [] then Some([])
    else
      match DecodeField(ts[0], bytes)
      case None => None
      case Some(f) =>
        match Decode(ts[1..], bytes[SizeOf(ts[0], f)..])
        case None => None
        case Some(fs) => Some([f] + fs)
  }

  function Prepend(fs: seq<Field>, r: Option<seq<Field>>): Option<seq<Field>> {
    if r.None? then None else Some(fs + r.value)
  }

  lemma PrependStep(fs: seq<Field>, ts: seq<FieldType>, bytes: seq<byte>, f: Field)
    requires ts != [] && DecodeField(ts[0], bytes) == Some(f)
    ensures Prepend(fs, Decode(ts, bytes)) == Prepend(fs + [f], Decode(ts[1..], bytes[SizeOf(ts[0], f)..]))
  {
    var r := Decode(ts[1..], bytes[SizeOf(ts[0], f)..]);
    if r.Some? {
      assert fs + ([f] + r.value) == fs + [f] + r.value;
    }
  }

  lemma PrependNothing(r: Option<seq<Field>>)
    ensures Prepend([], r) == r
  {
    assert r.Some? ==> [] + r.value == r.value;
  }

  lemma PrependTwice(a: seq<Field>, b: seq<Field>, r: Option<seq<Field>>)
    ensures Prepend(a, Prepend(b, r)) == Prepend(a + b, r)
  {
    assert r.Some? ==> a + (b + r.value) == a + b + r.value;
  }

  lemma DecodeFirst(t: FieldType, f: Field, ts: seq<FieldType>, tail: seq<byte>)
    requires Typed(t, f) && !Open(t)
    ensures Decode([t] + ts, EncodeField(t, f) + tail) == Prepend([f], Decode(ts, tail))
  {
    var bytes := EncodeField(t, f) + tail;
    FieldRoundTrip(t, f, tail);
    assert ([t] + ts)[1..] == ts && bytes[SizeOf(t, f)..] == tail;
    PrependStep([], [t] + ts, bytes, f);
    PrependNothing(Decode([t] + ts, bytes));
    assert [] + [f] == [f];
  }

  /** Fields that do not read to the end are read back whatever follows them. */
  lemma {:induction false} DecodePrefix(ts: seq<FieldType>, fs: seq<Field>, more: seq<FieldType>, rest: seq<byte>)
    requires AllTyped(ts, fs) && forall k :: 0 <= k < |ts| ==> !Open(ts[k])
    ensures Decode(ts + more, Encode(ts, fs) + rest) == Prepend(fs, Decode(more, rest))
  {
    if ts == [] {
      assert ts + more == more && Encode(ts, fs) + rest == rest;
      PrependNothing(Decode(more, rest));
    } else {
      var t, f, laterTypes, later := ts[0], fs[0], ts[1..], fs[1..];
      var tail := Encode(laterTypes, later) + rest;
      assert ts + more == [t] + (laterTypes + more);
      assert Encode(ts, fs) + rest == EncodeField(t, f) + tail;
      assert fs == [f] + later;
      DecodePrefix(laterTypes, later, more, rest);
      DecodeFirst(t, f, laterTypes + more, tail);
      PrependTwice([f], later, Decode(more, rest));
    }
  }

  /** Deserializing what was serialized gives the same fields, for every packet layout. */
  lemma StructRoundTrip(ts: seq<FieldType>, fs: seq<Field>, t: FieldType, f: Field)
    requires AllTyped(ts, fs) && Typed(t, f) && forall k :: 0 <= k < |ts| ==> !Open(ts[k])
    requires t.RangeList? ==> f.ranges != []
    ensures AllTyped(ts + [t], fs + [f])
    ensures Decode(ts + [t], Encode(ts + [t], fs + [f])) == Some(fs + [f])
    ensures Encode(ts + [t], fs + [f]) == Encode(ts, fs) + EncodeField(t, f)
    ensures SizeAll(ts + [t], fs + [f]) == SizeAll(ts, fs) + SizeOf(t, f)
  {
    EncodeAppend(ts, fs, t, f);
    FieldRoundTrip(t, f, []);
    var bytes := EncodeField(t, f);
    assert bytes + [] == bytes;
    DecodePrefix(ts, fs, [t], bytes);
    PrependStep(fs, [t], bytes, f);
    assert [t][1..] == [] && fs + [f] + [] == fs + [f];
  }

  lemma {:induction false} EncodeAppend(ts: seq<FieldType>, fs: seq<Field>, t: FieldType, f: Field)
    requires AllTyped(ts, fs) && Typed(t, f)
    ensures Encode(ts + [t], fs + [f]) == Encode(ts, fs) + EncodeField(t, f)
    ensures SizeAll(ts + [t], fs + [f]) == SizeAll(ts, fs) + SizeOf(t, f)
  {
    if ts == [] {
      assert ts + [t] == [t] && fs + [f] == [f];
      assert Encode([t][1..], [f][1..]) == [];
    } else {
      EncodeAppend(ts[1..], fs[1..], t, f);
      assert (ts + [t])[1..] == ts[1..] + [t];
      assert (fs + [f])[1..] == fs[1..] + [f];
    }
  }

  /** `offsets` says where each field starts, and where the last one ends. */
  ghost predicate Offsets(ts: seq<FieldType>, fs: seq<Field>, offsets: seq<nat>)
    requires AllTyped(ts, fs)
  {
    && |offsets| == |ts| + 1 && offsets[0] == 0
    && forall k :: 0 <= k < |ts| ==> offsets[k + 1] == offsets[k] + SizeOf(ts[k], fs[k])
  }

  lemma {:induction false} OffsetsAdd(ts: seq<FieldType>, fs: seq<Field>, offsets: seq<nat>, k: nat)
    requires AllTyped(ts, fs) && Offsets(ts, fs, offsets) && k <= |ts|
    ensures offsets[k] == SizeAll(ts[..k], fs[..k])
  {
    if k == 0 {
      assert ts[..0] == [];
    } else {
      OffsetsAdd(ts, fs, offsets, k - 1);
      assert ts[..k] == ts[..k - 1] + [ts[k - 1]] && fs[..k] == fs[..k - 1] + [fs[k - 1]];
      EncodeAppend(ts[..k - 1], fs[..k - 1], ts[k - 1], fs[k - 1]);
    }
  }

  lemma LaterParts(ts: seq<FieldType>, fs: seq<Field>, k: nat)
    requires AllTyped(ts, fs) && 0 < k <= |ts|
    ensures Encode(ts[..k], fs[..k]) == EncodeField(ts[0], fs[0]) + Encode(ts[1..][..k - 1], fs[1..][..k - 1])
    ensures Encode(ts[1..][k - 1..], fs[1..][k - 1..]) == Encode(ts[k..], fs[k..])
  {
    assert ts[..k][1..] == ts[1..][..k - 1] && fs[..k][1..] == fs[1..][..k - 1];
    assert ts[1..][k - 1..] == ts[k..] && fs[1..][k - 1..] == fs[k..];
  }

  lemma Regroup(a: seq<byte>, b: seq<byte>, c: seq<byte>)
    ensures a + (b + c) == a + b + c
  {
  }

  /** The bytes of the first `k` fields come first. */
  lemma {:induction false} EncodeSplit(ts: seq<FieldType>, fs: seq<Field>, k: nat)
    requires AllTyped(ts, fs) && k <= |ts|
    ensures Encode(ts, fs) == Encode(ts[..k], fs[..k]) + Encode(ts[k..], fs[k..])
  {
    if k == 0 {
      assert ts[..0] == [] && ts[0..] == ts && fs[0..] == fs;
      assert [] + Encode(ts, fs) == Encode(ts, fs);
    } else {
      EncodeSplit(ts[1..], fs[1..], k - 1);
      LaterParts(ts, fs, k);
      Regroup(EncodeField(ts[0], fs[0]), Encode(ts[1..][..k - 1], fs[1..][..k - 1]), Encode(ts[k..], fs[k..]));
    }
  }

  lemma MiddleSlice(a: seq<byte>, b: seq<byte>, c: seq<byte>)
    ensures (a + (b + c))[|a|..|a| + |b|] == b
  {
  }

  lemma FieldBetween(ts: seq<FieldType>, fs: seq<Field>, k: nat, at: nat, next: nat)
    requires AllTyped(ts, fs) && k < |ts|
    requires at == SizeAll(ts[..k], fs[..k]) && next == at + SizeOf(ts[k], fs[k])
    ensures next <= |Encode(ts, fs)| && Encode(ts, fs)[at..next] == EncodeField(ts[k], fs[k])
  {
    EncodeSplit(ts, fs, k);
    var later := Encode(ts[k..][1..], fs[k..][1..]);
    assert Encode(ts[k..], fs[k..]) == EncodeField(ts[k], fs[k]) + later;
    MiddleSlice(Encode(ts[..k], fs[..k]), EncodeField(ts[k], fs[k]), later);
  }

  /** Every field takes up the bytes from its offset to the next. */
  lemma FieldLies(ts: seq<FieldType>, fs: seq<Field>, offsets: seq<nat>, k: nat)
    requires AllTyped(ts, fs) && Offsets(ts, fs, offsets) && k < |ts|
    ensures |Encode(ts, fs)| == offsets[|ts|] && offsets[k] <= offsets[k + 1] <= |Encode(ts, fs)|
    ensures Encode(ts, fs)[offsets[k]..offsets[k + 1]] == EncodeField(ts[k], fs[k])
  {
    OffsetsAdd(ts, fs, offsets, k);
    FieldBetween(ts, fs, k, offsets[k], offsets[k + 1]);
    OffsetsAdd(ts, fs, offsets, |ts|);
    assert ts[..|ts|] == ts && fs[..|ts|] == fs;
  }

  /** `was` with `bytes` laid over it from `offset` on. */
  function Placed(was: seq<byte>, offset: nat, bytes: seq<byte>): seq<byte>
    requires offset + |bytes| <= |was|
  {
    was[..offset] + bytes + was[offset + |bytes|..]
  }

  method PutBytes(buf: array<byte>, offset: nat, bytes: seq<byte>)
    requires offset + |bytes| <= buf.Length
    modifies buf
    ensures buf[..] == Placed(old(buf[..]), offset, bytes)
  {
    forall i | 0 <= i < |bytes| {
      buf[offset + i] := bytes[i];
    }
  }

  /** Writes the fields one after the other; a buffer that is too small is left alone. */
  method Serialize(ts: seq<FieldType>, fs: seq<Field>, buf: array<byte>) returns (ok: bool)
    requires AllTyped(ts, fs)
    modifies buf
    ensures ok <==> SizeAll(ts, fs) <= buf.Length
    ensures buf[..] == if ok then Encode(ts, fs) + old(buf[..])[SizeAll(ts, fs)..] else old(buf[..])
  {
    if buf.Length < SizeAll(ts, fs) {
      return false;
    }
    ghost var was := buf[..];
    var offset := 0;
    NothingWritten(ts, fs, was);
    for k := 0 to |ts|
      invariant offset == SizeAll(ts[..k], fs[..k]) <= |was|
      invariant buf[..] == Partial(ts, fs, k, was)
    {
      var bytes := EncodeField(ts[k], fs[k]);
      PartialStep(ts, fs, k, was);
      PutBytes(buf, offset, bytes);
      offset := offset + |bytes|;
    }
    AllWritten(ts, fs, was);
    return true;
  }

  /** The buffer with the first `k` fields written over what was there. */
  ghost function Partial(ts: seq<FieldType>, fs: seq<Field>, k: nat, was: seq<byte>): seq<byte>
    requires AllTyped(ts, fs) && k <= |ts| && SizeAll(ts[..k], fs[..k]) <= |was|
  {
    Encode(ts[..k], fs[..k]) + was[SizeAll(ts[..k], fs[..k])..]
  }

  lemma NothingWritten(ts: seq<FieldType>, fs: seq<Field>, was: seq<byte>)
    requires AllTyped(ts, fs)
    ensures SizeAll(ts[..0], fs[..0]) == 0 && Partial(ts, fs, 0, was) == was
  {
    assert ts[..0] == [] && fs[..0] == [];
  }

  lemma AllWritten(ts: seq<FieldType>, fs: seq<Field>, was: seq<byte>)
    requires AllTyped(ts, fs) && SizeAll(ts, fs) <= |was|
    ensures ts[..|ts|] == ts && fs[..|ts|] == fs
    ensures Partial(ts, fs, |ts|, was) == Encode(ts, fs) + was[SizeAll(ts, fs)..]
  {
    assert ts[..|ts|] == ts && fs[..|ts|] == fs;
  }

  /** A prefix of the fields takes no more room than all of them. */
  lemma {:induction false} PrefixFits(ts: seq<FieldType>, fs: seq<Field>, k: nat)
    requires AllTyped(ts, fs) && k <= |ts|
    ensures SizeAll(ts[..k], fs[..k]) <= SizeAll(ts, fs)
  {
    if k == 0 {
      assert ts[..k] == [];
    } else {
      PrefixFits(ts[1..], fs[1..], k - 1);
      assert ts[..k][1..] == ts[1..][..k - 1] && fs[..k][1..] == fs[1..][..k - 1];
    }
  }

  /** Laying the next field over the buffer gives the buffer with one field more. */
  lemma PartialStep(ts: seq<FieldType>, fs: seq<Field>, k: nat, was: seq<byte>)
    requires AllTyped(ts, fs) && k < |ts| && SizeAll(ts, fs) <= |was|
    ensures SizeAll(ts[..k + 1], fs[..k + 1]) == SizeAll(ts[..k], fs[..k]) + |EncodeField(ts[k], fs[k])| <= |was|
    ensures SizeAll(ts[..k], fs[..k]) <= |was|
    ensures Placed(Partial(ts, fs, k, was), SizeAll(ts[..k], fs[..k]), EncodeField(ts[k], fs[k])) ==
            Partial(ts, fs, k + 1, was)
  {
    var written, bytes := Encode(ts[..k], fs[..k]), EncodeField(ts[k], fs[k]);
    assert ts[..k + 1] == ts[..k] + [ts[k]] && fs[..k + 1] == fs[..k] + [fs[k]];
    EncodeAppend(ts[..k], fs[..k], ts[k], fs[k]);
    PrefixFits(ts, fs, k + 1);
    Advances(written, bytes, was);
  }

  lemma Advances(written: seq<byte>, bytes: seq<byte>, was: seq<byte>)
    requires |written| + |bytes| <= |was|
    ensures Placed(written + was[|written|..], |written|, bytes) == written + bytes + was[|written| + |bytes|..]
  {
  }

  /** Decoding from field `k` on, of the bytes from `offset` on. */
  ghost function DecodeAt(ts: seq<FieldType>, bytes: seq<byte>, k: nat, offset: nat): Option<seq<Field>>
    requires k <= |ts| && offset <= |bytes|
    decreases |ts| - k
  {
    if k == |ts| then Some([])
    else
      match DecodeField(ts[k], bytes[offset..])
      case None => None
      case Some(f) => Prepend([f], DecodeAt(ts, bytes, k + 1, offset + SizeOf(ts[k], f)))
  }

  lemma DropTwice<T>(s: seq<T>, k: nat, n: nat)
    requires k + n <= |s|
    ensures s[k..][n..] == s[k + n..]
  {
  }

  lemma {:induction false} DecodeFrom(ts: seq<FieldType>, bytes: seq<byte>, k: nat, offset: nat)
    requires k <= |ts| && offset <= |bytes|
    ensures DecodeAt(ts, bytes, k, offset) == Decode(ts[k..], bytes[offset..])
    decreases |ts| - k
  {
    if k == |ts| {
    } else {
      var read := DecodeField(ts[k], bytes[offset..]);
      if read.Some? {
        var size := SizeOf(ts[k], read.value);
        DecodeFrom(ts, bytes, k + 1, offset + size);
        DropTwice(ts, k, 1);
        DropTwice(bytes, offset, size);
      }
    }
  }

  /** Reads the fields one after the other, advancing by the size of each. */
  method Deserialize(ts: seq<FieldType>, bytes: seq<byte>) returns (r: Option<seq<Field>>)
    ensures r == Decode(ts, bytes)
  {
    var offset: nat := 0;
    var fs: seq<Field> := [];
    DecodeWhole(ts, bytes);
    for k := 0 to |ts|
      invariant offset <= |bytes|
      invariant Decode(ts, bytes) == Prepend(fs, DecodeAt(ts, bytes, k, offset))
    {
      var f := DecodeField(ts[k], bytes[offset..]);
      if f == None {
        return None;
      }
      PrependTwice(fs, [f.value], DecodeAt(ts, bytes, k + 1, offset + SizeOf(ts[k], f.value)));
      offset := offset + SizeOf(ts[k], f.value);
      fs := fs + [f.value];
    }
    assert fs + [] == fs;
    return Some(fs);
  }

  lemma DecodeWhole(ts: seq<FieldType>, bytes: seq<byte>)
    ensures Decode(ts, bytes) == Prepend([], DecodeAt(ts, bytes, 0, 0))
  {
    DecodeFrom(ts, bytes, 0, 0);
    assert ts[0..] == ts && bytes[0..] == bytes;
    PrependNothing(Decode(ts, bytes));
  }

  /** The header bytes of a packet: every field but its payload, in a buffer of exactly their size. */
  method Headers(ts: seq<FieldType>, fs: seq<Field>) returns (buf: array<byte>)
    requires AllTyped(ts, fs)
    ensures fresh(buf) && buf[..] == Encode(ts, fs)
  {
    buf := new byte[SizeAll(ts, fs)](_ => 0);
    var _ := Serialize(ts, fs, buf);
  }
}
