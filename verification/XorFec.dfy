/**
 * XOR forward error correction: packing a data packet into a fixed block,
 * folding the blocks of a batch, and recovering the one that went missing.
 */
module XorFec {
  import opened Common
  import opened Wire
  import opened BatchWindow

  /** Block size: a u32 position, a full payload and a u16 payload length. */
  const BLOCK: nat := CHUNK + 4 + 2

  function Zeros(n: nat): (r: seq<byte>)
    ensures |r| == n
  {
    seq(n, _ => 0)
  }

  type Block = s: seq<byte> | |s| == BLOCK witness Zeros(BLOCK)

  const ZERO: Block := Zeros(BLOCK)

  // ---------------------------------------------------------------- packing

  /** Position, payload, zero fill, and the payload length in the last two bytes. */
  function Packed(pos: nat, payload: seq<byte>): Block
    requires |payload| <= CHUNK
  {
    EncodeInt(pos, 4) + payload + Zeros(CHUNK - |payload|) + EncodeInt(|payload|, 2)
  }

  /** Reads a block back, cutting the payload to the stored length. */
  function Unpacked(data: Block): (r: (nat, seq<byte>))
    ensures |r.1| <= CHUNK
  {
    var payload := data[4..BLOCK - 2];
    (DecodeInt(data[..4]), payload[..Min(DecodeInt(data[BLOCK - 2..]), |payload|)])
  }

  /** A packed packet reads back as itself, whatever its payload length. */
  lemma UnpackPacked(pos: nat, payload: seq<byte>)
    requires pos < U32 && |payload| <= CHUNK
    ensures Unpacked(Packed(pos, payload)) == (pos, payload)
  {
    var data := Packed(pos, payload);
    Widths();
    IntRoundTrip(pos, 4);
    IntRoundTrip(|payload|, 2);
    assert data[..4] == EncodeInt(pos, 4);
    assert data[BLOCK - 2..] == EncodeInt(|payload|, 2);
    assert data[4..BLOCK - 2][..|payload|] == payload;
  }

  method Pack(pos: nat, payload: seq<byte>) returns (buf: array<byte>)
    requires |payload| <= CHUNK
    ensures fresh(buf) && buf[..] == Packed(pos, payload)
  {
    buf := new byte[BLOCK](_ => 0);
    assert buf[..] == ZERO;
    PutBytes(buf, 0, EncodeInt(pos, 4));
    PutBytes(buf, 4, payload);
    PutBytes(buf, BLOCK - 2, EncodeInt(|payload|, 2));
    SliceBySlice(pos, payload);
  }

  lemma SliceBySlice(pos: nat, payload: seq<byte>)
    requires |payload| <= CHUNK
    ensures Placed(Placed(Placed(ZERO, 0, EncodeInt(pos, 4)), 4, payload), BLOCK - 2, EncodeInt(|payload|, 2)) ==
            Packed(pos, payload)
  {
    var start, fill := EncodeInt(pos, 4), Zeros(CHUNK - |payload|);
    assert Placed(ZERO, 0, start) == start + Zeros(BLOCK - 4);
    assert Placed(start + Zeros(BLOCK - 4), 4, payload) == start + payload + fill + Zeros(2);
  }

  // ---------------------------------------------------------------- xor

  function Xor(a: Block, b: Block): Block {
    seq(BLOCK, i requires 0 <= i < BLOCK => a[i] ^ b[i])
  }

  method XorAssign(a: array<byte>, b: Block)
    requires a.Length == BLOCK
    modifies a
    ensures a[..] == Xor(old(a[..]), b)
  {
    for i := 0 to BLOCK
      invariant forall k :: 0 <= k < i ==> a[k] == old(a[k]) ^ b[k]
      invariant forall k :: i <= k < BLOCK ==> a[k] == old(a[k])
    {
      a[i] := a[i] ^ b[i];
    }
  }

  lemma XorByte(x: byte, y: byte, z: byte)
    ensures (x ^ y) ^ z == (x ^ z) ^ y && (x ^ y) ^ y == x && x ^ y == y ^ x && x ^ 0 == x
  {
  }

  /** Operands of a fold can be taken in any order. */
  lemma XorSwap(a: Block, b: Block, c: Block)
    ensures Xor(Xor(a, b), c) == Xor(Xor(a, c), b)
  {
    forall i | 0 <= i < BLOCK ensures Xor(Xor(a, b), c)[i] == Xor(Xor(a, c), b)[i] {
      XorByte(a[i], b[i], c[i]);
    }
  }

  lemma XorCancel(a: Block, b: Block)
    ensures Xor(Xor(a, b), b) == a && Xor(a, b) == Xor(b, a)
  {
    forall i | 0 <= i < BLOCK ensures Xor(Xor(a, b), b)[i] == a[i] && Xor(a, b)[i] == Xor(b, a)[i] {
      XorByte(a[i], b[i], 0);
    }
  }

  /** The fold of the blocks whose index below `n` is in `mask`. */
  function Fold(batch: seq<Block>, mask: set<nat>, n: nat): Block
    requires n <= |batch|
  {
    if n == 0 then ZERO
    else if n - 1 in mask then Xor(Fold(batch, mask, n - 1), batch[n - 1])
    else Fold(batch, mask, n - 1)
  }

  /** The indices below `n`. */
  function All(n: nat): (r: set<nat>)
    ensures forall i: nat :: i in r <==> i < n
    ensures |r| == n
  {
    if n == 0 then {} else All(n - 1) + {n - 1}
  }

  /** What the parity packet of a batch carries. */
  function ParityOf(batch: seq<Block>): Block { Fold(batch, All(|batch|), |batch|) }

  /** Adding one index to the mask folds in one block. */
  lemma {:induction false} FoldInsert(batch: seq<Block>, mask: set<nat>, j: nat, n: nat)
    requires n <= |batch| && j < |batch| && j !in mask
    ensures Fold(batch, mask + {j}, n) == if j < n then Xor(Fold(batch, mask, n), batch[j]) else Fold(batch, mask, n)
  {
    if n == 0 {
    } else {
      FoldInsert(batch, mask, j, n - 1);
      if n - 1 != j && n - 1 in mask && j < n {
        XorSwap(Fold(batch, mask, n - 1), batch[n - 1], batch[j]);
      }
    }
  }

  /** All blocks but one, folded with the parity, give the missing block. */
  lemma FoldMissing(batch: seq<Block>, mask: set<nat>, m: nat)
    requires m < |batch| && mask == All(|batch|) - {m}
    ensures Xor(Fold(batch, mask, |batch|), ParityOf(batch)) == batch[m]
  {
    FoldInsert(batch, mask, m, |batch|);
    assert mask + {m} == All(|batch|);
    var f := Fold(batch, mask, |batch|);
    XorCancel(f, batch[m]);
    XorCancel(batch[m], f);
    assert Xor(f, batch[m]) == Xor(batch[m], f);
    XorCancel(f, Xor(f, batch[m]));
  }

  // ---------------------------------------------------------------- inbound batch

  datatype Inbound = Inbound(
    product: Block, parity: Option<Block>, batchSize: nat, received: nat,
    mask: set<nat>, createdAt: nat, base: Base)

  function NewInbound(batchSize: nat, now: nat): Inbound {
    Inbound(ZERO, None, batchSize, 0, {}, now, UNKNOWN)
  }

  function AddData(b: Inbound, index: nat, data: Block): Inbound {
    if b.received < b.batchSize && index !in b.mask then
      b.(base := Track(b.base, index, DecodeInt(data[..4])), mask := b.mask + {index},
         product := Xor(b.product, data), received := b.received + 1)
    else b
  }

  function AddParity(b: Inbound, data: Block): Inbound {
    if b.parity.Some? then b else b.(parity := Some(data))
  }

  predicate Ready(b: Inbound) { b.received == b.batchSize - 1 && b.parity.Some? }

  function Recovered(b: Inbound): Option<Block> {
    if Ready(b) then Some(Xor(b.product, b.parity.value)) else None
  }

  /** Positions of the chunks never received, `[]` when the batch cannot be located. */
  function MissingPositions(b: Inbound): seq<nat> {
    if b.base.at.None? || !b.base.contiguous then [] else MissingFrom(b.mask, b.base.at.value, 0, b.batchSize)
  }

  function MissingFrom(mask: set<nat>, base: nat, i: nat, n: nat): (r: seq<nat>)
    requires i <= n
    ensures forall p :: p in r <==> exists k :: i <= k < n && k !in mask && p == base + k * CHUNK
    decreases n - i
  {
    if i == n then []
    else
      var rest := MissingFrom(mask, base, i + 1, n);
      if i !in mask then [base + i * CHUNK] + rest else rest
  }

  // ---------------------------------------------------------------- exact recovery

  datatype Arrival = Data(index: nat) | Parity

  /** An object after data packets of any batches, in particular of one larger than its own. */
  function FeedAny(size: nat, packets: seq<(nat, Block)>, now: nat): Inbound {
    if packets == [] then NewInbound(size, now)
    else
      var last := packets[|packets| - 1];
      AddData(FeedAny(size, packets[..|packets| - 1], now), last.0, last.1)
  }

  /** The indices the packets carry. */
  function Firsts(packets: seq<(nat, Block)>): set<nat> {
    if packets == [] then {} else Firsts(packets[..|packets| - 1]) + {packets[|packets| - 1].0}
  }

  lemma CountOneMore(mask: set<nat>, seen: set<nat>, size: nat, j: nat)
    requires mask <= seen && |mask| == Min(size, |seen|)
    ensures
      var after := if |mask| < size && j !in mask then mask + {j} else mask;
      after <= seen + {j} && |after| == Min(size, |seen + {j}|)
  {
    SubsetSize(mask, seen);
    if j in seen {
      assert seen + {j} == seen;
    }
  }

  /** Whatever it is fed, an object counts distinct indices, as many as its size and no more. */
  lemma {:induction false} NeverOverfull(size: nat, packets: seq<(nat, Block)>, now: nat)
    ensures
      var b := FeedAny(size, packets, now);
      b.batchSize == size && b.mask <= Firsts(packets) && b.received == |b.mask| == Min(size, |Firsts(packets)|)
  {
    if packets == [] {
    } else {
      var init, last := packets[..|packets| - 1], packets[|packets| - 1];
      NeverOverfull(size, init, now);
      CountOneMore(FeedAny(size, init, now).mask, Firsts(init), size, last.0);
    }
  }

  /** `b` is a batch that has seen only packets of `batch`. */
  ghost predicate Tracks(b: Inbound, batch: seq<Block>) {
    && b.batchSize == |batch|
    && b.mask <= All(|batch|)
    && b.received == |b.mask|
    && b.product == Fold(batch, b.mask, |batch|)
    && (b.parity.Some? ==> b.parity.value == ParityOf(batch))
  }

  lemma {:induction false} FoldNothing(batch: seq<Block>, n: nat)
    requires n <= |batch|
    ensures Fold(batch, {}, n) == ZERO
  {
    if n == 0 {
    } else {
      FoldNothing(batch, n - 1);
    }
  }

  lemma NewTracks(batch: seq<Block>, now: nat)
    ensures Tracks(NewInbound(|batch|, now), batch)
  {
    FoldNothing(batch, |batch|);
  }

  lemma ProperSubsetSmaller(a: set<nat>, n: nat, j: nat)
    requires a <= All(n) && j < n && j !in a
    ensures |a| < n
  {
    assert a + {j} <= All(n);
    SubsetSize(a + {j}, All(n));
  }

  lemma {:induction false} SubsetSize(a: set<nat>, b: set<nat>)
    requires a <= b
    ensures |a| <= |b| && (|a| == |b| ==> a == b)
    decreases |a|
  {
    if a == {} {
      assert |b| == 0 ==> b == {};
    } else {
      var x :| x in a;
      SubsetSize(a - {x}, b - {x});
      assert a == (a - {x}) + {x} && b == (b - {x}) + {x};
    }
  }

  /** A data packet is counted once, however often it arrives. */
  lemma AddTracks(b: Inbound, batch: seq<Block>, j: nat)
    requires Tracks(b, batch) && j < |batch|
    ensures Tracks(AddData(b, j, batch[j]), batch)
    ensures AddData(b, j, batch[j]).mask == b.mask + {j}
    ensures AddData(b, j, batch[j]).parity == b.parity
    ensures j !in b.mask ==> AddData(b, j, batch[j]).base == Track(b.base, j, DecodeInt(batch[j][..4]))
  {
    if j !in b.mask {
      ProperSubsetSmaller(b.mask, |batch|, j);
      FoldInsert(batch, b.mask, j, |batch|);
    } else {
      assert b.mask + {j} == b.mask;
    }
  }

  /** Whatever such a batch recovers is a block of that batch, and one it had not received. */
  lemma TracksRecovers(b: Inbound, batch: seq<Block>) returns (m: nat)
    requires Tracks(b, batch) && Recovered(b).Some?
    ensures m < |batch| && b.mask == All(|batch|) - {m} && Recovered(b) == Some(batch[m])
  {
    if All(|batch|) <= b.mask {
      SubsetSize(All(|batch|), b.mask);
      assert false;
    }
    m :| m in All(|batch|) && m !in b.mask;
    assert |All(|batch|) - {m}| == |batch| - 1;
    SubsetSize(b.mask, All(|batch|) - {m});
    FoldMissing(batch, b.mask, m);
  }

  function Feed(batch: seq<Block>, arrivals: seq<Arrival>, now: nat): Inbound
    requires forall k :: 0 <= k < |arrivals| && arrivals[k].Data? ==> arrivals[k].index < |batch|
  {
    if arrivals == [] then NewInbound(|batch|, now)
    else FeedOne(Feed(batch, arrivals[..|arrivals| - 1], now), batch, arrivals[|arrivals| - 1])
  }

  function FeedOne(b: Inbound, batch: seq<Block>, a: Arrival): Inbound
    requires a.Data? ==> a.index < |batch|
  {
    match a
    case Data(j) => AddData(b, j, batch[j])
    case Parity => AddParity(b, ParityOf(batch))
  }

  lemma FeedOneTracks(b: Inbound, batch: seq<Block>, a: Arrival)
    requires Tracks(b, batch) && (a.Data? ==> a.index < |batch|)
    ensures var r := FeedOne(b, batch, a);
            && Tracks(r, batch)
            && r.mask == b.mask + (if a.Data? then {a.index} else {})
            && (r.parity.Some? <==> b.parity.Some? || a.Parity?)
  {
    if a.Data? {
      AddTracks(b, batch, a.index);
    }
  }

  function Seen(arrivals: seq<Arrival>): set<nat> { set a | a in arrivals && a.Data? :: a.index }

  lemma SeenAppend(init: seq<Arrival>, last: Arrival)
    ensures Seen(init + [last]) == Seen(init) + if last.Data? then {last.index} else {}
    ensures Parity in init + [last] <==> Parity in init || last.Parity?
  {
  }

  lemma {:induction false} FeedTracks(batch: seq<Block>, arrivals: seq<Arrival>, now: nat)
    requires forall k :: 0 <= k < |arrivals| && arrivals[k].Data? ==> arrivals[k].index < |batch|
    ensures var b := Feed(batch, arrivals, now);
            Tracks(b, batch) && b.mask == Seen(arrivals) && (b.parity.Some? <==> Parity in arrivals)
  {
    if arrivals == [] {
      NewTracks(batch, now);
    } else {
      var init, last := arrivals[..|arrivals| - 1], arrivals[|arrivals| - 1];
      FeedTracks(batch, init, now);
      assert arrivals == init + [last];
      SeenAppend(init, last);
      FeedOneTracks(Feed(batch, init, now), batch, last);
    }
  }

  /**
   * Whatever the order and the duplicates, a batch is ready exactly when the
   * parity and all data packets but one have arrived, and recovery then gives
   * the position and payload of that one, at its own length.
   */
  lemma RecoveryExact(packets: seq<(nat, seq<byte>)>, arrivals: seq<Arrival>, now: nat)
    requires forall k :: 0 <= k < |packets| ==> packets[k].0 < U32 && |packets[k].1| <= CHUNK
    requires forall k :: 0 <= k < |arrivals| && arrivals[k].Data? ==> arrivals[k].index < |packets|
    ensures
      var batch := PackAll(packets);
      var b := Feed(batch, arrivals, now);
      && (Ready(b) <==> Parity in arrivals && exists m :: 0 <= m < |packets| && Seen(arrivals) == All(|packets|) - {m})
      && (forall m :: 0 <= m < |packets| && Parity in arrivals && Seen(arrivals) == All(|packets|) - {m} ==>
            Recovered(b).Some? && Unpacked(Recovered(b).value) == packets[m])
  {
    var batch := PackAll(packets);
    var b := Feed(batch, arrivals, now);
    FeedTracks(batch, arrivals, now);
    if Ready(b) {
      var m := TracksRecovers(b, batch);
      assert Seen(arrivals) == All(|packets|) - {m};
    }
    forall m | 0 <= m < |packets| && Parity in arrivals && Seen(arrivals) == All(|packets|) - {m}
      ensures Recovered(b).Some? && Unpacked(Recovered(b).value) == packets[m]
    {
      assert |All(|packets|) - {m}| == |packets| - 1;
      FoldMissing(batch, b.mask, m);
      UnpackPacked(packets[m].0, packets[m].1);
    }
  }

  /** Nothing that arrives changes a batch's size or the time it was made. */
  lemma {:induction false} FeedDates(batch: seq<Block>, arrivals: seq<Arrival>, now: nat)
    requires forall k :: 0 <= k < |arrivals| && arrivals[k].Data? ==> arrivals[k].index < |batch|
    ensures Feed(batch, arrivals, now).createdAt == now && Feed(batch, arrivals, now).batchSize == |batch|
  {
    if arrivals == [] {
    } else {
      FeedDates(batch, arrivals[..|arrivals| - 1], now);
    }
  }

  function PackAll(packets: seq<(nat, seq<byte>)>): (batch: seq<Block>)
    requires forall k :: 0 <= k < |packets| ==> |packets[k].1| <= CHUNK
    ensures |batch| == |packets|
  {
    seq(|packets|, k requires 0 <= k < |packets| => Packed(packets[k].0, packets[k].1))
  }

  function StartsOf(packets: seq<(nat, seq<byte>)>): seq<nat> {
    seq(|packets|, k requires 0 <= k < |packets| => packets[k].0)
  }

  /** The positions of a batch's packets follow each other chunk by chunk. */
  ghost predicate PacketsConsecutive(packets: seq<(nat, seq<byte>)>) {
    forall k :: 0 <= k < |packets| ==>
      packets[k].0 == packets[0].0 + k * CHUNK && packets[k].0 < U32 && |packets[k].1| <= CHUNK
  }

  lemma {:induction false} FeedBase(packets: seq<(nat, seq<byte>)>, arrivals: seq<Arrival>, now: nat)
    requires PacketsConsecutive(packets)
    requires forall k :: 0 <= k < |arrivals| && arrivals[k].Data? ==> arrivals[k].index < |packets|
    ensures
      var b := Feed(PackAll(packets), arrivals, now);
      b.base == if Seen(arrivals) == {} then UNKNOWN else Base(Some(packets[0].0), true)
  {
    if arrivals == [] {
    } else {
      var batch := PackAll(packets);
      var init, last := arrivals[..|arrivals| - 1], arrivals[|arrivals| - 1];
      FeedBase(packets, init, now);
      FeedTracks(batch, init, now);
      assert arrivals == init + [last];
      SeenAppend(init, last);
      if last.Data? {
        AddBase(packets, Feed(batch, init, now), last.index);
      }
    }
  }

  lemma AddBase(packets: seq<(nat, seq<byte>)>, b: Inbound, j: nat)
    requires PacketsConsecutive(packets) && j < |packets| && Tracks(b, PackAll(packets))
    requires b.base == if b.mask == {} then UNKNOWN else Base(Some(packets[0].0), true)
    ensures AddData(b, j, PackAll(packets)[j]).base == Base(Some(packets[0].0), true)
  {
    UnpackPacked(packets[j].0, packets[j].1);
    AddTracks(b, PackAll(packets), j);
    assert DerivedBase(packets[j].0, j) == packets[0].0;
  }

  /** A consecutive batch that saw any data packet lists exactly the positions it did not see. */
  lemma MissingPositionsExact(packets: seq<(nat, seq<byte>)>, arrivals: seq<Arrival>, now: nat, p: nat)
    requires PacketsConsecutive(packets)
    requires forall k :: 0 <= k < |arrivals| && arrivals[k].Data? ==> arrivals[k].index < |packets|
    ensures
      p in MissingPositions(Feed(PackAll(packets), arrivals, now)) <==>
      Seen(arrivals) != {} && exists k :: 0 <= k < |packets| && k !in Seen(arrivals) && packets[k].0 == p
  {
    FeedBase(packets, arrivals, now);
    FeedTracks(PackAll(packets), arrivals, now);
  }
}
