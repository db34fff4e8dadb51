/**
 * Retransmit requests: single-chunk positions are merged into u16-length
 * ranges, cut into packets, and split into chunks again by the sender.
 */
module Ranges {
  import opened Common
  import opened Wire
  import opened Packets

  /** Merges two ranges that touch, on either side, unless the length leaves the u16. */
  function Concat(a: ByteRange, b: ByteRange): Option<ByteRange> {
    if (a.start + a.length == b.start || b.start + b.length == a.start) && a.length + b.length < U16 then
      Some(ByteRange(if b.start + b.length == a.start then b.start else a.start, a.length + b.length))
    else None
  }

  predicate Covers(r: ByteRange, p: nat) { r.start <= p < r.start + r.length }

  /** `c` is as long as both together and covers what they cover. */
  ghost predicate Joins(c: ByteRange, a: ByteRange, b: ByteRange) {
    c.length == a.length + b.length && forall p: nat :: Covers(c, p) <==> Covers(a, p) || Covers(b, p)
  }

  lemma OnlyNeighboursJoin(c: ByteRange, a: ByteRange, b: ByteRange)
    requires Joins(c, a, b) && a.length > 0 && b.length > 0
    ensures a.start + a.length == b.start || b.start + b.length == a.start
  {
    var lo, hi := if a.start <= b.start then a else b, if a.start <= b.start then b else a;
    assert Covers(c, lo.start) && Covers(c, hi.start) && Covers(c, c.start);
    assert Covers(c, c.start + c.length - 1) && Covers(c, lo.start + lo.length - 1);
    assert Covers(c, lo.start + lo.length) <==> Covers(a, lo.start + lo.length) || Covers(b, lo.start + lo.length);
  }

  /** Two ranges merge exactly when one range of the wire covers both and nothing twice, and into that one. */
  lemma ConcatExact(a: ByteRange, b: ByteRange)
    requires a.length > 0 && b.length > 0
    ensures Concat(a, b).Some? <==> a.length + b.length < U16 && exists c :: Joins(c, a, b)
    ensures Concat(a, b).Some? ==> Joins(Concat(a, b).value, a, b)
  {
    if Concat(a, b).Some? {
      assert Joins(Concat(a, b).value, a, b);
    }
    if c :| Joins(c, a, b) {
      OnlyNeighboursJoin(c, a, b);
    }
  }

  function CoalesceFrom(current: ByteRange, positions: seq<nat>): seq<ByteRange>
    decreases |positions|
  {
    if positions == [] then [current]
    else
      var next := ByteRange(positions[0], CHUNK);
      match Concat(current, next)
      case Some(merged) => CoalesceFrom(merged, positions[1..])
      case None => [current] + CoalesceFrom(next, positions[1..])
  }

  /** Left to right merge of single-chunk positions. */
  function Coalesced(positions: seq<nat>): seq<ByteRange> {
    if positions == [] then [] else CoalesceFrom(ByteRange(positions[0], CHUNK), positions[1..])
  }

  function SplitFrom(pos: nat, end: nat): seq<ByteRange>
    decreases end - pos
  {
    if pos >= end then []
    else
      var len := Min(end - pos, CHUNK);
      [ByteRange(pos, len)] + SplitFrom(pos + len, end)
  }

  /** Chunk-sized pieces of a range, the last possibly shorter. */
  function Split(r: ByteRange): seq<ByteRange> { SplitFrom(r.start, r.start + r.length) }

  /** Chunk indices the sender queues for a list of ranges. */
  function QueuedIndices(rs: seq<ByteRange>): seq<nat> {
    if rs == [] then [] else Starts(Split(rs[0])) + QueuedIndices(rs[1..])
  }

  function Starts(rs: seq<ByteRange>): seq<nat> {
    seq(|rs|, k requires 0 <= k < |rs| => rs[k].start / CHUNK)
  }

  function Indices(positions: seq<nat>): seq<nat> {
    seq(|positions|, k requires 0 <= k < |positions| => positions[k] / CHUNK)
  }

  /** A non-empty whole number of aligned chunks that fits the wire fields. */
  predicate Whole(r: ByteRange) {
    r.start % CHUNK == 0 && r.length % CHUNK == 0 && 0 < r.length < U16 && r.start + r.length <= U32
  }

  predicate Aligned(positions: seq<nat>) {
    forall k :: 0 <= k < |positions| ==> positions[k] % CHUNK == 0 && positions[k] + CHUNK <= U32
  }

  lemma AlignedSubset(a: seq<nat>, b: seq<nat>)
    requires Aligned(b) && forall p :: p in a ==> p in b
    ensures Aligned(a)
  {
    forall k | 0 <= k < |a| ensures a[k] % CHUNK == 0 && a[k] + CHUNK <= U32 {
      assert a[k] in b;
    }
  }

  function Run(first: nat, n: nat): seq<nat> { seq(n, k => first + k) }

  function RunOf(r: ByteRange): seq<nat> { Run(r.start / CHUNK, r.length / CHUNK) }

  /** The pieces of any range follow each other from its start, all a chunk long but the last, which ends it. */
  lemma {:induction false} SplitExact(pos: nat, end: nat, k: nat)
    requires pos <= end && k < |SplitFrom(pos, end)|
    ensures |SplitFrom(pos, end)| == RealChunks(end - pos)
    ensures SplitFrom(pos, end)[k] == ByteRange(pos + k * CHUNK, Min(CHUNK, end - pos - k * CHUNK))
    ensures pos + k * CHUNK < end
    decreases end - pos
  {
    var next := pos + Min(end - pos, CHUNK);
    var rest := SplitFrom(next, end);
    assert SplitFrom(pos, end) == [ByteRange(pos, next - pos)] + rest;
    assert next == end ==> rest == [];
    if rest != [] {
      SplitExact(next, end, if k == 0 then 0 else k - 1);
    }
  }

  lemma {:induction false} SplitWhole(r: ByteRange)
    requires Whole(r)
    ensures Starts(Split(r)) == RunOf(r)
  {
    SplitFromWhole(r.start / CHUNK, r.length / CHUNK);
  }

  lemma {:induction false} SplitFromWhole(first: nat, n: nat)
    ensures Starts(SplitFrom(first * CHUNK, (first + n) * CHUNK)) == Run(first, n)
    decreases n
  {
    if n == 0 {
    } else {
      SplitFromWhole(first + 1, n - 1);
      var tail := SplitFrom((first + 1) * CHUNK, (first + n) * CHUNK);
      assert SplitFrom(first * CHUNK, (first + n) * CHUNK) == [ByteRange(first * CHUNK, CHUNK)] + tail;
      assert Starts([ByteRange(first * CHUNK, CHUNK)] + tail) == [first] + Starts(tail);
    }
  }

  lemma ConcatRuns(a: ByteRange, b: ByteRange)
    requires Whole(a) && Whole(b) && Concat(a, b).Some?
    ensures Whole(Concat(a, b).value)
    ensures multiset(RunOf(Concat(a, b).value)) == multiset(RunOf(a)) + multiset(RunOf(b))
  {
    var c := Concat(a, b).value;
    assert RunOf(c) == if c.start == b.start then RunOf(b) + RunOf(a) else RunOf(a) + RunOf(b);
  }

  /** Merging keeps exactly the chunk indices asked for, with multiplicity, in any order. */
  lemma {:induction false} CoalesceKeepsIndices(current: ByteRange, positions: seq<nat>)
    requires Whole(current) && Aligned(positions)
    ensures forall k :: 0 <= k < |CoalesceFrom(current, positions)| ==> Whole(CoalesceFrom(current, positions)[k])
    ensures multiset(QueuedIndices(CoalesceFrom(current, positions))) ==
      multiset(RunOf(current)) + multiset(Indices(positions))
    decreases |positions|
  {
    SplitWhole(current);
    if positions == [] {
      assert QueuedIndices([current]) == RunOf(current) + [];
    } else {
      var next := ByteRange(positions[0], CHUNK);
      assert RunOf(next) == [positions[0] / CHUNK];
      assert Indices(positions) == [positions[0] / CHUNK] + Indices(positions[1..]);
      match Concat(current, next)
      case Some(merged) =>
        ConcatRuns(current, next);
        CoalesceKeepsIndices(merged, positions[1..]);
      case None =>
        CoalesceKeepsIndices(next, positions[1..]);
        var rest := CoalesceFrom(next, positions[1..]);
        assert ([current] + rest)[1..] == rest;
    }
  }

  lemma CoalescedIndices(positions: seq<nat>)
    requires Aligned(positions)
    ensures forall k :: 0 <= k < |Coalesced(positions)| ==> Whole(Coalesced(positions)[k])
    ensures multiset(QueuedIndices(Coalesced(positions))) == multiset(Indices(positions))
  {
    if positions != [] {
      CoalesceKeepsIndices(ByteRange(positions[0], CHUNK), positions[1..]);
      assert RunOf(ByteRange(positions[0], CHUNK)) == [positions[0] / CHUNK];
      assert Indices(positions) == [positions[0] / CHUNK] + Indices(positions[1..]);
    }
  }

  method CoalesceBytePositions(positions: seq<nat>) returns (out: seq<ByteRange>)
    requires Aligned(positions)
    ensures out == Coalesced(positions)
    ensures multiset(QueuedIndices(out)) == multiset(Indices(positions))
  {
    CoalescedIndices(positions);
    if positions == [] {
      return [];
    }
    var current := ByteRange(positions[0], CHUNK);
    out := [];
    for k := 1 to |positions|
      invariant out + CoalesceFrom(current, positions[k..]) == Coalesced(positions)
    {
      assert positions[k..][1..] == positions[k + 1..];
      var next := ByteRange(positions[k], CHUNK);
      match Concat(current, next)
      case Some(merged) =>
        current := merged;
      case None =>
        out := out + [current];
        current := next;
    }
    out := out + [current];
  }

  method SplitRangeIntoChunks(r: ByteRange) returns (out: seq<ByteRange>)
    ensures out == Split(r)
  {
    var pos, end := r.start, r.start + r.length;
    out := [];
    while pos < end
      invariant out + SplitFrom(pos, end) == Split(r)
      decreases end - pos
    {
      var len := Min(end - pos, CHUNK);
      out := out + [ByteRange(pos, len)];
      pos := pos + len;
    }
  }

  // ------------------------------------------------------- ascending input

  ghost predicate Ascending(positions: seq<nat>) {
    forall j, k :: 0 <= j < k < |positions| ==> positions[j] < positions[k]
  }

  /** Neighbours do not touch, or merging them would leave the u16. */
  ghost predicate Maximal(rs: seq<ByteRange>) {
    forall k :: 0 <= k < |rs| - 1 ==>
      && rs[k].start + rs[k].length <= rs[k + 1].start
      && (rs[k].start + rs[k].length == rs[k + 1].start ==> rs[k].length + CHUNK >= U16)
  }

  /** On sorted positions the ranges come out in order and as long as the wire allows. */
  lemma {:induction false} CoalesceMaximal(current: ByteRange, positions: seq<nat>)
    requires Whole(current) && Aligned(positions) && Ascending(positions)
    requires positions != [] ==> current.start + current.length <= positions[0]
    ensures var out := CoalesceFrom(current, positions); out != [] && out[0].start == current.start && Maximal(out)
    decreases |positions|
  {
    if positions == [] {
    } else {
      var next := ByteRange(positions[0], CHUNK);
      NextChunkApart(positions);
      match Concat(current, next)
      case Some(merged) =>
        CoalesceMaximal(merged, positions[1..]);
      case None =>
        CoalesceMaximal(next, positions[1..]);
        MaximalCons(current, CoalesceFrom(next, positions[1..]));
    }
  }

  lemma NextChunkApart(positions: seq<nat>)
    requires Aligned(positions) && Ascending(positions) && positions != []
    ensures |positions| > 1 ==> positions[0] + CHUNK <= positions[1]
    ensures Aligned(positions[1..]) && Ascending(positions[1..])
  {
    assert |positions| > 1 ==> positions[0] < positions[1];
  }

  lemma MaximalCons(r: ByteRange, rest: seq<ByteRange>)
    requires rest != [] && Maximal(rest) && r.start + r.length <= rest[0].start
    requires r.start + r.length == rest[0].start ==> r.length + CHUNK >= U16
    ensures Maximal([r] + rest)
  {
    forall k | 0 < k < |rest| ensures ([r] + rest)[k] == rest[k - 1] && ([r] + rest)[k + 1] == rest[k] {
    }
  }

  lemma CoalescedMaximal(positions: seq<nat>)
    requires Aligned(positions) && Ascending(positions)
    ensures Maximal(Coalesced(positions))
  {
    if positions != [] {
      assert |positions| > 1 ==> positions[0] < positions[1] && positions[0] + CHUNK <= positions[1];
      CoalesceMaximal(ByteRange(positions[0], CHUNK), positions[1..]);
    }
  }

  // ------------------------------------------------------- packets

  /** Consecutive groups of at most `n` ranges. */
  function Grouped(rs: seq<ByteRange>, n: nat): (r: seq<seq<ByteRange>>)
    requires n > 0
    ensures forall k :: 0 <= k < |r| ==> 0 < |r[k]| <= n
    decreases |rs|
  {
    if rs == [] then []
    else if |rs| <= n then [rs]
    else [rs[..n]] + Grouped(rs[n..], n)
  }

  /** The `k`th stretch of 228 ranges; only the last may be shorter. */
  function Stretch(rs: seq<ByteRange>, k: nat): seq<ByteRange>
    requires k * MAX_RANGES < |rs|
  {
    rs[k * MAX_RANGES..Min((k + 1) * MAX_RANGES, |rs|)]
  }

  lemma LaterStretch(rs: seq<ByteRange>, k: nat)
    requires 0 < k && k * MAX_RANGES < |rs|
    ensures (k - 1) * MAX_RANGES < |rs[MAX_RANGES..]| && Stretch(rs[MAX_RANGES..], k - 1) == Stretch(rs, k)
  {
  }

  lemma {:induction false} GroupCount(rs: seq<ByteRange>)
    ensures |Grouped(rs, MAX_RANGES)| == (|rs| + MAX_RANGES - 1) / MAX_RANGES
    decreases |rs|
  {
    if |rs| > MAX_RANGES {
      GroupCount(rs[MAX_RANGES..]);
    }
  }

  /** The groups are the stretches, in order. */
  lemma {:induction false} GroupedExact(rs: seq<ByteRange>, k: nat)
    requires k * MAX_RANGES < |rs|
    ensures k < |Grouped(rs, MAX_RANGES)| && Grouped(rs, MAX_RANGES)[k] == Stretch(rs, k)
    ensures |Grouped(rs, MAX_RANGES)| == (|rs| + MAX_RANGES - 1) / MAX_RANGES
    decreases |rs|
  {
    GroupCount(rs);
    if k > 0 {
      LaterStretch(rs, k);
      GroupedExact(rs[MAX_RANGES..], k - 1);
    } else if |rs| <= MAX_RANGES {
      assert rs[0..|rs|] == rs;
    }
  }

  lemma GroupedStep(ranges: seq<ByteRange>, at: nat)
    requires at < |ranges|
    ensures
      var next := Min(at + MAX_RANGES, |ranges|);
      Grouped(ranges[at..], MAX_RANGES) == [ranges[at..next]] + Grouped(ranges[next..], MAX_RANGES)
  {
    var next := Min(at + MAX_RANGES, |ranges|);
    assert ranges[at..][..next - at] == ranges[at..next];
    assert ranges[at..][next - at..] == ranges[next..];
    assert next == |ranges| ==> ranges[at..next] == ranges[at..] && ranges[next..] == [];
  }

  method DispatchRetransmitRequest(header: RetransmitPacket, ranges: seq<ByteRange>)
      returns (packets: seq<RetransmitPacket>)
    ensures |packets| == |Grouped(ranges, MAX_RANGES)|
    ensures forall k :: 0 <= k < |packets| ==> packets[k] == header.(payload := Grouped(ranges, MAX_RANGES)[k])
  {
    packets := [];
    var at := 0;
    ghost var groups: seq<seq<ByteRange>> := [];
    while at < |ranges|
      invariant at <= |ranges|
      invariant groups + Grouped(ranges[at..], MAX_RANGES) == Grouped(ranges, MAX_RANGES)
      invariant |packets| == |groups| && forall k :: 0 <= k < |packets| ==> packets[k] == header.(payload := groups[k])
    {
      var next := Min(at + MAX_RANGES, |ranges|);
      GroupedStep(ranges, at);
      assert groups + ([ranges[at..next]] + Grouped(ranges[next..], MAX_RANGES)) ==
             groups + [ranges[at..next]] + Grouped(ranges[next..], MAX_RANGES);
      packets := packets + [header.(payload := ranges[at..next])];
      groups := groups + [ranges[at..next]];
      at := next;
    }
  }

  /** What the sender queues on reading one request packet off the wire. */
  function QueuedFromWire(bytes: seq<byte>): seq<nat> {
    match DeserializeRetransmit(bytes)
    case None => []
    case Some(p) => QueuedIndices(p.payload)
  }

  function QueuedFromAll(header: RetransmitPacket, groups: seq<seq<ByteRange>>): seq<nat>
    requires forall k :: 0 <= k < |groups| ==> RetransmitOk(header.(payload := groups[k]))
  {
    if groups == [] then []
    else QueuedFromWire(SerializeRetransmit(header.(payload := groups[0]))) + QueuedFromAll(header, groups[1..])
  }

  lemma Associates(a: seq<nat>, b: seq<nat>, c: seq<nat>)
    ensures a + (b + c) == a + b + c
  {
  }

  lemma QueuedCons(r: ByteRange, rest: seq<ByteRange>)
    ensures QueuedIndices([r] + rest) == Starts(Split(r)) + QueuedIndices(rest)
  {
    assert ([r] + rest)[1..] == rest;
  }

  lemma {:induction false} QueuedConcat(a: seq<ByteRange>, b: seq<ByteRange>)
    ensures QueuedIndices(a + b) == QueuedIndices(a) + QueuedIndices(b)
  {
    if a == [] {
      assert a + b == b;
    } else {
      var first, later := a[0], a[1..];
      QueuedConcat(later, b);
      assert a == [first] + later && a + b == [first] + (later + b);
      QueuedCons(first, later);
      QueuedCons(first, later + b);
      Associates(Starts(Split(first)), QueuedIndices(later), QueuedIndices(b));
    }
  }

  lemma GroupFits(header: RetransmitPacket, rs: seq<ByteRange>)
    requires RetransmitOk(header) && forall k :: 0 <= k < |rs| ==> Whole(rs[k])
    ensures RetransmitOk(header.(payload := rs))
  {
    Widths();
    assert RetransmitHeader(header.(payload := rs)) == RetransmitHeader(header);
  }

  lemma GroupTravels(p: RetransmitPacket)
    requires RetransmitOk(p) && p.payload != []
    ensures QueuedFromWire(SerializeRetransmit(p)) == QueuedIndices(p.payload)
  {
    RetransmitPacketRoundTrip(p);
  }

  lemma FirstGroup(rs: seq<ByteRange>)
    requires rs != []
    ensures
      var first := rs[..Min(MAX_RANGES, |rs|)];
      Grouped(rs, MAX_RANGES) == [first] + Grouped(rs[|first|..], MAX_RANGES)
  {
    var first := rs[..Min(MAX_RANGES, |rs|)];
    assert |rs| <= MAX_RANGES ==> first == rs && rs[|first|..] == [];
  }

  lemma {:induction false} GroupsTravel(header: RetransmitPacket, rs: seq<ByteRange>)
    requires RetransmitOk(header) && forall k :: 0 <= k < |rs| ==> Whole(rs[k])
    ensures forall k :: 0 <= k < |Grouped(rs, MAX_RANGES)| ==>
      RetransmitOk(header.(payload := Grouped(rs, MAX_RANGES)[k]))
    ensures QueuedFromAll(header, Grouped(rs, MAX_RANGES)) == QueuedIndices(rs)
    decreases |rs|
  {
    if rs == [] {
    } else {
      var first := rs[..Min(MAX_RANGES, |rs|)];
      var rest := rs[|first|..];
      assert rs == first + rest;
      GroupFits(header, first);
      GroupTravels(header.(payload := first));
      GroupsTravel(header, rest);
      QueuedConcat(first, rest);
      FirstGroup(rs);
    }
  }

  /**
   * A request survives the whole trip: merging the positions, cutting the
   * ranges into packets of at most 228, writing and reading each packet and
   * splitting what it holds queues exactly the chunks asked for, with
   * multiplicity, for positions in any order.
   */
  lemma RequestRoundTrip(header: RetransmitPacket, positions: seq<nat>)
    requires RetransmitOk(header) && Aligned(positions)
    ensures
      var groups := Grouped(Coalesced(positions), MAX_RANGES);
      && MAX_RANGES == 228
      && (forall k :: 0 <= k < |groups| ==>
        0 < |groups[k]| <= MAX_RANGES && RetransmitOk(header.(payload := groups[k])))
      && multiset(QueuedFromAll(header, groups)) == multiset(Indices(positions))
  {
    CoalescedIndices(positions);
    GroupsTravel(header, Coalesced(positions));
  }
}
