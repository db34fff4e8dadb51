/**
 * The receiver's request policy: which missing chunks are asked for, and how a
 * time-limited table of pending requests keeps them from being asked for twice.
 */
module Requests {
  import opened Common
  import opened Areas
  import opened BatchWindow
  import opened Buffer
  import opened Scoring
  import opened Writeable
  import opened Ranges

  type Pending = map<nat, nat>

  function Swept(pending: Pending, clock: nat): Pending {
    map i | i in pending && !Expired(pending[i], clock, DISCARD_MS) :: pending[i]
  }

  predicate Missing(rx: Rx, pos: nat)
    requires Shaped(rx)
  {
    pos <= |rx.bytes| && !rx.filled[pos / CHUNK]
  }

  /** The positions taken, in order, and the pending table with each of them stamped `now`. */
  function Reserve(rx: Rx, pending: Pending, positions: seq<nat>, now: nat): (r: (seq<nat>, Pending))
    requires Shaped(rx)
  {
    if positions == [] then ([], pending)
    else
      var (taken, after) := Reserve(rx, pending, positions[..|positions| - 1], now);
      var p := positions[|positions| - 1];
      if Missing(rx, p) && p / CHUNK !in after then (taken + [p], after[p / CHUNK := now]) else (taken, after)
  }

  /** `p` is worth taking from a table already swept. */
  predicate Wanted(rx: Rx, pending: Pending, p: nat)
    requires Shaped(rx)
  {
    Missing(rx, p) && p / CHUNK !in pending
  }

  /**
   * A position is taken only for a missing chunk with no live request, once per
   * chunk, and every such chunk among the positions is taken and stamped.
   */
  lemma {:induction false} ReserveMeaning(rx: Rx, pending: Pending, positions: seq<nat>, now: nat)
    requires Shaped(rx)
    ensures
      var (taken, after) := Reserve(rx, pending, positions, now);
      && (forall p :: p in taken ==> p in positions && Wanted(rx, pending, p))
      && Distinct(Indices(taken))
      && (forall p :: p in positions && Wanted(rx, pending, p) ==> p / CHUNK in Indices(taken))
      && (forall i :: i in after <==> i in pending || i in Indices(taken))
      && (forall i :: i in after ==> after[i] == if i in pending then pending[i] else now)
  {
    if positions == [] {
    } else {
      var init, p := positions[..|positions| - 1], positions[|positions| - 1];
      assert positions == init + [p];
      ReserveMeaning(rx, pending, init, now);
      var (taken, after) := Reserve(rx, pending, init, now);
      assert Indices(taken + [p]) == Indices(taken) + [p / CHUNK];
    }
  }

  // ------------------------------------------------------- sweep

  function AreaPositions(a: Area): seq<nat> {
    if a.start < a.end then seq(a.end - a.start, k => (a.start + k) * CHUNK) else []
  }

  /** Positions of every chunk in the areas, in area order. */
  function Positions(areas: seq<Area>): seq<nat> {
    if areas == [] then [] else AreaPositions(areas[0]) + Positions(areas[1..])
  }

  predicate InActive(active: seq<Area>, p: nat) {
    exists k :: 0 <= k < |active| && Inside(active[k], p)
  }

  /** The positions that no active batch still covers. */
  function Inactive(active: seq<Area>, positions: seq<nat>): seq<nat> {
    if positions == [] then []
    else if InActive(active, positions[0]) then Inactive(active, positions[1..])
    else [positions[0]] + Inactive(active, positions[1..])
  }

  lemma InActiveMeaning(active: seq<Area>, p: nat)
    ensures InActive(active, p) <==> exists a :: a in active && a.start <= p < a.end
  {
    if a :| a in active && a.start <= p < a.end {
      var k :| 0 <= k < |active| && active[k] == a;
      assert Inside(active[k], p);
    }
  }

  lemma {:induction false} PositionsMeaning(areas: seq<Area>, p: nat)
    ensures p in Positions(areas) <==> p % CHUNK == 0 && Covered(areas, p / CHUNK)
  {
    if areas == [] {
    } else {
      PositionsMeaning(areas[1..], p);
      var a := areas[0];
      assert areas == [a] + areas[1..];
      CoveredConcat([a], areas[1..], p / CHUNK);
      assert Covered([a], p / CHUNK) <==> Inside([a][0], p / CHUNK);
      if p % CHUNK == 0 && Inside(a, p / CHUNK) {
        assert AreaPositions(a)[p / CHUNK - a.start] == p;
      }
    }
  }

  lemma {:induction false} InactiveMeaning(active: seq<Area>, positions: seq<nat>, p: nat)
    ensures p in Inactive(active, positions) <==> p in positions && !InActive(active, p)
  {
    if positions == [] {
    } else {
      InactiveMeaning(active, positions[1..], p);
    }
  }

  /** Chunk `i` is asked for by a sweep: missing, not expected from a live batch, not freshly requested. */
  predicate SweepWants(rx: Rx, pending: Pending, active: seq<Area>, i: nat)
    requires Shaped(rx)
  {
    i < |rx.filled| && !rx.filled[i] && !InActive(active, i * CHUNK) && i !in pending
  }

  lemma {:induction false} InactiveAligned(active: seq<Area>, positions: seq<nat>)
    requires Aligned(positions)
    ensures Aligned(Inactive(active, positions))
  {
    if positions == [] {
    } else {
      InactiveAligned(active, positions[1..]);
    }
  }

  lemma PositionsAligned(areas: seq<Area>, filled: seq<bool>, len: nat)
    requires Indexes(areas, filled) && |filled| == len / CHUNK + 1 && len + U16 < U32
    ensures Aligned(Positions(areas))
  {
    forall k | 0 <= k < |Positions(areas)|
      ensures Positions(areas)[k] % CHUNK == 0 && Positions(areas)[k] + CHUNK <= U32
    {
      var p := Positions(areas)[k];
      PositionsMeaning(areas, p);
      var j :| 0 <= j < |areas| && Inside(areas[j], p / CHUNK);
    }
  }

  /** A sweep offers exactly the positions of missing chunks outside the active ranges. */
  lemma SweepOffers(rx: Rx, areas: seq<Area>, active: seq<Area>, i: nat)
    requires Shaped(rx) && Indexes(areas, rx.filled)
    ensures i * CHUNK in Inactive(active, Positions(areas)) <==>
      i < |rx.filled| && !rx.filled[i] && !InActive(active, i * CHUNK)
  {
    PositionsMeaning(areas, i * CHUNK);
    InactiveMeaning(active, Positions(areas), i * CHUNK);
    assert i >= |rx.filled| ==> !Covered(areas, i);
  }

  /** A sweep takes and stamps exactly the wanted chunks, each once. */
  lemma SweepTakes(rx: Rx, areas: seq<Area>, pending: Pending, active: seq<Area>, now: nat, i: nat)
    requires Shaped(rx) && Indexes(areas, rx.filled) && |rx.bytes| + U16 < U32
    ensures
      var (taken, after) := Reserve(rx, pending, Inactive(active, Positions(areas)), now);
      && Aligned(taken) && Distinct(Indices(taken))
      && (i in Indices(taken) <==> SweepWants(rx, pending, active, i))
      && (i in after <==> i in pending || SweepWants(rx, pending, active, i))
  {
    var offered := Inactive(active, Positions(areas));
    var taken := Reserve(rx, pending, offered, now).0;
    PositionsAligned(areas, rx.filled, |rx.bytes|);
    InactiveAligned(active, Positions(areas));
    ReserveMeaning(rx, pending, offered, now);
    AlignedSubset(taken, offered);
    SweepOffers(rx, areas, active, i);
    if i in Indices(taken) {
      var k :| 0 <= k < |taken| && taken[k] / CHUNK == i;
      assert taken[k] in taken && taken[k] == i * CHUNK;
    }
    if SweepWants(rx, pending, active, i) {
      assert (i * CHUNK) / CHUNK == i;
      assert Wanted(rx, pending, i * CHUNK);
    }
  }

  /** What the sender queues for a sweep is exactly the wanted chunks, each once. */
  lemma SweepQueuesWanted(rx: Rx, areas: seq<Area>, pending: Pending, active: seq<Area>, now: nat, i: nat)
    requires Shaped(rx) && Indexes(areas, rx.filled) && |rx.bytes| + U16 < U32
    ensures
      var taken := Reserve(rx, pending, Inactive(active, Positions(areas)), now).0;
      Aligned(taken) && multiset(QueuedIndices(Coalesced(taken)))[i] ==
        if SweepWants(rx, pending, active, i) then 1 else 0
  {
    SweepTakes(rx, areas, pending, active, now, i);
    var taken := Reserve(rx, pending, Inactive(active, Positions(areas)), now).0;
    CoalescedIndices(taken);
    TakenOnce(Indices(taken), i);
  }

  lemma {:induction false} TakenOnce(s: seq<nat>, i: nat)
    requires Distinct(s)
    ensures multiset(s)[i] == if i in s then 1 else 0
  {
    if s == [] {
    } else {
      TakenOnce(s[1..], i);
      assert s == [s[0]] + s[1..];
    }
  }

  /** No sweep asks for a chunk of a consecutive batch whose window is live. */
  lemma LiveBatchNotAsked(
      rx: Rx, pending: Pending, active: seq<Area>, starts: seq<nat>, received: seq<nat>, w: Window, i: nat)
    requires Shaped(rx) && AscendingChunks(starts) && Consecutive(starts) && received != []
    requires forall k :: 0 <= k < |received| ==> received[k] < |starts|
    requires w.batchSize == |starts| && w.base == TrackAll(starts, received)
    requires ActiveRange(w).Some? ==> ActiveRange(w).value in active
    requires i * CHUNK in starts
    ensures !SweepWants(rx, pending, active, i)
  {
    ActiveRangeExact(starts, received, w, i * CHUNK);
    InActiveMeaning(active, i * CHUNK);
  }

  /** Once the batch windows and the pending requests have run out, a sweep asks for every missing chunk. */
  lemma ExpiredSweepIsComplete(rx: Rx, areas: seq<Area>, pending: Pending, swept: nat, now: nat, i: nat)
    requires Shaped(rx) && Indexes(areas, rx.filled) && |rx.bytes| + U16 < U32
    requires forall j :: j in pending ==> Expired(pending[j], swept, DISCARD_MS)
    ensures
      var taken := Reserve(rx, Swept(pending, swept), Inactive([], Positions(areas)), now).0;
      i in QueuedIndices(Coalesced(taken)) <==> i < |rx.filled| && !rx.filled[i]
  {
    SweepQueuesWanted(rx, areas, Swept(pending, swept), [], now, i);
    var queued := QueuedIndices(Coalesced(Reserve(rx, Swept(pending, swept), Inactive([], Positions(areas)), now).0));
    assert i in queued <==> i in multiset(queued);
  }

  // ------------------------------------------------------- arrivals

  /** Requests wait for missing chunks only. */
  ghost predicate OnlyMissing(rx: Rx, pending: Pending) {
    forall i :: i in pending ==> i < |rx.filled| && !rx.filled[i]
  }

  /** What one data packet does to buffer and table: a refused write leaves both alone. */
  function Arrived(rx: Rx, pending: Pending, pos: nat, data: seq<byte>): (r: (Rx, Pending))
    requires Shaped(rx)
    ensures Shaped(r.0)
    ensures OnlyMissing(rx, pending) ==> OnlyMissing(r.0, r.1)
    ensures forall i :: i in pending && i !in r.1 ==> i < |r.0.filled| && r.0.filled[i]
  {
    match Written(rx, pos, data)
    case Ok(v) => (v, pending - {pos / CHUNK})
    case Err(_) => (rx, pending)
  }

  /** Every missing chunk has a request that is still fresh at `clock`. */
  ghost predicate AllAsked(rx: Rx, pending: Pending, clock: nat) {
    forall i: nat :: i < |rx.filled| && !rx.filled[i] ==> i in pending && !Expired(pending[i], clock, DISCARD_MS)
  }

  /** While that holds no decider asks for anything, whatever positions it comes up with. */
  lemma {:induction false} QuietWhileAsked(rx: Rx, pending: Pending, positions: seq<nat>, swept: nat, now: nat)
    requires Shaped(rx) && AllAsked(rx, pending, swept)
    ensures Reserve(rx, Swept(pending, swept), positions, now) == ([], Swept(pending, swept))
  {
    if positions == [] {
    } else {
      QuietWhileAsked(rx, pending, positions[..|positions| - 1], swept, now);
    }
  }

  /** A sweep of everything missing makes it so for the time to live of a request. */
  lemma SweepAsksAll(rx: Rx, areas: seq<Area>, pending: Pending, active: seq<Area>, now: nat, clock: nat)
    requires Shaped(rx) && Indexes(areas, rx.filled) && |rx.bytes| + U16 < U32
    requires forall i: nat :: i < |rx.filled| && !rx.filled[i] ==> SweepWants(rx, pending, active, i)
    requires now <= clock <= now + DISCARD_MS
    ensures AllAsked(rx, Reserve(rx, pending, Inactive(active, Positions(areas)), now).1, clock)
  {
    var offered := Inactive(active, Positions(areas));
    ReserveMeaning(rx, pending, offered, now);
    forall i: nat | i < |rx.filled| && !rx.filled[i] ensures i in Reserve(rx, pending, offered, now).1 {
      SweepTakes(rx, areas, pending, active, now, i);
    }
  }

  /** Arrivals keep it so; seeks touch neither side of it. */
  lemma ArrivalKeepsAsked(rx: Rx, pending: Pending, pos: nat, data: seq<byte>, clock: nat)
    requires Shaped(rx) && AllAsked(rx, pending, clock)
    ensures AllAsked(Arrived(rx, pending, pos, data).0, Arrived(rx, pending, pos, data).1, clock)
  {
  }

  // ------------------------------------------------------- the class

  class StreamingFrom {
    const buffer: WriteableBuffer
    var pending: Pending

    ghost predicate Valid()
      reads this, buffer, buffer.buffer
    {
      buffer.Valid() && buffer.buffer.Length + U16 < U32
    }

    constructor (buffer: WriteableBuffer)
      requires buffer.Valid() && buffer.buffer.Length + U16 < U32
      ensures Valid() && this.buffer == buffer && pending == map[]
    {
      this.buffer := buffer;
      pending := map[];
    }

    /** Sweeps stale requests at time `swept`, then takes what is missing and not pending at `now`. */
    method ReserveForRequest(positions: seq<nat>, swept: nat, now: nat) returns (taken: seq<nat>)
      requires Valid()
      modifies this
      ensures Valid()
      ensures (taken, pending) == Reserve(buffer.View(), Swept(old(pending), swept), positions, now)
    {
      pending := Swept(pending, swept);
      taken := [];
      for k := 0 to |positions|
        invariant Valid()
        invariant (taken, pending) == Reserve(buffer.View(), Swept(old(pending), swept), positions[..k], now)
      {
        assert positions[..k + 1][..k] == positions[..k];
        var p := positions[k];
        if p <= buffer.buffer.Length && !buffer.filled[p / CHUNK] && p / CHUNK !in pending {
          pending := pending[p / CHUNK := now];
          taken := taken + [p];
        }
      }
      assert positions[..|positions|] == positions;
    }

    method ClearPending(position: nat)
      requires Valid()
      modifies this
      ensures Valid() && pending == old(pending) - {position / CHUNK}
    {
      pending := pending - {position / CHUNK};
    }

    /**
     * Writes a packet and, if it was taken in, drops its request: requests go
     * on waiting for missing chunks only, and a request is dropped only for a
     * chunk that is there now.
     */
    method ReceiveChunk(position: nat, payload: seq<byte>) returns (written: bool)
      requires Valid()
      modifies this, buffer, buffer.buffer
      ensures Valid()
      ensures OnlyMissing(old(buffer.View()), old(pending)) ==> OnlyMissing(buffer.View(), pending)
      ensures written <==> Written(old(buffer.View()), position, payload).Ok?
      ensures (buffer.View(), pending) == Arrived(old(buffer.View()), old(pending), position, payload)
      ensures forall i :: i in old(pending) && i !in pending ==> i < |buffer.filled| && buffer.filled[i]
    {
      var r := buffer.Write(position, payload);
      written := r.Ok?;
      if written {
        ClearPending(position);
      }
    }

    /** The shared tail of both deciders: drop what live batches cover, reserve the rest, merge it. */
    method RequestAreas(areas: seq<Area>, active: seq<Area>, swept: nat, now: nat) returns (out: seq<ByteRange>)
      requires Valid() && Aligned(Positions(areas))
      modifies this
      ensures Valid()
      ensures
        var r := Reserve(buffer.View(), Swept(old(pending), swept), Inactive(active, Positions(areas)), now);
        out == Coalesced(r.0) && pending == r.1
    {
      var offered := Inactive(active, Positions(areas));
      InactiveAligned(active, Positions(areas));
      var taken := ReserveForRequest(offered, swept, now);
      ReserveMeaning(buffer.View(), Swept(old(pending), swept), offered, now);
      AlignedSubset(taken, offered);
      out := CoalesceBytePositions(taken);
    }

    /** Ask for the best-scoring holes only. */
    method ScorePolicyPick(active: seq<Area>, swept: nat, now: nat) returns (out: seq<ByteRange>)
      requires Valid()
      modifies this
      ensures Valid()
      ensures exists top ::
                && IsTop(top, Passing(ScoresOf(buffer.invalidAreas, buffer.filled, buffer.head / CHUNK)))
                && var offered := Inactive(active, Positions(Holes(top)));
                   var r := Reserve(buffer.View(), Swept(old(pending), swept), offered, now);
                   out == Coalesced(r.0) && pending == r.1
    {
      var picked := buffer.RequestableAreas();
      ghost var top :| IsTop(top, Passing(ScoresOf(buffer.invalidAreas, buffer.filled, buffer.head / CHUNK)))
        && picked == Holes(top);
      TopFromIndex(buffer.invalidAreas, buffer.filled, buffer.head / CHUNK, top);
      PickedAligned(buffer.View(), buffer.invalidAreas, picked);
      out := RequestAreas(picked, active, swept, now);
    }

    /** Ask for every hole: the chunks queued are the missing ones neither active nor freshly pending. */
    method FinalizeSweepPick(active: seq<Area>, swept: nat, now: nat) returns (out: seq<ByteRange>)
      requires Valid()
      modifies this
      ensures Valid()
      ensures forall i: nat ::
        multiset(QueuedIndices(out))[i] ==
          if SweepWants(buffer.View(), Swept(old(pending), swept), active, i) then 1 else 0
      ensures forall i: nat :: i in pending <==>
        i in Swept(old(pending), swept) || SweepWants(buffer.View(), Swept(old(pending), swept), active, i)
    {
      PositionsAligned(buffer.invalidAreas, buffer.filled, buffer.buffer.Length);
      ghost var live := Swept(pending, swept);
      out := RequestAreas(buffer.invalidAreas, active, swept, now);
      forall i: nat
        ensures multiset(QueuedIndices(out))[i] == if SweepWants(buffer.View(), live, active, i) then 1 else 0
        ensures i in pending <==> i in live || SweepWants(buffer.View(), live, active, i)
      {
        SweepQueuesWanted(buffer.View(), buffer.invalidAreas, live, active, now, i);
        SweepTakes(buffer.View(), buffer.invalidAreas, live, active, now, i);
      }
    }
  }

  lemma TopFromIndex(areas: seq<Area>, filled: seq<bool>, headChunk: nat, top: seq<Scored>)
    requires Separated(areas) && IsTop(top, Passing(ScoresOf(areas, filled, headChunk)))
    ensures forall a :: a in Holes(top) ==> a in areas
  {
    forall k | 0 <= k < |top| ensures top[k].0 in areas {
      assert top[k] in Passing(ScoresOf(areas, filled, headChunk));
    }
  }

  lemma PickedAligned(rx: Rx, areas: seq<Area>, picked: seq<Area>)
    requires Shaped(rx) && Indexes(areas, rx.filled) && |rx.bytes| + U16 < U32
    requires forall a :: a in picked ==> a in areas
    ensures Aligned(Positions(picked))
  {
    forall k | 0 <= k < |Positions(picked)|
      ensures Positions(picked)[k] % CHUNK == 0 && Positions(picked)[k] + CHUNK <= U32
    {
      var p := Positions(picked)[k];
      PositionsMeaning(picked, p);
      var j :| 0 <= j < |picked| && Inside(picked[j], p / CHUNK);
      assert picked[j] in areas;
    }
  }
}
