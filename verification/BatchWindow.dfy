/**
 * Where a batch lies in the buffer, inferred from the packets of it that
 * arrived. The manager's mirror and the XOR batches use the same rule.
 */
module BatchWindow {
  import opened Common
  import opened Areas

  /** Start of a batch as one packet implies it; subtraction saturates at zero. */
  function DerivedBase(start: nat, index: nat): nat {
    if start >= index * CHUNK then start - index * CHUNK else 0
  }

  datatype Base = Base(at: Option<nat>, contiguous: bool)

  const UNKNOWN: Base := Base(None, true)

  /** The first packet sets the base; a later one that disagrees clears `contiguous` for good. */
  function Track(b: Base, index: nat, start: nat): Base {
    match b.at
    case None => b.(at := Some(DerivedBase(start, index)))
    case Some(existing) => if existing != DerivedBase(start, index) then b.(contiguous := false) else b
  }

  function TrackAll(starts: seq<nat>, received: seq<nat>): Base
    requires forall k :: 0 <= k < |received| ==> received[k] < |starts|
  {
    if received == [] then UNKNOWN
    else
      var j := received[|received| - 1];
      Track(TrackAll(starts, received[..|received| - 1]), j, starts[j])
  }

  /** Aligned chunk positions in strictly ascending order. */
  ghost predicate AscendingChunks(starts: seq<nat>) {
    && (forall k :: 0 <= k < |starts| ==> starts[k] % CHUNK == 0)
    && (forall j, k :: 0 <= j < k < |starts| ==> starts[j] < starts[k])
  }

  ghost predicate Consecutive(starts: seq<nat>) {
    && (forall k :: 0 <= k < |starts| ==> starts[k] == starts[0] + k * CHUNK)
  }

  /** In an ascending batch the saturating subtraction never saturates. */
  lemma {:induction false} BaseNeverSaturates(starts: seq<nat>, k: nat)
    requires AscendingChunks(starts) && k < |starts|
    ensures starts[k] >= k * CHUNK
    ensures DerivedBase(starts[k], k) == starts[k] - k * CHUNK
  {
    if k == 0 {
    } else {
      BaseNeverSaturates(starts, k - 1);
      assert starts[k - 1] < starts[k] && starts[k] % CHUNK == 0 && starts[k - 1] % CHUNK == 0;
    }
  }

  /** The base is the first packet's, and `contiguous` says all packets received agree on it. */
  lemma {:induction false} TrackedMeaning(starts: seq<nat>, received: seq<nat>)
    requires forall k :: 0 <= k < |received| ==> received[k] < |starts|
    ensures var b := TrackAll(starts, received);
            && (received == [] ==> b == UNKNOWN)
            && (received != [] ==> b.at == Some(DerivedBase(starts[received[0]], received[0])))
            && (b.contiguous <==>
              forall k :: 0 <= k < |received| ==> Some(DerivedBase(starts[received[k]], received[k])) == b.at)
  {
    if received == [] {
    } else {
      TrackedMeaning(starts, received[..|received| - 1]);
    }
  }

  /** A consecutive batch with at least one packet received is located exactly. */
  lemma ConsecutiveLocated(starts: seq<nat>, received: seq<nat>)
    requires AscendingChunks(starts) && Consecutive(starts) && received != []
    requires forall k :: 0 <= k < |received| ==> received[k] < |starts|
    ensures TrackAll(starts, received) == Base(Some(starts[0]), true)
  {
    TrackedMeaning(starts, received);
  }

  // ------------------------------------------------------- manager mirror

  datatype Window = Window(batchSize: nat, recoveryCount: nat, createdAt: nat, base: Base)

  function ActiveRange(w: Window): Option<Area> {
    if w.base.contiguous && w.base.at.Some? then Some(Area(w.base.at.value, w.base.at.value + w.batchSize * CHUNK))
    else None
  }

  /** For a consecutive batch the active range holds its chunks' positions and no other chunk's. */
  lemma ActiveRangeExact(starts: seq<nat>, received: seq<nat>, w: Window, pos: nat)
    requires AscendingChunks(starts) && Consecutive(starts) && received != []
    requires forall k :: 0 <= k < |received| ==> received[k] < |starts|
    requires w.batchSize == |starts| && w.base == TrackAll(starts, received)
    requires pos % CHUNK == 0
    ensures ActiveRange(w).Some?
    ensures Inside(ActiveRange(w).value, pos) <==> pos in starts
  {
    ConsecutiveLocated(starts, received);
    if Inside(ActiveRange(w).value, pos) {
      assert starts[(pos - starts[0]) / CHUNK] == pos;
    }
  }

  /** Among the aligned positions `a` holds those in `starts` and no other. */
  ghost predicate RangeExact(a: Area, starts: seq<nat>) {
    forall pos: nat :: pos % CHUNK == 0 ==> (Inside(a, pos) <==> pos in starts)
  }

  lemma {:induction false} AscendingGap(starts: seq<nat>, j: nat, k: nat)
    requires AscendingChunks(starts) && j <= k < |starts|
    ensures starts[k] >= starts[j] + (k - j) * CHUNK
    decreases k - j
  {
    if j == k {
    } else {
      AscendingGap(starts, j, k - 1);
      assert starts[k - 1] < starts[k] && starts[k] % CHUNK == 0 && starts[k - 1] % CHUNK == 0;
    }
  }

  /** As many ascending chunks as the range has room for, all of them inside it, leave no gap. */
  lemma ExactIsConsecutive(starts: seq<nat>, base: nat)
    requires AscendingChunks(starts) && starts != [] && base % CHUNK == 0
    requires RangeExact(Area(base, base + |starts| * CHUNK), starts)
    ensures Consecutive(starts)
  {
    var n := |starts|;
    assert Inside(Area(base, base + n * CHUNK), base) && base in starts;
    assert starts[0] in starts && starts[n - 1] in starts;
    var j :| 0 <= j < n && starts[j] == base;
    AscendingGap(starts, 0, j);
    assert starts[0] == base;
    forall k | 0 <= k < n ensures starts[k] == starts[0] + k * CHUNK {
      AscendingGap(starts, 0, k);
      AscendingGap(starts, k, n - 1);
      assert starts[k] % CHUNK == 0 && (base + k * CHUNK) % CHUNK == 0;
    }
  }

  /**
   * For an ascending batch with any packet received, the active range is there
   * and holds exactly the batch's chunks if and only if the batch is consecutive.
   */
  lemma ActiveRangeExactIff(starts: seq<nat>, received: seq<nat>, w: Window)
    requires AscendingChunks(starts) && received != []
    requires forall k :: 0 <= k < |received| ==> received[k] < |starts|
    requires w.batchSize == |starts| && w.base == TrackAll(starts, received)
    ensures (ActiveRange(w).Some? && RangeExact(ActiveRange(w).value, starts)) <==> Consecutive(starts)
  {
    if Consecutive(starts) {
      forall pos: nat | pos % CHUNK == 0
        ensures ActiveRange(w).Some? && (Inside(ActiveRange(w).value, pos) <==> pos in starts)
      {
        ActiveRangeExact(starts, received, w, pos);
      }
      assert 0 % CHUNK == 0;
      ConsecutiveLocated(starts, received);
    } else if ActiveRange(w).Some? && RangeExact(ActiveRange(w).value, starts) {
      TrackedMeaning(starts, received);
      BaseNeverSaturates(starts, received[0]);
      ExactIsConsecutive(starts, w.base.at.value);
    }
  }

  // ------------------------------------------------------- the mirror over runs

  /** One data packet as the mirror sees it. */
  datatype Sighting = Sighting(batch: nat, size: nat, recovery: nat, index: nat, start: nat, now: nat)

  type Mirror = map<nat, Window>

  /** The window of one packet's batch after the packet. */
  function Noted(table: Mirror, p: Sighting): Window {
    var w := if p.batch in table then table[p.batch] else Window(p.size, p.recovery, p.now, UNKNOWN);
    w.(base := Track(w.base, p.index, p.start))
  }

  function MirrorOf(packets: seq<Sighting>): Mirror {
    if packets == [] then map[]
    else
      var before, p := MirrorOf(packets[..|packets| - 1]), packets[|packets| - 1];
      before[p.batch := Noted(before, p)]
  }

  /** The indices of the packets of `batch`, in the order they came. */
  function IndicesOf(packets: seq<Sighting>, batch: nat): seq<nat> {
    if packets == [] then []
    else
      var before, p := IndicesOf(packets[..|packets| - 1], batch), packets[|packets| - 1];
      if p.batch == batch then before + [p.index] else before
  }

  /** Every packet of `batch` says where its own place in `starts` says. */
  ghost predicate From(packets: seq<Sighting>, batch: nat, starts: seq<nat>) {
    forall k :: 0 <= k < |packets| && packets[k].batch == batch ==>
      && packets[k].index < |starts| == packets[k].size
      && packets[k].start == starts[packets[k].index]
  }

  lemma FromInit(packets: seq<Sighting>, batch: nat, starts: seq<nat>)
    requires packets != [] && From(packets, batch, starts)
    ensures From(packets[..|packets| - 1], batch, starts)
  {
    assert forall k :: 0 <= k < |packets| - 1 ==> packets[..|packets| - 1][k] == packets[k];
  }

  lemma TrackOneMore(starts: seq<nat>, seen: seq<nat>, j: nat)
    requires j < |starts| && forall k :: 0 <= k < |seen| ==> seen[k] < |starts|
    ensures forall k :: 0 <= k < |seen + [j]| ==> (seen + [j])[k] < |starts|
    ensures TrackAll(starts, seen + [j]) == Track(TrackAll(starts, seen), j, starts[j])
  {
    assert (seen + [j])[..|seen|] == seen;
  }

  /** `table` has a window for `batch` exactly if packets `seen` of it came, and the window knows what they say. */
  ghost predicate Knows(table: Mirror, seen: seq<nat>, batch: nat, starts: seq<nat>) {
    && (forall k :: 0 <= k < |seen| ==> seen[k] < |starts|)
    && (batch in table <==> seen != [])
    && (batch in table ==> table[batch].batchSize == |starts| && table[batch].base == TrackAll(starts, seen))
  }

  lemma KnowsMore(table: Mirror, seen: seq<nat>, p: Sighting, batch: nat, starts: seq<nat>)
    requires Knows(table, seen, batch, starts)
    requires p.batch == batch ==> p.index < |starts| == p.size && p.start == starts[p.index]
    ensures Knows(table[p.batch := Noted(table, p)], if p.batch == batch then seen + [p.index] else seen, batch, starts)
  {
    if p.batch == batch {
      TrackOneMore(starts, seen, p.index);
    }
  }

  /**
   * However the packets of several batches interleave, a batch has a window
   * exactly when a packet of it came, and the window knows what the packets of
   * that batch alone say, whatever the others did.
   */
  lemma {:induction false} MirrorTracksEachBatch(packets: seq<Sighting>, batch: nat, starts: seq<nat>)
    requires From(packets, batch, starts)
    ensures Knows(MirrorOf(packets), IndicesOf(packets, batch), batch, starts)
  {
    if packets == [] {
    } else {
      var init, p := packets[..|packets| - 1], packets[|packets| - 1];
      FromInit(packets, batch, starts);
      MirrorTracksEachBatch(init, batch, starts);
      KnowsMore(MirrorOf(init), IndicesOf(init, batch), p, batch, starts);
    }
  }

  /** A window dates from the first packet of its batch, and keeps what that packet said of the batch. */
  lemma {:induction false} MirrorDates(packets: seq<Sighting>, first: nat)
    requires first < |packets| && forall j :: 0 <= j < first ==> packets[j].batch != packets[first].batch
    ensures
      var p := packets[first];
      && p.batch in MirrorOf(packets)
      && var w := MirrorOf(packets)[p.batch];
         w.createdAt == p.now && w.batchSize == p.size && w.recoveryCount == p.recovery
  {
    var init := packets[..|packets| - 1];
    if first < |init| {
      MirrorDates(init, first);
    } else {
      NotMirrored(init, packets[first].batch);
    }
  }

  lemma {:induction false} NotMirrored(packets: seq<Sighting>, batch: nat)
    requires forall j :: 0 <= j < |packets| ==> packets[j].batch != batch
    ensures batch !in MirrorOf(packets)
  {
    if packets == [] {
    } else {
      NotMirrored(packets[..|packets| - 1], batch);
    }
  }

  /**
   * Outside consecutive batches the inference can overshoot: chunks 0, 1 and 5
   * with only the first two received look like chunks 0, 1 and 2.
   */
  lemma WindowOvershoots()
    ensures
      var starts := [0, CHUNK, 5 * CHUNK];
      && AscendingChunks(starts)
      && ActiveRange(Window(3, 0, 0, TrackAll(starts, [0, 1]))) == Some(Area(0, 3 * CHUNK))
      && 2 * CHUNK !in starts
  {
    var starts := [0, CHUNK, 5 * CHUNK];
    assert [0, 1][..1] == [0] && [0][..0] == [];
    assert TrackAll(starts, [0]) == Base(Some(0), true);
    assert TrackAll(starts, [0, 1]) == Base(Some(0), true);
  }

  class SessionFecState {
    var table: Mirror

    constructor ()
      ensures table == map[]
    {
      table := map[];
    }

    method AddData(batchId: nat, batchSize: nat, recoveryCount: nat, batchPos: nat, start: nat, now: nat)
      modifies this
      ensures table.Keys == old(table).Keys + {batchId}
      ensures forall b :: b in old(table) && b != batchId ==> table[b] == old(table)[b]
      ensures table[batchId] == Noted(old(table), Sighting(batchId, batchSize, recoveryCount, batchPos, start, now))
    {
      var w := if batchId in table then table[batchId] else Window(batchSize, recoveryCount, now, UNKNOWN);
      table := table[batchId := w.(base := Track(w.base, batchPos, start))];
    }

    method Evict(batchId: nat)
      modifies this
      ensures table == old(table) - {batchId}
    {
      table := table - {batchId};
    }

    /** Sweeps stale entries, then lists the ranges of the rest in no particular order. */
    method ActiveByteRanges(now: nat) returns (active: seq<Area>)
      modifies this
      ensures table == map b | b in old(table) && !Expired(old(table)[b].createdAt, now, DISCARD_MS) :: old(table)[b]
      ensures forall a :: a in active <==> exists b :: b in table && ActiveRange(table[b]) == Some(a)
    {
      table := map b | b in table && !Expired(table[b].createdAt, now, DISCARD_MS) :: table[b];
      active := [];
      var left := table.Keys;
      while left != {}
        invariant left <= table.Keys
        invariant forall a :: a in active <==> exists b :: b in table && b !in left && ActiveRange(table[b]) == Some(a)
        decreases left
      {
        var b :| b in left;
        if ActiveRange(table[b]).Some? {
          active := active + [ActiveRange(table[b]).value];
        }
        left := left - {b};
      }
    }
  }
}
