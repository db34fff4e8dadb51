/**
 * The one way an undisturbed round leaves a stream unfinished: everything has
 * arrived but the empty chunk behind a length that is a multiple of the chunk
 * size. From then on no write is accepted, so nothing sets off a sweep; only the
 * pruning of the batch that carried the chunk can still ask for it.
 */
module Stall {
  import opened Common
  import opened Buffer
  import opened Completion
  import opened Delivery
  import opened Packets
  import Protocol
  import opened Ranges
  import opened Requests
  import opened Sending
  import opened XorFec

  /** Only the empty chunk at the end is missing. */
  ghost predicate OnlyEndLeft(src: seq<byte>, rx: Rx) {
    && Faithful(rx, src) && HeadAtEnd(rx) && |src| % CHUNK == 0
    && (forall i: nat :: i < |rx.filled| ==> (!rx.filled[i] <==> i * CHUNK == |src|))
  }

  // ---------------------------------------------------------------- no further write

  /** Of the chunks of the source a buffer in this state takes the empty one, which makes it done, and no other. */
  lemma OnlyEndAccepted(src: seq<byte>, rx: Rx, p: Packet)
    requires OnlyEndLeft(src, rx) && Protocol.IsChunk(src, p)
    ensures if p == (|src|, []) then Written(rx, p.0, p.1).Ok? && Done(Written(rx, p.0, p.1).value)
            else Written(rx, p.0, p.1) == Err(Occupied)
  {
    var i := p.0 / CHUNK;
    assert p == (i * CHUNK, ChunkBytes(src, i));
    OwnBytesAccepted(rx, src, i);
    if p == (|src|, []) {
      assert i == |src| / CHUNK && i * CHUNK == |src|;
    }
  }

  /** No data packet that was ever sent is accepted: the empty one does not pass decryption. */
  lemma NoDataAccepted(src: seq<byte>, log: seq<Batch>, rx: Rx, m: Protocol.Message)
    requires OnlyEndLeft(src, rx) && Protocol.LogOk(src, log)
    requires m.DataMessage? && Protocol.Receivable(log, m)
    ensures Written(rx, m.pos, m.payload) == Err(Occupied)
  {
    Protocol.FaithfulPackable(src, log[m.batch - 1]);
    assert Protocol.IsChunk(src, log[m.batch - 1][m.index]);
    OnlyEndAccepted(src, rx, (m.pos, m.payload));
  }

  lemma DoneRefuses(rx: Rx, pos: nat, data: seq<byte>)
    requires Shaped(rx) && Done(rx)
    ensures Written(rx, pos, data).Err? && Sought(rx, pos).0 == rx
  {
  }

  /** The buffer as it was at the stall, or done. */
  ghost predicate SameOrDone(stalled: Rx, rx: Rx) {
    rx == stalled || (Shaped(rx) && Done(rx))
  }

  lemma SettleStays(src: seq<byte>, stalled: Rx, r: Protocol.Receiver, p: Packet, fromData: bool)
    requires OnlyEndLeft(src, stalled) && Shaped(r.rx) && SameOrDone(stalled, r.rx) && Protocol.IsChunk(src, p)
    ensures SameOrDone(stalled, Protocol.Settle(r, p, fromData).rx)
  {
    if r.rx == stalled {
      OnlyEndAccepted(src, stalled, p);
    } else {
      DoneRefuses(r.rx, p.0, p.1);
    }
  }

  lemma SeekStays(src: seq<byte>, stalled: Rx, rx: Rx, pos: nat)
    requires OnlyEndLeft(src, stalled) && Shaped(rx) && SameOrDone(stalled, rx)
    ensures SameOrDone(stalled, Sought(rx, pos).0)
  {
    if rx != stalled {
      DoneRefuses(rx, pos, []);
    }
  }

  lemma StepStays(src: seq<byte>, stalled: Rx, s: Protocol.State, step: Protocol.Step)
    requires OnlyEndLeft(src, stalled) && Protocol.WellFormed(src, s) && Protocol.Safe(src, s)
    requires SameOrDone(stalled, s.receiver.rx)
    ensures SameOrDone(stalled, Protocol.Next(src, s, step).receiver.rx)
  {
    match step
    case ReceiveData(m) =>
      if m.DataMessage? && Protocol.Receivable(s.log, m) {
        Protocol.FaithfulPackable(src, s.log[m.batch - 1]);
        assert Protocol.IsChunk(src, s.log[m.batch - 1][m.index]);
        SettleStays(src, stalled, s.receiver, (m.pos, m.payload), true);
      }
    case WriteRecovered(k) =>
      if k < |s.receiver.recovered| {
        SettleStays(src, stalled, s.receiver, s.receiver.recovered[k], false);
      }
    case LocalSeek(pos) => SeekStays(src, stalled, s.receiver.rx, pos);
    case _ =>
  }

  function RunOn(src: seq<byte>, s: Protocol.State, steps: seq<Protocol.Step>): (r: Protocol.State)
    requires Protocol.WellFormed(src, s)
    ensures Protocol.WellFormed(src, r)
  {
    if steps == [] then s
    else Protocol.Next(src, RunOn(src, s, steps[..|steps| - 1]), steps[|steps| - 1])
  }

  /**
   * Whatever happens after such a state, no write is accepted but the one of the
   * recovered empty chunk, and that one makes the receiver done. Since a sweep
   * is set off by accepted writes alone, there is none in between.
   */
  lemma {:induction false} StallIsFinal(src: seq<byte>, s: Protocol.State, steps: seq<Protocol.Step>)
    requires |src| < U32 && Protocol.WellFormed(src, s) && Protocol.Safe(src, s)
    requires OnlyEndLeft(src, s.receiver.rx)
    ensures Protocol.Safe(src, RunOn(src, s, steps))
    ensures SameOrDone(s.receiver.rx, RunOn(src, s, steps).receiver.rx)
  {
    if steps == [] {
    } else {
      var before := RunOn(src, s, steps[..|steps| - 1]);
      StallIsFinal(src, s, steps[..|steps| - 1]);
      StepStays(src, s.receiver.rx, before, steps[|steps| - 1]);
      Protocol.NextSafe(src, before, steps[|steps| - 1]);
    }
  }

  // ---------------------------------------------------------------- what a round leaves

  /** A round that does not complete the stream leaves only the end, and the sender drained. */
  lemma RoundStallsAtEnd(src: seq<byte>, rx: Rx, s: Sender, k: nat)
    requires Faithful(rx, src) && HeadAtEnd(rx) && |src| < U32
    requires HeadOk(src, s.head) && Running(s) && k >= Bound(src, s)
    requires forall i: nat :: i * CHUNK < |src| && i < |rx.filled| && !rx.filled[i] ==> i in s.extras
    ensures
      var r := DeliverTicks(src, Trace(s, {}), rx, k);
      Done(r) || (OnlyEndLeft(src, r) && Drained(src, Ticks(src, Trace(s, {}), k).s))
  {
    RoundOutcome(src, rx, s, k);
    LeftAtEnd(src, DeliverTicks(src, Trace(s, {}), rx, k));
  }

  lemma LeftAtEnd(src: seq<byte>, r: Rx)
    requires Faithful(r, src) && HeadAtEnd(r)
    requires forall i: nat :: i < |r.filled| && i * CHUNK < |src| ==> r.filled[i]
    ensures Done(r) || OnlyEndLeft(src, r)
  {
    if !Done(r) {
      RealChunksSuffice(src, r);
      assert |src| / CHUNK * CHUNK == |src|;
      forall i: nat | i < |r.filled| ensures !r.filled[i] <==> i * CHUNK == |src| {
        assert i * CHUNK <= |src| / CHUNK * CHUNK;
      }
    }
  }

  // ---------------------------------------------------------------- the pruner

  /**
   * The pruner asks for what a batch reports missing. It brings the stream to its
   * end, one tick later, if and only if the end is in that report; otherwise it
   * asks for nothing at all.
   */
  lemma PruneRescuesIff(
      src: seq<byte>, rx: Rx, s: Sender, positions: seq<nat>, pending: Pending, now: nat, header: RetransmitPacket)
      returns (asked: Sender)
    requires OnlyEndLeft(src, rx) && |src| + U16 < U32 && |src| / CHUNK !in pending
    requires Drained(src, s) && Running(s) && RetransmitOk(header)
    ensures Asked(s, asked, Reserve(rx, pending, positions, now).0, header)
    ensures |src| in positions <==> asked != s
    ensures |src| in positions <==> Done(DeliverTicks(src, Trace(asked, {}), rx, 1))
    ensures DeliverTicks(src, Trace(asked, {}), rx, 1).bytes == src
  {
    var taken := Reserve(rx, pending, positions, now).0;
    OnlyEndTaken(src, rx, positions, pending, now);
    asked := RequestQueues(s, taken, header);
    QueueOfEnd(src, rx, positions, pending, now, asked.extras);
    if |src| in positions {
      LoneEndCompletes(src, rx, asked);
    } else {
      assert asked == s;
      NothingSentNothingDone(src, rx, asked);
    }
  }

  /**
   * Put together: `b` was delivered at `rx` and pruned once only the end was
   * left, at `r`. The pruning completes the stream if and only if the batch
   * carried the end and, from its first new packet on, was consecutive up to it.
   */
  lemma PrunedBatchRescuesIff(
      src: seq<byte>, rx: Rx, b: Batch, r: Rx, s: Sender, pending: Pending, now: nat, header: RetransmitPacket)
      returns (asked: Sender)
    requires Faithful(rx, src) && FaithfulBatch(src, b) && Packable(b) && b != []
    requires OnlyEndLeft(src, r) && |src| + U16 < U32 && |src| / CHUNK !in pending
    requires Drained(src, s) && Running(s) && RetransmitOk(header)
    ensures Asked(s, asked, Reserve(r, pending, MissingPositions(WithParity(rx, b)), now).0, header)
    ensures Done(DeliverTicks(src, Trace(asked, {}), r, 1)) <==>
            b[|b| - 1].0 == |src| && exists j: nat :: FirstNew(rx, b, j) && RunsToEnd(src, b, j)
  {
    asked := PruneRescuesIff(src, r, s, MissingPositions(WithParity(rx, b)), pending, now, header);
    if b[|b| - 1].0 == |src| {
      EndListedIff(rx, src, b);
    } else {
      BelowEnd(src, b);
      OthersDoNotListEnd(rx, src, b);
    }
  }

  lemma BelowEnd(src: seq<byte>, b: Batch)
    requires FaithfulBatch(src, b) && b != [] && b[|b| - 1].0 != |src|
    ensures forall k :: 0 <= k < |b| ==> b[k].0 < |src|
  {
  }

  lemma OnlyEndTaken(src: seq<byte>, rx: Rx, positions: seq<nat>, pending: Pending, now: nat)
    requires OnlyEndLeft(src, rx) && |src| + U16 < U32 && |src| / CHUNK !in pending
    ensures
      var taken := Reserve(rx, pending, positions, now).0;
      Aligned(taken) && (forall p :: p in taken <==> p == |src| && p in positions)
  {
    var taken := Reserve(rx, pending, positions, now).0;
    ReserveMeaning(rx, pending, positions, now);
    forall p | p in taken ensures p == |src| {
      assert Wanted(rx, pending, p);
      assert p / CHUNK * CHUNK == |src|;
    }
    if |src| in positions {
      assert Wanted(rx, pending, |src|) by {
        assert |src| / CHUNK * CHUNK == |src|;
      }
      var k :| 0 <= k < |Indices(taken)| && Indices(taken)[k] == |src| / CHUNK;
      assert taken[k] in taken;
    }
  }

  lemma QueueOfEnd(src: seq<byte>, rx: Rx, positions: seq<nat>, pending: Pending, now: nat, extras: set<nat>)
    requires OnlyEndLeft(src, rx) && |src| + U16 < U32 && |src| / CHUNK !in pending
    requires extras == Elements(Indices(Reserve(rx, pending, positions, now).0))
    ensures extras == if |src| in positions then {|src| / CHUNK} else {}
  {
    var taken := Reserve(rx, pending, positions, now).0;
    OnlyEndTaken(src, rx, positions, pending, now);
    forall i | i in extras ensures i == |src| / CHUNK && |src| in positions {
      var k :| 0 <= k < |Indices(taken)| && Indices(taken)[k] == i;
      assert taken[k] in taken;
    }
    if |src| in positions {
      assert |src| in taken;
      var k :| 0 <= k < |taken| && taken[k] == |src|;
      assert Indices(taken)[k] == |src| / CHUNK;
    }
  }

  lemma LoneEndCompletes(src: seq<byte>, rx: Rx, s: Sender)
    requires OnlyEndLeft(src, rx) && |src| < U32
    requires s.head == |src| && Running(s) && s.extras == {|src| / CHUNK}
    ensures var r := DeliverTicks(src, Trace(s, {}), rx, 1); Done(r) && r.bytes == src
  {
    var end := |src| / CHUNK;
    assert end * CHUNK == |src|;
    assert |s.extras| == 1 && CeilDiv(1, BATCH) == 1;
    EndAmongMissing(src, rx, s);
    RoundOutcome(src, rx, s, 1);
  }

  lemma NothingSentNothingDone(src: seq<byte>, rx: Rx, s: Sender)
    requires OnlyEndLeft(src, rx) && |src| < U32
    requires s.head == |src| && Running(s) && s.extras == {}
    ensures DeliverTicks(src, Trace(s, {}), rx, 1) == rx && !Done(rx) && rx.bytes == src
  {
    NoExtras(src, s);
    NothingDelivered(rx);
    assert |src| / CHUNK * CHUNK == |src| && !rx.filled[|src| / CHUNK];
    RealChunksSuffice(src, rx);
  }

  // ---------------------------------------------------------------- a run into a lasting stall

  /** Seeks to the end of a buffer of one chunk and asks for the empty chunk behind it. */
  function StallingActions(): seq<Action> {
    [TickDue, Do(Seek(CHUNK)), Do(Retransmit([ByteRange(CHUNK, CHUNK)]))]
  }

  /** Such a run of the loop, on which nothing is lost, queues the chunk that has arrived and the empty one together. */
  lemma StallReached(src: seq<byte>, bytes: seq<byte>)
    requires |src| == CHUNK == |bytes|
    ensures var s := Loop(src, StallingActions()).s; s.head == |src| && Running(s) && s.extras == {0, 1}
    ensures var rx := DeliverTicks(src, BEGIN, Fresh(bytes), 1); OnlyEndLeft(src, rx) && rx.filled == [true, false]
  {
    LosslessStart(src, bytes);
    StallingLoop(src);
  }

  lemma LosslessStart(src: seq<byte>, bytes: seq<byte>)
    requires |src| == CHUNK == |bytes|
    ensures var rx := DeliverTicks(src, BEGIN, Fresh(bytes), 1); OnlyEndLeft(src, rx) && rx.filled == [true, false]
  {
    assert RealChunks(CHUNK) == 1 && CeilDiv(1, BATCH) == 1;
    var s, rx := LosslessEnd(src, bytes, 1);
    OneChunkLeft(src, rx);
  }

  lemma OneChunkLeft(src: seq<byte>, rx: Rx)
    requires |src| == CHUNK && Faithful(rx, src) && HeadAtEnd(rx)
    requires forall i: nat :: i < |rx.filled| ==> (!rx.filled[i] <==> i * CHUNK == |src|)
    ensures OnlyEndLeft(src, rx) && rx.filled == [true, false]
  {
    assert |rx.filled| == 2;
    assert rx.filled[0] && !rx.filled[1];
  }

  lemma StallingLoop(src: seq<byte>)
    requires |src| == CHUNK
    ensures var s := Loop(src, StallingActions()).s; s.head == |src| && Running(s) && s.extras == {0, 1}
  {
    var actions := StallingActions();
    assert actions[..2] == [TickDue, Do(Seek(CHUNK))] && actions[..2][..1] == [TickDue] && [TickDue][..0] == [];
    var first := Loop(src, [TickDue]);
    assert Loop(src, []) == Trace(START, {}) && first == Advance(src, Trace(START, {}), TickDue);
    FirstTick(src);
    var second := Loop(src, actions[..2]);
    assert second.s == Handle(src, first.s, Seek(CHUNK));
    assert second.s.extras == HoleIndices(0, CHUNK) && second.s.head == |src|;
    SplitWhole(ByteRange(CHUNK, CHUNK));
    QueuedCons(ByteRange(CHUNK, CHUNK), []);
    assert [ByteRange(CHUNK, CHUNK)] + [] == [ByteRange(CHUNK, CHUNK)] && RunOf(ByteRange(CHUNK, CHUNK)) == [1];
    assert QueuedIndices([ByteRange(CHUNK, CHUNK)]) == [1];
    assert HoleIndices(0, CHUNK) == {0};
  }

  lemma FirstTick(src: seq<byte>)
    requires |src| == CHUNK
    ensures
      var s := Tick(src, START).0;
      s.head == |src| && s.lastSent == 0 && s.extras == {} && Running(s)
  {
    TickFresh(src, START);
    TickIsTake(src, START);
    TakeMeaning(src, 0, BATCH);
    assert Take(src, CHUNK, BATCH - 1).0 == [];
    assert RealChunks(CHUNK) == 1;
  }

  /**
   * The round that follows sends both chunks in one batch. The receiver ends
   * with the empty chunk missing, and the batch has nothing to report when it is
   * pruned: the stream never completes.
   */
  lemma SharedBatchStalls(src: seq<byte>, rx: Rx, s: Sender)
    requires |src| == CHUNK && OnlyEndLeft(src, rx)
    requires s.head == |src| && Running(s) && s.extras == {0, 1}
    ensures var r := DeliverTicks(src, Trace(s, {}), rx, 1); r.bytes == src && OnlyEndLeft(src, r)
    ensures Drained(src, Tick(src, s).0)
    ensures Packable(Tick(src, s).1) && MissingPositions(WithParity(rx, Tick(src, s).1)) == []
  {
    var extras: set<nat> := {0, 1};
    assert |extras| == 2 && Bound(src, s) == 1;
    assert 0 in Companions(extras, 1) by {
      BothSmallest();
    }
    assert rx.filled[0];
    RoundOutcome(src, rx, s, 1);
    LeftAtEnd(src, DeliverTicks(src, Trace(s, {}), rx, 1));
    TickExtras(src, s);
    NothingNewNothingListed(src, rx, s);
  }

  lemma BothSmallest()
    ensures var extras: set<nat> := {0, 1}; Elements(Smallest(extras, BATCH)) == extras
    ensures var extras: set<nat> := {0, 1}; 0 in Companions(extras, 1)
  {
    var extras: set<nat> := {0, 1};
    SmallestMeaning(extras, BATCH);
    var idxs := Smallest(extras, BATCH);
    assert |extras| == 2 && |extras - Elements(idxs)| == 0;
    assert 0 in Elements(idxs) && 1 in Elements(idxs);
  }

  /** With only the end missing no batch has a new packet, so none has anything to report. */
  lemma NothingNewNothingListed(src: seq<byte>, rx: Rx, s: Sender)
    requires OnlyEndLeft(src, rx) && HeadOk(src, s.head) && |src| < U32
    ensures Packable(Tick(src, s).1) && MissingPositions(WithParity(rx, Tick(src, s).1)) == []
  {
    var b := Tick(src, s).1;
    TickBatchFaithful(src, s);
    BatchFacts(src, b, 0);
    CollectedMeaning(rx, src, b, |b|);
    CollectedLocates(rx, src, b, |b|);
    forall k: nat ensures !Fresher(rx, b, k) {
      if k < |b| {
        OnlyLastIsEmpty(src, b, k);
      }
    }
    assert Collected(rx, b, |b|).mask == {};
  }
}
