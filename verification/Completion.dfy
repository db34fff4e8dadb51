/**
 * An undisturbed sender and a network that loses nothing: what a sweep, the
 * round trip of its request and the drain of the sender's queue lead to, for
 * streams of every length.
 */
module Completion {
  import opened Common
  import opened Areas
  import opened BatchWindow
  import opened Buffer
  import opened Delivery
  import opened Packets
  import opened Ranges
  import opened Requests
  import opened Sending
  import opened XorFec

  function Emits(src: seq<byte>, t: Trace): (b: Batch)
    requires t.s.head <= |src|
    ensures Packable(b)
  {
    TickPackable(src, t.s);
    if t.s.playing then Tick(src, t.s).1 else []
  }

  /** The receiver after the sender's next `k` ticks. */
  function DeliverTicks(src: seq<byte>, t: Trace, rx: Rx, k: nat): (r: Rx)
    requires Shaped(rx) && t.s.head <= |src|
    ensures Shaped(r)
  {
    if k == 0 then rx
    else Deliver(DeliverTicks(src, t, rx, k - 1), Emits(src, Ticks(src, t, k - 1)))
  }

  // ---------------------------------------------------------------- iteration

  function Iterated<S>(f: S -> S, s: S, k: nat): S {
    if k == 0 then s else f(Iterated(f, s, k - 1))
  }

  lemma {:induction false} IterationKeeps<S(!new)>(f: S -> S, p: S -> bool, s: S, k: nat)
    requires p(s) && forall x :: p(x) ==> p(f(x))
    ensures p(Iterated(f, s, k))
  {
    if k == 0 {
    } else {
      IterationKeeps(f, p, s, k - 1);
    }
  }

  lemma {:induction false} IterationIs<S>(f: S -> S, g: nat -> S, k: nat)
    requires forall j: nat :: j < k ==> f(g(j)) == g(j + 1)
    ensures Iterated(f, g(0), k) == g(k)
  {
    if k == 0 {
    } else {
      IterationIs(f, g, k - 1);
      assert f(g(k - 1)) == g(k);
    }
  }

  /** One tick and its delivery, as a step on both parties. */
  function Turn(src: seq<byte>): ((Trace, Rx)) -> (Trace, Rx) {
    (x: (Trace, Rx)) =>
      if x.0.s.head <= |src| && Shaped(x.1) then (Advance(src, x.0, TickDue), Deliver(x.1, Emits(src, x.0))) else x
  }

  lemma TurnIs(src: seq<byte>, t: Trace, rx: Rx)
    requires Shaped(rx) && t.s.head <= |src|
    ensures Turn(src)((t, rx)) == (Advance(src, t, TickDue), Deliver(rx, Emits(src, t)))
  {
  }

  lemma NextTick(src: seq<byte>, t: Trace, rx: Rx, k: nat)
    requires Shaped(rx) && t.s.head <= |src| && k > 0
    ensures Turn(src)((Ticks(src, t, k - 1), DeliverTicks(src, t, rx, k - 1))) ==
            (Ticks(src, t, k), DeliverTicks(src, t, rx, k))
  {
    TurnIs(src, Ticks(src, t, k - 1), DeliverTicks(src, t, rx, k - 1));
  }

  lemma TicksIterate(src: seq<byte>, t: Trace, rx: Rx, k: nat)
    requires Shaped(rx) && t.s.head <= |src|
    ensures Iterated(Turn(src), (t, rx), k) == (Ticks(src, t, k), DeliverTicks(src, t, rx, k))
  {
    ghost var g := (j: nat) => (Ticks(src, t, j), DeliverTicks(src, t, rx, j));
    forall j: nat | j < k ensures Turn(src)(g(j)) == g(j + 1) {
      NextTick(src, t, rx, j + 1);
    }
    IterationIs(Turn(src), g, k);
  }

  // ---------------------------------------------------------------- one turn

  ghost predicate Steady(src: seq<byte>, s: Sender, rx: Rx) {
    HeadOk(src, s.head) && Running(s) && Faithful(rx, src)
  }

  lemma TurnKeeps(src: seq<byte>, t: Trace, rx: Rx)
    requires Steady(src, t.s, rx) && |src| < U32
    ensures Steady(src, Advance(src, t, TickDue).s, Deliver(rx, Emits(src, t)))
    ensures Kept(src, rx, Deliver(rx, Emits(src, t)))
  {
    TickBatchFaithful(src, t.s);
    TickProgress(src, t.s);
    DeliverFills(rx, src, Emits(src, t));
  }

  /** Chunk `i` still waits at the sender or has arrived. */
  ghost predicate Serving(src: seq<byte>, s: Sender, rx: Rx, i: nat) {
    Steady(src, s, rx) && i < |rx.filled| && (i in s.extras || rx.filled[i])
  }

  lemma TurnServes(src: seq<byte>, t: Trace, rx: Rx, i: nat)
    requires Serving(src, t.s, rx, i) && i * CHUNK < |src| < U32
    ensures Serving(src, Advance(src, t, TickDue).s, Deliver(rx, Emits(src, t)), i)
  {
    TurnKeeps(src, t, rx);
    if t.s.head < |src| {
      TickFresh(src, t.s);
    } else {
      TickExtras(src, t.s);
      if i in t.s.extras {
        ExtrasSent(src, t.s, i);
        TickBatchFaithful(src, t.s);
        DeliverFills(rx, src, Emits(src, t));
      }
    }
  }

  /** Each chunk queued at the start stays queued until it arrives. */
  lemma TicksServe(src: seq<byte>, t: Trace, rx: Rx, k: nat, i: nat)
    requires Serving(src, t.s, rx, i) && i * CHUNK < |src| < U32
    ensures Serving(src, Ticks(src, t, k).s, DeliverTicks(src, t, rx, k), i)
  {
    ghost var p := (x: (Trace, Rx)) => Serving(src, x.0.s, x.1, i);
    forall x | p(x) ensures p(Turn(src)(x)) {
      TurnServes(src, x.0, x.1, i);
      TurnIs(src, x.0, x.1);
    }
    IterationKeeps(Turn(src), p, (t, rx), k);
    TicksIterate(src, t, rx, k);
  }

  /** Nothing that was there gets lost, and the head does not fall back. */
  lemma TicksKeep(src: seq<byte>, t: Trace, rx: Rx, k: nat)
    requires Steady(src, t.s, rx) && |src| < U32
    ensures Steady(src, Ticks(src, t, k).s, DeliverTicks(src, t, rx, k))
    ensures Kept(src, rx, DeliverTicks(src, t, rx, k))
  {
    ghost var p := (x: (Trace, Rx)) => Steady(src, x.0.s, x.1) && Kept(src, rx, x.1);
    forall x | p(x) ensures p(Turn(src)(x)) {
      TurnKeeps(src, x.0, x.1);
      TurnIs(src, x.0, x.1);
    }
    IterationKeeps(Turn(src), p, (t, rx), k);
    TicksIterate(src, t, rx, k);
  }

  // ---------------------------------------------------------------- the empty last chunk

  /** The queued chunks before `p` that will be sent in the same batch as `p`. */
  function Companions(extras: set<nat>, p: nat): (r: set<nat>)
    ensures forall i :: i in r ==> i in extras && i < p
    decreases |extras|
  {
    if p !in extras then {}
    else
      var idxs := Smallest(extras, BATCH);
      SmallestMeaning(extras, BATCH);
      if p in idxs then set i | i in idxs && i < p
      else Companions(extras - Elements(idxs), p)
  }

  /**
   * Whether draining will complete the empty chunk at the end of a buffer whose
   * length is a multiple of the chunk size: it is there, or it is queued and
   * every chunk sent with it will be new to the receiver.
   */
  ghost predicate EndWillFill(src: seq<byte>, s: Sender, rx: Rx)
    requires |rx.filled| == |src| / CHUNK + 1
  {
    var end := |src| / CHUNK;
    || rx.filled[end]
    || (end in s.extras && forall i :: i in Companions(s.extras, end) ==> !rx.filled[i] && i * CHUNK < s.head)
  }

  lemma TakeCarries(src: seq<byte>, head: nat, i: nat)
    requires HeadOk(src, head)
    ensures i in ChunksOf(Take(src, head, BATCH).0) <==> head <= i * CHUNK < Take(src, head, BATCH).1
  {
    var b, after := Take(src, head, BATCH).0, Take(src, head, BATCH).1;
    TakeCovers(src, head, BATCH);
    if i in ChunksOf(b) {
      var k :| 0 <= k < |b| && b[k].0 / CHUNK == i;
      assert b[k].0 == head + k * CHUNK && b[k].0 % CHUNK == 0 by {
        TakeMeaning(src, head, BATCH);
      }
      assert b[k].0 == i * CHUNK;
    }
  }

  /** Fresh chunks fill what the head passes, and no batch of them ends alone. */
  lemma FreshTurnFills(src: seq<byte>, t: Trace, rx: Rx, i: nat)
    requires Steady(src, t.s, rx) && t.s.head < |src| < U32 && i < |rx.filled|
    ensures i < |Deliver(rx, Emits(src, t)).filled|
    ensures Deliver(rx, Emits(src, t)).filled[i] <==>
            rx.filled[i] || t.s.head <= i * CHUNK < Advance(src, t, TickDue).s.head
  {
    var b := Emits(src, t);
    FreshNotAlone(src, t.s, rx);
    FreshCarries(src, t.s, i);
    TickBatchFaithful(src, t.s);
    DeliverFills(rx, src, b);
  }

  lemma FreshCarries(src: seq<byte>, s: Sender, i: nat)
    requires HeadOk(src, s.head) && s.head < |src| && Running(s)
    ensures i in ChunksOf(Tick(src, s).1) <==> s.head <= i * CHUNK < Tick(src, s).0.head
    ensures Tick(src, s).0.head <= |src|
  {
    TickFresh(src, s);
    TakeCarries(src, s.head, i);
  }

  lemma FreshNotAlone(src: seq<byte>, s: Sender, rx: Rx)
    requires HeadOk(src, s.head) && s.head < |src| && Running(s)
    ensures !EndsAlone(src, rx, Tick(src, s).1)
  {
    TickFresh(src, s);
    TakeMeaning(src, s.head, BATCH);
  }

  lemma FreshTurnForetells(src: seq<byte>, t: Trace, rx: Rx)
    requires Steady(src, t.s, rx) && t.s.head < |src| < U32 && |src| % CHUNK == 0
    ensures |Deliver(rx, Emits(src, t)).filled| == |src| / CHUNK + 1
    ensures EndWillFill(src, Advance(src, t, TickDue).s, Deliver(rx, Emits(src, t))) <==> EndWillFill(src, t.s, rx)
  {
    TickFresh(src, t.s);
    TurnKeeps(src, t, rx);
    var end := |src| / CHUNK;
    FreshTurnFills(src, t, rx, end);
    forall i | i in Companions(t.s.extras, end)
      ensures !Deliver(rx, Emits(src, t)).filled[i] && i * CHUNK < Advance(src, t, TickDue).s.head <==>
              !rx.filled[i] && i * CHUNK < t.s.head
    {
      FreshTurnFills(src, t, rx, i);
    }
  }

  /** A batch of extras ends alone exactly when it has the end in it and what is sent before that is new. */
  lemma ExtrasEndAlone(src: seq<byte>, s: Sender, rx: Rx)
    requires Steady(src, s, rx) && s.head == |src| && |src| % CHUNK == 0
    ensures
      var idxs, end := Smallest(s.extras, BATCH), |src| / CHUNK;
      EndsAlone(src, rx, Tick(src, s).1) <==>
      end in idxs && forall i :: i in idxs && i < end ==> i < |rx.filled| && !rx.filled[i]
  {
    var idxs, end := Smallest(s.extras, BATCH), |src| / CHUNK;
    var b := Tick(src, s).1;
    TickExtras(src, s);
    TickBatchFaithful(src, s);
    forall i: nat ensures i in ChunksOf(b) <==> i in idxs && i <= end {
      RereadChunks(src, idxs, i);
    }
    EndsAloneByChunks(src, rx, b);
  }

  /** Every chunk the batch carries below `end` is missing at the receiver. */
  ghost predicate NewBelow(rx: Rx, b: Batch, end: nat) {
    forall i: nat :: i in ChunksOf(b) && i < end ==> i < |rx.filled| && !rx.filled[i]
  }

  lemma EndsAloneByChunks(src: seq<byte>, rx: Rx, b: Batch)
    requires FaithfulBatch(src, b) && |src| % CHUNK == 0
    ensures EndsAlone(src, rx, b) <==> |src| / CHUNK in ChunksOf(b) && NewBelow(rx, b, |src| / CHUNK)
  {
    var end := |src| / CHUNK;
    if EndsAlone(src, rx, b) {
      EndsAloneNewBelow(src, rx, b);
    }
    if end in ChunksOf(b) && NewBelow(rx, b, end) {
      NewBelowEndsAlone(src, rx, b);
    }
  }

  lemma EndsAloneNewBelow(src: seq<byte>, rx: Rx, b: Batch)
    requires FaithfulBatch(src, b) && |src| % CHUNK == 0 && EndsAlone(src, rx, b)
    ensures |src| / CHUNK in ChunksOf(b) && NewBelow(rx, b, |src| / CHUNK)
  {
    var end := |src| / CHUNK;
    assert b[|b| - 1].0 / CHUNK == end;
    forall i: nat | i in ChunksOf(b) && i < end ensures i < |rx.filled| && !rx.filled[i] {
      var k :| 0 <= k < |b| && b[k].0 / CHUNK == i;
      assert k < |b| - 1 && Fresher(rx, b, k);
    }
  }

  lemma NewBelowEndsAlone(src: seq<byte>, rx: Rx, b: Batch)
    requires FaithfulBatch(src, b) && |src| % CHUNK == 0
    requires |src| / CHUNK in ChunksOf(b) && NewBelow(rx, b, |src| / CHUNK)
    ensures EndsAlone(src, rx, b)
  {
    var k :| 0 <= k < |b| && b[k].0 / CHUNK == |src| / CHUNK;
    EndIsLast(src, b, k);
    forall j: nat | j < |b| - 1 ensures Fresher(rx, b, j) {
      EarlierChunk(src, b, j);
    }
  }

  lemma EndIsLast(src: seq<byte>, b: Batch, k: nat)
    requires FaithfulBatch(src, b) && k < |b| && |src| % CHUNK == 0 && b[k].0 / CHUNK == |src| / CHUNK
    ensures b[k].0 == |src| && k == |b| - 1
  {
    assert b[k].0 % CHUNK == 0;
    OnlyLastIsEmpty(src, b, k);
  }

  lemma EarlierChunk(src: seq<byte>, b: Batch, j: nat)
    requires FaithfulBatch(src, b) && j < |b| - 1
    ensures b[j].0 / CHUNK in ChunksOf(b) && b[j].1 != []
    ensures |src| % CHUNK == 0 ==> b[j].0 / CHUNK < |src| / CHUNK
  {
    OnlyLastIsEmpty(src, b, j);
  }

  /** While the end waits its turn, the extras sent are all below it and leave its companions alone. */
  lemma EndWaits(extras: set<nat>, end: nat)
    requires end in extras && end !in Smallest(extras, BATCH)
    ensures Companions(extras, end) == Companions(extras - Elements(Smallest(extras, BATCH)), end)
    ensures end in extras - Elements(Smallest(extras, BATCH))
    ensures forall i :: i in Companions(extras, end) ==> i !in Smallest(extras, BATCH)
  {
  }

  /** A batch of extras fills what it carries, and the end if it ends alone. */
  lemma ExtrasTurnFills(src: seq<byte>, t: Trace, rx: Rx, i: nat)
    requires Steady(src, t.s, rx) && t.s.head == |src| < U32 && i < |rx.filled|
    ensures i < |Deliver(rx, Emits(src, t)).filled|
    ensures Deliver(rx, Emits(src, t)).filled[i] <==>
            || rx.filled[i]
            || (i * CHUNK < |src| && i in Smallest(t.s.extras, BATCH))
            || (i * CHUNK == |src| && EndsAlone(src, rx, Emits(src, t)))
  {
    var b := Emits(src, t);
    assert FaithfulBatch(src, b) by {
      TickBatchFaithful(src, t.s);
    }
    DeliverFills(rx, src, b);
    assert i * CHUNK < |src| ==> (i in ChunksOf(b) <==> i in Smallest(t.s.extras, BATCH)) by {
      TickExtras(src, t.s);
      RereadChunks(src, Smallest(t.s.extras, BATCH), i);
    }
  }

  lemma ExtrasTurnForetells(src: seq<byte>, t: Trace, rx: Rx)
    requires Steady(src, t.s, rx) && t.s.head == |src| < U32 && |src| % CHUNK == 0
    ensures |Deliver(rx, Emits(src, t)).filled| == |src| / CHUNK + 1
    ensures EndWillFill(src, Advance(src, t, TickDue).s, Deliver(rx, Emits(src, t))) <==> EndWillFill(src, t.s, rx)
  {
    var idxs, end := Smallest(t.s.extras, BATCH), |src| / CHUNK;
    TurnKeeps(src, t, rx);
    TickExtras(src, t.s);
    assert end * CHUNK == |src|;
    SmallestMeaning(t.s.extras, BATCH);
    assert forall i :: i in idxs <==> i in Elements(idxs);
    if end in t.s.extras && end !in idxs {
      WaitingEndForetold(src, t, rx);
    } else {
      ExtrasEndAlone(src, t.s, rx);
      ExtrasTurnFills(src, t, rx, end);
    }
  }

  lemma WaitingEndForetold(src: seq<byte>, t: Trace, rx: Rx)
    requires Steady(src, t.s, rx) && t.s.head == |src| < U32 && |src| % CHUNK == 0
    requires |src| / CHUNK in t.s.extras && |src| / CHUNK !in Smallest(t.s.extras, BATCH)
    ensures |Deliver(rx, Emits(src, t)).filled| == |src| / CHUNK + 1
    ensures EndWillFill(src, Advance(src, t, TickDue).s, Deliver(rx, Emits(src, t))) <==> EndWillFill(src, t.s, rx)
  {
    var end := |src| / CHUNK;
    var r := Deliver(rx, Emits(src, t));
    TurnKeeps(src, t, rx);
    TickExtras(src, t.s);
    EndWaits(t.s.extras, end);
    ExtrasEndAlone(src, t.s, rx);
    ExtrasTurnFills(src, t, rx, end);
    forall i | i in Companions(t.s.extras, end) ensures r.filled[i] <==> rx.filled[i] {
      ExtrasTurnFills(src, t, rx, i);
    }
  }

  /** No turn changes whether the end will be filled. */
  lemma TurnForetells(src: seq<byte>, t: Trace, rx: Rx)
    requires Steady(src, t.s, rx) && |src| < U32 && |src| % CHUNK == 0
    ensures |Deliver(rx, Emits(src, t)).filled| == |src| / CHUNK + 1
    ensures EndWillFill(src, Advance(src, t, TickDue).s, Deliver(rx, Emits(src, t))) <==> EndWillFill(src, t.s, rx)
  {
    if t.s.head < |src| {
      FreshTurnForetells(src, t, rx);
    } else {
      ExtrasTurnForetells(src, t, rx);
    }
  }

  ghost predicate Foretold(src: seq<byte>, s: Sender, rx: Rx, outcome: bool) {
    Steady(src, s, rx) && (EndWillFill(src, s, rx) <==> outcome)
  }

  lemma TicksForetell(src: seq<byte>, t: Trace, rx: Rx, k: nat)
    requires Steady(src, t.s, rx) && |src| < U32 && |src| % CHUNK == 0
    ensures Foretold(src, Ticks(src, t, k).s, DeliverTicks(src, t, rx, k), EndWillFill(src, t.s, rx))
  {
    ghost var outcome := EndWillFill(src, t.s, rx);
    ghost var p := (x: (Trace, Rx)) => Foretold(src, x.0.s, x.1, outcome);
    forall x | p(x) ensures p(Turn(src)(x)) {
      TurnKeeps(src, x.0, x.1);
      TurnForetells(src, x.0, x.1);
      TurnIs(src, x.0, x.1);
    }
    IterationKeeps(Turn(src), p, (t, rx), k);
    TicksIterate(src, t, rx, k);
  }

  // ---------------------------------------------------------------- a round

  function Bound(src: seq<byte>, s: Sender): nat
    requires s.head <= |src|
  {
    CeilDiv(RealChunks(|src| - s.head), BATCH) + CeilDiv(|s.extras|, BATCH)
  }

  /**
   * The sender, wherever its head is, has every missing chunk queued and drains.
   * By then every byte has arrived, and the receiver is done exactly when the
   * length is no multiple of the chunk size or the empty chunk at the end is
   * sent with new chunks only.
   */
  lemma RoundOutcome(src: seq<byte>, rx: Rx, s: Sender, k: nat)
    requires Faithful(rx, src) && HeadAtEnd(rx) && |src| < U32
    requires HeadOk(src, s.head) && Running(s) && k >= Bound(src, s)
    requires forall i: nat :: i * CHUNK < |src| && i < |rx.filled| && !rx.filled[i] ==> i in s.extras
    ensures Drained(src, Ticks(src, Trace(s, {}), k).s)
    ensures
      var r := DeliverTicks(src, Trace(s, {}), rx, k);
      && Faithful(r, src) && HeadAtEnd(r) && r.bytes == src
      && (forall i: nat :: i < |r.filled| && i * CHUNK < |src| ==> r.filled[i])
      && (Done(r) <==> |src| % CHUNK != 0 || EndWillFill(src, s, rx))
  {
    var t := Trace(s, {});
    var r := DeliverTicks(src, t, rx, k);
    DrainedWhen(src, t, k);
    TicksKeep(src, t, rx, k);
    forall i: nat | i < |r.filled| && i * CHUNK < |src| ensures r.filled[i] {
      TicksServe(src, t, rx, k, i);
    }
    RealChunksSuffice(src, r);
    if |src| % CHUNK == 0 {
      TicksForetell(src, t, rx, k);
    }
  }

  /** With every real chunk filled the bytes are all there, and only the end can keep the buffer from being done. */
  lemma RealChunksSuffice(src: seq<byte>, rx: Rx)
    requires Faithful(rx, src) && forall i: nat :: i < |rx.filled| && i * CHUNK < |src| ==> rx.filled[i]
    ensures rx.bytes == src
    ensures |src| / CHUNK < |rx.filled|
    ensures HeadAtEnd(rx) ==> (Done(rx) <==> |src| % CHUNK != 0 || rx.filled[|src| / CHUNK])
  {
    forall p | 0 <= p < |src| ensures rx.bytes[p] == src[p] {
      var i := p / CHUNK;
      assert rx.filled[i];
      assert ChunkBytes(rx.bytes, i)[p - i * CHUNK] == ChunkBytes(src, i)[p - i * CHUNK];
    }
    forall i: nat | i < |rx.filled| && (|src| % CHUNK != 0 || i != |src| / CHUNK) ensures rx.filled[i] {
      assert i * CHUNK <= |src| / CHUNK * CHUNK;
    }
  }

  // ---------------------------------------------------------------- a sweep and its round

  /** Everything missing is up for a sweep: no live batch covers it and no request for it is fresh. */
  ghost predicate AllWanted(rx: Rx, pending: Pending, active: seq<Area>)
    requires Shaped(rx)
  {
    forall i: nat :: i < |rx.filled| && !rx.filled[i] ==> SweepWants(rx, pending, active, i)
  }

  /** The sender once it has taken in every packet of a request for `taken`. */
  ghost predicate Asked(s: Sender, asked: Sender, taken: seq<nat>, header: RetransmitPacket)
    requires RetransmitOk(header)
  {
    && Aligned(taken)
    && var groups := Grouped(Coalesced(taken), MAX_RANGES);
       && (forall g :: 0 <= g < |groups| ==> RetransmitOk(header.(payload := groups[g])))
       && asked == s.(extras := s.extras + Elements(QueuedFromAll(header, groups)))
  }

  ghost predicate AskedBySweep(
      s: Sender, asked: Sender, rx: Rx, areas: seq<Area>, pending: Pending, active: seq<Area>, now: nat,
      header: RetransmitPacket)
    requires Shaped(rx) && RetransmitOk(header)
  {
    Asked(s, asked, Reserve(rx, pending, Inactive(active, Positions(areas)), now).0, header)
  }

  /** A request adds to the queue exactly the chunks whose positions were taken. */
  lemma RequestQueues(s: Sender, taken: seq<nat>, header: RetransmitPacket) returns (asked: Sender)
    requires RetransmitOk(header) && Aligned(taken)
    ensures Asked(s, asked, taken, header) && asked == s.(extras := s.extras + Elements(Indices(taken)))
  {
    CoalescedIndices(taken);
    GroupsTravel(header, Coalesced(taken));
    var queued := QueuedFromAll(header, Grouped(Coalesced(taken), MAX_RANGES));
    forall i: nat ensures i in queued <==> i in Indices(taken) {
      assert i in queued <==> i in multiset(queued);
      assert i in Indices(taken) <==> i in multiset(Indices(taken));
    }
    assert Elements(queued) == Elements(Indices(taken));
    asked := s.(extras := s.extras + Elements(queued));
  }

  /** The request adds exactly the missing chunks to the sender's queue. */
  lemma SweepAsksForMissing(
      s: Sender, rx: Rx, areas: seq<Area>, pending: Pending, active: seq<Area>, now: nat, header: RetransmitPacket)
      returns (asked: Sender)
    requires Shaped(rx) && Indexes(areas, rx.filled) && |rx.bytes| + U16 < U32 && RetransmitOk(header)
    requires AllWanted(rx, pending, active)
    ensures AskedBySweep(s, asked, rx, areas, pending, active, now, header)
    ensures asked == s.(extras := asked.extras)
    ensures forall i: nat :: i in asked.extras <==> i in s.extras || (i < |rx.filled| && !rx.filled[i])
  {
    var taken := Reserve(rx, pending, Inactive(active, Positions(areas)), now).0;
    SweepTakes(rx, areas, pending, active, now, 0);
    asked := RequestQueues(s, taken, header);
    forall i: nat ensures i in Indices(taken) <==> i < |rx.filled| && !rx.filled[i] {
      SweepTakes(rx, areas, pending, active, now, i);
    }
  }

  /**
   * The receiver's head is at the end and it sweeps; the request travels to a
   * sender in any running state; the sender drains undisturbed. Then every byte
   * has arrived, whatever the length. The receiver is done, unless the length is
   * a multiple of the chunk size and the empty chunk at the end was sent in one
   * batch with a chunk the receiver had already: exactly then its parity is of
   * no use.
   */
  lemma SweepRoundCompletes(
      src: seq<byte>, rx: Rx, areas: seq<Area>, pending: Pending, active: seq<Area>, now: nat,
      header: RetransmitPacket, s: Sender, k: nat)
      returns (asked: Sender)
    requires Faithful(rx, src) && HeadAtEnd(rx) && |src| + U16 < U32
    requires Indexes(areas, rx.filled) && AllWanted(rx, pending, active)
    requires RetransmitOk(header) && HeadOk(src, s.head) && Running(s)
    ensures AskedBySweep(s, asked, rx, areas, pending, active, now, header) && asked.head == s.head
    ensures
      var t := Trace(asked, {});
      var r := DeliverTicks(src, t, rx, k);
      k >= Bound(src, asked) ==>
        && Drained(src, Ticks(src, t, k).s) && r.bytes == src
        && (Done(r) <==> |src| % CHUNK != 0 || EndWillFill(src, asked, rx))
  {
    asked := SweepAsksForMissing(s, rx, areas, pending, active, now, header);
    if k >= Bound(src, asked) {
      RoundOutcome(src, rx, asked, k);
    }
  }

  /**
   * From a sender that has nothing left to send, a sweep completes the stream
   * for every length, if anything still sets one off.
   */
  lemma IdleSweepCompletes(
      src: seq<byte>, rx: Rx, areas: seq<Area>, pending: Pending, active: seq<Area>, now: nat,
      header: RetransmitPacket, s: Sender, k: nat)
      returns (asked: Sender)
    requires Faithful(rx, src) && HeadAtEnd(rx) && |src| + U16 < U32
    requires Indexes(areas, rx.filled) && AllWanted(rx, pending, active)
    requires RetransmitOk(header) && Drained(src, s) && Running(s)
    ensures AskedBySweep(s, asked, rx, areas, pending, active, now, header)
    ensures forall i: nat :: i in asked.extras <==> i < |rx.filled| && !rx.filled[i]
    ensures
      var r := DeliverTicks(src, Trace(asked, {}), rx, k);
      k >= CeilDiv(|asked.extras|, BATCH) ==> Done(r) && r.bytes == src
  {
    asked := SweepAsksForMissing(s, rx, areas, pending, active, now, header);
    if k >= CeilDiv(|asked.extras|, BATCH) {
      if |src| % CHUNK == 0 {
        EndAmongMissing(src, rx, asked);
      }
      RoundOutcome(src, rx, asked, k);
    }
  }

  lemma EndAmongMissing(src: seq<byte>, rx: Rx, s: Sender)
    requires |rx.filled| == |src| / CHUNK + 1 && |src| % CHUNK == 0 && s.head == |src|
    requires forall i: nat :: i in s.extras <==> i < |rx.filled| && !rx.filled[i]
    ensures EndWillFill(src, s, rx)
  {
    assert |src| / CHUNK * CHUNK == |src|;
  }

  // ---------------------------------------------------------------- nothing lost from the start

  ghost predicate FilledBelow(rx: Rx, head: nat) {
    forall i: nat :: i < |rx.filled| ==> (rx.filled[i] <==> i * CHUNK < head)
  }

  /** A stream on which nothing was lost so far: the receiver has exactly what the sender's head has passed. */
  ghost predicate InStep(src: seq<byte>, s: Sender, rx: Rx) {
    Steady(src, s, rx) && s.extras == {} && HeadResting(rx, 0) && FilledBelow(rx, s.head)
  }

  lemma NoExtras(src: seq<byte>, s: Sender)
    requires s.head == |src| && Running(s) && s.extras == {}
    ensures Tick(src, s) == (s, [])
  {
    assert Smallest({}, BATCH) == [] && ReadRanges(src, ChunkRanges([])) == [];
    assert s.extras - Elements([]) == s.extras;
  }

  lemma NothingDelivered(rx: Rx)
    requires Shaped(rx)
    ensures Deliver(rx, []) == rx
  {
  }

  lemma TurnInStep(src: seq<byte>, t: Trace, rx: Rx)
    requires InStep(src, t.s, rx) && |src| < U32
    ensures InStep(src, Advance(src, t, TickDue).s, Deliver(rx, Emits(src, t)))
  {
    TurnKeeps(src, t, rx);
    DeliverRests(rx, Emits(src, t));
    if t.s.head < |src| {
      TickFresh(src, t.s);
      forall i: nat | i < |rx.filled|
        ensures Deliver(rx, Emits(src, t)).filled[i] <==> i * CHUNK < Advance(src, t, TickDue).s.head
      {
        FreshTurnFills(src, t, rx, i);
      }
    } else {
      NoExtras(src, t.s);
      NothingDelivered(rx);
    }
  }

  lemma TicksInStep(src: seq<byte>, t: Trace, rx: Rx, k: nat)
    requires InStep(src, t.s, rx) && |src| < U32
    ensures InStep(src, Ticks(src, t, k).s, DeliverTicks(src, t, rx, k))
  {
    ghost var p := (x: (Trace, Rx)) => InStep(src, x.0.s, x.1);
    forall x | p(x) ensures p(Turn(src)(x)) {
      TurnInStep(src, x.0, x.1);
      TurnIs(src, x.0, x.1);
    }
    IterationKeeps(Turn(src), p, (t, rx), k);
    TicksIterate(src, t, rx, k);
  }

  lemma ArrivedInStep(src: seq<byte>, s: Sender, rx: Rx)
    requires InStep(src, s, rx)
    ensures Done(rx) <==> |src| % CHUNK != 0 && s.head == |src|
    ensures s.head == |src| ==>
              && rx.bytes == src && HeadAtEnd(rx)
              && (forall i: nat :: i < |rx.filled| ==> (!rx.filled[i] <==> i * CHUNK == |src|))
  {
    var last := |src| / CHUNK;
    assert rx.filled[last] <==> last * CHUNK < s.head;
    if s.head == |src| {
      assert forall i: nat :: i < |rx.filled| ==> i * CHUNK <= last * CHUNK <= |src|;
      RealChunksSuffice(src, rx);
    }
  }

  const BEGIN: Trace := Trace(START, {})

  lemma BeginsInStep(src: seq<byte>, bytes: seq<byte>)
    requires |bytes| == |src|
    ensures InStep(src, BEGIN.s, Fresh(bytes))
  {
  }

  /**
   * What the fresh batches alone do when none is lost: after ceil(chunks / 28)
   * ticks and not before, every byte is there and only the empty chunk behind a
   * length that is a multiple of the chunk size is missing.
   */
  lemma LosslessStream(src: seq<byte>, bytes: seq<byte>, k: nat)
    requires |bytes| == |src| < U32
    ensures
      var rx := DeliverTicks(src, BEGIN, Fresh(bytes), k);
      var enough := k >= CeilDiv(RealChunks(|src|), BATCH);
      && (Done(rx) <==> |src| % CHUNK != 0 && enough)
      && (enough ==>
            && rx.bytes == src && HeadAtEnd(rx) && Drained(src, Ticks(src, BEGIN, k).s)
            && (forall i: nat :: i < |rx.filled| ==> (!rx.filled[i] <==> i * CHUNK == |src|)))
  {
    BeginsInStep(src, bytes);
    TicksInStep(src, BEGIN, Fresh(bytes), k);
    DrainedWhen(src, BEGIN, k);
    ArrivedInStep(src, Ticks(src, BEGIN, k).s, DeliverTicks(src, BEGIN, Fresh(bytes), k));
  }

  /** `a` is the active range of a batch of which packets `received` have come. */
  ghost predicate WindowOver(b: Batch, received: seq<nat>, a: Area) {
    && received != [] && (forall k :: 0 <= k < |received| ==> received[k] < |b|)
    && ActiveRange(Window(|b|, 0, 0, TrackAll(StartsOf(b), received))) == Some(a)
  }

  /** `a` belongs to a batch sent in one of the first `k` ticks. */
  ghost predicate OfSent(src: seq<byte>, k: nat, a: Area) {
    exists j: nat, received :: j < k && WindowOver(Emits(src, Ticks(src, BEGIN, j)), received, a)
  }

  /** The window of a fresh batch does not reach past the source when that ends with a whole chunk. */
  lemma FreshWindowEnds(src: seq<byte>, s: Sender, received: seq<nat>, a: Area)
    requires HeadOk(src, s.head) && s.head < |src| < U32 && Running(s) && |src| % CHUNK == 0
    requires WindowOver(Tick(src, s).1, received, a)
    ensures a.end <= |src|
  {
    var starts := StartsOf(Tick(src, s).1);
    FreshConsecutive(src, s);
    FaithfulLocatedAt(src, s);
    ConsecutiveLocated(starts, received);
    FreshBatchEnds(src, s);
  }

  lemma SentWindowEnds(src: seq<byte>, t: Trace, rx: Rx, received: seq<nat>, a: Area)
    requires InStep(src, t.s, rx) && |src| < U32 && |src| % CHUNK == 0
    requires WindowOver(Emits(src, t), received, a)
    ensures a.end <= |src|
  {
    WindowNeedsBatch(Tick(src, t.s).1, received, a);
    SendsWhileFresh(src, t.s);
    FreshWindowEnds(src, t.s, received, a);
  }

  lemma WindowNeedsBatch(b: Batch, received: seq<nat>, a: Area)
    requires WindowOver(b, received, a)
    ensures b != []
  {
    assert received[0] < |b|;
  }

  lemma SendsWhileFresh(src: seq<byte>, s: Sender)
    requires s.head <= |src| && Running(s) && s.extras == {}
    ensures Tick(src, s).1 != [] ==> s.head < |src|
  {
    if s.head == |src| {
      NoExtras(src, s);
    }
  }

  lemma SentEndsInside(src: seq<byte>, bytes: seq<byte>, k: nat, a: Area)
    requires |bytes| == |src| < U32 && |src| % CHUNK == 0 && OfSent(src, k, a)
    ensures a.end <= |src|
  {
    var j: nat, received :| j < k && WindowOver(Emits(src, Ticks(src, BEGIN, j)), received, a);
    BeginsInStep(src, bytes);
    TicksInStep(src, BEGIN, Fresh(bytes), j);
    SentWindowEnds(src, Ticks(src, BEGIN, j), DeliverTicks(src, BEGIN, Fresh(bytes), j), received, a);
  }

  lemma NoWindowAtEnd(src: seq<byte>, bytes: seq<byte>, k: nat, active: seq<Area>)
    requires |bytes| == |src| < U32 && |src| % CHUNK == 0
    requires forall a :: a in active ==> OfSent(src, k, a)
    ensures !InActive(active, |src|)
  {
    forall n | 0 <= n < |active| ensures !Inside(active[n], |src|) {
      SentEndsInside(src, bytes, k, active[n]);
    }
  }

  lemma FaithfulLocatedAt(src: seq<byte>, s: Sender)
    requires HeadOk(src, s.head)
    ensures AscendingChunks(StartsOf(Tick(src, s).1))
  {
    TickBatchFaithful(src, s);
    FaithfulLocated(src, Tick(src, s).1);
  }

  lemma FreshBatchEnds(src: seq<byte>, s: Sender)
    requires HeadOk(src, s.head) && s.head < |src| && Running(s) && |src| % CHUNK == 0
    ensures var b := Tick(src, s).1; b != [] && b[0].0 + |b| * CHUNK <= |src|
  {
    TickIsTake(src, s);
    TakeEnds(src, s.head);
  }

  lemma TakeEnds(src: seq<byte>, head: nat)
    requires HeadOk(src, head) && head < |src| && |src| % CHUNK == 0
    ensures var b := Take(src, head, BATCH).0; b != [] && b[0].0 + |b| * CHUNK <= |src|
  {
    TakeMeaning(src, head, BATCH);
    var b := Take(src, head, BATCH).0;
    var last := b[|b| - 1].0;
    assert last == head + (|b| - 1) * CHUNK && b[0].0 == head && last < |src|;
    RoomForOne(last, |src|);
  }

  lemma RoomForOne(pos: nat, len: nat)
    requires pos < len && pos % CHUNK == 0 && len % CHUNK == 0
    ensures pos + CHUNK <= len
  {
  }

  /**
   * A stream whose length is a multiple of the chunk size completes as well. The
   * arrival that brings the head to the end sweeps, whatever batches are still
   * live; the request asks for the empty chunk alone; and one tick later the
   * parity of the batch that carries it makes the receiver done.
   */
  lemma LosslessMultipleCompletes(
      src: seq<byte>, bytes: seq<byte>, k: nat, areas: seq<Area>, active: seq<Area>, now: nat,
      header: RetransmitPacket)
      returns (asked: Sender)
    requires |bytes| == |src| && |src| + U16 < U32 && |src| % CHUNK == 0
    requires k >= CeilDiv(RealChunks(|src|), BATCH)
    requires Indexes(areas, DeliverTicks(src, BEGIN, Fresh(bytes), k).filled)
    requires forall a :: a in active ==> OfSent(src, k, a)
    requires RetransmitOk(header)
    ensures
      var rx := DeliverTicks(src, BEGIN, Fresh(bytes), k);
      AskedBySweep(Ticks(src, BEGIN, k).s, asked, rx, areas, map[], active, now, header)
    ensures asked.extras == {|src| / CHUNK}
    ensures
      var rx := DeliverTicks(src, BEGIN, Fresh(bytes), k);
      var r := DeliverTicks(src, Trace(asked, {}), rx, 1);
      Done(r) && r.bytes == src
  {
    var s, rx := LosslessEnd(src, bytes, k);
    NoWindowAtEnd(src, bytes, k, active);
    asked := OnlyEndMissing(src, rx, s, areas, active, now, header);
  }

  lemma LosslessEnd(src: seq<byte>, bytes: seq<byte>, k: nat) returns (s: Sender, rx: Rx)
    requires |bytes| == |src| < U32 && k >= CeilDiv(RealChunks(|src|), BATCH)
    ensures s == Ticks(src, BEGIN, k).s && rx == DeliverTicks(src, BEGIN, Fresh(bytes), k)
    ensures Faithful(rx, src) && HeadAtEnd(rx) && Drained(src, s) && Running(s)
    ensures forall i: nat :: i < |rx.filled| ==> (!rx.filled[i] <==> i * CHUNK == |src|)
  {
    s, rx := Ticks(src, BEGIN, k).s, DeliverTicks(src, BEGIN, Fresh(bytes), k);
    LosslessStream(src, bytes, k);
    BeginsInStep(src, bytes);
    TicksInStep(src, BEGIN, Fresh(bytes), k);
    assert Steady(src, s, rx);
  }

  lemma OnlyEndMissing(
      src: seq<byte>, rx: Rx, s: Sender, areas: seq<Area>, active: seq<Area>, now: nat, header: RetransmitPacket)
      returns (asked: Sender)
    requires Faithful(rx, src) && HeadAtEnd(rx) && |src| + U16 < U32 && |src| % CHUNK == 0
    requires forall i: nat :: i < |rx.filled| ==> (!rx.filled[i] <==> i * CHUNK == |src|)
    requires Drained(src, s) && Running(s)
    requires Indexes(areas, rx.filled) && !InActive(active, |src|) && RetransmitOk(header)
    ensures AskedBySweep(s, asked, rx, areas, map[], active, now, header) && asked.extras == {|src| / CHUNK}
    ensures var r := DeliverTicks(src, Trace(asked, {}), rx, 1); Done(r) && r.bytes == src
  {
    OnlyEndWanted(src, rx, active);
    asked := IdleSweepCompletes(src, rx, areas, map[], active, now, header, s, 1);
    OnlyEndAsked(src, rx, asked.extras);
    assert CeilDiv(1, BATCH) == 1;
  }

  lemma OnlyEndAsked(src: seq<byte>, rx: Rx, extras: set<nat>)
    requires |rx.filled| == |src| / CHUNK + 1 && |src| % CHUNK == 0
    requires forall i: nat :: i < |rx.filled| ==> (!rx.filled[i] <==> i * CHUNK == |src|)
    requires forall i: nat :: i in extras <==> i < |rx.filled| && !rx.filled[i]
    ensures extras == {|src| / CHUNK} && |extras| == 1
  {
    assert |src| / CHUNK * CHUNK == |src|;
    assert extras == {|src| / CHUNK};
  }

  lemma OnlyEndWanted(src: seq<byte>, rx: Rx, active: seq<Area>)
    requires Shaped(rx) && !InActive(active, |src|)
    requires forall i: nat :: i < |rx.filled| ==> (!rx.filled[i] <==> i * CHUNK == |src|)
    ensures AllWanted(rx, map[], active)
  {
  }

  /** By then the interval list has the empty chunk as its only area. */
  lemma LosslessIndex(src: seq<byte>, bytes: seq<byte>, k: nat)
    requires |bytes| == |src| < U32 && |src| % CHUNK == 0 && k >= CeilDiv(RealChunks(|src|), BATCH)
    ensures
      var end := |src| / CHUNK;
      Indexes([Area(end, end + 1)], DeliverTicks(src, BEGIN, Fresh(bytes), k).filled)
  {
    var s, rx := LosslessEnd(src, bytes, k);
    OnlyEndIndex(src, rx);
  }

  lemma OnlyEndIndex(src: seq<byte>, rx: Rx)
    requires |rx.filled| == |src| / CHUNK + 1 && |src| % CHUNK == 0
    requires forall i: nat :: i < |rx.filled| ==> (!rx.filled[i] <==> i * CHUNK == |src|)
    ensures Indexes([Area(|src| / CHUNK, |src| / CHUNK + 1)], rx.filled)
  {
    var areas := [Area(|src| / CHUNK, |src| / CHUNK + 1)];
    forall i | 0 <= i < |rx.filled| ensures !rx.filled[i] <==> Covered(areas, i) {
      assert Inside(areas[0], i) <==> i == |src| / CHUNK;
      assert i == |src| / CHUNK <==> i * CHUNK == |src|;
    }
  }

  /** A stream without bytes is never even started: no tick sends anything that could set off a sweep. */
  lemma EmptyStreamIsSilent(bytes: seq<byte>, k: nat)
    requires bytes == []
    ensures Emits([], Ticks([], BEGIN, k)) == [] && !Done(DeliverTicks([], BEGIN, Fresh(bytes), k))
  {
    TicksInStep([], BEGIN, Fresh(bytes), k);
    NoExtras([], Ticks([], BEGIN, k).s);
    LosslessStream([], bytes, k);
  }
}
