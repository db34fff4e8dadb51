/**
 * What a round on a network that loses nothing comes to, step by step: the
 * sender's turns, the writes of data packets, the batch objects, the recovery
 * and its write are all steps of `Protocol`, and end in Done being declared.
 */
module Progress {
  import opened Common
  import opened Areas
  import opened Buffer
  import opened Completion
  import opened Delivery
  import opened Packets
  import Protocol
  import opened Ranges
  import opened Requests
  import opened Sending
  import opened XorFec

  predicate Leads(src: seq<byte>, bytes: seq<byte>, steps: seq<Protocol.Step>, s: Protocol.State) {
    Protocol.Run(src, bytes, steps) == s
  }

  ghost predicate Reachable(src: seq<byte>, bytes: seq<byte>, s: Protocol.State) {
    exists steps :: Leads(src, bytes, steps, s)
  }

  lemma OneStep(src: seq<byte>, bytes: seq<byte>, s: Protocol.State, step: Protocol.Step) returns (t: Protocol.State)
    requires Reachable(src, bytes, s)
    ensures Protocol.WellFormed(src, s) && t == Protocol.Next(src, s, step) && Reachable(src, bytes, t)
  {
    var steps :| Leads(src, bytes, steps, s);
    t := Protocol.Next(src, s, step);
    assert (steps + [step])[..|steps|] == steps;
    assert Leads(src, bytes, steps + [step], t);
  }

  lemma Standing(src: seq<byte>, bytes: seq<byte>, s: Protocol.State)
    requires Reachable(src, bytes, s)
    ensures Protocol.WellFormed(src, s)
  {
    var steps :| Leads(src, bytes, steps, s);
  }

  // ---------------------------------------------------------------- what a round starts from

  /** The table lists only batches that were sent. */
  ghost predicate ListsSent(s: Protocol.State) {
    forall batch :: batch in s.receiver.table ==> 1 <= batch <= |s.log|
  }

  lemma NextListsSent(src: seq<byte>, s: Protocol.State, step: Protocol.Step)
    requires Protocol.WellFormed(src, s) && ListsSent(s)
    ensures ListsSent(Protocol.Next(src, s, step))
  {
  }

  lemma {:induction false} RunListsSent(src: seq<byte>, bytes: seq<byte>, steps: seq<Protocol.Step>)
    ensures ListsSent(Protocol.Run(src, bytes, steps))
  {
    if steps == [] {
    } else {
      RunListsSent(src, bytes, steps[..|steps| - 1]);
      NextListsSent(src, Protocol.Run(src, bytes, steps[..|steps| - 1]), steps[|steps| - 1]);
    }
  }

  /** The receiver still takes packets in, or needs no more, and the application wants the whole stream. */
  ghost predicate Flowing(r: Protocol.Receiver) {
    Shaped(r.rx) && r.complete != Some(true) && (r.streaming || Done(r.rx))
  }

  /** The write of one packet does to the buffer what `Apply` says, whoever asks for it. */
  lemma SettleFlows(r: Protocol.Receiver, p: Packet, fromData: bool)
    requires Flowing(r)
    ensures
      var after := Protocol.Settle(r, p, fromData);
      && Flowing(after) && after.rx == Apply(r.rx, WriteOp(p.0, p.1))
      && after.table == r.table && after.heap == r.heap && after.recovered == r.recovered
  {
  }

  // ---------------------------------------------------------------- the batch's object

  /** The object of batch `id` is `obj`, or there is none yet and `obj` is what it starts as. */
  ghost predicate Holds(r: Protocol.Receiver, id: nat, obj: Inbound) {
    if id in r.table then r.table[id] < |r.heap| && r.heap[r.table[id]] == Protocol.Held(id, obj)
    else obj == NewInbound(obj.batchSize, 0)
  }

  /** A message of batch `id` is shown to the batch's object. */
  lemma ShowObject(
      src: seq<byte>, bytes: seq<byte>, s: Protocol.State, m: Protocol.Message, obj: Inbound)
      returns (t: Protocol.State)
    requires Reachable(src, bytes, s) && Protocol.Receivable(s.log, m)
    requires Holds(s.receiver, m.batch, obj) && obj.batchSize == m.size
    ensures Reachable(src, bytes, t) && t.sender == s.sender && t.log == s.log
    ensures t.receiver == s.receiver.(table := t.receiver.table, heap := t.receiver.heap)
    ensures m.batch in t.receiver.table && Holds(t.receiver, m.batch, Protocol.CombineInto(obj, m))
  {
    var mid := OneStep(src, bytes, s, Protocol.Look(m, 0));
    assert Holds(mid.receiver, m.batch, obj) && m.batch in mid.receiver.table;
    t := OneStep(src, bytes, mid, Protocol.Combine(mid.receiver.table[m.batch], m));
  }

  // ---------------------------------------------------------------- one batch

  /** Batch `b`, sent as the last of `log`, has had its first `n` packets delivered to a receiver that was at `rx`. */
  ghost predicate Midway(s: Protocol.State, log: seq<Batch>, rx: Rx, b: Batch, n: nat) {
    && Shaped(rx) && Packable(b) && n <= |b|
    && s.log == log + [b]
    && Flowing(s.receiver) && s.receiver.rx == DataIn(rx, b[..n])
    && Holds(s.receiver, |log| + 1, Collected(rx, b, n))
  }

  function DataOf(id: nat, b: Batch, n: nat): Protocol.Message
    requires n < |b|
  {
    Protocol.DataMessage(id, |b|, n, b[n].0, b[n].1)
  }

  lemma Sent(log: seq<Batch>, b: Batch, n: nat)
    requires Packable(b)
    ensures n < |b| ==> Protocol.Emitted(log + [b], DataOf(|log| + 1, b, n))
    ensures Protocol.Receivable(log + [b], Protocol.ParityMessage(|log| + 1, |b|, ParityOf(PackAll(b))))
  {
    assert (log + [b])[|log|] == b;
  }

  lemma {:induction false} CollectedSize(rx: Rx, b: Batch, n: nat)
    requires Shaped(rx) && Packable(b) && n <= |b|
    ensures Collected(rx, b, n).batchSize == |b|
  {
    if n == 0 {
    } else {
      CollectedSize(rx, b, n - 1);
    }
  }

  lemma OneMoreIn(rx: Rx, b: Batch, n: nat)
    requires Shaped(rx) && Packable(b) && n < |b|
    ensures
      var before, p := DataIn(rx, b[..n]), b[n];
      && DataIn(rx, b[..n + 1]) == (if Accepted(before, p) then Apply(before, WriteOp(p.0, p.1)) else before)
      && Collected(rx, b, n + 1) ==
         if Accepted(before, p) then Protocol.CombineInto(Collected(rx, b, n), DataOf(0, b, n)) else Collected(rx, b, n)
  {
    assert b[..n + 1][..n] == b[..n];
  }

  /** The next packet is written and, if the buffer took it, shown to the object. */
  lemma DeliverPacket(
      src: seq<byte>, bytes: seq<byte>, s: Protocol.State, log: seq<Batch>, rx: Rx, b: Batch, n: nat)
      returns (t: Protocol.State)
    requires Reachable(src, bytes, s) && Midway(s, log, rx, b, n) && n < |b|
    ensures Reachable(src, bytes, t) && t.sender == s.sender && Midway(t, log, rx, b, n + 1)
  {
    var m := DataOf(|log| + 1, b, n);
    OneMoreIn(rx, b, n);
    Sent(log, b, n);
    if Accepted(s.receiver.rx, b[n]) {
      var mid := OneStep(src, bytes, s, Protocol.ReceiveData(m));
      SettleFlows(s.receiver, b[n], true);
      CollectedSize(rx, b, n);
      t := ShowObject(src, bytes, mid, m, Collected(rx, b, n));
    } else {
      t := s;
    }
  }

  lemma {:induction false} DeliverPackets(
      src: seq<byte>, bytes: seq<byte>, s: Protocol.State, log: seq<Batch>, rx: Rx, b: Batch, n: nat)
      returns (t: Protocol.State)
    requires Reachable(src, bytes, s) && Midway(s, log, rx, b, n)
    ensures Reachable(src, bytes, t) && t.sender == s.sender && Midway(t, log, rx, b, |b|)
    decreases |b| - n
  {
    if n == |b| {
      t := s;
    } else {
      t := DeliverPacket(src, bytes, s, log, rx, b, n);
      t := DeliverPackets(src, bytes, t, log, rx, b, n + 1);
    }
  }

  /** The parity comes in, and what it recovers is written. */
  lemma DeliverParity(
      src: seq<byte>, bytes: seq<byte>, s: Protocol.State, log: seq<Batch>, rx: Rx, b: Batch)
      returns (t: Protocol.State)
    requires Reachable(src, bytes, s) && Midway(s, log, rx, b, |b|)
    ensures Reachable(src, bytes, t) && t.sender == s.sender && t.log == s.log
    ensures Flowing(t.receiver) && t.receiver.rx == Deliver(rx, b)
  {
    assert b[..|b|] == b;
    CollectedSize(rx, b, |b|);
    Sent(log, b, |b|);
    var m := Protocol.ParityMessage(|log| + 1, |b|, ParityOf(PackAll(b)));
    t := ShowObject(src, bytes, s, m, Collected(rx, b, |b|));
    t := WriteWhatIsRecovered(src, bytes, t, t.receiver.table[m.batch]);
  }

  /** A recovery from an object and the write of its packet. */
  lemma WriteWhatIsRecovered(src: seq<byte>, bytes: seq<byte>, s: Protocol.State, o: nat) returns (t: Protocol.State)
    requires Reachable(src, bytes, s) && Flowing(s.receiver) && o < |s.receiver.heap|
    ensures Reachable(src, bytes, t) && t.sender == s.sender && t.log == s.log && Flowing(t.receiver)
    ensures t.receiver.rx == match Recovered(s.receiver.heap[o].inbound)
                             case None => s.receiver.rx
                             case Some(data) => Apply(s.receiver.rx, WriteOp(Unpacked(data).0, Unpacked(data).1))
  {
    t := s;
    if Recovered(s.receiver.heap[o].inbound).Some? {
      t := OneStep(src, bytes, s, Protocol.Recover(o));
      var k := |s.receiver.recovered|;
      SettleFlows(t.receiver, t.receiver.recovered[k], false);
      t := OneStep(src, bytes, t, Protocol.WriteRecovered(k));
    }
  }

  // ---------------------------------------------------------------- rounds

  /** A tick of the sender and the delivery of what it sends. */
  lemma DeliverTick(src: seq<byte>, bytes: seq<byte>, s: Protocol.State) returns (t: Protocol.State)
    requires Reachable(src, bytes, s) && Flowing(s.receiver) && |s.log| < Protocol.MAX_BATCHES
    ensures Protocol.WellFormed(src, s)
    ensures Reachable(src, bytes, t) && Flowing(t.receiver) && |t.log| <= |s.log| + 1
    ensures t.sender == Advance(src, s.sender, TickDue)
    ensures t.receiver.rx == Deliver(s.receiver.rx, Emits(src, s.sender))
  {
    t := OneStep(src, bytes, s, Protocol.SenderTurn(TickDue));
    var b, rx := Emits(src, s.sender), s.receiver.rx;
    if b == [] {
      NothingDelivered(rx);
    } else {
      var steps :| Leads(src, bytes, steps, s);
      RunListsSent(src, bytes, steps);
      assert b[..0] == [];
      assert Midway(t, s.log, rx, b, 0);
      t := DeliverPackets(src, bytes, t, s.log, rx, b, 0);
      t := DeliverParity(src, bytes, t, s.log, rx, b);
    }
  }

  /** In state `t` of a run the two parties are at `x`, at most `n + j` batches in. */
  ghost predicate At(src: seq<byte>, bytes: seq<byte>, t: Protocol.State, x: (Trace, Rx), n: nat, j: nat) {
    Reachable(src, bytes, t) && Flowing(t.receiver) && |t.log| <= n + j && x.0 == t.sender && x.1 == t.receiver.rx
  }

  ghost predicate Comes(src: seq<byte>, bytes: seq<byte>, x: (Trace, Rx), n: nat, j: nat) {
    exists t :: At(src, bytes, t, x, n, j)
  }

  lemma ComesFurther(src: seq<byte>, bytes: seq<byte>, x: (Trace, Rx), n: nat, j: nat)
    requires j > 0 && Comes(src, bytes, x, n, j - 1) && n + j <= Protocol.MAX_BATCHES
    ensures Comes(src, bytes, Turn(src)(x), n, j)
  {
    var s :| At(src, bytes, s, x, n, j - 1);
    var t := DeliverTick(src, bytes, s);
    TurnIs(src, x.0, x.1);
    assert At(src, bytes, t, Turn(src)(x), n, j);
  }

  lemma TurnComes(src: seq<byte>, bytes: seq<byte>, start: (Trace, Rx), n: nat, k: nat)
    requires k > 0 && n + k <= Protocol.MAX_BATCHES
    requires Comes(src, bytes, Iterated(Turn(src), start, k - 1), n, k - 1)
    ensures Comes(src, bytes, Iterated(Turn(src), start, k), n, k)
  {
    ComesFurther(src, bytes, Iterated(Turn(src), start, k - 1), n, k);
  }

  lemma {:induction false} IterationComes(src: seq<byte>, bytes: seq<byte>, start: (Trace, Rx), n: nat, k: nat)
    requires Comes(src, bytes, start, n, 0) && n + k <= Protocol.MAX_BATCHES
    ensures Comes(src, bytes, Iterated(Turn(src), start, k), n, k)
    decreases k
  {
    if k == 0 {
      assert Iterated(Turn(src), start, k) == start;
    } else {
      IterationComes(src, bytes, start, n, k - 1);
      TurnComes(src, bytes, start, n, k);
    }
  }

  /** From every state of a run some continuation does just what the next `k` ticks and their delivery say. */
  lemma RoundComes(src: seq<byte>, bytes: seq<byte>, s: Protocol.State, k: nat)
    requires Protocol.WellFormed(src, s) && Reachable(src, bytes, s) && Flowing(s.receiver)
    requires |s.log| + k <= Protocol.MAX_BATCHES
    ensures Comes(src, bytes, (Ticks(src, s.sender, k), DeliverTicks(src, s.sender, s.receiver.rx, k)), |s.log|, k)
  {
    var start := (s.sender, s.receiver.rx);
    assert At(src, bytes, s, start, |s.log|, 0);
    IterationComes(src, bytes, start, |s.log|, k);
    TicksIterate(src, s.sender, s.receiver.rx, k);
  }

  /** The continuation as a state: it has declared Done if those ticks make the buffer done. */
  lemma RoundHappens(src: seq<byte>, bytes: seq<byte>, s: Protocol.State, k: nat) returns (t: Protocol.State)
    requires Protocol.WellFormed(src, s) && Reachable(src, bytes, s) && Flowing(s.receiver)
    requires |s.log| + k <= Protocol.MAX_BATCHES
    ensures Reachable(src, bytes, t) && t.sender == Ticks(src, s.sender, k)
    ensures t.receiver.rx == DeliverTicks(src, s.sender, s.receiver.rx, k)
    ensures Protocol.Announced(t.receiver)
  {
    RoundComes(src, bytes, s, k);
    var x := (Ticks(src, s.sender, k), DeliverTicks(src, s.sender, s.receiver.rx, k));
    t :| At(src, bytes, t, x, |s.log|, k);
    var steps :| Leads(src, bytes, steps, t);
    Protocol.DoneIsDeclared(src, bytes, steps);
  }

  /** Done was declared, and on the whole source. */
  ghost predicate DeclaredWhole(src: seq<byte>, r: Protocol.Receiver) {
    && Done(r.rx) && r.rx.bytes == src
    && |r.declared| > 0 && r.declared[|r.declared| - 1].rx == r.rx
  }

  /**
   * A stream whose length is no multiple of the chunk size can always complete:
   * the run in which nothing is lost declares Done on the whole source after
   * ceil(chunks / 28) ticks.
   */
  lemma LosslessRunDeclares(src: seq<byte>, bytes: seq<byte>) returns (t: Protocol.State)
    requires |bytes| == |src| < U32 && |src| % CHUNK != 0
    requires CeilDiv(RealChunks(|src|), BATCH) <= Protocol.MAX_BATCHES
    ensures Reachable(src, bytes, t) && DeclaredWhole(src, t.receiver)
    ensures t.sender == Ticks(src, BEGIN, CeilDiv(RealChunks(|src|), BATCH))
  {
    var init, k := Protocol.Init(bytes), CeilDiv(RealChunks(|src|), BATCH);
    assert Leads(src, bytes, [], init);
    t := RoundHappens(src, bytes, init, k);
    LosslessStream(src, bytes, k);
  }

  // ---------------------------------------------------------------- a sweep and its round

  lemma {:induction false} IterationAgrees<S(!new)>(f: S -> S, same: (S, S) -> bool, a: S, b: S, k: nat)
    requires same(a, b) && forall x, y :: same(x, y) ==> same(f(x), f(y))
    ensures same(Iterated(f, a, k), Iterated(f, b, k))
  {
    if k == 0 {
    } else {
      IterationAgrees(f, same, a, b, k - 1);
    }
  }

  /** The same sender and buffer, whatever the record of what was sent. */
  ghost predicate Alike(src: seq<byte>, x: (Trace, Rx), y: (Trace, Rx)) {
    x.0.s == y.0.s && x.1 == y.1 && x.0.s.head <= |src| && Shaped(x.1)
  }

  lemma TurnAlike(src: seq<byte>, x: (Trace, Rx), y: (Trace, Rx))
    requires Alike(src, x, y)
    ensures Alike(src, Turn(src)(x), Turn(src)(y))
  {
    TurnIs(src, x.0, x.1);
    TurnIs(src, y.0, y.1);
    assert Emits(src, x.0) == Emits(src, y.0);
  }

  /** What was sent before does not matter to a round. */
  lemma RoundAlike(src: seq<byte>, t: Trace, rx: Rx, k: nat)
    requires t.s.head <= |src| && Shaped(rx)
    ensures DeliverTicks(src, t, rx, k) == DeliverTicks(src, Trace(t.s, {}), rx, k)
  {
    ghost var same := (x: (Trace, Rx), y: (Trace, Rx)) => Alike(src, x, y);
    forall x, y | same(x, y) ensures same(Turn(src)(x), Turn(src)(y)) {
      TurnAlike(src, x, y);
    }
    IterationAgrees(Turn(src), same, (t, rx), (Trace(t.s, {}), rx), k);
    TicksIterate(src, t, rx, k);
    TicksIterate(src, Trace(t.s, {}), rx, k);
  }

  /** One packet of a request reaches the sender. */
  lemma PacketArrives(
      src: seq<byte>, bytes: seq<byte>, s: Protocol.State, header: RetransmitPacket, group: seq<ByteRange>)
      returns (t: Protocol.State)
    requires Reachable(src, bytes, s) && RetransmitOk(header.(payload := group)) && group != []
    ensures Reachable(src, bytes, t) && t.log == s.log && t.receiver == s.receiver
    ensures t.sender.s == s.sender.s.(extras := t.sender.s.extras)
    ensures t.sender.s.extras ==
            s.sender.s.extras + Elements(QueuedFromWire(SerializeRetransmit(header.(payload := group))))
  {
    t := OneStep(src, bytes, s, Protocol.SenderTurn(Do(Retransmit(group))));
    GroupTravels(header.(payload := group));
  }

  lemma ElementsConcat(a: seq<nat>, b: seq<nat>)
    ensures Elements(a + b) == Elements(a) + Elements(b)
  {
  }

  /** The packets of a request reach the sender one by one. */
  lemma {:induction false} RequestArrives(
      src: seq<byte>, bytes: seq<byte>, s: Protocol.State, header: RetransmitPacket, groups: seq<seq<ByteRange>>)
      returns (t: Protocol.State)
    requires Reachable(src, bytes, s)
    requires forall g :: 0 <= g < |groups| ==> RetransmitOk(header.(payload := groups[g])) && groups[g] != []
    ensures Reachable(src, bytes, t) && t.log == s.log && t.receiver == s.receiver
    ensures t.sender.s == s.sender.s.(extras := t.sender.s.extras)
    ensures t.sender.s.extras == s.sender.s.extras + Elements(QueuedFromAll(header, groups))
    decreases |groups|
  {
    if groups == [] {
      t := s;
    } else {
      var mid := PacketArrives(src, bytes, s, header, groups[0]);
      var first := QueuedFromWire(SerializeRetransmit(header.(payload := groups[0])));
      var later := QueuedFromAll(header, groups[1..]);
      t := RequestArrives(src, bytes, mid, header, groups[1..]);
      assert QueuedFromAll(header, groups) == first + later;
      ElementsConcat(first, later);
    }
  }

  /**
   * From every state of a run in which the receiver's head is at the end and
   * nothing missing is held back, a sweep, the trip of its request and an
   * undisturbed round end in Done declared on the whole source, unless the one
   * obstacle of a length that is a multiple of the chunk size stands.
   */
  lemma SweepRunDeclares(
      src: seq<byte>, bytes: seq<byte>, s: Protocol.State, areas: seq<Area>, pending: Pending, active: seq<Area>,
      now: nat, header: RetransmitPacket, k: nat)
      returns (asked: Sender, t: Protocol.State)
    requires Reachable(src, bytes, s) && |bytes| == |src| && |src| + U16 < U32
    requires Flowing(s.receiver) && HeadAtEnd(s.receiver.rx) && Running(s.sender.s)
    requires Indexes(areas, s.receiver.rx.filled) && AllWanted(s.receiver.rx, pending, active)
    requires RetransmitOk(header) && |s.log| + k <= Protocol.MAX_BATCHES
    ensures AskedBySweep(s.sender.s, asked, s.receiver.rx, areas, pending, active, now, header)
    ensures |s.receiver.rx.filled| == |src| / CHUNK + 1 && asked.head <= |src|
    ensures
      k >= Bound(src, asked) && (|src| % CHUNK != 0 || EndWillFill(src, asked, s.receiver.rx)) ==>
        Reachable(src, bytes, t) && DeclaredWhole(src, t.receiver)
  {
    var rx := s.receiver.rx;
    SafeThere(src, bytes, s);
    asked := SweepRoundCompletes(src, rx, areas, pending, active, now, header, s.sender.s, k);
    var taken := Reserve(rx, pending, Inactive(active, Positions(areas)), now).0;
    t := RequestArrives(src, bytes, s, header, Grouped(Coalesced(taken), MAX_RANGES));
    Standing(src, bytes, t);
    assert t.sender.s == asked;
    RoundAlike(src, t.sender, rx, k);
    t := RoundHappens(src, bytes, t, k);
  }

  lemma SafeThere(src: seq<byte>, bytes: seq<byte>, s: Protocol.State)
    requires Reachable(src, bytes, s) && |bytes| == |src| < U32
    ensures Protocol.WellFormed(src, s) && Faithful(s.receiver.rx, src) && HeadOk(src, s.sender.s.head)
  {
    var steps :| Leads(src, bytes, steps, s);
    Protocol.StreamIsSafe(src, bytes, steps);
  }
}
