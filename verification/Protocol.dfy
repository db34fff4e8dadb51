/**
 * One stream end to end. The network may lose, duplicate, delay and reorder:
 * a receiver may take in any message that was ever sent, any number of times.
 * Each step is one critical section of the sender or of the receiver.
 */
module Protocol {
  import opened Common
  import opened Buffer
  import opened XorFec
  import opened Sending

  const MAX_BATCHES: nat := U16 - 1

  datatype Message =
    | DataMessage(batch: nat, size: nat, index: nat, pos: nat, payload: seq<byte>)
    | ParityMessage(batch: nat, size: nat, data: Block)

  /** An inbound batch object; it outlives its table entry while a task still holds it. */
  datatype Held = Held(batch: nat, inbound: Inbound)

  datatype Declaration = Declaration(rx: Rx, complete: Option<bool>)

  /**
   * `recovered` holds the packets that recoveries have produced and that wait
   * to be written; `declared` records the buffer each time Done was sent.
   */
  datatype Receiver = Receiver(
    rx: Rx, complete: Option<bool>, streaming: bool,
    table: map<nat, nat>, heap: seq<Held>, recovered: seq<Packet>, declared: seq<Declaration>)

  /** `log[k]` is the batch sent under id `k + 1`. */
  datatype State = State(sender: Trace, log: seq<Batch>, receiver: Receiver)

  datatype Step =
    | SenderTurn(action: Action)
    | ReceiveData(message: Message)
    | Look(message: Message, now: nat)
    | Combine(object: nat, message: Message)
    | Unlist(batch: nat)
    | Recover(object: nat)
    | WriteRecovered(k: nat)
    | LocalSeek(pos: nat)
    | SetComplete(partialOk: bool)

  function Init(bytes: seq<byte>): State {
    State(Trace(START, {}), [], Receiver(Fresh(bytes), None, true, map[], [], [], []))
  }

  /** Whether the sender ever put `m` on the network. */
  predicate Emitted(log: seq<Batch>, m: Message) {
    && 1 <= m.batch <= |log|
    && var b := log[m.batch - 1];
       && Packable(b)
       && m.size == |b|
       && (match m
           case DataMessage(_, _, index, pos, payload) => index < |b| && b[index] == (pos, payload)
           case ParityMessage(_, _, data) => data == ParityOf(PackAll(b)))
  }

  /** Decryption throws away packets with an empty payload. */
  predicate Receivable(log: seq<Batch>, m: Message) {
    Emitted(log, m) && (m.DataMessage? ==> m.payload != [])
  }

  predicate WellFormed(src: seq<byte>, s: State) {
    s.sender.s.head <= |src| && Shaped(s.receiver.rx)
  }

  // ---------------------------------------------------------------- steps

  function SenderStep(src: seq<byte>, s: State, a: Action): (r: State)
    requires WellFormed(src, s)
    ensures WellFormed(src, r)
  {
    if a.TickDue? && |s.log| >= MAX_BATCHES then s
    else
      var b := if a.TickDue? && s.sender.s.playing then Tick(src, s.sender.s).1 else [];
      s.(sender := Advance(src, s.sender, a), log := if b == [] then s.log else s.log + [b])
  }

  predicate DeclaresDone(rx: Rx, complete: Option<bool>) {
    Done(rx) || (complete == Some(true) && HeadAtEnd(rx))
  }

  /**
   * Writes one packet and decides whether the stream is done. A data packet
   * that finishes the stream takes the session out of it; a recovered one only
   * marks it closed.
   */
  function Settle(r: Receiver, p: Packet, fromData: bool): (after: Receiver)
    requires Shaped(r.rx)
    ensures Shaped(after.rx)
  {
    if !r.streaming then r
    else match Written(r.rx, p.0, p.1)
      case Err(_) => r
      case Ok(rx) =>
        if DeclaresDone(rx, r.complete) then
          r.(rx := rx, streaming := !fromData, declared := r.declared + [Declaration(rx, r.complete)])
        else r.(rx := rx)
  }

  /** Finds the batch's object, or makes one and lists it. */
  function LookUp(r: Receiver, batch: nat, size: nat, now: nat): Receiver {
    if batch in r.table then r
    else r.(table := r.table[batch := |r.heap|], heap := r.heap + [Held(batch, NewInbound(size, now))])
  }

  function CombineInto(b: Inbound, m: Message): Inbound
    requires m.DataMessage? ==> |m.payload| <= CHUNK
  {
    match m
    case DataMessage(_, _, index, pos, payload) => AddData(b, index, Packed(pos, payload))
    case ParityMessage(_, _, data) => AddParity(b, data)
  }

  function Next(src: seq<byte>, s: State, step: Step): (r: State)
    requires WellFormed(src, s)
    ensures WellFormed(src, r)
  {
    var me := s.receiver;
    match step
    case SenderTurn(a) => SenderStep(src, s, a)
    case ReceiveData(m) =>
      if m.DataMessage? && Receivable(s.log, m) then s.(receiver := Settle(me, (m.pos, m.payload), true)) else s
    case Look(m, now) =>
      if Receivable(s.log, m) then s.(receiver := LookUp(me, m.batch, m.size, now)) else s
    case Combine(o, m) =>
      // a task may still hold an object that has left the table
      if Receivable(s.log, m) && o < |me.heap| && me.heap[o].batch == m.batch then
        s.(receiver := me.(heap := me.heap[o := Held(m.batch, CombineInto(me.heap[o].inbound, m))]))
      else s
    case Unlist(batch) => s.(receiver := me.(table := me.table - {batch}))
    case Recover(o) =>
      if o < |me.heap| && Recovered(me.heap[o].inbound).Some? then
        s.(receiver := me.(recovered := me.recovered + [Unpacked(Recovered(me.heap[o].inbound).value)]))
      else s
    case WriteRecovered(k) =>
      if k < |me.recovered| then s.(receiver := Settle(me, me.recovered[k], false)) else s
    case LocalSeek(pos) => if me.streaming then s.(receiver := me.(rx := Sought(me.rx, pos).0)) else s
    case SetComplete(partialOk) => s.(receiver := me.(complete := Some(partialOk)))
  }

  function Run(src: seq<byte>, bytes: seq<byte>, steps: seq<Step>): (s: State)
    ensures WellFormed(src, s)
  {
    if steps == [] then Init(bytes)
    else Next(src, Run(src, bytes, steps[..|steps| - 1]), steps[|steps| - 1])
  }

  // ---------------------------------------------------------------- invariant

  /** A whole chunk of `src` at its own position. */
  ghost predicate IsChunk(src: seq<byte>, p: Packet) {
    p.0 % CHUNK == 0 && p.0 <= |src| && p.1 == ChunkBytes(src, p.0 / CHUNK)
  }

  ghost predicate LogOk(src: seq<byte>, log: seq<Batch>) {
    forall k :: 0 <= k < |log| ==> FaithfulBatch(src, log[k])
  }

  /** Every object, listed or not, has seen only packets of the batch it stands for. */
  ghost predicate HeapOk(log: seq<Batch>, heap: seq<Held>) {
    forall o :: 0 <= o < |heap| ==> HeldOk(log, heap[o])
  }

  ghost predicate HeldOk(log: seq<Batch>, h: Held) {
    && 1 <= h.batch <= |log|
    && Packable(log[h.batch - 1])
    && Tracks(h.inbound, PackAll(log[h.batch - 1]))
  }

  ghost predicate RecoveredOk(src: seq<byte>, recovered: seq<Packet>) {
    forall k :: 0 <= k < |recovered| ==> IsChunk(src, recovered[k])
  }

  /** Done is only ever declared on the whole source, or at the end of what the application settled for. */
  ghost predicate DeclaredOk(src: seq<byte>, declared: seq<Declaration>) {
    forall k :: 0 <= k < |declared| ==>
      var d := declared[k];
      && HeadAtEnd(d.rx) && Faithful(d.rx, src)
      && (d.complete != Some(true) ==> d.rx.bytes == src)
  }

  /** What a step of the receiver keeps when it leaves the sender alone. */
  ghost predicate ReceiverSafe(src: seq<byte>, log: seq<Batch>, r: Receiver) {
    && HeapOk(log, r.heap)
    && RecoveredOk(src, r.recovered)
    && Faithful(r.rx, src)
    && DeclaredOk(src, r.declared)
  }

  ghost predicate Safe(src: seq<byte>, s: State) {
    && HeadOk(src, s.sender.s.head) && Remembered(src, s.sender)
    && LogOk(src, s.log)
    && ReceiverSafe(src, s.log, s.receiver)
  }

  lemma FaithfulPackable(src: seq<byte>, b: Batch)
    requires FaithfulBatch(src, b)
    ensures Packable(b) && forall k :: 0 <= k < |b| ==> IsChunk(src, b[k])
  {
  }

  lemma HeapStays(log: seq<Batch>, heap: seq<Held>, b: Batch)
    requires HeapOk(log, heap)
    ensures HeapOk(log + [b], heap)
  {
    forall o | 0 <= o < |heap| ensures HeldOk(log + [b], heap[o]) {
      assert HeldOk(log, heap[o]) && (log + [b])[heap[o].batch - 1] == log[heap[o].batch - 1];
    }
  }

  lemma SenderSafe(src: seq<byte>, s: State, a: Action)
    requires WellFormed(src, s) && Safe(src, s)
    ensures Safe(src, SenderStep(src, s, a))
  {
    match a
    case Do(e) => HandleRemembers(src, s.sender, e);
    case TickDue =>
      TickRemembers(src, s.sender);
      TickBatchFaithful(src, s.sender.s);
      HeapStays(s.log, s.receiver.heap, Tick(src, s.sender.s).1);
  }

  /** A chunk written at its own position keeps the buffer right, and Done is declared only when it may be. */
  lemma SettleSafe(src: seq<byte>, r: Receiver, p: Packet, fromData: bool)
    requires Faithful(r.rx, src) && DeclaredOk(src, r.declared) && IsChunk(src, p)
    ensures
      var after := Settle(r, p, fromData);
      Faithful(after.rx, src) && DeclaredOk(src, after.declared) && after.heap == r.heap
        && after.recovered == r.recovered
  {
    var i := p.0 / CHUNK;
    assert p == (i * CHUNK, ChunkBytes(src, i));
    if r.streaming && Written(r.rx, p.0, p.1).Ok? {
      WriteKeepsFaithful(r.rx, src, i);
      var rx := Written(r.rx, p.0, p.1).value;
      if Done(rx) {
        FaithfulDone(rx, src);
      }
    }
  }

  lemma LookSafe(log: seq<Batch>, r: Receiver, m: Message, now: nat)
    requires HeapOk(log, r.heap) && Emitted(log, m)
    ensures HeapOk(log, LookUp(r, m.batch, m.size, now).heap)
  {
    NewTracks(PackAll(log[m.batch - 1]), now);
    HeapExtended(log, r.heap, Held(m.batch, NewInbound(m.size, now)));
  }

  lemma HeapExtended(log: seq<Batch>, heap: seq<Held>, h: Held)
    requires HeapOk(log, heap) && HeldOk(log, h)
    ensures HeapOk(log, heap + [h])
  {
  }

  lemma CombineSafe(b: Inbound, batch: Batch, m: Message)
    requires Packable(batch) && Tracks(b, PackAll(batch))
    requires m.DataMessage? ==> m.index < |batch| && batch[m.index] == (m.pos, m.payload)
    requires m.ParityMessage? ==> m.data == ParityOf(PackAll(batch))
    ensures Tracks(CombineInto(b, m), PackAll(batch))
  {
    if m.DataMessage? {
      AddTracks(b, PackAll(batch), m.index);
    }
  }

  lemma RecoverSafe(src: seq<byte>, b: Inbound, batch: Batch)
    requires FaithfulBatch(src, batch) && Packable(batch) && |src| < U32
    requires Tracks(b, PackAll(batch)) && Recovered(b).Some?
    ensures IsChunk(src, Unpacked(Recovered(b).value))
  {
    var m := TracksRecovers(b, PackAll(batch));
    UnpackPacked(batch[m].0, batch[m].1);
  }

  lemma DataStepSafe(src: seq<byte>, s: State, m: Message)
    requires WellFormed(src, s) && LogOk(src, s.log) && ReceiverSafe(src, s.log, s.receiver)
    ensures ReceiverSafe(src, s.log, Next(src, s, ReceiveData(m)).receiver)
  {
    if m.DataMessage? && Receivable(s.log, m) {
      FaithfulPackable(src, s.log[m.batch - 1]);
      assert IsChunk(src, s.log[m.batch - 1][m.index]);
      SettleSafe(src, s.receiver, (m.pos, m.payload), true);
    }
  }

  lemma HeapUpdated(log: seq<Batch>, heap: seq<Held>, o: nat, b: Inbound)
    requires HeapOk(log, heap) && o < |heap| && Tracks(b, PackAll(log[heap[o].batch - 1]))
    ensures HeapOk(log, heap[o := Held(heap[o].batch, b)])
  {
  }

  lemma CombineStepSafe(src: seq<byte>, s: State, o: nat, m: Message)
    requires WellFormed(src, s) && ReceiverSafe(src, s.log, s.receiver)
    ensures ReceiverSafe(src, s.log, Next(src, s, Combine(o, m)).receiver)
  {
    var me := s.receiver;
    if Receivable(s.log, m) && o < |me.heap| && me.heap[o].batch == m.batch {
      CombineSafe(me.heap[o].inbound, s.log[m.batch - 1], m);
      HeapUpdated(s.log, me.heap, o, CombineInto(me.heap[o].inbound, m));
    }
  }

  lemma RecoveredMore(src: seq<byte>, recovered: seq<Packet>, p: Packet)
    requires RecoveredOk(src, recovered) && IsChunk(src, p)
    ensures RecoveredOk(src, recovered + [p])
  {
  }

  lemma RecoverStepSafe(src: seq<byte>, s: State, o: nat)
    requires |src| < U32 && WellFormed(src, s) && LogOk(src, s.log) && ReceiverSafe(src, s.log, s.receiver)
    ensures ReceiverSafe(src, s.log, Next(src, s, Recover(o)).receiver)
  {
    var me := s.receiver;
    if o < |me.heap| && Recovered(me.heap[o].inbound).Some? {
      var b := me.heap[o].inbound;
      RecoverSafe(src, b, s.log[me.heap[o].batch - 1]);
      RecoveredMore(src, me.recovered, Unpacked(Recovered(b).value));
    }
  }

  lemma LocalStepSafe(src: seq<byte>, s: State, step: Step)
    requires step.Look? || step.Unlist? || step.WriteRecovered? || step.LocalSeek? || step.SetComplete?
    requires WellFormed(src, s) && ReceiverSafe(src, s.log, s.receiver)
    ensures ReceiverSafe(src, s.log, Next(src, s, step).receiver)
  {
    match step
    case Look(m, now) =>
      if Receivable(s.log, m) {
        LookSafe(s.log, s.receiver, m, now);
      }
    case WriteRecovered(k) =>
      if k < |s.receiver.recovered| {
        SettleSafe(src, s.receiver, s.receiver.recovered[k], false);
      }
    case _ =>
  }

  lemma NextSafe(src: seq<byte>, s: State, step: Step)
    requires |src| < U32 && WellFormed(src, s) && Safe(src, s)
    ensures Safe(src, Next(src, s, step))
  {
    match step
    case SenderTurn(a) => SenderSafe(src, s, a);
    case ReceiveData(m) => DataStepSafe(src, s, m);
    case Combine(o, m) => CombineStepSafe(src, s, o, m);
    case Recover(o) => RecoverStepSafe(src, s, o);
    case _ => LocalStepSafe(src, s, step);
  }

  /**
   * Whatever the network and the schedule do within one stream: every filled
   * chunk of the receiver holds the sender's bytes, a declared Done means the
   * whole source has arrived (or the application settled for less and the head
   * is at the end), and the sender forgets no chunk.
   */
  lemma {:induction false} StreamIsSafe(src: seq<byte>, bytes: seq<byte>, steps: seq<Step>)
    requires |src| < U32 && |bytes| == |src|
    ensures Safe(src, Run(src, bytes, steps))
  {
    if steps == [] {
    } else {
      StreamIsSafe(src, bytes, steps[..|steps| - 1]);
      NextSafe(src, Run(src, bytes, steps[..|steps| - 1]), steps[|steps| - 1]);
    }
  }

  // ---------------------------------------------------------------- when Done is declared

  /** What the step writes to the buffer, if it is a write and the buffer takes it. */
  function AcceptedWrite(s: State, step: Step): Option<Rx>
    requires Shaped(s.receiver.rx)
  {
    var me := s.receiver;
    var packet :=
      match step
      case ReceiveData(m) => if m.DataMessage? && Receivable(s.log, m) then Some((m.pos, m.payload)) else None
      case WriteRecovered(k) => if k < |me.recovered| then Some(me.recovered[k]) else None
      case _ => None;
    if packet.None? || !me.streaming then None
    else match Written(me.rx, packet.value.0, packet.value.1)
      case Ok(rx) => Some(rx)
      case Err(_) => None
  }

  /**
   * A write that fills the last hole with the head at the end, or brings the
   * head to the end of a stream the application settled for, declares exactly
   * that buffer; a data packet then also ends the streaming. No other step
   * declares anything or ends the streaming, and only a seek while streaming moves the head.
   */
  lemma DeclarationExact(src: seq<byte>, s: State, step: Step)
    requires WellFormed(src, s)
    ensures
      var me, after := s.receiver, Next(src, s, step).receiver;
      match AcceptedWrite(s, step)
      case None =>
        && after.declared == me.declared && after.streaming == me.streaming
        && after.rx == (if step.LocalSeek? && me.streaming then Sought(me.rx, step.pos).0 else me.rx)
        && after.complete == if step.SetComplete? then Some(step.partialOk) else me.complete
      case Some(rx) =>
        && after.rx == rx && after.complete == me.complete
        && if rx.head >= |rx.bytes| && (AllFilled(rx.filled) || me.complete == Some(true)) then
             after.declared == me.declared + [Declaration(rx, me.complete)] && after.streaming == !step.ReceiveData?
           else
             after.declared == me.declared && after.streaming
  {
  }

  /** The head rests on a hole or at the end, and a finished buffer was declared. */
  ghost predicate Announced(r: Receiver) {
    && Shaped(r.rx)
    && (r.rx.head < |r.rx.bytes| ==> !r.rx.filled[r.rx.head / CHUNK])
    && (Done(r.rx) ==> |r.declared| > 0 && r.declared[|r.declared| - 1].rx == r.rx)
    && (!r.streaming ==> |r.declared| > 0)
  }

  lemma AcceptedRests(s: State, step: Step)
    requires Announced(s.receiver) && AcceptedWrite(s, step).Some?
    ensures var rx := AcceptedWrite(s, step).value; rx.head < |rx.bytes| ==> !rx.filled[rx.head / CHUNK]
  {
    var p := match step case ReceiveData(m) => (m.pos, m.payload) case WriteRecovered(k) => s.receiver.recovered[k];
    WriteMeaning(s.receiver.rx, p.0, p.1);
  }

  lemma NextAnnounces(src: seq<byte>, s: State, step: Step)
    requires WellFormed(src, s) && Announced(s.receiver)
    ensures Announced(Next(src, s, step).receiver)
  {
    DeclarationExact(src, s, step);
    if AcceptedWrite(s, step).Some? {
      AcceptedRests(s, step);
    } else if step.LocalSeek? {
      SeekMeaning(s.receiver.rx, step.pos);
    }
  }

  /**
   * In every run a buffer that is done has been declared, as the last
   * declaration; a buffer without a hole has its head at the end and so is done;
   * and the streaming never ends without a declaration.
   */
  lemma {:induction false} DoneIsDeclared(src: seq<byte>, bytes: seq<byte>, steps: seq<Step>)
    ensures Announced(Run(src, bytes, steps).receiver)
    ensures var r := Run(src, bytes, steps).receiver; AllFilled(r.rx.filled) ==> Done(r.rx) && |r.declared| > 0
  {
    if steps == [] {
      assert !Fresh(bytes).filled[0];
    } else {
      DoneIsDeclared(src, bytes, steps[..|steps| - 1]);
      NextAnnounces(src, Run(src, bytes, steps[..|steps| - 1]), steps[|steps| - 1]);
    }
  }

  /** A done buffer takes no further write. */
  lemma DoneTakesNothing(s: State, step: Step)
    requires Shaped(s.receiver.rx) && Done(s.receiver.rx)
    ensures AcceptedWrite(s, step).None?
  {
  }

  /** Nobody settled for less, and Done was declared once if the buffer is done and not otherwise. */
  ghost predicate Once(r: Receiver) {
    && Announced(r) && r.complete != Some(true)
    && |r.declared| == (if Done(r.rx) then 1 else 0)
    && (r.streaming || Done(r.rx))
  }

  lemma NextOnce(src: seq<byte>, s: State, step: Step)
    requires WellFormed(src, s) && Once(s.receiver) && step != SetComplete(true)
    ensures Once(Next(src, s, step).receiver)
  {
    NextAnnounces(src, s, step);
    DeclarationExact(src, s, step);
    if Done(s.receiver.rx) {
      DoneTakesNothing(s, step);
    }
    if step.LocalSeek? {
      SeekMeaning(s.receiver.rx, step.pos);
    }
  }

  /** While the application never settles for less, Done is declared once, and exactly when the buffer is done. */
  lemma {:induction false} DeclaredOnce(src: seq<byte>, bytes: seq<byte>, steps: seq<Step>)
    requires SetComplete(true) !in steps
    ensures Once(Run(src, bytes, steps).receiver)
  {
    if steps == [] {
      assert !Fresh(bytes).filled[0];
    } else {
      var init, last := steps[..|steps| - 1], steps[|steps| - 1];
      assert last in steps;
      DeclaredOnce(src, bytes, init);
      NextOnce(src, Run(src, bytes, init), last);
    }
  }

  // ---------------------------------------------------------------- batch ids

  /** The id the sender gives its latest batch is the number of that batch in the log. */
  ghost predicate Numbered(s: State) {
    s.sender.s.batches == |s.log| <= MAX_BATCHES
  }

  lemma SenderNumbers(src: seq<byte>, s: State, a: Action)
    requires WellFormed(src, s) && Numbered(s)
    ensures Numbered(SenderStep(src, s, a))
  {
    match a
    case Do(e) => EventCounts(src, s.sender.s, e);
    case TickDue => TickCounts(src, s.sender.s);
  }

  lemma NextNumbers(src: seq<byte>, s: State, step: Step)
    requires WellFormed(src, s) && Numbered(s)
    ensures Numbered(Next(src, s, step))
  {
    if step.SenderTurn? {
      SenderNumbers(src, s, step.action);
    }
  }

  /** The batch a tick sends is logged under the very id it goes out with. */
  lemma TickLogged(src: seq<byte>, s: State)
    requires WellFormed(src, s) && Numbered(s) && |s.log| < MAX_BATCHES
    requires s.sender.s.playing && Tick(src, s.sender.s).1 != []
    ensures
      var next := Next(src, s, SenderTurn(TickDue));
      && next.log == s.log + [Tick(src, s.sender.s).1]
      && next.sender.s.batches % U16 == |next.log|
  {
    TickCounts(src, s.sender.s);
  }

  /** Batches 1 to `n` carry different ids, and none carries zero. */
  ghost predicate DistinctIds(n: nat) {
    && (forall k :: 1 <= k <= n ==> WireId(k) != 0)
    && (forall j, k :: 1 <= j < k <= n ==> WireId(j) != WireId(k))
  }

  /** The id the `k`th batch goes out with, a u16. */
  function WireId(k: nat): nat { k % U16 }

  lemma IdsDistinct()
    ensures forall n: nat :: n <= MAX_BATCHES ==> DistinctIds(n)
  {
    forall k: nat | k <= MAX_BATCHES ensures WireId(k) == k {
    }
  }

  /**
   * In every run the sender's counter is the length of the log, and no two
   * batches of the run share an id on the wire.
   */
  lemma {:induction false} BatchIdsExact(src: seq<byte>, bytes: seq<byte>, steps: seq<Step>)
    ensures Numbered(Run(src, bytes, steps))
    ensures DistinctIds(|Run(src, bytes, steps).log|)
  {
    IdsDistinct();
    if steps == [] {
    } else {
      BatchIdsExact(src, bytes, steps[..|steps| - 1]);
      NextNumbers(src, Run(src, bytes, steps[..|steps| - 1]), steps[|steps| - 1]);
    }
  }

  /** A batch that left the table starts over with a new object on its next packet. */
  lemma RelistedFresh(src: seq<byte>, s: State, m: Message, now: nat)
    requires WellFormed(src, s) && Receivable(s.log, m)
    ensures
      var r := Next(src, Next(src, s, Unlist(m.batch)), Look(m, now)).receiver;
      && m.batch in r.table && r.table[m.batch] == |s.receiver.heap|
      && r.heap == s.receiver.heap + [Held(m.batch, NewInbound(m.size, now))]
      && (forall b :: b in s.receiver.table && b != m.batch ==> b in r.table && r.table[b] == s.receiver.table[b])
  {
  }

  /** The sender's record of what was sent is what the batches on the network carry. */
  ghost predicate RecordMatches(s: State) {
    forall i: nat :: i in s.sender.sent <==> exists k :: 0 <= k < |s.log| && i in ChunksOf(s.log[k])
  }

  lemma LoggedChunks(log: seq<Batch>, b: Batch, i: nat)
    ensures (exists k :: 0 <= k < |log + [b]| && i in ChunksOf((log + [b])[k])) <==>
            (exists k :: 0 <= k < |log| && i in ChunksOf(log[k])) || i in ChunksOf(b)
  {
    var all := log + [b];
    assert all[|log|] == b;
    if k :| 0 <= k < |log| && i in ChunksOf(log[k]) {
      assert all[k] == log[k];
    }
  }

  lemma SenderRecords(src: seq<byte>, s: State, a: Action)
    requires WellFormed(src, s) && RecordMatches(s)
    ensures RecordMatches(SenderStep(src, s, a))
  {
    if a.TickDue? && |s.log| < MAX_BATCHES && s.sender.s.playing {
      var b := Tick(src, s.sender.s).1;
      assert b == [] ==> ChunksOf(b) == {};
      forall i: nat
        ensures (exists k :: 0 <= k < |s.log + [b]| && i in ChunksOf((s.log + [b])[k])) <==>
                i in s.sender.sent || i in ChunksOf(b)
      {
        LoggedChunks(s.log, b, i);
      }
    }
  }

  lemma NextRecords(src: seq<byte>, s: State, step: Step)
    requires WellFormed(src, s) && RecordMatches(s)
    ensures RecordMatches(Next(src, s, step))
  {
    if step.SenderTurn? {
      SenderRecords(src, s, step.action);
    }
  }

  /** In every run a chunk counts as sent exactly when a batch on the network carries it. */
  lemma {:induction false} SentIsLogged(src: seq<byte>, bytes: seq<byte>, steps: seq<Step>)
    ensures RecordMatches(Run(src, bytes, steps))
  {
    if steps == [] {
    } else {
      SentIsLogged(src, bytes, steps[..|steps| - 1]);
      NextRecords(src, Run(src, bytes, steps[..|steps| - 1]), steps[|steps| - 1]);
    }
  }
}
