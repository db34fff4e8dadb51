/**
 * Bounded retransmission of packets that want an acknowledgement. The pending
 * map and the queue have separate locks, so adding, acknowledging and every
 * stage of the prune routine interleave; each step below is one critical section.
 */
module PendingAcks {
  import opened Common

  const MAX_RETRIES: nat := 5

  datatype Packet = Packet(session: nat, body: seq<byte>)

  datatype Entry = Entry(at: nat, fingerprint: nat, retries: nat)

  datatype Collected = Collected(retry: seq<Entry>, expired: seq<nat>, rest: seq<Entry>)

  /** Takes the ready entries off the front, sorting out those that had their last retry. */
  function Collect(queue: seq<Entry>, now: nat): Collected {
    if queue == [] || !Expired(queue[0].at, now, DISCARD_MS) then Collected([], [], queue)
    else
      var c := Collect(queue[1..], now);
      if queue[0].retries + 1 > MAX_RETRIES then c.(expired := [queue[0].fingerprint] + c.expired)
      else c.(retry := [Entry(now, queue[0].fingerprint, queue[0].retries + 1)] + c.retry)
  }

  /** Every entry is more than half a second old. */
  predicate Ready(es: seq<Entry>, now: nat) {
    forall k :: 0 <= k < |es| ==> now > es[k].at + DISCARD_MS
  }

  /** An entry after one more expiry, if it is to be sent again. */
  function Aged(e: Entry, now: nat): Entry { Entry(now, e.fingerprint, e.retries + 1) }

  /** `rest` is `queue` from its first entry on that is not ready, and those before it are all ready. */
  ghost predicate ReadyTaken(queue: seq<Entry>, rest: seq<Entry>, now: nat) {
    && |rest| <= |queue| && rest == queue[|queue| - |rest|..]
    && Ready(queue[..|queue| - |rest|], now)
    && (rest != [] ==> now <= rest[0].at + DISCARD_MS)
  }

  lemma ReadyTakenCons(queue: seq<Entry>, rest: seq<Entry>, now: nat)
    requires queue != [] && ReadyTaken(queue[1..], rest, now) && now > queue[0].at + DISCARD_MS
    ensures ReadyTaken(queue, rest, now)
  {
    var n := |queue| - 1 - |rest|;
    assert queue[n + 1..] == queue[1..][n..];
    assert queue[..n + 1] == [queue[0]] + queue[1..][..n];
  }

  /** Collecting takes exactly the ready entries at the front. */
  lemma {:induction false} CollectExact(queue: seq<Entry>, now: nat)
    ensures ReadyTaken(queue, Collect(queue, now).rest, now)
  {
    if queue == [] || now <= queue[0].at + DISCARD_MS {
      assert Collect(queue, now) == Collected([], [], queue);
    } else {
      var rest := Collect(queue[1..], now).rest;
      CollectExact(queue[1..], now);
      assert Collect(queue, now).rest == rest;
      ReadyTakenCons(queue, rest, now);
    }
  }

  /** `e` is an entry of `taken` with a retry to spare, after that retry. */
  ghost predicate SentAgain(taken: seq<Entry>, now: nat, e: Entry) {
    exists k :: 0 <= k < |taken| && taken[k].retries < MAX_RETRIES && e == Aged(taken[k], now)
  }

  /** `f` is the fingerprint of an entry of `taken` that has had its last retry. */
  ghost predicate GivenUp(taken: seq<Entry>, f: nat) {
    exists k :: 0 <= k < |taken| && taken[k].retries >= MAX_RETRIES && f == taken[k].fingerprint
  }

  lemma SentAgainCons(first: Entry, later: seq<Entry>, now: nat, e: Entry)
    ensures SentAgain([first] + later, now, e) <==>
            (first.retries < MAX_RETRIES && e == Aged(first, now)) || SentAgain(later, now, e)
  {
    var all := [first] + later;
    assert all[0] == first && forall k :: 0 <= k < |later| ==> all[k + 1] == later[k];
    if SentAgain(all, now, e) {
      var k :| 0 <= k < |all| && all[k].retries < MAX_RETRIES && e == Aged(all[k], now);
      assert k > 0 ==> all[k] == later[k - 1];
    }
  }

  lemma GivenUpCons(first: Entry, later: seq<Entry>, f: nat)
    ensures GivenUp([first] + later, f) <==>
            (first.retries >= MAX_RETRIES && f == first.fingerprint) || GivenUp(later, f)
  {
    var all := [first] + later;
    assert all[0] == first && forall k :: 0 <= k < |later| ==> all[k + 1] == later[k];
    if GivenUp(all, f) {
      var k :| 0 <= k < |all| && all[k].retries >= MAX_RETRIES && f == all[k].fingerprint;
      assert k > 0 ==> all[k] == later[k - 1];
    }
  }

  /** Of the entries taken, those with a retry to spare are sent again and the others given up. */
  lemma {:induction false} CollectSorts(queue: seq<Entry>, now: nat, e: Entry, f: nat)
    ensures |Collect(queue, now).rest| <= |queue|
    ensures
      var c := Collect(queue, now);
      var taken := queue[..|queue| - |c.rest|];
      (e in c.retry <==> SentAgain(taken, now, e)) && (f in c.expired <==> GivenUp(taken, f))
  {
    if queue == [] || now <= queue[0].at + DISCARD_MS {
      assert Collect(queue, now) == Collected([], [], queue);
    } else {
      CollectSorts(queue[1..], now, e, f);
      var n := |queue| - 1 - |Collect(queue[1..], now).rest|;
      assert queue[..n + 1] == [queue[0]] + queue[1..][..n];
      SentAgainCons(queue[0], queue[1..][..n], now, e);
      GivenUpCons(queue[0], queue[1..][..n], f);
    }
  }

  // ---------------------------------------------------------------- the object

  class PendingAckWindow {
    var pending: map<nat, Packet>
    var queue: seq<Entry>

    constructor ()
      ensures pending == map[] && queue == []
    {
      pending, queue := map[], [];
    }

    /** First half of an add; the entry carries the time it was made, not the time it is queued. */
    method InsertPending(fingerprint: nat, packet: Packet, now: nat) returns (entry: Entry)
      modifies this`pending
      ensures pending == old(pending)[fingerprint := packet] && entry == Entry(now, fingerprint, 0)
    {
      entry := Entry(now, fingerprint, 0);
      pending := pending[fingerprint := packet];
    }

    method PushBack(entry: Entry)
      modifies this`queue
      ensures queue == old(queue) + [entry]
    {
      queue := queue + [entry];
    }

    method Acknowledge(fingerprint: nat)
      modifies this`pending
      ensures pending == old(pending) - {fingerprint}
    {
      pending := pending - {fingerprint};
    }

    method CollectReady(now: nat) returns (toRetry: seq<Entry>, expired: seq<nat>)
      modifies this`queue
      ensures Collected(toRetry, expired, queue) == Collect(old(queue), now)
      ensures ReadyTaken(old(queue), queue, now)
    {
      toRetry, expired := [], [];
      while queue != [] && Expired(queue[0].at, now, DISCARD_MS)
        invariant
          var all, left := Collect(old(queue), now), Collect(queue, now);
          all.retry == toRetry + left.retry && all.expired == expired + left.expired && all.rest == left.rest
        decreases |queue|
      {
        var value := queue[0];
        queue := queue[1..];
        value := value.(retries := value.retries + 1);
        if value.retries > MAX_RETRIES {
          expired := expired + [value.fingerprint];
        } else {
          toRetry := toRetry + [value.(at := now)];
        }
      }
      CollectExact(old(queue), now);
    }

    /** The packet to send again, if nobody acknowledged it. */
    method Lookup(entry: Entry) returns (packet: Option<Packet>)
      ensures packet == if entry.fingerprint in pending then Some(pending[entry.fingerprint]) else None
    {
      packet := if entry.fingerprint in pending then Some(pending[entry.fingerprint]) else None;
    }

    method RemoveExpired(expired: seq<nat>)
      modifies this`pending
      ensures pending == old(pending) - Elements(expired)
    {
      for k := 0 to |expired|
        invariant pending == old(pending) - Elements(expired[..k])
      {
        assert expired[..k + 1] == expired[..k] + [expired[k]];
        pending := pending - {expired[k]};
      }
      assert expired[..|expired|] == expired;
    }
  }

  // ---------------------------------------------------------------- interleavings

  /**
   * `Collecting`, `LookUp`, `Resend` and `Forget` are the prune routine's own
   * stages; `established` is what the session table answers at that moment.
   */
  datatype Step =
    | Add(fingerprint: nat, packet: Packet, now: nat)
    | Enqueue(task: nat)
    | Acknowledged(fingerprint: nat)
    | Collecting(now: nat)
    | LookUp
    | Resend(established: bool)
    | Forget

  /** `adding` holds the entries of adds between their two halves, `held` the retry in progress. */
  datatype State = State(
    pending: map<nat, Packet>, adding: seq<Entry>, queue: seq<Entry>,
    retry: seq<Entry>, held: seq<Entry>, expired: seq<nat>)

  const EMPTY: State := State(map[], [], [], [], [], [])

  function Next(s: State, step: Step): State {
    match step
    case Add(f, p, now) => s.(pending := s.pending[f := p], adding := s.adding + [Entry(now, f, 0)])
    case Enqueue(i) =>
      if i >= |s.adding| then s
      else s.(adding := s.adding[..i] + s.adding[i + 1..], queue := s.queue + [s.adding[i]])
    case Acknowledged(f) => s.(pending := s.pending - {f})
    case Collecting(now) =>
      if s.retry != [] || s.held != [] || s.expired != [] then s
      else
        var c := Collect(s.queue, now);
        s.(queue := c.rest, retry := c.retry, expired := c.expired)
    case LookUp =>
      if s.retry == [] || s.held != [] then s
      else s.(retry := s.retry[1..], held := if s.retry[0].fingerprint in s.pending then s.retry[..1] else [])
    case Resend(established) =>
      s.(held := [], queue := if established then s.queue + s.held else s.queue)
    case Forget =>
      if s.retry != [] || s.held != [] then s
      else s.(pending := s.pending - Elements(s.expired), expired := [])
  }

  function Run(steps: seq<Step>): State {
    if steps == [] then EMPTY else Next(Run(steps[..|steps| - 1]), steps[|steps| - 1])
  }

  function Count(es: seq<Entry>, f: nat): nat {
    if es == [] then 0 else (if es[0].fingerprint == f then 1 else 0) + Count(es[1..], f)
  }

  function CountPrints(fs: seq<nat>, f: nat): nat {
    if fs == [] then 0 else (if fs[0] == f then 1 else 0) + CountPrints(fs[1..], f)
  }

  /** How many times `f` is being followed, counting the stages of the prune routine. */
  function Tracked(s: State, f: nat): nat {
    Count(s.adding, f) + Count(s.queue, f) + Count(s.retry, f) + Count(s.held, f) + CountPrints(s.expired, f)
  }

  /** How many entries of `f` a collection takes off the queue. */
  function Taken(queue: seq<Entry>, now: nat, f: nat): nat {
    var c := Collect(queue, now);
    Count(c.retry, f) + CountPrints(c.expired, f)
  }

  /** What has happened to `f` since it was last added; `stamps` are the times of that add and of each expiry. */
  datatype History = History(
    added: bool, sends: nat, expiries: nat, stamps: seq<nat>, acked: bool, dropped: bool)

  const NEVER: History := History(false, 0, 0, [], false, false)

  function Note(h: History, s: State, step: Step, f: nat): History {
    match step
    case Add(g, p, now) => if g == f then History(true, 0, 0, [now], false, false) else h
    case Enqueue(i) => h
    case Acknowledged(g) => if g == f && h.added then h.(acked := true) else h
    case Collecting(now) =>
      if s.retry != [] || s.held != [] || s.expired != [] then h
      else
        var taken := Taken(s.queue, now, f);
        h.(expiries := h.expiries + taken, stamps := if taken > 0 then h.stamps + [now] else h.stamps)
    case LookUp => h
    case Resend(established) =>
      if Count(s.held, f) == 0 then h else if established then h.(sends := h.sends + 1) else h.(dropped := true)
    case Forget => h
  }

  function Story(steps: seq<Step>, f: nat): History {
    if steps == [] then NEVER
    else Note(Story(steps[..|steps| - 1], f), Run(steps[..|steps| - 1]), steps[|steps| - 1], f)
  }

  /** No add of `f` while an earlier add of it is still followed. */
  ghost predicate AddedApart(steps: seq<Step>, f: nat) {
    forall k :: 0 <= k < |steps| && steps[k].Add? && steps[k].fingerprint == f ==> Tracked(Run(steps[..k]), f) == 0
  }

  lemma {:induction false} CountConcat(a: seq<Entry>, b: seq<Entry>, f: nat)
    ensures Count(a + b, f) == Count(a, f) + Count(b, f)
  {
    if a == [] {
      assert a + b == b;
    } else {
      CountConcat(a[1..], b, f);
      assert (a + b)[1..] == a[1..] + b;
    }
  }

  lemma {:induction false} CountIn(es: seq<Entry>, f: nat)
    ensures Count(es, f) > 0 <==> exists e :: e in es && e.fingerprint == f
  {
    if es == [] {
    } else {
      CountIn(es[1..], f);
    }
  }

  lemma {:induction false} CountPrintsIn(fs: seq<nat>, f: nat)
    ensures CountPrints(fs, f) > 0 <==> f in fs
  {
    if fs == [] {
    } else {
      CountPrintsIn(fs[1..], f);
    }
  }

  /** Every entry of `f` has been retried `n` times. */
  ghost predicate Retried(es: seq<Entry>, f: nat, n: int) {
    forall e :: e in es && e.fingerprint == f ==> e.retries == n <= MAX_RETRIES
  }

  /** Every entry of `f` dates from `at`. */
  ghost predicate Stamped(es: seq<Entry>, f: nat, at: nat) {
    forall e :: e in es && e.fingerprint == f ==> e.at == at
  }

  /** Each time lies more than half a second after the one before. */
  ghost predicate Spaced(stamps: seq<nat>) {
    forall k :: 0 < k < |stamps| ==> stamps[k] > stamps[k - 1] + DISCARD_MS
  }

  /** Collecting takes an entry only once it is old enough. */
  lemma {:induction false} CollectWaits(queue: seq<Entry>, now: nat, f: nat, at: nat)
    requires Stamped(queue, f, at)
    ensures
      var c := Collect(queue, now);
      && Stamped(c.rest, f, at) && Stamped(c.retry, f, now)
      && (Count(c.retry, f) + CountPrints(c.expired, f) > 0 ==> now > at + DISCARD_MS)
  {
    if queue != [] && Expired(queue[0].at, now, DISCARD_MS) {
      CollectWaits(queue[1..], now, f, at);
    }
  }

  /** Collecting loses no entry; the ones it takes have one retry more, or had them all. */
  lemma {:induction false} CollectKeeps(queue: seq<Entry>, now: nat, f: nat, n: nat)
    requires Retried(queue, f, n)
    ensures
      var c := Collect(queue, now);
      && Count(c.retry, f) + CountPrints(c.expired, f) + Count(c.rest, f) == Count(queue, f)
      && Retried(c.rest, f, n) && Retried(c.retry, f, n + 1)
      && (CountPrints(c.expired, f) > 0 ==> n == MAX_RETRIES)
      && (forall e :: e in c.retry ==> e.at == now)
      && (c.rest != [] ==> !Expired(c.rest[0].at, now, DISCARD_MS))
  {
    if queue != [] && Expired(queue[0].at, now, DISCARD_MS) {
      CollectKeeps(queue[1..], now, f, n);
    }
  }

  /** Where one fingerprint stands: followed at most once, and its retry count is right everywhere. */
  ghost predicate Inv(s: State, h: History, f: nat) {
    && Tracked(s, f) <= 1
    && |s.held| <= 1
    && (!h.added ==> Tracked(s, f) == 0 && f !in s.pending && h == NEVER)
    && (Tracked(s, f) == 1 && CountPrints(s.expired, f) == 0 ==> h.expiries <= MAX_RETRIES)
    && Retried(s.adding, f, 0) && (Count(s.adding, f) > 0 ==> h.sends == h.expiries == 0)
    && Retried(s.queue, f, h.sends) && (Count(s.queue, f) > 0 ==> h.expiries == h.sends)
    && Retried(s.retry, f, h.sends + 1) && Retried(s.held, f, h.sends + 1)
    && (Count(s.retry, f) + Count(s.held, f) > 0 ==> h.expiries == h.sends + 1)
    && (CountPrints(s.expired, f) > 0 ==> h.sends == MAX_RETRIES && h.expiries == MAX_RETRIES + 1)
    && h.sends <= MAX_RETRIES
    && (h.dropped ==> Tracked(s, f) == 0)
    && (h.added && Tracked(s, f) == 0 && !h.dropped && !h.acked ==>
      h.sends == MAX_RETRIES && h.expiries == MAX_RETRIES + 1)
    && (f in s.pending <==> h.added && !h.acked && (Tracked(s, f) == 1 || h.dropped))
  }

  lemma Counted(s: State, f: nat)
    ensures Count(s.adding, f) > 0 <==> exists e :: e in s.adding && e.fingerprint == f
    ensures Count(s.queue, f) > 0 <==> exists e :: e in s.queue && e.fingerprint == f
    ensures Count(s.retry, f) > 0 <==> exists e :: e in s.retry && e.fingerprint == f
    ensures Count(s.held, f) > 0 <==> exists e :: e in s.held && e.fingerprint == f
    ensures CountPrints(s.expired, f) > 0 <==> f in s.expired
  {
    CountIn(s.adding, f);
    CountIn(s.queue, f);
    CountIn(s.retry, f);
    CountIn(s.held, f);
    CountPrintsIn(s.expired, f);
  }

  lemma AddKeeps(s: State, h: History, f: nat, g: nat, p: Packet, now: nat)
    requires Inv(s, h, f) && (g == f ==> Tracked(s, f) == 0)
    ensures Inv(Next(s, Add(g, p, now)), Note(h, s, Add(g, p, now), f), f)
  {
    Counted(s, f);
    CountConcat(s.adding, [Entry(now, g, 0)], f);
    assert Count([Entry(now, g, 0)], f) == if g == f then 1 else 0;
  }

  lemma EnqueueKeeps(s: State, h: History, f: nat, i: nat)
    requires Inv(s, h, f)
    ensures Inv(Next(s, Enqueue(i)), Note(h, s, Enqueue(i), f), f)
  {
    if i < |s.adding| {
      var e := s.adding[i];
      var r := Next(s, Enqueue(i));
      assert s.adding == s.adding[..i] + ([e] + s.adding[i + 1..]);
      CountConcat(s.adding[..i], [e] + s.adding[i + 1..], f);
      CountConcat([e], s.adding[i + 1..], f);
      CountConcat(s.adding[..i], s.adding[i + 1..], f);
      CountConcat(s.queue, [e], f);
      assert Count([e], f) == if e.fingerprint == f then 1 else 0;
      Counted(s, f);
      Counted(r, f);
    }
  }

  lemma CollectingKeeps(s: State, h: History, f: nat, now: nat)
    requires Inv(s, h, f)
    ensures Inv(Next(s, Collecting(now)), Note(h, s, Collecting(now), f), f)
  {
    if s.retry == [] && s.held == [] && s.expired == [] {
      Counted(s, f);
      CollectKeeps(s.queue, now, f, h.sends);
      Counted(Next(s, Collecting(now)), f);
    }
  }

  lemma LookUpKeeps(s: State, h: History, f: nat)
    requires Inv(s, h, f)
    ensures Inv(Next(s, LookUp), Note(h, s, LookUp, f), f)
  {
    if s.retry != [] && s.held == [] {
      var e := s.retry[0];
      assert s.retry == [e] + s.retry[1..] && s.retry[..1] == [e];
      CountConcat([e], s.retry[1..], f);
      assert Count([e], f) == if e.fingerprint == f then 1 else 0;
      Counted(s, f);
      Counted(Next(s, LookUp), f);
    }
  }

  lemma ResendKeeps(s: State, h: History, f: nat, established: bool)
    requires Inv(s, h, f)
    ensures Inv(Next(s, Resend(established)), Note(h, s, Resend(established), f), f)
  {
    CountConcat(s.queue, s.held, f);
    Counted(s, f);
    Counted(Next(s, Resend(established)), f);
  }

  lemma ForgetKeeps(s: State, h: History, f: nat)
    requires Inv(s, h, f)
    ensures Inv(Next(s, Forget), Note(h, s, Forget, f), f)
  {
    Counted(s, f);
    Counted(Next(s, Forget), f);
  }

  lemma AddedApartInit(steps: seq<Step>, f: nat)
    requires AddedApart(steps, f) && steps != []
    ensures
      var last := steps[|steps| - 1];
      && AddedApart(steps[..|steps| - 1], f)
      && (last.Add? && last.fingerprint == f ==> Tracked(Run(steps[..|steps| - 1]), f) == 0)
  {
    var init := steps[..|steps| - 1];
    forall k | 0 <= k < |init| && init[k].Add? && init[k].fingerprint == f ensures Tracked(Run(init[..k]), f) == 0 {
      assert init[..k] == steps[..k] && steps[k] == init[k];
    }
  }

  /** The times kept are apart, and the entry of `f` dates from the last of them. */
  ghost predicate Timed(s: State, h: History, f: nat) {
    && (h.added ==> |h.stamps| == h.expiries + 1)
    && Spaced(h.stamps)
    && (h.stamps != [] ==>
          var last := h.stamps[|h.stamps| - 1];
          Stamped(s.adding + s.queue + s.retry + s.held, f, last))
  }

  lemma NoneStamped(es: seq<Entry>, f: nat, at: nat)
    requires Count(es, f) == 0
    ensures Stamped(es, f, at)
  {
    CountIn(es, f);
  }

  /** Collecting either leaves the one entry of `f` alone, or takes it, late enough. */
  lemma TakenOrLeft(queue: seq<Entry>, now: nat, f: nat, at: nat, n: nat)
    requires Retried(queue, f, n) && Stamped(queue, f, at) && Count(queue, f) <= 1
    ensures
      var c, taken := Collect(queue, now), Taken(queue, now, f);
      && taken <= Count(queue, f) && (taken == 1 ==> now > at + DISCARD_MS)
      && Stamped(c.rest, f, if taken == 1 then now else at) && Stamped(c.retry, f, if taken == 1 then now else at)
  {
    var c := Collect(queue, now);
    CollectKeeps(queue, now, f, n);
    CollectWaits(queue, now, f, at);
    if Taken(queue, now, f) == 1 {
      NoneStamped(c.rest, f, now);
    } else {
      NoneStamped(c.retry, f, at);
    }
  }

  lemma SpacedMore(stamps: seq<nat>, now: nat)
    requires stamps != [] && Spaced(stamps) && now > stamps[|stamps| - 1] + DISCARD_MS
    ensures Spaced(stamps + [now]) && (stamps + [now])[|stamps + [now]| - 1] == now
  {
  }

  lemma StampedParts(s: State, f: nat, at: nat)
    ensures Stamped(s.adding + s.queue + s.retry + s.held, f, at) <==>
            && Stamped(s.adding, f, at) && Stamped(s.queue, f, at)
            && Stamped(s.retry, f, at) && Stamped(s.held, f, at)
  {
  }

  lemma CollectingTimes(s: State, h: History, f: nat, now: nat)
    requires Timed(s, h, f) && Retried(s.queue, f, h.sends)
    requires Tracked(s, f) <= 1 && (!h.added ==> Tracked(s, f) == 0 && h.stamps == [])
    ensures Timed(Next(s, Collecting(now)), Note(h, s, Collecting(now), f), f)
  {
    if s.retry == [] && s.held == [] && s.expired == [] {
      if h.added {
        OneCollected(s, h.stamps, f, now, h.sends);
      } else {
        NoneCollected(s.queue, now, f, h.sends);
      }
    }
  }

  lemma NoneCollected(queue: seq<Entry>, now: nat, f: nat, n: nat)
    requires Retried(queue, f, n) && Count(queue, f) == 0
    ensures Taken(queue, now, f) == 0
  {
    CollectKeeps(queue, now, f, n);
  }

  lemma OneCollected(s: State, stamps: seq<nat>, f: nat, now: nat, n: nat)
    requires s.retry == [] && s.held == [] && s.expired == [] && Tracked(s, f) <= 1 && Retried(s.queue, f, n)
    requires stamps != [] && Spaced(stamps)
    requires Stamped(s.adding + s.queue + s.retry + s.held, f, stamps[|stamps| - 1])
    ensures
      var r := Next(s, Collecting(now));
      var after := if Taken(s.queue, now, f) > 0 then stamps + [now] else stamps;
      && Taken(s.queue, now, f) <= 1 && Spaced(after)
      && Stamped(r.adding + r.queue + r.retry + r.held, f, after[|after| - 1])
  {
    var r := Next(s, Collecting(now));
    var at := stamps[|stamps| - 1];
    StampedParts(s, f, at);
    TakenOrLeft(s.queue, now, f, at, n);
    if Taken(s.queue, now, f) > 0 {
      SpacedMore(stamps, now);
      NoneStamped(s.adding, f, now);
      StampedParts(r, f, now);
    } else {
      StampedParts(r, f, at);
    }
  }

  lemma AddTimes(s: State, h: History, f: nat, g: nat, p: Packet, now: nat)
    requires Inv(s, h, f) && Timed(s, h, f) && (g == f ==> Tracked(s, f) == 0)
    ensures Timed(Next(s, Add(g, p, now)), Note(h, s, Add(g, p, now), f), f)
  {
    if g == f {
      NoneStamped(s.adding, f, now);
      NoneStamped(s.queue, f, now);
      NoneStamped(s.retry, f, now);
      NoneStamped(s.held, f, now);
    }
  }

  /** The other steps only move entries about. */
  lemma MoveTimes(s: State, h: History, f: nat, step: Step)
    requires Timed(s, h, f) && !step.Add? && !step.Collecting?
    ensures Timed(Next(s, step), Note(h, s, step, f), f)
  {
    var r, after := Next(s, step), Note(h, s, step, f);
    assert after.stamps == h.stamps && after.added == h.added && after.expiries == h.expiries;
    forall e | e in r.adding + r.queue + r.retry + r.held ensures e in s.adding + s.queue + s.retry + s.held {
    }
  }

  lemma StepTimes(s: State, h: History, f: nat, step: Step)
    requires Inv(s, h, f) && Timed(s, h, f) && (step.Add? && step.fingerprint == f ==> Tracked(s, f) == 0)
    ensures Timed(Next(s, step), Note(h, s, step, f), f)
  {
    match step
    case Add(g, p, now) => AddTimes(s, h, f, g, p, now);
    case Collecting(now) => CollectingTimes(s, h, f, now);
    case _ => MoveTimes(s, h, f, step);
  }

  lemma {:induction false} Follows(steps: seq<Step>, f: nat)
    requires AddedApart(steps, f)
    ensures Inv(Run(steps), Story(steps, f), f)
  {
    if steps == [] {
    } else {
      var init, last := steps[..|steps| - 1], steps[|steps| - 1];
      AddedApartInit(steps, f);
      Follows(init, f);
      var s, h := Run(init), Story(init, f);
      match last
      case Add(g, p, now) => AddKeeps(s, h, f, g, p, now);
      case Enqueue(i) => EnqueueKeeps(s, h, f, i);
      case Acknowledged(g) =>
      case Collecting(now) => CollectingKeeps(s, h, f, now);
      case LookUp => LookUpKeeps(s, h, f);
      case Resend(established) => ResendKeeps(s, h, f, established);
      case Forget => ForgetKeeps(s, h, f);
    }
  }

  lemma {:induction false} FollowsTimes(steps: seq<Step>, f: nat)
    requires AddedApart(steps, f)
    ensures Timed(Run(steps), Story(steps, f), f)
  {
    if steps == [] {
    } else {
      var init, last := steps[..|steps| - 1], steps[|steps| - 1];
      AddedApartInit(steps, f);
      Follows(init, f);
      FollowsTimes(init, f);
      StepTimes(Run(init), Story(init, f), f, last);
    }
  }

  /**
   * In every run a packet is sent again at most five times. While its session
   * stays established and nobody acknowledges it, it is in the pending map and
   * followed until its sixth expiry, after which it is in neither.
   */
  lemma RetriesBounded(steps: seq<Step>, f: nat)
    requires AddedApart(steps, f)
    ensures Story(steps, f).sends <= MAX_RETRIES
    ensures
      var s, h := Run(steps), Story(steps, f);
      h.added && !h.acked && !h.dropped ==>
        && (Tracked(s, f) == 1 <==> f in s.pending)
        && (Tracked(s, f) == 0 ==> h.expiries == 6 && h.sends == 5)
        && (Tracked(s, f) == 1 ==> h.expiries <= 5 || (h.expiries == 6 && f in s.expired))
  {
    Follows(steps, f);
    CountPrintsIn(Run(steps).expired, f);
  }

  lemma {:induction false} SpacedSum(stamps: seq<nat>, k: nat)
    requires Spaced(stamps) && k < |stamps|
    ensures stamps[k] >= stamps[0] + k * (DISCARD_MS + 1)
  {
    if k == 0 {
    } else {
      SpacedSum(stamps, k - 1);
    }
  }

  /**
   * In every run, whatever the clock readings, two expiries of one packet are
   * more than 500 ms apart, the first more than 500 ms after the add. So the
   * packet is given up no sooner than six such waits after it was added.
   */
  lemma ExpiriesSpaced(steps: seq<Step>, f: nat)
    requires AddedApart(steps, f)
    ensures
      var s, h := Run(steps), Story(steps, f);
      && (h.added ==> |h.stamps| == h.expiries + 1)
      && (forall k :: 0 < k < |h.stamps| ==> h.stamps[k] > h.stamps[k - 1] + 500)
      && (f in s.expired || (h.added && !h.acked && !h.dropped && f !in s.pending) ==>
            h.expiries == 6 && |h.stamps| == 7 && h.stamps[6] > h.stamps[0] + 3000)
  {
    Follows(steps, f);
    FollowsTimes(steps, f);
    CountPrintsIn(Run(steps).expired, f);
    var h := Story(steps, f);
    if h.expiries == 6 && h.added {
      SpacedSum(h.stamps, 6);
    }
  }

  /**
   * A packet stays in the pending map with nothing left to send or remove it
   * exactly when a retry found its session not established and no
   * acknowledgement has come since it was added.
   */
  lemma LeaksExactlyWhenDropped(steps: seq<Step>, f: nat)
    requires AddedApart(steps, f)
    ensures
      var s, h := Run(steps), Story(steps, f);
      f in s.pending && Tracked(s, f) == 0 <==> h.dropped && !h.acked
  {
    Follows(steps, f);
  }

  // ---------------------------------------------------------------- a pass that nothing interrupts

  /** The entries whose packet nobody has acknowledged. */
  function Unanswered(es: seq<Entry>, pending: map<nat, Packet>): seq<Entry> {
    if es == [] then []
    else (if es[0].fingerprint in pending then [es[0]] else []) + Unanswered(es[1..], pending)
  }

  /** `n` retries in a row, each looked up and sent to an established session. */
  function Serve(s: State, n: nat): State
    decreases n
  {
    if n == 0 then s else Serve(Next(Next(s, LookUp), Resend(true)), n - 1)
  }

  lemma ServeOne(s: State)
    requires s.held == [] && s.retry != []
    ensures Next(Next(s, LookUp), Resend(true)) ==
            s.(retry := s.retry[1..], queue := s.queue + Unanswered(s.retry[..1], s.pending))
  {
    var first := s.retry[..1];
    assert first[0] == s.retry[0] && first[1..] == [] && Unanswered([], s.pending) == [];
    assert Unanswered(first, s.pending) == if s.retry[0].fingerprint in s.pending then first else [];
    assert s.queue + [] == s.queue;
  }

  lemma UnansweredAfter(queue: seq<Entry>, es: seq<Entry>, pending: map<nat, Packet>)
    requires es != []
    ensures queue + Unanswered(es[..1], pending) + Unanswered(es[1..], pending) == queue + Unanswered(es, pending)
  {
    var first := es[..1];
    assert first[0] == es[0] && first[1..] == [] && Unanswered([], pending) == [];
    assert Unanswered(es, pending) == Unanswered(first, pending) + Unanswered(es[1..], pending);
  }

  lemma {:induction false} ServeAll(s: State)
    requires s.held == []
    ensures Serve(s, |s.retry|) == s.(retry := [], queue := s.queue + Unanswered(s.retry, s.pending))
    decreases |s.retry|
  {
    if s.retry == [] {
      assert s.queue + [] == s.queue;
    } else {
      var next := Next(Next(s, LookUp), Resend(true));
      ServeOne(s);
      ServeAll(next);
      UnansweredAfter(s.queue, s.retry, s.pending);
    }
  }

  /**
   * An uninterrupted pass over established sessions puts every ready packet that
   * is not acknowledged and has a retry to spare back in the queue with its new
   * age, forgets those that had their last one, and leaves the rest as it was.
   */
  lemma PassExact(s: State, now: nat)
    requires s.retry == [] && s.held == [] && s.expired == []
    ensures
      var c := Collect(s.queue, now);
      Next(Serve(Next(s, Collecting(now)), |c.retry|), Forget) ==
        s.(queue := c.rest + Unanswered(c.retry, s.pending), pending := s.pending - Elements(c.expired))
  {
    ServeAll(Next(s, Collecting(now)));
  }

  /** An add whose halves follow each other ends up in the map and at the back of the queue. */
  lemma AddQueues(s: State, f: nat, p: Packet, now: nat)
    ensures Next(Next(s, Add(f, p, now)), Enqueue(|s.adding|)) ==
            s.(pending := s.pending[f := p], queue := s.queue + [Entry(now, f, 0)])
  {
    var mid := Next(s, Add(f, p, now));
    assert mid.adding[..|s.adding|] + mid.adding[|s.adding| + 1..] == s.adding;
  }

  // ---------------------------------------------------------------- the leak

  /** An add whose only retry comes while the session is not established. */
  function LeakingRun(f: nat, packet: Packet): seq<Step> {
    [Add(f, packet, 0), Enqueue(0), Collecting(DISCARD_MS + 1), LookUp, Resend(false), Forget]
  }

  lemma LeakHappens(f: nat, packet: Packet)
    ensures
      var steps := LeakingRun(f, packet);
      AddedApart(steps, f) && Run(steps) == EMPTY.(pending := map[f := packet]) && Story(steps, f).dropped
  {
    var steps := LeakingRun(f, packet);
    LeakRuns(f, packet, |steps|);
    assert steps[..|steps|] == steps;
    assert steps[..0] == [] && Tracked(EMPTY, f) == 0;
    LeaksExactlyWhenDropped(steps, f);
  }

  /** The stages that run goes through. */
  function LeakStage(f: nat, packet: Packet, k: nat): State {
    var leaked := EMPTY.(pending := map[f := packet]);
    var entry, again := Entry(0, f, 0), Entry(DISCARD_MS + 1, f, 1);
    if k == 0 then EMPTY
    else if k == 1 then leaked.(adding := [entry])
    else if k == 2 then leaked.(queue := [entry])
    else if k == 3 then leaked.(retry := [again])
    else if k == 4 then leaked.(held := [again])
    else leaked
  }

  lemma LeakNext(f: nat, packet: Packet, k: nat)
    requires k < |LeakingRun(f, packet)|
    ensures Next(LeakStage(f, packet, k), LeakingRun(f, packet)[k]) == LeakStage(f, packet, k + 1)
  {
    var entry, again := Entry(0, f, 0), Entry(DISCARD_MS + 1, f, 1);
    if k == 1 {
      assert [] + [entry] == [entry] && [entry][..0] + [entry][1..] == [];
    } else if k == 2 {
      assert [entry][1..] == [] && [again] + [] == [again];
      assert Collect([], DISCARD_MS + 1) == Collected([], [], []);
      assert Collect([entry], DISCARD_MS + 1) == Collected([again], [], []);
    } else if k == 3 {
      assert [again][1..] == [] && [again][..1] == [again];
    }
  }

  lemma {:induction false} LeakRuns(f: nat, packet: Packet, k: nat)
    requires k <= |LeakingRun(f, packet)|
    ensures Run(LeakingRun(f, packet)[..k]) == LeakStage(f, packet, k)
  {
    var steps := LeakingRun(f, packet)[..k];
    if k == 0 {
      assert steps == [];
    } else {
      LeakRuns(f, packet, k - 1);
      LeakNext(f, packet, k - 1);
      assert steps[..k - 1] == LeakingRun(f, packet)[..k - 1];
    }
  }
}
