/**
 * Packet deduplication. An insertion and the push of its timestamp are two
 * critical sections, and so are the prune routine's pop and its removal; the
 * run system below interleaves all four freely.
 */
module Fingerprints {
  import opened Common

  datatype Stamped = Stamped(at: nat, fingerprint: nat)

  // ---------------------------------------------------------------- the object

  /** Length of the longest prefix of expired entries. */
  function ExpiredPrefix(queue: seq<Stamped>, now: nat): (n: nat)
    ensures n <= |queue|
  {
    if queue == [] || !Expired(queue[0].at, now, DISCARD_MS) then 0 else 1 + ExpiredPrefix(queue[1..], now)
  }

  function Prints(queue: seq<Stamped>): seq<nat> {
    seq(|queue|, k requires 0 <= k < |queue| => queue[k].fingerprint)
  }

  class FingerprintWindow {
    var fingerprints: set<nat>
    var queue: seq<Stamped>

    /** Between adds and prunes: the set is what the queue lists, once each and by age. */
    ghost predicate Settled()
      reads this
    {
      fingerprints == Elements(Prints(queue)) && Distinct(Prints(queue)) && Sorted(queue)
    }

    constructor ()
      ensures fingerprints == {} && queue == []
    {
      fingerprints, queue := {}, [];
    }

    /** First half of an add: whether the fingerprint is new. */
    method Insert(f: nat) returns (isNew: bool)
      modifies this`fingerprints
      ensures isNew <==> f !in old(fingerprints)
      ensures fingerprints == old(fingerprints) + {f}
    {
      isNew := f !in fingerprints;
      fingerprints := fingerprints + {f};
    }

    /** Second half of an add that inserted something. */
    method Push(f: nat, now: nat)
      modifies this`queue
      ensures queue == old(queue) + [Stamped(now, f)]
    {
      queue := queue + [Stamped(now, f)];
    }

    method PopExpired(now: nat) returns (expired: seq<nat>)
      modifies this`queue
      ensures
        var n := ExpiredPrefix(old(queue), now);
        expired == Prints(old(queue)[..n]) && queue == old(queue)[n..]
    {
      expired := [];
      ghost var n := 0;
      while queue != [] && Expired(queue[0].at, now, DISCARD_MS)
        invariant n <= |old(queue)| && queue == old(queue)[n..]
        invariant expired == Prints(old(queue)[..n])
        invariant n + ExpiredPrefix(queue, now) == ExpiredPrefix(old(queue), now)
        decreases |queue|
      {
        expired := expired + [queue[0].fingerprint];
        queue := queue[1..];
        n := n + 1;
      }
    }

    method RemoveExpired(expired: seq<nat>)
      modifies this`fingerprints
      ensures fingerprints == old(fingerprints) - Elements(expired)
    {
      for k := 0 to |expired|
        invariant fingerprints == old(fingerprints) - Elements(expired[..k])
      {
        assert expired[..k + 1] == expired[..k] + [expired[k]];
        fingerprints := fingerprints - {expired[k]};
      }
      assert expired[..|expired|] == expired;
    }

    /** An add that nothing interrupts: it succeeds exactly for a fingerprint no entry remembers. */
    method Add(f: nat, now: nat) returns (added: bool)
      requires Settled() && forall k :: 0 <= k < |queue| ==> queue[k].at <= now
      modifies this
      ensures Settled()
      ensures added <==> forall k :: 0 <= k < |old(queue)| ==> old(queue)[k].fingerprint != f
      ensures queue == if added then old(queue) + [Stamped(now, f)] else old(queue)
    {
      assert forall k :: 0 <= k < |queue| ==> Prints(queue)[k] == queue[k].fingerprint;
      added := Insert(f);
      if added {
        assert Prints(queue + [Stamped(now, f)]) == Prints(queue) + [f];
        Push(f, now);
      } else {
        assert fingerprints == old(fingerprints);
      }
    }

    /** A prune that nothing interrupts leaves exactly the fingerprints that have not expired. */
    method Prune(now: nat)
      requires Settled()
      modifies this
      ensures Settled()
      ensures forall f :: f in fingerprints <==>
                exists k :: 0 <= k < |old(queue)| && old(queue)[k].fingerprint == f
                  && !Expired(old(queue)[k].at, now, DISCARD_MS)
    {
      ghost var was, n := queue, ExpiredPrefix(queue, now);
      PrintsSplit(was, n);
      var expired := PopExpired(now);
      RemoveExpired(expired);
      assert fingerprints == Elements(Prints(was[n..]));
      LeftOver(was, now);
    }
  }

  /** What a pop leaves of a sorted queue is its unexpired fingerprints. */
  lemma LeftOver(queue: seq<Stamped>, now: nat)
    requires Sorted(queue)
    ensures forall f :: f in Elements(Prints(queue[ExpiredPrefix(queue, now)..])) <==>
              exists k :: 0 <= k < |queue| && queue[k].fingerprint == f && !Expired(queue[k].at, now, DISCARD_MS)
  {
    var n := ExpiredPrefix(queue, now);
    forall k | 0 <= k < |queue| ensures k < n <==> Expired(queue[k].at, now, DISCARD_MS) {
      PopsExactlyExpired(queue, now, k);
    }
    forall k | n <= k < |queue| ensures queue[k].fingerprint in Prints(queue[n..]) {
      assert Prints(queue[n..])[k - n] == queue[k].fingerprint;
    }
  }

  // ---------------------------------------------------------------- interleavings

  datatype Step =
    | Insert(fingerprint: nat)
    | Push(fingerprint: nat)
    | Pop
    | Remove
    | Pass(ms: nat)

  /** One add that returned true: when it inserted and when it stamped. */
  datatype Accepted = Accepted(fingerprint: nat, inserted: nat, stamped: nat)

  /** `adding` maps each fingerprint between its two halves to its insertion time. */
  datatype State = State(
    prints: set<nat>, queue: seq<Stamped>, adding: map<nat, nat>, expired: seq<nat>, now: nat, log: seq<Accepted>)

  const EMPTY: State := State({}, [], map[], [], 0, [])

  function Next(s: State, step: Step): State {
    match step
    case Insert(f) =>
      // an add of a known fingerprint returns false and is over
      if f in s.prints then s else s.(prints := s.prints + {f}, adding := s.adding[f := s.now])
    case Push(f) =>
      if f !in s.adding then s
      else
        s.(queue := s.queue + [Stamped(s.now, f)], adding := s.adding - {f},
           log := s.log + [Accepted(f, s.adding[f], s.now)])
    case Pop =>
      // the prune routine removes what it popped before it pops again
      if s.expired != [] then s
      else
        var n := ExpiredPrefix(s.queue, s.now);
        s.(queue := s.queue[n..], expired := Prints(s.queue[..n]))
    case Remove => s.(prints := s.prints - Elements(s.expired), expired := [])
    case Pass(ms) => s.(now := s.now + ms)
  }

  function Run(steps: seq<Step>): State {
    if steps == [] then EMPTY else Next(Run(steps[..|steps| - 1]), steps[|steps| - 1])
  }

  ghost predicate Sorted(queue: seq<Stamped>) { forall j, k :: 0 <= j < k < |queue| ==> queue[j].at <= queue[k].at }

  /** The set is the queued, the half-added and the half-removed, each fingerprint in one place only. */
  ghost predicate Partitioned(s: State) {
    && s.prints == Elements(Prints(s.queue)) + s.adding.Keys + Elements(s.expired)
    && Elements(Prints(s.queue)) !! s.adding.Keys !! Elements(s.expired)
    && Distinct(Prints(s.queue))
  }

  ghost predicate Timed(s: State) {
    && Sorted(s.queue)
    && (forall k :: 0 <= k < |s.queue| ==> s.queue[k].at <= s.now)
  }

  /** Past accepts of a fingerprint are older than the time to live unless it is queued. */
  ghost predicate Aged(s: State) {
    forall j :: 0 <= j < |s.log| ==>
      var f := s.log[j].fingerprint;
      && s.log[j].stamped <= s.now
      && (f in s.adding ==> s.adding[f] > s.log[j].stamped + DISCARD_MS)
      && (f !in s.adding && f !in Prints(s.queue) ==> s.now > s.log[j].stamped + DISCARD_MS)
      && (forall k :: 0 <= k < |s.queue| && s.queue[k].fingerprint == f ==> s.log[j].stamped <= s.queue[k].at)
  }

  ghost predicate Spaced(log: seq<Accepted>) {
    forall j, k :: 0 <= j < k < |log| && log[j].fingerprint == log[k].fingerprint ==>
      log[k].inserted > log[j].stamped + DISCARD_MS
  }

  /** On a sorted queue a pop takes exactly the expired entries. */
  lemma {:induction false} PopsExactlyExpired(queue: seq<Stamped>, now: nat, k: nat)
    requires Sorted(queue) && k < |queue|
    ensures k < ExpiredPrefix(queue, now) <==> Expired(queue[k].at, now, DISCARD_MS)
  {
    if Expired(queue[0].at, now, DISCARD_MS) {
      if k > 0 {
        PopsExactlyExpired(queue[1..], now, k - 1);
      }
    } else {
      assert queue[0].at <= queue[k].at;
    }
  }

  lemma PrintsSplit(queue: seq<Stamped>, n: nat)
    requires n <= |queue|
    ensures Prints(queue) == Prints(queue[..n]) + Prints(queue[n..])
    ensures Elements(Prints(queue)) == Elements(Prints(queue[..n])) + Elements(Prints(queue[n..]))
    ensures Distinct(Prints(queue)) ==>
      Distinct(Prints(queue[n..])) && Elements(Prints(queue[..n])) !! Elements(Prints(queue[n..]))
  {
    assert Prints(queue) == Prints(queue[..n]) + Prints(queue[n..]);
    assert forall k :: 0 <= k < |queue| - n ==> Prints(queue[n..])[k] == Prints(queue)[n + k];
    if Distinct(Prints(queue)) {
      forall j, k | 0 <= j < n && 0 <= k < |queue| - n ensures Prints(queue[..n])[j] != Prints(queue[n..])[k] {
        assert Prints(queue)[j] != Prints(queue)[n + k];
      }
    }
  }

  lemma PushPartitions(s: State, f: nat)
    requires Partitioned(s) && Timed(s)
    ensures Partitioned(Next(s, Push(f))) && Timed(Next(s, Push(f)))
  {
    if f in s.adding {
      assert Prints(s.queue + [Stamped(s.now, f)]) == Prints(s.queue) + [f];
      forall k | 0 <= k < |s.queue| ensures Prints(s.queue)[k] != f {
        assert Prints(s.queue)[k] in Elements(Prints(s.queue));
      }
    }
  }

  lemma PartitionKept(s: State, step: Step)
    requires Partitioned(s) && Timed(s)
    ensures Partitioned(Next(s, step)) && Timed(Next(s, step))
  {
    match step
    case Insert(f) =>
    case Push(f) => PushPartitions(s, f);
    case Pop =>
      PrintsSplit(s.queue, ExpiredPrefix(s.queue, s.now));
    case Remove =>
    case Pass(ms) =>
  }

  lemma AgeKept(s: State, step: Step)
    requires Partitioned(s) && Timed(s) && Aged(s)
    ensures Aged(Next(s, step))
  {
    match step
    case Insert(f) =>
      forall j | 0 <= j < |s.log| && s.log[j].fingerprint == f && f !in s.prints
        ensures s.now > s.log[j].stamped + DISCARD_MS
      {
        assert f !in Elements(Prints(s.queue));
      }
    case Push(f) => PushAges(s, f);
    case Pop => PopAges(s);
    case Remove =>
    case Pass(ms) =>
  }

  lemma PushAges(s: State, f: nat)
    requires Partitioned(s) && Timed(s) && Aged(s)
    ensures Aged(Next(s, Push(f)))
  {
    if f in s.adding {
      var r := Next(s, Push(f));
      assert Prints(r.queue) == Prints(s.queue) + [f];
      forall k | 0 <= k < |s.queue| ensures s.queue[k].fingerprint != f {
        assert Prints(s.queue)[k] in Elements(Prints(s.queue));
      }
      assert forall g :: g in Prints(r.queue) <==> g in Prints(s.queue) || g == f;
    }
  }

  lemma PopAges(s: State)
    requires Partitioned(s) && Timed(s) && Aged(s)
    ensures Aged(Next(s, Pop))
  {
    var n := ExpiredPrefix(s.queue, s.now);
    PrintsSplit(s.queue, n);
    forall j | 0 <= j < |s.log| && s.log[j].fingerprint in Prints(s.queue[..n])
      ensures s.now > s.log[j].stamped + DISCARD_MS
    {
      var k :| 0 <= k < n && Prints(s.queue[..n])[k] == s.log[j].fingerprint;
      PopsExactlyExpired(s.queue, s.now, k);
      assert s.queue[k].fingerprint == s.log[j].fingerprint;
    }
  }

  /**
   * Under every interleaving the set, the queue and the two half-done stages
   * agree, and an add of a fingerprint inserts only when more than 500 ms have
   * passed since the previous add of it that returned true.
   */
  lemma {:induction false} OncePerWindow(steps: seq<Step>)
    ensures Partitioned(Run(steps)) && Timed(Run(steps)) && Aged(Run(steps))
    ensures Spaced(Run(steps).log)
  {
    if steps == [] {
    } else {
      var s := Run(steps[..|steps| - 1]);
      OncePerWindow(steps[..|steps| - 1]);
      PartitionKept(s, steps[|steps| - 1]);
      AgeKept(s, steps[|steps| - 1]);
    }
  }

  // ---------------------------------------------------------------- what gets through

  /** The two halves of an add, one after the other. */
  function AddNow(s: State, f: nat): State { Next(Next(s, Insert(f)), Push(f)) }

  /** A whole prune pass, after the one before it has finished. */
  function PruneNow(s: State): State { Next(Next(Next(s, Remove), Pop), Remove) }

  /** An add gets through exactly for a fingerprint that is in no stage; else it changes nothing. */
  lemma AddExact(s: State, f: nat)
    requires Partitioned(s) && f !in s.adding
    ensures
      var remembered := (exists k :: 0 <= k < |s.queue| && s.queue[k].fingerprint == f) || f in s.expired;
      AddNow(s, f) ==
      if remembered then s
      else
        s.(prints := s.prints + {f}, queue := s.queue + [Stamped(s.now, f)],
           log := s.log + [Accepted(f, s.now, s.now)])
  {
    assert f in Elements(Prints(s.queue)) <==> exists k :: 0 <= k < |s.queue| && s.queue[k].fingerprint == f by {
      assert forall k :: 0 <= k < |s.queue| ==> Prints(s.queue)[k] == s.queue[k].fingerprint;
    }
    if f !in s.prints {
      assert s.adding[f := s.now] - {f} == s.adding;
    }
  }

  /** After a pass the set is the adds in progress and the queue, and the queue is what has not expired. */
  lemma PruneExact(s: State)
    requires Partitioned(s) && Timed(s)
    ensures
      var r := PruneNow(s);
      && r.expired == [] && r.adding == s.adding && r.log == s.log && r.now == s.now
      && r.prints == Elements(Prints(r.queue)) + s.adding.Keys
      && r.queue == s.queue[ExpiredPrefix(s.queue, s.now)..]
  {
    var cleared := Next(s, Remove);
    PartitionKept(s, Remove);
    PartitionKept(cleared, Pop);
    PartitionKept(Next(cleared, Pop), Remove);
  }

  /**
   * In every run, once a prune pass is over, a fingerprint that no add is busy
   * with is let through again if and only if every entry of it is more than
   * 500 ms old.
   */
  lemma LetThroughAgain(steps: seq<Step>, f: nat)
    requires f !in Run(steps).adding
    ensures
      var s := Run(steps);
      f in Next(PruneNow(s), Insert(f)).adding <==>
        forall k :: 0 <= k < |s.queue| && s.queue[k].fingerprint == f ==> s.now > s.queue[k].at + DISCARD_MS
  {
    var s := Run(steps);
    OncePerWindow(steps);
    PruneExact(s);
    LeftOver(s.queue, s.now);
  }

  /** After more than 500 ms without an add a prune pass leaves nothing queued. */
  lemma QuietEmpties(steps: seq<Step>, ms: nat)
    requires ms > DISCARD_MS
    ensures
      var r := PruneNow(Next(Run(steps), Pass(ms)));
      r.queue == [] && r.prints == r.adding.Keys && r.adding == Run(steps).adding
  {
    var s := Run(steps);
    var later := Next(s, Pass(ms));
    OncePerWindow(steps);
    PartitionKept(s, Pass(ms));
    PruneExact(later);
    var n := ExpiredPrefix(later.queue, later.now);
    if n < |later.queue| {
      PopsExactlyExpired(later.queue, later.now, n);
    }
    assert Prints([]) == [];
  }
}
