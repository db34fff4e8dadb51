/**
 * Requests over whole runs of a receiver: arrivals, seeks and any mix of the
 * three deciders (score policy, sweep, batch pruning), which all reserve
 * through the same pending table.
 */
module Dedup {
  import opened Common
  import opened Buffer
  import opened Ranges
  import opened Requests

  datatype Event =
    | Arrive(pos: nat, data: seq<byte>)
    | Seek(pos: nat)
    | Decide(positions: seq<nat>, swept: nat, now: nat)

  datatype Entry = Asked(chunk: nat, at: nat) | Filled(chunk: nat)

  datatype State = State(rx: Rx, pending: Pending, clock: nat, log: seq<Entry>)

  function Init(bytes: seq<byte>): State { State(Fresh(bytes), map[], 0, []) }

  function AskedAll(taken: seq<nat>, now: nat): seq<Entry> {
    seq(|taken|, k requires 0 <= k < |taken| => Asked(taken[k] / CHUNK, now))
  }

  /** A decision taken against the clock does not happen. */
  function Apply(s: State, e: Event): (r: State)
    requires Shaped(s.rx)
    ensures Shaped(r.rx)
  {
    match e
    case Arrive(pos, data) =>
      var (rx, pending) := Arrived(s.rx, s.pending, pos, data);
      s.(rx := rx, pending := pending,
         log := if Written(s.rx, pos, data).Ok? then s.log + [Filled(pos / CHUNK)] else s.log)
    case Seek(pos) => s.(rx := Sought(s.rx, pos).0)
    case Decide(positions, swept, now) =>
      if s.clock <= swept <= now then
        var (taken, after) := Reserve(s.rx, Swept(s.pending, swept), positions, now);
        s.(pending := after, clock := now, log := s.log + AskedAll(taken, now))
      else s
  }

  function Run(s: State, events: seq<Event>): (r: State)
    requires Shaped(s.rx)
    ensures Shaped(r.rx)
  {
    if events == [] then s else Apply(Run(s, events[..|events| - 1]), events[|events| - 1])
  }

  /** What is known about a chunk asked for at time `at`: here, still pending, or long expired. */
  ghost predicate Settled(s: State, chunk: nat, at: nat)
    requires Shaped(s.rx)
  {
    && chunk < |s.rx.filled| && at <= s.clock
    && (s.rx.filled[chunk] || (chunk in s.pending && s.pending[chunk] >= at) || Expired(at, s.clock, DISCARD_MS))
  }

  ghost predicate PendingMissing(s: State)
    requires Shaped(s.rx)
  {
    OnlyMissing(s.rx, s.pending) && forall i :: i in s.pending ==> s.pending[i] <= s.clock
  }

  ghost predicate LogSettled(s: State)
    requires Shaped(s.rx)
  {
    forall k :: 0 <= k < |s.log| ==>
      match s.log[k]
      case Asked(chunk, at) => Settled(s, chunk, at)
      case Filled(chunk) => chunk < |s.rx.filled| && s.rx.filled[chunk]
  }

  /** Two entries about one chunk: requests are spaced out and nothing follows the arrival. */
  predicate Spaced(earlier: Entry, later: Entry) {
    earlier.chunk == later.chunk ==> earlier.Asked? && (later.Asked? ==> later.at > earlier.at + DISCARD_MS)
  }

  ghost predicate LogSpaced(log: seq<Entry>) {
    forall j, k :: 0 <= j < k < |log| ==> Spaced(log[j], log[k])
  }

  lemma ArriveKeeps(s: State, pos: nat, data: seq<byte>)
    requires Shaped(s.rx) && PendingMissing(s) && LogSettled(s) && LogSpaced(s.log)
    ensures var r := Apply(s, Arrive(pos, data)); PendingMissing(r) && LogSettled(r) && LogSpaced(r.log)
  {
  }

  lemma SweptPending(s: State, positions: seq<nat>, swept: nat, now: nat)
    requires Shaped(s.rx) && PendingMissing(s) && s.clock <= swept <= now
    ensures PendingMissing(Apply(s, Decide(positions, swept, now)))
  {
    ReserveMeaning(s.rx, Swept(s.pending, swept), positions, now);
    var taken := Reserve(s.rx, Swept(s.pending, swept), positions, now).0;
    forall i | i in Indices(taken) ensures i < |s.rx.filled| && !s.rx.filled[i] {
      var k :| 0 <= k < |taken| && taken[k] / CHUNK == i;
      assert taken[k] in taken;
    }
  }

  /** A chunk taken now was never there before, and its earlier requests ran out. */
  lemma TakenIsNew(s: State, positions: seq<nat>, swept: nat, now: nat, j: nat, k: nat)
    requires Shaped(s.rx) && PendingMissing(s) && LogSettled(s) && s.clock <= swept <= now
    requires j < |s.log| && k < |Reserve(s.rx, Swept(s.pending, swept), positions, now).0|
    ensures Spaced(s.log[j], AskedAll(Reserve(s.rx, Swept(s.pending, swept), positions, now).0, now)[k])
  {
    ReserveMeaning(s.rx, Swept(s.pending, swept), positions, now);
    var taken := Reserve(s.rx, Swept(s.pending, swept), positions, now).0;
    assert taken[k] in taken;
    assert Wanted(s.rx, Swept(s.pending, swept), taken[k]);
  }

  lemma DecideKeeps(s: State, positions: seq<nat>, swept: nat, now: nat)
    requires Shaped(s.rx) && PendingMissing(s) && LogSettled(s) && LogSpaced(s.log)
    ensures var r := Apply(s, Decide(positions, swept, now)); PendingMissing(r) && LogSettled(r) && LogSpaced(r.log)
  {
    if s.clock <= swept <= now {
      SweptPending(s, positions, swept, now);
      DecideSettles(s, positions, swept, now);
      DecideSpaces(s, positions, swept, now);
    }
  }

  lemma DecideSettles(s: State, positions: seq<nat>, swept: nat, now: nat)
    requires Shaped(s.rx) && LogSettled(s) && s.clock <= swept <= now
    ensures LogSettled(Apply(s, Decide(positions, swept, now)))
  {
    var r := Apply(s, Decide(positions, swept, now));
    var live := Swept(s.pending, swept);
    var taken := Reserve(s.rx, live, positions, now).0;
    ReserveMeaning(s.rx, live, positions, now);
    forall k | 0 <= k < |taken| ensures Settled(r, taken[k] / CHUNK, now) {
      assert taken[k] in taken;
      assert taken[k] / CHUNK == Indices(taken)[k];
    }
  }

  lemma DecideSpaces(s: State, positions: seq<nat>, swept: nat, now: nat)
    requires Shaped(s.rx) && PendingMissing(s) && LogSettled(s) && LogSpaced(s.log) && s.clock <= swept <= now
    ensures LogSpaced(Apply(s, Decide(positions, swept, now)).log)
  {
    var r := Apply(s, Decide(positions, swept, now));
    var live := Swept(s.pending, swept);
    var taken := Reserve(s.rx, live, positions, now).0;
    assert Distinct(Indices(taken)) by {
      ReserveMeaning(s.rx, live, positions, now);
    }
    forall j, k | 0 <= j < k < |r.log| ensures Spaced(r.log[j], r.log[k]) {
      if j < |s.log| <= k {
        TakenIsNew(s, positions, swept, now, j, k - |s.log|);
      } else if |s.log| <= j {
        assert Indices(taken)[j - |s.log|] != Indices(taken)[k - |s.log|];
      }
    }
  }

  /**
   * In every run, pending requests are for missing chunks only, two requests
   * for one chunk are more than 500 ms apart whichever decider made them, and
   * a chunk is neither asked for nor written again once it has arrived.
   */
  lemma {:induction false} RequestsAreSpaced(bytes: seq<byte>, events: seq<Event>)
    ensures var s := Run(Init(bytes), events); PendingMissing(s) && LogSettled(s) && LogSpaced(s.log)
  {
    if events == [] {
    } else {
      RequestsAreSpaced(bytes, events[..|events| - 1]);
      var s := Run(Init(bytes), events[..|events| - 1]);
      match events[|events| - 1]
      case Arrive(pos, data) => ArriveKeeps(s, pos, data);
      case Seek(pos) =>
      case Decide(positions, swept, now) => DecideKeeps(s, positions, swept, now);
    }
  }

  /**
   * A decision taken in time asks, at that time, for every chunk it comes up
   * with that is missing and has no request younger than 500 ms, and for no
   * other; an arrival is logged exactly when the buffer took it.
   */
  lemma DecisionExact(s: State, positions: seq<nat>, swept: nat, now: nat, chunk: nat)
    requires Shaped(s.rx) && s.clock <= swept <= now
    ensures
      var r := Apply(s, Decide(positions, swept, now));
      && |s.log| <= |r.log| && r.log[..|s.log|] == s.log && r.rx == s.rx && r.clock == now
      && (Asked(chunk, now) in r.log[|s.log|..] <==>
            && (exists p :: p in positions && p <= |s.rx.bytes| && p / CHUNK == chunk)
            && chunk < |s.rx.filled| && !s.rx.filled[chunk]
            && (chunk in s.pending ==> swept > s.pending[chunk] + DISCARD_MS))
  {
    var live := Swept(s.pending, swept);
    var taken := Reserve(s.rx, live, positions, now).0;
    var r := Apply(s, Decide(positions, swept, now));
    assert r.log[|s.log|..] == AskedAll(taken, now);
    ReserveMeaning(s.rx, live, positions, now);
    if Asked(chunk, now) in AskedAll(taken, now) {
      var k :| 0 <= k < |taken| && AskedAll(taken, now)[k] == Asked(chunk, now);
      assert taken[k] in taken && Wanted(s.rx, live, taken[k]);
    }
    if p :| p in positions && p / CHUNK == chunk && Wanted(s.rx, live, p) {
      var k :| 0 <= k < |taken| && Indices(taken)[k] == chunk;
      assert AskedAll(taken, now)[k] == Asked(chunk, now);
    }
  }

  lemma ArrivalExact(s: State, pos: nat, data: seq<byte>)
    requires Shaped(s.rx)
    ensures
      var r := Apply(s, Arrive(pos, data));
      && (r.log == s.log + [Filled(pos / CHUNK)] <==> Written(s.rx, pos, data).Ok?)
      && if Written(s.rx, pos, data).Ok? then
           r.rx == Written(s.rx, pos, data).value && pos / CHUNK !in r.pending
         else r == s
  {
  }

  /** What the events do to the buffer, as writes and seeks. */
  function BufferPart(events: seq<Event>): seq<Op> {
    if events == [] then []
    else
      BufferPart(events[..|events| - 1]) +
      match events[|events| - 1]
      case Arrive(pos, data) => [WriteOp(pos, data)]
      case Seek(pos) => [SeekOp(pos)]
      case Decide(_, _, _) => []
  }

  /** The requests never disturb the buffer: it goes through the writes and seeks alone. */
  lemma {:induction false} BufferRuns(bytes: seq<byte>, events: seq<Event>)
    ensures Run(Init(bytes), events).rx == Buffer.Run(Fresh(bytes), BufferPart(events))
  {
    if events == [] {
    } else {
      var init, last := events[..|events| - 1], events[|events| - 1];
      var before := BufferPart(init);
      BufferRuns(bytes, init);
      match last
      case Arrive(pos, data) => assert (before + [WriteOp(pos, data)])[..|before|] == before;
      case Seek(pos) => assert (before + [SeekOp(pos)])[..|before|] == before;
      case Decide(_, _, _) => assert before + [] == before;
    }
  }
}
