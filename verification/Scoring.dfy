/** Which holes the score policy asks for: scores as exact reals, top two above a threshold. */
module Scoring {
  import opened Common
  import opened Areas

  const URGENCY_DECAY_CHUNKS: real := 4.0
  const BEFORE_HEAD_SIZE_DENOM: real := 8.0
  const BEFORE_HEAD_URGENCY_CAP: real := 0.9
  const CONFIDENCE_HALF_SAT_CHUNKS: real := 4.0
  const SCORE_THRESHOLD: real := 0.3
  const MAX_REQUESTS_PER_TICK: nat := 2

  function Urgency(a: Area, headChunk: nat): (r: real)
    requires a.start < a.end
    ensures r >= 0.0
  {
    if Inside(a, headChunk) then 0.0
    else if a.start > headChunk then 1.0 / ((a.start - headChunk) as real / URGENCY_DECAY_CHUNKS)
    else
      var scaled := (a.end - a.start) as real / BEFORE_HEAD_SIZE_DENOM;
      if scaled < BEFORE_HEAD_URGENCY_CAP then scaled else BEFORE_HEAD_URGENCY_CAP
  }

  function Confidence(validPast: nat): (r: real)
    ensures 0.0 <= r < 1.0
  {
    validPast as real / (validPast as real + CONFIDENCE_HALF_SAT_CHUNKS)
  }

  /** Number of filled chunks at or after index `from`. */
  function CountFilled(filled: seq<bool>, from: nat): (n: nat)
    ensures from <= |filled| ==> n <= |filled| - from
    decreases |filled| - from
  {
    if from >= |filled| then 0
    else (if filled[from] then 1 else 0) + CountFilled(filled, from + 1)
  }

  function Weigh(a: Area, headChunk: nat, validPast: nat): real
    requires a.start < a.end
  {
    Urgency(a, headChunk) * Confidence(validPast)
  }

  /** The score of a hole, from a direct count of the chunks that arrived past it. */
  function Score(filled: seq<bool>, headChunk: nat, a: Area): real
    requires a.start < a.end
  {
    Weigh(a, headChunk, CountFilled(filled, a.end))
  }

  // ------------------------------------------------------- what the weights come to

  lemma QuotientAtLeast(x: real, y: real, z: real)
    requires y > 0.0
    ensures x / y >= z <==> x >= z * y
  {
    var q := x / y;
    assert q * y == x;
    if q >= z {
      assert (q - z) * y >= 0.0;
    } else {
      assert (z - q) * y > 0.0;
    }
  }

  /** When a hole `d` chunks ahead of the head, with `v` arrivals past it, is worth asking for. */
  lemma AheadPassesIff(a: Area, headChunk: nat, v: nat)
    requires headChunk < a.start < a.end
    ensures
      var d := a.start - headChunk;
      Weigh(a, headChunk, v) >= SCORE_THRESHOLD <==> 40 * v >= 3 * (d * (v + 4))
  {
    var d, n := (a.start - headChunk) as real, v as real;
    assert Urgency(a, headChunk) == 4.0 / d by {
      QuotientIs(d);
    }
    ProductIs(d, n);
    QuotientAtLeast(4.0 * n, d * (n + 4.0), SCORE_THRESHOLD);
    assert d * (n + 4.0) == ((a.start - headChunk) * (v + 4)) as real;
  }

  lemma QuotientIs(d: real)
    requires d > 0.0
    ensures 1.0 / (d / 4.0) == 4.0 / d
  {
    var q := 4.0 / d;
    assert q * d == 4.0;
    assert q * (d / 4.0) == 1.0;
  }

  lemma ProductIs(d: real, n: real)
    requires d > 0.0 && n >= 0.0
    ensures d * (n + 4.0) > 0.0
    ensures 4.0 / d * (n / (n + 4.0)) == 4.0 * n / (d * (n + 4.0))
  {
    var p, q := 4.0 / d, n / (n + 4.0);
    assert p * d == 4.0 && q * (n + 4.0) == n;
    assert p * q * (d * (n + 4.0)) == p * d * (q * (n + 4.0));
  }

  lemma ScaledQuotient(u: real, x: real, y: real)
    requires y > 0.0
    ensures u * (x / y) == u * x / y
  {
    var q := x / y;
    assert q * y == x;
    assert u * q * y == u * (q * y);
  }

  lemma EighthTimes(n: nat, v: nat)
    ensures n as real / 8.0 * v as real == (n * v) as real / 8.0
  {
    assert n as real * v as real == (n * v) as real;
  }

  /** When a hole of `n` chunks behind the head, with `v` arrivals past it, is worth asking for. */
  lemma BehindPassesIff(a: Area, headChunk: nat, v: nat)
    requires a.start < a.end <= headChunk
    ensures
      var n := a.end - a.start;
      Weigh(a, headChunk, v) >= SCORE_THRESHOLD <==> if n < 8 then 10 * (n * v) >= 24 * (v + 4) else v >= 2
  {
    var n, u, x := a.end - a.start, Urgency(a, headChunk), v as real;
    ScaledQuotient(u, x, x + 4.0);
    QuotientAtLeast(u * x, x + 4.0, SCORE_THRESHOLD);
    assert u == if n < 8 then n as real / 8.0 else 0.9;
    EighthTimes(n, v);
  }

  /** A hole ahead of the head is more urgent than every hole behind it exactly when it is at most four chunks away. */
  lemma AheadWinsIff(a: Area, headChunk: nat)
    requires 8 <= headChunk < a.start < a.end
    ensures (forall b: Area :: b.start < b.end <= headChunk ==> Urgency(a, headChunk) > Urgency(b, headChunk)) <==>
            a.start - headChunk <= 4
  {
    var d := (a.start - headChunk) as real;
    QuotientIs(d);
    var u := 4.0 / d;
    assert u * d == 4.0;
    if a.start - headChunk <= 4 {
      assert u >= 1.0;
    } else {
      assert u <= 0.8;
      assert Urgency(Area(0, 8), headChunk) == 0.9;
    }
  }

  // ------------------------------------------------------- suffix sums

  /** Total length of the areas from index `k` on. */
  function Missing(areas: seq<Area>, k: nat): int
    requires k <= |areas|
    decreases |areas| - k
  {
    if k == |areas| then 0 else areas[k].end - areas[k].start + Missing(areas, k + 1)
  }

  lemma {:induction false} CountRun(filled: seq<bool>, from: nat, to: nat, value: bool)
    requires from <= to <= |filled|
    requires forall i :: from <= i < to ==> filled[i] == value
    ensures CountFilled(filled, from) == (if value then to - from else 0) + CountFilled(filled, to)
    decreases |filled| - from
  {
    if from < to {
      CountRun(filled, from + 1, to, value);
    }
  }

  /** Up to the next area, or the end, every chunk past area `k` is filled. */
  lemma FilledUpToNext(areas: seq<Area>, filled: seq<bool>, k: nat)
    requires Indexes(areas, filled) && k < |areas|
    ensures
      var to := if k + 1 < |areas| then areas[k + 1].start else |filled|;
      areas[k].end <= to <= |filled| && CountFilled(filled, areas[k].end) == to - areas[k].end + CountFilled(filled, to)
  {
    var to := if k + 1 < |areas| then areas[k + 1].start else |filled|;
    forall i | areas[k].end <= i < to ensures filled[i] {
      assert forall j :: 0 <= j < |areas| ==> !Inside(areas[j], i);
      assert !Covered(areas, i);
    }
    CountRun(filled, areas[k].end, to, true);
  }

  /**
   * What the reverse suffix sums give for area `k` is the number of filled
   * chunks past it; the subtraction never saturates.
   */
  lemma {:induction false} SuffixSumCounts(areas: seq<Area>, filled: seq<bool>, k: nat)
    requires Indexes(areas, filled) && k < |areas|
    ensures areas[k].end + Missing(areas, k + 1) <= |filled|
    ensures |filled| - areas[k].end - Missing(areas, k + 1) == CountFilled(filled, areas[k].end)
    decreases |areas| - k
  {
    FilledUpToNext(areas, filled, k);
    if k + 1 < |areas| {
      SuffixSumCounts(areas, filled, k + 1);
      AreaIsMaximalRun(areas, filled, k + 1);
      CountRun(filled, areas[k + 1].start, areas[k + 1].end, false);
    }
  }

  /** The score as the program forms it: two saturating subtractions from the chunk total. */
  function ScoreBySuffix(a: Area, headChunk: nat, total: nat, laterInvalid: int): real
    requires a.start < a.end
  {
    var past := if total >= a.end then total - a.end else 0;
    var validPast := if past >= laterInvalid then past - laterInvalid else 0;
    Weigh(a, headChunk, validPast)
  }

  lemma SuffixScore(areas: seq<Area>, filled: seq<bool>, headChunk: nat, k: nat)
    requires Indexes(areas, filled) && k < |areas|
    ensures ScoreBySuffix(areas[k], headChunk, |filled|, Missing(areas, k + 1)) == Score(filled, headChunk, areas[k])
  {
    SuffixSumCounts(areas, filled, k);
  }

  /** Reverse pass over the index: entry `k` is the number of missing chunks in `areas[k..]`. */
  method SuffixInvalid(areas: seq<Area>) returns (suffix: array<int>)
    ensures fresh(suffix) && suffix.Length == |areas| + 1
    ensures forall k {:trigger suffix[k]} :: 0 <= k <= |areas| ==> suffix[k] == Missing(areas, k)
  {
    suffix := new int[|areas| + 1](_ => 0);
    var i := |areas|;
    while i > 0
      invariant 0 <= i <= |areas|
      invariant forall k {:trigger suffix[k]} :: i <= k <= |areas| ==> suffix[k] == Missing(areas, k)
    {
      i := i - 1;
      suffix[i] := suffix[i + 1] + (areas[i].end - areas[i].start);
    }
  }

  // ------------------------------------------------------- selection

  type Scored = (Area, real)

  /** The order requests are ranked by: higher score first, then the earlier hole. */
  predicate Before(a: Scored, b: Scored) {
    a.1 > b.1 || (a.1 == b.1 && a.0.start < b.0.start)
  }

  ghost predicate Ranked(s: seq<Scored>) {
    forall j, k :: 0 <= j < k < |s| ==> Before(s[j], s[k])
  }

  ghost predicate ByStart(s: seq<Scored>) {
    forall j, k :: 0 <= j < k < |s| ==> s[j].0.start < s[k].0.start
  }

  function Insert(x: Scored, s: seq<Scored>): (r: seq<Scored>)
    ensures multiset(r) == multiset{x} + multiset(s)
  {
    if s == [] || s[0].1 <= x.1 then [x] + s
    else
      assert s == [s[0]] + s[1..];
      [s[0]] + Insert(x, s[1..])
  }

  /** A stable sort by descending score. */
  function SortDescending(s: seq<Scored>): (r: seq<Scored>)
    ensures multiset(r) == multiset(s)
  {
    if s == [] then []
    else
      assert s == [s[0]] + s[1..];
      Insert(s[0], SortDescending(s[1..]))
  }

  lemma {:induction false} InsertRanked(x: Scored, s: seq<Scored>)
    requires Ranked(s) && forall y :: y in s ==> x.0.start < y.0.start
    ensures Ranked(Insert(x, s))
  {
    if s != [] && s[0].1 > x.1 {
      assert forall y :: y in s[1..] ==> y in s;
      InsertRanked(x, s[1..]);
      var r := Insert(x, s[1..]);
      forall k | 0 <= k < |r| ensures Before(s[0], r[k]) {
        assert r[k] in multiset(r);
      }
    }
  }

  lemma {:induction false} SortRanked(s: seq<Scored>)
    requires ByStart(s)
    ensures Ranked(SortDescending(s))
  {
    if s == [] {
    } else {
      SortRanked(s[1..]);
      forall y | y in SortDescending(s[1..]) ensures s[0].0.start < y.0.start {
        assert y in multiset(s[1..]);
      }
      InsertRanked(s[0], SortDescending(s[1..]));
    }
  }

  function Keep(scored: seq<Scored>): (r: seq<Scored>)
    ensures forall s :: s in r <==> s in scored && s.1 >= SCORE_THRESHOLD
  {
    if scored == [] then []
    else if scored[0].1 >= SCORE_THRESHOLD then [scored[0]] + Keep(scored[1..])
    else Keep(scored[1..])
  }

  method Retain(scored: seq<Scored>) returns (kept: seq<Scored>)
    ensures kept == Keep(scored)
  {
    kept := [];
    for i := 0 to |scored|
      invariant kept + Keep(scored[i..]) == Keep(scored)
    {
      assert scored[i..] == [scored[i]] + scored[i + 1..];
      if scored[i].1 >= SCORE_THRESHOLD {
        kept := kept + [scored[i]];
      }
    }
  }

  lemma {:induction false} KeepByStart(scored: seq<Scored>)
    requires ByStart(scored)
    ensures ByStart(Keep(scored))
  {
    if scored == [] {
    } else {
      KeepByStart(scored[1..]);
      assert forall s :: s in Keep(scored[1..]) ==> s in scored[1..];
    }
  }

  ghost function Passing(scored: seq<Scored>): set<Scored> {
    set s | s in scored && s.1 >= SCORE_THRESHOLD
  }

  function Holes(scored: seq<Scored>): seq<Area> {
    seq(|scored|, i requires 0 <= i < |scored| => scored[i].0)
  }

  /** The holes of an index with their scores, in index order. */
  function ScoresOf(areas: seq<Area>, filled: seq<bool>, headChunk: nat): (scored: seq<Scored>)
    requires Separated(areas)
  {
    seq(|areas|, k requires 0 <= k < |areas| => (areas[k], Score(filled, headChunk, areas[k])))
  }

  /** `top` ranks the best of `all`, cut at the per-tick limit; nothing left out ranks above it. */
  ghost predicate IsTop(top: seq<Scored>, all: set<Scored>) {
    && |top| == Min(|all|, MAX_REQUESTS_PER_TICK)
    && (forall s :: s in top ==> s in all)
    && Ranked(top)
    && (forall k, s :: 0 <= k < |top| && s in all && s !in top ==> Before(top[k], s))
  }

  lemma {:induction false} RankedSize(s: seq<Scored>)
    requires Ranked(s)
    ensures |set x | x in s| == |s|
  {
    if s == [] {
    } else {
      RankedSize(s[1..]);
      assert s == [s[0]] + s[1..];
      assert (set x | x in s) == {s[0]} + (set x | x in s[1..]);
    }
  }

  lemma RankedPrefixIsTop(ranked: seq<Scored>)
    requires Ranked(ranked)
    ensures IsTop(ranked[..Min(|ranked|, MAX_REQUESTS_PER_TICK)], set s | s in ranked)
  {
    RankedSize(ranked);
    var n := Min(|ranked|, MAX_REQUESTS_PER_TICK);
    var top := ranked[..n];
    forall k, s | 0 <= k < n && s in ranked && s !in top ensures Before(top[k], s) {
      var j :| 0 <= j < |ranked| && ranked[j] == s;
      assert forall i :: 0 <= i < n ==> top[i] == ranked[i] && top[i] != s;
    }
  }

  /** Filter by threshold, sort by descending score, truncate: a true top two. */
  lemma SelectionIsTop(scored: seq<Scored>)
    requires ByStart(scored)
    ensures
      var ranked := SortDescending(Keep(scored));
      IsTop(ranked[..Min(|ranked|, MAX_REQUESTS_PER_TICK)], Passing(scored))
  {
    var kept := Keep(scored);
    var ranked := SortDescending(kept);
    KeepByStart(scored);
    SortRanked(kept);
    RankedPrefixIsTop(ranked);
    assert (set s | s in ranked) == Passing(scored) by {
      assert forall s :: s in ranked <==> s in multiset(ranked);
      assert forall s :: s in kept <==> s in multiset(kept);
    }
  }
}
