/**
 * The interval index of missing chunks: a list of half-open areas that must
 * always be the list of maximal runs of `false` in the chunk bitmap.
 */
module Areas {
  datatype Area = Area(start: nat, end: nat)

  predicate Inside(a: Area, i: nat) { a.start <= i < a.end }

  ghost predicate Covered(areas: seq<Area>, i: nat) {
    exists k :: 0 <= k < |areas| && Inside(areas[k], i)
  }

  /** Non-empty areas, in order, with at least one chunk between neighbours. */
  ghost predicate Separated(areas: seq<Area>) {
    && (forall k :: 0 <= k < |areas| ==> areas[k].start < areas[k].end)
    && (forall j, k :: 0 <= j < k < |areas| ==> areas[j].end < areas[k].start)
  }

  /** `areas` indexes exactly the missing chunks of `map`. */
  ghost predicate Indexes(areas: seq<Area>, map_: seq<bool>) {
    && Separated(areas)
    && (forall k :: 0 <= k < |areas| ==> areas[k].end <= |map_|)
    && (forall i :: 0 <= i < |map_| ==> (!map_[i] <==> Covered(areas, i)))
  }

  /** Every indexed area is a run of missing chunks that cannot be extended either way. */
  lemma AreaIsMaximalRun(areas: seq<Area>, map_: seq<bool>, k: nat)
    requires Indexes(areas, map_) && k < |areas|
    ensures forall i :: areas[k].start <= i < areas[k].end ==> !map_[i]
    ensures areas[k].start == 0 || map_[areas[k].start - 1]
    ensures areas[k].end == |map_| || map_[areas[k].end]
  {
    var a := areas[k];
    forall i | a.start <= i < a.end ensures !map_[i] {
      assert Inside(areas[k], i);
    }
    if a.start > 0 {
      assert forall j :: 0 <= j < |areas| ==> !Inside(areas[j], a.start - 1);
      assert !Covered(areas, a.start - 1);
    }
    assert forall j :: 0 <= j < |areas| ==> !Inside(areas[j], a.end);
    assert !Covered(areas, a.end);
  }

  /** Dropping the first area leaves an index of the bitmap with that run filled. */
  lemma IndexTail(areas: seq<Area>, map_: seq<bool>)
    requires Indexes(areas, map_) && areas != []
    ensures Indexes(areas[1..], seq(|map_|, i requires 0 <= i < |map_| => map_[i] || Inside(areas[0], i)))
  {
    var rest := areas[1..];
    var filled := seq(|map_|, i requires 0 <= i < |map_| => map_[i] || Inside(areas[0], i));
    forall i | 0 <= i < |map_| ensures !filled[i] <==> Covered(rest, i) {
      if Covered(rest, i) {
        var k :| 0 <= k < |rest| && Inside(rest[k], i);
        assert Inside(areas[k + 1], i);
        assert Covered(areas, i);
      }
      if !filled[i] {
        var k :| 0 <= k < |areas| && Inside(areas[k], i);
        assert Inside(rest[k - 1], i);
      }
    }
  }

  /** A bitmap has one index only, so keeping `Indexes` pins the whole list. */
  lemma {:induction false} IndexUnique(a: seq<Area>, b: seq<Area>, map_: seq<bool>)
    requires Indexes(a, map_) && Indexes(b, map_)
    ensures a == b
    decreases |a|
  {
    if a == [] {
      if b != [] {
        FirstAreaAgrees(b, a, map_);
      }
    } else {
      FirstAreaAgrees(a, b, map_);
      IndexTail(a, map_);
      IndexTail(b, map_);
      IndexUnique(a[1..], b[1..], seq(|map_|, i requires 0 <= i < |map_| => map_[i] || Inside(a[0], i)));
      assert a == [a[0]] + a[1..] && b == [b[0]] + b[1..];
    }
  }

  lemma FirstAreaAgrees(a: seq<Area>, b: seq<Area>, map_: seq<bool>)
    requires Indexes(a, map_) && Indexes(b, map_) && a != []
    ensures b != [] && a[0] == b[0]
  {
    assert Inside(a[0], a[0].start);
    assert Covered(a, a[0].start);
    assert Covered(b, a[0].start);
    assert Inside(b[0], b[0].start);
    assert Covered(b, b[0].start);
    assert Covered(a, b[0].start);
    AreaIsMaximalRun(a, map_, 0);
    AreaIsMaximalRun(b, map_, 0);
  }

  /** A fresh bitmap is one run of missing chunks. */
  lemma FreshIndex(map_: seq<bool>)
    requires 0 < |map_| && forall i :: 0 <= i < |map_| ==> !map_[i]
    ensures Indexes([Area(0, |map_|)], map_)
  {
    forall i | 0 <= i < |map_| ensures Covered([Area(0, |map_|)], i) {
      assert Inside([Area(0, |map_|)][0], i);
    }
  }

  /** What is left of area `a` once its chunk `i` is filled: nothing, one area or two. */
  function Pieces(a: Area, i: nat): (r: seq<Area>)
    requires Inside(a, i)
    ensures Separated(r) && forall x :: Covered(r, x) <==> Inside(a, x) && x != i
  {
    var before, after := Area(a.start, i), Area(i + 1, a.end);
    if a.start < i && i + 1 < a.end then
      var both := [before, after];
      assert forall x :: Covered(both, x) <==> Inside(both[0], x) || Inside(both[1], x);
      both
    else if a.start < i then
      assert forall x :: Covered([before], x) <==> Inside([before][0], x);
      [before]
    else if i + 1 < a.end then
      assert forall x :: Covered([after], x) <==> Inside([after][0], x);
      [after]
    else []
  }

  /** The index after chunk `i`, inside area `p`, is filled. */
  function Carve(areas: seq<Area>, p: nat, i: nat): seq<Area>
    requires p < |areas| && Inside(areas[p], i)
  {
    areas[..p] + Pieces(areas[p], i) + areas[p + 1..]
  }

  lemma CoveredConcat(a: seq<Area>, b: seq<Area>, x: nat)
    ensures Covered(a + b, x) <==> Covered(a, x) || Covered(b, x)
  {
    assert forall k :: 0 <= k < |a| ==> (a + b)[k] == a[k];
    assert forall k :: 0 <= k < |b| ==> (a + b)[|a| + k] == b[k];
    if Covered(b, x) {
      var k :| 0 <= k < |b| && Inside(b[k], x);
      assert Inside((a + b)[|a| + k], x);
    }
  }

  lemma SeparatedConcat(a: seq<Area>, b: seq<Area>)
    requires Separated(a) && Separated(b)
    requires forall j, k :: 0 <= j < |a| && 0 <= k < |b| ==> a[j].end < b[k].start
    ensures Separated(a + b)
  {
  }

  lemma CarveSeparated(areas: seq<Area>, p: nat, i: nat)
    requires Separated(areas) && p < |areas| && Inside(areas[p], i)
    ensures Separated(Carve(areas, p, i))
  {
    var pieces := Pieces(areas[p], i);
    assert forall k :: 0 <= k < |pieces| ==> areas[p].start <= pieces[k].start && pieces[k].end <= areas[p].end;
    SeparatedConcat(areas[..p], pieces);
    SeparatedConcat(areas[..p] + pieces, areas[p + 1..]);
  }

  /** Carving removes chunk `i` from the covered set and nothing else. */
  lemma CarveCovers(areas: seq<Area>, p: nat, i: nat, x: nat)
    requires Separated(areas) && p < |areas| && Inside(areas[p], i)
    ensures Covered(Carve(areas, p, i), x) <==> Covered(areas, x) && x != i
  {
    var before, after := areas[..p], areas[p + 1..];
    var pieces := Pieces(areas[p], i);
    assert areas == before + [areas[p]] + after;
    CoveredConcat(before + [areas[p]], after, x);
    CoveredConcat(before, [areas[p]], x);
    CoveredConcat(before + pieces, after, x);
    CoveredConcat(before, pieces, x);
    assert Covered([areas[p]], x) <==> Inside([areas[p]][0], x);
    assert !Covered(before, i) && !Covered(after, i);
  }

  /** Filling chunk `i` and carving it keep index and bitmap in step. */
  lemma CarveIndexes(areas: seq<Area>, map_: seq<bool>, p: nat, i: nat)
    requires Indexes(areas, map_) && p < |areas| && Inside(areas[p], i)
    ensures i < |map_| && Indexes(Carve(areas, p, i), map_[i := true])
  {
    CarveSeparated(areas, p, i);
    var r := Carve(areas, p, i);
    forall x | 0 <= x < |map_| ensures !map_[i := true][x] <==> Covered(r, x) {
      CarveCovers(areas, p, i, x);
    }
  }
}
