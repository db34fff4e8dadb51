/**
 * Why a batch id must not be used twice while an old batch object is listed:
 * exactly when an object that already holds blocks of an older batch still
 * recovers the right block of a newer one.
 */
module StaleBatch {
  import opened Common
  import opened XorFec

  lemma XorAssociates(a: Block, b: Block, c: Block)
    ensures Xor(Xor(a, b), c) == Xor(a, Xor(b, c))
  {
    forall k | 0 <= k < BLOCK ensures Xor(Xor(a, b), c)[k] == Xor(a, Xor(b, c))[k] {
      ByteAssociates(a[k], b[k], c[k]);
    }
  }

  lemma ByteAssociates(x: byte, y: byte, z: byte)
    ensures (x ^ y) ^ z == x ^ (y ^ z)
  {
  }

  lemma XorZero(a: Block)
    ensures Xor(ZERO, a) == a && Xor(a, ZERO) == a
  {
    XorCancel(a, ZERO);
    forall k | 0 <= k < BLOCK ensures Xor(a, ZERO)[k] == a[k] {
      XorByte(a[k], 0, 0);
    }
  }

  /** Folding two disjoint sets of blocks at once is folding them apart. */
  lemma {:induction false} FoldUnion(batch: seq<Block>, a: set<nat>, c: set<nat>, n: nat)
    requires n <= |batch| && a !! c
    ensures Fold(batch, a + c, n) == Xor(Fold(batch, a, n), Fold(batch, c, n))
  {
    if n == 0 {
      XorZero(ZERO);
    } else {
      FoldUnion(batch, a, c, n - 1);
      var left, right, w := Fold(batch, a, n - 1), Fold(batch, c, n - 1), batch[n - 1];
      XorSwap(left, right, w);
      XorAssociates(left, right, w);
    }
  }

  /** The object after packets of `newer` have reached it. */
  function FeedMore(b: Inbound, newer: seq<Block>, arrivals: seq<Arrival>): Inbound
    requires forall k :: 0 <= k < |arrivals| && arrivals[k].Data? ==> arrivals[k].index < |newer|
  {
    if arrivals == [] then b
    else FeedOne(FeedMore(b, newer, arrivals[..|arrivals| - 1]), newer, arrivals[|arrivals| - 1])
  }

  /** The indices the object has taken from the newer batch. */
  function Since(stale: Inbound, b: Inbound): set<nat> { b.mask - stale.mask }

  /** What `b` holds is what `stale` held and, folded into it, the blocks of `newer` taken since. */
  ghost predicate Mixed(stale: Inbound, b: Inbound, newer: seq<Block>) {
    && b.batchSize == stale.batchSize && stale.mask <= b.mask
    && Since(stale, b) <= All(|newer|)
    && b.product == Xor(stale.product, Fold(newer, Since(stale, b), |newer|))
    && (stale.parity.Some? ==> b.parity == stale.parity)
    && (stale.parity.None? && b.parity.Some? ==> b.parity.value == ParityOf(newer))
  }

  lemma MixedStep(stale: Inbound, b: Inbound, newer: seq<Block>, a: Arrival)
    requires Mixed(stale, b, newer) && (a.Data? ==> a.index < |newer|)
    ensures Mixed(stale, FeedOne(b, newer, a), newer)
  {
    var r := FeedOne(b, newer, a);
    if a.Data? && r != b {
      assert Since(stale, r) == Since(stale, b) + {a.index};
      FoldInsert(newer, Since(stale, b), a.index, |newer|);
      XorAssociates(stale.product, Fold(newer, Since(stale, b), |newer|), newer[a.index]);
    }
  }

  lemma {:induction false} FeedMoreMixes(stale: Inbound, newer: seq<Block>, arrivals: seq<Arrival>)
    requires forall k :: 0 <= k < |arrivals| && arrivals[k].Data? ==> arrivals[k].index < |newer|
    ensures Mixed(stale, FeedMore(stale, newer, arrivals), newer)
  {
    if arrivals == [] {
      FoldNothing(newer, |newer|);
      XorZero(stale.product);
      assert Since(stale, stale) == {};
    } else {
      FeedMoreMixes(stale, newer, arrivals[..|arrivals| - 1]);
      MixedStep(stale, FeedMore(stale, newer, arrivals[..|arrivals| - 1]), newer, arrivals[|arrivals| - 1]);
    }
  }

  /** `a` survives being folded with `b` and with `b`, `c` and `w` as `w` exactly when it is `c`. */
  lemma LeavesExactly(a: Block, b: Block, c: Block, w: Block)
    ensures Xor(Xor(a, b), Xor(Xor(b, c), w)) == w <==> a == c
  {
    var mix := Xor(b, c);
    XorAssociates(Xor(a, b), mix, w);
    XorAssociates(a, b, mix);
    XorAssociates(b, b, c);
    XorCancel(ZERO, b);
    XorCancel(b, b);
    XorSame(b);
    XorZero(c);
    XorZero(w);
    assert Xor(Xor(a, b), Xor(mix, w)) == Xor(Xor(a, c), w);
    if Xor(Xor(a, c), w) == w {
      XorCancel(Xor(a, c), w);
      XorSame(w);
      XorCancel(a, c);
    }
    XorSame(c);
  }

  lemma XorSame(a: Block)
    ensures Xor(a, a) == ZERO
  {
    XorCancel(ZERO, a);
    XorZero(a);
  }

  /**
   * An object that holds blocks of `older` is fed packets of `newer`, whatever
   * their number and order, until it can recover. For a packet `m` of the newer
   * batch that it has not taken, the block recovered is that packet's exactly
   * when the old blocks it holds fold to the same as the new ones that are
   * missing besides `m`; or, if it held the old parity, when the old blocks it
   * lacks fold to the same as the new ones it has taken and `m`.
   */
  lemma StaleObjectExact(
      older: seq<Block>, before: seq<Arrival>, newer: seq<Block>, after: seq<Arrival>, m: nat, now: nat)
    requires forall k :: 0 <= k < |before| && before[k].Data? ==> before[k].index < |older|
    requires forall k :: 0 <= k < |after| && after[k].Data? ==> after[k].index < |newer|
    requires Recovered(FeedMore(Feed(older, before, now), newer, after)).Some?
    requires m < |newer| && m !in Since(Feed(older, before, now), FeedMore(Feed(older, before, now), newer, after))
    ensures
      var stale := Feed(older, before, now);
      var b := FeedMore(stale, newer, after);
      var held, taken := Seen(before), Since(stale, b);
      && held == stale.mask
      && (Parity !in before ==>
            (Recovered(b) == Some(newer[m]) <==>
             Fold(older, held, |older|) == Fold(newer, All(|newer|) - taken - {m}, |newer|)))
      && (Parity in before ==>
            (Recovered(b) == Some(newer[m]) <==>
             Fold(older, All(|older|) - held, |older|) == Fold(newer, taken + {m}, |newer|)))
  {
    var stale := Feed(older, before, now);
    var b := FeedMore(stale, newer, after);
    FeedTracks(older, before, now);
    FeedMoreMixes(stale, newer, after);
    if Parity in before {
      OldParity(older, stale.mask, newer, Since(stale, b), m);
    } else {
      NewParity(older, stale.mask, newer, Since(stale, b), m);
    }
  }

  lemma NewParity(older: seq<Block>, held: set<nat>, newer: seq<Block>, taken: set<nat>, m: nat)
    requires taken <= All(|newer|) && m < |newer| && m !in taken
    ensures
      Xor(Xor(Fold(older, held, |older|), Fold(newer, taken, |newer|)), ParityOf(newer)) == newer[m] <==>
      Fold(older, held, |older|) == Fold(newer, All(|newer|) - taken - {m}, |newer|)
  {
    var rest := All(|newer|) - taken - {m};
    FoldUnion(newer, taken, rest, |newer|);
    FoldInsert(newer, taken + rest, m, |newer|);
    assert taken + rest + {m} == All(|newer|);
    LeavesExactly(Fold(older, held, |older|), Fold(newer, taken, |newer|), Fold(newer, rest, |newer|), newer[m]);
  }

  lemma OldParity(older: seq<Block>, held: set<nat>, newer: seq<Block>, taken: set<nat>, m: nat)
    requires held <= All(|older|) && m < |newer| && m !in taken
    ensures
      Xor(Xor(Fold(older, held, |older|), Fold(newer, taken, |newer|)), ParityOf(older)) == newer[m] <==>
      Fold(older, All(|older|) - held, |older|) == Fold(newer, taken + {m}, |newer|)
  {
    var lacking := All(|older|) - held;
    var a, b, c, w := Fold(older, lacking, |older|), Fold(older, held, |older|), Fold(newer, taken, |newer|), newer[m];
    FoldUnion(older, held, lacking, |older|);
    assert held + lacking == All(|older|);
    FoldInsert(newer, taken, m, |newer|);
    XorAssociates(b, c, Xor(b, a));
    XorSwap(b, c, Xor(b, a));
    XorAssociates(b, b, a);
    XorSame(b);
    XorZero(a);
    assert Xor(Xor(b, c), Xor(b, a)) == Xor(a, c);
    XorCancel(a, c);
    XorCancel(w, c);
    XorCancel(c, w);
  }

  /** The smallest case: one old block left in a batch of two. */
  lemma StaleObjectMisleads(old0: Block, old1: Block, new0: Block, new1: Block, now: nat)
    ensures
      var stale := Feed([old0, old1], [Data(0)], now);
      Recovered(FeedMore(stale, [new0, new1], [Parity])) == Some(new1) <==> old0 == new0
  {
    var older, newer := [old0, old1], [new0, new1];
    var stale := Feed(older, [Data(0)], now);
    var b := FeedMore(stale, newer, [Parity]);
    assert [Data(0)][..0] == [] && [Parity][..0] == [];
    FeedTracks(older, [Data(0)], now);
    assert Seen([Data(0)]) == {0};
    assert Parity !in [Data(0)] && |{0}| == 1;
    assert FeedMore(stale, newer, []) == stale;
    assert b == AddParity(stale, ParityOf(newer));
    assert Since(stale, b) == {} && Ready(b);
    StaleObjectExact(older, [Data(0)], newer, [Parity], 1, now);
    assert All(2) - {} - {1} == {0};
    SingleFold(older);
    SingleFold(newer);
  }

  lemma SingleFold(batch: seq<Block>)
    requires |batch| == 2
    ensures Fold(batch, {0}, 2) == batch[0]
  {
    assert Fold(batch, {0}, 1) == Xor(Fold(batch, {0}, 0), batch[0]);
    XorZero(batch[0]);
  }
}
