/**
 * What the pruning of a batch reports as missing, for batches of any shape: the
 * list is inferred from the packets that came, as the active range is.
 */
module MissingList {
  import opened Common
  import opened BatchWindow
  import opened XorFec

  /** What a batch object knows of its place: the base of some packet it took, and whether all agree. */
  ghost predicate Located(b: Inbound, starts: seq<nat>) {
    && (forall j :: j in b.mask ==> j < |starts|)
    && (b.mask == {} ==> b.base == UNKNOWN)
    && (b.mask != {} ==> exists j :: j in b.mask && b.base.at == Some(DerivedBase(starts[j], j)))
    && (b.base.contiguous <==> forall j :: j in b.mask ==> Some(DerivedBase(starts[j], j)) == b.base.at)
  }

  ghost predicate Fits(packets: seq<(nat, seq<byte>)>) {
    forall k :: 0 <= k < |packets| ==> packets[k].0 < U32 && |packets[k].1| <= CHUNK
  }

  lemma AddLocates(b: Inbound, packets: seq<(nat, seq<byte>)>, j: nat)
    requires Fits(packets) && j < |packets| && Tracks(b, PackAll(packets)) && Located(b, StartsOf(packets))
    ensures Located(AddData(b, j, PackAll(packets)[j]), StartsOf(packets))
  {
    var starts := StartsOf(packets);
    var r := AddData(b, j, PackAll(packets)[j]);
    AddTracks(b, PackAll(packets), j);
    UnpackPacked(packets[j].0, packets[j].1);
    if j !in b.mask {
      assert r.base == Track(b.base, j, starts[j]);
      assert j in r.mask;
    }
  }

  lemma {:induction false} FeedLocates(packets: seq<(nat, seq<byte>)>, arrivals: seq<Arrival>, now: nat)
    requires Fits(packets)
    requires forall k :: 0 <= k < |arrivals| && arrivals[k].Data? ==> arrivals[k].index < |packets|
    ensures Located(Feed(PackAll(packets), arrivals, now), StartsOf(packets))
  {
    if arrivals == [] {
    } else {
      var init, last := arrivals[..|arrivals| - 1], arrivals[|arrivals| - 1];
      FeedLocates(packets, init, now);
      FeedTracks(PackAll(packets), init, now);
      if last.Data? {
        AddLocates(Feed(PackAll(packets), init, now), packets, last.index);
      }
    }
  }

  /** In an ascending batch the base that a packet implies only grows with its index. */
  lemma BasesRise(starts: seq<nat>, j: nat, k: nat)
    requires AscendingChunks(starts) && j <= k < |starts|
    ensures starts[j] >= j * CHUNK && starts[k] >= k * CHUNK
    ensures DerivedBase(starts[j], j) == starts[j] - j * CHUNK <= starts[k] - k * CHUNK == DerivedBase(starts[k], k)
  {
    BaseNeverSaturates(starts, j);
    BaseNeverSaturates(starts, k);
    AscendingGap(starts, j, k);
  }

  /** The list holds the positions of the packets that did not come, and no other. */
  ghost predicate ListExact(b: Inbound, starts: seq<nat>) {
    forall p :: p in MissingPositions(b) <==> exists k :: 0 <= k < |starts| && k !in b.mask && starts[k] == p
  }

  /** An exact list that is not empty matches the missing packets one by one. */
  lemma {:induction false} UnseenMatch(starts: seq<nat>, b: Inbound, base: nat, k: nat)
    requires AscendingChunks(starts) && b.batchSize == |starts| && k < |starts| && k !in b.mask
    requires ListExact(b, starts) && b.base == Base(Some(base), true)
    ensures starts[k] == base + k * CHUNK
  {
    forall j: nat | j < k && j !in b.mask ensures starts[j] == base + j * CHUNK {
      UnseenMatch(starts, b, base, j);
    }
    assert base + k * CHUNK in MissingPositions(b);
    var i: nat :| i < |starts| && i !in b.mask && starts[i] == base + k * CHUNK;
    assert starts[k] in MissingPositions(b);
    var j: nat :| j < |starts| && j !in b.mask && starts[k] == base + j * CHUNK;
  }

  /**
   * For an ascending batch of which some packet came, the list is exact if and
   * only if the batch is consecutive or every packet of it came.
   */
  lemma ListExactIff(starts: seq<nat>, b: Inbound)
    requires AscendingChunks(starts) && b.batchSize == |starts| && Located(b, starts) && b.mask != {}
    ensures ListExact(b, starts) <==> Consecutive(starts) || All(|starts|) <= b.mask
  {
    if All(|starts|) <= b.mask {
      NothingUnseen(starts, b);
    } else if Consecutive(starts) {
      ConsecutiveListed(starts, b);
    } else if ListExact(b, starts) {
      ExactListConsecutive(starts, b);
    }
  }

  lemma NothingUnseen(starts: seq<nat>, b: Inbound)
    requires b.batchSize == |starts| && All(|starts|) <= b.mask
    ensures ListExact(b, starts)
  {
    forall k: nat | k < |starts| ensures k in b.mask {
      assert k in All(|starts|);
    }
  }

  lemma ConsecutiveListed(starts: seq<nat>, b: Inbound)
    requires AscendingChunks(starts) && b.batchSize == |starts| && Located(b, starts) && b.mask != {}
    requires Consecutive(starts)
    ensures ListExact(b, starts)
  {
    forall j | j in b.mask ensures DerivedBase(starts[j], j) == starts[0] {
      BaseNeverSaturates(starts, j);
    }
    assert b.base == Base(Some(starts[0]), true);
  }

  lemma ExactListConsecutive(starts: seq<nat>, b: Inbound)
    requires AscendingChunks(starts) && b.batchSize == |starts| && Located(b, starts) && b.mask != {}
    requires ListExact(b, starts) && !(All(|starts|) <= b.mask)
    ensures Consecutive(starts)
  {
    var u :| u in All(|starts|) && u !in b.mask;
    assert starts[u] in MissingPositions(b);
    var base := b.base.at.value;
    assert b.base == Base(Some(base), true);
    forall k: nat | k < |starts| ensures starts[k] == base + k * CHUNK {
      if k in b.mask {
        BaseNeverSaturates(starts, k);
      } else {
        UnseenMatch(starts, b, base, k);
      }
    }
  }

  /** The same for what a batch object has after any arrivals, in any order and with any duplicates. */
  lemma MissingPositionsExactIff(packets: seq<(nat, seq<byte>)>, arrivals: seq<Arrival>, now: nat)
    requires Fits(packets) && AscendingChunks(StartsOf(packets))
    requires forall k :: 0 <= k < |arrivals| && arrivals[k].Data? ==> arrivals[k].index < |packets|
    requires Seen(arrivals) != {}
    ensures ListExact(Feed(PackAll(packets), arrivals, now), StartsOf(packets)) <==>
            Consecutive(StartsOf(packets)) || Seen(arrivals) == All(|packets|)
  {
    FeedTracks(PackAll(packets), arrivals, now);
    FeedLocates(packets, arrivals, now);
    ListExactIff(StartsOf(packets), Feed(PackAll(packets), arrivals, now));
  }

  /** Some packet came, and each lies as far before the last one as its index says. */
  ghost predicate AgreeWithLast(starts: seq<nat>, mask: set<nat>)
    requires starts != []
  {
    && mask != {}
    && forall j :: j in mask ==> j < |starts| && starts[j] + (|starts| - 1 - j) * CHUNK == starts[|starts| - 1]
  }

  /** All that came agree with the last packet exactly when the first of them does. */
  lemma AgreeFromFirst(starts: seq<nat>, mask: set<nat>, j: nat)
    requires AscendingChunks(starts) && j in mask && forall i :: i in mask ==> j <= i < |starts|
    ensures AgreeWithLast(starts, mask) <==> starts[j] + (|starts| - 1 - j) * CHUNK == starts[|starts| - 1]
  {
    if starts[j] + (|starts| - 1 - j) * CHUNK == starts[|starts| - 1] {
      forall i | i in mask ensures starts[i] + (|starts| - 1 - i) * CHUNK == starts[|starts| - 1] {
        AscendingGap(starts, j, i);
        AscendingGap(starts, i, |starts| - 1);
      }
    }
  }

  /**
   * The last packet of an ascending batch did not come. Its position is listed
   * if and only if every packet that came lies as far before it as its index says.
   */
  lemma LastListedIff(starts: seq<nat>, b: Inbound)
    requires AscendingChunks(starts) && starts != [] && b.batchSize == |starts| && Located(b, starts)
    requires |starts| - 1 !in b.mask
    ensures starts[|starts| - 1] in MissingPositions(b) <==> AgreeWithLast(starts, b.mask)
  {
    if starts[|starts| - 1] in MissingPositions(b) {
      LastListedAgrees(starts, b);
    }
    if AgreeWithLast(starts, b.mask) {
      AgreedListsLast(starts, b);
    }
  }

  lemma LastListedAgrees(starts: seq<nat>, b: Inbound)
    requires AscendingChunks(starts) && starts != [] && b.batchSize == |starts| && Located(b, starts)
    requires starts[|starts| - 1] in MissingPositions(b)
    ensures AgreeWithLast(starts, b.mask)
  {
    var n := |starts|;
    var k: nat :| k < n && k !in b.mask && starts[n - 1] == b.base.at.value + k * CHUNK;
    var i :| i in b.mask && b.base.at == Some(DerivedBase(starts[i], i));
    BasesRise(starts, i, n - 1);
    forall j | j in b.mask ensures j < n && starts[j] + (n - 1 - j) * CHUNK == starts[n - 1] {
      BaseNeverSaturates(starts, j);
    }
  }

  lemma AgreedListsLast(starts: seq<nat>, b: Inbound)
    requires AscendingChunks(starts) && starts != [] && b.batchSize == |starts| && Located(b, starts)
    requires |starts| - 1 !in b.mask && AgreeWithLast(starts, b.mask)
    ensures starts[|starts| - 1] in MissingPositions(b)
  {
    var n := |starts|;
    BaseNeverSaturates(starts, n - 1);
    var base := starts[n - 1] - (n - 1) * CHUNK;
    forall j | j in b.mask ensures DerivedBase(starts[j], j) == base {
      BaseNeverSaturates(starts, j);
    }
    assert b.base == Base(Some(base), true);
  }

  /** What is listed for an ascending batch lies below any bound on its packets. */
  lemma ListStaysInside(starts: seq<nat>, b: Inbound, bound: nat)
    requires AscendingChunks(starts) && b.batchSize == |starts| && Located(b, starts)
    requires forall k :: 0 <= k < |starts| ==> starts[k] < bound
    ensures bound !in MissingPositions(b)
  {
    if b.mask != {} {
      var j :| j in b.mask && b.base.at == Some(DerivedBase(starts[j], j));
      forall k: nat | k < |starts| ensures b.base.at.value + k * CHUNK < bound {
        if j <= k {
          BasesRise(starts, j, k);
        } else {
          BaseNeverSaturates(starts, j);
        }
      }
    }
  }
}
