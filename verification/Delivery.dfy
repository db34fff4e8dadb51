/**
 * One batch on a network that loses nothing: its data packets arrive in order,
 * then its parity, and what the parity recovers is written.
 */
module Delivery {
  import opened Common
  import opened Buffer
  import opened Sending
  import opened XorFec
  import opened MissingList
  import opened BatchWindow

  // ---------------------------------------------------------------- one batch

  /** Whether the receiver gets to write packet `p`: decryption throws away an empty payload. */
  predicate Accepted(rx: Rx, p: Packet)
    requires Shaped(rx)
  {
    p.1 != [] && Written(rx, p.0, p.1).Ok?
  }

  /** The buffer after the data packets of a batch. */
  function DataIn(rx: Rx, b: Batch): (r: Rx)
    requires Shaped(rx)
    ensures Shaped(r)
  {
    if b == [] then rx
    else
      var before := DataIn(rx, b[..|b| - 1]);
      var p := b[|b| - 1];
      if p.1 == [] then before else Apply(before, WriteOp(p.0, p.1))
  }

  /** The batch object after the first `n` data packets: it is shown only what the buffer accepted. */
  function Collected(rx: Rx, b: Batch, n: nat): Inbound
    requires Shaped(rx) && Packable(b) && n <= |b|
  {
    if n == 0 then NewInbound(|b|, 0)
    else
      var before, p := Collected(rx, b, n - 1), b[n - 1];
      if Accepted(DataIn(rx, b[..n - 1]), p) then AddData(before, n - 1, Packed(p.0, p.1)) else before
  }

  /** The batch's object once the parity packet has reached it too. */
  function WithParity(rx: Rx, b: Batch): Inbound
    requires Shaped(rx) && Packable(b)
  {
    AddParity(Collected(rx, b, |b|), ParityOf(PackAll(b)))
  }

  /** A whole batch: its data packets, its parity, and the write of what the parity recovers. */
  function Deliver(rx: Rx, b: Batch): (r: Rx)
    requires Shaped(rx) && Packable(b)
    ensures Shaped(r)
  {
    match Recovered(WithParity(rx, b))
    case None => DataIn(rx, b)
    case Some(data) => Apply(DataIn(rx, b), WriteOp(Unpacked(data).0, Unpacked(data).1))
  }

  ghost predicate WholeChunks(src: seq<byte>, b: Batch) {
    forall k :: 0 <= k < |b| ==> b[k].0 % CHUNK == 0 && b[k].0 <= |src| && b[k].1 == ChunkBytes(src, b[k].0 / CHUNK)
  }

  lemma CarriesLast(b: Batch, i: nat)
    requires b != []
    ensures i in ChunksOf(b) <==> i in ChunksOf(b[..|b| - 1]) || b[|b| - 1].0 / CHUNK == i
  {
    var init := b[..|b| - 1];
    if i in ChunksOf(init) {
      var k :| 0 <= k < |init| && init[k].0 / CHUNK == i;
      assert b[k].0 / CHUNK == i;
    }
    if i in ChunksOf(b) && b[|b| - 1].0 / CHUNK != i {
      var k :| 0 <= k < |b| && b[k].0 / CHUNK == i;
      assert init[k].0 / CHUNK == i;
    }
  }

  /** Writing one whole chunk fills that chunk, whether it was missing or not, and no other. */
  lemma WriteFills(rx: Rx, src: seq<byte>, i: nat)
    requires Faithful(rx, src) && i < |rx.filled|
    ensures
      var r := Apply(rx, WriteOp(i * CHUNK, ChunkBytes(src, i)));
      Faithful(r, src) && r.filled == rx.filled[i := true] && r.head >= rx.head
  {
    OwnBytesAccepted(rx, src, i);
    if !rx.filled[i] {
      WriteKeepsFaithful(rx, src, i);
    }
  }

  lemma LastDataIn(rx: Rx, src: seq<byte>, p: Packet)
    requires Faithful(rx, src) && WholeChunks(src, [p])
    ensures
      var r := if p.1 == [] then rx else Apply(rx, WriteOp(p.0, p.1));
      && Faithful(r, src) && r.head >= rx.head && |r.filled| == |rx.filled|
      && (forall i: nat :: i < |rx.filled| ==>
            (r.filled[i] <==> rx.filled[i] || (i * CHUNK < |src| && p.0 / CHUNK == i)))
  {
    assert [p][0] == p;
    var i := p.0 / CHUNK;
    assert p == (i * CHUNK, ChunkBytes(src, i));
    if p.1 != [] {
      WriteFills(rx, src, i);
    }
  }

  /** The data packets of a batch fill exactly its non-empty chunks. */
  lemma {:induction false} DataFills(rx: Rx, src: seq<byte>, b: Batch)
    requires Faithful(rx, src) && WholeChunks(src, b)
    ensures Faithful(DataIn(rx, b), src) && DataIn(rx, b).head >= rx.head
    ensures |DataIn(rx, b).filled| == |rx.filled|
    ensures forall i: nat :: i < |rx.filled| ==>
              (DataIn(rx, b).filled[i] <==> rx.filled[i] || (i * CHUNK < |src| && i in ChunksOf(b)))
  {
    if b == [] {
    } else {
      var init, p := b[..|b| - 1], b[|b| - 1];
      DataFills(rx, src, init);
      LastDataIn(DataIn(rx, init), src, p);
      forall i: nat | i < |rx.filled|
        ensures DataIn(rx, b).filled[i] <==> rx.filled[i] || (i * CHUNK < |src| && i in ChunksOf(b))
      {
        CarriesLast(b, i);
      }
    }
  }

  /** Packet `k` of the batch is new to the receiver and not empty. */
  predicate Fresher(rx: Rx, b: Batch, k: nat) {
    k < |b| && b[k].1 != [] && b[k].0 / CHUNK < |rx.filled| && !rx.filled[b[k].0 / CHUNK]
  }

  lemma BatchFacts(src: seq<byte>, b: Batch, k: nat)
    requires FaithfulBatch(src, b) && k <= |b|
    ensures Packable(b) && WholeChunks(src, b[..k]) && WholeChunks(src, b)
  {
  }

  lemma NotBefore(src: seq<byte>, b: Batch, k: nat)
    requires FaithfulBatch(src, b) && k < |b|
    ensures b[k].0 / CHUNK !in ChunksOf(b[..k])
  {
    forall j | 0 <= j < k ensures b[..k][j].0 / CHUNK != b[k].0 / CHUNK {
      assert b[j].0 < b[k].0 && b[j].0 % CHUNK == 0 && b[k].0 % CHUNK == 0;
    }
  }

  lemma OnlyLastIsEmpty(src: seq<byte>, b: Batch, k: nat)
    requires FaithfulBatch(src, b) && k < |b|
    ensures b[k].1 == [] <==> b[k].0 == |src|
    ensures b[k].1 == [] ==> k == |b| - 1 && b[k] == (|src|, [])
    ensures b[k].0 / CHUNK < |src| / CHUNK + 1
  {
    assert b[k].0 / CHUNK * CHUNK == b[k].0;
    assert k < |b| - 1 ==> b[k].0 < b[|b| - 1].0;
  }

  lemma AcceptedIff(rx: Rx, src: seq<byte>, p: Packet)
    requires Faithful(rx, src) && WholeChunks(src, [p])
    ensures p.0 / CHUNK < |rx.filled|
    ensures Accepted(rx, p) <==> p.1 != [] && !rx.filled[p.0 / CHUNK]
  {
    assert [p][0] == p;
    assert p == (p.0 / CHUNK * CHUNK, ChunkBytes(src, p.0 / CHUNK));
    OwnBytesAccepted(rx, src, p.0 / CHUNK);
  }

  /** A packet is accepted in its turn exactly when it was new before the batch came. */
  lemma AcceptedInTurn(rx: Rx, src: seq<byte>, b: Batch, k: nat)
    requires Faithful(rx, src) && FaithfulBatch(src, b) && k < |b|
    ensures Accepted(DataIn(rx, b[..k]), b[k]) <==> Fresher(rx, b, k)
  {
    var i := b[k].0 / CHUNK;
    BatchFacts(src, b, k);
    DataFills(rx, src, b[..k]);
    NotBefore(src, b, k);
    assert WholeChunks(src, [b[k]]) by {
      assert [b[k]][0] == b[k];
    }
    AcceptedIff(DataIn(rx, b[..k]), src, b[k]);
    assert DataIn(rx, b[..k]).filled[i] <==> rx.filled[i];
  }

  /** The object has taken the new packets among the first `n`, no other, and no parity. */
  ghost predicate TookNew(obj: Inbound, rx: Rx, b: Batch, n: nat)
    requires Packable(b)
  {
    && Tracks(obj, PackAll(b)) && obj.parity.None?
    && (forall k: nat :: k in obj.mask <==> k < n && Fresher(rx, b, k))
  }

  lemma TakeOneMore(obj: Inbound, rx: Rx, b: Batch, n: nat)
    requires Packable(b) && n < |b| && TookNew(obj, rx, b, n)
    ensures TookNew(if Fresher(rx, b, n) then AddData(obj, n, Packed(b[n].0, b[n].1)) else obj, rx, b, n + 1)
  {
    if Fresher(rx, b, n) {
      AddTracks(obj, PackAll(b), n);
      var r := AddData(obj, n, Packed(b[n].0, b[n].1));
      forall k: nat ensures k in r.mask <==> k < n + 1 && Fresher(rx, b, k) {
        assert k in r.mask <==> k in obj.mask || k == n;
      }
    }
  }

  /** One packet more: the object is shown it exactly when it was new before the batch came. */
  lemma CollectedStep(rx: Rx, src: seq<byte>, b: Batch, n: nat)
    requires Faithful(rx, src) && FaithfulBatch(src, b) && Packable(b) && 0 < n <= |b|
    ensures
      var before := Collected(rx, b, n - 1);
      Collected(rx, b, n) ==
      if Fresher(rx, b, n - 1) then AddData(before, n - 1, Packed(b[n - 1].0, b[n - 1].1)) else before
  {
    assert Accepted(DataIn(rx, b[..n - 1]), b[n - 1]) <==> Fresher(rx, b, n - 1) by {
      AcceptedInTurn(rx, src, b, n - 1);
    }
  }

  /** The batch object has the new packets and no other. */
  lemma {:induction false} CollectedMeaning(rx: Rx, src: seq<byte>, b: Batch, n: nat)
    requires Faithful(rx, src) && FaithfulBatch(src, b) && Packable(b) && n <= |b|
    ensures TookNew(Collected(rx, b, n), rx, b, n)
  {
    if n == 0 {
      NewTracks(PackAll(b), 0);
    } else {
      CollectedMeaning(rx, src, b, n - 1);
      CollectedStep(rx, src, b, n);
      TakeOneMore(Collected(rx, b, n - 1), rx, b, n - 1);
    }
  }

  /** The batch ends in the empty chunk at the end of the buffer, and everything else in it is new. */
  ghost predicate EndsAlone(src: seq<byte>, rx: Rx, b: Batch) {
    && b != [] && b[|b| - 1].0 == |src|
    && (forall k: nat :: k < |b| - 1 ==> Fresher(rx, b, k))
  }

  lemma UnpackOne(b: Batch, m: nat)
    requires Packable(b) && m < |b| && b[m].0 < U32
    ensures Unpacked(PackAll(b)[m]) == b[m]
  {
    UnpackPacked(b[m].0, b[m].1);
  }

  /** Whatever the parity recovers is the one packet that the object has not taken. */
  lemma RecoversUntaken(obj: Inbound, b: Batch) returns (m: nat)
    requires Packable(b) && Tracks(obj, PackAll(b)) && obj.parity.None?
    requires forall k :: 0 <= k < |b| ==> b[k].0 < U32
    requires Recovered(AddParity(obj, ParityOf(PackAll(b)))).Some?
    ensures m < |b| && Unpacked(Recovered(AddParity(obj, ParityOf(PackAll(b)))).value) == b[m]
    ensures obj.mask == All(|b|) - {m}
  {
    m := TracksRecovers(AddParity(obj, ParityOf(PackAll(b))), PackAll(b));
    UnpackOne(b, m);
  }

  /** A batch of which all but the last packet were new has enough for its parity. */
  lemma AllButLastReady(obj: Inbound, rx: Rx, b: Batch)
    requires Packable(b) && TookNew(obj, rx, b, |b|) && b != []
    requires !Fresher(rx, b, |b| - 1) && forall k: nat :: k < |b| - 1 ==> Fresher(rx, b, k)
    ensures Recovered(AddParity(obj, ParityOf(PackAll(b)))).Some?
  {
    var n := |b|;
    assert obj.mask == All(n) - {n - 1};
    assert |All(n) - {n - 1}| == n - 1;
  }

  /** What no delivery undoes. */
  ghost predicate Kept(src: seq<byte>, rx: Rx, r: Rx) {
    && Faithful(r, src) && r.head >= rx.head && |r.filled| == |rx.filled|
    && (forall j: nat :: j < |rx.filled| && rx.filled[j] ==> r.filled[j])
  }

  /** The one packet not taken is the empty one of a batch that ends alone, or a chunk that was there before. */
  lemma UntakenChunk(obj: Inbound, rx: Rx, src: seq<byte>, b: Batch, m: nat)
    requires FaithfulBatch(src, b) && Packable(b) && |rx.filled| == |src| / CHUNK + 1
    requires TookNew(obj, rx, b, |b|) && m < |b| && obj.mask == All(|b|) - {m}
    ensures b[m].0 / CHUNK < |rx.filled|
    ensures if EndsAlone(src, rx, b) then b[m] == (|src|, []) else rx.filled[b[m].0 / CHUNK]
  {
    OnlyLastIsEmpty(src, b, m);
    assert m !in obj.mask && !Fresher(rx, b, m);
    if b[m].1 == [] {
      forall k: nat | k < |b| - 1 ensures Fresher(rx, b, k) {
        assert k in obj.mask;
      }
    } else {
      NotAloneBefore(rx, src, b, m);
    }
  }

  lemma NotAloneBefore(rx: Rx, src: seq<byte>, b: Batch, m: nat)
    requires FaithfulBatch(src, b) && m < |b| && b[m].1 != [] && !Fresher(rx, b, m)
    ensures !EndsAlone(src, rx, b)
  {
    OnlyLastIsEmpty(src, b, |b| - 1);
  }

  /** What recovery writes: the empty chunk when the batch ends alone, else a chunk that was there before. */
  lemma RecoveredChunk(rx: Rx, src: seq<byte>, b: Batch) returns (m: nat)
    requires Faithful(rx, src) && FaithfulBatch(src, b) && |src| < U32 && Packable(b)
    requires Recovered(WithParity(rx, b)).Some?
    ensures m < |b| && Unpacked(Recovered(WithParity(rx, b)).value) == b[m]
    ensures b[m].0 / CHUNK < |rx.filled|
    ensures if EndsAlone(src, rx, b) then b[m] == (|src|, []) else rx.filled[b[m].0 / CHUNK]
  {
    var obj := Collected(rx, b, |b|);
    CollectedMeaning(rx, src, b, |b|);
    m := RecoversUntaken(obj, b);
    UntakenChunk(obj, rx, src, b, m);
  }

  /** With or without the write of what was recovered, the data packets' outcome stands. */
  lemma DeliverCases(rx: Rx, src: seq<byte>, b: Batch)
    requires Faithful(rx, src) && FaithfulBatch(src, b) && |src| < U32 && Packable(b)
    ensures Kept(src, DataIn(rx, b), Deliver(rx, b))
    ensures |src| / CHUNK < |rx.filled| == |DataIn(rx, b).filled|
    ensures Deliver(rx, b).filled ==
            if EndsAlone(src, rx, b) then DataIn(rx, b).filled[|src| / CHUNK := true] else DataIn(rx, b).filled
  {
    BatchFacts(src, b, 0);
    DataFills(rx, src, b);
    if EndsAlone(src, rx, b) {
      CollectedMeaning(rx, src, b, |b|);
      OnlyLastIsEmpty(src, b, |b| - 1);
      AllButLastReady(Collected(rx, b, |b|), rx, b);
    }
    if Recovered(WithParity(rx, b)).Some? {
      var m := RecoveredChunk(rx, src, b);
      WriteOwn(DataIn(rx, b), src, b, m);
    }
  }

  lemma WriteOwn(rx: Rx, src: seq<byte>, b: Batch, m: nat)
    requires Faithful(rx, src) && FaithfulBatch(src, b) && m < |b|
    ensures b[m].0 / CHUNK < |rx.filled|
    ensures
      var r := Apply(rx, WriteOp(b[m].0, b[m].1));
      Kept(src, rx, r) && r.filled == rx.filled[b[m].0 / CHUNK := true]
  {
    var i := b[m].0 / CHUNK;
    assert b[m] == (i * CHUNK, ChunkBytes(src, i));
    WriteFills(rx, src, i);
  }

  /**
   * A delivered batch fills its own non-empty chunks and, by its parity, the
   * empty one at the end when it ends alone; it fills nothing else.
   */
  lemma DeliverFills(rx: Rx, src: seq<byte>, b: Batch)
    requires Faithful(rx, src) && FaithfulBatch(src, b) && |src| < U32
    ensures Packable(b) && Kept(src, rx, Deliver(rx, b))
    ensures forall i: nat :: i < |rx.filled| ==>
              (Deliver(rx, b).filled[i] <==>
               || rx.filled[i]
               || (i * CHUNK < |src| && i in ChunksOf(b))
               || (i * CHUNK == |src| && EndsAlone(src, rx, b)))
  {
    BatchFacts(src, b, 0);
    DataFills(rx, src, b);
    DeliverCases(rx, src, b);
    if EndsAlone(src, rx, b) {
      OnlyLastIsEmpty(src, b, |b| - 1);
      assert |src| / CHUNK * CHUNK == |src|;
    }
  }

  lemma {:induction false} DataRests(rx: Rx, b: Batch)
    requires HeadResting(rx, 0)
    ensures HeadResting(DataIn(rx, b), 0)
  {
    if b == [] {
    } else {
      DataRests(rx, b[..|b| - 1]);
      ApplyRests(DataIn(rx, b[..|b| - 1]), 0, WriteOp(b[|b| - 1].0, b[|b| - 1].1));
    }
  }

  lemma DeliverRests(rx: Rx, b: Batch)
    requires HeadResting(rx, 0) && Packable(b)
    ensures HeadResting(Deliver(rx, b), 0)
  {
    DataRests(rx, b);
    match Recovered(WithParity(rx, b))
    case None =>
    case Some(data) => ApplyRests(DataIn(rx, b), 0, WriteOp(Unpacked(data).0, Unpacked(data).1));
  }

  // ---------------------------------------------------------------- what its pruning reports

  /** The object knows its place from the packets it took. */
  lemma {:induction false} CollectedLocates(rx: Rx, src: seq<byte>, b: Batch, n: nat)
    requires Faithful(rx, src) && FaithfulBatch(src, b) && Packable(b) && |src| < U32 && n <= |b|
    ensures Located(Collected(rx, b, n), StartsOf(b))
  {
    if n == 0 {
    } else {
      var before := Collected(rx, b, n - 1);
      CollectedLocates(rx, src, b, n - 1);
      BatchFits(src, b);
      assert Tracks(before, PackAll(b)) by {
        CollectedMeaning(rx, src, b, n - 1);
      }
      LocateOneMore(before, b, n - 1);
      CollectedStep(rx, src, b, n);
    }
  }

  lemma BatchFits(src: seq<byte>, b: Batch)
    requires FaithfulBatch(src, b) && |src| < U32
    ensures Fits(b)
  {
  }

  lemma LocateOneMore(obj: Inbound, b: Batch, n: nat)
    requires Fits(b) && Packable(b) && n < |b| && Tracks(obj, PackAll(b)) && Located(obj, StartsOf(b))
    ensures Located(AddData(obj, n, Packed(b[n].0, b[n].1)), StartsOf(b))
  {
    AddLocates(obj, b, n);
  }

  /** The first packet of the batch that was new to the receiver. */
  predicate FirstNew(rx: Rx, b: Batch, j: nat) { Fresher(rx, b, j) && forall k :: 0 <= k < j ==> !Fresher(rx, b, k) }

  lemma {:induction false} FirstNewExists(rx: Rx, b: Batch, k: nat)
    requires Fresher(rx, b, k)
    ensures exists j: nat :: j <= k && FirstNew(rx, b, j)
  {
    if forall i :: 0 <= i < k ==> !Fresher(rx, b, i) {
      assert FirstNew(rx, b, k);
    } else {
      var i :| 0 <= i < k && Fresher(rx, b, i);
      FirstNewExists(rx, b, i);
    }
  }

  /** From packet `j` on the batch is consecutive up to the end of the source. */
  predicate RunsToEnd(src: seq<byte>, b: Batch, j: nat)
    requires j < |b|
  {
    b[j].0 + (|b| - 1 - j) * CHUNK == |src|
  }

  /**
   * A delivered batch that carries the empty chunk at the end reports it missing
   * when pruned if and only if the batch is consecutive from its first new packet on.
   */
  lemma EndListedIff(rx: Rx, src: seq<byte>, b: Batch)
    requires Faithful(rx, src) && FaithfulBatch(src, b) && Packable(b) && |src| < U32
    requires b != [] && b[|b| - 1].0 == |src|
    ensures |src| in MissingPositions(WithParity(rx, b)) <==>
            exists j: nat :: FirstNew(rx, b, j) && RunsToEnd(src, b, j)
  {
    CollectedMeaning(rx, src, b, |b|);
    CollectedLocates(rx, src, b, |b|);
    BatchStarts(src, b);
    OnlyLastIsEmpty(src, b, |b| - 1);
    EndListedFor(Collected(rx, b, |b|), rx, src, b);
  }

  lemma EndListedFor(obj: Inbound, rx: Rx, src: seq<byte>, b: Batch)
    requires AscendingChunks(StartsOf(b)) && b != [] && b[|b| - 1].0 == |src|
    requires obj.batchSize == |b| && Located(obj, StartsOf(b))
    requires !Fresher(rx, b, |b| - 1) && forall k: nat :: k in obj.mask <==> Fresher(rx, b, k)
    ensures |src| in MissingPositions(obj) <==> exists j: nat :: FirstNew(rx, b, j) && RunsToEnd(src, b, j)
  {
    LastListedIff(StartsOf(b), obj);
    AgreeIffRuns(rx, src, b, obj.mask);
  }

  lemma AgreeIffRuns(rx: Rx, src: seq<byte>, b: Batch, mask: set<nat>)
    requires AscendingChunks(StartsOf(b)) && b != [] && b[|b| - 1].0 == |src|
    requires forall k: nat :: k in mask <==> Fresher(rx, b, k)
    ensures AgreeWithLast(StartsOf(b), mask) <==> exists j: nat :: FirstNew(rx, b, j) && RunsToEnd(src, b, j)
  {
    FirstNewMeaning(rx, b, mask);
    forall j: nat | FirstNew(rx, b, j) ensures RunsToEnd(src, b, j) <==> AgreeWithLast(StartsOf(b), mask) {
      AgreeFromFirst(StartsOf(b), mask, j);
    }
  }

  lemma BatchStarts(src: seq<byte>, b: Batch)
    requires FaithfulBatch(src, b)
    ensures AscendingChunks(StartsOf(b))
  {
  }

  lemma FirstNewMeaning(rx: Rx, b: Batch, mask: set<nat>)
    requires forall k: nat :: k in mask <==> Fresher(rx, b, k)
    ensures mask != {} ==> exists j: nat :: FirstNew(rx, b, j)
    ensures forall j: nat :: FirstNew(rx, b, j) ==> j in mask && forall i :: i in mask ==> j <= i < |b|
  {
    if mask != {} {
      var k :| k in mask;
      assert Fresher(rx, b, k);
      FirstNewExists(rx, b, k);
    }
    forall j: nat, i | FirstNew(rx, b, j) && i in mask ensures j <= i < |b| {
      assert Fresher(rx, b, i);
    }
  }

  /** No other batch ever reports the end, however it was inferred to lie. */
  lemma OthersDoNotListEnd(rx: Rx, src: seq<byte>, b: Batch)
    requires Faithful(rx, src) && FaithfulBatch(src, b) && Packable(b) && |src| < U32
    requires forall k :: 0 <= k < |b| ==> b[k].0 < |src|
    ensures |src| !in MissingPositions(WithParity(rx, b))
  {
    assert Located(WithParity(rx, b), StartsOf(b)) by {
      CollectedLocates(rx, src, b, |b|);
    }
    assert WithParity(rx, b).batchSize == |StartsOf(b)| by {
      CollectedMeaning(rx, src, b, |b|);
    }
    BatchStarts(src, b);
    ListStaysInside(StartsOf(b), WithParity(rx, b), |src|);
  }
}
