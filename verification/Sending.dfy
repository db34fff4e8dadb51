/**
 * The sender's paced loop as a function on its state: fresh chunks first, then
 * queued extras, at most one batch per tick; events move the head and queue.
 */
module Sending {
  import opened Common
  import opened Ranges
  import opened BatchWindow
  import opened XorFec

  type Packet = (nat, seq<byte>)
  type Batch = seq<Packet>

  /**
   * `open` says the session is still in this stream's state and `closed` that
   * the application was told of its end; `playing` and the rest are the loop's own.
   */
  datatype Sender = Sender(
    head: nat, extras: set<nat>, lastSent: nat, playing: bool, paused: bool, open: bool, closed: bool, batches: nat)

  /** Every payload fits a parity block. */
  predicate Packable(b: Batch) { forall k :: 0 <= k < |b| ==> |b[k].1| <= CHUNK }

  datatype Event =
    | Pause | Play | Seek(to: nat) | Stop | PeerClosed
    | Retransmit(ranges: seq<ByteRange>)
    | SetPaused(paused: bool)

  const START: Sender := Sender(0, {}, 0, true, false, true, false, 0)

  predicate HeadOk(src: seq<byte>, head: nat) {
    head <= |src| && (head % CHUNK == 0 || head == |src|)
  }

  // ---------------------------------------------------------------- reading

  function NextHead(src: seq<byte>, head: nat): nat
    requires head <= |src|
  {
    Min(|src|, head + CHUNK)
  }

  /** Up to `n` chunks from the head, and the head past them. */
  function Take(src: seq<byte>, head: nat, n: nat): (r: (Batch, nat))
    requires head <= |src|
    ensures head <= r.1 <= |src| && (n > 0 && head < |src| ==> head < r.1)
    ensures |r.0| <= n
    decreases n
  {
    if n == 0 || head >= |src| then ([], head)
    else
      var rest := Take(src, NextHead(src, head), n - 1);
      ([(head, src[head..NextHead(src, head)])] + rest.0, rest.1)
  }

  /** The packet for one requested range, clamped to a chunk and to the buffer; none past the end. */
  function ReadRange(src: seq<byte>, r: ByteRange): Option<Packet> {
    var end := Min(r.start + Min(r.length, CHUNK), |src|);
    if r.start <= end then Some((r.start, src[r.start..end])) else None
  }

  /** A range is refused only when it starts past the end; else it gives the bytes from its start, a chunk at most. */
  lemma ReadRangeExact(src: seq<byte>, r: ByteRange)
    ensures ReadRange(src, r).Some? <==> r.start <= |src|
    ensures
      ReadRange(src, r).Some? ==>
        var p := ReadRange(src, r).value;
        && p.0 == r.start && |p.1| == Min(Min(r.length, CHUNK), |src| - r.start)
        && forall k :: 0 <= k < |p.1| ==> p.1[k] == src[r.start + k]
  {
  }

  function ReadRanges(src: seq<byte>, rs: seq<ByteRange>): Batch {
    if rs == [] then []
    else (match ReadRange(src, rs[0]) case Some(p) => [p] case None => []) + ReadRanges(src, rs[1..])
  }

  // ---------------------------------------------------------------- ordered set

  lemma {:induction false} LeastExists(s: set<nat>, y: nat)
    requires y in s
    ensures exists m :: m in s && forall x :: x in s ==> m <= x
    decreases y
  {
    if x :| x in s && x < y {
      LeastExists(s, x);
    }
  }

  function Least(s: set<nat>): (m: nat)
    requires s != {}
    ensures m in s && forall x :: x in s ==> m <= x
  {
    assert exists m :: m in s && forall x :: x in s ==> m <= x by {
      var y :| y in s;
      LeastExists(s, y);
    }
    var m :| m in s && forall x :: x in s ==> m <= x;
    m
  }

  /** The `n` smallest elements in ascending order. */
  function Smallest(s: set<nat>, n: nat): seq<nat>
    decreases n
  {
    if n == 0 || s == {} then []
    else
      var m := Least(s);
      [m] + Smallest(s - {m}, n - 1)
  }

  ghost predicate Rising(r: seq<nat>) { forall j, k :: 0 <= j < k < |r| ==> r[j] < r[k] }

  /** `r` is `n` elements of `s`, or all it has, in rising order, and nothing left out is smaller. */
  ghost predicate IsSmallest(s: set<nat>, n: nat, r: seq<nat>) {
    && |r| == Min(n, |s|)
    && Rising(r) && Elements(r) <= s
    && |s - Elements(r)| == |s| - |r|
    && Below(r, s - Elements(r))
  }

  ghost predicate Below(r: seq<nat>, left: set<nat>) { forall k, x :: 0 <= k < |r| && x in left ==> r[k] < x }

  lemma ConsRising(m: nat, rest: seq<nat>)
    requires Rising(rest) && forall x :: x in Elements(rest) ==> m < x
    ensures Rising([m] + rest)
  {
    forall k | 0 <= k < |rest| ensures m < rest[k] {
      assert rest[k] in Elements(rest);
    }
  }

  lemma ElementsCons(m: nat, rest: seq<nat>)
    ensures Elements([m] + rest) == {m} + Elements(rest)
  {
  }

  lemma ConsBelow(m: nat, rest: seq<nat>, left: set<nat>)
    requires Below(rest, left) && forall x :: x in left ==> m < x
    ensures Below([m] + rest, left)
  {
    forall k, x | 0 <= k < |rest| + 1 && x in left ensures ([m] + rest)[k] < x {
      assert k > 0 ==> ([m] + rest)[k] == rest[k - 1];
    }
  }

  lemma ConsCounts(s: set<nat>, m: nat, rest: seq<nat>)
    requires m in s && Elements(rest) <= s - {m} && |s - {m} - Elements(rest)| == |s - {m}| - |rest|
    ensures Elements([m] + rest) <= s && s - Elements([m] + rest) == s - {m} - Elements(rest)
    ensures |s - {m}| == |s| - 1 && |s - Elements([m] + rest)| == |s| - |[m] + rest|
  {
    ElementsCons(m, rest);
    assert s - Elements([m] + rest) == s - {m} - Elements(rest);
  }

  lemma ConsSmallest(s: set<nat>, n: nat, m: nat, rest: seq<nat>)
    requires n > 0 && m in s && (forall x :: x in s ==> m <= x)
    requires IsSmallest(s - {m}, n - 1, rest)
    ensures IsSmallest(s, n, [m] + rest)
  {
    var r, left := [m] + rest, s - {m} - Elements(rest);
    assert Rising(r) by {
      ConsRising(m, rest);
    }
    assert Below(r, left) by {
      ConsBelow(m, rest, left);
    }
    ConsCounts(s, m, rest);
  }

  lemma SmallestCons(s: set<nat>, n: nat)
    requires n > 0 && s != {} && IsSmallest(s - {Least(s)}, n - 1, Smallest(s - {Least(s)}, n - 1))
    ensures IsSmallest(s, n, Smallest(s, n))
  {
    var m := Least(s);
    var rest := Smallest(s - {m}, n - 1);
    assert Smallest(s, n) == [m] + rest;
    ConsSmallest(s, n, m, rest);
  }

  lemma NothingSmallest(s: set<nat>, n: nat)
    requires n == 0 || s == {}
    ensures IsSmallest(s, n, Smallest(s, n))
  {
    assert Smallest(s, n) == [] && s - Elements([]) == s;
  }

  lemma {:induction false} SmallestMeaning(s: set<nat>, n: nat)
    ensures IsSmallest(s, n, Smallest(s, n))
    decreases n
  {
    if n == 0 || s == {} {
      NothingSmallest(s, n);
    } else {
      SmallestMeaning(s - {Least(s)}, n - 1);
      SmallestCons(s, n);
    }
  }

  function ChunkRange(i: nat): ByteRange { ByteRange(i * CHUNK, CHUNK) }

  function ChunkRanges(idxs: seq<nat>): seq<ByteRange> {
    seq(|idxs|, k requires 0 <= k < |idxs| => ChunkRange(idxs[k]))
  }

  // ---------------------------------------------------------------- tick

  /** Neither read of the buffer is refused. */
  predicate Sends(s: Sender) { s.open && !s.closed && !s.paused }

  /** With no fresh chunk left, read the smallest extras again and drop them from the queue. */
  function SendExtras(src: seq<byte>, s: Sender): (Sender, Batch) {
    var idxs := Smallest(s.extras, BATCH);
    var extras := s.extras - Elements(idxs);
    var again := ReadRanges(src, ChunkRanges(idxs));
    if again == [] then (s.(extras := extras), [])
    else (s.(extras := extras, lastSent := again[|again| - 1].0, batches := s.batches + 1), again)
  }

  /** One tick of a playing loop: the new state and the batch it emits, `[]` for none. */
  function Tick(src: seq<byte>, s: Sender): (r: (Sender, Batch))
    requires s.head <= |src|
    ensures r.0.head <= |src|
  {
    if !Sends(s) then (s, [])
    else
      var (upcoming, head) := Take(src, s.head, BATCH);
      if upcoming != [] then
        (s.(head := head, lastSent := upcoming[|upcoming| - 1].0, batches := s.batches + 1), upcoming)
      else SendExtras(src, s)
  }

  function IndexRange(a: nat, b: nat): (r: set<nat>)
    ensures forall i: nat :: i in r <==> a <= i < b
    decreases b - a
  {
    if a >= b then {} else {a} + IndexRange(a + 1, b)
  }

  /** Chunk indices from the lower to the higher of two positions. */
  function HoleIndices(a: nat, b: nat): (r: set<nat>)
    ensures forall i: nat :: i in r <==> Min(a, b) / CHUNK <= i && i * CHUNK < (if a < b then b else a)
  {
    var lo, hi := Min(a, b), if a < b then b else a;
    IndexRange(lo / CHUNK, (hi + CHUNK - 1) / CHUNK)
  }

  function Handle(src: seq<byte>, s: Sender, e: Event): (r: Sender)
    requires s.head <= |src|
    ensures r.head <= |src|
  {
    match e
    case Pause => s.(playing := false)
    case Play => s.(playing := true)
    case Seek(to) =>
      var exact := Min(to, |src|);
      s.(head := if s.open then exact - exact % CHUNK else s.head, extras := s.extras + HoleIndices(s.lastSent, to))
    case Stop => s.(open := false, closed := true)
    case PeerClosed => s.(closed := true)
    case Retransmit(ranges) => s.(extras := s.extras + Elements(QueuedIndices(ranges)))
    case SetPaused(paused) => s.(paused := paused)
  }

  predicate Running(s: Sender) { s.playing && Sends(s) }

  function Less(a: nat, b: nat): nat { if a > b then a - b else 0 }

  // ---------------------------------------------------------------- batches

  /** Every packet of the batch is a whole chunk of `src` at its own position, in ascending order. */
  ghost predicate FaithfulBatch(src: seq<byte>, b: Batch) {
    && |b| <= BATCH
    && (forall k :: 0 <= k < |b| ==>
      b[k].0 % CHUNK == 0 && b[k].0 <= |src| && b[k].1 == ChunkBytes(src, b[k].0 / CHUNK))
    && (forall j, k :: 0 <= j < k < |b| ==> b[j].0 < b[k].0)
  }

  /** Fresh chunks are consecutive from the head and are exactly those passed over. */
  lemma {:induction false} TakeMeaning(src: seq<byte>, head: nat, n: nat)
    requires HeadOk(src, head)
    ensures
      var (b, after) := Take(src, head, n);
      && HeadOk(src, after)
      && (b == [] <==> n == 0 || head == |src|)
      && RealChunks(|src| - after) == (if RealChunks(|src| - head) > n then RealChunks(|src| - head) - n else 0)
      && (forall k :: 0 <= k < |b| ==>
        b[k].0 == head + k * CHUNK && b[k].0 < |src| && b[k].1 == ChunkBytes(src, b[k].0 / CHUNK))
      && (forall k :: 0 <= k < |b| ==> b[k].0 % CHUNK == 0)
    decreases n
  {
    if n > 0 && head < |src| {
      assert head == head / CHUNK * CHUNK;
      assert NextHead(src, head) < |src| ==> NextHead(src, head) % CHUNK == 0;
      assert src[head..NextHead(src, head)] == ChunkBytes(src, head / CHUNK);
      TakeMeaning(src, NextHead(src, head), n - 1);
    }
  }

  /** Chunk indices a batch carries. */
  function ChunksOf(b: Batch): set<nat> { set k | 0 <= k < |b| :: b[k].0 / CHUNK }

  /** What re-reading chunk `i` gives: nothing when it starts past the end. */
  function Again(src: seq<byte>, i: nat): Batch {
    if i * CHUNK <= |src| then [(i * CHUNK, ChunkBytes(src, i))] else []
  }

  lemma ReadChunk(src: seq<byte>, i: nat)
    ensures Again(src, i) == match ReadRange(src, ChunkRange(i)) case Some(p) => [p] case None => []
  {
    var end := Min((i + 1) * CHUNK, |src|);
    if i * CHUNK < |src| {
      assert src[i * CHUNK..end] == ChunkBytes(src, i);
    } else if i * CHUNK == |src| {
      assert src[i * CHUNK..end] == [];
    }
  }

  /** Whole chunks of `src`, at or after chunk `from`, in ascending order. */
  ghost predicate ChunksFrom(src: seq<byte>, b: Batch, from: nat) {
    && (forall k :: 0 <= k < |b| ==>
          from * CHUNK <= b[k].0 <= |src| && b[k].0 % CHUNK == 0 && b[k].1 == ChunkBytes(src, b[k].0 / CHUNK))
    && (forall j, k :: 0 <= j < k < |b| ==> b[j].0 < b[k].0)
  }

  lemma AgainFrom(src: seq<byte>, i: nat, rest: Batch, from: nat)
    requires ChunksFrom(src, rest, i + 1) && from <= i
    ensures ChunksFrom(src, Again(src, i) + rest, from)
  {
    if i * CHUNK <= |src| {
      assert Again(src, i) == [(i * CHUNK, ChunkBytes(src, i))];
      ConsFrom(src, (i * CHUNK, ChunkBytes(src, i)), rest, i, from);
    } else {
      assert Again(src, i) + rest == rest;
      FromEarlier(src, rest, i + 1, from);
    }
  }

  lemma FromEarlier(src: seq<byte>, b: Batch, high: nat, low: nat)
    requires ChunksFrom(src, b, high) && low <= high
    ensures ChunksFrom(src, b, low)
  {
  }

  lemma ConsFrom(src: seq<byte>, p: Packet, rest: Batch, i: nat, from: nat)
    requires ChunksFrom(src, rest, i + 1) && from <= i && p == (i * CHUNK, ChunkBytes(src, i)) && p.0 <= |src|
    ensures ChunksFrom(src, [p] + rest, from)
  {
    var b := [p] + rest;
    assert p.0 % CHUNK == 0 && p.0 / CHUNK == i;
    forall j, k | 0 <= j < k < |b| ensures b[j].0 < b[k].0 {
      assert b[k] == rest[k - 1];
      assert j > 0 ==> b[j] == rest[j - 1];
    }
  }

  lemma RereadFirst(src: seq<byte>, i: nat, later: seq<nat>)
    ensures ReadRanges(src, ChunkRanges([i] + later)) == Again(src, i) + ReadRanges(src, ChunkRanges(later))
  {
    ReadChunk(src, i);
    ReadRangesCons(src, ChunkRange(i), ChunkRanges(later));
    assert ChunkRanges([i] + later) == [ChunkRange(i)] + ChunkRanges(later);
  }

  /** Reading rising chunk indices gives, in order, those that start inside the buffer or at its end. */
  lemma {:induction false} RereadMeaning(src: seq<byte>, idxs: seq<nat>, from: nat)
    requires Rising(idxs) && (idxs != [] ==> from <= idxs[0])
    ensures |ReadRanges(src, ChunkRanges(idxs))| <= |idxs|
    ensures ChunksFrom(src, ReadRanges(src, ChunkRanges(idxs)), from)
  {
    if idxs == [] {
      assert ReadRanges(src, ChunkRanges(idxs)) == [];
    } else {
      var i, later := idxs[0], idxs[1..];
      assert idxs == [i] + later;
      RereadFirst(src, i, later);
      RereadMeaning(src, later, i + 1);
      AgainFrom(src, i, ReadRanges(src, ChunkRanges(later)), from);
    }
  }

  lemma {:induction false} RereadChunks(src: seq<byte>, idxs: seq<nat>, i: nat)
    ensures i in ChunksOf(ReadRanges(src, ChunkRanges(idxs))) <==> i in idxs && i * CHUNK <= |src|
  {
    if idxs == [] {
    } else {
      var first, later := idxs[0], idxs[1..];
      assert idxs == [first] + later;
      RereadFirst(src, first, later);
      RereadChunks(src, later, i);
      ChunksOfAgain(src, first, ReadRanges(src, ChunkRanges(later)));
    }
  }

  lemma ChunksOfAgain(src: seq<byte>, i: nat, rest: Batch)
    ensures ChunksOf(Again(src, i) + rest) == (if i * CHUNK <= |src| then {i} else {}) + ChunksOf(rest)
  {
    if i * CHUNK <= |src| {
      ChunksOfCons((i * CHUNK, ChunkBytes(src, i)), rest);
      assert (i * CHUNK) / CHUNK == i;
    } else {
      assert [] + rest == rest;
    }
  }

  lemma ReadRangesCons(src: seq<byte>, r: ByteRange, rest: seq<ByteRange>)
    ensures ReadRanges(src, [r] + rest) ==
            (match ReadRange(src, r) case Some(p) => [p] case None => []) + ReadRanges(src, rest)
  {
    assert ([r] + rest)[1..] == rest;
  }

  lemma ChunksOfCons(p: Packet, rest: Batch)
    ensures ChunksOf([p] + rest) == {p.0 / CHUNK} + ChunksOf(rest)
  {
    var b := [p] + rest;
    assert b[0] == p && forall k :: 0 <= k < |rest| ==> b[k + 1] == rest[k];
    assert ChunksOf(b) <= {p.0 / CHUNK} + ChunksOf(rest);
    forall i | i in ChunksOf(rest) ensures i in ChunksOf(b) {
      var k :| 0 <= k < |rest| && rest[k].0 / CHUNK == i;
      assert b[k + 1].0 / CHUNK == i;
    }
  }

  /** No chunk between the old head and the new one is left out. */
  lemma TakeCovers(src: seq<byte>, head: nat, n: nat)
    requires HeadOk(src, head)
    ensures forall i: nat :: head <= i * CHUNK < Take(src, head, n).1 ==> i in ChunksOf(Take(src, head, n).0)
    ensures forall k :: 0 <= k < |Take(src, head, n).0| ==> Take(src, head, n).0[k].0 < Take(src, head, n).1
    decreases n
  {
    if n > 0 && head < |src| {
      var next := NextHead(src, head);
      TakeCovers(src, next, n - 1);
      var rest := Take(src, next, n - 1);
      var p := (head, src[head..next]);
      ChunksOfCons(p, rest.0);
      assert Take(src, head, n) == ([p] + rest.0, rest.1);
    }
  }

  lemma {:induction false} TakePackable(src: seq<byte>, head: nat, n: nat)
    requires head <= |src|
    ensures Packable(Take(src, head, n).0)
    decreases n
  {
    if n == 0 || head == |src| {
    } else {
      TakePackable(src, NextHead(src, head), n - 1);
    }
  }

  lemma {:induction false} ReadPackable(src: seq<byte>, rs: seq<ByteRange>)
    ensures Packable(ReadRanges(src, rs))
  {
    if rs == [] {
    } else {
      ReadPackable(src, rs[1..]);
    }
  }

  lemma TickPackable(src: seq<byte>, s: Sender)
    requires s.head <= |src|
    ensures Packable(Tick(src, s).1)
  {
    TakePackable(src, s.head, BATCH);
    ReadPackable(src, ChunkRanges(Smallest(s.extras, BATCH)));
  }

  /** Every batch a tick emits is faithful, and no tick emits more than the budget. */
  lemma TickBatchFaithful(src: seq<byte>, s: Sender)
    requires HeadOk(src, s.head)
    ensures FaithfulBatch(src, Tick(src, s).1)
    ensures HeadOk(src, Tick(src, s).0.head)
  {
    TakeFaithful(src, s.head);
    ExtrasFaithful(src, s.extras);
  }

  lemma TakeFaithful(src: seq<byte>, head: nat)
    requires HeadOk(src, head)
    ensures FaithfulBatch(src, Take(src, head, BATCH).0) && HeadOk(src, Take(src, head, BATCH).1)
  {
    TakeMeaning(src, head, BATCH);
  }

  lemma ExtrasFaithful(src: seq<byte>, extras: set<nat>)
    ensures FaithfulBatch(src, ReadRanges(src, ChunkRanges(Smallest(extras, BATCH))))
  {
    SmallestMeaning(extras, BATCH);
    RereadMeaning(src, Smallest(extras, BATCH), 0);
  }

  lemma TickIsTake(src: seq<byte>, s: Sender)
    requires HeadOk(src, s.head) && s.head < |src| && Sends(s)
    ensures Take(src, s.head, BATCH).0 != []
    ensures Take(src, s.head, BATCH).0[|Take(src, s.head, BATCH).0| - 1].0 < Take(src, s.head, BATCH).1
    ensures
      var (b, head) := Take(src, s.head, BATCH);
      Tick(src, s) == (s.(head := head, lastSent := b[|b| - 1].0, batches := s.batches + 1), b)
  {
    var r := Take(src, s.head, BATCH);
    assert r.0 != [] by {
      TakeMeaning(src, s.head, BATCH);
    }
    assert r.0[|r.0| - 1].0 < r.1 by {
      TakeCovers(src, s.head, BATCH);
    }
  }

  lemma TakeProgress(src: seq<byte>, head: nat)
    requires HeadOk(src, head)
    ensures HeadOk(src, Take(src, head, BATCH).1)
    ensures RealChunks(|src| - Take(src, head, BATCH).1) == Less(RealChunks(|src| - head), BATCH)
  {
    TakeMeaning(src, head, BATCH);
  }

  /** With fresh chunks left a tick sends exactly the ones it passes over. */
  lemma TickFresh(src: seq<byte>, s: Sender)
    requires HeadOk(src, s.head) && s.head < |src| && Sends(s)
    ensures
      var (r, b) := Tick(src, s);
      && r == s.(head := Take(src, s.head, BATCH).1, lastSent := r.lastSent, batches := s.batches + 1)
      && HeadOk(src, r.head) && s.head < r.head && r.lastSent < r.head
      && RealChunks(|src| - r.head) == Less(RealChunks(|src| - s.head), BATCH)
      && b == Take(src, s.head, BATCH).0
  {
    TickIsTake(src, s);
    TakeProgress(src, s.head);
  }

  /** With no fresh chunks left a tick sends the smallest extras. */
  lemma TickExtras(src: seq<byte>, s: Sender)
    requires s.head == |src| && Sends(s)
    ensures
      var (r, b) := Tick(src, s);
      && r == s.(extras := s.extras - Elements(Smallest(s.extras, BATCH)), lastSent := r.lastSent, batches := r.batches)
      && |r.extras| == Less(|s.extras|, BATCH)
      && b == ReadRanges(src, ChunkRanges(Smallest(s.extras, BATCH)))
      && r.lastSent <= (if b == [] then s.lastSent else |src|)
  {
    SmallestMeaning(s.extras, BATCH);
    RereadMeaning(src, Smallest(s.extras, BATCH), 0);
  }

  /** Every batch, fresh or sent again, takes the next number; a tick that sends nothing takes none. */
  lemma TickCounts(src: seq<byte>, s: Sender)
    requires s.head <= |src|
    ensures
      var (r, b) := Tick(src, s);
      && r.batches == s.batches + (if b == [] then 0 else 1)
      && r.lastSent == (if b == [] then s.lastSent else b[|b| - 1].0)
  {
  }

  lemma EventCounts(src: seq<byte>, s: Sender, e: Event)
    requires s.head <= |src|
    ensures Handle(src, s, e).batches == s.batches
  {
  }

  /** Of the extras a tick takes off the queue only those past the buffer are not sent. */
  lemma ExtrasSent(src: seq<byte>, s: Sender, i: nat)
    requires i in s.extras && i * CHUNK <= |src|
    ensures i in ChunksOf(SendExtras(src, s).1) || i in SendExtras(src, s).0.extras
  {
    var idxs := Smallest(s.extras, BATCH);
    RereadChunks(src, idxs, i);
    if i in idxs {
      assert ChunksOf(SendExtras(src, s).1) == ChunksOf(ReadRanges(src, ChunkRanges(idxs)));
    }
  }

  // ---------------------------------------------------------------- nothing is forgotten

  datatype Action = Do(event: Event) | TickDue

  datatype Trace = Trace(s: Sender, sent: set<nat>)

  /** The loop takes an event, or, while playing, a tick. */
  function Advance(src: seq<byte>, t: Trace, a: Action): (r: Trace)
    requires t.s.head <= |src|
    ensures r.s.head <= |src|
  {
    match a
    case Do(e) => t.(s := Handle(src, t.s, e))
    case TickDue =>
      if !t.s.playing then t
      else var (s, b) := Tick(src, t.s); Trace(s, t.sent + ChunksOf(b))
  }

  function Loop(src: seq<byte>, actions: seq<Action>): (r: Trace)
    ensures r.s.head <= |src|
  {
    if actions == [] then Trace(START, {})
    else Advance(src, Loop(src, actions[..|actions| - 1]), actions[|actions| - 1])
  }

  /** Each real chunk below the head or below the last position sent was sent or is queued. */
  ghost predicate Remembered(src: seq<byte>, t: Trace) {
    forall i: nat :: i < RealChunks(|src|) && (i * CHUNK < t.s.head || i * CHUNK < t.s.lastSent) ==>
      i in t.sent || i in t.s.extras
  }

  /** Sent, or waiting to be. */
  predicate Minded(t: Trace, i: nat) { i in t.sent || i in t.s.extras }

  /** No step of the loop drops a chunk that was sent or is queued. */
  lemma StepMinds(src: seq<byte>, t: Trace, a: Action, i: nat)
    requires HeadOk(src, t.s.head) && i * CHUNK <= |src| && Minded(t, i)
    ensures Minded(Advance(src, t, a), i)
  {
    if a.TickDue? && Running(t.s) {
      if t.s.head < |src| {
        TickFresh(src, t.s);
      } else {
        TickExtras(src, t.s);
        if i in t.s.extras {
          ExtrasSent(src, t.s, i);
        }
      }
    }
  }

  lemma TickRemembers(src: seq<byte>, t: Trace)
    requires HeadOk(src, t.s.head) && Remembered(src, t)
    ensures HeadOk(src, Advance(src, t, TickDue).s.head) && Remembered(src, Advance(src, t, TickDue))
  {
    if Running(t.s) {
      if t.s.head < |src| {
        TickFresh(src, t.s);
        TakeCovers(src, t.s.head, BATCH);
      } else {
        TickExtras(src, t.s);
        forall i: nat | i in t.s.extras && i * CHUNK <= |src|
          ensures i in ChunksOf(Tick(src, t.s).1) || i in Tick(src, t.s).0.extras
        {
          ExtrasSent(src, t.s, i);
        }
      }
    }
  }

  lemma HandleRemembers(src: seq<byte>, t: Trace, e: Event)
    requires HeadOk(src, t.s.head) && Remembered(src, t)
    ensures HeadOk(src, Handle(src, t.s, e).head) && Remembered(src, t.(s := Handle(src, t.s, e)))
  {
  }

  /**
   * Over every interleaving of ticks, pauses, seeks and requests the sender
   * forgets nothing: a real chunk behind it was sent or is still queued.
   */
  lemma {:induction false} NeverForgets(src: seq<byte>, actions: seq<Action>)
    ensures HeadOk(src, Loop(src, actions).s.head)
    ensures Remembered(src, Loop(src, actions))
  {
    if actions == [] {
    } else {
      var init := Loop(src, actions[..|actions| - 1]);
      NeverForgets(src, actions[..|actions| - 1]);
      match actions[|actions| - 1]
      case Do(e) => HandleRemembers(src, init, e);
      case TickDue => TickRemembers(src, init);
    }
  }

  /** Chunk `i` lies behind the head or behind the last position sent. */
  predicate Behind(s: Sender, i: nat) { i * CHUNK < s.head || i * CHUNK < s.lastSent }

  /**
   * What was ever behind the sender stays sent or queued for the rest of the
   * run, also after seeks that take the head and the last position back.
   */
  lemma {:induction false} NeverForgetsAnyMore(src: seq<byte>, actions: seq<Action>, k: nat, i: nat)
    requires k <= |actions| && i < RealChunks(|src|) && Behind(Loop(src, actions[..k]).s, i)
    ensures Minded(Loop(src, actions), i)
  {
    if k == |actions| {
      assert actions[..k] == actions;
      NeverForgets(src, actions);
    } else {
      var init := actions[..|actions| - 1];
      assert init[..k] == actions[..k];
      NeverForgetsAnyMore(src, init, k, i);
      NeverForgets(src, init);
      StepMinds(src, Loop(src, init), actions[|actions| - 1], i);
    }
  }

  // ---------------------------------------------------------------- events

  /** `on` happened and nothing of the kind `off` since. */
  predicate Stands(actions: seq<Action>, on: Event, off: Event) {
    exists k :: 0 <= k < |actions| && actions[k] == Do(on) && Do(off) !in actions[k..]
  }

  lemma StandsAfter(actions: seq<Action>, last: Action, on: Event, off: Event)
    requires on != off
    ensures Stands(actions + [last], on, off) <==> last == Do(on) || (Stands(actions, on, off) && last != Do(off))
  {
    var all := actions + [last];
    assert all[|actions|] == last && all[|actions|..] == [last];
    forall k | 0 <= k < |actions| ensures Do(off) in all[k..] <==> Do(off) in actions[k..] || last == Do(off) {
      assert all[k..] == actions[k..] + [last];
    }
    if Stands(actions, on, off) && last != Do(off) {
      var k :| 0 <= k < |actions| && actions[k] == Do(on) && Do(off) !in actions[k..];
      assert all[k] == Do(on) && Do(off) !in all[k..];
    }
  }

  /**
   * The loop plays unless paused since the last resume, the stream is held back
   * likewise; it leaves its state only by a stop and is closed by a stop or by
   * the peer, both for good.
   */
  ghost predicate Controlled(actions: seq<Action>, s: Sender) {
    && (s.playing <==> !Stands(actions, Pause, Play))
    && (s.paused <==> Stands(actions, SetPaused(true), SetPaused(false)))
    && (s.open <==> Do(Stop) !in actions)
    && (s.closed <==> Do(Stop) in actions || Do(PeerClosed) in actions)
  }

  lemma TickControls(src: seq<byte>, t: Trace)
    requires t.s.head <= |src|
    ensures
      var r := Advance(src, t, TickDue).s;
      r.playing == t.s.playing && r.paused == t.s.paused && r.open == t.s.open && r.closed == t.s.closed
  {
  }

  lemma ControlsStep(src: seq<byte>, t: Trace, actions: seq<Action>, last: Action)
    requires t.s.head <= |src| && Controlled(actions, t.s)
    ensures Controlled(actions + [last], Advance(src, t, last).s)
  {
    StandsAfter(actions, last, Pause, Play);
    StandsAfter(actions, last, SetPaused(true), SetPaused(false));
    assert forall e :: Do(e) in actions + [last] <==> Do(e) in actions || last == Do(e);
    if last.TickDue? {
      TickControls(src, t);
    } else {
      EventControls(src, t.s, last.event);
    }
  }

  lemma EventControls(src: seq<byte>, s: Sender, e: Event)
    requires s.head <= |src|
    ensures
      var r := Handle(src, s, e);
      && (r.playing <==> e == Play || (s.playing && e != Pause))
      && (r.paused <==> e == SetPaused(true) || (s.paused && e != SetPaused(false)))
      && (r.open <==> s.open && e != Stop)
      && (r.closed <==> s.closed || e == Stop || e == PeerClosed)
  {
  }

  /** What the controls come to over any run. */
  lemma {:induction false} ControlsExact(src: seq<byte>, actions: seq<Action>)
    ensures Controlled(actions, Loop(src, actions).s)
  {
    if actions == [] {
    } else {
      var init, last := actions[..|actions| - 1], actions[|actions| - 1];
      ControlsExact(src, init);
      ControlsStep(src, Loop(src, init), init, last);
      assert actions == init + [last] && Loop(src, actions) == Advance(src, Loop(src, init), last);
    }
  }

  /** A tick that finds the loop paused, held back or closed changes nothing; one that does not sends on. */
  lemma TickNeedsRunning(src: seq<byte>, t: Trace)
    requires HeadOk(src, t.s.head)
    ensures !t.s.playing || t.s.paused || t.s.closed || !t.s.open ==> Advance(src, t, TickDue) == t
    ensures t.s.playing && !t.s.paused && !t.s.closed && t.s.open && t.s.head < |src| ==>
              && Tick(src, t.s).1 != [] && Tick(src, t.s).1[0].0 == t.s.head
              && ChunksOf(Tick(src, t.s).1) <= Advance(src, t, TickDue).sent
  {
    if Running(t.s) && t.s.head < |src| {
      TickIsTake(src, t.s);
      TakeMeaning(src, t.s.head, BATCH);
    }
  }

  lemma ClosedStep(src: seq<byte>, t: Trace, a: Action)
    requires t.s.head <= |src| && t.s.closed
    ensures var r := Advance(src, t, a); r.sent == t.sent && r.s.batches == t.s.batches
  {
  }

  /** After a stop or a close by the peer no run ever sends another chunk. */
  lemma {:induction false} ClosedIsSilent(src: seq<byte>, actions: seq<Action>, k: nat)
    requires k < |actions| && (actions[k] == Do(Stop) || actions[k] == Do(PeerClosed))
    ensures Loop(src, actions).sent == Loop(src, actions[..k]).sent
    ensures Loop(src, actions).s.batches == Loop(src, actions[..k]).s.batches
  {
    var init, last := actions[..|actions| - 1], actions[|actions| - 1];
    if k < |init| {
      assert init[..k] == actions[..k];
      ClosedIsSilent(src, init, k);
      ControlsExact(src, init);
      assert init[k] in init;
      ClosedStep(src, Loop(src, init), last);
    }
  }

  /**
   * A seek puts the head of an open stream on the chunk boundary at or below
   * the target, and queues exactly the chunks between the last position sent
   * and the target, in whichever direction; it touches nothing else.
   */
  lemma SeekExact(src: seq<byte>, s: Sender, to: nat, i: nat)
    requires HeadOk(src, s.head)
    ensures
      var r := Handle(src, s, Seek(to));
      var lo, hi := Min(s.lastSent, to), if s.lastSent < to then to else s.lastSent;
      && r == s.(head := r.head, extras := r.extras)
      && (if s.open then r.head % CHUNK == 0 && r.head <= Min(to, |src|) < r.head + CHUNK else r.head == s.head)
      && (i in r.extras <==> i in s.extras || (lo < (i + 1) * CHUNK && i * CHUNK < hi))
  {
  }

  // ---------------------------------------------------------------- where batches lie

  /**
   * Whatever the loop has been through, the next batch has distinct ascending
   * chunk positions, so no packet of it makes the receiver's base saturate; a
   * batch of fresh chunks is also consecutive.
   */
  lemma EmittedBatchLocated(src: seq<byte>, actions: seq<Action>)
    requires |src| <= U32
    ensures
      var s := Loop(src, actions).s;
      var b := Tick(src, s).1;
      && FaithfulBatch(src, b)
      && AscendingChunks(StartsOf(b))
      && (forall k :: 0 <= k < |b| ==> DerivedBase(b[k].0, k) + k * CHUNK == b[k].0)
      && (s.head < |src| ==> Consecutive(StartsOf(b)) && PacketsConsecutive(b))
  {
    var s := Loop(src, actions).s;
    NeverForgets(src, actions);
    TickBatchFaithful(src, s);
    FaithfulLocated(src, Tick(src, s).1);
    if s.head < |src| {
      FreshConsecutive(src, s);
    }
  }

  lemma FaithfulLocated(src: seq<byte>, b: Batch)
    requires FaithfulBatch(src, b)
    ensures AscendingChunks(StartsOf(b))
    ensures forall k :: 0 <= k < |b| ==> DerivedBase(b[k].0, k) + k * CHUNK == b[k].0
  {
    forall k | 0 <= k < |b| ensures DerivedBase(b[k].0, k) + k * CHUNK == b[k].0 {
      BaseNeverSaturates(StartsOf(b), k);
    }
  }

  lemma FreshConsecutive(src: seq<byte>, s: Sender)
    requires HeadOk(src, s.head) && s.head < |src| <= U32
    ensures Consecutive(StartsOf(Tick(src, s).1)) && PacketsConsecutive(Tick(src, s).1)
  {
    if Sends(s) {
      TickIsTake(src, s);
      TakeMeaning(src, s.head, BATCH);
    }
  }

  /** Asks for chunks 0, 1 and 5 once the head has reached the end. */
  function ScatteredRequest(): seq<Action> {
    [TickDue, Do(Retransmit([ByteRange(0, 2 * CHUNK), ByteRange(5 * CHUNK, CHUNK)]))]
  }

  /** The loop does emit batches that are not consecutive. */
  lemma LoopEmitsScattered(src: seq<byte>)
    requires |src| == 6 * CHUNK
    ensures StartsOf(Tick(src, Loop(src, ScatteredRequest()).s).1) == [0, CHUNK, 5 * CHUNK]
  {
    var s := Loop(src, ScatteredRequest()).s;
    ScatteredState(src);
    TickExtras(src, s);
    ScatteredIndices();
    ScatteredRead(src);
    assert Tick(src, s).1 == Again(src, 0) + (Again(src, 1) + (Again(src, 5) + []));
  }

  lemma ScatteredState(src: seq<byte>)
    requires |src| == 6 * CHUNK
    ensures var s := Loop(src, ScatteredRequest()).s; s.head == |src| && s.extras == {0, 1, 5} && Running(s)
  {
    var actions := ScatteredRequest();
    assert actions[..1] == [TickDue] && [TickDue][..0] == [];
    assert Loop(src, []) == Trace(START, {});
    TickFresh(src, START);
    assert RealChunks(|src|) == 6;
    var drained := Loop(src, [TickDue]);
    assert drained == Advance(src, Trace(START, {}), TickDue);
    assert drained.s.head == |src| && drained.s.extras == {} && Running(drained.s);
    ScatteredQueue();
  }

  lemma ScatteredQueue()
    ensures Elements(QueuedIndices([ByteRange(0, 2 * CHUNK), ByteRange(5 * CHUNK, CHUNK)])) == {0, 1, 5}
  {
    var first, second := ByteRange(0, 2 * CHUNK), ByteRange(5 * CHUNK, CHUNK);
    SplitWhole(first);
    SplitWhole(second);
    assert RunOf(first) == [0, 1] && RunOf(second) == [5];
    QueuedCons(second, []);
    assert [second] + [] == [second];
    QueuedCons(first, [second]);
    assert [first] + [second] == [first, second];
    assert QueuedIndices([first, second]) == [0, 1, 5];
  }

  lemma ScatteredIndices()
    ensures Smallest({0, 1, 5}, BATCH) == [0, 1, 5]
  {
    var all: set<nat>, two: set<nat>, one: set<nat> := {0, 1, 5}, {1, 5}, {5};
    assert Least(all) == 0 && all - {0} == two;
    assert Least(two) == 1 && two - {1} == one;
    assert Least(one) == 5 && one - {5} == {};
    assert Smallest(one, BATCH - 2) == [5] + Smallest({}, BATCH - 3);
    assert Smallest(two, BATCH - 1) == [1] + Smallest(one, BATCH - 2);
    assert Smallest(all, BATCH) == [0] + Smallest(two, BATCH - 1);
  }

  lemma ScatteredRead(src: seq<byte>)
    ensures ReadRanges(src, ChunkRanges([0, 1, 5])) == Again(src, 0) + (Again(src, 1) + (Again(src, 5) + []))
  {
    assert [0] + [1, 5] == [0, 1, 5] && [1] + [5] == [1, 5] && [5] + [] == [5];
    RereadFirst(src, 0, [1, 5]);
    RereadFirst(src, 1, [5]);
    RereadFirst(src, 5, []);
    assert ReadRanges(src, ChunkRanges([])) == [];
  }

  // ---------------------------------------------------------------- draining

  function Ticks(src: seq<byte>, t: Trace, k: nat): (r: Trace)
    requires t.s.head <= |src|
    ensures r.s.head <= |src|
  {
    if k == 0 then t else Advance(src, Ticks(src, t, k - 1), TickDue)
  }

  function CeilDiv(n: nat, d: nat): nat
    requires d > 0
  {
    (n + d - 1) / d
  }

  predicate Drained(src: seq<byte>, s: Sender) { s.head == |src| && s.extras == {} }

  /** A tick takes a full budget off the fresh chunks, or, with none left, off the extras. */
  lemma TickProgress(src: seq<byte>, s: Sender)
    requires HeadOk(src, s.head) && Running(s)
    ensures
      var r := Tick(src, s).0;
      && HeadOk(src, r.head) && Running(r)
      && RealChunks(|src| - r.head) == Less(RealChunks(|src| - s.head), BATCH)
      && |r.extras| == if s.head == |src| then Less(|s.extras|, BATCH) else |s.extras|
  {
    if s.head < |src| {
      TickFresh(src, s);
    } else {
      TickExtras(src, s);
    }
  }

  lemma LessAgain(n: nat, k: nat)
    requires k > 0
    ensures Less(Less(n, (k - 1) * BATCH), BATCH) == Less(n, k * BATCH)
  {
  }

  lemma LessZero(n: nat, k: nat)
    ensures Less(n, k * BATCH) == 0 <==> k >= CeilDiv(n, BATCH)
  {
  }

  /** What is left of `n` fresh chunks and `extras` queued ones after `k` ticks: extras go only after the fresh. */
  ghost predicate Left(src: seq<byte>, s: Sender, n: nat, extras: nat, k: nat) {
    && HeadOk(src, s.head) && Running(s)
    && RealChunks(|src| - s.head) == Less(n, k * BATCH)
    && |s.extras| == Less(extras, Less(k, CeilDiv(n, BATCH)) * BATCH)
  }

  lemma LeftAfterTick(src: seq<byte>, t: Trace, n: nat, extras: nat, k: nat)
    requires k > 0 && Left(src, t.s, n, extras, k - 1)
    ensures Left(src, Advance(src, t, TickDue).s, n, extras, k)
  {
    TickProgress(src, t.s);
    assert t.s.head == |src| <==> RealChunks(|src| - t.s.head) == 0;
    LeaveStep(n, extras, k);
  }

  lemma {:induction false} TicksLeave(src: seq<byte>, t: Trace, k: nat)
    requires HeadOk(src, t.s.head) && Running(t.s)
    ensures Left(src, Ticks(src, t, k).s, RealChunks(|src| - t.s.head), |t.s.extras|, k)
  {
    if k == 0 {
    } else {
      TicksLeave(src, t, k - 1);
      LeftAfterTick(src, Ticks(src, t, k - 1), RealChunks(|src| - t.s.head), |t.s.extras|, k);
    }
  }

  /** One more tick takes a budget off the fresh chunks, or, once `k - 1` ticks used those up, off the extras. */
  lemma LeaveStep(n: nat, extras: nat, k: nat)
    requires k > 0
    ensures Less(Less(n, (k - 1) * BATCH), BATCH) == Less(n, k * BATCH)
    ensures
      var left := Less(extras, Less(k - 1, CeilDiv(n, BATCH)) * BATCH);
      Less(extras, Less(k, CeilDiv(n, BATCH)) * BATCH) ==
      if Less(n, (k - 1) * BATCH) == 0 then Less(left, BATCH) else left
  {
    LessAgain(n, k);
    LessZero(n, k - 1);
    if k - 1 >= CeilDiv(n, BATCH) {
      LessAgain(extras, k - CeilDiv(n, BATCH));
    }
  }

  lemma {:induction false} TicksRemember(src: seq<byte>, t: Trace, k: nat)
    requires HeadOk(src, t.s.head) && Remembered(src, t)
    ensures HeadOk(src, Ticks(src, t, k).s.head) && Remembered(src, Ticks(src, t, k))
  {
    if k == 0 {
    } else {
      TicksRemember(src, t, k - 1);
      TickRemembers(src, Ticks(src, t, k - 1));
    }
  }

  /**
   * Left alone while playing, the loop is drained after exactly
   * ceil(remaining / 28) + ceil(|extras| / 28) ticks and not before, and by
   * then every real chunk has been sent.
   */
  lemma DrainBound(src: seq<byte>, actions: seq<Action>, k: nat)
    requires Running(Loop(src, actions).s)
    ensures
      var t := Loop(src, actions);
      var bound := CeilDiv(RealChunks(|src| - t.s.head), BATCH) + CeilDiv(|t.s.extras|, BATCH);
      && (Drained(src, Ticks(src, t, k).s) <==> k >= bound)
      && (k >= bound ==> forall i :: 0 <= i < RealChunks(|src|) ==> i in Ticks(src, t, k).sent)
  {
    NeverForgets(src, actions);
    DrainedWhen(src, Loop(src, actions), k);
    AllSentWhenDrained(src, Loop(src, actions), k);
  }

  /** A drained loop that forgot nothing has sent every real chunk. */
  lemma DrainedSentAll(src: seq<byte>, t: Trace)
    requires Remembered(src, t)
    ensures Drained(src, t.s) ==> forall i :: 0 <= i < RealChunks(|src|) ==> i in t.sent
  {
  }

  lemma AllSentWhenDrained(src: seq<byte>, t: Trace, k: nat)
    requires HeadOk(src, t.s.head) && Remembered(src, t)
    ensures Drained(src, Ticks(src, t, k).s) ==>
              forall i :: 0 <= i < RealChunks(|src|) ==> i in Ticks(src, t, k).sent
  {
    TicksRemember(src, t, k);
    DrainedSentAll(src, Ticks(src, t, k));
  }

  lemma DrainedWhen(src: seq<byte>, t: Trace, k: nat)
    requires HeadOk(src, t.s.head) && Running(t.s)
    ensures Drained(src, Ticks(src, t, k).s) <==>
            k >= CeilDiv(RealChunks(|src| - t.s.head), BATCH) + CeilDiv(|t.s.extras|, BATCH)
  {
    TicksLeave(src, t, k);
    LeftDrained(src, Ticks(src, t, k).s, RealChunks(|src| - t.s.head), |t.s.extras|, k);
  }

  lemma LeftDrained(src: seq<byte>, s: Sender, n: nat, extras: nat, k: nat)
    requires Left(src, s, n, extras, k)
    ensures Drained(src, s) <==> k >= CeilDiv(n, BATCH) + CeilDiv(extras, BATCH)
  {
    assert s.head == |src| <==> RealChunks(|src| - s.head) == 0;
    assert s.extras == {} <==> |s.extras| == 0;
    LessZero(n, k);
    LessZero(extras, Less(k, CeilDiv(n, BATCH)));
  }
}
