/**
 * The receiver's buffer: bytes, chunk bitmap, playback head and the interval
 * index of missing chunks. `Rx` is its abstract value; the class updates the
 * same state in place and is proved against the functions on `Rx`.
 */
module Buffer {
  import opened Common

  datatype BufferError = NotValid | Occupied | WrongSize

  datatype Rx = Rx(bytes: seq<byte>, head: nat, filled: seq<bool>)

  predicate Shaped(rx: Rx) {
    && |rx.filled| == |rx.bytes| / CHUNK + 1
    && rx.head <= |rx.bytes|
    && (rx.head % CHUNK == 0 || rx.head == |rx.bytes|)
  }

  function Fresh(bytes: seq<byte>): (rx: Rx)
    ensures Shaped(rx)
  {
    Rx(bytes, 0, seq(|bytes| / CHUNK + 1, _ => false))
  }

  predicate AllFilled(filled: seq<bool>) { forall i :: 0 <= i < |filled| ==> filled[i] }

  predicate HeadAtEnd(rx: Rx) { rx.head >= |rx.bytes| }

  predicate Done(rx: Rx) { HeadAtEnd(rx) && AllFilled(rx.filled) }

  /** The first missing chunk at or after `i`, or the number of chunks. */
  function FirstMissing(filled: seq<bool>, i: nat): (r: nat)
    requires i <= |filled|
    ensures i <= r <= |filled|
    ensures forall k :: i <= k < r ==> filled[k]
    ensures r < |filled| ==> !filled[r]
    decreases |filled| - i
  {
    if i < |filled| && filled[i] then FirstMissing(filled, i + 1) else i
  }

  /** Where the head comes to rest when it walks over filled chunks from `head`. */
  function Advanced(len: nat, filled: seq<bool>, head: nat): (r: nat)
    requires |filled| == len / CHUNK + 1 && head <= len
    requires head % CHUNK == 0 || head == len
    ensures head <= r <= len
    ensures r % CHUNK == 0 || r == len
  {
    var i := head / CHUNK;
    var j := FirstMissing(filled, i);
    if j == |filled| then len else head + (j - i) * CHUNK
  }

  function Splice(bytes: seq<byte>, pos: nat, data: seq<byte>): (r: seq<byte>)
    requires pos + |data| <= |bytes|
    ensures |r| == |bytes|
    ensures forall k :: 0 <= k < |bytes| ==> r[k] == if pos <= k < pos + |data| then data[k - pos] else bytes[k]
  {
    bytes[..pos] + data + bytes[pos + |data|..]
  }

  /** A write is refused for a bad position, then a taken chunk, then a bad size. */
  function Written(rx: Rx, pos: nat, data: seq<byte>): (r: Result<Rx, BufferError>)
    requires Shaped(rx)
    ensures r.Ok? ==> Shaped(r.value) && |r.value.bytes| == |rx.bytes| && pos + |data| <= |rx.bytes|
  {
    if |rx.bytes| < pos then Err(NotValid)
    else if rx.filled[pos / CHUNK] then Err(Occupied)
    else if (|data| != CHUNK && pos / CHUNK != |rx.filled| - 1) || pos + |data| > |rx.bytes| then Err(WrongSize)
    else
      var filled := rx.filled[pos / CHUNK := true];
      Ok(Rx(Splice(rx.bytes, pos, data), Advanced(|rx.bytes|, filled, rx.head), filled))
  }

  /** A seek moves the head only forward: `Some(true)` when it did, `None` out of range. */
  function Sought(rx: Rx, pos: nat): (r: (Rx, Option<bool>))
    requires Shaped(rx)
    ensures Shaped(r.0) && r.0.bytes == rx.bytes && r.0.filled == rx.filled
  {
    if |rx.bytes| < pos then (rx, None)
    else if pos > rx.head then
      (rx.(head := Advanced(|rx.bytes|, rx.filled, pos / CHUNK * CHUNK)), Some(true))
    else (rx, Some(false))
  }

  // ---------------------------------------------------------------- head

  /** Chunks from index `since` up to the head are all filled, and the head rests on a hole. */
  ghost predicate HeadResting(rx: Rx, since: nat) {
    && Shaped(rx)
    && since * CHUNK <= rx.head
    && (forall i :: since <= i < |rx.filled| && i * CHUNK < rx.head ==> rx.filled[i])
    && (rx.head < |rx.bytes| ==> !rx.filled[rx.head / CHUNK])
  }

  lemma AdvancedRests(rx: Rx, since: nat)
    requires Shaped(rx) && since * CHUNK <= rx.head
    requires forall i :: since <= i < |rx.filled| && i * CHUNK < rx.head ==> rx.filled[i]
    ensures HeadResting(rx.(head := Advanced(|rx.bytes|, rx.filled, rx.head)), since)
  {
    var i := rx.head / CHUNK;
    var j := FirstMissing(rx.filled, i);
    var head := Advanced(|rx.bytes|, rx.filled, rx.head);
    forall k | since <= k < |rx.filled| && k * CHUNK < head ensures rx.filled[k] {
      if k * CHUNK >= rx.head {
        assert i <= k < j;
      }
    }
  }

  /** A position ahead of the head and not past the end. */
  predicate Forward(rx: Rx, pos: nat) { rx.head < pos <= |rx.bytes| }

  /**
   * A seek is out of range exactly past the end. It moves exactly when it goes
   * forward, and then the head comes to rest at the first missing chunk from
   * the one of `pos` on; the contents never change.
   */
  lemma SeekMeaning(rx: Rx, pos: nat)
    requires Shaped(rx)
    ensures Sought(rx, pos).1.None? <==> pos > |rx.bytes|
    ensures Sought(rx, pos).1 == Some(true) <==> Forward(rx, pos)
    ensures Sought(rx, pos).0.bytes == rx.bytes && Sought(rx, pos).0.filled == rx.filled
    ensures !Forward(rx, pos) ==> Sought(rx, pos).0.head == rx.head
    ensures Forward(rx, pos) ==> HeadResting(Sought(rx, pos).0, pos / CHUNK) && Sought(rx, pos).0.head >= rx.head
  {
    if Forward(rx, pos) {
      AdvancedRests(rx.(head := pos / CHUNK * CHUNK), pos / CHUNK);
    }
  }

  /**
   * A write is accepted exactly for a missing chunk and a payload of the right
   * size. It fills that chunk alone, and the head moves, if at all, over filled
   * chunks only, to the first missing one.
   */
  lemma WriteMeaning(rx: Rx, pos: nat, data: seq<byte>)
    requires Shaped(rx)
    ensures Written(rx, pos, data).Ok? <==>
            && pos + |data| <= |rx.bytes| && !rx.filled[pos / CHUNK]
            && (|data| == CHUNK || pos / CHUNK == |rx.bytes| / CHUNK)
    ensures Written(rx, pos, data) == Err(NotValid) <==> pos > |rx.bytes|
    ensures Written(rx, pos, data) == Err(Occupied) <==> pos <= |rx.bytes| && rx.filled[pos / CHUNK]
    ensures Written(rx, pos, data).Ok? ==>
              var w := Written(rx, pos, data).value;
              && (forall i :: 0 <= i < |rx.filled| ==> (w.filled[i] <==> rx.filled[i] || i == pos / CHUNK))
              && w.bytes[..pos] == rx.bytes[..pos] && w.bytes[pos..pos + |data|] == data
              && w.bytes[pos + |data|..] == rx.bytes[pos + |data|..]
              && if HeadAtEnd(rx) then w.head == rx.head else HeadResting(w, rx.head / CHUNK) && rx.head <= w.head
  {
    var w := Written(rx, pos, data);
    if w.Ok? && !HeadAtEnd(rx) {
      AdvancedRests(w.value.(head := rx.head), rx.head / CHUNK);
    }
  }

  datatype Op = WriteOp(pos: nat, data: seq<byte>) | SeekOp(pos: nat)

  function Apply(rx: Rx, op: Op): (r: Rx)
    requires Shaped(rx)
    ensures Shaped(r)
  {
    match op
    case WriteOp(pos, data) => (match Written(rx, pos, data) case Ok(v) => v case Err(_) => rx)
    case SeekOp(pos) => Sought(rx, pos).0
  }

  function Run(rx: Rx, ops: seq<Op>): (r: Rx)
    requires Shaped(rx)
    ensures Shaped(r)
  {
    if ops == [] then rx else Apply(Run(rx, ops[..|ops| - 1]), ops[|ops| - 1])
  }

  /** Chunk index of the last seek in `ops` that moved the head forward; 0 without one. */
  function LastSeek(rx: Rx, ops: seq<Op>): nat
    requires Shaped(rx)
  {
    if ops == [] then 0
    else
      var before, op := Run(rx, ops[..|ops| - 1]), ops[|ops| - 1];
      if op.SeekOp? && Forward(before, op.pos) then op.pos / CHUNK
      else LastSeek(rx, ops[..|ops| - 1])
  }

  lemma ApplyRests(rx: Rx, since: nat, op: Op)
    requires HeadResting(rx, since)
    ensures rx.head <= Apply(rx, op).head
    ensures HeadResting(Apply(rx, op),
                        if op.SeekOp? && Forward(rx, op.pos) then op.pos / CHUNK else since)
  {
    match op
    case WriteOp(pos, data) =>
      var w := Written(rx, pos, data);
      if w.Ok? {
        AdvancedRests(w.value.(head := rx.head), since);
      }
    case SeekOp(pos) =>
      SeekMeaning(rx, pos);
  }

  /**
   * Over any run of writes and seeks on a fresh buffer the head only moves
   * forward, stays aligned or at the end, has no hole between the last forward
   * seek and itself, and never rests on a filled chunk.
   */
  lemma {:induction false} HeadOverRuns(bytes: seq<byte>, ops: seq<Op>)
    ensures HeadResting(Run(Fresh(bytes), ops), LastSeek(Fresh(bytes), ops))
    ensures forall k :: 0 <= k <= |ops| ==> Run(Fresh(bytes), ops[..k]).head <= Run(Fresh(bytes), ops).head
  {
    if ops == [] {
    } else {
      var init := ops[..|ops| - 1];
      HeadOverRuns(bytes, init);
      ApplyRests(Run(Fresh(bytes), init), LastSeek(Fresh(bytes), init), ops[|ops| - 1]);
      forall k | 0 <= k <= |ops| ensures Run(Fresh(bytes), ops[..k]).head <= Run(Fresh(bytes), ops).head {
        if k < |ops| {
          assert init[..k] == ops[..k];
        } else {
          assert ops[..k] == ops;
        }
      }
    }
  }

  // ---------------------------------------------------------------- contents

  /** Every filled chunk holds exactly the bytes `src` has there. */
  ghost predicate Faithful(rx: Rx, src: seq<byte>) {
    && Shaped(rx) && |rx.bytes| == |src|
    && (forall i :: 0 <= i < |rx.filled| && rx.filled[i] ==> ChunkBytes(rx.bytes, i) == ChunkBytes(src, i))
  }

  /** Overwriting chunk `i` with its own bytes in `src` sets that chunk and no other. */
  lemma SpliceChunk(bytes: seq<byte>, src: seq<byte>, i: nat, k: nat)
    requires |bytes| == |src| && i * CHUNK <= |src|
    ensures i * CHUNK + |ChunkBytes(src, i)| <= |bytes|
    ensures ChunkBytes(Splice(bytes, i * CHUNK, ChunkBytes(src, i)), k) == ChunkBytes(if k == i then src else bytes, k)
  {
    var data := ChunkBytes(src, i);
    var r := Splice(bytes, i * CHUNK, data);
    if k * CHUNK < |bytes| {
      var want := ChunkBytes(if k == i then src else bytes, k);
      forall x | 0 <= x < |want| ensures r[k * CHUNK + x] == want[x] {
      }
      assert ChunkBytes(r, k) == want;
    }
  }

  /** Writing a chunk's own bytes at its own position keeps every filled chunk right. */
  lemma WriteKeepsFaithful(rx: Rx, src: seq<byte>, i: nat)
    requires Faithful(rx, src)
    requires Written(rx, i * CHUNK, ChunkBytes(src, i)).Ok?
    ensures Faithful(Written(rx, i * CHUNK, ChunkBytes(src, i)).value, src)
  {
    var w := Written(rx, i * CHUNK, ChunkBytes(src, i)).value;
    forall k | 0 <= k < |w.filled| && w.filled[k] ensures ChunkBytes(w.bytes, k) == ChunkBytes(src, k) {
      SpliceChunk(rx.bytes, src, i, k);
    }
  }

  /** A chunk's own bytes are accepted exactly while that chunk is missing. */
  lemma OwnBytesAccepted(rx: Rx, src: seq<byte>, i: nat)
    requires Shaped(rx) && |rx.bytes| == |src| && i < |rx.filled|
    ensures i * CHUNK <= |src|
    ensures Written(rx, i * CHUNK, ChunkBytes(src, i)).Ok? <==> !rx.filled[i]
    ensures rx.filled[i] ==> Written(rx, i * CHUNK, ChunkBytes(src, i)) == Err(Occupied)
  {
    assert (i * CHUNK) / CHUNK == i;
    assert i < |rx.filled| - 1 ==> (i + 1) * CHUNK <= |src| && |ChunkBytes(src, i)| == CHUNK;
  }

  /** A faithful buffer without holes equals the source. */
  lemma FaithfulDone(rx: Rx, src: seq<byte>)
    requires Faithful(rx, src) && AllFilled(rx.filled)
    ensures rx.bytes == src
  {
    forall p | 0 <= p < |src| ensures rx.bytes[p] == src[p] {
      var i := p / CHUNK;
      assert ChunkBytes(rx.bytes, i)[p - i * CHUNK] == ChunkBytes(src, i)[p - i * CHUNK];
    }
  }

  /**
   * When the length is an exact multiple of the chunk size the bitmap has one
   * entry more than there are chunks with bytes in them: writing all of those
   * leaves the buffer short of done, and it is done once the last entry is filled.
   */
  lemma PhantomChunk(rx: Rx)
    requires Shaped(rx) && HeadAtEnd(rx)
    requires forall i :: 0 <= i < RealChunks(|rx.bytes|) ==> rx.filled[i]
    ensures Done(rx) <==> |rx.bytes| % CHUNK != 0 || rx.filled[|rx.bytes| / CHUNK]
  {
    assert |rx.filled| - RealChunks(|rx.bytes|) == if |rx.bytes| % CHUNK == 0 then 1 else 0;
    assert |rx.bytes| % CHUNK == 0 ==> RealChunks(|rx.bytes|) == |rx.bytes| / CHUNK;
  }

  /** A smallest instance of the gap: 1368 received bytes, and the buffer is not done. */
  lemma PhantomCounterexample(data: seq<byte>)
    requires |data| == CHUNK
    ensures Written(Fresh(data), 0, data).Ok?
    ensures var rx := Written(Fresh(data), 0, data).value; rx.bytes == data && HeadAtEnd(rx) && !Done(rx)
  {
    var rx := Written(Fresh(data), 0, data).value;
    assert rx.filled == [true, false];
    assert FirstMissing(rx.filled, 1) == 1;
  }
}
