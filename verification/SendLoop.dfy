/**
 * The sender's objects as the program updates them: the source buffer with its
 * head, the stream that reads it under the connection lock, and the loop with
 * its queue of extras. Each method is tied to the functions of `Sending`.
 */
module SendLoop {
  import opened Common
  import opened Ranges
  import opened Sending

  class ReadableBuffer {
    const buffer: seq<byte>
    var head: nat

    ghost predicate Valid() reads this { head <= |buffer| }

    constructor (bytes: seq<byte>)
      ensures Valid() && buffer == bytes && head == 0
    {
      buffer := bytes;
      head := 0;
    }

    /** The chunk at the head, and the head moves past it; nothing once the buffer is read. */
    method Next() returns (r: Option<Packet>)
      requires Valid()
      modifies this
      ensures Valid() && head == (if old(head) == |buffer| then old(head) else NextHead(buffer, old(head)))
      ensures r == if old(head) == |buffer| then None else Some((old(head), buffer[old(head)..head]))
    {
      if |buffer| <= head {
        return None;
      }
      var curr := head;
      head := Min(|buffer|, head + CHUNK);
      r := Some((curr, buffer[curr..head]));
    }

    /** Rounds down to a chunk boundary, even at the very end of the buffer. */
    method Seek(pos: nat) returns (prev: nat)
      requires Valid()
      modifies this
      ensures Valid() && prev == old(head)
      ensures head % CHUNK == 0 && head <= Min(pos, |buffer|) < head + CHUNK
    {
      var exact := Min(pos, |buffer|);
      prev := head;
      head := exact - exact % CHUNK;
    }

    /** Refuses only a start past the end of the range or of the buffer, and clamps the end. */
    method Read(start: nat, end: nat) returns (r: Option<seq<byte>>)
      ensures r.Some? <==> start <= end && start <= |buffer|
      ensures r.Some? ==> start + |r.value| == (if end < |buffer| then end else |buffer|)
      ensures r.Some? ==> forall k :: 0 <= k < |r.value| ==> r.value[k] == buffer[start + k]
    {
      var stop := Min(end, |buffer|);
      r := if start <= stop then Some(buffer[start..stop]) else None;
    }
  }

  /** `chunks` and what up to `left` more steps from `head` take make `wanted`. */
  ghost predicate TakesOn(src: seq<byte>, chunks: Batch, head: nat, left: nat, wanted: (Batch, nat))
    requires head <= |src|
  {
    chunks + Take(src, head, left).0 == wanted.0 && Take(src, head, left).1 == wanted.1
  }

  lemma TakesOneMore(src: seq<byte>, chunks: Batch, head: nat, left: nat, wanted: (Batch, nat))
    requires head <= |src| && left > 0 && TakesOn(src, chunks, head, left, wanted)
    ensures
      var next := NextHead(src, head);
      head < |src| ==> TakesOn(src, chunks + [(head, src[head..next])], next, left - 1, wanted)
  {
    if head < |src| {
      var p, later := (head, src[head..NextHead(src, head)]), Take(src, NextHead(src, head), left - 1).0;
      assert chunks + ([p] + later) == chunks + [p] + later;
    }
  }

  lemma TakesNoMore(src: seq<byte>, chunks: Batch, head: nat, left: nat, wanted: (Batch, nat))
    requires head <= |src| && (left == 0 || head == |src|) && TakesOn(src, chunks, head, left, wanted)
    ensures wanted == (chunks, head)
  {
    assert chunks + [] == chunks;
  }

  class StreamTo {
    const buffer: ReadableBuffer
    /** Whether the session is still in this stream's state. */
    var streaming: bool
    var paused: bool
    var closed: bool
    /** Playback progress shown to the application. */
    var progress: nat
    var currentBatch: nat
    ghost var batches: nat

    ghost predicate Valid() reads this, buffer {
      && buffer.Valid()
      && (streaming || closed)
      && currentBatch == batches % U16
    }

    /** The stream may read its buffer. */
    predicate Open() reads this { streaming && !paused && !closed }

    constructor (source: ReadableBuffer)
      requires source.Valid()
      ensures Valid() && buffer == source && streaming && !closed && !paused && batches == 0 && progress == 0
    {
      buffer := source;
      streaming, paused, closed, progress, currentBatch, batches := true, false, false, 0, 0, 0;
    }

    method GetChunks(n: nat) returns (r: Option<Batch>)
      requires Valid()
      modifies this`progress, buffer
      ensures Valid()
      ensures r.Some? <==> Open()
      ensures r.None? ==> buffer.head == old(buffer.head) && progress == old(progress)
      ensures r.Some? ==> r.value == Take(buffer.buffer, old(buffer.head), n).0
      ensures r.Some? ==> buffer.head == Take(buffer.buffer, old(buffer.head), n).1
      ensures r.Some? ==> progress == Min(old(progress) + |r.value| * CHUNK, |buffer.buffer|)
    {
      if !streaming || paused || closed {
        return None;
      }
      var chunks: Batch := [];
      var done := false;
      ghost var wanted := Take(buffer.buffer, buffer.head, n);
      while !done && |chunks| < n
        invariant Valid() && Open() && progress == old(progress) && |chunks| <= n
        invariant done ==> buffer.head == |buffer.buffer|
        invariant TakesOn(buffer.buffer, chunks, buffer.head, n - |chunks|, wanted)
        decreases n - |chunks|, !done
      {
        TakesOneMore(buffer.buffer, chunks, buffer.head, n - |chunks|, wanted);
        var next := buffer.Next();
        match next
        case Some(p) => chunks := chunks + [p];
        case None => done := true;
      }
      TakesNoMore(buffer.buffer, chunks, buffer.head, n - |chunks|, wanted);
      progress := Min(progress + |chunks| * CHUNK, |buffer.buffer|);
      r := Some(chunks);
    }

    /** One requested range, clamped to a chunk and to the buffer. */
    method ReadClamped(range: ByteRange) returns (p: Option<Packet>)
      ensures p == ReadRange(buffer.buffer, range)
    {
      var len := Min(range.length, CHUNK);
      var end := Min(range.start + len, |buffer.buffer|);
      var payload := buffer.Read(range.start, end);
      assert payload.Some? ==> payload.value == buffer.buffer[range.start..end];
      p := if payload.Some? then Some((range.start, payload.value)) else None;
    }

    method Retransmit(ranges: seq<ByteRange>) returns (r: Option<Batch>)
      requires Valid()
      ensures r == if Open() then Some(ReadRanges(buffer.buffer, ranges)) else None
    {
      if !streaming || paused || closed {
        return None;
      }
      var buf: Batch := [];
      assert ranges[0..] == ranges;
      for k := 0 to |ranges|
        invariant buf + ReadRanges(buffer.buffer, ranges[k..]) == ReadRanges(buffer.buffer, ranges)
      {
        assert ranges[k..] == [ranges[k]] + ranges[k + 1..];
        ReadRangesCons(buffer.buffer, ranges[k], ranges[k + 1..]);
        ghost var before, rest := buf, ReadRanges(buffer.buffer, ranges[k + 1..]);
        var p := ReadClamped(ranges[k]);
        if p.Some? {
          buf := buf + [p.value];
          assert buf + rest == before + ([p.value] + rest);
        } else {
          assert [] + rest == rest;
        }
      }
      assert ReadRanges(buffer.buffer, ranges[|ranges|..]) == [] && buf + [] == buf;
      r := Some(buf);
    }

    /** Batch ids count from one and wrap with the u16. */
    method NextBatchId() returns (id: nat)
      requires Valid()
      modifies this`currentBatch, this`batches
      ensures Valid() && batches == old(batches) + 1
      ensures id == batches % U16
    {
      currentBatch := (currentBatch + 1) % U16;
      batches := batches + 1;
      id := currentBatch;
    }

    method Close()
      requires Valid()
      modifies this`streaming, this`closed
      ensures Valid() && !streaming && closed
    {
      streaming, closed := false, true;
    }
  }

  /** The first `n` elements of the queue in ascending order, as its iterator gives them. */
  method FirstOf(extras: set<nat>, n: nat) returns (idxs: seq<nat>)
    ensures idxs == Smallest(extras, n)
  {
    idxs := [];
    var left := extras;
    while |idxs| < n && left != {}
      invariant |idxs| <= n && idxs + Smallest(left, n - |idxs|) == Smallest(extras, n)
      decreases left
    {
      var m := Least(left);
      assert Smallest(left, n - |idxs|) == [m] + Smallest(left - {m}, n - |idxs| - 1);
      idxs, left := idxs + [m], left - {m};
    }
  }

  lemma NothingQueued(src: seq<byte>)
    ensures Smallest({}, BATCH) == [] && ReadRanges(src, ChunkRanges(Smallest({}, BATCH))) == []
  {
    assert Smallest({}, BATCH) == [];
  }

  class SendLoop {
    const stream: StreamTo
    var playing: bool
    var extras: set<nat>
    var lastSent: nat

    ghost predicate Valid() reads this, stream, stream.buffer {
      stream.Valid()
    }

    ghost function View(): Sender
      reads this, stream, stream.buffer
    {
      Sender(stream.buffer.head, extras, lastSent, playing, stream.paused, stream.streaming, stream.closed,
             stream.batches)
    }

    constructor (to: StreamTo)
      requires to.Valid() && to.streaming && !to.closed && !to.paused && to.batches == 0 && to.buffer.head == 0
      ensures Valid() && stream == to && View() == START
    {
      stream := to;
      playing, extras, lastSent := true, {}, 0;
    }

    /** Takes the smallest extras, at most a batch of them, off the queue. */
    method TakeExtras() returns (idxs: seq<nat>)
      modifies this`extras
      ensures idxs == Smallest(old(extras), BATCH) && extras == old(extras) - Elements(idxs)
    {
      idxs := FirstOf(extras, BATCH);
      for k := 0 to |idxs|
        invariant extras == old(extras) - Elements(idxs[..k])
      {
        ElementsStep(idxs, k);
        extras := extras - {idxs[k]};
      }
      assert idxs[..|idxs|] == idxs;
    }

    /**
     * Reads the smallest extras again. This runs under the same lock as the
     * read of fresh chunks before it, so it is not refused and the early return
     * for a refusal, which would lose the extras, is never taken.
     */
    method ReadExtras() returns (chunks: Batch)
      requires Valid() && stream.Open()
      modifies this`extras
      ensures extras == old(extras) - Elements(Smallest(old(extras), BATCH))
      ensures chunks == ReadRanges(stream.buffer.buffer, ChunkRanges(Smallest(old(extras), BATCH)))
    {
      var idxs := TakeExtras();
      var again := stream.Retransmit(ChunkRanges(idxs));
      assert again.Some?;
      chunks := again.value;
    }

    /** One tick: fresh chunks win the budget, extras only follow once those are used up. */
    method Tick() returns (sent: Option<(nat, Batch)>)
      requires Valid()
      modifies this`extras, this`lastSent, stream`progress, stream`currentBatch, stream`batches, stream.buffer
      ensures Valid()
      ensures View() == Sending.Tick(stream.buffer.buffer, old(View())).0
      ensures sent.Some? <==> Sending.Tick(stream.buffer.buffer, old(View())).1 != []
      ensures sent.Some? ==> sent.value == (stream.batches % U16, Sending.Tick(stream.buffer.buffer, old(View())).1)
      ensures stream.batches == old(stream.batches) + if sent.Some? then 1 else 0
      ensures sent.Some? ==> sent.value.0 == (old(stream.batches) + 1) % U16
    {
      sent := None;
      var upcoming := stream.GetChunks(BATCH);
      if upcoming.None? {
        return;
      }
      var chunks := upcoming.value;
      if chunks == [] && extras != {} {
        chunks := ReadExtras();
      } else if chunks == [] {
        NothingQueued(stream.buffer.buffer);
      }
      if chunks == [] {
        return;
      }
      var id := stream.NextBatchId();
      lastSent := chunks[|chunks| - 1].0;
      sent := Some((id, chunks));
    }

    method SeekAction(to: nat)
      requires Valid()
      modifies stream.buffer
      ensures Valid()
      ensures View() == Handle(stream.buffer.buffer, old(View()), Seek(to)).(extras := old(extras))
    {
      if stream.streaming {
        var prev := stream.buffer.Seek(to);
      }
    }

    /** Queues every chunk between the last position sent and the seek target. */
    method AddSeekHoleIndices(to: nat)
      modifies this`extras
      ensures extras == old(extras) + HoleIndices(lastSent, to)
    {
      var lo, hi := if to > lastSent then lastSent else to, if to > lastSent then to else lastSent;
      var start, end := lo / CHUNK, (hi + CHUNK - 1) / CHUNK;
      var i := start;
      while i < end
        invariant start <= i && (i <= end || i == start)
        invariant extras == old(extras) + IndexRange(start, i)
      {
        extras := extras + {i};
        i := i + 1;
        assert IndexRange(start, i) == IndexRange(start, i - 1) + {i - 1};
      }
      assert IndexRange(start, i) == HoleIndices(lastSent, to);
    }

    method QueueRanges(ranges: seq<ByteRange>)
      modifies this`extras
      ensures extras == old(extras) + Elements(QueuedIndices(ranges))
    {
      for k := 0 to |ranges|
        invariant extras + Elements(QueuedIndices(ranges[k..])) == old(extras) + Elements(QueuedIndices(ranges))
      {
        assert ranges[k..][1..] == ranges[k + 1..];
        var pieces := SplitRangeIntoChunks(ranges[k]);
        ghost var before := extras;
        for j := 0 to |pieces|
          invariant extras == before + Elements(Starts(pieces)[..j])
        {
          assert Starts(pieces)[..j + 1] == Starts(pieces)[..j] + [Starts(pieces)[j]];
          extras := extras + {pieces[j].start / CHUNK};
        }
        assert Starts(pieces)[..|pieces|] == Starts(pieces);
        assert Elements(QueuedIndices(ranges[k..])) ==
          Elements(Starts(pieces)) + Elements(QueuedIndices(ranges[k + 1..]));
      }
    }

    method HandleStreamEvent(event: Event)
      requires Valid()
      modifies this`playing, this`extras, stream`paused, stream`streaming, stream`closed, stream.buffer
      ensures Valid()
      ensures View() == Handle(stream.buffer.buffer, old(View()), event)
    {
      match event
      case Pause => playing := false;
      case Play => playing := true;
      case Seek(to) =>
        SeekAction(to);
        AddSeekHoleIndices(to);
      case Stop => stream.Close();
      case PeerClosed => stream.closed := true;
      case Retransmit(ranges) => QueueRanges(ranges);
      case SetPaused(paused) => stream.paused := paused;
    }
  }
}
