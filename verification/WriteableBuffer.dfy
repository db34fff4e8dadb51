/** The receiver's buffer as the program keeps it, updated in place. */
module Writeable {
  import opened Common
  import opened Areas
  import opened Buffer
  import opened Scoring

  /** The positions of the missing chunks below chunk `n`, as the filter over the bitmap lists them. */
  function HoleList(filled: seq<bool>, n: nat): seq<nat>
    requires n <= |filled|
  {
    if n == 0 then []
    else HoleList(filled, n - 1) + if filled[n - 1] then [] else [(n - 1) * CHUNK]
  }

  lemma {:induction false} HoleListHolds(filled: seq<bool>, n: nat, pos: nat)
    requires n <= |filled|
    ensures pos in HoleList(filled, n) <==> pos % CHUNK == 0 && pos / CHUNK < n && !filled[pos / CHUNK]
  {
    if n == 0 {
    } else {
      HoleListHolds(filled, n - 1, pos);
      assert pos == (n - 1) * CHUNK <==> pos % CHUNK == 0 && pos / CHUNK == n - 1;
    }
  }

  lemma {:induction false} HoleListRises(filled: seq<bool>, n: nat)
    requires n <= |filled|
    ensures forall k :: 0 <= k < |HoleList(filled, n)| ==> HoleList(filled, n)[k] < n * CHUNK
    ensures forall j, k :: 0 <= j < k < |HoleList(filled, n)| ==> HoleList(filled, n)[j] < HoleList(filled, n)[k]
  {
    if n == 0 {
    } else {
      HoleListRises(filled, n - 1);
    }
  }

  /** The four ways the area around chunk `i` changes: it goes, it shrinks on either side, or it is split. */
  lemma CarveCases(areas: seq<Area>, p: nat, i: nat)
    requires p < |areas| && Inside(areas[p], i)
    ensures
      var Area(start, end) := areas[p];
      var left, right := Area(start, i), Area(i + 1, end);
      Carve(areas, p, i) ==
      if start == i && end == i + 1 then areas[..p] + areas[p + 1..]
      else if start == i then areas[p := right]
      else if end == i + 1 then areas[p := left]
      else areas[p := left][..p + 1] + [right] + areas[p := left][p + 1..]
  {
    var Area(start, end) := areas[p];
    var left, right := Area(start, i), Area(i + 1, end);
    if start == i && end == i + 1 {
      assert areas[..p] + [] + areas[p + 1..] == areas[..p] + areas[p + 1..];
    } else if start == i {
      assert Carve(areas, p, i) == areas[..p] + [right] + areas[p + 1..];
    } else if end == i + 1 {
      assert Carve(areas, p, i) == areas[..p] + [left] + areas[p + 1..];
    } else {
      assert Carve(areas, p, i) == areas[..p] + [left, right] + areas[p + 1..];
    }
  }

  class WriteableBuffer {
    const buffer: array<byte>
    var head: nat
    var filled: seq<bool>
    var invalidAreas: seq<Area>

    ghost function View(): Rx
      reads this, buffer
    {
      Rx(buffer[..], head, filled)
    }

    ghost predicate Valid()
      reads this, buffer
    {
      Shaped(View()) && Indexes(invalidAreas, filled)
    }

    constructor (buffer: array<byte>)
      ensures Valid() && this.buffer == buffer
      ensures View() == Fresh(buffer[..])
    {
      this.buffer := buffer;
      head := 0;
      filled := seq(buffer.Length / CHUNK + 1, _ => false);
      invalidAreas := [Area(0, buffer.Length / CHUNK + 1)];
      new;
      FreshIndex(filled);
    }

    /** Mark the chunk at `position` as arrived and take it out of the hole list. */
    method Occupy(position: nat)
      requires Valid()
      modifies this`filled, this`invalidAreas
      ensures Valid()
      ensures filled == if position <= buffer.Length then old(filled)[position / CHUNK := true] else old(filled)
    {
      if position > buffer.Length {
        return;
      }
      var i := position / CHUNK;
      ghost var before := filled;
      filled := filled[i := true];

      var p := 0;
      while p < |invalidAreas| && !Inside(invalidAreas[p], i)
        invariant p <= |invalidAreas|
        invariant forall k :: 0 <= k < p ==> !Inside(invalidAreas[k], i)
      {
        p := p + 1;
      }
      if p < |invalidAreas| {
        ghost var areas := invalidAreas;
        CarveIndexes(areas, before, p, i);
        CarveCases(areas, p, i);
        var Area(start, end) := invalidAreas[p];
        if start == i {
          if end == i + 1 {
            invalidAreas := invalidAreas[..p] + invalidAreas[p + 1..];
          } else {
            invalidAreas := invalidAreas[p := Area(i + 1, end)];
          }
        } else {
          invalidAreas := invalidAreas[p := Area(start, i)];
          if end - 1 != i {
            invalidAreas := invalidAreas[..p + 1] + [Area(i + 1, end)] + invalidAreas[p + 1..];
          }
        }
      } else {
        assert !Covered(invalidAreas, i);
        assert filled == before;
      }
    }

    /** Walk the head over filled chunks. */
    method AdvanceHead()
      requires Valid()
      modifies this`head
      ensures Valid()
      ensures head == Advanced(buffer.Length, filled, old(head))
    {
      var i := head / CHUNK;
      while i < |filled| && filled[i]
        invariant old(head) / CHUNK <= i <= |filled|
        invariant head == old(head) + (i - old(head) / CHUNK) * CHUNK
        invariant FirstMissing(filled, old(head) / CHUNK) == FirstMissing(filled, i)
      {
        head := head + CHUNK;
        i := i + 1;
      }
      if i == |filled| {
        head := buffer.Length;
      }
    }

    /** A forward seek brings the head to the first missing chunk from the one of `pos` on. */
    method SeekHead(pos: nat) returns (moved: Option<bool>)
      requires Valid()
      modifies this`head
      ensures Valid()
      ensures (View(), moved) == Sought(old(View()), pos)
      ensures moved == if pos > buffer.Length then None else Some(old(head) < pos)
      ensures if moved == Some(true) then HeadResting(View(), pos / CHUNK) else head == old(head)
    {
      SeekMeaning(View(), pos);
      if buffer.Length < pos {
        return None;
      }
      if pos > head {
        head := pos / CHUNK * CHUNK;
        AdvanceHead();
        return Some(true);
      }
      return Some(false);
    }

    method Write(position: nat, toWrite: seq<byte>) returns (r: Result<(nat, nat), BufferError>)
      requires Valid()
      modifies this, buffer
      ensures Valid()
      ensures match Written(old(View()), position, toWrite)
              case Ok(rx) => r == Ok((position, position + |toWrite|)) && View() == rx
              case Err(e) => r == Err(e) && View() == old(View())
    {
      if buffer.Length < position {
        return Err(NotValid);
      }
      if filled[position / CHUNK] {
        return Err(BufferError.Occupied);
      }
      if (|toWrite| != CHUNK && position / CHUNK != |filled| - 1) || position + |toWrite| > buffer.Length {
        return Err(WrongSize);
      }
      Occupy(position);
      forall k | 0 <= k < |toWrite| {
        buffer[position + k] := toWrite[k];
      }
      assert buffer[..] == Splice(old(buffer[..]), position, toWrite);
      AdvanceHead();
      return Ok((position, position + |toWrite|));
    }

    function IsDone(): (r: bool)
      reads this, buffer
      requires Valid()
      ensures r == Done(View())
    {
      head >= buffer.Length && forall i :: 0 <= i < |filled| ==> filled[i]
    }

    /**
     * The byte positions of the missing chunks below the limit's own chunk, in
     * order: exactly what the interval index holds below that chunk.
     */
    method FindHoles(until: nat) returns (holes: seq<nat>)
      requires Valid()
      ensures forall j, k :: 0 <= j < k < |holes| ==> holes[j] < holes[k]
      ensures forall pos: nat :: pos in holes <==>
                && pos % CHUNK == 0 && pos / CHUNK < Min(until, buffer.Length) / CHUNK
                && Covered(invalidAreas, pos / CHUNK)
    {
      var endIdx := Min(until, buffer.Length) / CHUNK;
      holes := [];
      for i := 0 to endIdx
        invariant holes == HoleList(filled, i)
      {
        if !filled[i] {
          holes := holes + [i * CHUNK];
        }
      }
      HoleListRises(filled, endIdx);
      forall pos: nat
        ensures pos in holes <==> pos % CHUNK == 0 && pos / CHUNK < endIdx && Covered(invalidAreas, pos / CHUNK)
      {
        HoleListHolds(filled, endIdx, pos);
      }
    }

    /** Every hole with its score; the suffix sums stand for a count of later arrivals. */
    method ScoreAreas() returns (scored: seq<Scored>)
      requires Valid()
      ensures scored == ScoresOf(invalidAreas, filled, head / CHUNK)
      ensures ByStart(scored)
    {
      var suffixInvalid := SuffixInvalid(invalidAreas);
      ghost var want := ScoresOf(invalidAreas, filled, head / CHUNK);
      scored := [];
      for k := 0 to |invalidAreas|
        invariant scored == want[..k]
      {
        var area := invalidAreas[k];
        var score := ScoreBySuffix(area, head / CHUNK, |filled|, suffixInvalid[k + 1]);
        assert (area, score) == want[k] by {
          SuffixScore(invalidAreas, filled, head / CHUNK, k);
        }
        scored := scored + [(area, score)];
      }
    }

    /** The best holes that pass the threshold, at most two, ranked; no hole left out ranks above one taken. */
    method RequestableAreas() returns (picked: seq<Area>)
      requires Valid()
      ensures exists top :: IsTop(top, Passing(ScoresOf(invalidAreas, filled, head / CHUNK))) && picked == Holes(top)
    {
      var scored := ScoreAreas();
      var kept := Retain(scored);
      var ranked := SortDescending(kept);
      SelectionIsTop(scored);
      var top := ranked[..Min(|ranked|, MAX_REQUESTS_PER_TICK)];
      picked := Holes(top);
    }
  }
}
