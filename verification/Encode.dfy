/**
 * Encoding one batch from concurrent tasks. Each data packet of the batch is
 * handed to its own task; a task looks the batch up (creating it if absent),
 * adds its block under the batch's lock, and, when that add filled the batch,
 * removes the batch from the table and reads the product out.
 */
module Encode {
  import opened Common
  import opened XorFec

  datatype Outbound = Outbound(product: Block, batchSize: nat, currentSize: nat)

  datatype Task = Start | Found(obj: nat) | Full | Finished(parity: Option<Block>)

  /** `table` is the outbound map at this batch's key; `heap` every batch object ever made for it. */
  datatype State = State(tasks: seq<Task>, table: Option<nat>, heap: seq<Outbound>)

  function Init(n: nat): State { State(seq(n, _ => Start), None, []) }

  /** Task `i` runs its next critical section; a finished task, or none, does nothing. */
  function Step(batch: seq<Block>, s: State, i: nat): State
    requires |s.tasks| == |batch|
  {
    if i >= |s.tasks| then s
    else match s.tasks[i]
      case Start =>
        if s.table.Some? then s.(tasks := s.tasks[i := Found(s.table.value)])
        else State(s.tasks[i := Found(|s.heap|)], Some(|s.heap|), s.heap + [Outbound(ZERO, |batch|, 0)])
      case Found(o) =>
        if o >= |s.heap| then s
        else
          var b := s.heap[o].(product := Xor(s.heap[o].product, batch[i]), currentSize := s.heap[o].currentSize + 1);
          var full := b.batchSize == b.currentSize;
          s.(heap := s.heap[o := b], tasks := s.tasks[i := if full then Full else Finished(None)])
      case Full =>
        // the program expects the entry to be there
        if s.table.None? || s.table.value >= |s.heap| then s
        else s.(table := None, tasks := s.tasks[i := Finished(Some(s.heap[s.table.value].product))])
      case Finished(_) => s
  }

  function Run(batch: seq<Block>, schedule: seq<nat>): (s: State)
    ensures |s.tasks| == |batch|
  {
    if schedule == [] then Init(|batch|)
    else Step(batch, Run(batch, schedule[..|schedule| - 1]), schedule[|schedule| - 1])
  }

  /** The tasks past their add. */
  function Added(tasks: seq<Task>): set<nat> {
    set i | 0 <= i < |tasks| && (tasks[i].Full? || tasks[i].Finished?)
  }

  function Winners(tasks: seq<Task>): set<nat> {
    set i | 0 <= i < |tasks| && (tasks[i].Full? || (tasks[i].Finished? && tasks[i].parity.Some?))
  }

  /** One object at most, shared by all tasks, holding the fold of the blocks added so far. */
  ghost predicate Inv(batch: seq<Block>, s: State) {
    && |s.tasks| == |batch|
    && |s.heap| <= 1
    && (forall i :: 0 <= i < |s.tasks| && s.tasks[i].Found? ==> s.tasks[i].obj == 0)
    && (s.table.Some? ==> s.table.value == 0 && |s.heap| == 1)
    && (s.heap == [] <==> forall i :: 0 <= i < |s.tasks| ==> s.tasks[i].Start?)
    && (|s.heap| == 1 ==>
          && s.heap[0].batchSize == |batch|
          && s.heap[0].currentSize == |Added(s.tasks)|
          && s.heap[0].product == Fold(batch, Added(s.tasks), |batch|))
    && (|Added(s.tasks)| < |batch| ==> Winners(s.tasks) == {} && (|s.heap| == 1 ==> s.table.Some?))
    && (|Added(s.tasks)| == |batch| && batch != [] ==> |Winners(s.tasks)| == 1 && Decided(batch, s))
  }

  /** The batch is complete: its entry stays until the filling task takes the parity out. */
  ghost predicate Decided(batch: seq<Block>, s: State) {
    forall i :: i in Winners(s.tasks) ==>
      && (s.tasks[i].Full? ==> s.table == Some(0))
      && (s.tasks[i].Finished? ==> s.table == None && s.tasks[i].parity == Some(ParityOf(batch)))
  }

  lemma InitInv(batch: seq<Block>)
    ensures Inv(batch, Init(|batch|))
  {
    assert Added(Init(|batch|).tasks) == {};
  }

  lemma AddedIsAll(tasks: seq<Task>)
    ensures Added(tasks) <= All(|tasks|) && |Added(tasks)| <= |tasks|
    ensures |Added(tasks)| == |tasks| ==> Added(tasks) == All(|tasks|)
  {
    SubsetSize(Added(tasks), All(|tasks|));
  }

  lemma UpdateSets(tasks: seq<Task>, i: nat, t: Task)
    requires i < |tasks|
    ensures Added(tasks[i := t]) == if t.Full? || t.Finished? then Added(tasks) + {i} else Added(tasks) - {i}
    ensures Winners(tasks[i := t]) ==
            if t.Full? || (t.Finished? && t.parity.Some?) then Winners(tasks) + {i} else Winners(tasks) - {i}
  {
  }

  /** While a task has not added, the batch is short, no task has won and the entry is in place. */
  lemma NotYetFull(batch: seq<Block>, s: State, i: nat)
    requires Inv(batch, s) && i < |s.tasks| && i !in Added(s.tasks)
    ensures |Added(s.tasks)| < |batch| && Winners(s.tasks) == {}
    ensures |s.heap| == 1 ==> s.table == Some(0)
  {
    AddedIsAll(s.tasks);
    assert i in All(|batch|);
  }

  /** A lookup finds the one object, or makes it while nothing has been added. */
  lemma LookupKeeps(batch: seq<Block>, s: State, i: nat)
    requires Inv(batch, s) && i < |s.tasks| && s.tasks[i].Start?
    ensures Inv(batch, Step(batch, s, i))
  {
    NotYetFull(batch, s, i);
    UpdateSets(s.tasks, i, Found(0));
    assert Added(s.tasks) - {i} == Added(s.tasks);
    if s.heap == [] {
      assert Added(s.tasks) == {};
      FoldNothing(batch, |batch|);
    }
  }

  lemma AddKeeps(batch: seq<Block>, s: State, i: nat)
    requires Inv(batch, s) && i < |s.tasks| && s.tasks[i].Found?
    ensures Inv(batch, Step(batch, s, i))
  {
    var r := Step(batch, s, i);
    NotYetFull(batch, s, i);
    UpdateSets(s.tasks, i, r.tasks[i]);
    FoldInsert(batch, Added(s.tasks), i, |batch|);
  }

  lemma TakeKeeps(batch: seq<Block>, s: State, i: nat)
    requires Inv(batch, s) && i < |s.tasks| && s.tasks[i].Full?
    ensures s.table.Some? && Inv(batch, Step(batch, s, i))
  {
    var r := Step(batch, s, i);
    AddedIsAll(s.tasks);
    assert i in Winners(s.tasks);
    UpdateSets(s.tasks, i, r.tasks[i]);
    OnlyOne(Winners(s.tasks), i);
    assert Added(r.tasks) == Added(s.tasks) == All(|batch|);
    assert Winners(r.tasks) == {i};
  }

  lemma OnlyOne(w: set<nat>, i: nat)
    requires |w| == 1 && i in w
    ensures w == {i}
  {
    assert |w - {i}| == 0;
  }

  lemma StepKeeps(batch: seq<Block>, s: State, i: nat)
    requires Inv(batch, s) && i < |s.tasks|
    ensures Inv(batch, Step(batch, s, i))
    ensures s.tasks[i].Full? ==> s.table.Some?
  {
    match s.tasks[i]
    case Start => LookupKeeps(batch, s, i);
    case Found(_) => AddKeeps(batch, s, i);
    case Full => TakeKeeps(batch, s, i);
    case Finished(_) =>
  }

  lemma {:induction false} RunInv(batch: seq<Block>, schedule: seq<nat>)
    ensures Inv(batch, Run(batch, schedule))
  {
    if schedule == [] {
      InitInv(batch);
    } else {
      var before, i := Run(batch, schedule[..|schedule| - 1]), schedule[|schedule| - 1];
      RunInv(batch, schedule[..|schedule| - 1]);
      if i < |before.tasks| {
        StepKeeps(batch, before, i);
      }
    }
  }

  /**
   * For every interleaving: a task that filled the batch always finds the entry
   * it removes; no run ever yields two parity packets or a wrong one; and once
   * every task has finished, exactly one returned the parity of the whole batch
   * and no entry is left behind.
   */
  lemma ExactlyOneParity(batch: seq<Block>, schedule: seq<nat>)
    requires batch != []
    ensures
      var s := Run(batch, schedule);
      && (forall i :: 0 <= i < |batch| && s.tasks[i].Found? ==> s.tasks[i].obj < |s.heap|)
      && (forall i :: 0 <= i < |batch| && s.tasks[i].Full? ==> s.table == Some(0) && |s.heap| == 1)
      && |Winners(s.tasks)| <= 1
      && (forall i :: 0 <= i < |batch| && s.tasks[i].Finished? && s.tasks[i].parity.Some? ==>
        s.tasks[i].parity.value == ParityOf(batch))
      && ((forall i :: 0 <= i < |batch| ==> s.tasks[i].Finished?) ==> |Winners(s.tasks)| == 1 && s.table == None)
  {
    RunInv(batch, schedule);
    var s := Run(batch, schedule);
    AddedIsAll(s.tasks);
    forall i | 0 <= i < |batch| && (s.tasks[i].Full? || (s.tasks[i].Finished? && s.tasks[i].parity.Some?))
      ensures s.tasks[i].Full? ==> s.table == Some(0) && |s.heap| == 1
      ensures s.tasks[i].Finished? ==> s.tasks[i].parity.value == ParityOf(batch)
    {
      assert i in Winners(s.tasks);
    }
    if forall i :: 0 <= i < |batch| ==> s.tasks[i].Finished? {
      assert Added(s.tasks) == All(|batch|);
      var w :| w in Winners(s.tasks);
    }
  }

  // ---------------------------------------------------------------- progress

  /** How many of its three critical sections a task has behind it. */
  function Rank(t: Task): nat {
    match t
    case Start => 0
    case Found(_) => 1
    case Full => 2
    case Finished(_) => 3
  }

  /** A task that runs gets past a section, or is finished already; no other task is touched. */
  lemma StepProgresses(batch: seq<Block>, s: State, i: nat)
    requires Inv(batch, s) && i < |s.tasks|
    ensures |Step(batch, s, i).tasks| == |s.tasks|
    ensures s.tasks[i].Finished? || Rank(Step(batch, s, i).tasks[i]) > Rank(s.tasks[i])
    ensures s.tasks[i].Finished? ==> Step(batch, s, i).tasks[i] == s.tasks[i]
    ensures forall j :: 0 <= j < |s.tasks| && j != i ==> Step(batch, s, i).tasks[j] == s.tasks[j]
  {
    if s.tasks[i].Full? {
      TakeKeeps(batch, s, i);
    }
  }

  /** After as many turns a task has as many sections behind it, up to all three. */
  lemma {:induction false} RunProgresses(batch: seq<Block>, schedule: seq<nat>, i: nat)
    requires i < |batch|
    ensures Rank(Run(batch, schedule).tasks[i]) >= if multiset(schedule)[i] < 3 then multiset(schedule)[i] else 3
  {
    if schedule == [] {
    } else {
      var init, last := schedule[..|schedule| - 1], schedule[|schedule| - 1];
      RunProgresses(batch, init, i);
      RunInv(batch, init);
      assert schedule == init + [last];
      if last < |batch| {
        StepProgresses(batch, Run(batch, init), last);
      }
    }
  }

  /**
   * Every schedule that gives each task its three turns, in whatever order and
   * with whatever turns besides, ends with all tasks finished, with the parity
   * of the whole batch returned by exactly one of them, and with no entry left.
   */
  lemma EveryTaskFinishes(batch: seq<Block>, schedule: seq<nat>)
    requires batch != [] && forall i :: 0 <= i < |batch| ==> multiset(schedule)[i] >= 3
    ensures
      var s := Run(batch, schedule);
      && (forall i :: 0 <= i < |batch| ==> s.tasks[i].Finished?)
      && s.table == None
      && (exists w :: 0 <= w < |batch| && s.tasks[w].parity == Some(ParityOf(batch))
            && forall i :: 0 <= i < |batch| && i != w ==> s.tasks[i].parity == None)
  {
    var s := Run(batch, schedule);
    forall i | 0 <= i < |batch| ensures s.tasks[i].Finished? {
      RunProgresses(batch, schedule, i);
    }
    ExactlyOneParity(batch, schedule);
    var w :| w in Winners(s.tasks);
    OnlyOne(Winners(s.tasks), w);
    forall i | 0 <= i < |batch| && i != w ensures s.tasks[i].parity == None {
      assert i !in Winners(s.tasks);
    }
  }
}
