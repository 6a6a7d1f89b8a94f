/** Class `Scheduler` of kernel/scheduler/scheduler.cpp, with its fields updated in place, proved
    against the functions of module Scheduler; and the choice of the least busy one.

    A context switch is one assignment here: saving and restoring registers is not modelled. The
    ready queue is the sequence that TaskQueue.dfy proves the linked queue to be. */
module Schedulers {
  import opened Options
  import opened S = Scheduler

  /** The control blocks, shared by all schedulers. */
  class TaskTable {
    var tasks: Tasks

    constructor ()
      ensures tasks == map[]
    {
      tasks := map[];
    }
  }

  class Scheduler {
    var tasks: seq<nat>
    var currentTask: Option<nat>
    var yieldLocked: bool
    var yieldPostponed: bool
    /** Yields that `addTask` asked this processor for. */
    var requests: nat
    const table: TaskTable

    ghost function Fields(): Cpu
      reads this
    {
      Cpu(currentTask, tasks, yieldLocked, yieldPostponed, requests)
    }

    ghost predicate Valid()
      reads this, table
    {
      Known(Fields(), table.tasks)
    }

    constructor (shared: TaskTable, task: nat)
      requires task in shared.tasks
      ensures Valid() && table == shared && Fields() == Cpu(Some(task), [], false, false, 0)
    {
      table := shared;
      tasks, currentTask, yieldLocked, yieldPostponed, requests := [], Some(task), false, false, 0;
    }

    method SetState(t: nat, state: RunState)
      requires t in table.tasks
      modifies table
      ensures table.tasks == InState(old(table.tasks), t, state)
    {
      table.tasks := table.tasks[t := table.tasks[t].(state := state)];
    }

    method Pop() returns (to: Option<nat>)
      modifies this`tasks
      ensures old(tasks) == [] ==> to == None && tasks == []
      ensures old(tasks) != [] ==> to == Some(old(tasks)[0]) && tasks == old(tasks)[1..]
    {
      if tasks == [] {
        to := None;
      } else {
        to := Some(tasks[0]);
        tasks := tasks[1..];
      }
    }

    method Yield()
      requires Valid()
      modifies this, table
      ensures Valid()
      ensures (Fields(), table.tasks) == S.Yield(old(Fields()), old(table.tasks))
    {
      if !yieldLocked {
        var from := currentTask;
        var to := Pop();
        if to.Some? {
          table.tasks := table.tasks[to.value := table.tasks[to.value].(state := Running, slice := INITIAL_TIME_SLICE)];
          currentTask := to;
          if from.Some? {
            if table.tasks[from.value].state == Running {
              SetState(from.value, Runnable);
              tasks := tasks + [from.value];
            }
          }
        } else if currentTask.None? {
          // the processor halts until an interrupt
        } else if table.tasks[currentTask.value].state != Running {
          currentTask := None;
        }
      } else {
        yieldPostponed := true;
      }
    }

    method AddTask(task: nat)
      requires Valid() && task in table.tasks
      modifies this, table
      ensures Valid()
      ensures (Fields(), table.tasks) == S.AddTask(old(Fields()), old(table.tasks), task)
    {
      SetState(task, Runnable);
      if currentTask.None? || table.tasks[currentTask.value].state != Running
         || table.tasks[currentTask.value].priority < table.tasks[task].priority {
        tasks := [task] + tasks;
        requests := requests + 1;
      } else {
        tasks := tasks + [task];
      }
    }

    method Tick()
      requires Valid()
      modifies this, table
      ensures Valid()
      ensures (Fields(), table.tasks) == S.Tick(old(Fields()), old(table.tasks))
    {
      if !yieldLocked && currentTask.Some? && table.tasks[currentTask.value].state == Running {
        var t := currentTask.value;
        table.tasks := table.tasks[t := table.tasks[t].(slice := Decremented(table.tasks[t].slice))];
        if table.tasks[t].slice == 0 {
          Yield();
        }
      }
    }

    method Lock()
      requires Valid()
      modifies this
      ensures Valid() && Fields() == S.Lock(old(Fields()))
    {
      yieldLocked := true;
      yieldPostponed := false;
    }

    method Unlock()
      requires Valid()
      modifies this, table
      ensures Valid()
      ensures (Fields(), table.tasks) == S.Unlock(old(Fields()), old(table.tasks))
    {
      yieldLocked := false;
      if yieldPostponed {
        yieldPostponed := false;
        Yield();
      }
    }

    /** `block()`; the caller yields next. */
    method Block() returns (task: nat)
      requires Valid() && currentTask.Some?
      modifies table
      ensures Valid() && Fields() == old(Fields()) && task == currentTask.value
      ensures table.tasks == InState(old(table.tasks), task, Blocking)
    {
      SetState(currentTask.value, Blocking);
      task := currentTask.value;
    }

    /** The tasks that keep the processor busy: the ready ones, and the current one while it runs. */
    ghost function Busy(): set<nat>
      requires Valid()
      reads this, table
    {
      Elements(tasks)
      + (if currentTask.Some? && table.tasks[currentTask.value].state == Running then {currentTask.value} else {})
    }

    /** No task is in the ready queue twice, or both there and current. */
    ghost predicate Orderly()
      reads this
    {
      NoDuplicates(tasks) && (currentTask.Some? ==> currentTask.value !in tasks)
    }

    function TaskCount(): (n: nat)
      requires Valid()
      reads this, table
      ensures n == S.TaskCount(Fields(), table.tasks)
      ensures Orderly() ==> n == |Busy()|
    {
      CountOfList(tasks);
      if currentTask.None? || table.tasks[currentTask.value].state != Running then |tasks| else |tasks| + 1
    }
  }

  /** Fewest by count are fewest by tasks. */
  lemma FewestBusy(schedulers: seq<Scheduler>, best: nat, other: nat)
    requires best < |schedulers| && other < |schedulers|
    requires schedulers[best].Valid() && schedulers[other].Valid()
    requires schedulers[best].Orderly() && schedulers[other].Orderly()
    ensures |schedulers[best].Busy()| == schedulers[best].TaskCount()
    ensures |schedulers[other].Busy()| == schedulers[other].TaskCount()
  {}

  /** The scheduler `addTask` uses: no other has fewer tasks, and the caller's own is kept unless
      another has strictly fewer. The search stops at the first with none. */
  method GetLeastBusy(schedulers: seq<Scheduler>, self: nat) returns (best: nat)
    requires self < |schedulers|
    requires forall i :: 0 <= i < |schedulers| ==> schedulers[i].Valid()
    ensures best < |schedulers|
    ensures forall i :: 0 <= i < |schedulers| ==> schedulers[best].TaskCount() <= schedulers[i].TaskCount()
    ensures best != self ==> schedulers[best].TaskCount() < schedulers[self].TaskCount()
    ensures forall i :: 0 <= i < best && best != self ==> schedulers[best].TaskCount() < schedulers[i].TaskCount()
    ensures (forall i :: 0 <= i < |schedulers| ==> schedulers[i].Orderly()) ==>
              && (forall i :: 0 <= i < |schedulers| ==> |schedulers[best].Busy()| <= |schedulers[i].Busy()|)
              && (best != self ==> |schedulers[best].Busy()| < |schedulers[self].Busy()|)
  {
    hide Scheduler.Busy, Scheduler.Orderly;
    best := self;
    var bestTaskCount := schedulers[best].TaskCount();
    var i := 0;
    while i < |schedulers|
      invariant i <= |schedulers| && best < |schedulers| && bestTaskCount == schedulers[best].TaskCount()
      invariant forall j :: 0 <= j < i ==> bestTaskCount <= schedulers[j].TaskCount()
      invariant bestTaskCount <= schedulers[self].TaskCount()
      invariant best != self ==> best < i && bestTaskCount < schedulers[self].TaskCount()
      invariant best != self ==> forall j :: 0 <= j < best ==> bestTaskCount < schedulers[j].TaskCount()
    {
      if bestTaskCount == 0 {
        break;
      }
      if schedulers[i].TaskCount() < bestTaskCount {
        best := i;
        bestTaskCount := schedulers[i].TaskCount();
      }
      i := i + 1;
    }
    if forall j :: 0 <= j < |schedulers| ==> schedulers[j].Orderly() {
      forall j | 0 <= j < |schedulers| ensures |schedulers[best].Busy()| <= |schedulers[j].Busy()| {
        FewestBusy(schedulers, best, j);
      }
      FewestBusy(schedulers, best, self);
    }
  }
}
