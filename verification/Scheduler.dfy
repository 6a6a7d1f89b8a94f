/** kernel/scheduler/scheduler.cpp: one scheduler per processor, as functions on its fields. The
    machine that any number of them form over shared tasks is in SchedulerMachine.dfy. */
module Scheduler {
  import opened Options

  datatype RunState = Running | Runnable | Blocking

  /** The fields of a control block the scheduler uses. `slice` is a 32-bit unsigned number. */
  datatype Tcb = Tcb(state: RunState, slice: nat, priority: nat)

  type Tasks = map<nat, Tcb>

  const INITIAL_TIME_SLICE: nat := 5

  /** One scheduler. `requests` counts calls to its `yield()` that `addTask` has asked for and
      that its processor has not run yet. */
  datatype Cpu = Cpu(current: Option<nat>, ready: seq<nat>, locked: bool, postponed: bool, requests: nat)

  predicate Known(cpu: Cpu, tasks: Tasks) {
    && (cpu.current.Some? ==> cpu.current.value in tasks)
    && forall i :: 0 <= i < |cpu.ready| ==> cpu.ready[i] in tasks
  }

  predicate IsRunning(cpu: Cpu, tasks: Tasks) {
    cpu.current.Some? && cpu.current.value in tasks && tasks[cpu.current.value].state == Running
  }

  function InState(tasks: Tasks, t: nat, st: RunState): Tasks
    requires t in tasks
  {
    tasks[t := tasks[t].(state := st)]
  }

  /** `to->state = RUNNING; to->timeSlice = INITIAL_TIME_SLICE`. */
  function Started(tasks: Tasks, t: nat): Tasks
    requires t in tasks
  {
    tasks[t := tasks[t].(state := Running, slice := INITIAL_TIME_SLICE)]
  }

  /** `yield()`. */
  function Yield(cpu: Cpu, tasks: Tasks): (Cpu, Tasks)
    requires Known(cpu, tasks)
  {
    if cpu.locked then
      (cpu.(postponed := true), tasks)
    else if cpu.ready != [] then
      var from, to := cpu.current, cpu.ready[0];
      var started := Started(tasks, to);
      var next := cpu.(current := Some(to), ready := cpu.ready[1..]);
      if from.Some? && started[from.value].state == Running then
        (next.(ready := next.ready + [from.value]), InState(started, from.value, Runnable))
      else
        (next, started)
    else if cpu.current.Some? && tasks[cpu.current.value].state != Running then
      (cpu.(current := None), tasks)
    else
      (cpu, tasks)
  }

  /** The decision of `addTask`: the task goes to the front, and a yield is asked for, over an idle,
      blocking or lower-priority task. */
  predicate GoesFirst(cpu: Cpu, tasks: Tasks, t: nat)
    requires Known(cpu, tasks) && t in tasks
  {
    || cpu.current.None? || tasks[cpu.current.value].state != Running
    || tasks[cpu.current.value].priority < tasks[t].priority
  }

  /** The push of `addTask`, as decided. */
  function Pushed(cpu: Cpu, t: nat, first: bool): Cpu {
    if first then cpu.(ready := [t] + cpu.ready, requests := cpu.requests + 1)
    else cpu.(ready := cpu.ready + [t])
  }

  /** `addTask` on this scheduler, up to the yield it asks for. */
  function AddTask(cpu: Cpu, tasks: Tasks, t: nat): (Cpu, Tasks)
    requires Known(cpu, tasks) && t in tasks
  {
    var tasks' := InState(tasks, t, Runnable);
    (Pushed(cpu, t, GoesFirst(cpu, tasks', t)), tasks')
  }

  function Decremented(slice: nat): nat {
    (slice + 0xFFFF_FFFF) % 0x1_0000_0000
  }

  /** `tick()`. */
  function Tick(cpu: Cpu, tasks: Tasks): (Cpu, Tasks)
    requires Known(cpu, tasks)
  {
    if !cpu.locked && IsRunning(cpu, tasks) then
      var t := cpu.current.value;
      var tasks' := tasks[t := tasks[t].(slice := Decremented(tasks[t].slice))];
      if tasks'[t].slice == 0 then Yield(cpu, tasks') else (cpu, tasks')
    else
      (cpu, tasks)
  }

  function Lock(cpu: Cpu): Cpu {
    cpu.(locked := true, postponed := false)
  }

  function Unlock(cpu: Cpu, tasks: Tasks): (Cpu, Tasks)
    requires Known(cpu, tasks)
  {
    var open := cpu.(locked := false);
    if open.postponed then Yield(open.(postponed := false), tasks) else (open, tasks)
  }

  /** `taskCount()`: a current task that does not run does not count. */
  function TaskCount(cpu: Cpu, tasks: Tasks): nat {
    if IsRunning(cpu, tasks) then |cpu.ready| + 1 else |cpu.ready|
  }

  /** `block()` and the `yield()` that follows it, as one step. */
  function Block(cpu: Cpu, tasks: Tasks): (Cpu, Tasks)
    requires Known(cpu, tasks) && cpu.current.Some?
  {
    Yield(cpu, InState(tasks, cpu.current.value, Blocking))
  }

  /** No current task, ready tasks, and no yield on its way: they wait until the next `addTask`. */
  predicate Stuck(cpu: Cpu) {
    cpu.current.None? && cpu.ready != [] && cpu.requests == 0
  }

  // ---------------------------------------------------------------------
  // What a switch amounts to
  // ---------------------------------------------------------------------

  predicate NoDuplicates(ts: seq<nat>) {
    forall i, j :: 0 <= i < j < |ts| ==> ts[i] != ts[j]
  }

  lemma NoDuplicatesRotated(ts: seq<nat>, x: nat)
    requires NoDuplicates(ts) && ts != []
    ensures NoDuplicates(ts[1..])
    ensures x !in ts ==> NoDuplicates(ts + [x]) && NoDuplicates([x] + ts) && NoDuplicates(ts[1..] + [x])
  {}

  ghost function Elements(ts: seq<nat>): set<nat> {
    set t | t in ts
  }

  lemma {:induction false} CountOfList(ts: seq<nat>)
    ensures NoDuplicates(ts) ==> |Elements(ts)| == |ts|
  {
    if ts == [] {
      assert Elements(ts) == {};
    } else {
      var n := |ts| - 1;
      CountOfList(ts[..n]);
      assert ts == ts[..n] + [ts[n]];
      assert Elements(ts) == Elements(ts[..n]) + {ts[n]};
    }
  }

  function SwitchedTasks(tasks: Tasks, from: Option<nat>, to: nat): Tasks
    requires to in tasks && (from.Some? ==> from.value in tasks)
  {
    var started := Started(tasks, to);
    if from.Some? then InState(started, from.value, Runnable) else started
  }

  function SwitchedCpu(cpu: Cpu): Cpu
    requires cpu.ready != []
  {
    cpu.(current := Some(cpu.ready[0]),
    ready := cpu.ready[1..] + if cpu.current.Some? then [cpu.current.value] else [])
  }

  /** A switch is possible: the current task, if any, runs and is not the next one. */
  ghost predicate CanSwitch(cpu: Cpu, tasks: Tasks) {
    && Known(cpu, tasks) && !cpu.locked && cpu.ready != [] && NoDuplicates(cpu.ready)
    && (cpu.current.Some? ==> IsRunning(cpu, tasks) && cpu.current.value !in cpu.ready)
  }

  lemma YieldSwitches(cpu: Cpu, tasks: Tasks)
    requires CanSwitch(cpu, tasks)
    ensures Yield(cpu, tasks) == (SwitchedCpu(cpu), SwitchedTasks(tasks, cpu.current, cpu.ready[0]))
  {
    assert cpu.ready[1..] + [] == cpu.ready[1..];
    assert cpu.ready[0] in cpu.ready;
  }

  /** The processor goes to the first ready task, or to nobody. */
  function LeftCpu(cpu: Cpu): Cpu {
    if cpu.ready == [] then cpu.(current := None) else cpu.(current := Some(cpu.ready[0]), ready := cpu.ready[1..])
  }

  function LeftTasks(cpu: Cpu, tasks: Tasks): Tasks
    requires Known(cpu, tasks)
  {
    if cpu.ready == [] then tasks else Started(tasks, cpu.ready[0])
  }

  /** The next yield would not take the current task off this processor for good: the task is next
      in its own ready queue, or runs (elsewhere). */
  predicate ComesBack(cpu: Cpu, tasks: Tasks)
    requires Known(cpu, tasks) && cpu.current.Some?
  {
    (cpu.ready != [] && cpu.ready[0] == cpu.current.value) || tasks[cpu.current.value].state == Running
  }

  /** A yield by a task that has called `block()`. */
  lemma YieldLeaves(cpu: Cpu, tasks: Tasks)
    requires Known(cpu, tasks) && cpu.current.Some? && !cpu.locked && !ComesBack(cpu, tasks)
    ensures Yield(cpu, tasks) == (LeftCpu(cpu), LeftTasks(cpu, tasks))
  {}

  lemma BlockIs(cpu: Cpu, tasks: Tasks)
    requires Known(cpu, tasks) && cpu.current.Some? && !cpu.locked && cpu.current.value !in cpu.ready
    ensures Block(cpu, tasks) == (LeftCpu(cpu), LeftTasks(cpu, InState(tasks, cpu.current.value, Blocking)))
  {
    if cpu.ready != [] {
      assert cpu.ready[0] in cpu.ready;
    }
    YieldLeaves(cpu, InState(tasks, cpu.current.value, Blocking));
  }
}
