/** Time slicing on one processor (kernel/scheduler/scheduler.cpp:81-105): how long a ready task
    waits, and what comes of steps that others get between. */
module RoundRobin {
  import opened Options
  import opened Scheduler

  /** What can happen on the processor while nobody locks its scheduler or wakes a task of higher
      priority than the current one. */
  datatype Turn = TickTurn | YieldTurn | BlockTurn | Arrival(t: nat)

  /** A running task with 1 to 5 ticks left, and ready tasks in a queue without repetition. */
  ghost predicate Slicing(cpu: Cpu, tasks: Tasks) {
    && Known(cpu, tasks) && !cpu.locked && IsRunning(cpu, tasks)
    && NoDuplicates(cpu.ready) && cpu.current.value !in cpu.ready
    && 1 <= tasks[cpu.current.value].slice <= INITIAL_TIME_SLICE
  }

  ghost predicate CanTurn(cpu: Cpu, tasks: Tasks, turn: Turn) {
    && Slicing(cpu, tasks)
    && (turn.Arrival? ==>
          && turn.t in tasks && turn.t !in cpu.ready && turn.t != cpu.current.value
          && tasks[turn.t].priority <= tasks[cpu.current.value].priority)
  }

  ghost function Turned(cpu: Cpu, tasks: Tasks, turn: Turn): (Cpu, Tasks)
    requires CanTurn(cpu, tasks, turn)
  {
    match turn
    case TickTurn => Tick(cpu, tasks)
    case YieldTurn => Yield(cpu, tasks)
    case BlockTurn => Block(cpu, tasks)
    case Arrival(t) => AddTask(cpu, tasks, t)
  }

  /** Ticks until the task at index `k` of the ready queue runs, if only ticks happen. */
  ghost function TicksTo(cpu: Cpu, tasks: Tasks, k: nat): nat
    requires Slicing(cpu, tasks)
  {
    tasks[cpu.current.value].slice + INITIAL_TIME_SLICE * k
  }

  lemma BlockTurnIs(cpu: Cpu, tasks: Tasks, k: nat)
    requires Slicing(cpu, tasks) && k < |cpu.ready|
    ensures var (cpu', tasks') := Block(cpu, tasks);
            && Slicing(cpu', tasks')
            && (if k == 0 then cpu'.current == Some(cpu.ready[0])
                else k - 1 < |cpu'.ready| && cpu'.ready[k - 1] == cpu.ready[k] && TicksTo(cpu', tasks', k - 1) == 5 * k)
  {
    hide Block;
    BlockIs(cpu, tasks);
    NoDuplicatesRotated(cpu.ready, cpu.current.value);
    assert cpu.ready[0] in cpu.ready && cpu.ready[0] !in cpu.ready[1..];
  }

  lemma SliceDown(slice: nat)
    requires 1 <= slice <= INITIAL_TIME_SLICE
    ensures Decremented(slice) == slice - 1
  {}

  /** One tick brings a ready task exactly one tick nearer, and makes it current on the last one. */
  lemma TickNearer(cpu: Cpu, tasks: Tasks, k: nat)
    requires Slicing(cpu, tasks) && k < |cpu.ready|
    ensures var (cpu', tasks') := Tick(cpu, tasks);
            && Slicing(cpu', tasks')
            && (if TicksTo(cpu, tasks, k) == 1 then cpu'.current == Some(cpu.ready[k])
                else exists k' :: 0 <= k' < |cpu'.ready| && cpu'.ready[k'] == cpu.ready[k]
                                  && TicksTo(cpu', tasks', k') == TicksTo(cpu, tasks, k) - 1)
  {
    hide Yield, Decremented;
    var t := cpu.current.value;
    SliceDown(tasks[t].slice);
    var tasks1 := tasks[t := tasks[t].(slice := tasks[t].slice - 1)];
    var (cpu', tasks') := Tick(cpu, tasks);
    if tasks[t].slice == 1 {
      SwitchExpired(cpu, tasks1, k);
      if k > 0 {
        assert cpu'.ready[k - 1] == cpu.ready[k];
      }
    } else {
      assert cpu'.ready[k] == cpu.ready[k] && TicksTo(cpu', tasks', k) == TicksTo(cpu, tasks, k) - 1;
    }
  }

  /** A switch, whatever is left of the current task's slice. */
  lemma SwitchExpired(cpu: Cpu, tasks: Tasks, k: nat)
    requires Known(cpu, tasks) && !cpu.locked && IsRunning(cpu, tasks) && k < |cpu.ready|
    requires NoDuplicates(cpu.ready) && cpu.current.value !in cpu.ready
    ensures var (cpu', tasks') := Yield(cpu, tasks);
            && Slicing(cpu', tasks')
            && (if k == 0 then cpu'.current == Some(cpu.ready[0])
                else k - 1 < |cpu'.ready| && cpu'.ready[k - 1] == cpu.ready[k] && TicksTo(cpu', tasks', k - 1) == 5 * k)
  {
    hide Yield;
    YieldSwitches(cpu, tasks);
    NoDuplicatesRotated(cpu.ready, cpu.current.value);
    assert cpu.ready[0] in cpu.ready && cpu.ready[0] !in cpu.ready[1..];
  }

  /** Yields, blocks and arrivals never push a ready task further away. */
  lemma TurnNeverFarther(cpu: Cpu, tasks: Tasks, turn: Turn, k: nat) returns (k': nat)
    requires CanTurn(cpu, tasks, turn) && k < |cpu.ready|
    ensures var (cpu', tasks') := Turned(cpu, tasks, turn);
            && Slicing(cpu', tasks')
            && (cpu'.current == Some(cpu.ready[k])
                || (&& k' < |cpu'.ready| && cpu'.ready[k'] == cpu.ready[k]
                    && TicksTo(cpu', tasks', k') <= TicksTo(cpu, tasks, k) - if turn.TickTurn? then 1 else 0))
    ensures TicksTo(cpu, tasks, k) == 1 && turn.TickTurn? ==> Turned(cpu, tasks, turn).0.current == Some(cpu.ready[k])
  {
    k' := if k == 0 then 0 else k - 1;
    match turn
    case TickTurn =>
      TickNearer(cpu, tasks, k);
      var (cpu', tasks') := Tick(cpu, tasks);
      if TicksTo(cpu, tasks, k) != 1 {
        k' :| 0 <= k' < |cpu'.ready| && cpu'.ready[k'] == cpu.ready[k]
              && TicksTo(cpu', tasks', k') == TicksTo(cpu, tasks, k) - 1;
      }
    case YieldTurn => SwitchExpired(cpu, tasks, k);
    case BlockTurn => BlockTurnIs(cpu, tasks, k);
    case Arrival(t) =>
      k' := k;
      NoDuplicatesRotated(cpu.ready, t);
  }

  // ---------------------------------------------------------------------
  // Whole runs
  // ---------------------------------------------------------------------

  /** Task `t` becomes current at some point of the run. */
  ghost predicate GetsToRun(cpu: Cpu, tasks: Tasks, turns: seq<Turn>, t: nat)
    decreases |turns|
  {
    || cpu.current == Some(t)
    || (&& turns != [] && CanTurn(cpu, tasks, turns[0])
        && var r := Turned(cpu, tasks, turns[0]); GetsToRun(r.0, r.1, turns[1..], t))
  }

  ghost predicate CanRun(cpu: Cpu, tasks: Tasks, turns: seq<Turn>)
    decreases |turns|
  {
    turns == [] || (&& CanTurn(cpu, tasks, turns[0])
                    && var r := Turned(cpu, tasks, turns[0]); CanRun(r.0, r.1, turns[1..]))
  }

  function Ticks(turns: seq<Turn>): nat {
    if turns == [] then 0 else Ticks(turns[1..]) + if turns[0].TickTurn? then 1 else 0
  }

  lemma SomeTicks(cpu: Cpu, tasks: Tasks, k: nat)
    requires Slicing(cpu, tasks)
    ensures TicksTo(cpu, tasks, k) >= 1
  {}

  /** With `s` ticks left to the current task, the task at index `k` becomes current within `s + 5k`
      ticks, whatever yields, blocks and arrivals come between. */
  lemma {:induction false} RunsWithin(cpu: Cpu, tasks: Tasks, turns: seq<Turn>, k: nat)
    requires Slicing(cpu, tasks) && k < |cpu.ready| && CanRun(cpu, tasks, turns)
    requires Ticks(turns) >= TicksTo(cpu, tasks, k)
    ensures GetsToRun(cpu, tasks, turns, cpu.ready[k])
    decreases |turns|
  {
    hide Turned, Slicing, CanTurn, TicksTo;
    SomeTicks(cpu, tasks, k);
    var r := Turned(cpu, tasks, turns[0]);
    var k' := TurnNeverFarther(cpu, tasks, turns[0], k);
    if r.0.current != Some(cpu.ready[k]) {
      RunsWithin(r.0, r.1, turns[1..], k');
    }
  }

  ghost function AfterTicks(cpu: Cpu, tasks: Tasks, n: nat): (Cpu, Tasks)
    requires Slicing(cpu, tasks) && cpu.ready != []
    decreases n
  {
    if n == 0 then (cpu, tasks)
    else
      TickNearer(cpu, tasks, 0);
      TickKeepsReady(cpu, tasks);
      AfterTicks(Tick(cpu, tasks).0, Tick(cpu, tasks).1, n - 1)
  }

  lemma TickKeepsReady(cpu: Cpu, tasks: Tasks)
    requires Slicing(cpu, tasks) && cpu.ready != []
    ensures Tick(cpu, tasks).0.ready != []
  {}

  /** With ticks alone the bound is exact: it becomes current at tick `s + 5k` and not before. */
  lemma {:induction false} RunsExactly(cpu: Cpu, tasks: Tasks, k: nat, n: nat)
    requires Slicing(cpu, tasks) && k < |cpu.ready| && n <= TicksTo(cpu, tasks, k)
    ensures AfterTicks(cpu, tasks, n).0.current == Some(cpu.ready[k]) <==> n == TicksTo(cpu, tasks, k)
    decreases n
  {
    if n == 0 {
      assert cpu.ready[k] in cpu.ready;
    } else {
      TickNearer(cpu, tasks, k);
      TickNearer(cpu, tasks, 0);
      TickKeepsReady(cpu, tasks);
      var (cpu', tasks') := Tick(cpu, tasks);
      hide Tick;
      if TicksTo(cpu, tasks, k) == 1 {
        assert AfterTicks(cpu', tasks', 0) == (cpu', tasks');
      } else {
        var k' :| 0 <= k' < |cpu'.ready| && cpu'.ready[k'] == cpu.ready[k]
                  && TicksTo(cpu', tasks', k') == TicksTo(cpu, tasks, k) - 1;
        RunsExactly(cpu', tasks', k', n - 1);
      }
    }
  }

  // ---------------------------------------------------------------------
  // Priorities and the scheduler lock
  // ---------------------------------------------------------------------

  /** A woken task asks for a yield if and only if it has a higher priority than the current one, and
      that yield makes it current at once, ahead of all ready tasks, whose order is kept. Otherwise
      it runs after all of them. */
  lemma Preempts(cpu: Cpu, tasks: Tasks, t: nat)
    requires Slicing(cpu, tasks) && t in tasks && t !in cpu.ready && t != cpu.current.value
    ensures var higher := tasks[cpu.current.value].priority < tasks[t].priority;
            var (cpu1, tasks1) := AddTask(cpu, tasks, t);
            && Known(cpu1, tasks1)
            && cpu1.requests == cpu.requests + (if higher then 1 else 0)
            && (higher ==>
                  var (cpu2, tasks2) := Yield(cpu1, tasks1);
                  Slicing(cpu2, tasks2) && cpu2.current == Some(t) && cpu2.ready == cpu.ready + [cpu.current.value])
            && (!higher ==> Slicing(cpu1, tasks1) && cpu1.current == cpu.current && cpu1.ready == cpu.ready + [t])
  {
    var (cpu1, tasks1) := AddTask(cpu, tasks, t);
    if tasks[cpu.current.value].priority < tasks[t].priority {
      assert cpu1.ready[0] == t && cpu1.ready[1..] == cpu.ready;
    }
  }

  /** On an idle processor, or one whose task has called `block()`, a woken task goes first whatever its
      priority, and the yield asked for takes it up. */
  lemma IdleTakesNext(cpu: Cpu, tasks: Tasks, t: nat)
    requires Known(cpu, tasks) && !cpu.locked && t in tasks && cpu.current != Some(t)
    requires cpu.current.Some? ==> tasks[cpu.current.value].state != Running
    ensures var (cpu1, tasks1) := AddTask(cpu, tasks, t);
            && Known(cpu1, tasks1) && cpu1.requests == cpu.requests + 1
            && var (cpu2, tasks2) := Yield(cpu1, tasks1);
               && cpu2.current == Some(t) && cpu2.ready == cpu.ready
               && tasks2[t] == Tcb(Running, 5, tasks[t].priority)
  {
    var (cpu1, tasks1) := AddTask(cpu, tasks, t);
    assert cpu1.ready[0] == t && cpu1.ready[1..] == cpu.ready;
  }

  /** What may happen while the scheduler is locked. */
  datatype Inside = YieldInside | TickInside

  ghost function Locked(cpu: Cpu, tasks: Tasks, turns: seq<Inside>): (Cpu, Tasks)
    requires Known(cpu, tasks) && cpu.locked
    ensures Known(Locked(cpu, tasks, turns).0, Locked(cpu, tasks, turns).1)
    decreases |turns|
  {
    if turns == [] then (cpu, tasks)
    else if turns[0].YieldInside? then Locked(Yield(cpu, tasks).0, Yield(cpu, tasks).1, turns[1..])
    else Locked(Tick(cpu, tasks).0, Tick(cpu, tasks).1, turns[1..])
  }

  /** Between `lock()` and `unlock()` nothing switches and no slice runs down, whatever ticks and yields
      come. At `unlock()` any number of yields amount to one, and none to none. */
  lemma LockedYields(cpu: Cpu, tasks: Tasks, turns: seq<Inside>)
    requires Known(cpu, tasks) && !cpu.locked
    ensures var (locked, tasks1) := Locked(Lock(cpu), tasks, turns);
            && locked.current == cpu.current && locked.ready == cpu.ready && tasks1 == tasks
            && Unlock(locked, tasks1)
               == if YieldInside in turns then Yield(cpu.(postponed := false), tasks)
                  else (cpu.(postponed := false), tasks)
  {
    LockedIs(Lock(cpu), tasks, turns);
  }

  lemma {:induction false} LockedIs(cpu: Cpu, tasks: Tasks, turns: seq<Inside>)
    requires Known(cpu, tasks) && cpu.locked
    ensures Locked(cpu, tasks, turns) == (cpu.(postponed := cpu.postponed || YieldInside in turns), tasks)
    decreases |turns|
  {
    if turns != [] {
      assert turns == [turns[0]] + turns[1..];
      LockedIs(if turns[0].YieldInside? then Yield(cpu, tasks).0 else cpu, tasks, turns[1..]);
    }
  }

  /** A tick that does not end the slice takes one off it, modulo 2^32, and changes nothing else. */
  lemma TickCounts(cpu: Cpu, tasks: Tasks)
    requires Known(cpu, tasks) && !cpu.locked && IsRunning(cpu, tasks)
    requires tasks[cpu.current.value].slice < 0x1_0000_0000 && tasks[cpu.current.value].slice != 1
    ensures var t := cpu.current.value;
            var left := if tasks[t].slice == 0 then 0xFFFF_FFFF else tasks[t].slice - 1;
            Tick(cpu, tasks) == (cpu, tasks[t := Tcb(Running, left, tasks[t].priority)])
  {}

  // ---------------------------------------------------------------------
  // Steps that other steps get between; SchedulerRuns.dfy says exactly when that matters
  // ---------------------------------------------------------------------

  /** The current task blocks between the decision of `addTask` and its push at the back, and the
      processor stays idle over the task pushed. */
  lemma LostWakeUp(cpu: Cpu, tasks: Tasks, t: nat)
    requires Slicing(cpu, tasks) && cpu.ready == [] && cpu.requests == 0
    requires t in tasks && t != cpu.current.value && tasks[t].priority <= tasks[cpu.current.value].priority
    ensures !GoesFirst(cpu, InState(tasks, t, Runnable), t)
    ensures Stuck(Pushed(Block(cpu, tasks).0, t, false))
  {
    BlockIs(cpu, tasks);
    assert t in LeftCpu(cpu).ready + [t];
  }

  /** A task is woken onto its own processor between `block()` and `yield()`: the yield leaves it
      current and in the ready queue at once, marked RUNNABLE. */
  lemma WokenTooEarly(cpu: Cpu, tasks: Tasks)
    requires Slicing(cpu, tasks)
    ensures var t := cpu.current.value;
            var (woken, tasks1) := AddTask(cpu, InState(tasks, t, Blocking), t);
            Known(woken, tasks1) &&
            var (after, tasks2) := Yield(woken, tasks1);
            after.current == Some(t) && t in after.ready && tasks2[t].state == Runnable
  {
    var t := cpu.current.value;
    var (woken, tasks1) := AddTask(cpu, InState(tasks, t, Blocking), t);
    assert woken.ready[0] == t && woken.ready[1..] == cpu.ready;
    var (after, tasks2) := Yield(woken, tasks1);
    assert after.ready == cpu.ready + [t];
  }

  /** A task is woken onto another, idle processor, which takes it up before the yield: it is current
      there, and besides current here or in the ready queue here. */
  lemma WokenElsewhere(here: Cpu, there: Cpu, tasks: Tasks)
    requires Slicing(here, tasks) && there.current.None? && there.ready == [] && !there.locked
    ensures var t := here.current.value;
            var (there1, tasks1) := AddTask(there, InState(tasks, t, Blocking), t);
            Known(there1, tasks1) &&
            var (there2, tasks2) := Yield(there1, tasks1);
            Known(here, tasks2) &&
            var here2 := Yield(here, tasks2).0;
            && there2.current == Some(t)
            && if here.ready == [] then here2.current == Some(t) else t in here2.ready
  {
    var t := here.current.value;
    var (there1, tasks1) := AddTask(there, InState(tasks, t, Blocking), t);
    assert there1.ready[0] == t;
    var (there2, tasks2) := Yield(there1, tasks1);
    if here.ready != [] {
      var here2 := Yield(here, tasks2).0;
      assert here2.ready[|here2.ready| - 1] == t;
    }
  }

  /** Not every wake-up onto the own processor does harm: behind another woken task it is left once
      in the ready queue. */
  lemma WokenBehind(cpu: Cpu, tasks: Tasks, u: nat)
    requires Slicing(cpu, tasks) && u in tasks && u != cpu.current.value
    ensures var t := cpu.current.value;
            var (woken, tasks1) := AddTask(cpu, InState(tasks, t, Blocking), t);
            Known(woken, tasks1) &&
            var (both, tasks2) := AddTask(woken, tasks1, u);
            Known(both, tasks2) &&
            var (after, tasks3) := Yield(both, tasks2);
            after.current == Some(u) && after.ready == [t] + cpu.ready && tasks3[t].state == Runnable
  {
    var t := cpu.current.value;
    var (woken, tasks1) := AddTask(cpu, InState(tasks, t, Blocking), t);
    var (both, tasks2) := AddTask(woken, tasks1, u);
    assert both.ready[0] == u && both.ready[1..] == [t] + cpu.ready;
  }
}
