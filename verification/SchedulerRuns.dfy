/** Whole runs of the scheduler machine: exactly when every task is in one place, and exactly when a
    processor is left idle over work (kernel/scheduler/scheduler.cpp:58-156). */
module SchedulerRuns {
  import opened Options
  import opened Scheduler
  import opened SchedulerMachine

  // ---------------------------------------------------------------------
  // One place for every task
  // ---------------------------------------------------------------------

  /** A spot a task can be in, down to the position in the list. */
  datatype Spot = OnCpu(k: nat) | InReady(k: nat, i: nat) | InWait(w: nat, i: nat) | Held

  /** A processor that the task is leaving does not count. */
  ghost predicate At(s: State, t: nat, spot: Spot) {
    match spot
    case OnCpu(k) => k < |s.cpus| && k !in s.leaving && s.cpus[k].current == Some(t)
    case InReady(k, i) => k < |s.cpus| && i < |s.cpus[k].ready| && s.cpus[k].ready[i] == t
    case InWait(w, i) => w in s.waits && i < |s.waits[w]| && s.waits[w][i] == t
    case Held => t in s.hand
  }

  /** A task found at a spot has the state that goes with it. */
  ghost predicate Fits(st: RunState, spot: Spot) {
    match spot
    case OnCpu(_) => st == Running
    case InReady(_, _) => st == Runnable
    case InWait(_, _) => st == Blocking
    case Held => st != Running
  }

  ghost predicate IsAlone(s: State, t: nat, spot: Spot) {
    At(s, t, spot) && forall other :: At(s, t, other) ==> other == spot
  }

  /** The task is at exactly one spot, in the matching state. */
  ghost predicate InOnePlace(s: State, t: nat) {
    t in s.tasks && exists spot :: IsAlone(s, t, spot) && Fits(s.tasks[t].state, spot)
  }

  ghost predicate AllInPlace(s: State) {
    forall t :: t in s.tasks ==> InOnePlace(s, t)
  }

  function PlaceOf(spot: Spot): Place {
    match spot
    case OnCpu(k) => CurrentOn(k)
    case InReady(k, _) => ReadyOn(k)
    case InWait(w, _) => WaitingIn(w)
    case Held => InHand
  }

  lemma SpotOf(s: State, place: map<nat, Place>, t: nat, spot: Spot)
    requires Consistent(s, place) && At(s, t, spot)
    ensures t in s.tasks && t in place && place[t] == PlaceOf(spot) && Fits(s.tasks[t].state, spot)
  {
    match spot
    case OnCpu(k) => CpuPart(s, place, k); TaskPart(s, place, t);
    case InReady(k, i) => CpuPart(s, place, k); TaskPart(s, place, t);
    case InWait(w, i) => assert ListOk(s.tasks, place, s.waits[w], WaitingIn(w)); TaskPart(s, place, t);
    case Held => TaskPart(s, place, t);
  }

  lemma SpotsAgree(s: State, place: map<nat, Place>, t: nat, spot: Spot, other: Spot)
    requires Consistent(s, place) && At(s, t, spot) && At(s, t, other)
    ensures spot == other
  {
    SpotOf(s, place, t, spot);
    SpotOf(s, place, t, other);
    match spot
    case InReady(k, _) => CpuPart(s, place, k);
    case InWait(w, _) => assert ListOk(s.tasks, place, s.waits[w], WaitingIn(w));
    case _ =>
  }

  lemma SpotFor(s: State, place: map<nat, Place>, t: nat) returns (spot: Spot)
    requires Consistent(s, place) && t in s.tasks
    ensures At(s, t, spot)
  {
    TaskPart(s, place, t);
    match place[t] {
      case CurrentOn(k) => spot := OnCpu(k);
      case ReadyOn(k) =>
        var i :| 0 <= i < |s.cpus[k].ready| && s.cpus[k].ready[i] == t;
        spot := InReady(k, i);
      case WaitingIn(w) =>
        var i :| 0 <= i < |s.waits[w]| && s.waits[w][i] == t;
        spot := InWait(w, i);
      case InHand => spot := Held;
    }
  }

  lemma InvMeans(s: State, t: nat)
    requires Inv(s) && t in s.tasks
    ensures InOnePlace(s, t)
  {
    hide Consistent, At, Fits;
    var place: map<nat, Place> :| Consistent(s, place);
    var spot := SpotFor(s, place, t);
    SpotOf(s, place, t, spot);
    forall other | At(s, t, other) ensures other == spot {
      SpotsAgree(s, place, t, spot, other);
    }
    assert IsAlone(s, t, spot);
  }

  lemma TwoSpots(s: State, t: nat, a: Spot, b: Spot)
    requires At(s, t, a) && At(s, t, b) && a != b
    ensures !InOnePlace(s, t)
  {}

  // ---------------------------------------------------------------------
  // The least busy processor
  // ---------------------------------------------------------------------

  /** The tasks placed on processor `k`. */
  ghost function PlacedOn(place: map<nat, Place>, k: nat): set<nat> {
    set t | t in place && (place[t] == CurrentOn(k) || place[t] == ReadyOn(k))
  }

  /** `taskCount()` is the number of tasks placed on the processor. It counts one more only where a
      task on its way to `yield()` is RUNNING again elsewhere. */
  lemma TaskCountIs(s: State, place: map<nat, Place>, k: nat)
    requires Consistent(s, place) && k < |s.cpus|
    ensures TaskCount(s.cpus[k], s.tasks)
            == |PlacedOn(place, k)| + if k in s.leaving && IsRunning(s.cpus[k], s.tasks) then 1 else 0
  {
    var cpu := s.cpus[k];
    var ready := Elements(cpu.ready);
    CpuPart(s, place, k);
    CountOfList(cpu.ready);
    forall t | t in place ensures place[t] == ReadyOn(k) <==> t in cpu.ready {
      ReadyMeans(s, place, k, t);
    }
    forall t | t in place ensures place[t] == CurrentOn(k) <==> k !in s.leaving && cpu.current == Some(t) {
      TaskPart(s, place, t);
    }
    hide Consistent, CpuOk, ListOk;
    if cpu.current.Some? && k !in s.leaving {
      assert PlacedOn(place, k) == ready + {cpu.current.value};
    } else {
      assert PlacedOn(place, k) == ready;
    }
  }

  lemma ReadyMeans(s: State, place: map<nat, Place>, k: nat, t: nat)
    requires Consistent(s, place) && k < |s.cpus| && t in place
    ensures place[t] == ReadyOn(k) <==> t in s.cpus[k].ready
  {
    TaskPart(s, place, t);
    CpuPart(s, place, k);
  }

  /** What `getLeastBusy` answers to processor `self`: no scheduler has fewer tasks; its own unless
      another has strictly fewer, and then the first of the least busy. */
  ghost predicate LeastBusy(s: State, self: nat, k: nat) {
    && self < |s.cpus| && k < |s.cpus|
    && (forall j :: 0 <= j < |s.cpus| ==> TaskCount(s.cpus[k], s.tasks) <= TaskCount(s.cpus[j], s.tasks))
    && (k != self ==> TaskCount(s.cpus[k], s.tasks) < TaskCount(s.cpus[self], s.tasks))
    && (k != self ==> forall j :: 0 <= j < k ==> TaskCount(s.cpus[k], s.tasks) < TaskCount(s.cpus[j], s.tasks))
  }

  /** While no task is on its way to `yield()`, the scheduler chosen has the fewest tasks placed on it,
      and fewer than the caller's own if it is another. */
  lemma LeastBusyMeans(s: State, place: map<nat, Place>, self: nat, k: nat, j: nat)
    requires Consistent(s, place) && s.leaving == {} && LeastBusy(s, self, k) && j < |s.cpus|
    ensures |PlacedOn(place, k)| <= |PlacedOn(place, j)|
    ensures k != self ==> |PlacedOn(place, k)| < |PlacedOn(place, self)|
    ensures k != self && j < k ==> |PlacedOn(place, k)| < |PlacedOn(place, j)|
  {
    hide Consistent, TaskCount, PlacedOn;
    TaskCountIs(s, place, k);
    TaskCountIs(s, place, j);
    TaskCountIs(s, place, self);
  }

  // ---------------------------------------------------------------------
  // A yield that comes too late
  // ---------------------------------------------------------------------

  /** What the yield does to a task it does not take off the processor. */
  lemma YieldBringsBack(cpu: Cpu, tasks: Tasks)
    requires Known(cpu, tasks) && cpu.current.Some? && !cpu.locked && ComesBack(cpu, tasks)
    ensures var r, t := Yield(cpu, tasks).0, cpu.current.value;
            && (cpu.ready == [] ==> r.current == Some(t))
            && (cpu.ready != [] && cpu.ready[0] == t ==> r.current == Some(t))
            && (cpu.ready != [] ==> r.ready != [] && r.ready[|r.ready| - 1] == t)
  {}

  /** The task a too late yield leaves behind is current on this processor, or last in its ready
      queue, and besides it is wherever it was taken to - or both of the former. */
  lemma TooLateBreaks(s: State, e: Event, k: nat)
    requires Inv(s) && Enabled(s, e) && TooLateOn(s, e, k)
    ensures !InOnePlace(Step(s, e), s.cpus[k].current.value)
  {
    hide Consistent, Elsewhere, ListOk;
    var place: map<nat, Place> :| Consistent(s, place);
    var cpu, t := s.cpus[k], s.cpus[k].current.value;
    TaskPart(s, place, t);
    var s' := Step(s, e);
    var before, tasks := YieldedCpu(s, e, k), YieldedTasks(s, e, k);
    SwitchesTo(s, e, k);
    YieldBringsBack(before, tasks);
    hide Step, Yield, YieldedCpu, YieldedTasks, YieldsOn, Enabled;
    var last := |s'.cpus[k].ready| - 1;
    if cpu.ready != [] && cpu.ready[0] == t {
      TwoSpots(s', t, OnCpu(k), InReady(k, last));
    } else if cpu.ready == [] {
      TwoSpots(s', t, OnCpu(k), OnCpu(place[t].k));
    } else {
      TwoSpots(s', t, InReady(k, last), OnCpu(place[t].k));
    }
  }

  /** The processor and the tasks as `yield()` finds them. */
  ghost function YieldedCpu(s: State, e: Event, k: nat): Cpu
    requires k < |s.cpus| && (e.Requested? ==> s.cpus[k].requests > 0)
  {
    if e.Requested? then s.cpus[k].(requests := s.cpus[k].requests - 1)
    else if e.DoUnlock? then s.cpus[k].(locked := false, postponed := false)
    else s.cpus[k]
  }

  ghost function YieldedTasks(s: State, e: Event, k: nat): Tasks
    requires KnownAt(s, k)
  {
    if e.DoTick? && IsRunning(s.cpus[k], s.tasks) then
      var t := s.cpus[k].current.value;
      s.tasks[t := s.tasks[t].(slice := Decremented(s.tasks[t].slice))]
    else s.tasks
  }

  lemma SwitchesTo(s: State, e: Event, k: nat)
    requires Enabled(s, e) && KnownAt(s, k) && YieldsOn(s, e, k)
    ensures var cpu, tasks := YieldedCpu(s, e, k), YieldedTasks(s, e, k);
            && Known(cpu, tasks) && !cpu.locked
            && cpu.current == s.cpus[k].current && cpu.ready == s.cpus[k].ready
            && (cpu.current.Some? ==> (ComesBack(cpu, tasks) <==> ComesBack(s.cpus[k], s.tasks)))
            && Step(s, e) == s.(cpus := s.cpus[k := Yield(cpu, tasks).0], tasks := Yield(cpu, tasks).1,
                             leaving := s.leaving - {k})
  {
    hide Yield;
    assert e.DoUnlock? ==> s.leaving - {k} == s.leaving;
  }

  /** After the yield of a task that has called `block()` the task is at exactly one spot if and only
      if, when the yield ran, it was not next in this processor's own ready queue and its state was
      not RUNNING: no wake-up had got it back so far. */
  lemma LeavesExactly(s: State, e: Event, k: nat)
    requires Inv(s) && Enabled(s, e) && k in s.leaving && KnownAt(s, k) && YieldsOn(s, e, k)
    ensures s.cpus[k].current.Some?
    ensures var t := s.cpus[k].current.value;
            InOnePlace(Step(s, e), t)
            <==> (s.cpus[k].ready == [] || s.cpus[k].ready[0] != t) && s.tasks[t].state != Running
  {
    hide Consistent, InOnePlace, Step;
    var place: map<nat, Place> :| Consistent(s, place);
    LeavingHasTask(s, place, k);
    if ComesBack(s.cpus[k], s.tasks) {
      TooLateBreaks(s, e, k);
    } else {
      YieldsOnOne(s, e, k);
      StepKeepsInv(s, e);
      StepKeepsTasks(s, e);
      InvMeans(Step(s, e), s.cpus[k].current.value);
    }
  }

  lemma YieldsOnOne(s: State, e: Event, k: nat)
    requires Enabled(s, e) && YieldsOn(s, e, k) && KnownAt(s, k) && s.cpus[k].current.Some?
    requires !ComesBack(s.cpus[k], s.tasks)
    ensures !TooLate(s, e)
  {}

  lemma StepKeepsTasks(s: State, e: Event)
    requires Enabled(s, e)
    ensures s.tasks.Keys <= Step(s, e).tasks.Keys
  {}

  // ---------------------------------------------------------------------
  // Whole runs
  // ---------------------------------------------------------------------

  /** After boot: one running task per processor, and nothing else. */
  ghost predicate Init(s: State) {
    && s.hand == {} && s.adding == map[] && s.leaving == {} && (forall w :: w in s.waits ==> s.waits[w] == [])
    && (forall k :: 0 <= k < |s.cpus| ==>
          && s.cpus[k].ready == [] && !s.cpus[k].locked && IsRunning(s.cpus[k], s.tasks))
    && (forall j, k :: 0 <= j < k < |s.cpus| ==> s.cpus[j].current != s.cpus[k].current)
    && (forall t :: t in s.tasks ==> exists k :: 0 <= k < |s.cpus| && s.cpus[k].current == Some(t))
  }

  lemma InitInv(s: State)
    requires Init(s)
    ensures Inv(s)
  {
    var place := map t | t in s.tasks :: var k :| 0 <= k < |s.cpus| && s.cpus[k].current == Some(t); CurrentOn(k);
    forall t | t in s.tasks ensures TaskOk(s, place, t) {
    }
    forall k | 0 <= k < |s.cpus| ensures CpuOk(s, place, k) {
      assert IsRunning(s.cpus[k], s.tasks);
      assert TaskOk(s, place, s.cpus[k].current.value);
    }
    assert Consistent(s, place);
  }

  ghost predicate Legal(s: State, es: seq<Event>)
    decreases |es|
  {
    es == [] || (Enabled(s, es[0]) && Legal(Step(s, es[0]), es[1..]))
  }

  ghost function Run(s: State, es: seq<Event>): State
    requires Legal(s, es)
    decreases |es|
  {
    if es == [] then s else Run(Step(s, es[0]), es[1..])
  }

  /** No yield of the run comes too late. */
  ghost predicate Calm(s: State, es: seq<Event>)
    requires Legal(s, es)
    decreases |es|
  {
    es == [] || (!TooLate(s, es[0]) && Calm(Step(s, es[0]), es[1..]))
  }

  ghost predicate AlwaysInPlace(s: State, es: seq<Event>)
    requires Legal(s, es)
    decreases |es|
  {
    AllInPlace(s) && (es != [] ==> AlwaysInPlace(Step(s, es[0]), es[1..]))
  }

  /** One step brings a task into two places if and only if it is a yield that comes too late. */
  lemma StepExactly(s: State, e: Event)
    requires Inv(s) && Enabled(s, e)
    ensures AllInPlace(Step(s, e)) <==> !TooLate(s, e)
    ensures !TooLate(s, e) ==> Inv(Step(s, e))
  {
    hide Inv, InOnePlace, Step;
    if TooLate(s, e) {
      var k: nat :| TooLateOn(s, e, k);
      TooLateBreaks(s, e, k);
      StepKeepsTasks(s, e);
      assert s.cpus[k].current.value in Step(s, e).tasks;
    } else {
      StepKeepsInv(s, e);
      forall t | t in Step(s, e).tasks ensures InOnePlace(Step(s, e), t) {
        InvMeans(Step(s, e), t);
      }
    }
  }

  lemma {:induction false} RunsExactly(s: State, es: seq<Event>)
    requires Inv(s) && Legal(s, es)
    ensures AlwaysInPlace(s, es) <==> Calm(s, es)
    decreases |es|
  {
    hide Inv, InOnePlace, Step, TooLate, Enabled;
    forall t | t in s.tasks ensures InOnePlace(s, t) {
      InvMeans(s, t);
    }
    if es != [] {
      StepExactly(s, es[0]);
      if !TooLate(s, es[0]) {
        RunsExactly(Step(s, es[0]), es[1..]);
      } else {
        assert !AlwaysInPlace(Step(s, es[0]), es[1..]);
      }
    }
  }

  lemma {:induction false} RunKeepsInv(s: State, es: seq<Event>)
    requires Inv(s) && Legal(s, es) && Calm(s, es)
    ensures Inv(Run(s, es))
    decreases |es|
  {
    hide Inv, Step, TooLate, Enabled;
    if es != [] {
      StepKeepsInv(s, es[0]);
      RunKeepsInv(Step(s, es[0]), es[1..]);
    }
  }

  /** In a run from boot every task is at every moment at exactly one spot - current on one processor,
      once in one ready queue, once in one wait queue, or in a waker's hand - with the matching state,
      if and only if no yield after a `block()` comes too late. */
  lemma OnePlacePerTask(s: State, es: seq<Event>)
    requires Init(s) && Legal(s, es)
    ensures AlwaysInPlace(s, es) <==> Calm(s, es)
    ensures Calm(s, es) ==> AllInPlace(Run(s, es))
  {
    hide Init, Inv, Legal, Calm, AlwaysInPlace, InOnePlace, Run;
    InitInv(s);
    RunsExactly(s, es);
    if Calm(s, es) {
      RunKeepsInv(s, es);
      forall t | t in Run(s, es).tasks ensures InOnePlace(Run(s, es), t) {
        InvMeans(Run(s, es), t);
      }
    }
  }

  // ---------------------------------------------------------------------
  // Never idle over work
  // ---------------------------------------------------------------------

  /** `addTask` has decided to push at the back and not pushed yet. */
  predicate BackPending(s: State, k: nat) {
    k in s.adding && !s.adding[k].front
  }

  /** An idle processor has no push at the back to come, and an empty ready queue or a yield on its
      way. */
  predicate IdleOk(s: State, k: nat)
    requires k < |s.cpus|
  {
    s.cpus[k].current.None? ==> !BackPending(s, k) && (s.cpus[k].ready == [] || s.cpus[k].requests > 0)
  }

  /** The step takes a task that has called `block()` off processor `k`. */
  ghost predicate CompletesBlock(s: State, e: Event, k: nat)
    requires Enabled(s, e)
  {
    k in s.leaving && YieldsOn(s, e, k)
  }

  /** It leaves the processor idle while a push at the back is still to come. */
  ghost predicate Empties(s: State, e: Event, k: nat)
    requires Enabled(s, e) && k < |s.cpus|
  {
    CompletesBlock(s, e, k) && s.cpus[k].ready == [] && BackPending(s, k)
  }

  /** Tasks a processor has: its current one and those in its ready queue. */
  function Load(cpu: Cpu): nat {
    |cpu.ready| + if cpu.current.Some? then 1 else 0
  }

  /** Steps that neither yield on processor `k` nor push there. */
  lemma StayStep(s: State, e: Event, k: nat)
    requires Enabled(s, e) && k < |s.cpus| && !YieldsOn(s, e, k) && e != Push(k)
    ensures var cpu, s' := s.cpus[k], Step(s, e);
            && |s'.cpus| == |s.cpus| && s'.cpus[k].current == cpu.current && s'.cpus[k].ready == cpu.ready
            && cpu.requests == s'.cpus[k].requests + (if e == Requested(k) then 1 else 0)
            && (k in s.adding ==> k in s'.adding && s'.adding[k] == s.adding[k])
            && (BackPending(s', k) && !BackPending(s, k) ==> cpu.current.Some?)
  {}

  /** A task that has called `block()` leaves the processor to the next one. */
  lemma LeaveStep(s: State, e: Event, k: nat)
    requires Inv(s) && Enabled(s, e) && !TooLate(s, e) && CompletesBlock(s, e, k)
    ensures k < |s.cpus| && |Step(s, e).cpus| == |s.cpus| && s.cpus[k].current.Some?
    ensures var cpu, cpu' := s.cpus[k], Step(s, e).cpus[k];
            && cpu'.current == LeftCpu(cpu).current && cpu'.ready == LeftCpu(cpu).ready
            && cpu.requests == cpu'.requests + (if e == Requested(k) then 1 else 0)
    ensures Step(s, e).adding == s.adding
  {
    var place: map<nat, Place> :| Consistent(s, place);
    LeavingHasTask(s, place, k);
    CpuPart(s, place, k);
    hide Consistent, CpuOk, Inv, ListOk;
    SwitchesTo(s, e, k);
    assert !TooLateOn(s, e, k);
    hide Step;
    YieldLeaves(YieldedCpu(s, e, k), YieldedTasks(s, e, k));
  }

  /** Other yields keep the processor's tasks, and give it a current one if there is any. */
  lemma SwitchStep(s: State, e: Event, k: nat)
    requires Inv(s) && Enabled(s, e) && YieldsOn(s, e, k) && k !in s.leaving && k < |s.cpus|
    ensures |Step(s, e).cpus| == |s.cpus|
    ensures var cpu, cpu' := s.cpus[k], Step(s, e).cpus[k];
            && Load(cpu') == Load(cpu) && (cpu'.current.Some? <==> Load(cpu) > 0)
            && cpu.requests == cpu'.requests + (if e == Requested(k) then 1 else 0)
    ensures Step(s, e).adding == s.adding
  {
    var place: map<nat, Place> :| Consistent(s, place);
    CpuPart(s, place, k);
    if s.cpus[k].ready != [] {
      InReadyList(s, place, k, 0);
    }
    hide Consistent, CpuOk, Inv, ListOk;
    SwitchesTo(s, e, k);
    hide Step, YieldsOn, Enabled;
    YieldKeepsLoad(YieldedCpu(s, e, k), YieldedTasks(s, e, k));
  }

  lemma YieldKeepsLoad(cpu: Cpu, tasks: Tasks)
    requires Known(cpu, tasks) && !cpu.locked && (cpu.current.Some? ==> IsRunning(cpu, tasks))
    requires cpu.ready != [] ==> Some(cpu.ready[0]) != cpu.current
    ensures var cpu' := Yield(cpu, tasks).0;
            && Load(cpu') == Load(cpu) && (cpu'.current.Some? <==> Load(cpu) > 0) && cpu'.requests == cpu.requests
  {}

  lemma IdleUnlocked(s: State, k: nat)
    requires Inv(s) && k < |s.cpus|
    ensures s.cpus[k].current.None? ==> !s.cpus[k].locked
  {
    var place: map<nat, Place> :| Consistent(s, place);
    FlagsOf(s, place, k);
  }

  /** The idle clause survives every step except a block that leaves the processor idle while a push
      at the back is to come. */
  lemma IdleExactly(s: State, e: Event, k: nat)
    requires Inv(s) && Enabled(s, e) && !TooLate(s, e) && k < |s.cpus| && IdleOk(s, k)
    ensures k < |Step(s, e).cpus|
    ensures IdleOk(Step(s, e), k) <==> !Empties(s, e, k)
  {
    hide Inv, TooLate;
    if CompletesBlock(s, e, k) {
      LeaveStep(s, e, k);
      hide Step, YieldsOn;
    } else if YieldsOn(s, e, k) {
      SwitchStep(s, e, k);
      hide Step, YieldsOn;
    } else if e != Push(k) {
      StayStep(s, e, k);
      IdleUnlocked(s, k);
      assert e == Requested(k) ==> s.cpus[k].locked;
      hide Step, YieldsOn;
    }
  }

  ghost predicate AllIdleOk(s: State) {
    forall k :: 0 <= k < |s.cpus| ==> IdleOk(s, k)
  }

  ghost predicate AlwaysIdleOk(s: State, es: seq<Event>)
    requires Legal(s, es)
    decreases |es|
  {
    AllIdleOk(s) && (es != [] ==> AlwaysIdleOk(Step(s, es[0]), es[1..]))
  }

  /** Some processor is left idle with a push at the back to come. */
  ghost predicate EmptiesSome(s: State, e: Event)
    requires Enabled(s, e)
  {
    exists k :: 0 <= k < |s.cpus| && Empties(s, e, k)
  }

  ghost predicate NeverEmpties(s: State, es: seq<Event>)
    requires Legal(s, es)
    decreases |es|
  {
    es == [] || (!EmptiesSome(s, es[0]) && NeverEmpties(Step(s, es[0]), es[1..]))
  }

  lemma IdleStep(s: State, e: Event)
    requires Inv(s) && Enabled(s, e) && !TooLate(s, e) && AllIdleOk(s)
    ensures AllIdleOk(Step(s, e)) <==> !EmptiesSome(s, e)
  {
    hide Inv, TooLate, Step, IdleOk, Empties, Enabled;
    forall k | 0 <= k < |s.cpus|
      ensures k < |Step(s, e).cpus| && (IdleOk(Step(s, e), k) <==> !Empties(s, e, k))
    {
      IdleExactly(s, e, k);
    }
    SameCpus(s, e);
  }

  lemma SameCpus(s: State, e: Event)
    requires Enabled(s, e)
    ensures |Step(s, e).cpus| == |s.cpus|
  {}

  lemma {:induction false} IdleRun(s: State, es: seq<Event>)
    requires Inv(s) && Legal(s, es) && Calm(s, es) && AllIdleOk(s)
    ensures AlwaysIdleOk(s, es) <==> NeverEmpties(s, es)
    ensures NeverEmpties(s, es) ==> AllIdleOk(Run(s, es))
    decreases |es|
  {
    hide Inv, TooLate, Step, AllIdleOk, EmptiesSome, Enabled;
    if es != [] {
      IdleStep(s, es[0]);
      if !EmptiesSome(s, es[0]) {
        StepKeepsInv(s, es[0]);
        IdleRun(Step(s, es[0]), es[1..]);
      } else {
        assert !AlwaysIdleOk(Step(s, es[0]), es[1..]);
      }
    }
  }

  /** In a run from boot in which no yield comes too late, the idle clause holds at every moment if
      and only if no block ever leaves a processor idle with a push at the back to come. */
  lemma IdleClauseExactly(s: State, es: seq<Event>)
    requires Init(s) && Legal(s, es) && Calm(s, es)
    ensures AlwaysIdleOk(s, es) <==> NeverEmpties(s, es)
  {
    assert AllIdleOk(s);
    InitInv(s);
    hide Init, Inv, Legal, Calm, AlwaysIdleOk, NeverEmpties, Run;
    IdleRun(s, es);
  }

  // ---------------------------------------------------------------------
  // Between the decision and the push
  // ---------------------------------------------------------------------

  /** How many blocks of the run are completed on processor `k`. */
  ghost function BlocksOn(s: State, es: seq<Event>, k: nat): nat
    requires Legal(s, es)
    decreases |es|
  {
    if es == [] then 0
    else BlocksOn(Step(s, es[0]), es[1..], k) + if CompletesBlock(s, es[0], k) then 1 else 0
  }

  /** How many requested yields run on processor `k`. */
  function ServedOn(es: seq<Event>, k: nat): nat {
    if es == [] then 0 else ServedOn(es[1..], k) + if es[0] == Requested(k) then 1 else 0
  }

  /** An idle processor has nothing ready. */
  predicate IdleEmpty(cpu: Cpu) {
    cpu.current.None? ==> cpu.ready == []
  }

  lemma WindowStep(s: State, e: Event, k: nat)
    requires Inv(s) && Enabled(s, e) && !TooLate(s, e) && k < |s.cpus| && e != Push(k) && IdleEmpty(s.cpus[k])
    ensures var cpu, s' := s.cpus[k], Step(s, e);
            && |s'.cpus| == |s.cpus| && IdleEmpty(s'.cpus[k])
            && Load(cpu) == Load(s'.cpus[k]) + (if CompletesBlock(s, e, k) then 1 else 0)
            && cpu.requests == s'.cpus[k].requests + (if e == Requested(k) then 1 else 0)
            && (k in s.adding ==> k in s'.adding && s'.adding[k] == s.adding[k])
  {
    hide Inv, TooLate;
    if CompletesBlock(s, e, k) {
      LeaveStep(s, e, k);
      hide Step, YieldsOn;
    } else if YieldsOn(s, e, k) {
      SwitchStep(s, e, k);
      hide Step, YieldsOn;
    } else {
      StayStep(s, e, k);
      hide Step, YieldsOn;
    }
  }

  /** While the lock of scheduler `k` is taken, its processor loses a task for every block it
      completes, and a request for every one it serves, and gains none. */
  lemma {:induction false} WindowCounts(s: State, es: seq<Event>, k: nat)
    requires Inv(s) && Legal(s, es) && Calm(s, es) && Push(k) !in es && k < |s.cpus| && IdleEmpty(s.cpus[k])
    requires k in s.adding
    ensures var cpu, s' := s.cpus[k], Run(s, es);
            && |s'.cpus| == |s.cpus| && IdleEmpty(s'.cpus[k])
            && Load(cpu) == Load(s'.cpus[k]) + BlocksOn(s, es, k)
            && cpu.requests == s'.cpus[k].requests + ServedOn(es, k)
            && k in s'.adding && s'.adding[k] == s.adding[k]
    decreases |es|
  {
    hide Inv, TooLate, Step, Enabled, CompletesBlock, IdleEmpty, Load;
    if es != [] {
      StepKeepsInv(s, es[0]);
      WindowStep(s, es[0], k);
      WindowCounts(Step(s, es[0]), es[1..], k);
    }
  }

  /** `addTask` decides to push at the back of scheduler `k`; then any steps of any processors follow,
      none of them a yield that comes too late; then it pushes. The push leaves the processor stuck
      if and only if in between it served every request outstanding at the decision and completed as
      many blocks as it had tasks then: its current one and all the ready ones. */
  lemma LatePush(s: State, k: nat, t: nat, es: seq<Event>)
    requires Inv(s) && Enabled(s, Decide(k, t)) && !Step(s, Decide(k, t)).adding[k].front
    requires var s1 := Step(s, Decide(k, t)); Legal(s1, es) && Calm(s1, es) && Push(k) !in es
    ensures var s1 := Step(s, Decide(k, t));
            var s2 := Run(s1, es);
            && Enabled(s2, Push(k)) && k < |Step(s2, Push(k)).cpus|
            && (Stuck(Step(s2, Push(k)).cpus[k])
                <==> ServedOn(es, k) == s.cpus[k].requests && BlocksOn(s1, es, k) == 1 + |s.cpus[k].ready|)
  {
    hide Inv, Legal, Calm, Run, BlocksOn, TooLate;
    assert !TooLate(s, Decide(k, t)) by { NoYieldNotTooLate(s, Decide(k, t)); }
    var s1 := Step(s, Decide(k, t));
    StepKeepsInv(s, Decide(k, t));
    WindowCounts(s1, es, k);
    var s2 := Run(s1, es);
    assert Load(s2.cpus[k]) == 0 <==> s2.cpus[k].current.None?;
  }

  lemma NoYieldNotTooLate(s: State, e: Event)
    requires Enabled(s, e) && e.Decide?
    ensures !TooLate(s, e)
  {}

  // ---------------------------------------------------------------------
  // Over whole runs
  // ---------------------------------------------------------------------

  /** Only the push of a task at the back can leave a processor stuck, and does exactly when the
      processor is idle with no yield on its way. */
  lemma BecomesStuck(s: State, e: Event, k: nat)
    requires Inv(s) && Enabled(s, e) && !TooLate(s, e) && k < |s.cpus| && !Stuck(s.cpus[k])
    ensures k < |Step(s, e).cpus|
    ensures Stuck(Step(s, e).cpus[k])
            <==> e == Push(k) && BackPending(s, k) && s.cpus[k].current.None? && s.cpus[k].requests == 0
  {
    hide Inv, TooLate;
    if CompletesBlock(s, e, k) {
      LeaveStep(s, e, k);
      hide Step, YieldsOn;
    } else if YieldsOn(s, e, k) {
      SwitchStep(s, e, k);
      hide Step, YieldsOn;
    } else if e != Push(k) {
      StayStep(s, e, k);
      IdleUnlocked(s, k);
      assert e == Requested(k) ==> s.cpus[k].locked;
      hide Step, YieldsOn;
    }
  }

  lemma {:induction false} PrefixLegal(s: State, es: seq<Event>, n: nat)
    requires Legal(s, es) && n <= |es|
    ensures Legal(s, es[..n])
    decreases n
  {
    hide Step, Enabled;
    if n > 0 {
      PrefixLegal(Step(s, es[0]), es[1..], n - 1);
      assert es[..n][1..] == es[1..][..n - 1];
    }
  }

  /** The next push onto scheduler `k` is event `n` of the run, and before it the processor serves
      `requests` requests and completes `blocks` blocks. */
  ghost predicate PushAfter(s: State, es: seq<Event>, k: nat, n: nat, requests: nat, blocks: nat)
    requires Legal(s, es)
  {
    && n < |es| && es[n] == Push(k) && Push(k) !in es[..n]
    && ServedOn(es[..n], k) == requests
    && (PrefixLegal(s, es, n); BlocksOn(s, es[..n], k)) == blocks
  }

  ghost predicate Meets(s: State, es: seq<Event>, k: nat, requests: nat, blocks: nat)
    requires Legal(s, es)
  {
    exists n: nat :: PushAfter(s, es, k, n, requests, blocks)
  }

  /** `addTask` has just decided for a push at the back of scheduler `k`, and the run meets the two
      counts of `LatePush` before the push. */
  ghost predicate LosesTask(s: State, k: nat, t: nat, es: seq<Event>)
    requires Enabled(s, Decide(k, t)) && Legal(Step(s, Decide(k, t)), es)
  {
    && !Step(s, Decide(k, t)).adding[k].front
    && Meets(Step(s, Decide(k, t)), es, k, s.cpus[k].requests, 1 + |s.cpus[k].ready|)
  }

  /** No window of the run between a decision and its push meets the counts. */
  ghost predicate NoLoss(s: State, es: seq<Event>)
    requires Legal(s, es)
    decreases |es|
  {
    es == [] || (&& (es[0].Decide? ==> !LosesTask(s, es[0].k, es[0].t, es[1..]))
                 && NoLoss(Step(s, es[0]), es[1..]))
  }

  ghost predicate NoneStuck(s: State) {
    forall k :: 0 <= k < |s.cpus| ==> !Stuck(s.cpus[k])
  }

  ghost predicate NeverStuck(s: State, es: seq<Event>)
    requires Legal(s, es)
    decreases |es|
  {
    NoneStuck(s) && (es != [] ==> NeverStuck(Step(s, es[0]), es[1..]))
  }

  /** The push at the back that is pending on scheduler `k` will leave its processor stuck. */
  ghost predicate WillStick(s: State, es: seq<Event>, k: nat)
    requires Legal(s, es) && k < |s.cpus|
  {
    BackPending(s, k) && Meets(s, es, k, s.cpus[k].requests, Load(s.cpus[k]))
  }

  ghost predicate NoneWillStick(s: State, es: seq<Event>)
    requires Legal(s, es)
  {
    forall k :: 0 <= k < |s.cpus| ==> !WillStick(s, es, k)
  }

  /** While a push at the back is pending, an idle processor has nothing ready. */
  ghost predicate PendingOk(s: State) {
    forall k :: 0 <= k < |s.cpus| && BackPending(s, k) ==> IdleEmpty(s.cpus[k])
  }

  /** The first event of a window moves to the counts what it takes from the processor. */
  lemma PushAfterStep(s: State, es: seq<Event>, k: nat, n: nat, requests: nat, blocks: nat)
    requires Legal(s, es) && es != [] && es[0] != Push(k) && n > 0
    ensures PushAfter(s, es, k, n,
                      requests + (if es[0] == Requested(k) then 1 else 0),
                      blocks + (if CompletesBlock(s, es[0], k) then 1 else 0))
            <==> PushAfter(Step(s, es[0]), es[1..], k, n - 1, requests, blocks)
  {
    hide Step, Enabled, CompletesBlock, Legal;
    if n < |es| {
      PrefixParts(s, es, k, n);
    }
  }

  lemma PrefixParts(s: State, es: seq<Event>, k: nat, n: nat)
    requires Legal(s, es) && 0 < n < |es|
    ensures Enabled(s, es[0]) && Legal(Step(s, es[0]), es[1..])
    ensures Legal(s, es[..n]) && Legal(Step(s, es[0]), es[1..][..n - 1]) && es[n] == es[1..][n - 1]
    ensures ServedOn(es[..n], k) == ServedOn(es[1..][..n - 1], k) + if es[0] == Requested(k) then 1 else 0
    ensures BlocksOn(s, es[..n], k)
            == BlocksOn(Step(s, es[0]), es[1..][..n - 1], k) + if CompletesBlock(s, es[0], k) then 1 else 0
    ensures Push(k) in es[..n] <==> es[0] == Push(k) || Push(k) in es[1..][..n - 1]
  {
    hide Step, Enabled, CompletesBlock;
    PrefixLegal(s, es, n);
    assert es[..n][0] == es[0] && es[..n][1..] == es[1..][..n - 1];
    assert es[..n] == [es[0]] + es[1..][..n - 1];
  }

  lemma MeetsStep(s: State, es: seq<Event>, k: nat, requests: nat, blocks: nat)
    requires Legal(s, es) && es != [] && es[0] != Push(k)
    ensures Meets(s, es, k,
                  requests + (if es[0] == Requested(k) then 1 else 0),
                  blocks + (if CompletesBlock(s, es[0], k) then 1 else 0))
            <==> Meets(Step(s, es[0]), es[1..], k, requests, blocks)
  {
    hide PushAfter, Step, Enabled, CompletesBlock;
    var served := requests + if es[0] == Requested(k) then 1 else 0;
    var completed := blocks + if CompletesBlock(s, es[0], k) then 1 else 0;
    if n: nat :| PushAfter(s, es, k, n, served, completed) {
      NotAtOnce(s, es, k, n, served, completed);
      PushAfterStep(s, es, k, n, requests, blocks);
      assert PushAfter(Step(s, es[0]), es[1..], k, n - 1, requests, blocks);
    }
    if n: nat :| PushAfter(Step(s, es[0]), es[1..], k, n, requests, blocks) {
      PushAfterStep(s, es, k, n + 1, requests, blocks);
      assert PushAfter(s, es, k, n + 1, served, completed);
    }
  }

  lemma NotAtOnce(s: State, es: seq<Event>, k: nat, n: nat, requests: nat, blocks: nat)
    requires Legal(s, es) && es != [] && PushAfter(s, es, k, n, requests, blocks)
    ensures n == 0 <==> es[0] == Push(k)
    ensures n == 0 ==> requests == 0 && blocks == 0
  {
    assert n > 0 ==> es[..n][0] == es[0];
  }

  /** A push that is due meets the counts exactly if nothing is to be served or completed. */
  lemma MeetsNow(s: State, es: seq<Event>, k: nat, requests: nat, blocks: nat)
    requires Legal(s, es) && es != [] && es[0] == Push(k)
    ensures Meets(s, es, k, requests, blocks) <==> requests == 0 && blocks == 0
  {
    if Meets(s, es, k, requests, blocks) {
      var n: nat :| PushAfter(s, es, k, n, requests, blocks);
      NotAtOnce(s, es, k, n, requests, blocks);
    }
    if requests == 0 && blocks == 0 {
      assert es[..0] == [];
      assert PushAfter(s, es, k, 0, 0, 0);
    }
  }

  /** What one event does to the pushes that will leave processor `k` stuck. */
  lemma StickStep(s: State, es: seq<Event>, k: nat)
    requires Inv(s) && Legal(s, es) && es != [] && !TooLate(s, es[0]) && k < |s.cpus| && PendingOk(s)
    requires k < |Step(s, es[0]).cpus|
    ensures es[0] == Push(k) ==>
              && !WillStick(Step(s, es[0]), es[1..], k)
              && (WillStick(s, es, k) <==> BackPending(s, k) && s.cpus[k].current.None? && s.cpus[k].requests == 0)
    ensures es[0].Decide? && es[0].k == k ==>
              && !WillStick(s, es, k)
              && (WillStick(Step(s, es[0]), es[1..], k) <==> LosesTask(s, k, es[0].t, es[1..]))
    ensures es[0] != Push(k) && !(es[0].Decide? && es[0].k == k) ==>
              (WillStick(s, es, k) <==> WillStick(Step(s, es[0]), es[1..], k))
  {
    hide Inv, TooLate, Meets;
    var e, s' := es[0], Step(s, es[0]);
    if e == Push(k) {
      MeetsNow(s, es, k, s.cpus[k].requests, Load(s.cpus[k]));
    } else if e.Decide? && e.k == k {
    } else {
      SamePending(s, e, k);
      if BackPending(s, k) {
        WindowStep(s, e, k);
        MeetsStep(s, es, k, s'.cpus[k].requests, Load(s'.cpus[k]));
      }
    }
  }

  lemma SamePending(s: State, e: Event, k: nat)
    requires Enabled(s, e) && e != Push(k) && !(e.Decide? && e.k == k)
    ensures BackPending(Step(s, e), k) <==> BackPending(s, k)
  {}

  lemma PendingStep(s: State, e: Event)
    requires Inv(s) && Enabled(s, e) && !TooLate(s, e) && PendingOk(s)
    ensures PendingOk(Step(s, e))
  {
    hide Inv, TooLate;
    SameCpus(s, e);
    var s' := Step(s, e);
    forall k | 0 <= k < |s'.cpus| && BackPending(s', k) ensures IdleEmpty(s'.cpus[k]) {
      if !(e.Decide? && e.k == k) && e != Push(k) {
        SamePending(s, e, k);
        WindowStep(s, e, k);
      }
    }
  }

  lemma {:induction false} StuckRun(s: State, es: seq<Event>)
    requires Inv(s) && Legal(s, es) && Calm(s, es) && NoneStuck(s) && PendingOk(s)
    ensures NeverStuck(s, es) <==> NoLoss(s, es) && NoneWillStick(s, es)
    decreases |es|
  {
    hide Inv, TooLate, Step, Enabled, WillStick, LosesTask, BackPending, Stuck, PendingOk;
    if es == [] {
      NothingToCome(s);
    } else {
      var e, s' := es[0], Step(s, es[0]);
      SameCpus(s, e);
      StepKeepsInv(s, e);
      PendingStep(s, e);
      forall k | 0 <= k < |s.cpus|
        ensures Stuck(s'.cpus[k]) <==> e == Push(k) && WillStick(s, es, k)
      {
        BecomesStuck(s, e, k);
        StickStep(s, es, k);
      }
      if NoneStuck(s') {
        StuckRun(s', es[1..]);
        WindowsStep(s, es);
      } else {
        assert !NeverStuck(s', es[1..]);
      }
    }
  }

  lemma NothingToCome(s: State)
    ensures NoneWillStick(s, [])
  {}

  /** If the event leaves nobody stuck, the windows open after it are those open before it and the
      one it opens. */
  lemma WindowsStep(s: State, es: seq<Event>)
    requires Inv(s) && Legal(s, es) && es != [] && !TooLate(s, es[0]) && PendingOk(s)
    requires |Step(s, es[0]).cpus| == |s.cpus|
    requires forall k :: 0 <= k < |s.cpus| && es[0] == Push(k) ==> !WillStick(s, es, k)
    ensures NoneWillStick(Step(s, es[0]), es[1..])
            <==> NoneWillStick(s, es) && (es[0].Decide? ==> !LosesTask(s, es[0].k, es[0].t, es[1..]))
  {
    hide Inv, TooLate, Step, WillStick, LosesTask, BackPending, PendingOk;
    var e, s' := es[0], Step(s, es[0]);
    forall k | 0 <= k < |s.cpus|
      ensures WillStick(s', es[1..], k)
              <==> if e.Decide? && e.k == k then LosesTask(s, k, e.t, es[1..]) else WillStick(s, es, k)
      ensures e.Decide? && e.k == k ==> !WillStick(s, es, k)
    {
      StickStep(s, es, k);
    }
    if e.Decide? {
      assert 0 <= e.k < |s.cpus|;
    }
  }

  /** In a run from boot in which no yield comes too late, no processor is ever idle over ready tasks
      with no yield on its way if and only if no window of the run between a decision for a push at
      the back and that push meets the two counts of `LatePush`. */
  lemma NeverIdleOverWork(s: State, es: seq<Event>)
    requires Init(s) && Legal(s, es) && Calm(s, es)
    ensures NeverStuck(s, es) <==> NoLoss(s, es)
  {
    assert NoneStuck(s) && PendingOk(s);
    assert forall k :: 0 <= k < |s.cpus| ==> !BackPending(s, k);
    InitInv(s);
    hide Init, Inv, Legal, Calm, NeverStuck, NoLoss, NoneStuck, PendingOk, BackPending;
    StuckRun(s, es);
  }
}
