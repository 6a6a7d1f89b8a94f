/** Any number of processors, each with the scheduler of kernel/scheduler/scheduler.cpp, over shared
    tasks, as a step machine.

    `block()` and the `yield()` that follows it are two steps, and so are the decision and the push of
    `addTask`, with steps of any processor in between. A step is otherwise one section under a lock or
    with interrupts off. */
module SchedulerMachine {
  import opened Options
  import opened Scheduler

  /** `addTask` between its decision and its push: the task, and where it will go. */
  datatype Adding = Adding(t: nat, front: bool)

  /** All schedulers, all tasks and the wait queues; the tasks popped from one or just created and not
      pushed yet, in the hand of whoever wakes them; for each scheduler whose `addTaskLock` is taken,
      what was decided under it; and the processors whose current task has called `block()` and has
      not yielded since. */
  datatype State = State(cpus: seq<Cpu>, tasks: Tasks, waits: map<nat, seq<nat>>, hand: set<nat>,
                         adding: map<nat, Adding>, leaving: set<nat>)

  datatype Event =
    | DoYield(k: nat)
    | Requested(k: nat)      // the processor runs a yield that addTask asked for
    | DoTick(k: nat)
    | DoLock(k: nat)
    | DoUnlock(k: nat)
    | Mark(k: nat, w: nat)   // block(): the current task is marked and put into wait queue w
    | Wake(w: nat)           // the first waiter is popped
    | Create(t: nat, task: Tcb)
    | Decide(k: nat, t: nat) // addTask has picked scheduler k, takes its lock and decides
    | Push(k: nat)           // addTask pushes and gives the lock back

  ghost predicate KnownAt(s: State, k: nat) {
    k < |s.cpus| && Known(s.cpus[k], s.tasks)
  }

  /** The task runs on `k` alone. A processor that takes a task over waits for its run lock, which the
      one before releases when it has left the task. */
  ghost predicate HasRunLock(s: State, k: nat)
    requires k < |s.cpus|
  {
    forall j :: 0 <= j < |s.cpus| && j != k ==> s.cpus[j].current != s.cpus[k].current
  }

  ghost predicate BeingAdded(s: State, t: nat) {
    exists k :: k in s.adding && s.adding[k].t == t
  }

  /** The task of processor `k` is in control: there is one, and it is not on its way to `yield()`. */
  ghost predicate InControl(s: State, k: nat) {
    KnownAt(s, k) && s.cpus[k].current.Some? && k !in s.leaving
  }

  /** Nothing blocks while it holds the scheduler lock. */
  ghost predicate Enabled(s: State, e: Event) {
    match e
    case DoYield(k) => KnownAt(s, k)
    case Requested(k) => KnownAt(s, k) && s.cpus[k].requests > 0
    case DoTick(k) => KnownAt(s, k)
    case DoLock(k) => InControl(s, k)
    case DoUnlock(k) => InControl(s, k)
    case Mark(k, w) => InControl(s, k) && !s.cpus[k].locked && HasRunLock(s, k) && w in s.waits
    case Wake(w) => w in s.waits && s.waits[w] != []
    case Create(t, _) => t !in s.tasks
    case Decide(k, t) => KnownAt(s, k) && k !in s.adding && t in s.hand && t in s.tasks && !BeingAdded(s, t)
    case Push(k) => k < |s.cpus| && k in s.adding
  }

  function With(s: State, k: nat, r: (Cpu, Tasks)): State
    requires k < |s.cpus|
  {
    s.(cpus := s.cpus[k := r.0], tasks := r.1)
  }

  /** The tick that ends the current task's slice. */
  predicate Expires(cpu: Cpu, tasks: Tasks) {
    !cpu.locked && IsRunning(cpu, tasks) && Decremented(tasks[cpu.current.value].slice) == 0
  }

  /** The step runs `yield()` on processor `k`, whose scheduler is not locked. */
  ghost predicate YieldsOn(s: State, e: Event, k: nat)
    requires Enabled(s, e)
  {
    match e
    case DoYield(j) => j == k && !s.cpus[k].locked
    case Requested(j) => j == k && !s.cpus[k].locked
    case DoTick(j) => j == k && Expires(s.cpus[k], s.tasks)
    case DoUnlock(j) => j == k && s.cpus[k].postponed
    case _ => false
  }

  ghost function Step(s: State, e: Event): State
    requires Enabled(s, e)
  {
    match e
    case DoYield(k) =>
      With(s, k, Yield(s.cpus[k], s.tasks)).(leaving := if YieldsOn(s, e, k) then s.leaving - {k} else s.leaving)
    case Requested(k) =>
      With(s, k, Yield(s.cpus[k].(requests := s.cpus[k].requests - 1), s.tasks))
      .(leaving := if YieldsOn(s, e, k) then s.leaving - {k} else s.leaving)
    case DoTick(k) =>
      With(s, k, Tick(s.cpus[k], s.tasks)).(leaving := if YieldsOn(s, e, k) then s.leaving - {k} else s.leaving)
    case DoLock(k) => s.(cpus := s.cpus[k := Lock(s.cpus[k])])
    case DoUnlock(k) => With(s, k, Unlock(s.cpus[k], s.tasks))
    case Mark(k, w) =>
      var t := s.cpus[k].current.value;
      s.(tasks := InState(s.tasks, t, Blocking), waits := s.waits[w := s.waits[w] + [t]], leaving := s.leaving + {k})
    case Wake(w) => s.(waits := s.waits[w := s.waits[w][1..]], hand := s.hand + {s.waits[w][0]})
    case Create(t, task) => s.(tasks := s.tasks[t := task.(state := Runnable)], hand := s.hand + {t})
    case Decide(k, t) =>
      var tasks' := InState(s.tasks, t, Runnable);
      s.(tasks := tasks', adding := s.adding[k := Adding(t, GoesFirst(s.cpus[k], tasks', t))])
    case Push(k) =>
      var a := s.adding[k];
      s.(cpus := s.cpus[k := Pushed(s.cpus[k], a.t, a.front)], hand := s.hand - {a.t}, adding := s.adding - {k})
  }

  /** With nothing in between, the decision and the push are `AddTask`. */
  lemma DecideThenPush(s: State, k: nat, t: nat)
    requires Enabled(s, Decide(k, t))
    ensures var s1 := Step(s, Decide(k, t));
            Enabled(s1, Push(k)) &&
            Step(s1, Push(k)) == With(s, k, AddTask(s.cpus[k], s.tasks, t)).(hand := s.hand - {t})
  {
    assert (s.adding[k := Adding(t, true)] - {k}) == s.adding == (s.adding[k := Adding(t, false)] - {k});
  }

  // ---------------------------------------------------------------------
  // Where every task is
  // ---------------------------------------------------------------------

  datatype Place = CurrentOn(k: nat) | ReadyOn(k: nat) | WaitingIn(w: nat) | InHand

  /** The task is where the map says, in the matching state. A task that is leaving a processor is
      where it goes to. */
  ghost predicate TaskOk(s: State, place: map<nat, Place>, t: nat)
    requires t in s.tasks && t in place
  {
    match place[t]
    case CurrentOn(k) => k < |s.cpus| && k !in s.leaving && s.cpus[k].current == Some(t) && s.tasks[t].state == Running
    case ReadyOn(k) => k < |s.cpus| && t in s.cpus[k].ready && s.tasks[t].state == Runnable
    case WaitingIn(w) => w in s.waits && t in s.waits[w] && s.tasks[t].state == Blocking
    case InHand => t in s.hand && s.tasks[t].state != Running
  }

  ghost predicate ListOk(tasks: Tasks, place: map<nat, Place>, ts: seq<nat>, at: Place) {
    NoDuplicates(ts) && forall i :: 0 <= i < |ts| ==> ts[i] in tasks && ts[i] in place && place[ts[i]] == at
  }

  ghost predicate CpuOk(s: State, place: map<nat, Place>, k: nat)
    requires k < |s.cpus|
  {
    var cpu := s.cpus[k];
    && (cpu.current.Some? ==>
          && cpu.current.value in s.tasks && cpu.current.value in place
          && (k !in s.leaving ==> place[cpu.current.value] == CurrentOn(k)))
    && (cpu.current.None? || k in s.leaving ==> !cpu.locked)
    && (k in s.leaving ==> cpu.current.Some?)
    && ListOk(s.tasks, place, cpu.ready, ReadyOn(k))
  }

  /** No task leaves two processors at once. */
  ghost predicate LeavesOne(s: State) {
    && (forall k :: k in s.leaving ==> k < |s.cpus|)
    && (forall j, k :: j in s.leaving && k in s.leaving && j != k && j < |s.cpus| && k < |s.cpus| ==>
          s.cpus[j].current != s.cpus[k].current)
  }

  /** Tasks being added are in somebody's hand, each in one. */
  ghost predicate AddingOk(s: State) {
    && (forall k :: k in s.adding ==> s.adding[k].t in s.hand && s.adding[k].t in s.tasks
                                      && s.tasks[s.adding[k].t].state == Runnable)
    && (forall j, k :: j in s.adding && k in s.adding && s.adding[j].t == s.adding[k].t ==> j == k)
  }

  ghost predicate WaitsOk(s: State, place: map<nat, Place>) {
    forall w :: w in s.waits ==> ListOk(s.tasks, place, s.waits[w], WaitingIn(w))
  }

  ghost predicate Elsewhere(s: State, place: map<nat, Place>) {
    && place.Keys == s.tasks.Keys
    && WaitsOk(s, place)
    && (forall t :: t in s.hand ==> t in s.tasks && place[t] == InHand)
    && LeavesOne(s) && AddingOk(s)
  }

  ghost predicate Consistent(s: State, place: map<nat, Place>) {
    && Elsewhere(s, place)
    && (forall t :: t in s.tasks ==> TaskOk(s, place, t))
    && (forall k :: 0 <= k < |s.cpus| ==> CpuOk(s, place, k))
  }

  ghost predicate Inv(s: State) {
    exists place :: Consistent(s, place)
  }

  lemma TaskPart(s: State, place: map<nat, Place>, t: nat)
    requires Consistent(s, place) && t in s.tasks
    ensures t in place && TaskOk(s, place, t)
  {}

  lemma CpuPart(s: State, place: map<nat, Place>, k: nat)
    requires Consistent(s, place) && k < |s.cpus|
    ensures CpuOk(s, place, k) && Known(s.cpus[k], s.tasks)
    ensures s.cpus[k].current.Some? && k !in s.leaving ==> IsRunning(s.cpus[k], s.tasks)
  {
    assert CpuOk(s, place, k);
    if s.cpus[k].current.Some? {
      assert TaskOk(s, place, s.cpus[k].current.value);
    }
  }

  // ---------------------------------------------------------------------
  // Every step that does not bring a task back too early keeps it
  // ---------------------------------------------------------------------

  /** A list none of whose tasks moves stays in order. */
  lemma ListKept(tasks: Tasks, place: map<nat, Place>, tasks': Tasks, place': map<nat, Place>, ts: seq<nat>, at: Place)
    requires ListOk(tasks, place, ts, at)
    requires forall t :: t in tasks && t in place && place[t] == at ==> t in tasks' && t in place' && place'[t] == at
    ensures ListOk(tasks', place', ts, at)
  {}

  predicate OnCpus(at: Place) { at.CurrentOn? || at.ReadyOn? }

  /** Tasks move between processors and ready queues only, and nobody starts to leave. */
  ghost predicate MovesOnCpus(s: State, place: map<nat, Place>, s': State, place': map<nat, Place>) {
    && s'.waits == s.waits && s'.hand == s.hand && s'.adding == s.adding
    && s'.tasks.Keys == s.tasks.Keys && place'.Keys == place.Keys && |s'.cpus| == |s.cpus|
    && (forall t :: t in place && t in s.tasks && !OnCpus(place[t]) ==>
          place'[t] == place[t] && s'.tasks[t].state == s.tasks[t].state)
    && (forall k :: k in s'.leaving ==> k in s.leaving)
    && (forall k :: k in s'.leaving && k < |s.cpus| ==> s'.cpus[k].current == s.cpus[k].current)
  }

  lemma ElsewhereKept(s: State, place: map<nat, Place>, s': State, place': map<nat, Place>)
    requires Elsewhere(s, place) && MovesOnCpus(s, place, s', place')
    ensures Elsewhere(s', place')
  {
    hide WaitsOk, AddingOk, LeavesOne;
    WaitsKept(s, place, s', place');
    AddingInHand(s, place);
    AddingKept(s, s');
    LeavesKept(s, s');
  }

  lemma AddingInHand(s: State, place: map<nat, Place>)
    requires Elsewhere(s, place)
    ensures forall k :: k in s.adding ==>
              s.adding[k].t in s.hand && s.adding[k].t in s.tasks && place[s.adding[k].t] == InHand
              && s.tasks[s.adding[k].t].state == Runnable
  {
    hide WaitsOk, LeavesOne;
  }

  lemma WaitsKept(s: State, place: map<nat, Place>, s': State, place': map<nat, Place>)
    requires WaitsOk(s, place) && s'.waits == s.waits && s.tasks.Keys <= s'.tasks.Keys && place.Keys <= place'.Keys
    requires forall t :: t in place && place[t].WaitingIn? ==> place'[t] == place[t]
    ensures WaitsOk(s', place')
  {
    forall w | w in s'.waits ensures ListOk(s'.tasks, place', s'.waits[w], WaitingIn(w)) {
      ListKept(s.tasks, place, s'.tasks, place', s.waits[w], WaitingIn(w));
    }
  }

  lemma AddingKept(s: State, s': State)
    requires AddingOk(s) && s'.adding == s.adding && s.tasks.Keys <= s'.tasks.Keys
    requires forall k :: k in s.adding && s.adding[k].t in s.tasks ==>
               s.adding[k].t in s'.hand && s'.tasks[s.adding[k].t].state == s.tasks[s.adding[k].t].state
    ensures AddingOk(s')
  {}

  lemma LeavesKept(s: State, s': State)
    requires LeavesOne(s) && |s'.cpus| == |s.cpus|
    requires forall k :: k in s'.leaving ==> k in s.leaving
    requires forall k :: k in s'.leaving && k < |s.cpus| ==> s'.cpus[k].current == s.cpus[k].current
    ensures LeavesOne(s')
  {}

  /** A processor none of whose tasks moves stays in order. */
  lemma OtherCpuKept(s: State, place: map<nat, Place>, s': State, place': map<nat, Place>, j: nat)
    requires j < |s.cpus| == |s'.cpus| && s'.cpus[j] == s.cpus[j] && (j in s'.leaving <==> j in s.leaving)
    requires CpuOk(s, place, j) && s.tasks.Keys <= s'.tasks.Keys && place.Keys <= place'.Keys
    requires forall t :: t in place && (place[t] == ReadyOn(j) || place[t] == CurrentOn(j)) ==> place'[t] == place[t]
    ensures CpuOk(s', place', j)
  {}

  /** `cpu` is processor `k` with other lock flags or requests. */
  ghost predicate SameLists(s: State, k: nat, cpu: Cpu) {
    k < |s.cpus| && cpu.current == s.cpus[k].current && cpu.ready == s.cpus[k].ready
  }

  /** Processor `k` has switched: whoever was leaving it has left. */
  function Switched(s: State, k: nat, r: (Cpu, Tasks)): State
    requires k < |s.cpus|
  {
    With(s, k, r).(leaving := s.leaving - {k})
  }

  // A running task yields to the first ready one.

  function SwitchedPlace(place: map<nat, Place>, k: nat, from: Option<nat>, to: nat): map<nat, Place> {
    if from.Some? then place[to := CurrentOn(k)][from.value := ReadyOn(k)] else place[to := CurrentOn(k)]
  }

  lemma SwitchTask(s: State, place: map<nat, Place>, k: nat, cpu: Cpu, t: nat)
    requires Consistent(s, place) && SameLists(s, k, cpu) && CanSwitch(cpu, s.tasks) && k !in s.leaving && t in s.tasks
    ensures var to, place' := cpu.ready[0], SwitchedPlace(place, k, cpu.current, cpu.ready[0]);
            t in place' &&
            TaskOk(Switched(s, k, (SwitchedCpu(cpu), SwitchedTasks(s.tasks, cpu.current, to))), place', t)
  {
    CpuPart(s, place, k);
    TaskPart(s, place, t);
    hide Consistent;
    if t in cpu.ready && t != cpu.ready[0] {
      assert t in cpu.ready[1..];
    }
  }

  lemma SwitchOwn(s: State, place: map<nat, Place>, k: nat, cpu: Cpu)
    requires k < |s.cpus| && CpuOk(s, place, k) && SameLists(s, k, cpu) && CanSwitch(cpu, s.tasks) && k !in s.leaving
    ensures var to, place' := cpu.ready[0], SwitchedPlace(place, k, cpu.current, cpu.ready[0]);
            CpuOk(Switched(s, k, (SwitchedCpu(cpu), SwitchedTasks(s.tasks, cpu.current, to))), place', k)
  {
    NoDuplicatesRotated(cpu.ready, if cpu.current.Some? then cpu.current.value else cpu.ready[0]);
    assert forall i :: 0 <= i < |cpu.ready[1..]| ==> cpu.ready[1..][i] != cpu.ready[0];
  }

  lemma SwitchCpu(s: State, place: map<nat, Place>, k: nat, cpu: Cpu, j: nat)
    requires Consistent(s, place) && SameLists(s, k, cpu) && CanSwitch(cpu, s.tasks) && k !in s.leaving && j < |s.cpus|
    ensures var to, place' := cpu.ready[0], SwitchedPlace(place, k, cpu.current, cpu.ready[0]);
            CpuOk(Switched(s, k, (SwitchedCpu(cpu), SwitchedTasks(s.tasks, cpu.current, to))), place', j)
  {
    hide Consistent, ListOk, TaskOk, NoDuplicates;
    CpuPart(s, place, k);
    CpuPart(s, place, j);
    var to, place' := cpu.ready[0], SwitchedPlace(place, k, cpu.current, cpu.ready[0]);
    var s' := Switched(s, k, (SwitchedCpu(cpu), SwitchedTasks(s.tasks, cpu.current, to)));
    if j == k {
      SwitchOwn(s, place, k, cpu);
    } else {
      InReadyList(s, place, k, 0);
      hide CpuOk;
      OtherCpuKept(s, place, s', place', j);
    }
  }

  lemma SwitchKeeps(s: State, place: map<nat, Place>, k: nat, cpu: Cpu)
    requires Consistent(s, place) && SameLists(s, k, cpu) && !cpu.locked && cpu.ready != [] && k !in s.leaving
    ensures Known(cpu, s.tasks)
    ensures Consistent(Switched(s, k, Yield(cpu, s.tasks)), SwitchedPlace(place, k, cpu.current, cpu.ready[0]))
  {
    hide Yield, TaskOk, Elsewhere;
    CpuPart(s, place, k);
    assert CanSwitch(cpu, s.tasks);
    YieldSwitches(cpu, s.tasks);
    hide CpuOk, CanSwitch;
    var s' := Switched(s, k, Yield(cpu, s.tasks));
    var place' := SwitchedPlace(place, k, cpu.current, cpu.ready[0]);
    SwitchElsewhere(s, place, k, cpu);
    forall t | t in s'.tasks ensures TaskOk(s', place', t) {
      SwitchTask(s, place, k, cpu, t);
    }
    forall j | 0 <= j < |s'.cpus| ensures CpuOk(s', place', j) {
      SwitchCpu(s, place, k, cpu, j);
    }
  }

  lemma SwitchElsewhere(s: State, place: map<nat, Place>, k: nat, cpu: Cpu)
    requires Consistent(s, place) && SameLists(s, k, cpu) && CanSwitch(cpu, s.tasks) && k !in s.leaving
    ensures var to, place' := cpu.ready[0], SwitchedPlace(place, k, cpu.current, cpu.ready[0]);
            place'.Keys == s.tasks.Keys &&
            Elsewhere(Switched(s, k, (SwitchedCpu(cpu), SwitchedTasks(s.tasks, cpu.current, to))), place')
  {
    hide Consistent, ListOk, LeavesOne, AddingOk, TaskOk, NoDuplicates;
    CpuPart(s, place, k);
    ElsewherePart(s, place);
    InReadyList(s, place, k, 0);
    hide CpuOk, Elsewhere;
    var to, place' := cpu.ready[0], SwitchedPlace(place, k, cpu.current, cpu.ready[0]);
    var s' := Switched(s, k, (SwitchedCpu(cpu), SwitchedTasks(s.tasks, cpu.current, to)));
    SameKeys(s, place);
    assert MovesOnCpus(s, place, s', place');
    ElsewhereKept(s, place, s', place');
    SameKeys(s', place');
  }

  lemma InReadyList(s: State, place: map<nat, Place>, k: nat, i: nat)
    requires k < |s.cpus| && CpuOk(s, place, k) && i < |s.cpus[k].ready|
    ensures s.cpus[k].ready[i] in place && place[s.cpus[k].ready[i]] == ReadyOn(k)
  {}

  lemma ElsewherePart(s: State, place: map<nat, Place>)
    requires Consistent(s, place)
    ensures Elsewhere(s, place)
  {}

  // A task that has called block() leaves its processor.

  function LeftPlace(place: map<nat, Place>, k: nat, cpu: Cpu): map<nat, Place> {
    if cpu.ready == [] then place else place[cpu.ready[0] := CurrentOn(k)]
  }

  ghost predicate CanLeave(s: State, k: nat, cpu: Cpu) {
    && SameLists(s, k, cpu) && Known(cpu, s.tasks) && !cpu.locked && k in s.leaving && cpu.current.Some?
    && !ComesBack(cpu, s.tasks)
  }

  lemma LeaveTask(s: State, place: map<nat, Place>, k: nat, cpu: Cpu, t: nat)
    requires Consistent(s, place) && CanLeave(s, k, cpu) && t in s.tasks
    ensures t in LeftPlace(place, k, cpu)
    ensures TaskOk(Switched(s, k, (LeftCpu(cpu), LeftTasks(cpu, s.tasks))), LeftPlace(place, k, cpu), t)
  {
    CpuPart(s, place, k);
    TaskPart(s, place, t);
    hide Consistent;
    if t in cpu.ready && t != cpu.ready[0] {
      assert t in cpu.ready[1..];
    }
  }

  lemma LeaveCpu(s: State, place: map<nat, Place>, k: nat, cpu: Cpu, j: nat)
    requires Consistent(s, place) && CanLeave(s, k, cpu) && j < |s.cpus|
    ensures CpuOk(Switched(s, k, (LeftCpu(cpu), LeftTasks(cpu, s.tasks))), LeftPlace(place, k, cpu), j)
  {
    CpuPart(s, place, k);
    CpuPart(s, place, j);
    hide Consistent, TaskOk;
    if j == k {
      LeaveOwn(s, place, k, cpu);
    } else {
      if cpu.ready != [] {
        InReadyList(s, place, k, 0);
      }
      hide CpuOk, ListOk;
      OtherCpuKept(s, place, Switched(s, k, (LeftCpu(cpu), LeftTasks(cpu, s.tasks))), LeftPlace(place, k, cpu), j);
    }
  }

  lemma LeaveOwn(s: State, place: map<nat, Place>, k: nat, cpu: Cpu)
    requires k < |s.cpus| && CpuOk(s, place, k) && CanLeave(s, k, cpu)
    ensures CpuOk(Switched(s, k, (LeftCpu(cpu), LeftTasks(cpu, s.tasks))), LeftPlace(place, k, cpu), k)
  {
    if cpu.ready != [] {
      NoDuplicatesRotated(cpu.ready, cpu.ready[0]);
      assert forall i :: 0 <= i < |cpu.ready[1..]| ==> cpu.ready[1..][i] != cpu.ready[0];
    }
  }

  lemma LeaveKeeps(s: State, place: map<nat, Place>, k: nat, cpu: Cpu)
    requires Consistent(s, place) && CanLeave(s, k, cpu)
    ensures Consistent(Switched(s, k, Yield(cpu, s.tasks)), LeftPlace(place, k, cpu))
  {
    hide Yield, TaskOk;
    CpuPart(s, place, k);
    YieldLeaves(cpu, s.tasks);
    var s', place' := Switched(s, k, Yield(cpu, s.tasks)), LeftPlace(place, k, cpu);
    assert MovesOnCpus(s, place, s', place');
    hide CpuOk, MovesOnCpus, Elsewhere;
    ElsewhereKept(s, place, s', place');
    assert s'.tasks.Keys == s.tasks.Keys;
    forall t | t in s'.tasks ensures t in place' && TaskOk(s', place', t) {
      LeaveTask(s, place, k, cpu, t);
    }
    forall j | 0 <= j < |s'.cpus| ensures CpuOk(s', place', j) {
      LeaveCpu(s, place, k, cpu, j);
    }
    assert place'.Keys == s'.tasks.Keys by { SameKeys(s', place'); }
  }

  lemma SameKeys(s: State, place: map<nat, Place>)
    requires Elsewhere(s, place)
    ensures place.Keys == s.tasks.Keys
  {}

  /** Lock flags, requests and slices may change freely. */
  lemma FlagsKeep(s: State, place: map<nat, Place>, k: nat, cpu: Cpu)
    requires Consistent(s, place) && SameLists(s, k, cpu) && (cpu.current.None? || k in s.leaving ==> !cpu.locked)
    ensures Consistent(s.(cpus := s.cpus[k := cpu]), place)
  {
    hide ListOk, Elsewhere;
    var s' := s.(cpus := s.cpus[k := cpu]);
    SameKeys(s, place);
    assert MovesOnCpus(s, place, s', place);
    ElsewhereKept(s, place, s', place);
    forall t | t in s'.tasks ensures TaskOk(s', place, t) {
      TaskPart(s, place, t);
    }
    forall j | 0 <= j < |s'.cpus| ensures CpuOk(s', place, j) {
      CpuPart(s, place, j);
    }
  }

  lemma SliceKeeps(s: State, place: map<nat, Place>, t: nat, slice: nat)
    requires Consistent(s, place) && t in s.tasks
    ensures Consistent(s.(tasks := s.tasks[t := s.tasks[t].(slice := slice)]), place)
  {
    hide ListOk, Elsewhere;
    var s' := s.(tasks := s.tasks[t := s.tasks[t].(slice := slice)]);
    SameKeys(s, place);
    assert MovesOnCpus(s, place, s', place);
    ElsewhereKept(s, place, s', place);
    forall u | u in s'.tasks ensures TaskOk(s', place, u) {
      TaskPart(s, place, u);
    }
    forall j | 0 <= j < |s'.cpus| ensures CpuOk(s', place, j) {
      CpuPart(s, place, j);
      OtherCpuKept(s, place, s', place, j);
    }
  }

  /** A yield that does not bring the leaving task back keeps every task in one place. */
  lemma YieldKeeps(s: State, place: map<nat, Place>, k: nat, cpu: Cpu) returns (place': map<nat, Place>)
    requires Consistent(s, place) && SameLists(s, k, cpu) && Known(cpu, s.tasks)
    requires cpu.current.None? || k in s.leaving ==> !cpu.locked
    requires k in s.leaving && cpu.current.Some? ==> !ComesBack(cpu, s.tasks)
    ensures var s1 := With(s, k, Yield(cpu, s.tasks));
            Consistent(s1.(leaving := if cpu.locked then s.leaving else s.leaving - {k}), place')
  {
    place' := place;
    CpuPart(s, place, k);
    hide Consistent, CpuOk, ComesBack;
    if cpu.locked {
      FlagsKeep(s, place, k, cpu.(postponed := true));
    } else if k in s.leaving {
      assert cpu.current.Some? by { LeavingHasTask(s, place, k); }
      LeaveKeeps(s, place, k, cpu);
      place' := LeftPlace(place, k, cpu);
    } else if cpu.ready != [] {
      SwitchKeeps(s, place, k, cpu);
      place' := SwitchedPlace(place, k, cpu.current, cpu.ready[0]);
    } else {
      assert s.leaving - {k} == s.leaving;
      FlagsKeep(s, place, k, cpu);
    }
  }

  lemma LeavingHasTask(s: State, place: map<nat, Place>, k: nat)
    requires Consistent(s, place) && k in s.leaving
    ensures k < |s.cpus| && s.cpus[k].current.Some? && !s.cpus[k].locked
  {
    assert LeavesOne(s);
    assert CpuOk(s, place, k);
  }

  /** The step runs the yield of a task that has called `block()`, and that yield does not take the
      task off the processor for good. */
  ghost predicate TooLate(s: State, e: Event)
    requires Enabled(s, e)
  {
    exists k: nat :: TooLateOn(s, e, k)
  }

  ghost predicate TooLateOn(s: State, e: Event, k: nat)
    requires Enabled(s, e)
  {
    k in s.leaving && KnownAt(s, k) && YieldsOn(s, e, k) && s.cpus[k].current.Some? && ComesBack(s.cpus[k], s.tasks)
  }

  lemma TickIs(cpu: Cpu, tasks: Tasks)
    requires Known(cpu, tasks) && !cpu.locked && IsRunning(cpu, tasks)
    ensures var t := cpu.current.value;
            var tasks' := tasks[t := tasks[t].(slice := Decremented(tasks[t].slice))];
            && Known(cpu, tasks')
            && Tick(cpu, tasks) == if Expires(cpu, tasks) then Yield(cpu, tasks') else (cpu, tasks')
  {}

  lemma TickKeeps(s: State, place: map<nat, Place>, k: nat) returns (place': map<nat, Place>)
    requires Consistent(s, place) && Enabled(s, DoTick(k)) && !TooLateOn(s, DoTick(k), k)
    ensures Consistent(Step(s, DoTick(k)), place')
  {
    hide Consistent, Yield;
    var cpu := s.cpus[k];
    place' := place;
    if !cpu.locked && IsRunning(cpu, s.tasks) {
      var t := cpu.current.value;
      TickIs(cpu, s.tasks);
      SliceKeeps(s, place, t, Decremented(s.tasks[t].slice));
      var s1 := s.(tasks := s.tasks[t := s.tasks[t].(slice := Decremented(s.tasks[t].slice))]);
      if Expires(cpu, s.tasks) {
        place' := YieldKeeps(s1, place, k, cpu);
      } else {
        assert s.cpus[k := cpu] == s.cpus;
      }
    } else {
      assert s.cpus[k := cpu] == s.cpus;
    }
  }

  // Tasks are marked, woken, created and added.

  lemma MarkTask(s: State, place: map<nat, Place>, k: nat, w: nat, u: nat)
    requires Consistent(s, place) && Enabled(s, Mark(k, w)) && u in s.tasks
    ensures var place' := place[s.cpus[k].current.value := WaitingIn(w)];
            u in place' && u in Step(s, Mark(k, w)).tasks && TaskOk(Step(s, Mark(k, w)), place', u)
  {
    CpuPart(s, place, k);
    TaskPart(s, place, u);
    hide Consistent;
    var t := s.cpus[k].current.value;
    assert (s.waits[w] + [t])[|s.waits[w]|] == t;
  }

  lemma MarkWaits(s: State, place: map<nat, Place>, w: nat, t: nat)
    requires WaitsOk(s, place) && w in s.waits && t in s.tasks && t in place && place[t].CurrentOn?
    ensures WaitsOk(s.(waits := s.waits[w := s.waits[w] + [t]]), place[t := WaitingIn(w)])
  {
    var s', place' := s.(waits := s.waits[w := s.waits[w] + [t]]), place[t := WaitingIn(w)];
    forall v | v in s'.waits ensures ListOk(s'.tasks, place', s'.waits[v], WaitingIn(v)) {
      assert ListOk(s.tasks, place, s.waits[v], WaitingIn(v));
      ListKept(s.tasks, place, s'.tasks, place', s.waits[v], WaitingIn(v));
    }
  }

  lemma MarkElsewhere(s: State, place: map<nat, Place>, k: nat, w: nat)
    requires Consistent(s, place) && Enabled(s, Mark(k, w))
    ensures Elsewhere(Step(s, Mark(k, w)), place[s.cpus[k].current.value := WaitingIn(w)])
  {
    hide WaitsOk, AddingOk, TaskOk, ListOk;
    var t := s.cpus[k].current.value;
    var s', place' := Step(s, Mark(k, w)), place[t := WaitingIn(w)];
    CpuPart(s, place, k);
    ElsewherePart(s, place);
    hide Consistent, CpuOk;
    AddingInHand(s, place);
    AddingKept(s, s');
    MarkWaits(s, place, w, t);
    WaitsKept(s.(waits := s'.waits), place', s', place');
  }

  lemma MarkKeeps(s: State, place: map<nat, Place>, k: nat, w: nat)
    requires Consistent(s, place) && Enabled(s, Mark(k, w))
    ensures Consistent(Step(s, Mark(k, w)), place[s.cpus[k].current.value := WaitingIn(w)])
  {
    var t := s.cpus[k].current.value;
    var s', place' := Step(s, Mark(k, w)), place[t := WaitingIn(w)];
    CpuPart(s, place, k);
    MarkElsewhere(s, place, k, w);
    forall u | u in s'.tasks ensures u in place' && TaskOk(s', place', u) {
      MarkTask(s, place, k, w, u);
    }
    hide Elsewhere, TaskOk, ListOk;
    forall j | 0 <= j < |s'.cpus| ensures CpuOk(s', place', j) {
      CpuPart(s, place, j);
      if j == k {
        assert ListOk(s'.tasks, place', s.cpus[k].ready, ReadyOn(k)) by {
          ListKept(s.tasks, place, s'.tasks, place', s.cpus[k].ready, ReadyOn(k));
        }
      } else {
        OtherCpuKept(s, place, s', place', j);
      }
    }
  }

  lemma WakeWaits(s: State, place: map<nat, Place>, w: nat)
    requires WaitsOk(s, place) && w in s.waits && s.waits[w] != []
    ensures s.waits[w][0] in s.tasks && s.waits[w][0] in place && place[s.waits[w][0]] == WaitingIn(w)
    ensures WaitsOk(s.(waits := s.waits[w := s.waits[w][1..]]), place[s.waits[w][0] := InHand])
  {
    var t := s.waits[w][0];
    var s', place' := s.(waits := s.waits[w := s.waits[w][1..]]), place[t := InHand];
    assert ListOk(s.tasks, place, s.waits[w], WaitingIn(w));
    forall v | v in s'.waits ensures ListOk(s'.tasks, place', s'.waits[v], WaitingIn(v)) {
      if v != w {
        ListKept(s.tasks, place, s.tasks, place', s.waits[v], WaitingIn(v));
      }
    }
  }

  lemma WakeElsewhere(s: State, place: map<nat, Place>, w: nat)
    requires Consistent(s, place) && Enabled(s, Wake(w))
    ensures Elsewhere(Step(s, Wake(w)), place[s.waits[w][0] := InHand])
    ensures place[s.waits[w][0]] == WaitingIn(w)
  {
    hide WaitsOk, AddingOk, LeavesOne, ListOk;
    var t := s.waits[w][0];
    var s', place' := Step(s, Wake(w)), place[t := InHand];
    ElsewherePart(s, place);
    hide Consistent;
    AddingInHand(s, place);
    AddingKept(s, s');
    LeavesKept(s, s');
    WakeWaits(s, place, w);
    WaitsKept(s.(waits := s'.waits), place', s', place');
  }

  lemma WakeKeeps(s: State, place: map<nat, Place>, w: nat)
    requires Consistent(s, place) && Enabled(s, Wake(w))
    ensures Consistent(Step(s, Wake(w)), place[s.waits[w][0] := InHand])
  {
    hide Elsewhere, ListOk;
    var t := s.waits[w][0];
    WakeElsewhere(s, place, w);
    var s', place' := Step(s, Wake(w)), place[t := InHand];
    forall u | u in s'.tasks ensures u in place' && TaskOk(s', place', u) {
      TaskPart(s, place, u);
      if u != t && u in s.waits[w] {
        assert u in s.waits[w][1..];
      }
    }
    forall j | 0 <= j < |s'.cpus| ensures CpuOk(s', place', j) {
      CpuPart(s, place, j);
      OtherCpuKept(s, place, s', place', j);
    }
  }

  lemma CreateKeeps(s: State, place: map<nat, Place>, t: nat, task: Tcb)
    requires Consistent(s, place) && Enabled(s, Create(t, task))
    ensures Consistent(Step(s, Create(t, task)), place[t := InHand])
  {
    hide ListOk, AddingOk, LeavesOne, WaitsOk;
    var s', place' := Step(s, Create(t, task)), place[t := InHand];
    AddingInHand(s, place);
    AddingKept(s, s');
    LeavesKept(s, s');
    WaitsKept(s, place, s', place');
    forall u | u in s'.tasks ensures TaskOk(s', place', u) {
      if u != t {
        TaskPart(s, place, u);
      }
    }
    forall j | 0 <= j < |s'.cpus| ensures CpuOk(s', place', j) {
      CpuPart(s, place, j);
      OtherCpuKept(s, place, s', place', j);
    }
  }

  lemma DecideElsewhere(s: State, place: map<nat, Place>, k: nat, t: nat)
    requires Elsewhere(s, place) && Enabled(s, Decide(k, t))
    ensures Elsewhere(Step(s, Decide(k, t)), place)
  {
    hide ListOk, LeavesOne, WaitsOk;
    var s' := Step(s, Decide(k, t));
    LeavesKept(s, s');
    WaitsKept(s, place, s', place);
    assert forall j :: j in s.adding ==> s.adding[j].t != t;
  }

  lemma DecideKeeps(s: State, place: map<nat, Place>, k: nat, t: nat)
    requires Consistent(s, place) && Enabled(s, Decide(k, t))
    ensures Consistent(Step(s, Decide(k, t)), place)
  {
    hide ListOk, LeavesOne, WaitsOk, AddingOk;
    assert t in s.hand && place[t] == InHand;
    DecideElsewhere(s, place, k, t);
    hide Elsewhere, GoesFirst;
    var s' := Step(s, Decide(k, t));
    forall u | u in s'.tasks ensures TaskOk(s', place, u) {
      TaskPart(s, place, u);
    }
    forall j | 0 <= j < |s'.cpus| ensures CpuOk(s', place, j) {
      CpuPart(s, place, j);
      OtherCpuKept(s, place, s', place, j);
    }
  }

  lemma PushOwn(s: State, place: map<nat, Place>, k: nat)
    requires k < |s.cpus| && CpuOk(s, place, k) && Enabled(s, Push(k))
    requires s.adding[k].t in place && s.adding[k].t in s.tasks && place[s.adding[k].t] == InHand
    ensures CpuOk(Step(s, Push(k)), place[s.adding[k].t := ReadyOn(k)], k)
  {
    var cpu, t := s.cpus[k], s.adding[k].t;
    assert t !in cpu.ready;
    if cpu.ready != [] {
      NoDuplicatesRotated(cpu.ready, t);
    }
  }

  lemma PushElsewhere(s: State, place: map<nat, Place>, k: nat)
    requires Elsewhere(s, place) && Enabled(s, Push(k))
    ensures s.adding[k].t in s.tasks && place[s.adding[k].t] == InHand && s.tasks[s.adding[k].t].state == Runnable
    ensures Elsewhere(Step(s, Push(k)), place[s.adding[k].t := ReadyOn(k)])
  {
    hide ListOk, LeavesOne, WaitsOk;
    var t := s.adding[k].t;
    var s', place' := Step(s, Push(k)), place[t := ReadyOn(k)];
    AddingInHand(s, place);
    LeavesKept(s, s');
    WaitsKept(s, place, s', place');
  }

  lemma PushKeeps(s: State, place: map<nat, Place>, k: nat)
    requires Consistent(s, place) && Enabled(s, Push(k))
    ensures Consistent(Step(s, Push(k)), place[s.adding[k].t := ReadyOn(k)])
  {
    hide Elsewhere, ListOk;
    var t := s.adding[k].t;
    var s', place' := Step(s, Push(k)), place[t := ReadyOn(k)];
    ElsewherePart(s, place);
    SameKeys(s, place);
    PushElsewhere(s, place, k);
    SameKeys(s', place');
    forall u | u in s'.tasks ensures TaskOk(s', place', u) {
      TaskPart(s, place, u);
    }
    forall j | 0 <= j < |s'.cpus| ensures CpuOk(s', place', j) {
      CpuPart(s, place, j);
      if j == k {
        PushOwn(s, place, k);
      } else {
        OtherCpuKept(s, place, s', place', j);
      }
    }
  }

  lemma DoYieldKeeps(s: State, place: map<nat, Place>, e: Event) returns (place': map<nat, Place>)
    requires Consistent(s, place) && Enabled(s, e) && (e.DoYield? || e.Requested?) && !TooLateOn(s, e, e.k)
    ensures Consistent(Step(s, e), place')
  {
    hide Consistent, Yield;
    FlagsOf(s, place, e.k);
    var cpu := s.cpus[e.k];
    place' := YieldKeeps(s, place, e.k, if e.DoYield? then cpu else cpu.(requests := cpu.requests - 1));
  }

  lemma QueueStepKeeps(s: State, place: map<nat, Place>, e: Event) returns (place': map<nat, Place>)
    requires Consistent(s, place) && Enabled(s, e) && (e.Mark? || e.Wake? || e.Create? || e.Decide? || e.Push?)
    ensures Consistent(Step(s, e), place')
  {
    hide Consistent, Step, Known;
    match e {
      case Mark(k, w) =>
        MarkKeeps(s, place, k, w);
        place' := place[s.cpus[k].current.value := WaitingIn(w)];
      case Wake(w) =>
        WakeKeeps(s, place, w);
        place' := place[s.waits[w][0] := InHand];
      case Create(t, task) =>
        CreateKeeps(s, place, t, task);
        place' := place[t := InHand];
      case Decide(k, t) =>
        DecideKeeps(s, place, k, t);
        place' := place;
      case Push(k) =>
        PushKeeps(s, place, k);
        place' := place[s.adding[k].t := ReadyOn(k)];
    }
  }

  /** Every step keeps every task in one place, except a yield that comes too late. */
  lemma StepKeepsInv(s: State, e: Event)
    requires Inv(s) && Enabled(s, e) && !TooLate(s, e)
    ensures Inv(Step(s, e))
  {
    hide Consistent, Step, Enabled, TooLateOn;
    var place :| Consistent(s, place);
    assert forall k: nat :: !TooLateOn(s, e, k);
    var place' := place;
    match e {
      case DoYield(_) => place' := DoYieldKeeps(s, place, e);
      case Requested(_) => place' := DoYieldKeeps(s, place, e);
      case DoTick(k) => place' := TickKeeps(s, place, k);
      case DoLock(k) => LockKeeps(s, place, k);
      case DoUnlock(k) => place' := UnlockKeeps(s, place, k);
      case _ => place' := QueueStepKeeps(s, place, e);
    }
    assert Consistent(Step(s, e), place');
  }

  lemma LockKeeps(s: State, place: map<nat, Place>, k: nat)
    requires Consistent(s, place) && Enabled(s, DoLock(k))
    ensures Consistent(Step(s, DoLock(k)), place)
  {
    hide Consistent;
    FlagsKeep(s, place, k, Lock(s.cpus[k]));
  }

  lemma FlagsOf(s: State, place: map<nat, Place>, k: nat)
    requires Consistent(s, place) && k < |s.cpus|
    ensures s.cpus[k].current.None? || k in s.leaving ==> !s.cpus[k].locked
  {
    assert CpuOk(s, place, k);
  }

  lemma UnlockKeeps(s: State, place: map<nat, Place>, k: nat) returns (place': map<nat, Place>)
    requires Consistent(s, place) && Enabled(s, DoUnlock(k))
    ensures Consistent(Step(s, DoUnlock(k)), place')
  {
    hide Consistent, Yield;
    place' := place;
    if s.cpus[k].postponed {
      place' := YieldKeeps(s, place, k, s.cpus[k].(locked := false, postponed := false));
      assert s.leaving - {k} == s.leaving;
    } else {
      FlagsKeep(s, place, k, s.cpus[k].(locked := false));
    }
  }
}
