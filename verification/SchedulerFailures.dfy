/** Runs from boot in which a task gets into two places, and in which a processor is left idle over
    work. The kernel can make them: every task is added to the scheduler that `getLeastBusy`
    (kernel/scheduler/scheduler.cpp:183-196) answers to the processor that adds it, and that is not
    the one whose steps come in between. */
module SchedulerFailures {
  import opened Options
  import opened Scheduler
  import opened SchedulerMachine
  import opened SchedulerRuns

  lemma Unrolled(s: State, es: seq<Event>)
    requires es != [] && Enabled(s, es[0])
    ensures Legal(s, es) <==> Legal(Step(s, es[0]), es[1..])
    ensures Legal(s, es) ==> Run(s, es) == Run(Step(s, es[0]), es[1..])
    ensures Legal(s, es) ==> (Calm(s, es) <==> !TooLate(s, es[0]) && Calm(Step(s, es[0]), es[1..]))
  {}

  lemma TooLateIs(s: State, e: Event, k: nat)
    requires Enabled(s, e) && TooLateOn(s, e, k)
    ensures TooLate(s, e)
  {}

  lemma LastIsLegal(s: State, e: Event)
    requires Enabled(s, e)
    ensures Legal(s, [e]) && Run(s, [e]) == Step(s, e)
  {
    assert [e][1..] == [];
  }

  /** The task of processor 0 has called `block()` and is in the hand of whoever woke it. */
  ghost predicate WokenWhileLeaving(s: State, t: nat) {
    && KnownAt(s, 0) && s.cpus[0].current == Some(t) && s.cpus[0].ready == [] && !s.cpus[0].locked
    && t in s.tasks && s.tasks[t].state == Blocking && t in s.hand && 0 in s.leaving && s.adding == map[]
  }

  /** The task no longer counts on processor 0, so that processor 1, which wakes it, adds it there. */
  lemma WokenSteps(s: State, w: nat, t: nat)
    requires Init(s) && |s.cpus| >= 2 && w in s.waits && s.cpus[0].current == Some(t)
    ensures Enabled(s, Mark(0, w))
    ensures var s1 := Step(s, Mark(0, w));
            Enabled(s1, Wake(w)) && LeastBusy(Step(s1, Wake(w)), 1, 0) && WokenWhileLeaving(Step(s1, Wake(w)), t)
  {
    assert IsRunning(s.cpus[0], s.tasks) && IsRunning(s.cpus[1], s.tasks);
    var s1 := Step(s, Mark(0, w));
    assert s1.waits[w] == [t];
    assert IsRunning(s1.cpus[1], s1.tasks);
  }

  lemma TooLateSteps(s: State, t: nat)
    requires WokenWhileLeaving(s, t)
    ensures Enabled(s, Decide(0, t))
    ensures var s1 := Step(s, Decide(0, t));
            Enabled(s1, Push(0)) &&
            var s2 := Step(s1, Push(0));
            Enabled(s2, DoYield(0)) && TooLateOn(s2, DoYield(0), 0)
  {
    var s1 := Step(s, Decide(0, t));
    assert s1.adding[0] == Adding(t, true);
    assert Step(s1, Push(0)).cpus[0].ready == [t];
  }

  /** From every boot state with two processors: the task of processor 0 calls `block()`, a task on
      processor 1 wakes it and adds it to the least busy scheduler, and only then it yields. */
  lemma TooLateYieldHappens(s: State, w: nat, t: nat)
    requires Init(s) && |s.cpus| >= 2 && w in s.waits && s.cpus[0].current == Some(t)
    ensures var es := [Mark(0, w), Wake(w), Decide(0, t), Push(0), DoYield(0)];
            && Legal(s, es) && !AlwaysInPlace(s, es)
            && (PrefixLegal(s, es, 2); LeastBusy(Run(s, es[..2]), 1, 0))
  {
    hide Legal, Calm, Run, TooLate, AlwaysInPlace, Step, Enabled, Init, TooLateOn, LeastBusy, WokenWhileLeaving;
    var es := [Mark(0, w), Wake(w), Decide(0, t), Push(0), DoYield(0)];
    assert es[1..] == [Wake(w), Decide(0, t), Push(0), DoYield(0)];
    assert es[1..][1..] == [Decide(0, t), Push(0), DoYield(0)];
    assert es[1..][1..][1..] == [Push(0), DoYield(0)];
    assert es[1..][1..][1..][1..] == [DoYield(0)];
    WokenSteps(s, w, t);
    var s1 := Step(s, Mark(0, w));
    var s2 := Step(s1, Wake(w));
    TooLateSteps(s2, t);
    var s3 := Step(s2, Decide(0, t));
    var s4 := Step(s3, Push(0));
    TooLateIs(s4, DoYield(0), 0);
    LastIsLegal(s4, DoYield(0));
    Unrolled(s4, [DoYield(0)]);
    Unrolled(s3, es[1..][1..][1..]);
    Unrolled(s2, es[1..][1..]);
    Unrolled(s1, es[1..]);
    Unrolled(s, es);
    OnePlacePerTask(s, es);
    assert es[..2] == [Mark(0, w), Wake(w)] && es[..2][1..] == [Wake(w)];
    LastIsLegal(s1, Wake(w));
    Unrolled(s, es[..2]);
  }

  /** Processor `k` runs a task and has none behind it, or `n` if it is processor 1; nothing is under
      way there. */
  ghost predicate Settled(s: State, k: nat, n: nat) {
    && InControl(s, k) && IsRunning(s.cpus[k], s.tasks) && !s.cpus[k].locked && HasRunLock(s, k)
    && |s.cpus[k].ready| == if k == 1 then n else 0
  }

  /** Every processor runs a task; processor 1 has `n` more ready, the others none. */
  ghost predicate AllSettled(s: State, n: nat) {
    && |s.cpus| >= 2 && s.adding == map[] && s.leaving == {} && s.hand == {}
    && (forall k :: 0 <= k < |s.cpus| ==> Settled(s, k, n))
  }

  /** The task is of no higher priority than the one that runs on processor `k`. */
  predicate NoHigher(s: State, k: nat, task: Tcb) {
    k < |s.cpus| && IsRunning(s.cpus[k], s.tasks) && task.priority <= s.tasks[s.cpus[k].current.value].priority
  }

  lemma InitSettled(s: State)
    requires Init(s) && |s.cpus| >= 2
    ensures AllSettled(s, 0)
  {
    forall k | 0 <= k < |s.cpus| ensures Settled(s, k, 0) {
      assert IsRunning(s.cpus[k], s.tasks);
      forall j | 0 <= j < |s.cpus| && j != k ensures s.cpus[j].current != s.cpus[k].current {
        assert if j < k then s.cpus[j].current != s.cpus[k].current else s.cpus[k].current != s.cpus[j].current;
      }
    }
  }

  /** Processor 1 creates a task and decides, on the scheduler it finds least busy, for a push at the
      back: on its own while it has one task, on processor 0 once it has two. */
  lemma DecidedSteps(s: State, n: nat, k: nat, t: nat, task: Tcb)
    requires AllSettled(s, n) && t !in s.tasks && NoHigher(s, k, task) && k == (if n == 0 then 1 else 0)
    ensures Enabled(s, Create(t, task))
    ensures var s1 := Step(s, Create(t, task));
            LeastBusy(s1, 1, k) && Enabled(s1, Decide(k, t)) &&
            var s2 := Step(s1, Decide(k, t));
            && s2.cpus == s.cpus && s2.waits == s.waits && s2.hand == {t} && s2.leaving == {}
            && s2.adding == map[k := Adding(t, false)]
            && s2.tasks.Keys == s.tasks.Keys + {t} && (forall u :: u in s.tasks ==> s2.tasks[u] == s.tasks[u])
  {
    assert Settled(s, k, n);
    var s1 := Step(s, Create(t, task));
    forall j | 0 <= j < |s.cpus| ensures TaskCount(s1.cpus[j], s1.tasks) == 1 + if j == 1 then n else 0 {
      assert Settled(s, j, n);
    }
  }

  /** The first task goes to processor 1 itself, which then has two. */
  lemma FirstAdded(s: State, t: nat, task: Tcb)
    requires AllSettled(s, 0) && t !in s.tasks && NoHigher(s, 1, task)
    ensures Enabled(s, Create(t, task))
    ensures var s1 := Step(s, Create(t, task));
            LeastBusy(s1, 1, 1) && Enabled(s1, Decide(1, t)) &&
            var s2 := Step(s1, Decide(1, t));
            Enabled(s2, Push(1)) &&
            var s3 := Step(s2, Push(1));
            && AllSettled(s3, 1) && |s3.cpus| == |s.cpus| && s3.cpus[0] == s.cpus[0] && s3.waits == s.waits
            && s3.tasks.Keys == s.tasks.Keys + {t}
            && (forall u :: u in s.tasks ==> s3.tasks[u] == s.tasks[u])
  {
    DecidedSteps(s, 0, 1, t, task);
    var s1 := Step(s, Create(t, task));
    var s2 := Step(s1, Decide(1, t));
    var s3 := Step(s2, Push(1));
    hide TaskCount, GoesFirst;
    forall k | 0 <= k < |s3.cpus| ensures Settled(s3, k, 1) {
      SettledAfterPush(s, s2, s3, t, k);
    }
  }

  lemma SettledAfterPush(s: State, s2: State, s3: State, t: nat, k: nat)
    requires AllSettled(s, 0) && s2.cpus == s.cpus && k < |s.cpus|
    requires s3 == s2.(cpus := s.cpus[1 := Pushed(s.cpus[1], t, false)], hand := {}, adding := map[])
    requires s2.leaving == {} && s2.tasks.Keys == s.tasks.Keys + {t}
    requires forall u :: u in s.tasks ==> s2.tasks[u] == s.tasks[u]
    ensures Settled(s3, k, 1)
  {
    assert Settled(s, k, 0);
  }

  /** A push at the back is pending on processor 0, whose task runs and has nothing behind it. */
  ghost predicate AboutToPush(s: State, w: nat) {
    && |s.cpus| > 0 && InControl(s, 0) && HasRunLock(s, 0) && BackPending(s, 0) && w in s.waits
    && s.cpus[0].ready == [] && !s.cpus[0].locked && s.cpus[0].requests == 0
  }

  lemma SecondDecided(s: State, w: nat, t: nat, task: Tcb)
    requires AllSettled(s, 1) && t !in s.tasks && NoHigher(s, 0, task) && w in s.waits && s.cpus[0].requests == 0
    ensures Enabled(s, Create(t, task))
    ensures var s1 := Step(s, Create(t, task));
            LeastBusy(s1, 1, 0) && Enabled(s1, Decide(0, t)) && AboutToPush(Step(s1, Decide(0, t)), w)
  {
    assert Settled(s, 0, 1);
    DecidedSteps(s, 1, 0, t, task);
  }

  lemma PushedSteps(s: State, w: nat)
    requires AboutToPush(s, w)
    ensures Enabled(s, Mark(0, w))
    ensures var s1 := Step(s, Mark(0, w));
            Enabled(s1, DoYield(0)) &&
            var s2 := Step(s1, DoYield(0));
            Enabled(s2, Push(0)) &&
            var s3 := Step(s2, Push(0));
            0 < |s3.cpus| && Stuck(s3.cpus[0])
  {
    var s2 := Step(Step(s, Mark(0, w)), DoYield(0));
    assert s2.cpus[0].current.None? && s2.cpus[0].ready == [];
    assert Step(s2, Push(0)).cpus[0].ready[0] == s.adding[0].t;
  }

  /** From every boot state with two processors and no request outstanding on processor 0: processor 1
      creates two tasks, each time adding to the scheduler that is least busy. The first goes to
      itself, the second to processor 0, whose task blocks between the decision and the push. */
  lemma LatePushHappens(s: State, w: nat, t1: nat, task1: Tcb, t2: nat, task2: Tcb)
    requires Init(s) && |s.cpus| >= 2 && w in s.waits && s.cpus[0].requests == 0
    requires t1 !in s.tasks && t2 !in s.tasks && t1 != t2 && NoHigher(s, 1, task1) && NoHigher(s, 0, task2)
    ensures var es := [Create(t1, task1), Decide(1, t1), Push(1), Create(t2, task2), Decide(0, t2),
                       Mark(0, w), DoYield(0), Push(0)];
            && Legal(s, es) && 0 < |Run(s, es).cpus| && Stuck(Run(s, es).cpus[0])
            && (PrefixLegal(s, es, 1); LeastBusy(Run(s, es[..1]), 1, 1))
            && (PrefixLegal(s, es, 4); LeastBusy(Run(s, es[..4]), 1, 0))
  {
    hide Legal, Calm, Run, TooLate, Step, Enabled, Init, Stuck, AboutToPush, AllSettled, LeastBusy;
    var es := [Create(t1, task1), Decide(1, t1), Push(1), Create(t2, task2), Decide(0, t2),
               Mark(0, w), DoYield(0), Push(0)];
    InitSettled(s);
    FirstAdded(s, t1, task1);
    var s1 := Step(s, Create(t1, task1));
    var s2 := Step(s1, Decide(1, t1));
    var s3 := Step(s2, Push(1));
    SecondDecided(s3, w, t2, task2);
    var s4 := Step(s3, Create(t2, task2));
    var s5 := Step(s4, Decide(0, t2));
    PushedSteps(s5, w);
    EightSteps(s, es);
  }

  /** A run of eight events, state by state. */
  lemma EightSteps(s: State, es: seq<Event>)
    requires |es| == 8 && Enabled(s, es[0])
    requires var s1 := Step(s, es[0]);
             Enabled(s1, es[1]) &&
             var s2 := Step(s1, es[1]);
             Enabled(s2, es[2]) &&
             var s3 := Step(s2, es[2]);
             Enabled(s3, es[3]) &&
             var s4 := Step(s3, es[3]);
             Enabled(s4, es[4]) &&
             var s5 := Step(s4, es[4]);
             Enabled(s5, es[5]) &&
             var s6 := Step(s5, es[5]);
             Enabled(s6, es[6]) && Enabled(Step(s6, es[6]), es[7])
    ensures Legal(s, es) && Legal(s, es[..1]) && Legal(s, es[..4])
    ensures var s3 := Step(Step(Step(s, es[0]), es[1]), es[2]);
            var s5 := Step(Step(s3, es[3]), es[4]);
            && Run(s, es[..1]) == Step(s, es[0]) && Run(s, es[..4]) == Step(s3, es[3])
            && Run(s, es) == Step(Step(Step(s5, es[5]), es[6]), es[7])
  {
    hide Step, Enabled, Legal, Run;
    var s3 := Step(Step(Step(s, es[0]), es[1]), es[2]);
    var s5 := Step(Step(s3, es[3]), es[4]);
    assert es[5..] == [es[5], es[6], es[7]] + [];
    ThreeSteps(s5, es[5], es[6], es[7], []);
    NoSteps(Step(Step(Step(s5, es[5]), es[6]), es[7]));
    assert es[3..] == [es[3], es[4]] + es[5..];
    TwoSteps(s3, es[3], es[4], es[5..]);
    assert es == [es[0], es[1], es[2]] + es[3..];
    ThreeSteps(s, es[0], es[1], es[2], es[3..]);
    assert es[..1] == [es[0]];
    LastIsLegal(s, es[0]);
    assert es[..4] == [es[0], es[1], es[2]] + [es[3]];
    LastIsLegal(s3, es[3]);
    ThreeSteps(s, es[0], es[1], es[2], [es[3]]);
  }

  lemma NoSteps(s: State)
    ensures Legal(s, []) && Run(s, []) == s
  {}

  lemma TwoSteps(s: State, a: Event, b: Event, es: seq<Event>)
    requires Enabled(s, a) && Enabled(Step(s, a), b)
    ensures var s2 := Step(Step(s, a), b);
            && (Legal(s, [a, b] + es) <==> Legal(s2, es))
            && (Legal(s2, es) ==> Run(s, [a, b] + es) == Run(s2, es))
  {
    hide Step, Enabled;
    var all := [a, b] + es;
    assert all[1..] == [b] + es && all[1..][1..] == es;
  }

  lemma ThreeSteps(s: State, a: Event, b: Event, c: Event, es: seq<Event>)
    requires Enabled(s, a) && Enabled(Step(s, a), b) && Enabled(Step(Step(s, a), b), c)
    ensures var s3 := Step(Step(Step(s, a), b), c);
            && (Legal(s, [a, b, c] + es) <==> Legal(s3, es))
            && (Legal(s3, es) ==> Run(s, [a, b, c] + es) == Run(s3, es))
  {
    hide Step, Enabled;
    TwoSteps(s, a, b, [c] + es);
    assert [a, b, c] + es == [a, b] + ([c] + es);
    assert ([c] + es)[1..] == es;
  }
}
