/** kernel/scheduler/mutex.cpp: a mutex whose release hands it to the first waiter. */
module Mutex {
  import opened Options

  /** The mutex's own fields. */
  class Lock {
    var lock: bool
    var blockedTasks: seq<nat>

    constructor ()
      ensures !lock && blockedTasks == []
    {
      lock, blockedTasks := false, [];
    }

    /** False when the caller has to wait: it is then in the queue and blocked. */
    method Acquire(task: nat) returns (acquired: bool)
      modifies this
      ensures (lock, blockedTasks) == Acquired(old(lock), old(blockedTasks), task)
      ensures acquired == !old(lock)
    {
      if !lock {
        lock := true;
        acquired := true;
      } else {
        blockedTasks := blockedTasks + [task];
        acquired := false;
      }
    }

    /** The task to wake, which owns the mutex from now on. */
    method Release() returns (next: Option<nat>)
      modifies this
      ensures (lock, blockedTasks) == Released(old(lock), old(blockedTasks))
      ensures next == if old(blockedTasks) == [] then None else Some(old(blockedTasks)[0])
    {
      if blockedTasks == [] {
        next := None;
        lock := false;
      } else {
        next := Some(blockedTasks[0]);
        blockedTasks := blockedTasks[1..];
      }
    }
  }

  function Acquired(lock: bool, blocked: seq<nat>, t: nat): (bool, seq<nat>) {
    if !lock then (true, blocked) else (lock, blocked + [t])
  }

  function Released(lock: bool, blocked: seq<nat>): (bool, seq<nat>) {
    if blocked == [] then (false, []) else (lock, blocked[1..])
  }

  // ---------------------------------------------------------------------
  // Any number of tasks around one mutex
  // ---------------------------------------------------------------------

  /** Outside; asleep in the queue; popped by a release and on its way back; or in `acquire`'s
      caller. */
  datatype Phase = Outside | Waiting | Handed | Owner

  datatype State = State(lock: bool, blocked: seq<nat>, phase: map<nat, Phase>)

  datatype Event = Acquire(t: nat) | Resume(t: nat) | Release(t: nat)

  /** Only the owner releases. */
  predicate Enabled(s: State, e: Event) {
    && e.t in s.phase
    && match e
       case Acquire(t) => s.phase[t] == Outside
       case Resume(t) => s.phase[t] == Handed
       case Release(t) => s.phase[t] == Owner
  }

  function Step(s: State, e: Event): State
    requires Enabled(s, e)
  {
    match e
    case Acquire(t) =>
      var (lock, blocked) := Acquired(s.lock, s.blocked, t);
      State(lock, blocked, s.phase[t := if s.lock then Waiting else Owner])
    case Resume(t) => s.(phase := s.phase[t := Owner])
    case Release(t) =>
      var (lock, blocked) := Released(s.lock, s.blocked);
      var out := s.phase[t := Outside];
      State(lock, blocked, if s.blocked == [] then out else out[s.blocked[0] := Handed])
  }

  predicate Has(s: State, t: nat) {
    t in s.phase && (s.phase[t] == Owner || s.phase[t] == Handed)
  }

  ghost predicate Inv(s: State) {
    && (forall t, u :: Has(s, t) && Has(s, u) ==> t == u)
    && (s.lock <==> exists t :: Has(s, t))
    && (!s.lock ==> s.blocked == [])
    && (forall i, j :: 0 <= i < j < |s.blocked| ==> s.blocked[i] != s.blocked[j])
    && (forall t :: t in s.blocked <==> t in s.phase && s.phase[t] == Waiting)
  }

  lemma AcquireKeepsInv(s: State, e: Event)
    requires Inv(s) && Enabled(s, e) && e.Acquire?
    ensures Inv(Step(s, e))
  {
    var s' := Step(s, e);
    if s.lock {
      var t :| Has(s, t);
      assert Has(s', t);
      assert forall u :: Has(s', u) <==> Has(s, u);
      assert s'.blocked == s.blocked + [e.t];
    } else {
      assert Has(s', e.t);
      assert forall u :: u != e.t ==> (Has(s', u) <==> Has(s, u));
    }
  }

  lemma ReleaseKeepsInv(s: State, e: Event)
    requires Inv(s) && Enabled(s, e) && e.Release?
    ensures Inv(Step(s, e))
  {
    var s' := Step(s, e);
    assert Has(s, e.t);
    if s.blocked == [] {
      assert forall u :: u != e.t ==> (Has(s', u) <==> Has(s, u));
    } else {
      var next := s.blocked[0];
      assert next in s.blocked;
      assert Has(s', next);
      assert forall u :: u != e.t && u != next ==> (Has(s', u) <==> Has(s, u));
      assert forall u :: u in s.blocked[1..] <==> u in s.blocked && u != next;
    }
  }

  lemma StepKeepsInv(s: State, e: Event)
    requires Inv(s) && Enabled(s, e)
    ensures Inv(Step(s, e))
  {
    match e
    case Acquire(_) => AcquireKeepsInv(s, e);
    case Release(_) => ReleaseKeepsInv(s, e);
    case Resume(t) =>
      assert Has(s, t) && Has(Step(s, e), t);
      assert forall u :: Has(Step(s, e), u) <==> Has(s, u);
  }

  ghost predicate Init(s: State) {
    !s.lock && s.blocked == [] && forall t :: t in s.phase ==> s.phase[t] == Outside
  }

  ghost predicate Reaches(s: State, es: seq<Event>, s': State)
    decreases |es|
  {
    if es == [] then s' == s else Enabled(s, es[0]) && Reaches(Step(s, es[0]), es[1..], s')
  }

  lemma {:induction false} RunKeepsInv(s: State, es: seq<Event>, s': State)
    requires Inv(s) && Reaches(s, es, s')
    ensures Inv(s')
    decreases |es|
  {
    hide Inv;
    if es != [] {
      StepKeepsInv(s, es[0]);
      RunKeepsInv(Step(s, es[0]), es[1..], s');
    }
  }

  /** After every run: at most one task owns the mutex or is being handed it, the flag is set
      exactly when one is, and an unlocked mutex has no waiters. */
  lemma MutualExclusion(s: State, es: seq<Event>, s': State)
    requires Init(s) && Reaches(s, es, s')
    ensures forall t, u :: Has(s', t) && Has(s', u) ==> t == u
    ensures s'.lock <==> exists t :: Has(s', t)
    ensures !s'.lock ==> s'.blocked == []
    ensures forall t :: t in s'.blocked <==> t in s'.phase && s'.phase[t] == Waiting
  {
    RunKeepsInv(s, es, s');
  }

  /** Whoever is handed the mutex can resume with it and release it. */
  lemma HolderReleases(s: State, t: nat)
    requires Has(s, t)
    ensures s.phase[t] == Owner ==> Enabled(s, Release(t))
    ensures s.phase[t] == Handed ==> Enabled(s, Resume(t)) && Enabled(Step(s, Resume(t)), Release(t))
  {}

  function Releases(es: seq<Event>): nat {
    if es == [] then 0 else Releases(es[1..]) + if es[0].Release? then 1 else 0
  }

  /** One step moves a waiter forward by one if it is a release, and not otherwise. */
  lemma WaiterStep(s: State, e: Event, k: nat)
    requires Inv(s) && Enabled(s, e) && k < |s.blocked|
    ensures !e.Release? ==> k < |Step(s, e).blocked| && Step(s, e).blocked[k] == s.blocked[k]
    ensures e.Release? && k > 0 ==> k - 1 < |Step(s, e).blocked| && Step(s, e).blocked[k - 1] == s.blocked[k]
    ensures e.Release? && k == 0 ==>
              s.blocked[0] in Step(s, e).phase && Step(s, e).phase[s.blocked[0]] == Handed
  {
    assert s.blocked[k] in s.blocked;
  }

  /** Once handed the mutex, a task has it until it releases it itself. */
  lemma {:induction false} HandedStays(s: State, es: seq<Event>, s': State, t: nat)
    requires Inv(s) && Reaches(s, es, s') && Has(s, t) && Releases(es) == 0
    ensures Has(s', t)
    decreases |es|
  {
    hide Inv;
    if es != [] {
      StepKeepsInv(s, es[0]);
      HandedStays(Step(s, es[0]), es[1..], s', t);
    }
  }

  /** No overtaking: the waiter at index `k` is still waiting after up to `k` releases, `k - r` places
      from the front, and has the mutex after exactly `k + 1`. */
  lemma {:induction false} WaiterGetsItsTurn(s: State, es: seq<Event>, s': State, k: nat)
    requires Inv(s) && Reaches(s, es, s') && k < |s.blocked|
    ensures Releases(es) <= k ==>
              k - Releases(es) < |s'.blocked| && s'.blocked[k - Releases(es)] == s.blocked[k]
    ensures Releases(es) == k + 1 ==> Has(s', s.blocked[k])
    decreases |es|
  {
    hide Inv, Step, Has;
    if es != [] {
      var s1 := Step(s, es[0]);
      StepKeepsInv(s, es[0]);
      WaiterStep(s, es[0], k);
      if es[0].Release? && k == 0 {
        HandedHas(s1, s.blocked[0]);
        if Releases(es[1..]) == 0 {
          HandedStays(s1, es[1..], s', s.blocked[0]);
        }
      } else {
        WaiterGetsItsTurn(s1, es[1..], s', if es[0].Release? then k - 1 else k);
      }
    }
  }

  lemma HandedHas(s: State, t: nat)
    requires t in s.phase && s.phase[t] == Handed
    ensures Has(s, t)
  {}
}
