/** kernel/drivers/tree.cpp over kernel/scheduler/completion.cpp: loading a device tree in parallel,
    each node in its own thread, and joining it bottom-up through completions.

    Nodes are numbered in the order in which they are created; node 0 is the root. A step is one
    section under a completion's spinlock, one turn of a loop, or one piece of `load()`. */
module DeviceTree {
  /** Where a node's thread is. `Awaiting(i)` is about to await child `i`; `Blocked(i)` is asleep in
      that child's completion; `Woken(i)` was popped from it; `Draining` has set its own completion
      and is waking those that wait for it. */
  datatype Phase = Started | Loading | Awaiting(i: nat) | Blocked(i: nat) | Woken(i: nat) | Draining | Done

  datatype Node = Node(children: seq<nat>, phase: Phase, completed: bool, waitingTasks: seq<nat>)

  type Tree = seq<Node>

  datatype Event =
    | BeginLoad(n: nat)
    | AppendAndLoad(n: nat)  // load() appends a new child and starts its thread
    | EndLoad(n: nat)
    | Await(n: nat)          // of the next child
    | Resume(n: nat)         // from a blocking await
    | Signal(n: nat)         // completed = true
    | WakeOne(n: nat)        // the drain loop pops one waiter
    | DrainDone(n: nat)

  predicate Enabled(s: Tree, e: Event) {
    && e.n < |s|
    && var node := s[e.n];
       match e
       case BeginLoad(_) => node.phase.Started?
       case AppendAndLoad(_) => node.phase.Loading?
       case EndLoad(_) => node.phase.Loading?
       case Await(_) => node.phase.Awaiting? && node.phase.i < |node.children| && node.children[node.phase.i] < |s|
       case Resume(_) => node.phase.Woken?
       case Signal(_) => node.phase.Awaiting? && node.phase.i == |node.children|
       case WakeOne(_) =>
         && node.phase.Draining? && node.waitingTasks != [] && node.waitingTasks[0] < |s|
         && s[node.waitingTasks[0]].phase.Blocked?
       case DrainDone(_) => node.phase.Draining? && node.waitingTasks == []
  }

  function InPhase(s: Tree, n: nat, ph: Phase): Tree
    requires n < |s|
  {
    s[n := s[n].(phase := ph)]
  }

  function Step(s: Tree, e: Event): Tree
    requires Enabled(s, e)
  {
    var n := e.n;
    var node := s[n];
    match e
    case BeginLoad(_) => InPhase(s, n, Loading)
    case AppendAndLoad(_) =>
      s[n := node.(children := node.children + [|s|])] + [Node([], Started, false, [])]
    case EndLoad(_) => InPhase(s, n, Awaiting(0))
    case Await(_) =>
      var c := node.children[node.phase.i];
      if s[c].completed then InPhase(s, n, Awaiting(node.phase.i + 1))
      else
        var s1 := InPhase(s, n, Blocked(node.phase.i));
        s1[c := s1[c].(waitingTasks := s1[c].waitingTasks + [n])]
    case Resume(_) => InPhase(s, n, Awaiting(node.phase.i + 1))
    case Signal(_) => s[n := node.(phase := Draining, completed := true)]
    case WakeOne(_) =>
      var w := node.waitingTasks[0];
      var s1 := s[n := node.(waitingTasks := node.waitingTasks[1..])];
      InPhase(s1, w, Woken(s[w].phase.i))
    case DrainDone(_) => InPhase(s, n, Done)
  }

  predicate HasLoaded(node: Node) { !node.phase.Started? && !node.phase.Loading? }

  /** The children whose completion a node has seen set, by its phase. */
  function Seen(node: Node): nat {
    match node.phase
    case Awaiting(i) => i
    case Blocked(i) => i
    case Woken(i) => i + 1
    case Draining => |node.children|
    case Done => |node.children|
    case _ => 0
  }

  ghost predicate NodeOk(s: Tree, n: nat)
    requires n < |s|
  {
    var node := s[n];
    && (node.completed <==> node.phase.Draining? || node.phase.Done?)
    && (forall i :: 0 <= i < |node.children| ==> n < node.children[i] < |s|)
    && Seen(node) <= |node.children|
    && (forall i :: 0 <= i < Seen(node) && i < |node.children| && node.children[i] < |s| ==>
          s[node.children[i]].completed)
    && (node.phase.Blocked? ==> node.phase.i < |node.children|)
    && (node.phase.Done? ==> node.waitingTasks == [])
  }

  /** The sleepers in a node's completion are exactly the nodes blocked on it. */
  ghost predicate WaitersOk(s: Tree, n: nat)
    requires n < |s|
  {
    var ws := s[n].waitingTasks;
    && (forall i, j :: 0 <= i < j < |ws| ==> ws[i] != ws[j])
    && (forall w :: w in ws ==> w < |s| && BlockedOn(s, w, n))
    && (forall w :: 0 <= w < |s| && BlockedOn(s, w, n) ==> w in ws)
  }

  ghost predicate BlockedOn(s: Tree, w: nat, n: nat)
    requires w < |s|
  {
    s[w].phase.Blocked? && s[w].phase.i < |s[w].children| && s[w].children[s[w].phase.i] == n
  }

  ghost predicate HasParent(s: Tree, n: nat)
    requires n < |s|
  {
    n == 0 || exists m :: 0 <= m < n && n in s[m].children
  }

  ghost predicate Inv(s: Tree) {
    && |s| > 0
    && (forall n :: 0 <= n < |s| ==> NodeOk(s, n))
    && (forall n :: 0 <= n < |s| ==> WaitersOk(s, n))
    && (forall n :: 0 <= n < |s| ==> HasParent(s, n))
  }

  lemma Parts(s: Tree, n: nat)
    requires Inv(s) && n < |s|
    ensures NodeOk(s, n) && WaitersOk(s, n)
  {}

  predicate Alone(e: Event) { e.BeginLoad? || e.EndLoad? || e.Resume? || e.Signal? || e.DrainDone? }

  /** A step on one node's phase alone. */
  lemma AloneNode(s: Tree, e: Event, n: nat)
    requires Inv(s) && Enabled(s, e) && Alone(e) && n < |s|
    ensures NodeOk(Step(s, e), n)
  {
    hide Inv;
    Parts(s, n);
    Parts(s, e.n);
  }

  lemma AloneWaiters(s: Tree, e: Event, n: nat)
    requires Inv(s) && Enabled(s, e) && Alone(e) && n < |s|
    ensures WaitersOk(Step(s, e), n)
  {
    hide Inv;
    Parts(s, n);
    Parts(s, e.n);
    var s' := Step(s, e);
    assert forall w :: 0 <= w < |s| ==> (BlockedOn(s', w, n) <==> BlockedOn(s, w, n));
  }

  lemma AppendNode(s: Tree, e: Event, n: nat)
    requires Inv(s) && Enabled(s, e) && e.AppendAndLoad? && n <= |s|
    ensures NodeOk(Step(s, e), n)
  {
    hide Inv;
    Parts(s, e.n);
    if n < |s| {
      Parts(s, n);
    }
  }

  lemma AppendWaiters(s: Tree, e: Event, n: nat)
    requires Inv(s) && Enabled(s, e) && e.AppendAndLoad? && n <= |s|
    ensures WaitersOk(Step(s, e), n)
  {
    var s' := Step(s, e);
    forall w | 0 <= w < |s| ensures BlockedOn(s', w, n) <==> n < |s| && BlockedOn(s, w, n) {
      Parts(s, w);
    }
    if n < |s| {
      Parts(s, n);
    }
  }

  lemma AwaitNode(s: Tree, e: Event, n: nat)
    requires Inv(s) && Enabled(s, e) && e.Await? && n < |s|
    ensures NodeOk(Step(s, e), n)
  {
    hide Inv;
    Parts(s, n);
    Parts(s, e.n);
    Parts(s, s[e.n].children[s[e.n].phase.i]);
  }

  lemma AwaitWaiters(s: Tree, e: Event, n: nat)
    requires Inv(s) && Enabled(s, e) && e.Await? && n < |s|
    ensures WaitersOk(Step(s, e), n)
  {
    hide Inv;
    Parts(s, n);
    Parts(s, e.n);
    var s' := Step(s, e);
    var c := s[e.n].children[s[e.n].phase.i];
    assert e.n != c;
    assert forall w :: 0 <= w < |s| && w != e.n ==> (BlockedOn(s', w, n) <==> BlockedOn(s, w, n));
    assert !BlockedOn(s, e.n, n);
    if s[c].completed {
      assert !BlockedOn(s', e.n, n);
    } else {
      assert BlockedOn(s', e.n, n) <==> n == c;
    }
  }

  /** The waiter the drain pops was blocked on this very node, which is complete. */
  lemma WokenBy(s: Tree, e: Event)
    requires Inv(s) && Enabled(s, e) && e.WakeOne?
    ensures var w := s[e.n].waitingTasks[0]; w < e.n && BlockedOn(s, w, e.n)
  {
    hide Inv;
    var w := s[e.n].waitingTasks[0];
    Parts(s, e.n);
    Parts(s, w);
    assert w in s[e.n].waitingTasks;
  }

  lemma WakeNode(s: Tree, e: Event, n: nat)
    requires Inv(s) && Enabled(s, e) && e.WakeOne? && n < |s|
    ensures NodeOk(Step(s, e), n)
  {
    hide Inv;
    WokenBy(s, e);
    Parts(s, n);
    Parts(s, e.n);
    Parts(s, s[e.n].waitingTasks[0]);
  }

  lemma WakeWaiters(s: Tree, e: Event, n: nat)
    requires Inv(s) && Enabled(s, e) && e.WakeOne? && n < |s|
    ensures WaitersOk(Step(s, e), n)
  {
    hide Inv;
    var x := s[e.n].waitingTasks[0];
    WokenBy(s, e);
    Parts(s, n);
    Parts(s, e.n);
    var s' := Step(s, e);
    assert forall w :: 0 <= w < |s| && w != x ==> (BlockedOn(s', w, n) <==> BlockedOn(s, w, n));
    assert !BlockedOn(s', x, n);
    assert n != e.n ==> x !in s[n].waitingTasks;
    assert forall w :: w in s[e.n].waitingTasks[1..] <==> w in s[e.n].waitingTasks && w != x;
  }

  lemma ParentKept(s: Tree, e: Event, n: nat)
    requires Inv(s) && Enabled(s, e) && n < |Step(s, e)|
    ensures HasParent(Step(s, e), n)
  {
    var s' := Step(s, e);
    if n < |s| && n != 0 {
      assert HasParent(s, n);
      var m :| 0 <= m < n && n in s[m].children;
      assert n in s'[m].children;
    } else if n == |s| {
      assert s'[e.n].children[|s[e.n].children|] == n;
    }
  }

  /** Every step keeps the tree joined as the invariant says. */
  lemma StepKeepsInv(s: Tree, e: Event)
    requires Inv(s) && Enabled(s, e)
    ensures Inv(Step(s, e))
  {
    hide NodeOk, WaitersOk, HasParent;
    var s' := Step(s, e);
    assert |s'| == if e.AppendAndLoad? then |s| + 1 else |s|;
    hide Step, Enabled;
    forall n | 0 <= n < |s'| ensures NodeOk(s', n) && WaitersOk(s', n) {
      if Alone(e) {
        AloneNode(s, e, n);
        AloneWaiters(s, e, n);
      } else if e.AppendAndLoad? {
        AppendNode(s, e, n);
        AppendWaiters(s, e, n);
      } else if e.Await? {
        AwaitNode(s, e, n);
        AwaitWaiters(s, e, n);
      } else {
        WakeNode(s, e, n);
        WakeWaiters(s, e, n);
      }
    }
    forall n | 0 <= n < |s'| ensures HasParent(s', n) {
      ParentKept(s, e, n);
    }
  }

  // ---------------------------------------------------------------------
  // Whole runs
  // ---------------------------------------------------------------------

  /** The root's thread calls `loadAndWait` itself. */
  const START: Tree := [Node([], Started, false, [])]

  ghost predicate Reaches(s: Tree, es: seq<Event>, s': Tree)
    decreases |es|
  {
    if es == [] then s' == s else Enabled(s, es[0]) && Reaches(Step(s, es[0]), es[1..], s')
  }

  lemma {:induction false} RunKeepsInv(s: Tree, es: seq<Event>, s': Tree)
    requires Inv(s) && Reaches(s, es, s')
    ensures Inv(s')
    decreases |es|
  {
    hide Inv, Step, Enabled;
    if es != [] {
      StepKeepsInv(s, es[0]);
      RunKeepsInv(Step(s, es[0]), es[1..], s');
    }
  }

  lemma ReachedInv(es: seq<Event>, s: Tree)
    requires Reaches(START, es, s)
    ensures Inv(s)
  {
    assert Inv(START);
    RunKeepsInv(START, es, s);
  }

  /** `d` is in the subtree of `n`, along the given child positions. */
  ghost predicate Below(s: Tree, n: nat, path: seq<nat>, d: nat)
    decreases |path|
  {
    && n < |s|
    && if path == [] then d == n
       else path[0] < |s[n].children| && Below(s, s[n].children[path[0]], path[1..], d)
  }

  /** Whenever a node's completion is set, every node of its subtree has finished `load()` and has
      its own completion set. */
  lemma {:induction false} SubtreeLoaded(es: seq<Event>, s: Tree, n: nat, path: seq<nat>, d: nat)
    requires Reaches(START, es, s) && Below(s, n, path, d) && s[n].completed
    ensures d < |s| && s[d].completed && HasLoaded(s[d])
    decreases |path|
  {
    hide Reaches;
    ReachedInv(es, s);
    Parts(s, n);
    if path != [] {
      SubtreeLoaded(es, s, s[n].children[path[0]], path[1..], d);
    }
  }

  /** When `loadRootDevice` returns, every device ever appended has been loaded. */
  lemma {:induction false} WholeTreeLoaded(es: seq<Event>, s: Tree, n: nat)
    requires Reaches(START, es, s) && s != [] && s[0].phase.Done? && n < |s|
    ensures s[n].completed && HasLoaded(s[n])
  {
    hide Reaches;
    ReachedInv(es, s);
    Parts(s, n);
    Parts(s, 0);
    if n != 0 {
      assert HasParent(s, n);
      var m :| 0 <= m < n && n in s[m].children;
      WholeTreeLoaded(es, s, m);
      Parts(s, m);
    }
  }

  /** No wake-up is lost: a node asleep on a completion is in its queue, and if that completion is
      set its signaller has not finished waking. */
  lemma SleepersAreWoken(es: seq<Event>, s: Tree, w: nat)
    requires Reaches(START, es, s) && w < |s| && s[w].phase.Blocked?
    ensures s[w].phase.i < |s[w].children|
    ensures var c := s[w].children[s[w].phase.i];
            c < |s| && w in s[c].waitingTasks && (s[c].completed ==> s[c].phase.Draining?)
  {
    hide Reaches;
    ReachedInv(es, s);
    Parts(s, w);
    var c := s[w].children[s[w].phase.i];
    Parts(s, c);
    assert BlockedOn(s, w, c);
  }

  // ---------------------------------------------------------------------
  // Loading always comes to its end
  // ---------------------------------------------------------------------

  /** Some thread can always go on until all are done: the youngest that is not done waits for nobody. */
  lemma {:induction false} NeverDeadlocked(s: Tree, n: nat) returns (e: Event)
    requires Inv(s) && n < |s| && !s[n].phase.Done? && forall m :: n < m < |s| ==> s[m].phase.Done?
    ensures Enabled(s, e)
  {
    Parts(s, n);
    match s[n].phase {
      case Started => e := BeginLoad(n);
      case Loading => e := EndLoad(n);
      case Awaiting(i) => e := if i < |s[n].children| then Await(n) else Signal(n);
      case Blocked(i) =>
        var c := s[n].children[i];
        Parts(s, c);
        assert BlockedOn(s, n, c);
        assert false;
      case Woken(_) => e := Resume(n);
      case Draining =>
        if s[n].waitingTasks == [] {
          e := DrainDone(n);
        } else {
          e := WakeOne(n);
          var w := s[n].waitingTasks[0];
          assert w in s[n].waitingTasks && BlockedOn(s, w, n);
        }
    }
  }

  lemma {:induction false} YoungestNotDone(s: Tree, k: nat) returns (n: nat)
    requires k <= |s| && (forall m :: k <= m < |s| ==> s[m].phase.Done?)
    requires exists m :: 0 <= m < k && !s[m].phase.Done?
    ensures n < |s| && !s[n].phase.Done? && forall m :: n < m < |s| ==> s[m].phase.Done?
  {
    if s[k - 1].phase.Done? {
      n := YoungestNotDone(s, k - 1);
    } else {
      n := k - 1;
    }
  }

  /** After every run: a step is possible, or every node's thread is done. */
  lemma DoneOrGoingOn(es: seq<Event>, s: Tree)
    requires Reaches(START, es, s)
    ensures (forall n :: 0 <= n < |s| ==> s[n].phase.Done?) || exists e :: Enabled(s, e)
  {
    hide Reaches, Enabled;
    ReachedInv(es, s);
    if m :| 0 <= m < |s| && !s[m].phase.Done? {
      var n := YoungestNotDone(s, |s|);
      var e := NeverDeadlocked(s, n);
    }
  }

  /** How many steps a node's thread may still take, and one for each sleeper it has to wake. */
  function NodeRank(node: Node): int {
    var n := |node.children|;
    |node.waitingTasks|
    + match node.phase
      case Started => 4 * n + 5
      case Loading => 4 * n + 4
      case Awaiting(i) => 4 * (n - i) + 3
      case Blocked(i) => 4 * (n - i) + 1
      case Woken(i) => 4 * (n - i)
      case Draining => 2
      case Done => 0
  }

  function Rank(s: Tree): int {
    if s == [] then 0 else Rank(s[..|s| - 1]) + NodeRank(s[|s| - 1])
  }

  lemma {:induction false} RankUpdate(s: Tree, n: nat, node: Node)
    requires n < |s|
    ensures Rank(s[n := node]) == Rank(s) - NodeRank(s[n]) + NodeRank(node)
  {
    hide NodeRank;
    var k := |s| - 1;
    if n == k {
      assert s[n := node][..k] == s[..k];
    } else {
      assert s[n := node][..k] == s[..k][n := node];
      RankUpdate(s[..k], n, node);
    }
  }

  lemma RankAppend(s: Tree, node: Node)
    ensures Rank(s + [node]) == Rank(s) + NodeRank(node)
  {
    assert (s + [node])[..|s|] == s;
  }

  lemma {:induction false} RankNotNegative(s: Tree, k: nat)
    requires k <= |s| && forall n :: 0 <= n < |s| ==> NodeOk(s, n)
    ensures Rank(s[..k]) >= 0
  {
    if k > 0 {
      RankNotNegative(s, k - 1);
      assert s[..k][..k - 1] == s[..k - 1];
      assert NodeOk(s, k - 1);
    }
  }

  /** Every step brings loading nearer to its end, except that a new child adds nine steps. */
  lemma RankFalls(s: Tree, e: Event)
    requires Inv(s) && Enabled(s, e)
    ensures Rank(Step(s, e)) + 1 <= Rank(s) + if e.AppendAndLoad? then 10 else 0
  {
    hide Inv, Rank;
    Parts(s, e.n);
    var n, node := e.n, s[e.n];
    match e
    case AppendAndLoad(_) =>
      var grown := node.(children := node.children + [|s|]);
      RankUpdate(s, n, grown);
      RankAppend(s[n := grown], Node([], Started, false, []));
    case Await(_) =>
      var c := node.children[node.phase.i];
      if s[c].completed {
        RankUpdate(s, n, node.(phase := Awaiting(node.phase.i + 1)));
      } else {
        var s1 := InPhase(s, n, Blocked(node.phase.i));
        RankUpdate(s, n, node.(phase := Blocked(node.phase.i)));
        RankUpdate(s1, c, s1[c].(waitingTasks := s1[c].waitingTasks + [n]));
      }
    case WakeOne(_) =>
      WokenBy(s, e);
      var w := node.waitingTasks[0];
      var s1 := s[n := node.(waitingTasks := node.waitingTasks[1..])];
      RankUpdate(s, n, s1[n]);
      RankUpdate(s1, w, s1[w].(phase := Woken(s[w].phase.i)));
    case _ => RankUpdate(s, n, Step(s, e)[n]);
  }

  function Appends(es: seq<Event>): nat {
    if es == [] then 0 else Appends(es[1..]) + if es[0].AppendAndLoad? then 1 else 0
  }

  lemma {:induction false} RunsAreBounded(s: Tree, es: seq<Event>, s': Tree)
    requires Inv(s) && Reaches(s, es, s')
    ensures |es| <= Rank(s) + 10 * Appends(es)
    decreases |es|
  {
    hide Inv, Rank, Step, Enabled;
    if es == [] {
      NotNegative(s);
    } else {
      StepKeepsInv(s, es[0]);
      RankFalls(s, es[0]);
      RunsAreBounded(Step(s, es[0]), es[1..], s');
    }
  }

  lemma NotNegative(s: Tree)
    requires Inv(s)
    ensures Rank(s) >= 0
  {
    RankNotNegative(s, |s|);
    assert s[..|s|] == s;
  }

  /** A run that appends `a` devices takes at most `5 + 10 a` steps, whatever the scheduling. As it can
      go on until every thread is done, loading a finite tree always ends. */
  lemma LoadingEnds(es: seq<Event>, s: Tree)
    requires Reaches(START, es, s)
    ensures |es| <= 5 + 10 * Appends(es)
  {
    assert Inv(START);
    assert START[..0] == [] && Rank(START) == NodeRank(START[0]) == 5;
    hide Inv, Rank, Reaches;
    RunsAreBounded(START, es, s);
  }

  // ---------------------------------------------------------------------
  // The child list in memory
  // ---------------------------------------------------------------------

  /** A device's children, linked through `next` from `firstChild` to null. */
  class Device {
    var firstChild: Device?
    var lastChild: Device?
    var next: Device?
    ghost var children: seq<Device>

    ghost predicate Valid()
      reads this, children
    {
      && (forall i, j :: 0 <= i < j < |children| ==> children[i] != children[j])
      && (if children == [] then firstChild == null
          else firstChild == children[0] && lastChild == children[|children| - 1] && lastChild.next == null)
      && (forall i, j :: 0 <= i < |children| && j == i + 1 && j < |children| ==> children[i].next == children[j])
    }

    constructor ()
      ensures Valid() && children == [] && next == null
    {
      firstChild, lastChild, next, children := null, null, null, [];
    }

    /** The part of `appendAndLoad` before the new thread starts. */
    method Append(child: Device)
      requires Valid() && this !in children && child != this && child !in children && child.next == null
      modifies this, if children == [] then {} else {children[|children| - 1]}
      ensures Valid() && children == old(children) + [child]
      ensures next == old(next)
    {
      if firstChild == null {
        firstChild := child;
        lastChild := child;
      } else {
        lastChild.next := child;
        lastChild := child;
      }
      children := children + [child];
    }

    /** The loop of `loadAndWait` visits every child once, in order. */
    method Visit() returns (visited: seq<Device>)
      requires Valid()
      ensures visited == children
    {
      visited := [];
      var child := firstChild;
      while child != null
        invariant |visited| <= |children| && visited == children[..|visited|]
        invariant child == if |visited| < |children| then children[|visited|] else null
        decreases |children| - |visited|
      {
        visited := visited + [child];
        child := child.next;
      }
    }
  }
}
