/** kernel/include/mykonos/queue.h: a linked queue whose `pop` blocks while it is empty. */
module BlockingQueue {
  import opened Options

  class QueueElement<T> {
    const value: T
    var next: QueueElement?<T>

    constructor (v: T)
      ensures value == v && next == null
    {
      value := v;
      next := null;
    }
  }

  /** The queue's fields. A step is one section under its spinlock. */
  class Queue<T> {
    var waitingTasks: seq<nat>
    var head: QueueElement?<T>
    var tail: QueueElement?<T>
    ghost var elements: seq<QueueElement<T>>

    ghost predicate Valid()
      reads this, elements
    {
      && (forall i, j :: 0 <= i < j < |elements| ==> elements[i] != elements[j])
      && (if elements == [] then head == null && tail == null
          else head == elements[0] && tail == elements[|elements| - 1])
      && (forall i :: 0 <= i < |elements| - 1 ==> elements[i].next == elements[i + 1])
    }

    ghost function Contents(): seq<T>
      reads this, elements
    {
      var es := elements;
      seq(|es|, i requires 0 <= i < |es| => es[i].value)
    }

    constructor ()
      ensures Valid() && Contents() == [] && waitingTasks == []
    {
      waitingTasks, head, tail, elements := [], null, null, [];
    }

    /** The task to wake, if the queue was empty and one waits. */
    method Push(value: T) returns (woken: Option<nat>)
      requires Valid()
      modifies this, elements
      ensures Valid() && Contents() == old(Contents()) + [value]
      ensures old(Contents()) == [] && old(waitingTasks) != [] ==>
                woken == Some(old(waitingTasks)[0]) && waitingTasks == old(waitingTasks)[1..]
      ensures !(old(Contents()) == [] && old(waitingTasks) != []) ==> woken == None && waitingTasks == old(waitingTasks)
    {
      var newElement := new QueueElement(value);
      woken := None;
      if tail != null {
        tail.next := newElement;
        tail := newElement;
      } else {
        head := newElement;
        tail := newElement;
        if waitingTasks != [] {
          woken := Some(waitingTasks[0]);
          waitingTasks := waitingTasks[1..];
        }
      }
      elements := elements + [newElement];
    }

    /** The first section of `pop`: true when there is something to take, else the caller is queued. */
    method Ready(task: nat) returns (ready: bool)
      requires Valid()
      modifies this`waitingTasks
      ensures Valid() && elements == old(elements)
      ensures ready <==> elements != []
      ensures waitingTasks == if ready then old(waitingTasks) else old(waitingTasks) + [task]
    {
      ready := head != null;
      if !ready {
        waitingTasks := waitingTasks + [task];
      }
    }

    /** The rest of `pop`, which does not look again whether there is an element. */
    method Take() returns (result: T)
      requires Valid() && Contents() != []
      modifies this`head, this`tail, this`elements
      ensures Valid() && result == old(Contents())[0] && Contents() == old(Contents())[1..]
    {
      var headElement := head;
      if head == tail {
        head := null;
        tail := null;
      } else {
        head := head.next;
      }
      elements := elements[1..];
      result := headElement.value;
    }
  }

  // ---------------------------------------------------------------------
  // Producers and consumers
  // ---------------------------------------------------------------------

  datatype Phase = Busy | Sleeping | Woken

  /** `faulted`: some `pop` took from an empty queue. */
  datatype State<T> = State(elements: seq<T>, waiting: seq<nat>, consumers: map<nat, Phase>, pushed: seq<T>,
                            delivered: seq<T>, faulted: bool)

  datatype Event<T> = Push(value: T) | Pop(c: nat) | Resume(c: nat)

  predicate Enabled<T>(s: State<T>, e: Event<T>) {
    match e
    case Push(_) => true
    case Pop(c) => c in s.consumers && s.consumers[c] == Busy
    case Resume(c) => c in s.consumers && s.consumers[c] == Woken
  }

  function Taken<T>(s: State<T>): State<T> {
    if s.elements == [] then s.(faulted := true)
    else s.(elements := s.elements[1..], delivered := s.delivered + [s.elements[0]])
  }

  function Step<T>(s: State<T>, e: Event<T>): State<T>
    requires Enabled(s, e)
  {
    match e
    case Push(v) =>
      var s1 := s.(elements := s.elements + [v], pushed := s.pushed + [v]);
      if s.elements == [] && s.waiting != []
      then s1.(waiting := s.waiting[1..], consumers := s.consumers[s.waiting[0] := Woken])
      else s1
    case Pop(c) =>
      if s.elements == [] then s.(waiting := s.waiting + [c], consumers := s.consumers[c := Sleeping])
      else Taken(s)
    case Resume(c) => Taken(s.(consumers := s.consumers[c := Busy]))
  }

  function Run<T>(s: State<T>, es: seq<Event<T>>): Option<State<T>>
    decreases |es|
  {
    if es == [] then Some(s)
    else if Enabled(s, es[0]) then Run(Step(s, es[0]), es[1..])
    else None
  }

  function Start<T>(consumers: set<nat>): State<T> {
    State([], [], map c | c in consumers :: Busy, [], [], false)
  }

  /** One consumer `c`: it sleeps only on an empty queue, and is woken only to a filled one. */
  ghost predicate Inv<T>(s: State<T>, c: nat) {
    && s.consumers.Keys == {c}
    && !s.faulted
    && s.pushed == s.delivered + s.elements
    && s.waiting == (if s.consumers[c] == Sleeping then [c] else [])
    && (s.consumers[c] == Sleeping ==> s.elements == [])
    && (s.consumers[c] == Woken ==> s.elements != [])
  }

  lemma StepKeepsInv<T>(s: State<T>, c: nat, e: Event<T>)
    requires Inv(s, c) && Enabled(s, e)
    ensures Inv(Step(s, e), c)
  {
    if e.Push? {
      assert s.pushed + [e.value] == s.delivered + (s.elements + [e.value]);
    } else if s.elements != [] {
      assert s.elements == [s.elements[0]] + s.elements[1..];
      assert s.delivered + s.elements == s.delivered + [s.elements[0]] + s.elements[1..];
    }
  }

  lemma {:induction false} RunKeepsInv<T>(s: State<T>, c: nat, es: seq<Event<T>>)
    requires Inv(s, c) && Run(s, es).Some?
    ensures Inv(Run(s, es).value, c)
    decreases |es|
  {
    hide Inv, Step;
    if es != [] {
      StepKeepsInv(s, c, es[0]);
      RunKeepsInv(Step(s, es[0]), c, es[1..]);
    }
  }

  /** With any number of producers and one consumer: elements are delivered exactly once and in the
      order of the pushes, `pop` never takes from an empty queue, and the consumer never sleeps
      while there is something to take. */
  lemma DeliversInOrder<T>(c: nat, es: seq<Event<T>>)
    requires Run(Start({c}), es).Some?
    ensures var s := Run(Start({c}), es).value;
            && s.delivered + s.elements == s.pushed
            && !s.faulted && c in s.consumers
            && (s.elements != [] ==> s.consumers[c] != Sleeping)
            && (s.consumers[c] == Woken ==> s.elements != [])
  {
    assert Start<T>({c}).consumers.Keys == {c};
    RunKeepsInv(Start({c}), c, es);
  }

  /** The events at which a `pop` returns. */
  predicate Returns<T>(s: State<T>, e: Event<T>) {
    e.Resume? || (e.Pop? && s.elements != [])
  }

  function Returned<T>(s: State<T>, es: seq<Event<T>>): nat
    decreases |es|
  {
    if es == [] || !Enabled(s, es[0]) then 0
    else Returned(Step(s, es[0]), es[1..]) + if Returns(s, es[0]) then 1 else 0
  }

  lemma {:induction false} ReturnedCount<T>(s: State<T>, c: nat, es: seq<Event<T>>)
    requires Inv(s, c) && Run(s, es).Some?
    ensures |Run(s, es).value.delivered| == |s.delivered| + Returned(s, es)
    decreases |es|
  {
    if es != [] {
      StepKeepsInv(s, c, es[0]);
      ReturnedCount(Step(s, es[0]), c, es[1..]);
    }
  }

  /** Every `pop` that returns takes one element: as many are delivered as calls returned. */
  lemma OneElementPerPop<T>(c: nat, es: seq<Event<T>>)
    requires Run(Start({c}), es).Some?
    ensures |Run(Start({c}), es).value.delivered| == Returned(Start({c}), es)
  {
    assert Start<T>({c}).consumers.Keys == {c};
    ReturnedCount(Start({c}), c, es);
  }

  /** Not so with two: one sleeps, is woken by a push, and finds the element taken by the other. */
  lemma TwoConsumersFault<T>(consumers: set<nat>, c: nat, d: nat, v: T)
    requires c in consumers && d in consumers && c != d
    ensures var r := Run<T>(Start(consumers), [Pop(c), Push(v), Pop(d), Resume(c)]);
            r.Some? && r.value.faulted
  {
    var s0: State<T> := Start(consumers);
    var s1 := Step(s0, Pop(c));
    assert s1.waiting == [c] && s1.consumers[c] == Sleeping && s1.consumers[d] == Busy;
    var s2 := Step(s1, Push(v));
    assert s2.elements == [v] && s2.consumers[c] == Woken && s2.consumers[d] == Busy;
    var s3 := Step(s2, Pop(d));
    assert s3.elements == [] && s3.consumers[c] == Woken;
    var s4 := Step(s3, Resume(c));
    assert s4.faulted;
    var es: seq<Event<T>> := [Pop(c), Push(v), Pop(d), Resume(c)];
    assert es[1..] == [Push(v), Pop(d), Resume(c)];
    assert es[1..][1..] == [Pop(d), Resume(c)];
    assert es[1..][1..][1..] == [Resume(c)];
    assert Run(s3, [Resume(c)]) == Run(s4, []);
    assert Run(s2, [Pop(d), Resume(c)]) == Run(s3, [Resume(c)]);
    assert Run(s1, [Push(v), Pop(d), Resume(c)]) == Run(s2, [Pop(d), Resume(c)]);
    assert Run(s0, es) == Run(s1, es[1..]);
  }

  lemma {:induction false} NoConsumerNoFault<T>(s: State<T>, es: seq<Event<T>>)
    requires s.consumers == map[] && s.waiting == [] && !s.faulted && Run(s, es).Some?
    ensures !Run(s, es).value.faulted
    decreases |es|
  {
    if es != [] {
      NoConsumerNoFault(Step(s, es[0]), es[1..]);
    }
  }

  /** The queue takes from an empty list in some run if and only if it has two consumers or more. */
  lemma FaultsExactly<T>(consumers: set<nat>, v: T)
    ensures (exists es: seq<Event<T>> :: Run(Start(consumers), es).Some? && Run(Start(consumers), es).value.faulted)
            <==> |consumers| >= 2
  {
    hide Run, Start;
    if |consumers| >= 2 {
      var c :| c in consumers;
      assert |consumers - {c}| == |consumers| - 1;
      assert consumers - {c} != {};
      var d :| d in consumers - {c};
      TwoConsumersFault(consumers, c, d, v);
    } else {
      forall es: seq<Event<T>> | Run(Start(consumers), es).Some?
        ensures !Run(Start(consumers), es).value.faulted
      {
        FewConsumersNoFault(consumers, es);
      }
    }
  }

  lemma FewConsumersNoFault<T>(consumers: set<nat>, es: seq<Event<T>>)
    requires |consumers| <= 1 && Run(Start(consumers), es).Some?
    ensures !Run(Start(consumers), es).value.faulted
  {
    if consumers == {} {
      NoConsumerNoFault(Start(consumers), es);
    } else {
      var c :| c in consumers;
      assert |consumers - {c}| == 0;
      assert consumers == {c};
      DeliversInOrder(c, es);
    }
  }
}
