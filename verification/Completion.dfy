/** kernel/scheduler/completion.cpp: a flag that tasks wait for, and the queue of those that do. */
module Completion {
  class Completion {
    var completed: bool
    var waitingTasks: seq<nat>

    constructor ()
      ensures !completed && waitingTasks == []
    {
      completed, waitingTasks := false, [];
    }

    /** True when the caller may go on; otherwise it is queued and blocked. */
    method Await(task: nat) returns (mayProceed: bool)
      modifies this
      ensures completed == old(completed) && mayProceed == completed
      ensures waitingTasks == old(waitingTasks) + if completed then [] else [task]
    {
      if completed {
        mayProceed := true;
      } else {
        waitingTasks := waitingTasks + [task];
        mayProceed := false;
      }
    }

    /** Sets the flag and hands every waiter to the scheduler, in the order they came. */
    method SignalComplete() returns (added: seq<nat>)
      modifies this
      ensures completed && waitingTasks == [] && added == old(waitingTasks)
    {
      completed := true;
      added := [];
      while waitingTasks != []
        invariant completed && added + waitingTasks == old(waitingTasks)
        decreases |waitingTasks|
      {
        var nextTask := waitingTasks[0];
        waitingTasks := waitingTasks[1..];
        added := added + [nextTask];
      }
    }
  }
}
