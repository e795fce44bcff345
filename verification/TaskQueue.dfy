/** The queue of a thread pool and the choice of the next task (`libyaaf/utils/async/thread_pool.cpp`). */
module TaskQueue {

  datatype Priority = Default | Worker

  /** One posting of a task: tickets are numbered in posting order. */
  datatype Task = Task(ticket: nat, priority: Priority)

  /** How many DEFAULT tasks stand before position `i`. */
  ghost function DefaultsBefore(queue: seq<Task>, i: nat): nat
    requires i <= |queue|
  {
    if i == 0 then 0 else DefaultsBefore(queue, i - 1) + if queue[i - 1].priority == Default then 1 else 0
  }

  /** Position `i` is the one to take: the first DEFAULT task or, if there is none, the first task. */
  ghost predicate Selected(queue: seq<Task>, i: nat) {
    && i < |queue|
    && if queue[i].priority == Default then forall j :: 0 <= j < i ==> queue[j].priority == Worker
       else i == 0 && forall t <- queue :: t.priority == Worker
  }

  function Without(queue: seq<Task>, i: nat): (rest: seq<Task>)
    requires i < |queue|
    ensures |rest| == |queue| - 1
    ensures multiset(rest) + multiset{queue[i]} == multiset(queue)
    ensures forall j :: 0 <= j < |rest| ==> rest[j] == queue[if j < i then j else j + 1]
  {
    assert queue == queue[..i] + [queue[i]] + queue[i + 1..];
    queue[..i] + queue[i + 1..]
  }

  lemma {:induction false} SelectedExists(queue: seq<Task>) returns (i: nat)
    requires queue != []
    ensures Selected(queue, i)
  {
    i := 0;
    while i < |queue| && queue[i].priority == Worker
      invariant 0 <= i <= |queue|
      invariant forall j :: 0 <= j < i ==> queue[j].priority == Worker
    {
      i := i + 1;
    }
    if i == |queue| {
      i := 0;
    }
  }

  lemma {:induction false} SelectedUnique(queue: seq<Task>, i: nat, j: nat)
    requires Selected(queue, i) && Selected(queue, j)
    ensures i == j
  {
    assert queue[i] in queue && queue[j] in queue;
  }

  datatype Continuation = Single | Repeat

  /** `task_wrapper`: it remembers the thread that ran it last and holds the result a waiter looks at. */
  class TaskWrapper {
    var threadNumber: nat
    var runned: bool

    constructor ()
      ensures runned
    {
      threadNumber, runned := 0, true;
    }

    /** `apply`, for a task that returns `strategy`: completion is signalled exactly on SINGLE. */
    method Apply(thread: nat, strategy: Continuation) returns (r: Continuation)
      modifies this
      ensures r == strategy && threadNumber == thread
      ensures runned <==> old(runned) && strategy == Repeat
    {
      threadNumber := thread;
      if strategy == Single {
        runned := false;
        return Single;
      }
      r := Repeat;
    }
  }

  class Pool {
    var inQueue: seq<Task>
    var taskRunned: nat
    var stopFlag: bool

    constructor ()
      ensures inQueue == [] && taskRunned == 0 && !stopFlag
    {
      inQueue, taskRunned, stopFlag := [], 0, false;
    }

    method PushTask(t: Task)
      modifies `inQueue
      ensures inQueue == old(inQueue) + [t]
    {
      inQueue := inQueue + [t];
    }

    /** The locked section of `_pool_logic` once the wait is over and no stop was requested.
        The loop keeps the first task and gives it up only for one of a better priority. */
    method Take() returns (task: Task, ghost at: nat)
      requires inQueue != []
      modifies `inQueue, `taskRunned
      ensures Selected(old(inQueue), at) && task == old(inQueue)[at]
      ensures task.priority == Default ==> forall j :: 0 <= j < at ==> old(inQueue)[j].priority == Worker
      ensures task.priority == Worker ==> at == 0 && forall t <- old(inQueue) :: t.priority == Worker
      ensures inQueue == old(inQueue)[..at] + old(inQueue)[at + 1..]
      ensures taskRunned == old(taskRunned) + 1
    {
      taskRunned := taskRunned + 1;
      var picked := 0;
      if inQueue[0].priority == Worker {
        var i := 1;
        while i < |inQueue|
          invariant 1 <= i <= |inQueue| && picked == 0 && inQueue == old(inQueue)
          invariant forall j :: 0 <= j < i ==> inQueue[j].priority == Worker
        {
          if inQueue[i].priority == Default {
            picked := i;
            break;
          }
          i := i + 1;
        }
      }
      task, at := inQueue[picked], picked;
      inQueue := Without(inQueue, picked);
    }

    /** The locked test of `flush`: nothing but WORKER tasks is queued. */
    method OnlyWorkers() returns (b: bool)
      ensures b <==> forall t <- inQueue :: t.priority == Worker
    {
      b := true;
      for i := 0 to |inQueue|
        invariant b <==> forall j :: 0 <= j < i ==> inQueue[j].priority == Worker
      {
        if inQueue[i].priority != Worker {
          b := false;
        }
      }
    }
  }
}
