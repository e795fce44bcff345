/** Any number of pool threads running `_pool_logic`, interleaved with posts, flushes and a stop.
    Each locked section and each atomic access is one step. Tasks return; which continuation they
    return is free. */
module ThreadPool {
  import opened TaskQueue
  import opened Counting

  /** Where a pool thread is. */
  datatype Pc =
    | Loop               // about to test the stop flag
    | Waiting            // about to lock the queue, or waiting for work
    | Taken(task: Task)  // about to call apply
    | Running(task: Task)
    | Repeated(task: Task)  // apply returned REPEAT; about to look at the queue
    | Repush(task: Task)    // about to push the task back
    | Leaving               // about to decrement the counter
    | Exited

  /** `locked`: a flusher holds the queue lock and has found no DEFAULT task queued.
      `posted` and `finished` are histories: all tasks pushed from outside, all that returned SINGLE. */
  datatype State = State(threads: seq<Pc>, queue: seq<Task>, runned: int, stop: bool, locked: bool, posted: seq<Task>, finished: seq<Task>)

  /** What a pool thread does next. */
  datatype Act =
    | TestStop
    | Take(at: nat)
    | Quit
    | StartApply
    | EndApply(single: bool)
    | Reconsider
    | PushBack
    | Decrement

  datatype Step =
    | Post(priority: Priority)
    | RequestStop
    | FlushLook
    | FlushReturn
    | FlushRetry
    | Thread(i: nat, act: Act)

  ghost predicate Initial(s: State) {
    && (forall i :: 0 <= i < |s.threads| ==> s.threads[i] == Loop)
    && s.queue == [] && s.runned == 0 && !s.stop && !s.locked && s.posted == [] && s.finished == []
  }

  ghost predicate OnlyWorkers(queue: seq<Task>) {
    forall t <- queue :: t.priority == Worker
  }

  ghost predicate CanAct(s: State, pc: Pc, act: Act) {
    match act
    case TestStop => pc == Loop
    case Take(at) => pc == Waiting && !s.locked && !s.stop && Selected(s.queue, at)
    case Quit => pc == Waiting && !s.locked && s.stop
    case StartApply => pc.Taken?
    case EndApply(_) => pc.Running?
    case Reconsider => pc.Repeated? && !s.locked
    case PushBack => pc.Repush? && !s.locked
    case Decrement => pc == Leaving
  }

  ghost predicate Enabled(s: State, step: Step) {
    match step
    case Post(_) => !s.locked
    case RequestStop => !s.locked
    case FlushLook => !s.locked && OnlyWorkers(s.queue)
    case FlushReturn => s.locked && s.runned == 0
    case FlushRetry => s.locked && s.runned != 0
    case Thread(i, act) => i < |s.threads| && CanAct(s, s.threads[i], act)
  }

  ghost function NextPc(s: State, pc: Pc, act: Act): Pc
    requires CanAct(s, pc, act)
  {
    match act
    case TestStop => if s.stop then Exited else Waiting
    case Take(at) => Taken(s.queue[at])
    case Quit => Exited
    case StartApply => Running(pc.task)
    case EndApply(single) => if single then Leaving else Repeated(pc.task)
    case Reconsider => if s.queue != [] || s.stop || pc.task.priority == Worker then Repush(pc.task) else Taken(pc.task)
    case PushBack => Leaving
    case Decrement => Loop
  }

  ghost function NextQueue(s: State, pc: Pc, act: Act): seq<Task>
    requires CanAct(s, pc, act)
  {
    if act.Take? then Without(s.queue, act.at) else if act.PushBack? then s.queue + [pc.task] else s.queue
  }

  ghost function NextFinished(s: State, pc: Pc, act: Act): seq<Task>
    requires CanAct(s, pc, act)
  {
    if act.EndApply? && act.single then s.finished + [pc.task] else s.finished
  }

  /** What a step does; one that is not enabled does nothing. */
  ghost function Next(s: State, step: Step): State {
    if !Enabled(s, step) then s
    else
      match step
      case Post(priority) =>
        var t := Task(|s.posted|, priority);
        s.(queue := s.queue + [t], posted := s.posted + [t])
      case RequestStop => s.(stop := true)
      case FlushLook => s.(locked := true)
      case FlushReturn => s.(locked := false)
      case FlushRetry => s.(locked := false)
      case Thread(i, act) =>
        var pc := s.threads[i];
        s.(threads := s.threads[i := NextPc(s, pc, act)],
           queue := NextQueue(s, pc, act),
           finished := NextFinished(s, pc, act),
           runned := if act.Take? then s.runned + 1 else if act.Decrement? then s.runned - 1 else s.runned)
  }

  ghost predicate ValidRun(s: State, steps: seq<Step>)
    decreases |steps|
  {
    steps == [] || (Enabled(s, steps[0]) && ValidRun(Next(s, steps[0]), steps[1..]))
  }

  ghost function Final(s: State, steps: seq<Step>): State
    decreases |steps|
  {
    if steps == [] then s else Final(Next(s, steps[0]), steps[1..])
  }

  /** Between the increment and the decrement of the counter. */
  predicate Counted(pc: Pc) {
    !pc.Loop? && !pc.Waiting? && !pc.Exited?
  }

  predicate Holds(pc: Pc) {
    pc.Taken? || pc.Running? || pc.Repeated? || pc.Repush?
  }

  /** How many threads are where `p` holds. */
  ghost function Count(threads: seq<Pc>, p: Pc -> bool): nat {
    if threads == [] then 0 else Count(threads[..|threads| - 1], p) + One(p(threads[|threads| - 1]))
  }

  function One(b: bool): nat {
    if b then 1 else 0
  }

  function Holding(t: Task): Pc -> bool {
    (pc: Pc) => Holds(pc) && pc.task == t
  }

  /** How many threads hold `t`. */
  ghost function Holders(threads: seq<Pc>, t: Task): nat {
    Count(threads, Holding(t))
  }

  lemma {:induction false} CountUpdate(threads: seq<Pc>, i: nat, pc: Pc, p: Pc -> bool)
    requires i < |threads|
    ensures Count(threads[i := pc], p) == Count(threads, p) - One(p(threads[i])) + One(p(pc))
    ensures One(p(threads[i])) <= Count(threads, p) <= |threads|
    decreases |threads|
  {
    var n := |threads| - 1;
    if i < n {
      CountUpdate(threads[..n], i, pc, p);
      assert threads[i := pc][..n] == threads[..n][i := pc];
    } else {
      assert threads[i := pc][..n] == threads[..n];
      if n > 0 {
        CountUpdate(threads[..n], 0, pc, p);
      }
    }
  }

  ghost predicate Conserved(s: State, t: Task) {
    multiset(s.posted)[t] == multiset(s.queue)[t] + Holders(s.threads, t) + multiset(s.finished)[t]
  }

  /** The counter counts the busy threads, and every posted task is queued, held or finished, once. */
  ghost predicate Inv(s: State) {
    && s.runned == Count(s.threads, Counted)
    && (forall t :: Conserved(s, t))
    && (forall i :: 0 <= i < |s.posted| ==> s.posted[i].ticket == i)
    && (s.locked ==> OnlyWorkers(s.queue))
  }

  lemma {:induction false} InitialInv(s: State)
    requires Initial(s)
    ensures Inv(s)
  {
    forall t
      ensures Conserved(s, t)
    {
      Nobody(s.threads, Holding(t));
    }
    Nobody(s.threads, Counted);
  }

  lemma {:induction false} Nobody(threads: seq<Pc>, p: Pc -> bool)
    requires forall i :: 0 <= i < |threads| ==> !p(threads[i])
    ensures Count(threads, p) == 0
  {
    if threads != [] {
      Nobody(threads[..|threads| - 1], p);
    }
  }

  /** A thread step moves one task at most, and loses none. */
  lemma {:induction false} ActBalances(s: State, pc: Pc, act: Act, t: Task)
    requires CanAct(s, pc, act)
    ensures multiset(NextQueue(s, pc, act))[t] + One(Holding(t)(NextPc(s, pc, act))) + multiset(NextFinished(s, pc, act))[t]
         == multiset(s.queue)[t] + One(Holding(t)(pc)) + multiset(s.finished)[t]
  {
    if act.Take? {
      assert multiset(Without(s.queue, act.at)) + multiset{s.queue[act.at]} == multiset(s.queue);
    }
  }

  lemma {:induction false} StepConserves(s: State, step: Step, t: Task)
    requires Conserved(s, t) && Enabled(s, step)
    ensures Conserved(Next(s, step), t)
  {
    if step.Thread? {
      var pc := s.threads[step.i];
      ActBalances(s, pc, step.act, t);
      CountUpdate(s.threads, step.i, NextPc(s, pc, step.act), Holding(t));
    }
  }

  lemma {:induction false} StepKeepsInv(s: State, step: Step)
    requires Inv(s) && Enabled(s, step)
    ensures Inv(Next(s, step))
  {
    if step.Thread? {
      CountUpdate(s.threads, step.i, NextPc(s, s.threads[step.i], step.act), Counted);
    }
    forall t
      ensures Conserved(Next(s, step), t)
    {
      StepConserves(s, step, t);
    }
  }

  lemma {:induction false} RunKeepsInv(s: State, steps: seq<Step>)
    requires Inv(s) && ValidRun(s, steps)
    ensures Inv(Final(s, steps))
    decreases |steps|
  {
    if steps != [] {
      StepKeepsInv(s, steps[0]);
      RunKeepsInv(Next(s, steps[0]), steps[1..]);
    }
  }

  lemma {:induction false} TwoHolders(threads: seq<Pc>, i: nat, j: nat, t: Task)
    requires i < j < |threads| && Holding(t)(threads[i]) && Holding(t)(threads[j])
    ensures Holders(threads, t) >= 2
  {
    CountUpdate(threads, i, Exited, Holding(t));
    CountUpdate(threads[i := Exited], j, Exited, Holding(t));
  }

  lemma {:induction false} PostedOnce(s: State, t: Task)
    requires Inv(s)
    ensures multiset(s.posted)[t] == if t in s.posted then 1 else 0
  {
    forall i, j | 0 <= i < j < |s.posted|
      ensures s.posted[i] != s.posted[j]
    {
      assert s.posted[i].ticket == i && s.posted[j].ticket == j;
    }
    CountDistinct(s.posted, t);
  }

  /** Conservation: in every reachable state the counter is the number of threads between take and
      decrement, and a posted task is in exactly one place: once in the queue, or with exactly one
      thread, or finished. So no two threads have the same task, and a finished task is never applied again. */
  lemma {:induction false} ExactlyOnePlace(s0: State, steps: seq<Step>, t: Task)
    requires Initial(s0) && ValidRun(s0, steps)
    ensures var s := Final(s0, steps);
      && s.runned == Count(s.threads, Counted)
      && multiset(s.queue)[t] + Holders(s.threads, t) + multiset(s.finished)[t] == (if t in s.posted then 1 else 0)
      && (forall i, j :: 0 <= i < j < |s.threads| && Holds(s.threads[i]) && Holds(s.threads[j])
                         ==> s.threads[i].task != s.threads[j].task)
      && (forall i :: 0 <= i < |s.threads| && Holds(s.threads[i])
                      ==> s.threads[i].task !in s.finished && s.threads[i].task !in s.queue)
  {
    InitialInv(s0);
    RunKeepsInv(s0, steps);
    var s := Final(s0, steps);
    assert Conserved(s, t);
    PostedOnce(s, t);
    forall i | 0 <= i < |s.threads| && Holds(s.threads[i])
      ensures s.threads[i].task !in s.finished && s.threads[i].task !in s.queue
    {
      HeldOnlyOnce(s, i);
    }
    forall i, j | 0 <= i < j < |s.threads| && Holds(s.threads[i]) && Holds(s.threads[j])
      ensures s.threads[i].task != s.threads[j].task
    {
      HeldOnlyOnce(s, i);
      if s.threads[i].task == s.threads[j].task {
        TwoHolders(s.threads, i, j, s.threads[i].task);
      }
    }
  }

  lemma {:induction false} HeldOnlyOnce(s: State, i: nat)
    requires Inv(s) && i < |s.threads| && Holds(s.threads[i])
    ensures var t := s.threads[i].task; Holders(s.threads, t) == 1 && t !in s.finished && t !in s.queue && t in s.posted
  {
    var t := s.threads[i].task;
    CountUpdate(s.threads, i, Exited, Holding(t));
    PostedOnce(s, t);
    assert Conserved(s, t);
  }

  lemma {:induction false} NobodyCounted(threads: seq<Pc>, t: Task)
    requires Count(threads, Counted) == 0
    ensures Holders(threads, t) == 0
  {
    forall i | 0 <= i < |threads|
      ensures !Holding(t)(threads[i])
    {
      CountUpdate(threads, i, Exited, Counted);
    }
    Nobody(threads, Holding(t));
  }

  /** At the instant `flush` decides to return, no thread holds a task and every DEFAULT task
      ever posted has returned SINGLE. */
  lemma {:induction false} FlushWaitsForAll(s0: State, steps: seq<Step>, t: Task)
    requires Initial(s0) && ValidRun(s0, steps) && Enabled(Final(s0, steps), FlushReturn)
    ensures var s := Final(s0, steps);
      && Holders(s.threads, t) == 0
      && (t in s.posted && t.priority == Default ==> t in s.finished)
  {
    InitialInv(s0);
    RunKeepsInv(s0, steps);
    var s := Final(s0, steps);
    NobodyCounted(s.threads, t);
    PostedOnce(s, t);
    assert Conserved(s, t);
  }

  ghost function Takes(steps: seq<Step>): nat {
    if steps == [] then 0 else (if steps[0].Thread? && steps[0].act.Take? then 1 else 0) + Takes(steps[1..])
  }

  lemma {:induction false} DefaultsBeforePrefix(a: seq<Task>, b: seq<Task>, i: nat)
    requires i <= |a| && i <= |b| && a[..i] == b[..i]
    ensures DefaultsBefore(a, i) == DefaultsBefore(b, i)
  {
    if i > 0 {
      assert a[i - 1] == a[..i][i - 1] && b[i - 1] == b[..i][i - 1];
      assert a[..i - 1] == a[..i][..i - 1] && b[..i - 1] == b[..i][..i - 1];
      DefaultsBeforePrefix(a, b, i - 1);
    }
  }

  lemma {:induction false} DefaultsBeforeWithout(queue: seq<Task>, at: nat, i: nat)
    requires at < i <= |queue| && queue[at].priority == Default
    ensures DefaultsBefore(Without(queue, at), i - 1) == DefaultsBefore(queue, i) - 1
  {
    var rest := Without(queue, at);
    if i == at + 1 {
      DefaultsBeforePrefix(queue, rest, at);
    } else {
      DefaultsBeforeWithout(queue, at, i - 1);
      assert rest[i - 2] == queue[i - 1];
    }
  }

  lemma {:induction false} NoDefaultsBefore(queue: seq<Task>, i: nat)
    requires i <= |queue|
    ensures DefaultsBefore(queue, i) == 0 <==> forall j :: 0 <= j < i ==> queue[j].priority == Worker
  {
    if i > 0 {
      NoDefaultsBefore(queue, i - 1);
    }
  }

  lemma {:induction false} TakeAndQueuedTask(queue: seq<Task>, at: nat, i: nat)
    requires Selected(queue, at) && i < |queue| && queue[i].priority == Default
    ensures if DefaultsBefore(queue, i) == 0 then queue[at] == queue[i]
            else
              && at < i && Without(queue, at)[i - 1] == queue[i]
              && DefaultsBefore(Without(queue, at), i - 1) == DefaultsBefore(queue, i) - 1
  {
    assert queue[i] in queue;
    NoDefaultsBefore(queue, i);
    if at < i {
      DefaultsBeforeWithout(queue, at, i);
    }
  }

  /** One step seen from a queued DEFAULT task: a take brings it one place closer or picks it; nothing else touches it. */
  lemma {:induction false} StepAndQueuedTask(s: State, step: Step, i: nat) returns (j: nat)
    requires Enabled(s, step) && i < |s.queue| && s.queue[i].priority == Default
    ensures var k := DefaultsBefore(s.queue, i);
      if step.Thread? && step.act.Take? && k == 0 then s.queue[step.act.at] == s.queue[i]
      else
        && j < |Next(s, step).queue| && Next(s, step).queue[j] == s.queue[i]
        && DefaultsBefore(Next(s, step).queue, j) == k - Takes([step])
  {
    j := i;
    if step.Thread? && step.act.Take? {
      TakeAndQueuedTask(s.queue, step.act.at, i);
      j := if i > 0 then i - 1 else 0;
    } else {
      DefaultsBeforePrefix(s.queue, Next(s, step).queue, i);
    }
  }

  /** Bounded waiting: with `k` DEFAULT tasks ahead, a DEFAULT task is still queued after `n <= k` takes,
      with `k - n` ahead, whatever is posted or pushed back meanwhile. */
  lemma {:induction false} StillWaiting(s: State, steps: seq<Step>, i: nat) returns (j: nat)
    requires ValidRun(s, steps) && i < |s.queue| && s.queue[i].priority == Default
    requires Takes(steps) <= DefaultsBefore(s.queue, i)
    ensures var queue := Final(s, steps).queue;
      j < |queue| && queue[j] == s.queue[i] && DefaultsBefore(queue, j) == DefaultsBefore(s.queue, i) - Takes(steps)
    decreases |steps|
  {
    j := i;
    if steps != [] {
      j := StepAndQueuedTask(s, steps[0], i);
      j := StillWaiting(Next(s, steps[0]), steps[1..], j);
    }
  }

  /** The take after those picks it. */
  lemma {:induction false} BoundedWaiting(s: State, steps: seq<Step>, i: nat, thread: nat, at: nat)
    requires ValidRun(s, steps) && i < |s.queue| && s.queue[i].priority == Default
    requires Takes(steps) == DefaultsBefore(s.queue, i)
    requires Enabled(Final(s, steps), Thread(thread, Take(at)))
    ensures Next(Final(s, steps), Thread(thread, Take(at))).threads[thread] == Taken(s.queue[i])
  {
    var j := StillWaiting(s, steps, i);
    var _ := StepAndQueuedTask(Final(s, steps), Thread(thread, Take(at)), j);
  }

  ghost function StartsBy(steps: seq<Step>, i: nat): nat {
    if steps == [] then 0 else (if steps[0] == Thread(i, StartApply) then 1 else 0) + StartsBy(steps[1..], i)
  }

  ghost function Starts(steps: seq<Step>): nat {
    if steps == [] then 0 else (if steps[0].Thread? && steps[0].act.StartApply? then 1 else 0) + Starts(steps[1..])
  }

  ghost function StepsBy(steps: seq<Step>, i: nat): nat {
    if steps == [] then 0 else (if steps[0].Thread? && steps[0].i == i then 1 else 0) + StepsBy(steps[1..], i)
  }

  /** Steps left to a thread once a stop was requested. */
  function Rank(pc: Pc): nat {
    match pc
    case Exited => 0
    case Loop => 1
    case Waiting => 1
    case Leaving => 2
    case Repush(_) => 3
    case Repeated(_) => 4
    case Running(_) => 5
    case Taken(_) => 6
  }

  /** About to call apply. */
  predicate Ready(pc: Pc) {
    pc.Taken?
  }

  /** After a stop was requested a thread only moves towards its exit. */
  lemma {:induction false} StoppedThreadMoves(s: State, pc: Pc, act: Act)
    requires s.stop && CanAct(s, pc, act)
    ensures !act.Take? && Rank(NextPc(s, pc, act)) < Rank(pc)
    ensures !NextPc(s, pc, act).Taken? && (act.StartApply? <==> pc.Taken?)
  {
  }

  /** Once the stop flag is set no task is taken, each thread starts at most one more application and
      makes at most six more steps, and at most as many applications start as there are threads. */
  lemma {:induction false} StopIsBounded(s: State, steps: seq<Step>, i: nat)
    requires s.stop && ValidRun(s, steps) && i < |s.threads|
    ensures |Final(s, steps).threads| == |s.threads|
    ensures Takes(steps) == 0
    ensures StartsBy(steps, i) <= 1
    ensures StepsBy(steps, i) <= Rank(s.threads[i]) - Rank(Final(s, steps).threads[i]) <= 6
    ensures Starts(steps) <= |s.threads|
  {
    StopBudget(s, steps, i);
    CountUpdate(s.threads, i, s.threads[i], Ready);
  }

  lemma {:induction false} StopBudget(s: State, steps: seq<Step>, i: nat)
    requires s.stop && ValidRun(s, steps) && i < |s.threads|
    ensures |Final(s, steps).threads| == |s.threads|
    ensures Takes(steps) == 0
    ensures StartsBy(steps, i) <= if s.threads[i].Taken? then 1 else 0
    ensures StepsBy(steps, i) + Rank(Final(s, steps).threads[i]) <= Rank(s.threads[i])
    ensures Starts(steps) <= Count(s.threads, Ready)
    decreases |steps|
  {
    if steps != [] {
      var step := steps[0];
      if step.Thread? {
        StoppedThreadMoves(s, s.threads[step.i], step.act);
        CountUpdate(s.threads, step.i, NextPc(s, s.threads[step.i], step.act), Ready);
      }
      StopBudget(Next(s, step), steps[1..], i);
    }
  }

  /** And none is stuck: unless a flusher holds the lock, a thread that has not exited can move, given
      that a running application returns. */
  lemma {:induction false} StoppedThreadCanMove(s: State, i: nat) returns (act: Act)
    requires s.stop && !s.locked && i < |s.threads| && s.threads[i] != Exited
    ensures Enabled(s, Thread(i, act))
  {
    match s.threads[i]
    case Loop => act := TestStop;
    case Waiting => act := Quit;
    case Taken(_) => act := StartApply;
    case Running(_) => act := EndApply(true);
    case Repeated(_) => act := Reconsider;
    case Repush(_) => act := PushBack;
    case Leaving => act := Decrement;
  }

  predicate ReadyForWorker(pc: Pc) {
    pc.Taken? && pc.task.priority == Worker
  }

  /** Takes of WORKER tasks in a run, and starts of their applications. */
  ghost function WorkerTakes(s: State, steps: seq<Step>): nat
    requires ValidRun(s, steps)
    decreases |steps|
  {
    if steps == [] then 0
    else One(steps[0].Thread? && steps[0].act.Take? && s.queue[steps[0].act.at].priority == Worker)
         + WorkerTakes(Next(s, steps[0]), steps[1..])
  }

  ghost function WorkerStarts(s: State, steps: seq<Step>): nat
    requires ValidRun(s, steps)
    decreases |steps|
  {
    if steps == [] then 0
    else One(steps[0].Thread? && steps[0].act.StartApply? && ReadyForWorker(s.threads[steps[0].i]))
         + WorkerStarts(Next(s, steps[0]), steps[1..])
  }

  /** Every take of a WORKER task in a run finds nothing but WORKER tasks queued, and takes the first. */
  ghost predicate WorkersTakenLast(s: State, steps: seq<Step>)
    requires ValidRun(s, steps)
    decreases |steps|
  {
    steps != [] ==>
      && (steps[0].Thread? && steps[0].act.Take? && s.queue[steps[0].act.at].priority == Worker ==>
            OnlyWorkers(s.queue) && steps[0].act.at == 0)
      && WorkersTakenLast(Next(s, steps[0]), steps[1..])
  }

  /** Each application of a WORKER task has a take of its own, made when no DEFAULT task was queued:
      such a task is never applied again without going back through the queue. */
  lemma {:induction false} WorkersGoThroughQueue(s: State, steps: seq<Step>)
    requires ValidRun(s, steps)
    ensures WorkerStarts(s, steps) + Count(Final(s, steps).threads, ReadyForWorker)
         == WorkerTakes(s, steps) + Count(s.threads, ReadyForWorker)
    ensures WorkersTakenLast(s, steps)
    decreases |steps|
  {
    if steps != [] {
      var step := steps[0];
      if step.Thread? {
        CountUpdate(s.threads, step.i, NextPc(s, s.threads[step.i], step.act), ReadyForWorker);
      }
      WorkersGoThroughQueue(Next(s, step), steps[1..]);
    }
  }

  /** A waiting thread is never stuck before a non-empty queue: unless a stop was requested or a flusher holds
      the lock, there is exactly one take it can make. */
  lemma {:induction false} WaitingThreadCanTake(s: State, i: nat) returns (at: nat)
    requires i < |s.threads| && s.threads[i] == Waiting && s.queue != [] && !s.stop && !s.locked
    ensures Enabled(s, Thread(i, Take(at)))
    ensures forall j: nat :: Enabled(s, Thread(i, Take(j))) ==> j == at
  {
    at := SelectedExists(s.queue);
    forall j: nat | Enabled(s, Thread(i, Take(j)))
      ensures j == at
    {
      SelectedUnique(s.queue, at, j);
    }
  }

  /** The queue is changed at two places only: a post or a push back adds one task at the end, a take removes one
      and keeps the order of the others. */
  lemma {:induction false} QueueOrder(s: State, step: Step)
    requires Enabled(s, step)
    ensures var queue := Next(s, step).queue;
      match step
      case Post(priority) => queue == s.queue + [Task(|s.posted|, priority)]
      case Thread(i, PushBack) => queue == s.queue + [s.threads[i].task]
      case Thread(i, Take(at)) =>
        at < |s.queue| && queue == s.queue[..at] + s.queue[at + 1..] && Next(s, step).threads[i] == Taken(s.queue[at])
      case _ => queue == s.queue
  {
  }

  /** A flusher that holds the lock returns if no thread is counted and tries again otherwise; it lets go either way. */
  lemma {:induction false} FlusherLetsGo(s: State)
    requires s.locked
    ensures Enabled(s, FlushReturn) <==> s.runned == 0
    ensures Enabled(s, FlushRetry) <==> s.runned != 0
    ensures forall step :: step in {FlushReturn, FlushRetry} && Enabled(s, step) ==> Next(s, step) == s.(locked := false)
  {
  }

  // ---- Runs, state by state ----

  /** The state before step `n` of a run. */
  ghost function StateAt(s: State, steps: seq<Step>, n: nat): State
    requires n <= |steps|
  {
    if n == 0 then s else Next(StateAt(s, steps, n - 1), steps[n - 1])
  }

  lemma {:induction false} StateAtTail(s: State, steps: seq<Step>, n: nat)
    requires steps != [] && n < |steps|
    ensures StateAt(s, steps, n + 1) == StateAt(Next(s, steps[0]), steps[1..], n)
  {
    if n > 0 {
      StateAtTail(s, steps, n - 1);
      assert steps[1..][n - 1] == steps[n];
    } else {
      assert StateAt(s, steps, 0) == s;
    }
  }

  lemma {:induction false} RunStates(s: State, steps: seq<Step>, n: nat)
    requires ValidRun(s, steps) && n < |steps|
    ensures Enabled(StateAt(s, steps, n), steps[n])
    decreases |steps|
  {
    if n > 0 {
      RunStates(Next(s, steps[0]), steps[1..], n - 1);
      StateAtTail(s, steps, n - 1);
    }
  }

  /** The last of these states is the one the run ends in. */
  lemma {:induction false} RunEnds(s: State, steps: seq<Step>)
    ensures Final(s, steps) == StateAt(s, steps, |steps|)
    decreases |steps|
  {
    if steps != [] {
      RunEnds(Next(s, steps[0]), steps[1..]);
      StateAtTail(s, steps, |steps| - 1);
    }
  }

  predicate StepOf(step: Step, i: nat) {
    step.Thread? && step.i == i
  }

  /** No step of thread `i` between steps `m` and `n`. */
  ghost predicate Pauses(steps: seq<Step>, i: nat, m: nat, n: nat)
    requires n <= |steps|
  {
    forall q :: m < q < n ==> !StepOf(steps[q], i)
  }

  lemma {:induction false} OtherThreadsKeep(s: State, step: Step, i: nat)
    ensures |Next(s, step).threads| == |s.threads|
    ensures i < |s.threads| && !StepOf(step, i) ==> Next(s, step).threads[i] == s.threads[i]
  {
  }

  lemma {:induction false} ThreadCount(s: State, steps: seq<Step>, n: nat)
    requires n <= |steps|
    ensures |StateAt(s, steps, n).threads| == |s.threads|
  {
    if n > 0 {
      ThreadCount(s, steps, n - 1);
      OtherThreadsKeep(StateAt(s, steps, n - 1), steps[n - 1], 0);
    }
  }

  ghost function PcAt(s: State, steps: seq<Step>, i: nat, n: nat): Pc
    requires i < |s.threads| && n <= |steps|
  {
    ThreadCount(s, steps, n);
    StateAt(s, steps, n).threads[i]
  }

  /** While a thread makes no step it stays where its last step left it. */
  lemma {:induction false} StaysPut(s: State, steps: seq<Step>, i: nat, m: nat, n: nat)
    requires m < n <= |steps| && i < |s.threads| && Pauses(steps, i, m, n)
    ensures PcAt(s, steps, i, n) == PcAt(s, steps, i, m + 1)
    decreases n
  {
    if m + 1 < n {
      StaysPut(s, steps, i, m, n - 1);
      ThreadCount(s, steps, n - 1);
      OtherThreadsKeep(StateAt(s, steps, n - 1), steps[n - 1], i);
    }
  }

  /** A look at step `m`, and the thread's next step at `n`. */
  ghost predicate LooksThen(s: State, steps: seq<Step>, i: nat, m: nat, n: nat) {
    && ValidRun(s, steps) && i < |s.threads| && m < n < |steps|
    && steps[m] == Thread(i, Reconsider) && StepOf(steps[n], i) && Pauses(steps, i, m, n)
  }

  /** After a task returned REPEAT its thread looks at the queue. It applies the task again at once, without a push,
      exactly if it found the queue empty, no stop requested and a DEFAULT task; otherwise it pushes the task back. */
  lemma {:induction false} RepeatsOnlyIfAlone(s: State, steps: seq<Step>, i: nat, m: nat, n: nat)
    requires LooksThen(s, steps, i, m, n)
    ensures PcAt(s, steps, i, m).Repeated?
    ensures var look, t := StateAt(s, steps, m), PcAt(s, steps, i, m).task;
      if look.queue == [] && !look.stop && t.priority == Default
      then steps[n].act == StartApply && PcAt(s, steps, i, n) == Taken(t) && PcAt(s, steps, i, n + 1) == Running(t)
      else steps[n].act == PushBack && StateAt(s, steps, n + 1).queue == StateAt(s, steps, n).queue + [t]
  {
    RunStates(s, steps, m);
    RunStates(s, steps, n);
    StaysPut(s, steps, i, m, n);
    ThreadCount(s, steps, m);
    ThreadCount(s, steps, n);
    LookDecides(StateAt(s, steps, m), i);
  }

  lemma {:induction false} LookDecides(s: State, i: nat)
    requires Enabled(s, Thread(i, Reconsider))
    ensures var t := s.threads[i].task;
      Next(s, Thread(i, Reconsider)).threads[i] ==
        if s.queue == [] && !s.stop && t.priority == Default then Taken(t) else Repush(t)
  {
  }

  /** On its way back to the queue a thread has no task to apply. */
  predicate OnTheWayBack(pc: Pc) {
    pc.Repush? || pc.Leaving? || pc.Loop? || pc.Waiting? || pc.Exited?
  }

  lemma {:induction false} WayBack(s: State, step: Step, i: nat)
    requires Enabled(s, step) && i < |s.threads| && OnTheWayBack(s.threads[i]) && (StepOf(step, i) ==> !step.act.Take?)
    ensures |Next(s, step).threads| == |s.threads| && OnTheWayBack(Next(s, step).threads[i])
  {
  }

  /** If the look found another task queued, whatever the thread applies next it has taken from the queue after the look. */
  lemma {:induction false} OthersComeFirst(s: State, steps: seq<Step>, i: nat, m: nat, n: nat) returns (q: nat)
    requires ValidRun(s, steps) && i < |s.threads| && m < n < |steps|
    requires steps[m] == Thread(i, Reconsider) && StateAt(s, steps, m).queue != []
    requires steps[n] == Thread(i, StartApply)
    ensures m < q < n && StepOf(steps[q], i) && steps[q].act.Take?
  {
    q := n;
    RunStates(s, steps, n);
    ThreadCount(s, steps, n);
    if TakesNothing(steps, i, m, n) {
      StaysOnTheWay(s, steps, i, m, n);
    } else {
      q :| m < q < n && StepOf(steps[q], i) && steps[q].act.Take?;
    }
  }

  lemma {:induction false} StepsBack(s: State, steps: seq<Step>, i: nat, n: nat)
    requires ValidRun(s, steps) && i < |s.threads| && n < |steps|
    requires OnTheWayBack(PcAt(s, steps, i, n)) && (StepOf(steps[n], i) ==> !steps[n].act.Take?)
    ensures OnTheWayBack(PcAt(s, steps, i, n + 1))
  {
    RunStates(s, steps, n);
    ThreadCount(s, steps, n);
    WayBack(StateAt(s, steps, n), steps[n], i);
  }

  lemma {:induction false} TurnsBack(s: State, steps: seq<Step>, i: nat, m: nat)
    requires ValidRun(s, steps) && i < |s.threads| && m < |steps|
    requires steps[m] == Thread(i, Reconsider) && StateAt(s, steps, m).queue != []
    ensures OnTheWayBack(PcAt(s, steps, i, m + 1))
  {
    RunStates(s, steps, m);
    ThreadCount(s, steps, m);
    LookDecides(StateAt(s, steps, m), i);
  }

  /** Thread `i` takes nothing between steps `m` and `n`. */
  ghost predicate TakesNothing(steps: seq<Step>, i: nat, m: nat, n: nat)
    requires n <= |steps|
  {
    forall p :: m < p < n && StepOf(steps[p], i) ==> !steps[p].act.Take?
  }

  lemma {:induction false} StaysOnTheWay(s: State, steps: seq<Step>, i: nat, m: nat, n: nat)
    requires ValidRun(s, steps) && i < |s.threads| && m < n <= |steps|
    requires steps[m] == Thread(i, Reconsider) && StateAt(s, steps, m).queue != []
    requires TakesNothing(steps, i, m, n)
    ensures OnTheWayBack(PcAt(s, steps, i, n))
    decreases n
  {
    if m + 1 < n {
      StaysOnTheWay(s, steps, i, m, n - 1);
      StepsBack(s, steps, i, n - 1);
    } else {
      TurnsBack(s, steps, i, m);
    }
  }

  // ---- What the histories record ----

  /** The task whose application returns SINGLE at a step, if any. */
  ghost function SingleBy(s: State, step: Step): seq<Task> {
    if Enabled(s, step) && step.Thread? && step.act == EndApply(true) then [s.threads[step.i].task] else []
  }

  /** The tasks whose application returned SINGLE in a run, in that order. */
  ghost function Singles(s: State, steps: seq<Step>): seq<Task>
    decreases |steps|
  {
    if steps == [] then [] else SingleBy(s, steps[0]) + Singles(Next(s, steps[0]), steps[1..])
  }

  function PostBy(step: Step): seq<Priority> {
    if step.Post? then [step.priority] else []
  }

  /** The priorities posted in a run, in that order. */
  function Posts(steps: seq<Step>): seq<Priority> {
    if steps == [] then [] else PostBy(steps[0]) + Posts(steps[1..])
  }

  ghost function Priorities(tasks: seq<Task>): seq<Priority> {
    seq(|tasks|, i requires 0 <= i < |tasks| => tasks[i].priority)
  }

  lemma {:induction false} StepRecords(s: State, step: Step)
    requires Enabled(s, step)
    ensures Next(s, step).finished == s.finished + SingleBy(s, step)
    ensures Priorities(Next(s, step).posted) == Priorities(s.posted) + PostBy(step)
  {
  }

  /** Finished is what returned SINGLE, posted is what was posted: nothing is recorded that did not happen. */
  lemma {:induction false} RunRecords(s: State, steps: seq<Step>)
    requires ValidRun(s, steps)
    ensures Final(s, steps).finished == s.finished + Singles(s, steps)
    ensures Priorities(Final(s, steps).posted) == Priorities(s.posted) + Posts(steps)
    decreases |steps|
  {
    if steps != [] {
      var step, s', rest := steps[0], Next(s, steps[0]), steps[1..];
      StepRecords(s, step);
      RunRecords(s', rest);
      Associative(s.finished, SingleBy(s, step), Singles(s', rest));
      Associative(Priorities(s.posted), PostBy(step), Posts(rest));
    }
  }

  /** A thread leaves only after a stop was requested, and a requested stop is not taken back. */
  lemma {:induction false} ExitsOnlyOnStop(s: State, steps: seq<Step>, i: nat)
    requires ValidRun(s, steps) && i < |s.threads|
    requires s.threads[i] == Exited ==> s.stop
    ensures |Final(s, steps).threads| == |s.threads|
    ensures Final(s, steps).threads[i] == Exited ==> Final(s, steps).stop
    ensures s.stop || RequestStop in steps <==> Final(s, steps).stop
    decreases |steps|
  {
    if steps != [] {
      assert steps == [steps[0]] + steps[1..];
      ExitsOnlyOnStop(Next(s, steps[0]), steps[1..], i);
    }
  }

  /** While no flusher holds the lock, a thread that has not left is stuck only before an empty queue, without a
      stop. (A running application is taken to return.) */
  lemma {:induction false} StuckOnlyWithoutWork(s: State, i: nat)
    requires !s.locked && i < |s.threads|
    ensures (exists act :: Enabled(s, Thread(i, act))) <==>
      s.threads[i] != Exited && !(s.threads[i] == Waiting && s.queue == [] && !s.stop)
  {
    if s.threads[i] == Waiting {
      if s.stop {
        assert Enabled(s, Thread(i, Quit));
      } else if s.queue != [] {
        var at := SelectedExists(s.queue);
        assert Enabled(s, Thread(i, Take(at)));
      }
    } else {
      match s.threads[i]
      case Loop => assert Enabled(s, Thread(i, TestStop));
      case Taken(_) => assert Enabled(s, Thread(i, StartApply));
      case Running(_) => assert Enabled(s, Thread(i, EndApply(true)));
      case Repeated(_) => assert Enabled(s, Thread(i, Reconsider));
      case Repush(_) => assert Enabled(s, Thread(i, PushBack));
      case Leaving => assert Enabled(s, Thread(i, Decrement));
      case Exited =>
    }
  }
}
