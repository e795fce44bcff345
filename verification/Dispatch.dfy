/** The dispatch protocol between senders, the mailbox worker and apply tasks, as interleaved steps.
    A step is one atomic operation or one section protected by a mailbox lock or the registry lock.
    Any number of apply tasks run at once; an actor object may be registered under several ids. */
module Dispatch {
  import opened Types
  import opened Counting

  /** Where the code that owns an actor's busy flag is: first the worker, then the apply task. */
  datatype Pc =
    | Claimed    // try_lock succeeded; the mailbox is to be looked at again
    | Checked    // it was not empty; the task is to be posted
    | Posted     // queued in the user pool
    | Dropped    // the pool was stopping: the task is never run
    | Draining   // inside the pop loop
    | Handling(e: Envelope)
    | Finishing  // the last pop failed; the flag is to be reset
    | Failing    // the handler threw; the flag is to be reset

  datatype Agent = Agent(target: Id, pc: Pc)

  /** `pushed` and `handled` record, per mailbox, the envelopes pushed and those given to the handler.
      `owner` records which agent set a busy flag.
      The last three fields concern the current scan: the mailboxes it has passed, which it does not come back
      to, those sent to, and those missed: passed while the busy flag was held idly, or left by a handler's
      exception or a dropped task after they were passed, or sent to after they were passed without a task.
      No guard depends on `pushed`, `handled`, `owner`, `sent` or `missed`. */
  datatype State = State(
    actorOf: map<Id, ActorRef>, live: set<Id>, mbox: map<Id, seq<Envelope>>, busy: set<ActorRef>, agents: map<nat, Agent>,
    stopping: bool, scanning: bool,
    pushed: map<Id, seq<Envelope>>, handled: map<Id, seq<Envelope>>, owner: map<ActorRef, nat>,
    visited: set<Id>, sent: set<Id>, missed: set<Id>)

  datatype Step =
    | Register(id: Id, actor: ActorRef)
    | Unregister(gone: set<Id>)
    | Send(id: Id, e: Envelope)
    | BeginStop
    | ScanBegin
    | SkipEmpty(id: Id)
    | SkipBusy(id: Id)
    | Claim(id: Id, a: nat)
    | ScanEnd
    | Proceed(a: nat, act: Act)

  /** A step of the owner of a busy flag. */
  datatype Act = LookEmpty | LookFull | Post | Drop | StartEmpty | Start | Pop | PopNothing | Return | Throw | Release

  const INITIAL: State :=
    State(map[], {}, map[], {}, map[], false, false, map[], map[], map[], {}, {}, {})

  predicate ByWorker(pc: Pc) {
    pc.Claimed? || pc.Checked?
  }

  predicate CanAct(s: State, agent: Agent, act: Act)
    requires agent.target in s.mbox
  {
    var empty := s.mbox[agent.target] == [];
    match act
    case LookEmpty => agent.pc.Claimed? && empty
    case LookFull => agent.pc.Claimed? && !empty
    case Post => agent.pc.Checked? && !s.stopping
    case Drop => agent.pc.Checked? && s.stopping
    case StartEmpty => agent.pc.Posted? && empty
    case Start => agent.pc.Posted? && !empty
    case Pop => agent.pc.Draining? && !empty
    case PopNothing => agent.pc.Draining? && empty
    case Return => agent.pc.Handling?
    case Throw => agent.pc.Handling?
    case Release => agent.pc.Finishing? || agent.pc.Failing?
  }

  /** The scan holds the registry lock shared: registrations and removals wait, sends do not. */
  predicate Enabled(s: State, step: Step) {
    match step
    case Register(id, actor) => !s.scanning && id !in s.actorOf
    case Unregister(gone) => !s.scanning
    case Send(id, e) => id in s.live && id in s.mbox
    case BeginStop => true
    case ScanBegin => !s.scanning
    case SkipEmpty(id) => s.scanning && id in s.live - s.visited && id in s.mbox && s.mbox[id] == []
    case SkipBusy(id) => s.scanning && id in s.live - s.visited && id in s.actorOf && s.actorOf[id] in s.busy
    case Claim(id, a) => s.scanning && id in s.live - s.visited && id in s.actorOf && s.actorOf[id] !in s.busy && a !in s.agents
    case ScanEnd => s.scanning && s.live <= s.visited && forall a <- s.agents :: !ByWorker(s.agents[a].pc)
    case Proceed(a, act) =>
      a in s.agents && s.agents[a].target in s.mbox && s.agents[a].target in s.actorOf && CanAct(s, s.agents[a], act)
  }

  predicate Releases(act: Act) {
    act.LookEmpty? || act.StartEmpty? || act.Release?
  }

  function NextPc(pc: Pc, act: Act, inbox: seq<Envelope>): Pc {
    match act
    case LookFull => Checked
    case Post => Posted
    case Drop => Dropped
    case Start => Draining
    case Pop => if inbox != [] then Handling(inbox[0]) else pc
    case PopNothing => Finishing
    case Return => Draining
    case Throw => Failing
    case _ => pc
  }

  /** Holding the flag, but not going to pop any more. */
  predicate Idle(pc: Pc) {
    pc.Finishing? || pc.Failing? || pc.Dropped?
  }

  /** The owner of the flag has taken it for this mailbox and is not idle. */
  predicate Served(s: State, id: Id) {
    && id in s.actorOf && s.actorOf[id] in s.owner && s.owner[s.actorOf[id]] in s.agents
    && var agent := s.agents[s.owner[s.actorOf[id]]];
       agent.target == id && !Idle(agent.pc)
  }

  predicate Waiting(s: State, id: Id) {
    id in s.mbox && s.mbox[id] != []
  }

  function Recorded(record: map<Id, seq<Envelope>>, id: Id, e: Envelope): map<Id, seq<Envelope>> {
    record[id := (if id in record then record[id] else []) + [e]]
  }

  function NextAct(s: State, a: nat, act: Act): State {
    if !Enabled(s, Proceed(a, act)) then s
    else
      var id := s.agents[a].target;
      var inbox := s.mbox[id];
      if Releases(act) then
        s.(busy := s.busy - {s.actorOf[id]}, owner := s.owner - {s.actorOf[id]}, agents := s.agents - {a})
    else
        s.(agents := s.agents[a := Agent(id, NextPc(s.agents[a].pc, act, inbox))],
           mbox := if act.Pop? then s.mbox[id := inbox[1..]] else s.mbox,
           handled := if act.Pop? then Recorded(s.handled, id, inbox[0]) else s.handled,
           missed := if (act.Throw? || act.Drop?) && id in s.visited && inbox != [] then s.missed + {id} else s.missed)
  }

  /** What a step does; one that is not enabled does nothing. */
  function Next(s: State, step: Step): State {
    if !Enabled(s, step) then s
    else
      match step
      case Register(id, actor) =>
        s.(actorOf := s.actorOf[id := actor], live := s.live + {id}, mbox := s.mbox[id := []],
           pushed := s.pushed[id := []], handled := s.handled[id := []])
      case Unregister(gone) => s.(live := s.live - gone)
      case Send(id, e) =>
        s.(mbox := s.mbox[id := s.mbox[id] + [e]], pushed := Recorded(s.pushed, id, e),
           sent := if s.scanning then s.sent + {id} else s.sent,
           missed := if id in s.visited && !Served(s, id) then s.missed + {id} else s.missed)
      case BeginStop => s.(stopping := true)
      case ScanBegin => s.(scanning := true)
      case SkipEmpty(id) => s.(visited := s.visited + {id})
      case SkipBusy(id) =>
        s.(visited := s.visited + {id}, missed := if Waiting(s, id) && !Served(s, id) then s.missed + {id} else s.missed)
      case Claim(id, a) =>
        s.(visited := s.visited + {id}, busy := s.busy + {s.actorOf[id]}, owner := s.owner[s.actorOf[id] := a],
           agents := s.agents[a := Agent(id, Claimed)])
      case ScanEnd => s.(scanning := false, visited := {}, sent := {}, missed := {})
      case Proceed(a, act) => NextAct(s, a, act)
  }

  ghost predicate ValidRun(s: State, steps: seq<Step>)
    decreases |steps|
  {
    steps == [] || (Enabled(s, steps[0]) && ValidRun(Next(s, steps[0]), steps[1..]))
  }

  ghost function Final(s: State, steps: seq<Step>): State
    decreases |steps|
  {
    if steps == [] then s else Final(Next(s, steps[0]), steps[1..])
  }

  // ---- Safety ----

  /** Flags and agents correspond one to one. */
  ghost predicate Owned(s: State) {
    && s.owner.Keys == s.busy
    && (forall a <- s.agents :: s.agents[a].target in s.actorOf)
    && (forall a <- s.agents :: s.actorOf[s.agents[a].target] in s.owner && s.owner[s.actorOf[s.agents[a].target]] == a)
    && (forall o <- s.owner :: s.owner[o] in s.agents && s.actorOf[s.agents[s.owner[o]].target] == o)
  }

  ghost predicate KeysOk(s: State) {
    && s.live <= s.actorOf.Keys
    && s.mbox.Keys == s.actorOf.Keys && s.pushed.Keys == s.actorOf.Keys && s.handled.Keys == s.actorOf.Keys
  }

  ghost predicate MailOk(s: State) {
    && KeysOk(s)
    && (forall id <- s.mbox :: s.pushed[id] == s.handled[id] + s.mbox[id])
  }

  ghost predicate AgentOk(s: State, a: nat)
    requires a in s.agents && s.agents[a].target in s.mbox
  {
    var pc := s.agents[a].pc;
    && (pc.Checked? || pc.Posted? || pc.Dropped? ==> s.mbox[s.agents[a].target] != [])
    && (pc.Dropped? ==> s.stopping)
    && (ByWorker(pc) ==> s.scanning)
  }

  ghost predicate Safe(s: State) {
    && Owned(s)
    && MailOk(s)
    && forall a <- s.agents :: AgentOk(s, a)
  }

  lemma {:induction false} StepKeepsOwned(s: State, step: Step)
    requires Owned(s) && Enabled(s, step)
    ensures Owned(Next(s, step))
  {
    if step.Proceed? {
      ProceedKeepsOwned(s, step.a, step.act);
    }
  }

  lemma {:induction false} ProceedKeepsOwned(s: State, a: nat, act: Act)
    requires Owned(s) && Enabled(s, Proceed(a, act))
    ensures Owned(NextAct(s, a, act))
  {
  }

  lemma {:induction false} StepKeepsKeys(s: State, step: Step)
    requires KeysOk(s) && Enabled(s, step)
    ensures KeysOk(Next(s, step))
  {
    if step.Proceed? {
      ProceedKeepsKeys(s, step.a, step.act);
    }
  }

  lemma {:induction false} ProceedKeepsKeys(s: State, a: nat, act: Act)
    requires KeysOk(s) && Enabled(s, Proceed(a, act))
    ensures KeysOk(NextAct(s, a, act))
  {
  }

  ghost predicate Fifo(s: State, id: Id) {
    id in s.mbox && id in s.pushed && id in s.handled ==> s.pushed[id] == s.handled[id] + s.mbox[id]
  }

  lemma {:induction false} PopKeepsFifo(s: State, a: nat, id: Id)
    requires KeysOk(s) && Enabled(s, Proceed(a, Pop)) && Fifo(s, id)
    ensures Fifo(NextAct(s, a, Pop), id)
  {
    if s.agents[a].target == id {
      var inbox := s.mbox[id];
      assert s.handled[id] + inbox == s.handled[id] + [inbox[0]] + inbox[1..];
    }
  }

  lemma {:induction false} SendKeepsFifo(s: State, target: Id, e: Envelope, id: Id)
    requires KeysOk(s) && Enabled(s, Send(target, e)) && Fifo(s, id)
    ensures Fifo(Next(s, Send(target, e)), id)
  {
    if target == id {
      assert s.handled[id] + s.mbox[id] + [e] == s.handled[id] + (s.mbox[id] + [e]);
    }
  }

  /** One mailbox: what was pushed is what was handled followed by what is waiting. */
  lemma {:induction false} StepKeepsFifo(s: State, step: Step, id: Id)
    requires KeysOk(s) && Enabled(s, step) && Fifo(s, id)
    ensures Fifo(Next(s, step), id)
  {
    if step.Send? {
      SendKeepsFifo(s, step.id, step.e, id);
    } else if step.Proceed? && step.act.Pop? {
      PopKeepsFifo(s, step.a, id);
    } else if !step.Register? {
      assert Next(s, step).mbox == s.mbox && Next(s, step).pushed == s.pushed && Next(s, step).handled == s.handled;
    }
  }

  lemma {:induction false} StepKeepsMail(s: State, step: Step)
    requires MailOk(s) && Enabled(s, step)
    ensures MailOk(Next(s, step))
  {
    StepKeepsKeys(s, step);
    forall id | id in Next(s, step).mbox
      ensures Next(s, step).pushed[id] == Next(s, step).handled[id] + Next(s, step).mbox[id]
    {
      assert Fifo(s, id);
      StepKeepsFifo(s, step, id);
    }
  }

  lemma {:induction false} ProceedKeepsAgent(s: State, a: nat, act: Act, b: nat)
    requires Owned(s) && KeysOk(s) && Enabled(s, Proceed(a, act)) && (b in s.agents ==> AgentOk(s, b))
    ensures var s' := NextAct(s, a, act); b in s'.agents ==> s'.agents[b].target in s'.mbox && AgentOk(s', b)
  {
    if a == b {
      OwnerAgentOk(s, a, act);
    } else if b in s.agents {
      OtherAgentSame(s, a, act, b);
    }
  }

  lemma {:induction false} OwnerAgentOk(s: State, a: nat, act: Act)
    requires Enabled(s, Proceed(a, act)) && AgentOk(s, a)
    ensures var s' := NextAct(s, a, act); a in s'.agents ==> s'.agents[a].target in s'.mbox && AgentOk(s', a)
  {
  }

  /** The owners of two flags have different mailboxes. */
  lemma {:induction false} OtherAgentSame(s: State, a: nat, act: Act, b: nat)
    requires Owned(s) && KeysOk(s) && Enabled(s, Proceed(a, act)) && b in s.agents && a != b
    ensures var s', id := NextAct(s, a, act), s.agents[b].target;
      && b in s'.agents && s'.agents[b] == s.agents[b] && id in s'.mbox && id in s.mbox && s'.mbox[id] == s.mbox[id]
      && s'.stopping == s.stopping && s'.scanning == s.scanning
  {
    assert s.agents[a].target != s.agents[b].target;
  }

  /** Only the owner of the flag takes messages out of a mailbox, so what the worker saw under the flag stays true. */
  lemma {:induction false} StepKeepsAgent(s: State, step: Step, b: nat)
    requires Owned(s) && KeysOk(s) && Enabled(s, step)
    requires b in s.agents ==> AgentOk(s, b)
    ensures var s' := Next(s, step); b in s'.agents ==> s'.agents[b].target in s'.mbox && AgentOk(s', b)
  {
    if step.Proceed? {
      ProceedKeepsAgent(s, step.a, step.act, b);
    } else if step.Claim? {
      ClaimKeepsAgent(s, step.id, step.a, b);
    } else {
      OthersKeepAgent(s, step, b);
    }
  }

  lemma {:induction false} ClaimKeepsAgent(s: State, id: Id, a: nat, b: nat)
    requires Owned(s) && KeysOk(s) && Enabled(s, Claim(id, a))
    requires b in s.agents ==> AgentOk(s, b)
    ensures var s' := Next(s, Claim(id, a)); b in s'.agents ==> s'.agents[b].target in s'.mbox && AgentOk(s', b)
  {
  }

  /** Whoever does not own a flag only adds mailboxes and messages. */
  lemma {:induction false} OthersKeepAgent(s: State, step: Step, b: nat)
    requires Owned(s) && KeysOk(s) && Enabled(s, step) && !step.Proceed? && !step.Claim?
    requires b in s.agents ==> AgentOk(s, b)
    ensures var s' := Next(s, step); b in s'.agents ==> s'.agents[b].target in s'.mbox && AgentOk(s', b)
  {
    if b in s.agents {
      OthersOnlyAdd(s, step, s.agents[b].target);
    }
  }

  lemma {:induction false} OthersOnlyAdd(s: State, step: Step, id: Id)
    requires KeysOk(s) && Enabled(s, step) && !step.Proceed? && !step.Claim? && id in s.mbox
    ensures var s' := Next(s, step);
      && s'.agents == s.agents && (s.stopping ==> s'.stopping) && (s.scanning && !step.ScanEnd? ==> s'.scanning)
      && id in s'.mbox && (s.mbox[id] != [] ==> s'.mbox[id] != [])
  {
  }

  lemma {:induction false} StepKeepsSafe(s: State, step: Step)
    requires Safe(s) && Enabled(s, step)
    ensures Safe(Next(s, step))
  {
    StepKeepsOwned(s, step);
    StepKeepsMail(s, step);
    forall b | b in Next(s, step).agents
      ensures AgentOk(Next(s, step), b)
    {
      StepKeepsAgent(s, step, b);
    }
  }

  lemma {:induction false} RunKeepsSafe(s: State, steps: seq<Step>)
    requires Safe(s) && ValidRun(s, steps)
    ensures Safe(Final(s, steps))
    decreases |steps|
  {
    if steps != [] {
      StepKeepsSafe(s, steps[0]);
      RunKeepsSafe(Next(s, steps[0]), steps[1..]);
    }
  }

  /** In every interleaving: no two unreleased owners share an actor object; each mailbox is first in, first
      out and every envelope is handed over at most once, also one whose handler throws; the flag of an apply
      task is set while it runs, and a posted task never finds its mailbox empty. */
  lemma {:induction false} OneApplyPerActor(steps: seq<Step>)
    requires ValidRun(INITIAL, steps)
    ensures var s := Final(INITIAL, steps);
      && (forall a, b :: a in s.agents && b in s.agents && a != b ==>
            && s.agents[a].target in s.actorOf && s.agents[b].target in s.actorOf
            && s.actorOf[s.agents[a].target] != s.actorOf[s.agents[b].target])
      && (forall a <- s.agents :: s.agents[a].target in s.actorOf && s.actorOf[s.agents[a].target] in s.busy)
      && (forall a :: !Enabled(s, Proceed(a, StartEmpty)))
      && MailOk(s)
  {
    RunKeepsSafe(INITIAL, steps);
    var s := Final(INITIAL, steps);
    forall a
      ensures !Enabled(s, Proceed(a, StartEmpty))
    {
      if a in s.agents {
        assert AgentOk(s, a);
      }
    }
  }

  lemma {:induction false} StepGrowsHandled(s: State, step: Step, id: Id)
    requires Enabled(s, step) && KeysOk(s) && id in s.actorOf
    ensures id in Next(s, step).handled && s.handled[id] <= Next(s, step).handled[id]
  {
    if step.Proceed? {
      ProceedGrowsHandled(s, step.a, step.act, id);
    }
  }

  lemma {:induction false} ProceedGrowsHandled(s: State, a: nat, act: Act, id: Id)
    requires Enabled(s, Proceed(a, act)) && id in s.handled
    ensures id in NextAct(s, a, act).handled && s.handled[id] <= NextAct(s, a, act).handled[id]
  {
  }

  /** The record of handled envelopes only grows, so an envelope once handed over stays so, at its place. */
  lemma {:induction false} HandledGrows(s: State, steps: seq<Step>, id: Id)
    requires ValidRun(s, steps) && KeysOk(s) && id in s.actorOf
    ensures id in Final(s, steps).handled && s.handled[id] <= Final(s, steps).handled[id]
    decreases |steps|
  {
    if steps != [] {
      StepKeepsKeys(s, steps[0]);
      StepGrowsHandled(s, steps[0], id);
      HandledGrows(Next(s, steps[0]), steps[1..], id);
    }
  }

  // ---- What a completed scan leaves behind ----

  /** Messages are waiting, and nobody is even holding the flag. */
  predicate Stranded(s: State, id: Id) {
    Waiting(s, id) && id in s.actorOf && s.actorOf[id] !in s.busy
  }

  /** Missed is exactly: messages are waiting, and no task is going to pop them. */
  ghost predicate PassedOk(s: State, id: Id) {
    id in s.missed <==> Waiting(s, id) && !Served(s, id)
  }

  ghost predicate ScanOk(s: State) {
    && s.missed <= s.visited
    && (!s.scanning ==> s.visited == {})
    && forall id <- s.visited :: PassedOk(s, id)
  }

  /** A step of the owner of a flag changes nothing for any other mailbox, even of the same actor object. */
  lemma {:induction false} ProceedElsewhere(s: State, a: nat, act: Act, id: Id)
    requires Owned(s) && Enabled(s, Proceed(a, act)) && s.agents[a].target != id && PassedOk(s, id)
    ensures PassedOk(NextAct(s, a, act), id)
  {
    var s' := NextAct(s, a, act);
    ServedElsewhere(s, a, act, id);
    assert Waiting(s', id) <==> Waiting(s, id);
    assert id in s'.missed <==> id in s.missed;
  }

  lemma {:induction false} ServedElsewhere(s: State, a: nat, act: Act, id: Id)
    requires Owned(s) && Enabled(s, Proceed(a, act)) && s.agents[a].target != id
    ensures Served(NextAct(s, a, act), id) <==> Served(s, id)
  {
    if id in s.actorOf {
      if s.actorOf[id] == s.actorOf[s.agents[a].target] {
        NotServedByOther(s, a, act, id);
      } else if s.actorOf[id] in s.owner {
        OwnerElsewhere(s, a, act, s.actorOf[id]);
      }
    }
  }

  /** The flag of this actor object is held for another mailbox. */
  lemma {:induction false} NotServedByOther(s: State, a: nat, act: Act, id: Id)
    requires Owned(s) && Enabled(s, Proceed(a, act)) && s.agents[a].target != id
    requires id in s.actorOf && s.actorOf[id] == s.actorOf[s.agents[a].target]
    ensures !Served(s, id) && !Served(NextAct(s, a, act), id)
  {
    assert s.owner[s.actorOf[id]] == a;
  }

  lemma {:induction false} OwnerElsewhere(s: State, a: nat, act: Act, o: ActorRef)
    requires Owned(s) && Enabled(s, Proceed(a, act)) && o in s.owner && s.actorOf[s.agents[a].target] != o
    ensures var s' := NextAct(s, a, act);
      && o in s'.owner && s'.owner[o] == s.owner[o] && s'.owner[o] in s'.agents && s.owner[o] in s.agents
      && s'.agents[s'.owner[o]] == s.agents[s.owner[o]] && s'.actorOf == s.actorOf
  {
    assert s.owner[o] != a;
  }

  /** The owner empties its mailbox before its last pop; only an exception leaves messages. */
  lemma {:induction false} ProceedHere(s: State, a: nat, act: Act)
    requires Owned(s) && Enabled(s, Proceed(a, act)) && s.agents[a].target in s.visited && PassedOk(s, s.agents[a].target)
    ensures PassedOk(NextAct(s, a, act), s.agents[a].target)
  {
    if Releases(act) {
      ReleaseHere(s, a, act);
    } else {
      GoOnHere(s, a, act);
    }
  }

  lemma {:induction false} ReleaseHere(s: State, a: nat, act: Act)
    requires Owned(s) && Enabled(s, Proceed(a, act)) && Releases(act) && PassedOk(s, s.agents[a].target)
    ensures PassedOk(NextAct(s, a, act), s.agents[a].target)
  {
    assert Served(s, s.agents[a].target) <==> !Idle(s.agents[a].pc);
  }

  lemma {:induction false} GoOnHere(s: State, a: nat, act: Act)
    requires Owned(s) && Enabled(s, Proceed(a, act)) && !Releases(act)
    requires s.agents[a].target in s.visited && PassedOk(s, s.agents[a].target)
    ensures PassedOk(NextAct(s, a, act), s.agents[a].target)
  {
    var id, s' := s.agents[a].target, NextAct(s, a, act);
    assert Served(s, id) && (Served(s', id) <==> !Idle(s'.agents[a].pc));
  }

  /** A claim gives the claimed mailbox its task and no other mailbox one. */
  lemma {:induction false} ClaimKeepsPassed(s: State, x: Id, a: nat, id: Id)
    requires Owned(s) && Enabled(s, Claim(x, a)) && s.missed <= s.visited && (id in s.visited ==> PassedOk(s, id))
    requires id in s.visited || id == x
    ensures PassedOk(Next(s, Claim(x, a)), id)
  {
    assert Served(Next(s, Claim(x, a)), id) <==> id == x || Served(s, id);
  }

  lemma {:induction false} ProceedKeepsPassed(s: State, a: nat, act: Act, id: Id)
    requires Owned(s) && Enabled(s, Proceed(a, act)) && id in s.visited && PassedOk(s, id)
    ensures PassedOk(NextAct(s, a, act), id)
  {
    if s.agents[a].target == id {
      ProceedHere(s, a, act);
    } else {
      ProceedElsewhere(s, a, act, id);
    }
  }

  lemma {:induction false} SendKeepsPassed(s: State, x: Id, e: Envelope, id: Id)
    requires Enabled(s, Send(x, e)) && id in s.visited && PassedOk(s, id)
    ensures PassedOk(Next(s, Send(x, e)), id)
  {
    assert Served(Next(s, Send(x, e)), id) <==> Served(s, id);
  }

  lemma {:induction false} SkipKeepsPassed(s: State, step: Step, id: Id)
    requires Enabled(s, step) && (step.SkipBusy? || step.SkipEmpty?) && s.missed <= s.visited
    requires if id in s.visited then PassedOk(s, id) else id == step.id
    ensures PassedOk(Next(s, step), id)
  {
    assert Served(Next(s, step), id) <==> Served(s, id);
    assert Waiting(Next(s, step), id) <==> Waiting(s, id);
  }

  /** The other steps come between two scans, or touch neither flags nor mailboxes. */
  lemma {:induction false} OthersKeepPassed(s: State, step: Step, id: Id)
    requires !s.scanning ==> s.visited == {}
    requires Enabled(s, step) && (step.Register? || step.Unregister? || step.BeginStop? || step.ScanBegin? || step.ScanEnd?)
    requires id in Next(s, step).visited && PassedOk(s, id)
    ensures PassedOk(Next(s, step), id)
  {
    assert Served(Next(s, step), id) <==> Served(s, id);
  }

  lemma {:induction false} StepKeepsPassed(s: State, step: Step, id: Id)
    requires Owned(s) && Enabled(s, step) && id in Next(s, step).visited
    requires s.missed <= s.visited && (!s.scanning ==> s.visited == {}) && (id in s.visited ==> PassedOk(s, id))
    ensures PassedOk(Next(s, step), id)
  {
    match step
    case Proceed(a, act) => ProceedKeepsPassed(s, a, act, id);
    case Claim(x, a) => ClaimKeepsPassed(s, x, a, id);
    case Send(x, e) => SendKeepsPassed(s, x, e, id);
    case SkipBusy(_) => SkipKeepsPassed(s, step, id);
    case SkipEmpty(_) => SkipKeepsPassed(s, step, id);
    case _ => OthersKeepPassed(s, step, id);
  }

  lemma {:induction false} StepKeepsScan(s: State, step: Step)
    requires Safe(s) && ScanOk(s) && Enabled(s, step)
    ensures ScanOk(Next(s, step))
  {
    forall id | id in Next(s, step).visited
      ensures PassedOk(Next(s, step), id)
    {
      StepKeepsPassed(s, step, id);
    }
  }

  lemma {:induction false} RunKeepsScan(s: State, steps: seq<Step>)
    requires Safe(s) && ScanOk(s) && ValidRun(s, steps)
    ensures Safe(Final(s, steps)) && ScanOk(Final(s, steps))
    decreases |steps|
  {
    if steps != [] {
      StepKeepsSafe(s, steps[0]);
      StepKeepsScan(s, steps[0]);
      RunKeepsScan(Next(s, steps[0]), steps[1..]);
    }
  }

  /** An outstanding apply task for this mailbox that is going to pop it empty, unless a handler throws. */
  ghost predicate HasTask(s: State, a: nat, id: Id) {
    a in s.agents && s.agents[a].target == id && !ByWorker(s.agents[a].pc) && !Idle(s.agents[a].pc)
  }

  ghost predicate OneTask(s: State, id: Id) {
    exists a :: HasTask(s, a, id) && forall b <- s.agents :: s.agents[b].target == id ==> b == a
  }

  lemma {:induction false} TaskIsOwner(s: State, id: Id)
    requires Owned(s) && Enabled(s, ScanEnd)
    ensures forall a :: HasTask(s, a, id) ==> Served(s, id)
    ensures Served(s, id) ==> OneTask(s, id)
  {
    if Served(s, id) {
      assert HasTask(s, s.owner[s.actorOf[id]], id);
    }
  }

  /** When a scan ends, a live actor has waiting messages and no outstanding task for them exactly if the
      scan missed it; every other one with messages has exactly one task. With no task outstanding at all, the
      mailboxes that are not empty are the missed ones. */
  lemma {:induction false} ScanCompletes(steps: seq<Step>, id: Id)
    requires ValidRun(INITIAL, steps) && Enabled(Final(INITIAL, steps), ScanEnd)
    requires id in Final(INITIAL, steps).live
    ensures var s := Final(INITIAL, steps);
      && id in s.mbox && id in s.actorOf
      && (id in s.missed <==> s.mbox[id] != [] && forall a :: !HasTask(s, a, id))
      && (s.mbox[id] != [] && id !in s.missed ==> OneTask(s, id))
      && (Stranded(s, id) <==> id in s.missed && s.actorOf[id] !in s.busy)
      && (s.agents == map[] ==> (s.mbox[id] != [] <==> id in s.missed))
  {
    RunKeepsScan(INITIAL, steps);
    var s := Final(INITIAL, steps);
    assert PassedOk(s, id);
    TaskIsOwner(s, id);
  }

  // ---- Which events make a scan miss a mailbox ----

  /** The agent holds the flag of this actor object, but for another mailbox, or without going to pop any more. */
  ghost predicate HoldsIdly(s: State, a: nat, id: Id) {
    && a in s.agents && s.agents[a].target in s.actorOf && id in s.actorOf
    && s.actorOf[s.agents[a].target] == s.actorOf[id]
    && (s.agents[a].target != id || Idle(s.agents[a].pc))
  }

  /** The scan passes waiting messages while the flag is held idly. */
  ghost predicate PassesIdle(s: State, step: Step, id: Id) {
    step == SkipBusy(id) && Waiting(s, id) && exists a :: HoldsIdly(s, a, id)
  }

  /** After the scan has passed, a handler throws or a task is dropped, with messages left. */
  ghost predicate GivesUp(s: State, step: Step, id: Id) {
    && step.Proceed? && (step.act.Throw? || step.act.Drop?)
    && step.a in s.agents && s.agents[step.a].target == id && id in s.visited && Waiting(s, id)
  }

  /** After the scan has passed, a message arrives while the flag is free or held idly. */
  ghost predicate ArrivesLate(s: State, step: Step, id: Id) {
    && step.Send? && step.id == id && id in s.visited && id in s.actorOf
    && (s.actorOf[id] !in s.busy || exists a :: HoldsIdly(s, a, id))
  }

  ghost predicate Misses(s: State, step: Step, id: Id) {
    PassesIdle(s, step, id) || GivesUp(s, step, id) || ArrivesLate(s, step, id)
  }

  /** A busy flag is held idly exactly if its owner does not serve this mailbox. */
  lemma {:induction false} IdleOrServed(s: State, id: Id)
    requires Owned(s) && id in s.actorOf
    ensures (exists a :: HoldsIdly(s, a, id)) <==> s.actorOf[id] in s.busy && !Served(s, id)
  {
    if s.actorOf[id] in s.busy && !Served(s, id) {
      assert HoldsIdly(s, s.owner[s.actorOf[id]], id);
    }
  }

  lemma {:induction false} ProceedMisses(s: State, a: nat, act: Act, id: Id)
    requires Enabled(s, Proceed(a, act))
    ensures id in NextAct(s, a, act).missed <==> id in s.missed || GivesUp(s, Proceed(a, act), id)
  {
  }

  lemma {:induction false} PassMisses(s: State, x: Id, id: Id)
    requires Owned(s) && Enabled(s, SkipBusy(x))
    ensures id in Next(s, SkipBusy(x)).missed <==> id in s.missed || PassesIdle(s, SkipBusy(x), id)
  {
    IdleOrServed(s, x);
  }

  lemma {:induction false} SendMisses(s: State, x: Id, e: Envelope, id: Id)
    requires Owned(s) && KeysOk(s) && Enabled(s, Send(x, e))
    ensures id in Next(s, Send(x, e)).missed <==> id in s.missed || ArrivesLate(s, Send(x, e), id)
  {
    IdleOrServed(s, x);
  }

  lemma {:induction false} StepMisses(s: State, step: Step, id: Id)
    requires Owned(s) && KeysOk(s) && Enabled(s, step) && !step.ScanEnd?
    ensures id in Next(s, step).missed <==> id in s.missed || Misses(s, step, id)
  {
    if step.Proceed? {
      ProceedMisses(s, step.a, step.act, id);
    } else if step.SkipBusy? {
      PassMisses(s, step.id, id);
    } else if step.Send? {
      SendMisses(s, step.id, step.e, id);
    } else {
      assert Next(s, step).missed == s.missed;
    }
  }

  /** One of the three events happens in the run. */
  ghost predicate SomethingMisses(s: State, steps: seq<Step>, id: Id)
    requires ValidRun(s, steps)
    decreases |steps|
  {
    steps != [] && (Misses(s, steps[0], id) || SomethingMisses(Next(s, steps[0]), steps[1..], id))
  }

  lemma {:induction false} RunMisses(s: State, steps: seq<Step>, id: Id)
    requires Safe(s) && ValidRun(s, steps) && ScanEnd !in steps
    ensures id in Final(s, steps).missed <==> id in s.missed || SomethingMisses(s, steps, id)
    decreases |steps|
  {
    if steps != [] {
      StepMisses(s, steps[0], id);
      StepKeepsSafe(s, steps[0]);
      RunMisses(Next(s, steps[0]), steps[1..], id);
    }
  }

  /** One whole scan, begun anywhere in a run and interleaved with anything: at its end a live actor has waiting
      messages without a task exactly if one of the three events happened to it during the scan. If none did,
      a non-empty mailbox has exactly one task. */
  lemma {:induction false} MissedBecause(before: seq<Step>, scan: seq<Step>, id: Id)
    requires ValidRun(INITIAL, before) && ValidRun(Final(INITIAL, before), scan)
    requires scan != [] && scan[0] == ScanBegin && ScanEnd !in scan
    requires var s := Final(Final(INITIAL, before), scan); Enabled(s, ScanEnd) && id in s.live
    ensures var s0 := Final(INITIAL, before);
      var s := Final(s0, scan);
      && id in s.mbox
      && (s.mbox[id] != [] && (forall a :: !HasTask(s, a, id)) <==> SomethingMisses(s0, scan, id))
      && (s.mbox[id] != [] && !SomethingMisses(s0, scan, id) ==> OneTask(s, id))
  {
    RunKeepsScan(INITIAL, before);
    NothingMissedYet(Final(INITIAL, before));
    RunMisses(Final(INITIAL, before), scan, id);
    Concat(INITIAL, before, scan);
    ScanCompletes(before + scan, id);
  }

  lemma {:induction false} NothingMissedYet(s: State)
    requires ScanOk(s) && Enabled(s, ScanBegin)
    ensures s.missed == {}
  {
  }

  lemma {:induction false} TailOfSum(a: seq<Step>, b: seq<Step>)
    requires a != []
    ensures (a + b)[0] == a[0] && (a + b)[1..] == a[1..] + b
  {
  }

  lemma {:induction false} Concat(s: State, a: seq<Step>, b: seq<Step>)
    requires ValidRun(s, a) && ValidRun(Final(s, a), b)
    ensures ValidRun(s, a + b) && Final(s, a + b) == Final(Final(s, a), b)
    decreases |a|
  {
    if a == [] {
      assert a + b == b;
    } else {
      TailOfSum(a, b);
      Concat(Next(s, a[0]), a[1..], b);
    }
  }

  lemma {:induction false} Extend(s: State, steps: seq<Step>, step: Step)
    requires ValidRun(s, steps) && Enabled(Final(s, steps), step)
    ensures ValidRun(s, steps + [step]) && Final(s, steps + [step]) == Next(Final(s, steps), step)
  {
    Concat(s, steps, [step]);
  }

  /** The states of a context with one actor, registered once, and at most one owner of its flag. */
  function Solo(owner: Option<Pc>, inbox: seq<Envelope>, done: seq<Envelope>, scanning: bool,
                visited: set<Id>, missed: set<Id>): State
  {
    State(map[1 := 0], {1}, map[1 := inbox], if owner.Some? then {0} else {},
          if owner.Some? then map[0 := Agent(1, owner.value)] else map[], false, scanning,
          map[1 := done + inbox], map[1 := done], if owner.Some? then map[0 := 0] else map[],
          visited, {}, missed)
  }

  lemma {:induction false} Sent(steps: seq<Step>, owner: Option<Pc>, inbox: seq<Envelope>, done: seq<Envelope>,
                                e: Envelope, longer: seq<Envelope>)
    requires ValidRun(INITIAL, steps) && Final(INITIAL, steps) == Solo(owner, inbox, done, false, {}, {})
    requires longer == inbox + [e]
    ensures ValidRun(INITIAL, steps + [Send(1, e)])
    ensures Final(INITIAL, steps + [Send(1, e)]) == Solo(owner, longer, done, false, {}, {})
  {
    assert done + longer == done + inbox + [e];
    Extend(INITIAL, steps, Send(1, e));
  }

  lemma {:induction false} Popped(steps: seq<Step>, inbox: seq<Envelope>, done: seq<Envelope>, longer: seq<Envelope>)
    requires ValidRun(INITIAL, steps) && Final(INITIAL, steps) == Solo(Some(Draining), inbox, done, false, {}, {})
    requires inbox != [] && longer == done + [inbox[0]]
    ensures ValidRun(INITIAL, steps + [Proceed(0, Pop)])
    ensures Final(INITIAL, steps + [Proceed(0, Pop)]) == Solo(Some(Handling(inbox[0])), inbox[1..], longer, false, {}, {})
  {
    assert done + inbox == longer + inbox[1..];
    Extend(INITIAL, steps, Proceed(0, Pop));
  }

  /** A scan passes the busy actor. */
  lemma {:induction false} Passed(steps: seq<Step>, pc: Pc, inbox: seq<Envelope>, done: seq<Envelope>) returns (more: seq<Step>)
    requires ValidRun(INITIAL, steps) && Final(INITIAL, steps) == Solo(Some(pc), inbox, done, false, {}, {})
    ensures ValidRun(INITIAL, more)
    ensures Final(INITIAL, more) == Solo(Some(pc), inbox, done, true, {1}, if Idle(pc) && inbox != [] then {1} else {})
  {
    Extend(INITIAL, steps, ScanBegin);
    more := steps + [ScanBegin];
    assert Final(INITIAL, more) == Solo(Some(pc), inbox, done, true, {}, {});
    Extend(INITIAL, more, SkipBusy(1));
    more := more + [SkipBusy(1)];
  }

  /** The flag is released with messages left, after the scan has passed. */
  lemma {:induction false} Released(steps: seq<Step>, pc: Pc, inbox: seq<Envelope>, done: seq<Envelope>)
    requires ValidRun(INITIAL, steps) && Final(INITIAL, steps) == Solo(Some(pc), inbox, done, true, {1}, {1})
    requires (pc.Finishing? || pc.Failing?) && inbox != []
    ensures ValidRun(INITIAL, steps + [Proceed(0, Release)])
    ensures Final(INITIAL, steps + [Proceed(0, Release)]) == Solo(None, inbox, done, true, {1}, {1})
  {
    Extend(INITIAL, steps, Proceed(0, Release));
  }

  lemma {:induction false} TwoMessagesSent(e: Envelope, f: Envelope) returns (steps: seq<Step>)
    ensures ValidRun(INITIAL, steps) && Final(INITIAL, steps) == Solo(None, [e, f], [], true, {}, {})
  {
    steps := [];
    Extend(INITIAL, steps, Register(1, 0));
    steps := steps + [Register(1, 0)];
    assert Final(INITIAL, steps) == Solo(None, [], [], false, {}, {});
    Sent(steps, None, [], [], e, [e]);
    steps := steps + [Send(1, e)];
    Sent(steps, None, [e], [], f, [e, f]);
    steps := steps + [Send(1, f)];
    Extend(INITIAL, steps, ScanBegin);
    steps := steps + [ScanBegin];
  }

  lemma {:induction false} TaskClaimed(e: Envelope, f: Envelope) returns (steps: seq<Step>)
    ensures ValidRun(INITIAL, steps) && Final(INITIAL, steps) == Solo(Some(Checked), [e, f], [], true, {1}, {})
  {
    steps := TwoMessagesSent(e, f);
    Extend(INITIAL, steps, Claim(1, 0));
    steps := steps + [Claim(1, 0)];
    assert Final(INITIAL, steps) == Solo(Some(Claimed), [e, f], [], true, {1}, {});
    Extend(INITIAL, steps, Proceed(0, LookFull));
    steps := steps + [Proceed(0, LookFull)];
  }

  lemma {:induction false} TaskPosted(e: Envelope, f: Envelope) returns (steps: seq<Step>)
    ensures ValidRun(INITIAL, steps) && Final(INITIAL, steps) == Solo(Some(Posted), [e, f], [], false, {}, {})
  {
    steps := TaskClaimed(e, f);
    Extend(INITIAL, steps, Proceed(0, Post));
    steps := steps + [Proceed(0, Post)];
    assert Final(INITIAL, steps) == Solo(Some(Posted), [e, f], [], true, {1}, {});
    Extend(INITIAL, steps, ScanEnd);
    steps := steps + [ScanEnd];
  }

  lemma {:induction false} FirstHandled(e: Envelope, f: Envelope) returns (steps: seq<Step>)
    ensures ValidRun(INITIAL, steps) && Final(INITIAL, steps) == Solo(Some(Handling(e)), [f], [e], false, {}, {})
  {
    steps := TaskPosted(e, f);
    Extend(INITIAL, steps, Proceed(0, Start));
    steps := steps + [Proceed(0, Start)];
    Popped(steps, [e, f], [], [e]);
    steps := steps + [Proceed(0, Pop)];
    assert [e, f][1..] == [f];
  }

  /** A completed scan can leave a message stranded although nobody sent during the scan: the scan passes the
      busy actor, whose handler then throws with a second message waiting. */
  lemma {:induction false} ThrowStrands(e: Envelope, f: Envelope) returns (steps: seq<Step>)
    ensures ValidRun(INITIAL, steps) && Enabled(Final(INITIAL, steps), ScanEnd)
    ensures Final(INITIAL, steps).sent == {} && Stranded(Final(INITIAL, steps), 1)
  {
    steps := FirstHandled(e, f);
    steps := Passed(steps, Handling(e), [f], [e]);
    Extend(INITIAL, steps, Proceed(0, Throw));
    steps := steps + [Proceed(0, Throw)];
    assert Final(INITIAL, steps) == Solo(Some(Failing), [f], [e], true, {1}, {1});
    Released(steps, Failing, [f], [e]);
    steps := steps + [Proceed(0, Release)];
  }

  lemma {:induction false} LastPopFailed(e: Envelope, f: Envelope) returns (steps: seq<Step>)
    ensures ValidRun(INITIAL, steps) && Final(INITIAL, steps) == Solo(Some(Finishing), [], [e, f], false, {}, {})
  {
    steps := FirstHandled(e, f);
    Extend(INITIAL, steps, Proceed(0, Return));
    steps := steps + [Proceed(0, Return)];
    Popped(steps, [f], [e], [e, f]);
    steps := steps + [Proceed(0, Pop)];
    assert [f][1..] == [];
    Extend(INITIAL, steps, Proceed(0, Return));
    steps := steps + [Proceed(0, Return)];
    assert Final(INITIAL, steps) == Solo(Some(Draining), [], [e, f], false, {}, {});
    Extend(INITIAL, steps, Proceed(0, PopNothing));
    steps := steps + [Proceed(0, PopNothing)];
  }

  /** The same without an exception: a message arrives between the last pop and the release, the scan passes
      the still busy actor, and then the flag is released. */
  lemma {:induction false} LateSendStrands(e: Envelope, f: Envelope, g: Envelope) returns (steps: seq<Step>)
    ensures ValidRun(INITIAL, steps) && Enabled(Final(INITIAL, steps), ScanEnd)
    ensures Final(INITIAL, steps).sent == {} && Stranded(Final(INITIAL, steps), 1)
  {
    steps := LastPopFailed(e, f);
    Sent(steps, Some(Finishing), [], [e, f], g, [g]);
    steps := steps + [Send(1, g)];
    steps := Passed(steps, Finishing, [g], [e, f]);
    Released(steps, Finishing, [g], [e, f]);
    steps := steps + [Proceed(0, Release)];
  }

  // ---- From the sender to the handler ----

  /** The envelopes sent to `id` in a run. */
  function SentIn(steps: seq<Step>, id: Id): seq<Envelope> {
    if steps == [] then []
    else (if steps[0].Send? && steps[0].id == id then [steps[0].e] else []) + SentIn(steps[1..], id)
  }

  /** The envelope that a step hands to the handler of `id`, if any. */
  function HandedBy(s: State, step: Step, id: Id): seq<Envelope> {
    if step.Proceed? && step.act.Pop? && step.a in s.agents && s.agents[step.a].target == id
       && step.a in Next(s, step).agents && Next(s, step).agents[step.a].pc.Handling?
    then [Next(s, step).agents[step.a].pc.e] else []
  }

  ghost function HandedIn(s: State, steps: seq<Step>, id: Id): seq<Envelope>
    decreases |steps|
  {
    if steps == [] then [] else HandedBy(s, steps[0], id) + HandedIn(Next(s, steps[0]), steps[1..], id)
  }

  ghost function Record(record: map<Id, seq<Envelope>>, id: Id): seq<Envelope> {
    if id in record then record[id] else []
  }

  lemma {:induction false} SendRecords(s: State, step: Step, id: Id)
    requires KeysOk(s) && Enabled(s, step)
    ensures Record(Next(s, step).pushed, id) == Record(s.pushed, id) + (if step.Send? && step.id == id then [step.e] else [])
  {
    if step.Proceed? {
      ProceedPushesNothing(s, step.a, step.act);
    }
  }

  lemma {:induction false} ProceedPushesNothing(s: State, a: nat, act: Act)
    ensures NextAct(s, a, act).pushed == s.pushed
  {
  }

  lemma {:induction false} PopRecords(s: State, a: nat, act: Act, id: Id)
    requires Enabled(s, Proceed(a, act))
    ensures Record(NextAct(s, a, act).handled, id) == Record(s.handled, id) + HandedBy(s, Proceed(a, act), id)
  {
  }

  lemma {:induction false} HandlerRecords(s: State, step: Step, id: Id)
    requires KeysOk(s) && Enabled(s, step)
    ensures Record(Next(s, step).handled, id) == Record(s.handled, id) + HandedBy(s, step, id)
  {
    if step.Proceed? {
      PopRecords(s, step.a, step.act, id);
    }
  }

  lemma {:induction false} RunRecords(s: State, steps: seq<Step>, id: Id)
    requires KeysOk(s) && ValidRun(s, steps)
    ensures Record(Final(s, steps).pushed, id) == Record(s.pushed, id) + SentIn(steps, id)
    ensures Record(Final(s, steps).handled, id) == Record(s.handled, id) + HandedIn(s, steps, id)
    decreases |steps|
  {
    if steps != [] {
      var step, s', rest := steps[0], Next(s, steps[0]), steps[1..];
      SendRecords(s, step, id);
      HandlerRecords(s, step, id);
      StepKeepsKeys(s, step);
      RunRecords(s', rest, id);
      Associative(Record(s.pushed, id), if step.Send? && step.id == id then [step.e] else [], SentIn(rest, id));
      Associative(Record(s.handled, id), HandedBy(s, step, id), HandedIn(s', rest, id));
    }
  }

  /** What was sent to an actor is what its handler was given, in that order, followed by what is waiting. */
  lemma {:induction false} SentIsHandedOrWaiting(steps: seq<Step>, id: Id)
    requires ValidRun(INITIAL, steps) && id in Final(INITIAL, steps).mbox
    ensures SentIn(steps, id) == HandedIn(INITIAL, steps, id) + Final(INITIAL, steps).mbox[id]
  {
    RunRecords(INITIAL, steps, id);
    RunKeepsSafe(INITIAL, steps);
    var s := Final(INITIAL, steps);
    assert SentIn(steps, id) == [] + SentIn(steps, id) == s.pushed[id];
    assert HandedIn(INITIAL, steps, id) == [] + HandedIn(INITIAL, steps, id) == s.handled[id];
  }

  /** Whoever holds a flag can go on, except with a dropped task: no flag is held for ever by a task that is run. */
  lemma {:induction false} OwnerCanMove(steps: seq<Step>, a: nat) returns (act: Act)
    requires ValidRun(INITIAL, steps) && a in Final(INITIAL, steps).agents && !Final(INITIAL, steps).agents[a].pc.Dropped?
    ensures Enabled(Final(INITIAL, steps), Proceed(a, act))
  {
    RunKeepsSafe(INITIAL, steps);
    var s := Final(INITIAL, steps);
    var empty := s.mbox[s.agents[a].target] == [];
    match s.agents[a].pc
    case Claimed => act := if empty then LookEmpty else LookFull;
    case Checked => act := if s.stopping then Drop else Post;
    case Posted => act := if empty then StartEmpty else Start;
    case Draining => act := if empty then PopNothing else Pop;
    case Handling(_) => act := Return;
    case Finishing => act := Release;
    case Failing => act := Release;
  }

  lemma {:induction false} StepKeepsRemoved(s: State, step: Step, id: Id)
    requires Enabled(s, step) && id in s.actorOf
    ensures id in Next(s, step).actorOf && Next(s, step).actorOf[id] == s.actorOf[id]
    ensures id in Next(s, step).live <==> id in s.live && !(step.Unregister? && id in step.gone)
  {
    if step.Proceed? {
      assert NextAct(s, step.a, step.act).actorOf == s.actorOf && NextAct(s, step.a, step.act).live == s.live;
    }
  }

  /** One of the steps removes `id` from the registry. */
  predicate RemovedIn(steps: seq<Step>, id: Id) {
    steps != [] && ((steps[0].Unregister? && id in steps[0].gone) || RemovedIn(steps[1..], id))
  }

  lemma {:induction false} AcceptsUntilRemoved(s: State, steps: seq<Step>, id: Id, e: Envelope)
    requires KeysOk(s) && ValidRun(s, steps) && id in s.actorOf
    ensures id in Final(s, steps).actorOf && Final(s, steps).actorOf[id] == s.actorOf[id]
    ensures Enabled(Final(s, steps), Send(id, e)) <==> id in s.live && !RemovedIn(steps, id)
    decreases |steps|
  {
    if steps != [] {
      StepKeepsRemoved(s, steps[0], id);
      StepKeepsKeys(s, steps[0]);
      AcceptsUntilRemoved(Next(s, steps[0]), steps[1..], id, e);
    }
  }

  /** An id stands for the actor object it was registered with; it takes messages from its registration until it
      is removed, and none after that. */
  lemma {:induction false} RegisteredUntilRemoved(s: State, id: Id, actor: ActorRef, steps: seq<Step>, e: Envelope)
    requires KeysOk(s) && Enabled(s, Register(id, actor)) && ValidRun(Next(s, Register(id, actor)), steps)
    ensures var s' := Final(Next(s, Register(id, actor)), steps);
      && id in s'.actorOf && s'.actorOf[id] == actor
      && (Enabled(s', Send(id, e)) <==> !RemovedIn(steps, id))
  {
    RegisterTakesEffect(s, id, actor);
    StepKeepsKeys(s, Register(id, actor));
    AcceptsUntilRemoved(Next(s, Register(id, actor)), steps, id, e);
  }

  lemma {:induction false} RegisterTakesEffect(s: State, id: Id, actor: ActorRef)
    requires Enabled(s, Register(id, actor))
    ensures var s' := Next(s, Register(id, actor));
      id in s'.live && id in s'.actorOf && s'.actorOf[id] == actor && id in s'.mbox && s'.mbox[id] == []
  {
  }

  lemma {:induction false} StepStops(s: State, step: Step)
    requires Enabled(s, step)
    ensures Next(s, step).stopping <==> s.stopping || step == BeginStop
  {
    if step.Proceed? {
      assert NextAct(s, step.a, step.act).stopping == s.stopping;
    }
  }

  /** Tasks are dropped only after the stop has begun, and all from then on. */
  lemma {:induction false} DropsOnlyWhenStopping(s: State, steps: seq<Step>, a: nat)
    requires ValidRun(s, steps)
    ensures Enabled(Final(s, steps), Proceed(a, Drop)) ==> s.stopping || BeginStop in steps
    ensures Enabled(Final(s, steps), Proceed(a, Post)) ==> !s.stopping && BeginStop !in steps
    decreases |steps|
  {
    if steps != [] {
      StepStops(s, steps[0]);
      assert steps == [steps[0]] + steps[1..];
      DropsOnlyWhenStopping(Next(s, steps[0]), steps[1..], a);
    }
  }
}
