# yaaf: a model of the actor runtime

yaaf is an actor framework in C++. This project models its core in Dafny and proves what the
core promises: the actor registry and its supervision tree, the protocol that hands mailboxes to
pool threads, the thread pool, exchanges, the two context locks, and the binary codec.

## How it is organised

| file | models |
|---|---|
| `Types.dfy`, `Counting.dfy` | ids with their two different empty values, addresses, envelopes, hook events; counting in sequences |
| `Registry.dfy`, `Supervision.dfy` | the registry as a value: well-formedness, ancestors by parent links, what a stop and a commit do |
| `Escalation.dfy` | the chain of supervisors and the first one that decides |
| `Exchanges.dfy` | exchanges as values and what draining them delivers |
| `Context.dfy` | the context object: its lock-protected sections with their loops and their recursion, and uninterrupted compositions of them |
| `Lifecycle.dfy` | whole runs of adds (three critical sections each), stops and the shutdown, with their history |
| `Dispatch.dfy` | senders, the mailbox worker and any number of apply tasks, interleaved step by step |
| `ActorObject.dfy` | the mailbox and the claim, drain and release of one actor, run alone |
| `ExchangeRuns.dfy` | whole runs over the exchange table, draining one envelope at a time |
| `TaskQueue.dfy`, `ThreadPool.dfy` | the pool's queue and selection loop; any number of pool threads, posts, flushes and a stop |
| `Locks.dfy` | threads taking the registry lock and the exchange lock |
| `Codec.dfy` | field lists written to and read from a byte buffer |

A state machine is a state, a set of enabled steps and a next-state function; a run is a sequence of
enabled steps (a step that is not enabled leaves the state as it is). Theorems about runs hold for every run
from the initial state, that is, for every interleaving of the steps. Histories (what was pushed, handled,
posted, committed, missed) are kept beside the state; no step is enabled or disabled by them, and they are tied
to the steps that were taken (`SentIsHandedOrWaiting` and the `RunRecords` lemmas). The sequential methods of
`Context.dfy` and the steps of the machines share their value functions: `StopActor` and the stop step of
`Lifecycle` both remove `Subtree` and call `Notices`, of which `StopTells` says what they are;
`AddIsThreeSteps` shows that an uninterrupted add is a run, and `DrainedAllDelivers` does the same for the drain
of an exchange.

Conditions under which the claims are made:

- Addresses given to the context were handed out by it, and at most 2^64 - 2 ids are used.
- `add_actor` finds its parent registered when it looks it up; the original dereferences the result. At the
  commit the parent may be gone, and the shutdown may have happened.
- Hooks called under a lock do not call back into the context, except the stop hook of a network actor,
  which takes the exchange lock (modelled in `Locks.dfy`). `on_child_error` is a function of its arguments.
- The error path is given the supervisor captured when the task was posted; `CapturedParentAgrees` shows that the
  registry still knows it as the same object, if it knows it.
- Pool tasks return; they do not throw out of the pool loop. A task is identified by its posting, so one
  wrapper posted twice counts as two tasks.
- Waiting on a condition variable is a guarded step; locks and atomics are sequentially consistent.
- One scan of the mailboxes runs at a time: `start` posts the mailbox worker once, and a posting is with one
  thread at most (`ExactlyOnePlace`).
- An actor object may be registered under several ids; its busy flag is then shared, as in the original.

## Results that differ from a first reading

- Not every registered actor has a registered parent. `add_actor` looks its parent up and commits in two
  critical sections; if the parent is stopped in between, the commit registers an orphan.
  `CommitWellFormedIff` and `OrphansComeLate` give the exact condition, `LateCommitReachable` a run that reaches
  the failure. Everything else about the registry (ids, keys, names, stops, `on_stop` counts) is proved with
  orphans present. An orphan that gets a message makes the scan dereference a missing entry (`ClaimActor`).
- An `add_actor` of a thread outside the pools can commit after `stop` has cleared the maps; its actor never
  receives `on_stop` (`AddOutlivesShutdown`). `OnStopExactlyOnce` says who receives it and who does not.
- A completed scan can leave messages that no task will handle before the next scan, even if nobody sends
  during the scan: the scan passes a busy actor whose handler then throws (`ThrowStrands`), or a message
  arrived between the last failed pop and the release of the flag (`LateSendStrands`), or the flag is held for
  another mailbox of the same object, or the pool is stopping and drops the task. `ScanCompletes` says exactly
  for which mailboxes this happens, and `MissedBecause` by exactly which events.
- The climb after ESCALATE dereferences a missing registry entry exactly when the captured supervisor
  escalates and no registered supervisor of the chain decides (`Climb`, `Decide`, `HandleFailure`). In a started
  context whose root resumes, and with no orphan on the chain, that is when the direct supervisor is no longer
  registered (`ClimbInRun`); `SupervisorStoppedMeanwhile` and `TopEscalates` reach both kinds of failure. It asks the direct
  supervisor twice.
- A field list survives the codec exactly when every length is below 2^32, because the header wraps.

## Model

| member | source | states |
|---|---|---|
| `Registry.UnderSurvives` | libyaaf/context.cpp:466-487 | removing a set closed under children changes no ancestor relation among the survivors |
| `Registry.ChildTowards` | libyaaf/context.cpp:473-475 | a proper live descendant of a live actor hangs below a live direct child, which the children set lists: stale ids hide nobody |
| `Supervision.ExtendOrder` | libyaaf/context.cpp:473-475 | stopping one more child keeps the removal order bottom-up and the removed set closed |
| `Supervision.CompleteOrder` | libyaaf/context.cpp:473-477 | once all children are stopped, adding the actor itself gives a post-order of its subtree |
| `Supervision.NoticesSurvive` | libyaaf/context.cpp:477-483 | the hooks of a survivor do not depend on what was removed before it |
| `Supervision.TearDownChild` | libyaaf/context.cpp:473-475 | one turn of the child loop removes and notifies exactly the child's subtree |
| `Supervision.TearDownSelf` | libyaaf/context.cpp:477-485 | the last step leaves the registry without exactly the subtree, notified in post-order |
| `Supervision.StopTells` | libyaaf/context.cpp:466-487 | the hook calls of a stop, event by event: one on_stop for each actor of the subtree and for nobody else, descendants before ancestors, each directly followed by on_child_stopped for its parent, with a bare id and the reason, if the parent is registered; no other event |
| `Supervision.StopKeepsWellFormed` | libyaaf/context.cpp:466-487 | stopping any id keeps the registry well formed; it makes no orphan and every other orphan stays one |
| `Supervision.CommitKeepsWellFormed` | libyaaf/context.cpp:320-329 | the commit of an add keeps links, keys and ids well formed even if the parent is gone by then |
| `Supervision.CommitWellFormedIff` | libyaaf/context.cpp:300-329 | the commit keeps the registry well formed and free of orphans if and only if there is no parent or it is still registered |
| `Escalation.ChainShape` | libyaaf/context.cpp:507-511 | the chain climbed from a live supervisor follows parent links and ends at an actor whose parent is not registered |
| `Escalation.SomeoneDecides` | libyaaf/context.cpp:504-512 | with no orphan on the chain and with roots that decide, a climb is decided if and only if the direct supervisor is registered |
| `Escalation.DecidedInTurn` | libyaaf/context.cpp:502-512 | the questions of a decided climb: supervisor j is asked about the one below it, the first about the failed actor; all answers but the last are ESCALATE and the last is the decision |
| `Escalation.UndecidedInTurn` | libyaaf/context.cpp:502-512 | the same for a climb that runs out of supervisors: everybody is asked and escalates |
| `Exchanges.OneEntry` | libyaaf/context.cpp:553-563 | with one subscription entry the delivery is the publish queue itself |
| `Exchanges.DeliveriesAt` | libyaaf/context.cpp:553-563 | with k entries each envelope comes k times in a row, in publish order |
| `ContextObject.Context.AddActor` | libyaaf/context.cpp:284-334 | an uninterrupted add: the new description field by field, one more child of its supervisor and nobody else changed, one new empty mailbox and all others as they were, the name entry; well formed, no orphan, and in a started context no second actor without a parent |
| `ContextObject.Context.Start` | libyaaf/context.cpp:197-208 | the three guardians with their ids, parents and paths, nobody else changed; in a new context the root is then the only actor without a parent |
| `Supervision.GuardianPaths` | libyaaf/context.cpp:203-205 | the paths of the guardians, spelled out |
| `ContextObject.Context.StopChildren` | libyaaf/context.cpp:473-475 | the loop over a children set with stale ids tears down whole subtrees below the actor, and every live child's |
| `ContextObject.Context.StopActorImpl` | libyaaf/context.cpp:466-487 | removes exactly the live subtree from both maps and appends to the hook calls exactly what StopTells says, in a post-order |
| `ContextObject.Context.StopActor` | libyaaf/context.cpp:456-464 | the same, and the registry stays well formed, free of orphans if it was, and with the root as the only actor without a parent if it was |
| `ContextObject.Context.StopContext` | libyaaf/context.cpp:235-250 | every actor still registered gets one on_stop, and all three maps are emptied |
| `ContextObject.Context.GetAddress` | libyaaf/context.cpp:420-432 | the address found through the name index, or the empty one |
| `ContextObject.Context.CreateExchange` | libyaaf/context.cpp:336-354 | a repeated create changes nothing, not even the owner |
| `ContextObject.Context.Subscribe` | libyaaf/context.cpp:356-373 | creates a missing exchange; enters the target once more if it is registered |
| `ContextObject.Context.DeliverToEntries` | libyaaf/context.cpp:554-562 | one envelope reaches each registered actor once per subscription entry, the dead are skipped |
| `ContextObject.Context.DrainExchange` | libyaaf/context.cpp:551-563 | one exchange is emptied into the mailboxes, every envelope once per entry |
| `ContextObject.Context.DrainExchanges` | libyaaf/context.cpp:548-568 | all publish queues are emptied, owners and subscription entries stay; each mailbox is its old contents followed by its share in iteration order |
| `ContextObject.Context.ClaimActor` | libyaaf/context.cpp:585-600 | claims exactly an idle actor with messages, and posts a task that carries its live parent; misses a lookup exactly if such an actor is an orphan |
| `ContextObject.Context.ScanMailboxes` | libyaaf/context.cpp:573-603 | nothing is ever put aside for removal; afterwards every actor with messages is busy and each idle one was claimed once; it breaks off only at an idle orphan with messages |
| `ContextObject.Context.CollectExchanges` | libyaaf/context.cpp:604-622 | an exchange is kept, unchanged, if and only if its owner or one of its subscription entries is registered |
| `ContextObject.Context.Climb` | libyaaf/context.cpp:504-512 | every lookup hits if and only if some registered supervisor of the chain does not escalate; the result is the first such answer; the exact questions asked in both cases |
| `ContextObject.Context.Decide` | libyaaf/context.cpp:502-513 | the captured supervisor is asked first and its answer taken unless it is ESCALATE, then the climb's; defined if and only if one of them does not escalate; all questions in order |
| `ContextObject.Context.OnActorError` | libyaaf/context.cpp:521-546 | STOP and REINIT remove the failed actor's subtree, REINIT then restarts the object unregistered, RESUME tells the parent |
| `ContextObject.Context.HandleFailure` | libyaaf/context.cpp:499-519 | the whole error path: decision, effect on the original failing actor, and all hook calls in order, also when it runs into the missing entry |
| `ContextObject.Context.AfterApply` | libyaaf/context.cpp:489-519 | success is reported to the parent; a failure has the decision, the effect and the hook calls of the error path, which is undefined exactly if the captured supervisor escalates and nobody registered above decides |
| `ContextObject.SupervisorStoppedMeanwhile` | libyaaf/context.cpp:502-512 | the calls, in a started context, after which the climb misses: the supervisor is stopped between the post of its child's task and the failure |
| `ContextObject.TopEscalates` | libyaaf/context.cpp:504-512 | the calls after which the climb misses above a registered supervisor: that one was added before start, has no parent, and escalates |
| `Lifecycle.StepKeepsInv` | libyaaf/context.cpp:284-334 | every add section, stop and shutdown, in any order, keeps well-formedness, the name index, the on_stop counts and the record of orphans |
| `Lifecycle.RegistryWellFormed` | libyaaf/context.cpp:575-583 | in every reachable state the registry is well formed, every mailbox has its actor, no id was committed twice, and the orphans are exactly the live actors committed after their parent was gone |
| `Lifecycle.OrphansComeLate` | libyaaf/context.cpp:300-329 | a run is free of orphans in every state if and only if no commit of it came after its parent was gone |
| `Lifecycle.OnStopExactlyOnce` | libyaaf/context.cpp:242-250 | after the shutdown every actor committed before it has received on_stop exactly once; in every state registered ones none, and those registered once and gone exactly one |
| `Lifecycle.OnStopWhileRegistered` | libyaaf/context.cpp:466-487 | a step that calls on_stop for an id finds it registered and removes it |
| `Lifecycle.StopStepTells` | libyaaf/context.cpp:456-487 | a stop at any point of a run calls the hooks that StopTells says, with its own reason |
| `Lifecycle.NameLookup` | libyaaf/context.cpp:406-432 | lookup by name returns the last actor committed under that path (since the shutdown, if there was one) if it lives and otherwise nothing |
| `Lifecycle.ClimbInRun` | libyaaf/context.cpp:502-512 | in every run of a started context whose root resumes, a climb that meets no late-committed actor is decided if and only if the direct supervisor is registered |
| `Lifecycle.RunKeepsActor` | libyaaf/context.cpp:284-329 | an id means one actor for ever: later registrations under a committed id are the same object, path and parent |
| `Lifecycle.CapturedParentAgrees` | libyaaf/context.cpp:592-599 | the supervisor captured when a task is posted is the one found under its id at any later time, if one is found |
| `Lifecycle.StartRun` | libyaaf/context.cpp:197-208 | start as a run from the beginning, after which only the root has no parent and every add goes below somebody |
| `Lifecycle.LateCommitMakesOrphan` | libyaaf/context.cpp:320-329 | in any reachable situation a due commit registers an orphan exactly if its parent is no longer registered |
| `Lifecycle.LateCommitReachable` | libyaaf/context.cpp:300-329 | a run of a started context in which the parent is stopped between lookup and commit, with the orphan it leaves |
| `Lifecycle.AddOutlivesShutdown` | libyaaf/context.cpp:235-250 | a run in which an add commits after the shutdown, so that its actor is registered and never gets on_stop |
| `Lifecycle.AddIsThreeSteps` | libyaaf/context.cpp:284-334 | the uninterrupted add is a run of reserve, lookup and commit, with the new description, path and mailbox spelled out |
| `Lifecycle.OtherMailboxesKept` | libyaaf/context.cpp:320-329 | a commit makes one empty mailbox, a stop removes those of its subtree, and no section touches the messages in any other |
| `Dispatch.StepKeepsSafe` | libyaaf/actor.cpp:34-67 | flags and their owners correspond one to one, whatever step is taken |
| `Dispatch.OneApplyPerActor` | libyaaf/actor.cpp:34-67 | in every interleaving: one unreleased apply task per actor object, mailboxes FIFO and at most once, no posted task finds its mailbox empty |
| `Dispatch.HandledGrows` | libyaaf/actor.cpp:45-55 | the envelopes handled so far are never handled again, also not after an exception |
| `Dispatch.SentIsHandedOrWaiting` | libyaaf/actor.cpp:45-50 | over any run, the envelopes sent to an actor are those its handler was given, in order, followed by those waiting |
| `Dispatch.OwnerCanMove` | libyaaf/actor.cpp:34-56 | whoever holds a busy flag can go on, unless its task was dropped |
| `Dispatch.RegisteredUntilRemoved` | libyaaf/context.cpp:434-454 | an id keeps its actor object; it takes messages until it is removed from the registry and none after that |
| `Dispatch.DropsOnlyWhenStopping` | libyaaf/utils/async/thread_pool.cpp:26-44 | tasks are dropped only after the stop has begun, and none is posted from then on |
| `Dispatch.ScanCompletes` | libyaaf/context.cpp:575-603 | for every live actor at the end of a scan: messages without an outstanding task that will pop them exactly if it was missed, otherwise exactly one such task; with no task outstanding the non-empty mailboxes are the missed ones |
| `Dispatch.MissedBecause` | libyaaf/context.cpp:575-603 | over a whole scan, interleaved with anything: messages are left without a task if and only if they were passed while the flag was held idly, or given up by an exception or a dropped task after the pass, or sent after the pass with no task; otherwise exactly one task |
| `Dispatch.ThrowStrands` | libyaaf/actor.cpp:51-55 | a run in which a handler exception leaves a message behind a completed scan |
| `Dispatch.LateSendStrands` | libyaaf/actor.cpp:46-50 | a run in which a message between the last pop and the release is left behind a completed scan |
| `ActorObject.Mailbox.TryPop` | libyaaf/mailbox.h:38-47 | takes the oldest envelope, or reports emptiness |
| `ActorObject.BaseActor.Apply` | libyaaf/actor.cpp:34-56 | handles in order up to and including the first envelope that throws, releases the flag, sets the status |
| `ExchangeRuns.ReceivesExactly` | libyaaf/context.cpp:549-568 | over a whole run a live actor has received the drained publications in order, each once per entry made in time |
| `ExchangeRuns.SubscriberSegment` | libyaaf/context.cpp:356-388 | with one subscription: exactly the part of the publish log not yet drained when it was made; with k: k times each |
| `ExchangeRuns.DrainedAllDelivers` | libyaaf/context.cpp:553-563 | popping an exchange empty step by step delivers what the sequential drain delivers |
| `ExchangeRuns.CollectableIsStable` | libyaaf/context.cpp:604-622 | over a run without a live subscription, whatever else is created or published, it stays collectable with the owner it had, and the next collection removes it |
| `ExchangeRuns.CollectKeepsWanted` | libyaaf/context.cpp:604-622 | a collection keeps an exchange, unchanged, exactly while its owner or a subscriber is registered |
| `ExchangeRuns.RunRecords` | libyaaf/context.cpp:336-388 | what an exchange records is what the steps did: its publications, one entry per subscription of a registered actor with what had been drained by then, the pops, and the owner it started with |
| `ExchangeRuns.StartsEmpty` | libyaaf/context.cpp:341-373 | a new exchange belongs to its creator or first subscriber and starts empty |
| `ExchangeRuns.LivesUntilRemoved` | libyaaf/context.cpp:466-487 | a registered actor stays so until it is removed, and never comes back |
| `TaskQueue.TaskWrapper.Apply` | libyaaf/utils/async/task.cpp:24-34 | completion is signalled exactly when the task returns SINGLE, and not undone by a REPEAT |
| `TaskQueue.Pool.Take` | libyaaf/utils/async/thread_pool.cpp:90-104 | takes the first DEFAULT task or, if there is none, the first task; keeps the order of the rest and counts the thread |
| `TaskQueue.Pool.OnlyWorkers` | libyaaf/utils/async/thread_pool.cpp:50-58 | the queue test of flush |
| `ThreadPool.StepKeepsInv` | libyaaf/utils/async/thread_pool.cpp:75-124 | every step of a thread, post, flush or stop conserves each task and keeps the counter exact |
| `ThreadPool.ExactlyOnePlace` | libyaaf/utils/async/thread_pool.cpp:75-124 | a posted task is queued once, or held by one thread, or finished; the counter is the number of threads between take and decrement |
| `ThreadPool.FlushWaitsForAll` | libyaaf/utils/async/thread_pool.cpp:46-65 | when flush decides to return, no task is held and every DEFAULT task ever posted has returned SINGLE |
| `ThreadPool.FlusherLetsGo` | libyaaf/utils/async/thread_pool.cpp:46-65 | a flusher that found no DEFAULT task queued returns exactly if no thread is counted, and releases the lock either way |
| `ThreadPool.StillWaiting` | libyaaf/utils/async/thread_pool.cpp:67-104 | with k DEFAULT tasks ahead, after n takes it waits with k - n ahead, whatever is pushed |
| `ThreadPool.BoundedWaiting` | libyaaf/utils/async/thread_pool.cpp:91-104 | the (k+1)-th take picks it |
| `ThreadPool.WorkersGoThroughQueue` | libyaaf/utils/async/thread_pool.cpp:113-119 | each application of a WORKER task has a take of its own, at every such take no DEFAULT task was queued, and the first WORKER task was taken |
| `ThreadPool.RepeatsOnlyIfAlone` | libyaaf/utils/async/thread_pool.cpp:107-121 | over any run: after REPEAT the thread applies the task again at once if and only if it found the queue empty, no stop and a DEFAULT task; otherwise it pushes the task to the end of the queue |
| `ThreadPool.OthersComeFirst` | libyaaf/utils/async/thread_pool.cpp:107-121 | if the look found another task queued, what the thread applies next it has taken from the queue after the look |
| `ThreadPool.QueueOrder` | libyaaf/utils/async/thread_pool.cpp:67-104 | posts and push-backs add at the end, a take removes one task and keeps the order of the others, nothing else changes the queue |
| `ThreadPool.RunRecords` | libyaaf/utils/async/thread_pool.cpp:107-121 | the finished tasks are those whose application returned SINGLE, the posted ones those that were posted |
| `ThreadPool.ExitsOnlyOnStop` | libyaaf/utils/async/thread_pool.cpp:80-88 | a thread leaves only after a stop was requested, and a requested stop stays |
| `ThreadPool.WaitingThreadCanTake` | libyaaf/utils/async/thread_pool.cpp:82-104 | a waiting thread with a non-empty queue and no stop has exactly one take it can make |
| `ThreadPool.StopIsBounded` | libyaaf/utils/async/thread_pool.cpp:34-44 | after the stop flag: no take, at most one more application per thread, at most as many as threads in all, at most six steps per thread |
| `ThreadPool.StoppedThreadCanMove` | libyaaf/utils/async/thread_pool.cpp:80-123 | after the stop flag no thread is stuck before its exit |
| `ThreadPool.StuckOnlyWithoutWork` | libyaaf/utils/async/thread_pool.cpp:80-123 | while no flusher holds the lock, a thread that has not left can move unless it waits before an empty queue without a stop |
| `Locks.NoDeadlock` | libyaaf/context_network.cpp:179-181 | in every reachable state with a blocked thread, some thread holding a lock can move |
| `Locks.NoRace` | libyaaf/context.cpp:336-388 | in every reachable state no two threads touch the same guarded data with one of them writing it |
| `Codec.DigitsValue` | libyaaf/serialization/helpers.h:33-36 | the header bytes stand for the length modulo 2^32 |
| `Codec.ReadsModuloLimit` | libyaaf/serialization/helpers.h:58-74 | a string or byte vector is read back as its first (length mod 2^32) bytes |
| `Codec.FieldRoundTrip` | libyaaf/serialization/helpers.h:27-74 | one field survives exactly when its length fits the header |
| `Codec.RoundTrip` | libyaaf/serialization/helpers.h:88-110 | any list of fields, in any buffer that begins with its encoding, is read back and exactly consumed if and only if every length fits |
| `Codec.FieldsLie` | libyaaf/serialization/helpers.h:27-47 | in an encoded list each field lies where the one before it ends: a string or byte vector behind the four bytes of its length, least significant first |
| `Codec.FieldsRead` | libyaaf/serialization/helpers.h:51-74 | a decoded list is, field by field, what lies where the one before it ends, delimited by the length found there |
| `Codec.WriteField` | libyaaf/serialization/helpers.h:27-47 | changes exactly the bytes of the field, laid out as above |
| `Codec.WriteArgs` | libyaaf/serialization/helpers.h:88-98 | changes exactly the bytes of the list's encoding |
| `Codec.Capacity` | libyaaf/serialization/helpers.h:77-86 | the number of bytes a write changes, which is the sum of the fields' sizes |
| `Codec.ReadField` | libyaaf/serialization/helpers.h:51-74 | reads the bytes that the layout says; agrees with the decoding function whenever the announced bytes are there |
| `Codec.ReadArgs` | libyaaf/serialization/helpers.h:100-110 | the same for a list, read through an advancing position |
| `Codec.Pack` | libyaaf/context_network.h:33-35 | by position: the length of the name, the name, the length of the data, the data; the rest of the buffer as it was |
| `Codec.Unpack` | libyaaf/context_network.h:37-41 | by position: the name that the first length delimits, then the data that the length behind it delimits |
| `Codec.MessageRoundTrip` | libyaaf/context_network.h:26-42 | what is read where a message lies is that message exactly when both lengths are below 2^32 |
| `Codec.Transmit` | libyaaf/context_network.h:26-42 | capacity, pack and unpack in a row give the message back |

## Left out

- Network listeners and connections: they call an asynchronous I/O library; only the lock their stop hooks take is modelled.
- `libyaaf/network/queries.h`: thin wrappers around the codec and a message type of that library.
- Payload type erasure: a payload is an opaque value, a handler an oracle that returns or throws.
- `on_init`, `on_start` and actor settings: settings are only passed on; the task that calls `on_start` does not take the busy flag.
- Actor status after `on_stop`: a running apply task may overwrite STOPED, so nothing is claimed about it beyond one apply.
- `task_result` and its condition variable: whether a waiter wakes depends on memory order; the model records which tasks returned SINGLE.
- `thread_manager`, `user_context`, logger, exception and string helpers: forwarding, output or only easy claims.
- Descriptions and mailboxes held by shared pointers: the maps hold values; that a task keeps a removed mailbox alive is modelled in `Dispatch.dfy` by mailboxes that outlive their registration.
- Codec.ReadField: does not model reads behind the end of the buffer, which the original performs unchecked; the contract asks that the announced bytes are there.
- Codec.ReadArgs: the same, for the whole list.
- Reader-writer locks that queue readers behind a waiting writer: a lock is available when no conflicting holder exists.
- Fairness and termination of handlers: no claim that a message is eventually handled.
