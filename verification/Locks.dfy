/** The two context locks, `_locker` (here Registry) and `_exchange_locker` (here Exchange), taken by any number of
    threads running the operations of the context in any order. Both are reader-writer locks. */
module Locks {

  datatype Lock = RegistryLock | ExchangeLock

  datatype Mode = Free | Shared | Exclusive

  /** Where a thread is, operation by operation. `Want` blocks, `Try` does not. */
  datatype Pc =
    | Idle
    // lookups, sends, the parent lookup of an add, the escalation climb
    | WantRead | Read
    // commit of an add, stops; a network actor's stop hook takes the exchange lock inside
    | WantWrite | Write | HookWant | Hook
    // create_exchange
    | WantCreate | Create
    // publish_to_exchange, exchange_exists
    | WantPublish | Publish
    // subscribe_to_exchange: std::lock blocks on one lock and tries the other, backing off on failure
    | SubWantExchange | SubTryRegistry | SubWantRegistry | SubTryExchange | SubHoldBoth
    // the worker: drain, scan with collection, removal of mailboxes
    | DrainTryExchange | DrainTryRegistry | DrainBoth | DrainLeave
    | ScanTryRegistry | Scan | ScanBoth | ScanLeave
    | RemoveTryRegistry | Remove

  function Holds(pc: Pc, lock: Lock): Mode {
    match lock
    case RegistryLock =>
      if pc in {Read, Scan, ScanBoth, ScanLeave} then Shared
      else if pc in {Write, HookWant, Hook, SubTryExchange, SubHoldBoth, DrainBoth, Remove} then Exclusive
      else Free
    case ExchangeLock =>
      if pc in {Publish, DrainTryRegistry, DrainBoth, DrainLeave} then Shared
      else if pc in {Hook, Create, SubTryRegistry, SubHoldBoth, ScanBoth} then Exclusive
      else Free
  }

  /** The lock a thread is blocked on until it is available. */
  predicate Wants(pc: Pc, lock: Lock) {
    match lock
    case RegistryLock => pc in {WantRead, WantWrite, SubWantRegistry}
    case ExchangeLock => pc in {HookWant, WantCreate, WantPublish, SubWantExchange}
  }

  /** The control flow of the operations. A failed try takes the edge that gives up. */
  predicate Edge(pc: Pc, next: Pc) {
    match pc
    case Idle => next in {WantRead, WantWrite, WantCreate, WantPublish, SubWantExchange, SubWantRegistry, DrainTryExchange}
    case WantRead => next == Read
    case Read => next == Idle
    case WantWrite => next == Write
    case Write => next in {HookWant, Idle}
    case HookWant => next == Hook
    case Hook => next == Write
    case WantCreate => next == Create
    case Create => next == Idle
    case WantPublish => next == Publish
    case Publish => next == Idle
    case SubWantExchange => next == SubTryRegistry
    case SubTryRegistry => next in {SubHoldBoth, SubWantRegistry}
    case SubWantRegistry => next == SubTryExchange
    case SubTryExchange => next in {SubHoldBoth, SubWantExchange}
    case SubHoldBoth => next == Idle
    case DrainTryExchange => next in {DrainTryRegistry, ScanTryRegistry}
    case DrainTryRegistry => next in {DrainBoth, DrainLeave}
    case DrainBoth => next == DrainLeave
    case DrainLeave => next == ScanTryRegistry
    case ScanTryRegistry => next in {Scan, Idle}
    case Scan => next in {ScanBoth, ScanLeave}
    case ScanBoth => next == ScanLeave
    case ScanLeave => next in {RemoveTryRegistry, Idle}
    case RemoveTryRegistry => next in {Remove, Idle}
    case Remove => next == Idle
  }

  predicate Conflict(a: Mode, b: Mode) {
    a != Free && b != Free && (a == Exclusive || b == Exclusive)
  }

  type State = seq<Pc>

  /** A thread may hold `lock` as at `next` while the others stay where they are. */
  ghost predicate Available(s: State, i: nat, next: Pc, lock: Lock) {
    forall j :: 0 <= j < |s| && j != i ==> !Conflict(Holds(next, lock), Holds(s[j], lock))
  }

  ghost predicate CanMove(s: State, i: nat, next: Pc) {
    && i < |s|
    && Edge(s[i], next)
    && Available(s, i, next, RegistryLock)
    && Available(s, i, next, ExchangeLock)
  }

  ghost predicate Blocked(s: State, i: nat) {
    i < |s| && (Wants(s[i], RegistryLock) || Wants(s[i], ExchangeLock)) && forall next :: !CanMove(s, i, next)
  }

  datatype Step = Step(i: nat, next: Pc)

  ghost predicate ValidRun(s: State, steps: seq<Step>)
    decreases |steps|
  {
    steps == [] || (CanMove(s, steps[0].i, steps[0].next) && ValidRun(s[steps[0].i := steps[0].next], steps[1..]))
  }

  ghost function Final(s: State, steps: seq<Step>): State
    requires ValidRun(s, steps)
    decreases |steps|
  {
    if steps == [] then s else Final(s[steps[0].i := steps[0].next], steps[1..])
  }

  ghost predicate Initial(s: State) {
    forall i :: 0 <= i < |s| ==> s[i] == Idle
  }

  /** Reader-writer exclusion on both locks. */
  ghost predicate Compatible(s: State) {
    forall i, j, lock :: 0 <= i < |s| && 0 <= j < |s| && i != j ==> !Conflict(Holds(s[i], lock), Holds(s[j], lock))
  }

  lemma {:induction false} RunKeepsCompatible(s: State, steps: seq<Step>)
    requires Compatible(s) && ValidRun(s, steps)
    ensures Compatible(Final(s, steps)) && |Final(s, steps)| == |s|
    decreases |steps|
  {
    if steps != [] {
      var i, next := steps[0].i, steps[0].next;
      var s' := s[i := next];
      forall a, b, lock | 0 <= a < |s'| && 0 <= b < |s'| && a != b
        ensures !Conflict(Holds(s'[a], lock), Holds(s'[b], lock))
      {
        assert Available(s, i, next, lock);
      }
      RunKeepsCompatible(s', steps[1..]);
    }
  }

  /** The lock order: nobody blocks on the registry lock while holding anything, and whoever holds the
      exchange lock does not block at all. */
  lemma {:induction false} LockOrder(pc: Pc)
    ensures Wants(pc, RegistryLock) ==> Holds(pc, RegistryLock) == Free && Holds(pc, ExchangeLock) == Free
    ensures Holds(pc, ExchangeLock) != Free ==> !Wants(pc, RegistryLock) && !Wants(pc, ExchangeLock)
  {
  }

  /** The edge by which a lock holder that is not waiting gives up a lock. */
  function WayOut(pc: Pc): Pc {
    match pc
    case Hook => Write
    case SubTryRegistry => SubWantRegistry
    case SubTryExchange => SubWantExchange
    case DrainTryRegistry => DrainLeave
    case DrainBoth => DrainLeave
    case DrainLeave => ScanTryRegistry
    case Scan => ScanLeave
    case ScanBoth => ScanLeave
    case _ => Idle
  }

  /** A lock holder that is not waiting can move: the way out needs no further lock. */
  lemma {:induction false} HolderMoves(s: State, k: nat)
    requires Compatible(s) && k < |s|
    requires Holds(s[k], RegistryLock) != Free || Holds(s[k], ExchangeLock) != Free
    requires !Wants(s[k], RegistryLock) && !Wants(s[k], ExchangeLock)
    ensures CanMove(s, k, WayOut(s[k]))
  {
    var next := WayOut(s[k]);
    assert Edge(s[k], next);
    forall lock
      ensures Available(s, k, next, lock)
    {
      assert Holds(next, lock) == Free || Holds(next, lock) == Holds(s[k], lock);
    }
  }

  /** Where a waiting thread goes on. */
  function Granted(pc: Pc): Pc {
    match pc
    case WantRead => Read
    case WantWrite => Write
    case SubWantRegistry => SubTryExchange
    case HookWant => Hook
    case WantCreate => Create
    case WantPublish => Publish
    case SubWantExchange => SubTryRegistry
    case _ => pc
  }

  /** A blocked thread has an adversary holding the lock it wants. */
  lemma {:induction false} Adversary(s: State, i: nat) returns (j: nat)
    requires Compatible(s) && Blocked(s, i)
    ensures j < |s| && j != i
    ensures Wants(s[i], RegistryLock) ==> Holds(s[j], RegistryLock) != Free
    ensures Wants(s[i], ExchangeLock) ==> Holds(s[j], ExchangeLock) != Free
  {
    var lock := if Wants(s[i], RegistryLock) then RegistryLock else ExchangeLock;
    var other := if lock == RegistryLock then ExchangeLock else RegistryLock;
    var next := Granted(s[i]);
    assert Edge(s[i], next) && !CanMove(s, i, next);
    assert Holds(next, other) == Holds(s[i], other);
    assert Available(s, i, next, other);
    assert !Available(s, i, next, lock);
    j :| 0 <= j < |s| && j != i && Conflict(Holds(next, lock), Holds(s[j], lock));
  }

  /** Deadlock freedom: in every reachable state with a blocked thread, some thread holding a lock can move. */
  lemma {:induction false} NoDeadlock(s0: State, steps: seq<Step>, i: nat) returns (k: nat, next: Pc)
    requires Initial(s0) && ValidRun(s0, steps) && Blocked(Final(s0, steps), i)
    ensures var s := Final(s0, steps);
      && CanMove(s, k, next)
      && (Holds(s[k], RegistryLock) != Free || Holds(s[k], ExchangeLock) != Free)
  {
    RunKeepsCompatible(s0, steps);
    var s := Final(s0, steps);
    k := Adversary(s, i);
    if Wants(s[k], RegistryLock) || Wants(s[k], ExchangeLock) {
      LockOrder(s[k]);
      if Blocked(s, k) {
        k := Adversary(s, k);
      } else {
        next :| CanMove(s, k, next);
        return;
      }
    }
    LockOrder(s[k]);
    HolderMoves(s, k);
    next := WayOut(s[k]);
  }

  /** What the code at a place does with the data behind each lock: read it (Shared), write it (Exclusive), or
      neither. The registry is the maps of actors, names and mailboxes; the exchange lock guards the table of
      exchanges and the network listeners. */
  function Touches(pc: Pc, data: Lock): Mode {
    match pc
    case Read => if data == RegistryLock then Shared else Free
    case Write => if data == RegistryLock then Exclusive else Free
    case Hook => if data == ExchangeLock then Exclusive else Free
    case Create => if data == ExchangeLock then Exclusive else Free
    case Publish => if data == ExchangeLock then Shared else Free
    case SubHoldBoth => if data == ExchangeLock then Exclusive else Shared
    case DrainBoth => Shared
    case Scan => if data == RegistryLock then Shared else Free
    case ScanBoth => if data == ExchangeLock then Exclusive else Shared
    case Remove => if data == RegistryLock then Exclusive else Free
    case _ => Free
  }

  /** No data race: in every reachable state no two threads touch the same data, one of them writing it. */
  lemma {:induction false} NoRace(s0: State, steps: seq<Step>, i: nat, j: nat, data: Lock)
    requires Initial(s0) && ValidRun(s0, steps) && i < |s0| && j < |s0| && i != j
    ensures |Final(s0, steps)| == |s0|
    ensures !Conflict(Touches(Final(s0, steps)[i], data), Touches(Final(s0, steps)[j], data))
  {
    RunKeepsCompatible(s0, steps);
    var s := Final(s0, steps);
    Covered(s[i], data);
    Covered(s[j], data);
    assert !Conflict(Holds(s[i], data), Holds(s[j], data));
  }

  /** Whoever touches data holds its lock, exclusively if it writes. */
  lemma {:induction false} Covered(pc: Pc, data: Lock)
    ensures Touches(pc, data) != Free ==> Holds(pc, data) != Free
    ensures Touches(pc, data) == Exclusive ==> Holds(pc, data) == Exclusive
  {
  }
}
