/** The chain of supervisors above an actor and the answers they give when a child fails. */
module Escalation {
  import opened Types
  import opened Registry

  /** `on_child_error`, taken as a deterministic function of the asked actor and the child's address. */
  type ErrorHook = (ActorRef, Address) -> ErrorAction

  /** The ids met when climbing parent links from `p`, oldest last; it stops at a missing id. */
  ghost function Chain(actors: Actors, p: Id): (chain: seq<Id>)
    ensures forall x <- chain :: x in actors
    decreases p
  {
    if p !in actors then []
    else [p] + if actors[p].parent < p then Chain(actors, actors[p].parent) else []
  }

  /** Whose failure the `i`-th supervisor of `d` is asked about: `d` itself, then the supervisor below. */
  ghost function Subject(actors: Actors, d: Description, i: nat): Address
    requires i <= |Chain(actors, d.parent)|
  {
    if i == 0 then d.address else actors[Chain(actors, d.parent)[i - 1]].address
  }

  ghost function Answer(actors: Actors, hook: ErrorHook, d: Description, i: nat): ErrorAction
    requires i < |Chain(actors, d.parent)|
  {
    hook(actors[Chain(actors, d.parent)[i]].actor, Subject(actors, d, i))
  }

  /** Supervisor `k` is the first one that does not escalate. */
  ghost predicate DecidesAt(actors: Actors, hook: ErrorHook, d: Description, k: nat) {
    && k < |Chain(actors, d.parent)|
    && Answer(actors, hook, d, k) != Escalate
    && forall j: nat :: j < k ==> Answer(actors, hook, d, j) == Escalate
  }

  /** Some registered supervisor of the chain does not escalate. */
  ghost predicate Decided(actors: Actors, hook: ErrorHook, d: Description) {
    exists j: nat :: j < |Chain(actors, d.parent)| && Answer(actors, hook, d, j) != Escalate
  }

  /** The first `n` questions of a climb. */
  ghost function Asks(actors: Actors, d: Description, n: nat): (events: seq<Event>)
    requires n <= |Chain(actors, d.parent)|
    ensures |events| == n
  {
    seq(n, i requires 0 <= i < n => OnChildError(actors[Chain(actors, d.parent)[i]].actor, Subject(actors, d, i)))
  }

  ghost predicate NeverEscalates(actors: Actors, hook: ErrorHook, g: Id)
    requires g in actors
  {
    forall child :: hook(actors[g].actor, child) != Escalate
  }

  /** Every actor without a parent decides. */
  ghost predicate RootsDecide(actors: Actors, hook: ErrorHook) {
    forall g <- actors :: actors[g].parent == EMPTY_ID ==> NeverEscalates(actors, hook, g)
  }

  /** The guardian's answer is always RESUME, so in a started context every actor without a parent decides. */
  lemma {:induction false} GuardianDecides(actors: Actors, hook: ErrorHook)
    requires OnlyRoot(actors) && (ROOT in actors ==> forall child :: hook(actors[ROOT].actor, child) == Resume)
    ensures RootsDecide(actors, hook)
  {
    forall g | g in actors && actors[g].parent == EMPTY_ID
      ensures NeverEscalates(actors, hook, g)
    {
      assert g == ROOT;
    }
  }

  /** The chain of a live supervisor is made of parent links and ends at an actor whose parent is not registered. */
  lemma {:induction false} ChainShape(actors: Actors, p: Id)
    requires Linked(actors) && p in actors
    ensures var chain := Chain(actors, p);
      && |chain| > 0 && chain[0] == p
      && (forall i :: 0 <= i < |chain| - 1 ==> actors[chain[i]].parent == chain[i + 1])
      && actors[chain[|chain| - 1]].parent !in actors
    decreases p
  {
    assert NodeOk(actors, p);
    var q := actors[p].parent;
    assert q == EMPTY_ID && q in actors ==> NodeOk(actors, q);
    if q in actors {
      ChainShape(actors, q);
      assert Chain(actors, p) == [p] + Chain(actors, q);
    }
  }

  /** Whom a climb looks up after `i` answers: the next of the chain, or nobody at its end. */
  lemma {:induction false} NextAsked(actors: Actors, d: Description, i: nat)
    requires Linked(actors) && i <= |Chain(actors, d.parent)|
    ensures var chain := Chain(actors, d.parent);
      var next := (if i == 0 then d else actors[chain[i - 1]]).parent;
      if i < |chain| then next == chain[i] else next !in actors
  {
    if d.parent in actors {
      ChainShape(actors, d.parent);
    }
  }

  /** The state of a climb after `i` answers, the last of which is `action`. */
  ghost predicate Climbed(actors: Actors, hook: ErrorHook, d: Description, i: nat, descr: Description, action: ErrorAction) {
    && i <= |Chain(actors, d.parent)|
    && descr == (if i == 0 then d else actors[Chain(actors, d.parent)[i - 1]])
    && action == (if i == 0 then Escalate else Answer(actors, hook, d, i - 1))
    && forall j: nat :: j + 1 < i ==> Answer(actors, hook, d, j) == Escalate
  }

  /** One more question, to the parent of the actor asked last. */
  lemma {:induction false} ClimbOn(actors: Actors, hook: ErrorHook, d: Description, i: nat, descr: Description)
    requires Linked(actors) && Climbed(actors, hook, d, i, descr, Escalate) && descr.parent in actors
    ensures var parent := actors[descr.parent];
      && Climbed(actors, hook, d, i + 1, parent, hook(parent.actor, descr.address))
      && Asks(actors, d, i + 1) == Asks(actors, d, i) + [OnChildError(parent.actor, descr.address)]
  {
    NextAsked(actors, d, i);
    assert descr.address == Subject(actors, d, i);
  }

  /** Nobody is left to be asked exactly when everybody has escalated. */
  lemma {:induction false} ClimbEnds(actors: Actors, hook: ErrorHook, d: Description, i: nat, descr: Description)
    requires Linked(actors) && Climbed(actors, hook, d, i, descr, Escalate) && descr.parent !in actors
    ensures i == |Chain(actors, d.parent)| && !Decided(actors, hook, d)
  {
    NextAsked(actors, d, i);
  }

  /** The questions of a climb, one by one: supervisor `j` of the chain is asked about the one below it, and the
      first about the actor that failed; each answer but the last is ESCALATE, and the last is `action`. */
  ghost predicate AskedInTurn(actors: Actors, hook: ErrorHook, d: Description, events: seq<Event>, action: ErrorAction) {
    var chain := Chain(actors, d.parent);
    && |events| <= |chain|
    && (forall j :: 0 <= j < |events| ==>
          events[j] == OnChildError(actors[chain[j]].actor, if j == 0 then d.address else actors[chain[j - 1]].address))
    && (forall j :: 0 <= j < |events| - 1 ==> events[j].OnChildError? && hook(events[j].asked, events[j].child) == Escalate)
    && if events == [] then action == Escalate
       else var last := events[|events| - 1]; last.OnChildError? && action == hook(last.asked, last.child)
  }

  lemma {:induction false} AsksAt(actors: Actors, hook: ErrorHook, d: Description, n: nat, j: nat)
    requires j < n <= |Chain(actors, d.parent)|
    ensures var chain, e := Chain(actors, d.parent), Asks(actors, d, n)[j];
      && e == OnChildError(actors[chain[j]].actor, if j == 0 then d.address else actors[chain[j - 1]].address)
      && hook(e.asked, e.child) == Answer(actors, hook, d, j)
  {
  }

  lemma {:induction false} InTurn(actors: Actors, hook: ErrorHook, d: Description, n: nat, action: ErrorAction)
    requires n <= |Chain(actors, d.parent)|
    requires forall j: nat :: j + 1 < n ==> Answer(actors, hook, d, j) == Escalate
    requires action == if n == 0 then Escalate else Answer(actors, hook, d, n - 1)
    ensures AskedInTurn(actors, hook, d, Asks(actors, d, n), action)
  {
    var chain, events := Chain(actors, d.parent), Asks(actors, d, n);
    forall j | 0 <= j < n
      ensures events[j] == OnChildError(actors[chain[j]].actor, if j == 0 then d.address else actors[chain[j - 1]].address)
    {
      AsksAt(actors, hook, d, n, j);
    }
    forall j | 0 <= j < n - 1
      ensures events[j].OnChildError? && hook(events[j].asked, events[j].child) == Escalate
    {
      AsksAt(actors, hook, d, n, j);
    }
    if n > 0 {
      AsksAt(actors, hook, d, n, n - 1);
    }
  }

  lemma {:induction false} DecidedInTurn(actors: Actors, hook: ErrorHook, d: Description, k: nat)
    requires DecidesAt(actors, hook, d, k)
    ensures AskedInTurn(actors, hook, d, Asks(actors, d, k + 1), Answer(actors, hook, d, k))
  {
    InTurn(actors, hook, d, k + 1, Answer(actors, hook, d, k));
  }

  lemma {:induction false} UndecidedInTurn(actors: Actors, hook: ErrorHook, d: Description)
    requires !Decided(actors, hook, d)
    ensures AskedInTurn(actors, hook, d, Asks(actors, d, |Chain(actors, d.parent)|), Escalate)
  {
    InTurn(actors, hook, d, |Chain(actors, d.parent)|, Escalate);
  }

  lemma {:induction false} ClimbDecides(actors: Actors, hook: ErrorHook, d: Description, i: nat, descr: Description, action: ErrorAction)
    requires Climbed(actors, hook, d, i, descr, action) && action != Escalate
    ensures i > 0 && DecidesAt(actors, hook, d, i - 1) && action == Answer(actors, hook, d, i - 1) && Decided(actors, hook, d)
  {
  }

  /** With no orphan on the chain and with roots that decide, a climb is decided exactly when it can start. */
  lemma {:induction false} SomeoneDecides(actors: Actors, hook: ErrorHook, d: Description)
    requires Linked(actors) && RootsDecide(actors, hook)
    requires forall x <- Chain(actors, d.parent) :: !Orphan(actors, x)
    ensures Decided(actors, hook, d) <==> d.parent in actors
  {
    if d.parent in actors {
      ChainShape(actors, d.parent);
      var n := |Chain(actors, d.parent)|;
      var top := Chain(actors, d.parent)[n - 1];
      assert top in Chain(actors, d.parent) && actors[top].parent == EMPTY_ID;
      assert NeverEscalates(actors, hook, top);
      assert Answer(actors, hook, d, n - 1) != Escalate;
    }
  }
}
