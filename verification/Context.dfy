/** The context object (`libyaaf/context.cpp`), run without interference. A method is one lock-protected
    section of the original or a loop of one; `AddActor`, `Start`, `Decide`, `HandleFailure` and `AfterApply`
    are uninterrupted compositions of several. Unordered containers are iterated in an arbitrary order.
    Hooks called on actors are recorded in `log`. */
module ContextObject {
  import opened Types
  import opened Registry
  import opened Supervision
  import opened Escalation
  import opened Exchanges
  import opened Counting

  /** An apply task handed to the user pool by the mailbox worker. */
  datatype ApplyTask = ApplyTask(target: Id, actor: ActorRef, parent: Option<ActorRef>)

  class Context {
    var actors: Actors
    var idByName: map<string, Id>
    var mboxes: map<Id, seq<Envelope>>
    var nextId: nat
    var usrRoot: Id
    var exchanges: Table
    var busy: set<ActorRef>
    var posted: seq<ApplyTask>
    var log: seq<Event>

    ghost function Reg(): Registry
      reads this
    {
      Registry(actors, idByName, mboxes, nextId)
    }

    ghost predicate Valid()
      reads this
    {
      WellFormed(Reg())
    }

    /** Every add goes below somebody, and only the root guardian is without a parent. */
    ghost predicate Guarded()
      reads this
    {
      usrRoot != NO_ADDRESS && OnlyRoot(actors)
    }

    constructor ()
      ensures Valid() && actors == map[] && nextId == 1 && usrRoot == NO_ADDRESS
      ensures exchanges == map[] && busy == {} && posted == [] && log == [] && idByName == map[]
    {
      actors, idByName, mboxes, nextId, usrRoot := map[], map[], map[], 1, NO_ADDRESS;
      exchanges, busy, posted, log := map[], {}, [], [];
    }

    /** An empty parent address stands for the user guardian, if there is one already. */
    function Supervisor(parent: Id): Id
      reads this`usrRoot
    {
      if parent == NO_ADDRESS then usrRoot else parent
    }

    /** `add_actor` without interference: the supervisor must be registered, since the original
        dereferences its description. */
    method AddActor(leaf: string, parent: Id, actor: ActorRef) returns (address: Address)
      requires Valid() && nextId < EMPTY_ID
      requires Supervisor(parent) == NO_ADDRESS || Supervisor(parent) in actors
      modifies `actors, `idByName, `mboxes, `nextId
      ensures Valid()
      ensures address.id == old(nextId) && address.id !in old(actors)
      ensures address.path == (if Supervisor(parent) == NO_ADDRESS then "" else old(actors)[Supervisor(parent)].name) + "/" + leaf
      ensures mboxes == old(mboxes)[address.id := []] && idByName == old(idByName)[address.path := address.id]
      ensures nextId == old(nextId) + 1 && actors.Keys == old(actors).Keys + {address.id}
      ensures actors[address.id].actor == actor && actors[address.id].address == address
      ensures actors[address.id].name == address.path && actors[address.id].children == {}
      ensures actors[address.id].parent == if Supervisor(parent) == NO_ADDRESS then EMPTY_ID else Supervisor(parent)
      ensures forall x <- old(actors) :: x != Supervisor(parent) ==> actors[x] == old(actors)[x]
      ensures Supervisor(parent) in old(actors) ==>
        actors[Supervisor(parent)] ==
          old(actors)[Supervisor(parent)].(children := old(actors)[Supervisor(parent)].children + {address.id})
      ensures Reg() == Committed(old(Reg()).(nextId := old(nextId) + 1), address.id, actor, Supervisor(parent), address.path)
      ensures old(NoOrphans(actors)) ==> NoOrphans(actors)
      ensures old(Guarded()) ==> Guarded()
    {
      var newId := nextId;
      nextId := nextId + 1;
      var current := if parent == NO_ADDRESS then usrRoot else parent;
      var parentName := "";
      var d := Description(actor, Address(newId, ""), "", EMPTY_ID, {});
      if current != NO_ADDRESS {
        d := d.(parent := current);
        parentName := actors[current].name;
      }
      d := d.(name := parentName + "/" + leaf);
      d := d.(address := Address(newId, d.name));
      ghost var before := Reg();
      AddIsDue(before, newId, actor, current, d.name);
      if current != NO_ADDRESS {
        actors := actors[current := actors[current].(children := actors[current].children + {newId})];
      }
      actors := actors[newId := d];
      idByName := idByName[d.name := newId];
      mboxes := mboxes[newId := []];
      address := d.address;
      assert Reg() == Committed(before, newId, actor, current, d.name);
      CommitEffect(before, newId, actor, current, d.name);
    }

    /** `start`: the three guardians. In a new context the root is from here on the only actor without a parent;
        an actor added earlier has none either. */
    method Start(root: ActorRef, usr: ActorRef, sys: ActorRef)
      requires Valid() && nextId + 3 <= EMPTY_ID && usrRoot == NO_ADDRESS
      modifies `actors, `idByName, `mboxes, `nextId, `usrRoot
      ensures Valid() && (old(NoOrphans(actors)) ==> NoOrphans(actors))
      ensures usrRoot == old(nextId) + 1 && nextId == old(nextId) + 3
      ensures GuardiansAdded(old(actors), actors, old(nextId), root, usr, sys)
      ensures old(actors) == map[] && old(nextId) == ROOT ==> Guarded()
    {
      GuardiansCommitted(Reg(), root, usr, sys);
      ghost var before := Reg();
      var r := AddActor("root", NO_ADDRESS, root);
      assert Reg() == WithRoot(before, root);
      var u := AddActor("usr", r.id, usr);
      assert Reg() == WithGuardian(WithRoot(before, root), r.id, "usr", usr);
      usrRoot := u.id;
      var s := AddActor("sys", r.id, sys);
      assert Reg() == WithGuardian(WithGuardian(WithRoot(before, root), r.id, "usr", usr), r.id, "sys", sys);
    }

    ghost function Left(): Remains
      reads this
    {
      Remains(actors, mboxes, log)
    }

    /** The loop of `stop_actor_impl` over the children set, which may hold dead ids. */
    method StopChildren(id: Id, reason: StoppingReason) returns (ghost order: seq<Id>)
      requires Linked(actors) && id in actors
      modifies `actors, `mboxes, `log
      ensures TornDown(old(Left()), Left(), id, order, reason)
      ensures forall c <- old(actors)[id].children :: c in old(actors) ==> c in order
      decreases EMPTY_ID - id, 0
    {
      ghost var start := Left();
      var children := actors[id].children;
      assert NodeOk(actors, id);
      var todo := children;
      order := [];
      while todo != {}
        invariant todo <= children
        invariant TornDown(start, Left(), id, order, reason)
        invariant forall c <- children - todo :: c in start.actors ==> c in order
      {
        var c :| c in todo;
        todo := todo - {c};
        ghost var mid := Left();
        var more := StopActorImpl(c, reason);
        TearDownChild(start, mid, Left(), id, order, c, more, reason);
        order := order + more;
      }
    }

    /** `stop_actor_impl`. Children sets drive the recursion; parent links state its effect. */
    method StopActorImpl(id: Id, reason: StoppingReason) returns (ghost order: seq<Id>)
      requires Linked(actors)
      modifies `actors, `mboxes, `log
      ensures StoppedInOrder(old(Left()), Left(), id, order, reason)
      ensures StopEvents(old(Left()), Left(), id, reason)
      decreases EMPTY_ID - id, 1
    {
      order := [];
      if id !in actors {
        StopLaw(Left(), Left(), id, order, reason);
        return;
      }
      var desc := actors[id];
      ghost var start := Left();
      order := StopChildren(id, reason);
      ghost var mid := Left();
      log := log + [OnStop(id)];
      if desc.parent != EMPTY_ID {
        if desc.parent in actors {
          log := log + [OnChildStopped(desc.parent, Address(id, NULL_PATH), reason)];
        }
      }
      mboxes := mboxes - {id};
      actors := actors - {id};
      TearDownSelf(start, mid, Left(), id, order, reason);
      order := order + [id];
      StopLaw(start, Left(), id, order, reason);
    }

    /** `stop_actor`: the registry stays well formed. */
    method StopActor(id: Id, reason: StoppingReason) returns (ghost order: seq<Id>)
      requires Valid()
      modifies `actors, `mboxes, `log
      ensures Valid()
      ensures StoppedInOrder(old(Left()), Left(), id, order, reason)
      ensures StopEvents(old(Left()), Left(), id, reason)
      ensures Reg() == Removed(old(Reg()), Subtree(old(actors), id))
      ensures old(NoOrphans(actors)) ==> NoOrphans(actors)
      ensures old(Guarded()) ==> Guarded()
    {
      StopKeepsWellFormed(Reg(), id);
      order := StopActorImpl(id, reason);
    }

    /** The registry part of `stop`: every actor still registered is stopped, in iteration order. */
    method StopContext() returns (order: seq<Id>)
      modifies `actors, `mboxes, `idByName, `log
      ensures multiset(order) == multiset(old(actors).Keys)
      ensures log == old(log) + seq(|order|, i requires 0 <= i < |order| => OnStop(order[i]))
      ensures actors == map[] && mboxes == map[] && idByName == map[]
    {
      order := [];
      var todo := actors.Keys;
      while todo != {}
        invariant actors == old(actors)
        invariant multiset(order) + multiset(todo) == multiset(actors.Keys)
        invariant log == old(log) + seq(|order|, i requires 0 <= i < |order| => OnStop(order[i]))
      {
        var id :| id in todo;
        todo := todo - {id};
        order := order + [id];
        log := log + [OnStop(id)];
      }
      assert multiset(todo) == multiset{};
      actors, mboxes, idByName := map[], map[], map[];
    }

    /** `get_address`: an empty address when the name is unknown or its last owner is gone. */
    method GetAddress(name: string) returns (address: Address)
      requires Valid()
      ensures address == FindAddress(Reg(), name)
      ensures if name in idByName && idByName[name] in actors
              then address == Address(idByName[name], actors[idByName[name]].name)
              else address == Address(NO_ADDRESS, "")
      ensures address.id == NO_ADDRESS || (address.id in actors && address.path == actors[address.id].name)
    {
      address := Address(NO_ADDRESS, "");
      if name in idByName {
        var id := idByName[name];
        if id in actors {
          assert NodeOk(actors, id);
          address := actors[id].address;
        }
      }
    }

    /** `send_envelope`: dropped when the target is not registered. */
    method SendEnvelope(target: Id, e: Envelope)
      modifies `mboxes
      ensures mboxes == if target in old(mboxes) then old(mboxes)[target := old(mboxes)[target] + [e]] else old(mboxes)
    {
      if target in mboxes {
        mboxes := mboxes[target := mboxes[target] + [e]];
      }
    }

    method CreateExchange(owner: Id, name: string)
      modifies `exchanges
      ensures exchanges == if name in old(exchanges) then old(exchanges) else old(exchanges)[name := Exchange(owner, [], [])]
    {
      if name !in exchanges {
        exchanges := exchanges[name := Exchange(owner, [], [])];
      }
    }

    /** `subscribe_to_exchange`: creates a missing exchange even for a dead target, which is then not entered. */
    method Subscribe(target: Id, name: string)
      modifies `exchanges
      ensures name in exchanges && exchanges.Keys == old(exchanges).Keys + {name}
      ensures forall n <- old(exchanges) :: n != name ==> exchanges[n] == old(exchanges)[n]
      ensures var x := if name in old(exchanges) then old(exchanges)[name] else Exchange(target, [], []);
        exchanges[name] == x.(subscribes := x.subscribes + if target in actors then [target] else [])
    {
      CreateExchange(target, name);
      if target in actors {
        var x := exchanges[name];
        exchanges := exchanges[name := x.(subscribes := x.subscribes + [target])];
      }
    }

    method Publish(name: string, e: Envelope)
      modifies `exchanges
      ensures exchanges == if name in old(exchanges)
                           then old(exchanges)[name := old(exchanges)[name].(pub := old(exchanges)[name].pub + [e])]
                           else old(exchanges)
    {
      if name in exchanges {
        exchanges := exchanges[name := exchanges[name].(pub := exchanges[name].pub + [e])];
      }
    }

    /** The inner loop of the drain: one envelope to every subscription entry with a mailbox. */
    method DeliverToEntries(e: Envelope, subs: seq<Id>)
      modifies `mboxes
      ensures mboxes.Keys == old(mboxes).Keys
      ensures forall id <- mboxes :: mboxes[id] == old(mboxes)[id] + seq(multiset(subs)[id], _ => e)
      ensures forall id <- mboxes :: mboxes[id] == old(mboxes)[id] + Copies(e, Entries(subs, id))
    {
      for i := 0 to |subs|
        invariant mboxes.Keys == old(mboxes).Keys
        invariant forall id <- mboxes :: mboxes[id] == old(mboxes)[id] + Copies(e, Entries(subs[..i], id))
      {
        ghost var prior := mboxes;
        assert subs[..i + 1] == subs[..i] + [subs[i]];
        if subs[i] in mboxes {
          mboxes := mboxes[subs[i] := mboxes[subs[i]] + [e]];
        }
        forall id | id in mboxes
          ensures mboxes[id] == old(mboxes)[id] + Copies(e, Entries(subs[..i + 1], id))
        {
          assert prior[id] == old(mboxes)[id] + Copies(e, Entries(subs[..i], id));
        }
      }
      assert subs[..|subs|] == subs;
    }

    /** The middle loop: pop the publish queue of one exchange until it is empty. */
    method DrainExchange(name: string)
      requires name in exchanges
      modifies `mboxes, `exchanges
      ensures exchanges == old(exchanges)[name := old(exchanges)[name].(pub := [])]
      ensures Received(old(mboxes), mboxes, old(exchanges)[name].subscribes, old(exchanges)[name].pub)
    {
      ghost var pub := exchanges[name].pub;
      var subs := exchanges[name].subscribes;
      ghost var n := 0;
      while exchanges[name].pub != []
        invariant 0 <= n <= |pub| && name in exchanges
        invariant exchanges == old(exchanges)[name := old(exchanges)[name].(pub := pub[n..])]
        invariant Received(old(mboxes), mboxes, subs, pub[..n])
        decreases |pub| - n
      {
        var e := exchanges[name].pub[0];
        exchanges := exchanges[name := exchanges[name].(pub := exchanges[name].pub[1..])];
        ghost var prior := mboxes;
        DeliverToEntries(e, subs);
        ReceivedNext(old(mboxes), prior, mboxes, subs, pub, n);
        n := n + 1;
      }
      assert pub[..n] == pub;
    }

    /** The first section of the mailbox worker: every publish queue is emptied into the mailboxes. */
    method DrainExchanges() returns (order: seq<string>)
      modifies `mboxes, `exchanges
      ensures multiset(order) == multiset(old(exchanges).Keys)
      ensures exchanges.Keys == old(exchanges).Keys && forall n <- exchanges :: exchanges[n] == old(exchanges)[n].(pub := [])
      ensures FannedOut(old(mboxes), mboxes, old(exchanges), order)
    {
      order := [];
      var todo := exchanges.Keys;
      ghost var table := exchanges;
      while todo != {}
        invariant multiset(order) + multiset(todo) == multiset(table.Keys)
        invariant todo <= table.Keys && exchanges == Drained(table, todo)
        invariant FannedOut(old(mboxes), mboxes, table, order)
      {
        var n :| n in todo;
        todo := todo - {n};
        ghost var prior := mboxes;
        DrainExchange(n);
        FanOutNext(old(mboxes), prior, mboxes, table, order, n);
        order := order + [n];
      }
      assert multiset(todo) == multiset{};
    }

    /** The scan of the mailbox worker. Mailboxes whose actor is gone would be collected in `toRemove`.
        `ok` is false when a claim would dereference the missing parent of an orphan; the scan then breaks off. */
    method ScanMailboxes() returns (ok: bool, toRemove: set<Id>, claims: seq<ApplyTask>)
      requires Valid()
      modifies `busy, `posted
      ensures toRemove == {}
      ensures posted == old(posted) + claims
      ensures forall t <- claims :: Claim(t)
      ensures ok ==> forall id <- mboxes :: mboxes[id] != [] ==> actors[id].actor in busy
      ensures ok ==> Claims(claims, old(busy), busy)
      ensures !ok ==> exists id <- mboxes :: mboxes[id] != [] && Orphan(actors, id) && actors[id].actor !in old(busy)
    {
      toRemove, claims := {}, [];
      var todo := mboxes.Keys;
      while todo != {}
        invariant todo <= mboxes.Keys && toRemove == {}
        invariant posted == old(posted) + claims
        invariant forall id <- mboxes.Keys - todo :: mboxes[id] != [] ==> actors[id].actor in busy
        invariant forall t <- claims :: Claim(t)
        invariant Claims(claims, old(busy), busy)
      {
        var id :| id in todo;
        todo := todo - {id};
        if mboxes[id] != [] {
          if id !in actors {
            toRemove := toRemove + {id};
          } else {
            ghost var prior := busy;
            var claim;
            ok, claim := ClaimActor(id);
            if !ok {
              return;
            }
            if claim.Some? {
              ClaimsGrow(claims, claim.value, old(busy), prior);
              claims := claims + [claim.value];
            }
          }
        }
      }
      ok := true;
    }

    /** The claim of one actor: `try_lock`, the second look at the mailbox, and the post.
        Without interference the second look never finds the mailbox empty.
        `ok` is false exactly when the original would dereference the missing parent of an orphan. */
    method ClaimActor(id: Id) returns (ok: bool, claim: Option<ApplyTask>)
      requires Valid() && id in actors
      modifies `busy, `posted
      ensures !ok <==> actors[id].actor !in old(busy) && mboxes[id] != [] && Orphan(actors, id)
      ensures claim.Some? <==> actors[id].actor !in old(busy) && mboxes[id] != [] && !Orphan(actors, id)
      ensures claim.Some? ==> claim.value.target == id && claim.value.actor == actors[id].actor && Claim(claim.value)
      ensures claim.Some? ==>
        claim.value.parent == if actors[id].parent == EMPTY_ID then None else Some(actors[actors[id].parent].actor)
      ensures claim.Some? ==> posted == old(posted) + [claim.value] && busy == old(busy) + {actors[id].actor}
      ensures claim.None? ==> posted == old(posted) && busy == if ok then old(busy) else old(busy) + {actors[id].actor}
    {
      var d := actors[id];
      if d.actor in busy {
        return true, None;
      }
      busy := busy + {d.actor};
      if mboxes[id] == [] {
        busy := busy - {d.actor};
        return true, None;
      }
      var parent := None;
      if d.parent != EMPTY_ID {
        if d.parent !in actors {
          return false, None;
        }
        parent := Some(actors[d.parent].actor);
      }
      posted := posted + [ApplyTask(id, d.actor, parent)];
      return true, Some(ApplyTask(id, d.actor, parent));
    }

    /** A task posted by a scan is for a live actor with messages and carries its live parent. */
    ghost predicate Claim(t: ApplyTask)
      reads this`actors, this`mboxes
    {
      && t.target in actors && t.target in mboxes && mboxes[t.target] != []
      && t.actor == actors[t.target].actor
      && var p := actors[t.target].parent;
         if p == EMPTY_ID then t.parent == None else p in actors && t.parent == Some(actors[p].actor)
    }

    /** The collection of exchanges at the end of a scan. */
    method CollectExchanges()
      modifies `exchanges
      ensures exchanges.Keys <= old(exchanges).Keys
      ensures forall n <- old(exchanges) ::
        var x := old(exchanges)[n];
        n in exchanges <==> x.owner in actors || exists i :: 0 <= i < |x.subscribes| && x.subscribes[i] in actors
      ensures forall n <- exchanges :: exchanges[n] == old(exchanges)[n]
    {
      var dead: seq<string> := [];
      var todo := exchanges.Keys;
      while todo != {}
        invariant todo <= exchanges.Keys
        invariant forall n :: n in dead <==> n in exchanges.Keys - todo && !Kept(exchanges[n], actors.Keys)
      {
        var n :| n in todo;
        todo := todo - {n};
        var ownerExists := exchanges[n].owner in actors;
        var subscribers := exists id <- exchanges[n].subscribes :: id in actors;
        if !ownerExists && !subscribers {
          dead := dead + [n];
        }
      }
      for i := 0 to |dead|
        invariant exchanges == old(exchanges) - set j | 0 <= j < i :: dead[j]
      {
        exchanges := exchanges - {dead[i]};
      }
      assert forall n :: n in dead <==> n in set j | 0 <= j < |dead| :: dead[j];
    }

    /** The escalation loop. It starts with the direct supervisor, which has been asked once already.
        `None` stands for the failed lookup that the original does not test for. */
    method Climb(d: Description, hook: ErrorHook) returns (decision: Option<ErrorAction>, ghost k: nat)
      requires Linked(actors)
      modifies `log
      ensures decision.Some? <==> Decided(actors, hook, d)
      ensures decision.Some? ==>
        && DecidesAt(actors, hook, d, k)
        && decision.value == Answer(actors, hook, d, k)
        && log == old(log) + Asks(actors, d, k + 1)
      ensures decision.None? ==> log == old(log) + Asks(actors, d, |Chain(actors, d.parent)|)
    {
      var action := Escalate;
      var descr := d;
      ghost var i: nat := 0;
      while action == Escalate
        invariant Climbed(actors, hook, d, i, descr, action)
        invariant log == old(log) + Asks(actors, d, i)
        decreases |Chain(actors, d.parent)| - i
      {
        if descr.parent !in actors {
          ClimbEnds(actors, hook, d, i, descr);
          return None, 0;
        }
        ClimbOn(actors, hook, d, i, descr);
        var parent := actors[descr.parent];
        Associative(old(log), Asks(actors, d, i), [OnChildError(parent.actor, descr.address)]);
        log := log + [OnChildError(parent.actor, descr.address)];
        action := hook(parent.actor, descr.address);
        descr := parent;
        i := i + 1;
      }
      ClimbDecides(actors, hook, d, i, descr, action);
      k := i - 1;
      decision := Some(action);
    }

    /** `on_actor_error`: the decision is carried out on the actor that failed. */
    method OnActorError(action: ErrorAction, target: Description, parent: ActorRef) returns (ghost order: seq<Id>)
      requires Valid()
      modifies `actors, `mboxes, `log
      ensures Valid()
      ensures action.Reinit? || action.Stop? ==>
        && PostOrder(old(actors), target.address.id, order)
        && Reg() == Removed(old(Reg()), Subtree(old(actors), target.address.id))
      ensures action.Escalate? || action.Resume? ==> Reg() == old(Reg())
      ensures log == old(log) + match action
                                case Resume => [OnChildStatus(parent, target.address, WithError)]
                                case Reinit => Notices(old(actors), order, Except) + [OnStart(target.actor)]
                                case Stop => Notices(old(actors), order, Except)
                                case Escalate => []
    {
      order := [];
      match action {
        case Reinit =>
          order := StopActor(target.address.id, Except);
          Associative(old(log), Notices(old(actors), order, Except), [OnStart(target.actor)]);
          log := log + [OnStart(target.actor)];
        case Stop =>
          order := StopActor(target.address.id, Except);
        case Escalate =>
        case Resume =>
          log := log + [OnChildStatus(parent, target.address, WithError)];
      }
    }

    /** The decision about a failed `target`: first the supervisor captured when the task was posted,
        then, on ESCALATE, the climb through the registry as it is by now. */
    method Decide(target: Description, parent: ActorRef, hook: ErrorHook)
      returns (decision: Option<ErrorAction>, ghost k: nat)
      requires Linked(actors)
      requires target.parent in actors ==> actors[target.parent].actor == parent
      modifies `log
      ensures decision.Some? <==> hook(parent, target.address) != Escalate || Decided(actors, hook, target)
      ensures hook(parent, target.address) != Escalate ==> decision == Some(hook(parent, target.address))
      ensures hook(parent, target.address) == Escalate && decision.Some? ==>
        DecidesAt(actors, hook, target, k) && 0 < k && decision.value == Answer(actors, hook, target, k)
      ensures decision.Some? ==>
        log == old(log) + [OnChildError(parent, target.address)]
               + if hook(parent, target.address) == Escalate then Asks(actors, target, k + 1) else []
      ensures decision.None? ==>
        log == old(log) + [OnChildError(parent, target.address)] + Asks(actors, target, |Chain(actors, target.parent)|)
    {
      k := 0;
      log := log + [OnChildError(parent, target.address)];
      var action := hook(parent, target.address);
      if action != Escalate {
        return Some(action), k;
      }
      decision, k := Climb(target, hook);
      if decision.Some? {
        AskedTwice(actors, hook, target, parent, k);
      }
    }

    /** The handler of `apply_actor_to_mailbox`, for an exception that left `target`.
        `target` and `parent` were captured when the task was posted; either may be gone by now.
        `ok` is false exactly when the original would dereference a missing registry entry. */
    method HandleFailure(target: Description, parent: Option<ActorRef>, hook: ErrorHook)
      returns (ok: bool, ghost decision: ErrorAction, ghost k: nat, ghost order: seq<Id>)
      requires Valid()
      requires parent.Some? && target.parent in actors ==> actors[target.parent].actor == parent.value
      modifies `actors, `mboxes, `log
      ensures Valid()
      ensures ok <==> parent.None? || hook(parent.value, target.address) != Escalate || Decided(old(actors), hook, target)
      ensures parent.None? ==> decision == Stop
      ensures ok && parent.Some? && hook(parent.value, target.address) != Escalate ==> decision == hook(parent.value, target.address)
      ensures ok && parent.Some? && hook(parent.value, target.address) == Escalate ==>
        DecidesAt(old(actors), hook, target, k) && 0 < k && decision == Answer(old(actors), hook, target, k)
      ensures ok && decision in {Reinit, Stop} ==>
        && PostOrder(old(actors), target.address.id, order)
        && Reg() == Removed(old(Reg()), Subtree(old(actors), target.address.id))
      ensures !ok || decision == Resume ==> Reg() == old(Reg())
      ensures ok ==>
        var first := if parent.Some? then [OnChildError(parent.value, target.address)] else [];
        var climb := if parent.Some? && hook(parent.value, target.address) == Escalate then Asks(old(actors), target, k + 1) else [];
        log == old(log) + first + climb + match decision
                                          case Resume => [OnChildStatus(parent.value, target.address, WithError)]
                                          case Reinit => Notices(old(actors), order, Except) + [OnStart(target.actor)]
                                          case Stop => Notices(old(actors), order, Except)
                                          case Escalate => []
      ensures !ok ==>
        log == old(log) + [OnChildError(parent.value, target.address)]
               + Asks(old(actors), target, |Chain(old(actors), target.parent)|)
    {
      k, decision, order := 0, Stop, [];
      if parent.None? {
        order := StopActor(target.address.id, Except);
        assert old(log) + [] + [] == old(log);
        return true, decision, k, order;
      }
      var action;
      action, k := Decide(target, parent.value, hook);
      if action.None? {
        return false, decision, k, order;
      }
      decision := action.value;
      order := OnActorError(action.value, target, parent.value);
      ok := true;
    }

    /** What `apply_actor_to_mailbox` does after `apply` returned or threw. */
    method AfterApply(failed: bool, target: Description, parent: Option<ActorRef>, hook: ErrorHook)
      returns (ok: bool, ghost decision: ErrorAction, ghost k: nat, ghost order: seq<Id>)
      requires Valid()
      requires parent.Some? && target.parent in actors ==> actors[target.parent].actor == parent.value
      modifies `actors, `mboxes, `log
      ensures Valid()
      ensures !failed ==> ok && Reg() == old(Reg())
      ensures !failed ==> log == old(log) + if parent.Some? then [OnChildStatus(parent.value, target.address, Normal)] else []
      ensures !ok <==>
        && failed && parent.Some? && hook(parent.value, target.address) == Escalate
        && !Decided(old(actors), hook, target)
      ensures parent.None? ==> decision == Stop
      ensures failed && ok && parent.Some? && hook(parent.value, target.address) != Escalate ==>
        decision == hook(parent.value, target.address)
      ensures failed && ok && parent.Some? && hook(parent.value, target.address) == Escalate ==>
        DecidesAt(old(actors), hook, target, k) && 0 < k && decision == Answer(old(actors), hook, target, k)
      ensures failed && ok && decision in {Reinit, Stop} ==>
        && PostOrder(old(actors), target.address.id, order)
        && Reg() == Removed(old(Reg()), Subtree(old(actors), target.address.id))
      ensures !ok || decision == Resume ==> Reg() == old(Reg())
      ensures failed && ok ==>
        var first := if parent.Some? then [OnChildError(parent.value, target.address)] else [];
        var climb := if parent.Some? && hook(parent.value, target.address) == Escalate then Asks(old(actors), target, k + 1) else [];
        log == old(log) + first + climb + match decision
                                          case Resume => [OnChildStatus(parent.value, target.address, WithError)]
                                          case Reinit => Notices(old(actors), order, Except) + [OnStart(target.actor)]
                                          case Stop => Notices(old(actors), order, Except)
                                          case Escalate => []
    {
      k, decision, order := 0, Stop, [];
      if failed {
        ok, decision, k, order := HandleFailure(target, parent, hook);
        return;
      }
      if parent.Some? {
        log := log + [OnChildStatus(parent.value, target.address, Normal)];
      }
      ok := true;
    }
  }

  /** The claimed actors were idle, are pairwise different, and are exactly those that became busy. */
  ghost predicate Claims(claims: seq<ApplyTask>, before: set<ActorRef>, after: set<ActorRef>) {
    && (forall i, j :: 0 <= i < j < |claims| ==> claims[i].actor != claims[j].actor)
    && (forall t <- claims :: t.actor !in before)
    && after == before + set t | t in claims :: t.actor
  }

  lemma {:induction false} ClaimsGrow(claims: seq<ApplyTask>, t: ApplyTask, before: set<ActorRef>, after: set<ActorRef>)
    requires Claims(claims, before, after) && t.actor !in after
    ensures Claims(claims + [t], before, after + {t.actor})
  {
    assert forall u :: u in claims + [t] <==> u in claims || u == t;
    forall i | 0 <= i < |claims|
      ensures claims[i].actor != t.actor
    {
      assert claims[i] in claims;
    }
  }

  /** What a stop appends to the log, and that it changes nothing before that. */
  ghost predicate StopEvents(start: Remains, now: Remains, id: Id, reason: StoppingReason) {
    start.log <= now.log && Told(start.actors, Subtree(start.actors, id), now.log[|start.log|..], reason)
  }

  lemma {:induction false} StopLaw(start: Remains, now: Remains, id: Id, order: seq<Id>, reason: StoppingReason)
    requires Linked(start.actors) && StoppedInOrder(start, now, id, order, reason)
    ensures StopEvents(start, now, id, reason)
  {
    assert EMPTY_ID in start.actors ==> NodeOk(start.actors, EMPTY_ID);
    StopTells(start.actors, id, order, reason);
    assert now.log[|start.log|..] == Notices(start.actors, order, reason);
  }

  /** The climb starts with the supervisor that has just escalated, so somebody above it decides. */
  lemma {:induction false} AskedTwice(actors: Actors, hook: ErrorHook, target: Description, parent: ActorRef, k: nat)
    requires DecidesAt(actors, hook, target, k) && hook(parent, target.address) == Escalate
    requires target.parent in actors ==> actors[target.parent].actor == parent
    ensures 0 < k
  {
    assert Chain(actors, target.parent)[0] == target.parent;
    assert Answer(actors, hook, target, 0) == Escalate;
  }

  const ESCALATES: ActorRef := 3

  /** Everybody resumes but one actor, which escalates. */
  function OneEscalates(asked: ActorRef, child: Address): ErrorAction {
    if asked == ESCALATES then Escalate else Resume
  }

  /** An escalating actor below the user guardian, or below nobody, and a child of it. */
  method AddFamily(context: Context) returns (p: Id, c: Id)
    requires context.Valid() && context.nextId + 2 <= EMPTY_ID
    requires context.usrRoot == NO_ADDRESS || context.usrRoot in context.actors
    modifies context`actors, context`idByName, context`mboxes, context`nextId
    ensures context.Valid() && p in context.actors && c in context.actors && context.nextId == old(context.nextId) + 2
    ensures context.actors[p].actor == ESCALATES && context.actors[c].parent == p && context.actors[c].actor != ESCALATES
    ensures context.actors[p].parent == if context.usrRoot == NO_ADDRESS then EMPTY_ID else context.usrRoot
  {
    var a := context.AddActor("p", NO_ADDRESS, ESCALATES);
    var b := context.AddActor("c", a.id, ESCALATES + 1);
    p, c := a.id, b.id;
  }

  /** A message for the child, and the task that the mailbox worker posts for it. */
  method ClaimChild(context: Context, c: Id, e: Envelope) returns (target: Description, parent: Option<ActorRef>)
    requires context.Valid() && c in context.actors && context.busy == {}
    requires context.actors[c].parent in context.actors
    modifies context`mboxes, context`busy, context`posted
    ensures context.Valid()
    ensures target == context.actors[c] && parent == Some(context.actors[target.parent].actor)
  {
    context.SendEnvelope(c, e);
    target := context.actors[c];
    var ok, claim := context.ClaimActor(c);
    parent := claim.value.parent;
  }

  /** The climb can miss in a started context whose root resumes: the supervisor is stopped after the task
      of its child was posted, and the child then fails. */
  method SupervisorStoppedMeanwhile(e: Envelope) returns (ok: bool)
    ensures !ok
  {
    var context := new Context();
    context.Start(0, 1, 2);
    var p, c := AddFamily(context);
    var target, parent := ClaimChild(context, c, e);
    ghost var order := context.StopActor(p, Manual);
    assert p !in context.actors && Chain(context.actors, p) == [];
    ghost var decision, k;
    ok, decision, k, order := context.HandleFailure(target, parent, OneEscalates);
  }

  /** It can also miss at the top: a supervisor added before `start` has no parent. It escalates although
      it is registered. */
  method TopEscalates(e: Envelope) returns (ok: bool, supervised: bool)
    ensures !ok && supervised
  {
    var context := new Context();
    var p, c := AddFamily(context);
    context.Start(0, 1, 2);
    var target, parent := ClaimChild(context, c, e);
    supervised := target.parent in context.actors;
    assert Chain(context.actors, p) == [p];
    ghost var decision, k, order;
    ok, decision, k, order := context.HandleFailure(target, parent, OneEscalates);
  }
}
