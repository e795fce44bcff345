/** What stopping a subtree and committing an actor do to the registry, as values. */
module Supervision {
  import opened Types
  import opened Registry
  import opened Counting

  /** `order` lists exactly the subtree of `id`, and nobody comes before one of its descendants.
      The second half also rules out repetitions, since an actor is under itself. */
  ghost predicate PostOrder(actors: Actors, id: Id, order: seq<Id>) {
    && (forall x :: x in order <==> x in Subtree(actors, id))
    && BottomUp(actors, order)
  }

  ghost function Range(order: seq<Id>): set<Id> {
    set x | x in order
  }

  ghost predicate BottomUp(actors: Actors, order: seq<Id>) {
    forall i, j :: 0 <= i < j < |order| ==> !Under(actors, order[i], order[j])
  }

  /** The hooks called for one removed actor: its own, then its parent's if the parent is live.
      The parent is told a bare id, so the path in the address is the null one. */
  ghost function Notice(actors: Actors, x: Id, reason: StoppingReason): seq<Event>
    requires x in actors
  {
    var p := actors[x].parent;
    [OnStop(x)] + if p != EMPTY_ID && p in actors then [OnChildStopped(p, Address(x, NULL_PATH), reason)] else []
  }

  ghost function Notices(actors: Actors, order: seq<Id>, reason: StoppingReason): seq<Event>
    requires forall x <- order :: x in actors
  {
    if order == [] then [] else Notice(actors, order[0], reason) + Notices(actors, order[1..], reason)
  }

  ghost function Removed(r: Registry, gone: set<Id>): Registry {
    r.(actors := r.actors - gone, mboxes := r.mboxes - gone)
  }

  lemma {:induction false} NoticesConcat(actors: Actors, a: seq<Id>, b: seq<Id>, reason: StoppingReason)
    requires forall x <- a + b :: x in actors
    ensures forall x <- a :: x in a + b
    ensures forall x <- b :: x in a + b
    ensures Notices(actors, a + b, reason) == Notices(actors, a, reason) + Notices(actors, b, reason)
  {
    assert forall x <- a :: x in a + b;
    assert forall x <- b :: x in a + b;
    if a == [] {
      assert a + b == b;
    } else {
      assert (a + b)[1..] == a[1..] + b;
      NoticesConcat(actors, a[1..], b, reason);
    }
  }

  /** The hooks of a survivor do not depend on what was removed before it. */
  lemma {:induction false} NoticesSurvive(actors: Actors, gone: set<Id>, order: seq<Id>, reason: StoppingReason)
    requires DownClosed(actors, gone)
    requires forall x <- order :: x in actors - gone
    ensures Notices(actors - gone, order, reason) == Notices(actors, order, reason)
  {
    if order != [] {
      assert order[0] in actors - gone;
      NoticesSurvive(actors, gone, order[1..], reason);
    }
  }

  lemma MinusMinus<T>(m: map<Id, T>, a: set<Id>, b: set<Id>)
    ensures m - a - b == m - (a + b)
  {
  }

  /** `done` lists, bottom-up, whole subtrees hanging below `id`. */
  ghost predicate Stopping(actors: Actors, id: Id, done: seq<Id>) {
    && BottomUp(actors, done)
    && DownClosed(actors, Range(done))
    && forall x <- done :: x in Subtree(actors, id) && x != id
  }

  /** One more child has been stopped: the combined order is still bottom-up and down-closed. */
  lemma {:induction false} ExtendOrder(actors: Actors, id: Id, done: seq<Id>, c: Id, more: seq<Id>)
    requires Linked(actors) && id in actors && c in actors[id].children
    requires Stopping(actors, id, done)
    requires PostOrder(actors - Range(done), c, more)
    ensures Stopping(actors, id, done + more)
    ensures c in actors ==> c in done + more
  {
    var gone := Range(done);
    var rest := actors - gone;
    assert NodeOk(actors, id);
    forall x | x in more
      ensures x in Subtree(actors, id) && x != id && Under(actors, c, x)
    {
      assert x in Subtree(rest, c);
      UnderSurvives(actors, gone, c, x);
      UnderIsOlder(actors, c, x);
      UnderTransitive(actors, id, c, x);
    }
    forall i, j | 0 <= i < j < |done + more|
      ensures !Under(actors, (done + more)[i], (done + more)[j])
    {
      var x, y := (done + more)[i], (done + more)[j];
      if j >= |done| {
        assert y in more && y in Subtree(rest, c);
        if i < |done| {
          if Under(actors, x, y) {
            DownClosedUnder(actors, gone, x, y);
          }
        } else {
          assert x == more[i - |done|] && y == more[j - |done|];
          UnderSurvives(actors, gone, x, y);
        }
      }
    }
    var gone' := Range(done + more);
    forall x | x in actors && actors[x].parent in gone'
      ensures x in gone'
    {
      var p := actors[x].parent;
      if p !in gone && x !in gone {
        assert p in more && p in Subtree(rest, c);
        assert NodeOk(actors, x) && NodeOk(actors, p);
        assert x in Subtree(rest, c);
      }
    }
    if c in actors && c !in done {
      assert c in Subtree(rest, c);
    }
  }

  /** The same step with the hooks called so far and the ids removed so far. */
  lemma {:induction false} StopChild(actors: Actors, id: Id, done: seq<Id>, c: Id, more: seq<Id>, reason: StoppingReason)
    requires Linked(actors) && id in actors && c in actors[id].children
    requires Stopping(actors, id, done)
    requires PostOrder(actors - Range(done), c, more)
    ensures Stopping(actors, id, done + more) && (c in actors ==> c in done + more)
    ensures Range(done + more) == Range(done) + Subtree(actors - Range(done), c)
    ensures forall x <- more :: x in actors - Range(done)
    ensures forall x <- done + more :: x in actors
    ensures Notices(actors, done + more, reason) ==
      Notices(actors, done, reason) + Notices(actors - Range(done), more, reason)
  {
    ExtendOrder(actors, id, done, c, more);
    assert forall x <- more :: x in Subtree(actors - Range(done), c);
    NoticesSurvive(actors, Range(done), more, reason);
    NoticesConcat(actors, done, more, reason);
  }

  /** What a teardown has left: descriptions, mailboxes and the hooks called so far. */
  datatype Remains = Remains(actors: Actors, mboxes: map<Id, seq<Envelope>>, log: seq<Event>)

  /** `now` is `start` after removing and notifying `order`, which hangs below `id`. */
  ghost predicate TornDown(start: Remains, now: Remains, id: Id, order: seq<Id>, reason: StoppingReason) {
    && Stopping(start.actors, id, order)
    && now.actors == start.actors - Range(order)
    && now.mboxes == start.mboxes - Range(order)
    && now.log == start.log + Notices(start.actors, order, reason)
    && Linked(now.actors)
  }

  /** `now` is `start` after stopping the whole subtree of `id` in the order `order`. */
  ghost predicate StoppedInOrder(start: Remains, now: Remains, id: Id, order: seq<Id>, reason: StoppingReason) {
    && PostOrder(start.actors, id, order)
    && now.actors == start.actors - Subtree(start.actors, id)
    && now.mboxes == start.mboxes - Subtree(start.actors, id)
    && now.log == start.log + Notices(start.actors, order, reason)
    && Linked(now.actors)
  }

  lemma {:induction false} TearDownChild(start: Remains, mid: Remains, now: Remains, id: Id, done: seq<Id>, c: Id, more: seq<Id>, reason: StoppingReason)
    requires Linked(start.actors) && id in start.actors && c in start.actors[id].children
    requires TornDown(start, mid, id, done, reason) && StoppedInOrder(mid, now, c, more, reason)
    ensures TornDown(start, now, id, done + more, reason)
    ensures c in start.actors ==> c in done + more
  {
    StopChild(start.actors, id, done, c, more, reason);
    MinusMinus(start.actors, Range(done), Subtree(mid.actors, c));
    MinusMinus(start.mboxes, Range(done), Subtree(mid.actors, c));
    Associative(start.log, Notices(start.actors, done, reason), Notices(mid.actors, more, reason));
  }

  lemma {:induction false} YoungerNotAbove(actors: Actors, id: Id, x: Id)
    requires Under(actors, id, x) && x != id
    ensures !Under(actors, x, id)
  {
    UnderIsOlder(actors, id, x);
    if Under(actors, x, id) {
      UnderIsOlder(actors, x, id);
    }
  }

  /** All children have been stopped: adding the actor itself completes the post-order. */
  lemma {:induction false} CompleteOrder(actors: Actors, id: Id, done: seq<Id>)
    requires Linked(actors) && id in actors
    requires Stopping(actors, id, done)
    requires forall c <- actors[id].children :: c in actors ==> c in done
    ensures PostOrder(actors, id, done + [id])
  {
    var all := done + [id];
    forall x | x in Subtree(actors, id)
      ensures x in all
    {
      if x != id {
        var c := ChildTowards(actors, id, x);
        DownClosedUnder(actors, Range(done), c, x);
        assert x in done;
      }
    }
    forall x | x in all
      ensures x in Subtree(actors, id)
    {
      assert x in done || x == id;
    }
    forall i, j | 0 <= i < j < |all|
      ensures !Under(actors, all[i], all[j])
    {
      assert all[i] == done[i] && done[i] in done;
      if j == |done| {
        YoungerNotAbove(actors, id, done[i]);
      } else {
        assert all[j] == done[j];
      }
    }
  }

  /** The last step: the hooks of the actor itself, whose parent has outlived its subtree. */
  lemma {:induction false} StopSelf(actors: Actors, id: Id, done: seq<Id>, reason: StoppingReason)
    requires Linked(actors) && id in actors
    requires Stopping(actors, id, done)
    requires forall c <- actors[id].children :: c in actors ==> c in done
    ensures PostOrder(actors, id, done + [id])
    ensures Range(done) + {id} == Subtree(actors, id)
    ensures actors[id].parent !in done
    ensures Linked(actors - Subtree(actors, id))
    ensures forall x <- done + [id] :: x in actors
    ensures Notices(actors, done + [id], reason) == Notices(actors, done, reason) + Notice(actors, id, reason)
  {
    CompleteOrder(actors, id, done);
    assert forall x :: x in done + [id] <==> x in Subtree(actors, id);
    assert NodeOk(actors, id);
    var p := actors[id].parent;
    if p in done {
      UnderIsOlder(actors, id, p);
    }
    SubtreeClosed(actors, id);
    LinkedSurvives(actors, Subtree(actors, id));
    NoticesConcat(actors, done, [id], reason);
  }

  lemma {:induction false} TearDownSelf(start: Remains, mid: Remains, now: Remains, id: Id, done: seq<Id>, reason: StoppingReason)
    requires Linked(start.actors) && id in start.actors && TornDown(start, mid, id, done, reason)
    requires forall c <- start.actors[id].children :: c in start.actors ==> c in done
    requires id in mid.actors ==> now == Remains(mid.actors - {id}, mid.mboxes - {id}, mid.log + Notice(mid.actors, id, reason))
    ensures id in mid.actors && StoppedInOrder(start, now, id, done + [id], reason)
  {
    StopSelf(start.actors, id, done, reason);
    MinusMinus(start.actors, Range(done), {id});
    MinusMinus(start.mboxes, Range(done), {id});
    assert Notice(mid.actors, id, reason) == Notice(start.actors, id, reason);
    Associative(start.log, Notices(start.actors, done, reason), Notice(start.actors, id, reason));
  }

  // ---- Who is told what ----

  lemma {:induction false} CountNotices(actors: Actors, order: seq<Id>, reason: StoppingReason, x: Id)
    requires forall y <- order :: y in actors
    ensures multiset(Notices(actors, order, reason))[OnStop(x)] == multiset(order)[x]
  {
    if order != [] {
      var first, rest := order[0], order[1..];
      assert order == [first] + rest;
      CountNotices(actors, rest, reason, x);
      CountNotice(actors, first, reason, x);
      assert multiset(Notices(actors, order, reason)) ==
             multiset(Notice(actors, first, reason)) + multiset(Notices(actors, rest, reason));
    }
  }

  lemma {:induction false} CountNotice(actors: Actors, y: Id, reason: StoppingReason, x: Id)
    requires y in actors
    ensures multiset(Notice(actors, y, reason))[OnStop(x)] == if x == y then 1 else 0
  {
  }

  /** Stopping a subtree calls `on_stop` once for each of its actors and for nobody else. */
  lemma {:induction false} CountPostOrder(actors: Actors, id: Id, order: seq<Id>, reason: StoppingReason, x: Id)
    requires PostOrder(actors, id, order)
    ensures multiset(Notices(actors, order, reason))[OnStop(x)] == if x in Subtree(actors, id) then 1 else 0
  {
    CountNotices(actors, order, reason, x);
    forall i, j | 0 <= i < j < |order|
      ensures order[i] != order[j]
    {
      assert !Under(actors, order[i], order[j]);
    }
    CountDistinct(order, x);
  }

  /** The hook calls of one stop, event by event: an `on_stop` is directly followed by the call that tells the
      actor's parent, if that one is registered, with a bare id and the reason of the stop; and there is no other
      event. */
  ghost predicate ToldAt(actors: Actors, events: seq<Event>, reason: StoppingReason, i: nat)
    requires i < |events|
  {
    match events[i]
    case OnStop(x) =>
      && x in actors
      && (actors[x].parent in actors ==>
            i + 1 < |events| && events[i + 1] == OnChildStopped(actors[x].parent, Address(x, "null"), reason))
    case OnChildStopped(p, child, why) =>
      && 0 < i && events[i - 1].OnStop? && why == reason && child == Address(events[i - 1].actor, "null")
      && events[i - 1].actor in actors && actors[events[i - 1].actor].parent == p && p in actors
    case _ => false
  }

  /** Exactly the actors of `gone` are stopped, once each, descendants before ancestors, and their parents told. */
  ghost predicate Told(actors: Actors, gone: set<Id>, events: seq<Event>, reason: StoppingReason) {
    && (forall x :: multiset(events)[OnStop(x)] == if x in gone then 1 else 0)
    && (forall i :: 0 <= i < |events| ==> ToldAt(actors, events, reason, i))
    && (forall i, j :: 0 <= i < j < |events| && events[i].OnStop? && events[j].OnStop? ==>
          !Under(actors, events[i].actor, events[j].actor))
  }

  lemma {:induction false} NoticeTold(actors: Actors, x: Id, reason: StoppingReason, rest: seq<Event>, i: nat)
    requires x in actors && EMPTY_ID !in actors && i < |Notice(actors, x, reason)|
    ensures ToldAt(actors, Notice(actors, x, reason) + rest, reason, i)
  {
  }

  lemma {:induction false} ToldLater(actors: Actors, first: seq<Event>, events: seq<Event>, reason: StoppingReason, i: nat)
    requires i < |events| && ToldAt(actors, events, reason, i)
    ensures ToldAt(actors, first + events, reason, |first| + i)
  {
    assert (first + events)[|first| + i] == events[i];
    assert i + 1 < |events| ==> (first + events)[|first| + i + 1] == events[i + 1];
    assert 0 < i ==> (first + events)[|first| + i - 1] == events[i - 1];
  }

  lemma {:induction false} NoticesTold(actors: Actors, order: seq<Id>, reason: StoppingReason, i: nat)
    requires EMPTY_ID !in actors && (forall x <- order :: x in actors) && i < |Notices(actors, order, reason)|
    ensures ToldAt(actors, Notices(actors, order, reason), reason, i)
    decreases |order|
  {
    var first, rest := Notice(actors, order[0], reason), Notices(actors, order[1..], reason);
    if i < |first| {
      NoticeTold(actors, order[0], reason, rest, i);
    } else {
      NoticesTold(actors, order[1..], reason, i - |first|);
      ToldLater(actors, first, rest, reason, i - |first|);
    }
  }

  lemma {:induction false} NoticesFrom(actors: Actors, order: seq<Id>, reason: StoppingReason, x: Id)
    requires (forall y <- order :: y in actors) && OnStop(x) in Notices(actors, order, reason)
    ensures x in order
    decreases |order|
  {
    if OnStop(x) !in Notice(actors, order[0], reason) {
      NoticesFrom(actors, order[1..], reason, x);
    }
  }

  lemma {:induction false} NoticesBottomUp(actors: Actors, order: seq<Id>, reason: StoppingReason, i: nat, j: nat)
    requires (forall x <- order :: x in actors) && BottomUp(actors, order)
    requires var events := Notices(actors, order, reason); i < j < |events| && events[i].OnStop? && events[j].OnStop?
    ensures var events := Notices(actors, order, reason); !Under(actors, events[i].actor, events[j].actor)
    decreases |order|
  {
    var first, rest := Notice(actors, order[0], reason), Notices(actors, order[1..], reason);
    if i < |first| {
      assert rest[j - |first|] in rest;
      NoticesFrom(actors, order[1..], reason, rest[j - |first|].actor);
      var k :| 0 < k < |order| && order[k] == rest[j - |first|].actor;
    } else {
      NoticesBottomUp(actors, order[1..], reason, i - |first|, j - |first|);
    }
  }

  /** The law of stopping a subtree, whatever the order in which children are visited. */
  lemma {:induction false} StopTells(actors: Actors, id: Id, order: seq<Id>, reason: StoppingReason)
    requires EMPTY_ID !in actors && PostOrder(actors, id, order)
    ensures Told(actors, Subtree(actors, id), Notices(actors, order, reason), reason)
  {
    var events := Notices(actors, order, reason);
    forall x
      ensures multiset(events)[OnStop(x)] == if x in Subtree(actors, id) then 1 else 0
    {
      CountPostOrder(actors, id, order, reason, x);
    }
    forall i | 0 <= i < |events|
      ensures ToldAt(actors, events, reason, i)
    {
      NoticesTold(actors, order, reason, i);
    }
    forall i, j | 0 <= i < j < |events| && events[i].OnStop? && events[j].OnStop?
      ensures !Under(actors, events[i].actor, events[j].actor)
    {
      NoticesBottomUp(actors, order, reason, i, j);
    }
  }

  /** Stopping keeps the registry well formed, whatever the stopped id is, and neither makes nor adopts orphans. */
  lemma {:induction false} StopKeepsWellFormed(r: Registry, id: Id)
    requires WellFormed(r)
    ensures WellFormed(Removed(r, Subtree(r.actors, id)))
    ensures forall x <- r.actors - Subtree(r.actors, id) ::
      Orphan(r.actors - Subtree(r.actors, id), x) <==> Orphan(r.actors, x)
  {
    SubtreeClosed(r.actors, id);
    LinkedSurvives(r.actors, Subtree(r.actors, id));
    forall x | x in r.actors - Subtree(r.actors, id)
      ensures Orphan(r.actors - Subtree(r.actors, id), x) <==> Orphan(r.actors, x)
    {
      OrphansSurvive(r.actors, Subtree(r.actors, id), x);
    }
  }

  /** The commit section of `add_actor`. `parent` is an address id: 0 means that there is none.
      The child is recorded in the parent's description, which reaches the registry only while
      the parent is still registered. */
  function Committed(r: Registry, id: Id, actor: ActorRef, parent: Id, name: string): Registry {
    var d := Description(actor, Address(id, name), name, if parent == NO_ADDRESS then EMPTY_ID else parent, {});
    var actors := if parent in r.actors
                  then r.actors[parent := r.actors[parent].(children := r.actors[parent].children + {id})]
                  else r.actors;
    r.(actors := actors[id := d], idByName := r.idByName[name := id], mboxes := r.mboxes[id := []])
  }

  /** A commit, entry by entry: one new description, one more child of the parent, one new empty mailbox, one
      name entry; everything else is as it was. */
  lemma {:induction false} CommitEffect(r: Registry, id: Id, actor: ActorRef, parent: Id, name: string)
    requires id !in r.actors && NO_ADDRESS !in r.actors && parent != id
    ensures var r' := Committed(r, id, actor, parent, name);
      && r'.actors.Keys == r.actors.Keys + {id}
      && r'.actors[id].actor == actor && r'.actors[id].address == Address(id, name) && r'.actors[id].name == name
      && r'.actors[id].parent == (if parent == NO_ADDRESS then EMPTY_ID else parent) && r'.actors[id].children == {}
      && (forall x <- r.actors :: x != parent ==> r'.actors[x] == r.actors[x])
      && (parent in r.actors ==>
            r'.actors[parent] == r.actors[parent].(children := r.actors[parent].children + {id}))
      && r'.mboxes == r.mboxes[id := []]
      && r'.idByName == r.idByName[name := id] && r'.nextId == r.nextId
  {
  }

  /** An id handed out by the counter and not yet committed. */
  ghost predicate Reserved(r: Registry, id: Id) {
    && 0 < id < r.nextId
    && id !in r.actors
    && (forall a <- r.actors :: id !in r.actors[a].children && r.actors[a].parent != id)
  }

  /** The name was computed from the parent's when the parent was looked up. */
  ghost predicate NameFits(r: Registry, parent: Id, name: string) {
    if parent == NO_ADDRESS then "/" <= name else parent in r.actors ==> r.actors[parent].name + "/" <= name
  }

  /** A commit leaves every link intact, whether or not the parent is still registered. */
  lemma {:induction false} CommitKeepsLinks(r: Registry, id: Id, actor: ActorRef, parent: Id, name: string, x: Id)
    requires WellFormed(r) && Reserved(r, id) && parent < id && NameFits(r, parent, name)
    requires x in r.actors || x == id
    ensures NodeOk(Committed(r, id, actor, parent, name).actors, x)
  {
    if x != id {
      assert NodeOk(r.actors, x);
    }
    if parent in r.actors {
      assert NodeOk(r.actors, parent);
    }
  }

  lemma {:induction false} CommitKeepsLinked(r: Registry, id: Id, actor: ActorRef, parent: Id, name: string)
    requires WellFormed(r) && Reserved(r, id) && parent < id && NameFits(r, parent, name)
    ensures Linked(Committed(r, id, actor, parent, name).actors)
  {
    var actors := Committed(r, id, actor, parent, name).actors;
    forall x | x in actors
      ensures NodeOk(actors, x)
    {
      CommitKeepsLinks(r, id, actor, parent, name, x);
    }
  }

  lemma {:induction false} CommitKeepsWellFormed(r: Registry, id: Id, actor: ActorRef, parent: Id, name: string)
    requires WellFormed(r) && Reserved(r, id) && parent < id && NameFits(r, parent, name)
    ensures WellFormed(Committed(r, id, actor, parent, name))
  {
    var r' := Committed(r, id, actor, parent, name);
    CommitKeepsLinked(r, id, actor, parent, name);
    assert r'.actors.Keys == r.actors.Keys + {id};
    forall x, c | x in r'.actors && c in r'.actors[x].children
      ensures c < r.nextId
    {
      assert c == id || c in r.actors[x].children;
    }
  }

  /** What a commit does to orphans: nobody else becomes or ceases to be one, and the new actor is one
      exactly when it has a parent that is gone by now. */
  lemma {:induction false} CommitOrphans(r: Registry, id: Id, actor: ActorRef, parent: Id, name: string, x: Id)
    requires r.nextId <= EMPTY_ID && Reserved(r, id) && parent < id && (x in r.actors || x == id)
    ensures Orphan(Committed(r, id, actor, parent, name).actors, x) <==>
      if x == id then parent != NO_ADDRESS && parent !in r.actors else Orphan(r.actors, x)
  {
  }

  /** Lookup and commit are separate critical sections. The commit keeps the registry well formed and free
      of orphans exactly when there is no parent or the parent is still registered at that moment. */
  lemma {:induction false} CommitWellFormedIff(r: Registry, id: Id, actor: ActorRef, parent: Id, name: string)
    requires WellFormed(r) && NoOrphans(r.actors) && Reserved(r, id) && parent < id && NameFits(r, parent, name)
    ensures var r' := Committed(r, id, actor, parent, name);
      WellFormed(r') && NoOrphans(r'.actors) <==> parent == NO_ADDRESS || parent in r.actors
  {
    var r' := Committed(r, id, actor, parent, name);
    CommitKeepsWellFormed(r, id, actor, parent, name);
    forall x | x in r'.actors
      ensures Orphan(r'.actors, x) <==> x == id && parent != NO_ADDRESS && parent !in r.actors
    {
      CommitOrphans(r, id, actor, parent, name, x);
    }
    assert id in r'.actors;
  }

  lemma {:induction false} CommitKeepsOnlyRoot(r: Registry, id: Id, actor: ActorRef, parent: Id, name: string)
    requires OnlyRoot(r.actors) && NO_ADDRESS != parent < EMPTY_ID
    ensures OnlyRoot(Committed(r, id, actor, parent, name).actors)
  {
  }

  /** The counter's value is free, and committing it below a registered supervisor, or below nobody, is sound. */
  lemma {:induction false} AddIsDue(r: Registry, id: Id, actor: ActorRef, parent: Id, name: string)
    requires WellFormed(r.(nextId := id)) && r.nextId == id + 1 <= EMPTY_ID
    requires parent == NO_ADDRESS || parent in r.actors
    requires if parent == NO_ADDRESS then "/" <= name else r.actors[parent].name + "/" <= name
    ensures var r' := Committed(r, id, actor, parent, name);
      && WellFormed(r')
      && (NoOrphans(r.actors) ==> NoOrphans(r'.actors))
      && (OnlyRoot(r.actors) && parent != NO_ADDRESS ==> OnlyRoot(r'.actors))
      && NO_ADDRESS !in r.actors
  {
    assert NO_ADDRESS in r.actors ==> NodeOk(r.actors, NO_ADDRESS);
    assert WellFormed(r);
    forall a | a in r.actors
      ensures id !in r.actors[a].children && r.actors[a].parent != id
    {
      assert NodeOk(r.actors, a);
    }
    CommitKeepsWellFormed(r, id, actor, parent, name);
    if NoOrphans(r.actors) {
      CommitWellFormedIff(r, id, actor, parent, name);
    }
  }

  function Path(parent: string, leaf: string): string {
    parent + "/" + leaf
  }

  /** The paths of the guardians, spelled out. */
  lemma {:induction false} GuardianPaths()
    ensures Path("", "root") == "/root"
    ensures Path(Path("", "root"), "usr") == "/root/usr" && Path(Path("", "root"), "sys") == "/root/sys"
  {
  }

  /** The root has no parent, the other two guardians have the root, and everybody else is as before. */
  ghost predicate GuardiansAdded(before: Actors, after: Actors, n: Id, root: ActorRef, usr: ActorRef, sys: ActorRef) {
    && after.Keys == before.Keys + {n, n + 1, n + 2}
    && (forall id <- before :: after[id] == before[id])
    && var path := Path("", "root");
       && after[n] == Description(root, Address(n, path), path, EMPTY_ID, {n + 1, n + 2})
       && after[n + 1] == Description(usr, Address(n + 1, Path(path, "usr")), Path(path, "usr"), n, {})
       && after[n + 2] == Description(sys, Address(n + 2, Path(path, "sys")), Path(path, "sys"), n, {})
  }

  ghost function WithRoot(r: Registry, root: ActorRef): Registry {
    Committed(r.(nextId := r.nextId + 1), r.nextId, root, NO_ADDRESS, Path("", "root"))
  }

  ghost function WithGuardian(r: Registry, root: Id, leaf: string, actor: ActorRef): Registry {
    Committed(r.(nextId := r.nextId + 1), r.nextId, actor, root, Path(Path("", "root"), leaf))
  }

  lemma {:induction false} RootAdded(r: Registry, root: ActorRef)
    requires NO_ADDRESS !in r.actors
    ensures var path := Path("", "root");
      WithRoot(r, root).actors == r.actors[r.nextId := Description(root, Address(r.nextId, path), path, EMPTY_ID, {})]
  {
  }

  lemma {:induction false} GuardianAdded(r: Registry, n: Id, leaf: string, actor: ActorRef)
    requires n in r.actors && n != NO_ADDRESS && n != r.nextId
    ensures var path := Path(Path("", "root"), leaf);
      WithGuardian(r, n, leaf, actor).actors ==
        r.actors[n := r.actors[n].(children := r.actors[n].children + {r.nextId})]
                [r.nextId := Description(actor, Address(r.nextId, path), path, n, {})]
  {
  }

  lemma {:induction false} GuardiansCommitted(r: Registry, root: ActorRef, usr: ActorRef, sys: ActorRef)
    requires WellFormed(r)
    ensures var n := r.nextId;
      var r1 := WithRoot(r, root);
      var r2 := WithGuardian(r1, n, "usr", usr);
      var r3 := WithGuardian(r2, n, "sys", sys);
      && r1.nextId == n + 1 && n in r1.actors && r1.actors[n].name == Path("", "root")
      && r2.nextId == n + 2 && n in r2.actors && r2.actors[n].name == Path("", "root")
      && GuardiansAdded(r.actors, r3.actors, n, root, usr, sys)
      && (r.actors == map[] && n == ROOT ==> OnlyRoot(r3.actors))
  {
    assert NO_ADDRESS in r.actors ==> NodeOk(r.actors, NO_ADDRESS);
    var n, r1 := r.nextId, WithRoot(r, root);
    RootAdded(r, root);
    GuardianAdded(r1, n, "usr", usr);
    var r2 := WithGuardian(r1, n, "usr", usr);
    GuardianAdded(r2, n, "sys", sys);
    assert GuardiansAdded(r.actors, WithGuardian(r2, n, "sys", sys).actors, n, root, usr, sys);
  }
}
