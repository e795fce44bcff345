/** The actor registry of the context: three maps and the id counter (`libyaaf/context.h`),
    and the supervision tree that the descriptions spell out twice, once by parent links and
    once by children sets. Children sets are never pruned, so they may hold ids of dead actors. */
module Registry {
  import opened Types

  datatype Description = Description(actor: ActorRef, address: Address, name: string, parent: Id, children: set<Id>)

  type Actors = map<Id, Description>

  datatype Registry = Registry(actors: Actors, idByName: map<string, Id>, mboxes: map<Id, seq<Envelope>>, nextId: nat)

  /** A non-root actor has an older parent, which lists it and prefixes its name while it is registered. */
  ghost predicate ParentOk(actors: Actors, id: Id)
    requires id in actors
  {
    var d := actors[id];
    if d.parent == EMPTY_ID then
      "/" <= d.name
    else
      && d.parent < id
      && (d.parent in actors ==> id in actors[d.parent].children && actors[d.parent].name + "/" <= d.name)
  }

  /** Children are younger than their parent, and a live one points back to it. */
  ghost predicate ChildrenOk(actors: Actors, id: Id)
    requires id in actors
  {
    forall c <- actors[id].children :: id < c && (c in actors ==> actors[c].parent == id)
  }

  ghost predicate NodeOk(actors: Actors, id: Id)
    requires id in actors
  {
    && 0 < id < EMPTY_ID
    && actors[id].address == Address(id, actors[id].name)
    && ParentOk(actors, id)
    && ChildrenOk(actors, id)
  }

  // The trigger keeps the verifier from walking up the parent links on its own.
  ghost predicate Linked(actors: Actors) {
    forall id {:trigger NodeOk(actors, id)} :: id in actors ==> NodeOk(actors, id)
  }

  ghost predicate WellFormed(r: Registry) {
    && 1 <= r.nextId <= EMPTY_ID
    && Linked(r.actors)
    && r.mboxes.Keys == r.actors.Keys
    && (forall id <- r.actors :: id < r.nextId)
    && (forall id <- r.actors, c <- r.actors[id].children :: c < r.nextId)
    && (forall n <- r.idByName :: r.idByName[n] < r.nextId)
  }

  /** The actor has a parent that is not registered. */
  predicate Orphan(actors: Actors, id: Id)
    requires id in actors
  {
    actors[id].parent != EMPTY_ID && actors[id].parent !in actors
  }

  ghost predicate NoOrphans(actors: Actors) {
    forall id <- actors :: !Orphan(actors, id)
  }

  /** The id of the root guardian, the first actor that `start` creates. */
  const ROOT: Id := 1

  /** Nobody but the root guardian is without a parent. */
  ghost predicate OnlyRoot(actors: Actors) {
    forall id <- actors :: actors[id].parent == EMPTY_ID ==> id == ROOT
  }

  /** What a lookup by name finds through the name index, which is never pruned. */
  function FindAddress(r: Registry, name: string): Address {
    if name in r.idByName && r.idByName[name] in r.actors
    then r.actors[r.idByName[name]].address
    else Address(NO_ADDRESS, "")
  }

  /** `x` is `a` or hangs below it, following parent links only. */
  ghost predicate Under(actors: Actors, a: Id, x: Id)
    decreases x
  {
    x == a || (x in actors && actors[x].parent < x && Under(actors, a, actors[x].parent))
  }

  /** A live `a` with its live descendants; nothing if `a` is not registered, even if it left orphans. */
  ghost function Subtree(actors: Actors, a: Id): set<Id> {
    set x | x in actors && a in actors && Under(actors, a, x)
  }

  /** A set of ids that contains, with an actor, all its children. */
  ghost predicate DownClosed(actors: Actors, gone: set<Id>) {
    forall x <- actors :: actors[x].parent in gone ==> x in gone
  }

  lemma {:induction false} UnderIsOlder(actors: Actors, a: Id, x: Id)
    requires Under(actors, a, x)
    ensures a <= x
    decreases x
  {
    if x != a {
      UnderIsOlder(actors, a, actors[x].parent);
    }
  }

  lemma {:induction false} UnderTransitive(actors: Actors, a: Id, b: Id, x: Id)
    requires Under(actors, a, b) && Under(actors, b, x)
    ensures Under(actors, a, x)
    decreases x
  {
    if x != b {
      UnderTransitive(actors, a, b, actors[x].parent);
    }
  }

  lemma {:induction false} DownClosedUnder(actors: Actors, gone: set<Id>, a: Id, x: Id)
    requires DownClosed(actors, gone) && a in gone && Under(actors, a, x)
    ensures x in gone
    decreases x
  {
    if x != a {
      DownClosedUnder(actors, gone, a, actors[x].parent);
    }
  }

  /** Removing a down-closed set changes no ancestor relation among the survivors. */
  lemma {:induction false} UnderSurvives(actors: Actors, gone: set<Id>, a: Id, x: Id)
    requires DownClosed(actors, gone) && x in actors - gone
    ensures Under(actors - gone, a, x) <==> Under(actors, a, x)
    decreases x
  {
    var p := actors[x].parent;
    if x != a && p < x && p in actors {
      UnderSurvives(actors, gone, a, p);
    }
  }

  lemma {:induction false} LinkedSurvives(actors: Actors, gone: set<Id>)
    requires Linked(actors) && DownClosed(actors, gone)
    ensures Linked(actors - gone)
  {
    forall id | id in actors - gone
      ensures NodeOk(actors - gone, id)
    {
      assert NodeOk(actors, id);
    }
  }

  /** A proper descendant hangs below a live direct child, and that child is listed. */
  lemma {:induction false} ChildTowards(actors: Actors, a: Id, x: Id) returns (c: Id)
    requires Linked(actors) && a in actors && x in actors && x != a && Under(actors, a, x)
    ensures c in actors && actors[c].parent == a && c in actors[a].children && Under(actors, c, x)
    decreases x
  {
    var p := actors[x].parent;
    assert NodeOk(actors, x);
    if p == a {
      c := x;
    } else {
      c := ChildTowards(actors, a, p);
    }
  }

  lemma {:induction false} SubtreeClosed(actors: Actors, a: Id)
    requires Linked(actors)
    ensures DownClosed(actors, Subtree(actors, a))
  {
    forall x | x in actors && actors[x].parent in Subtree(actors, a)
      ensures x in Subtree(actors, a)
    {
      assert NodeOk(actors, x) && NodeOk(actors, actors[x].parent);
    }
  }

  /** Removing a down-closed set makes no orphans and leaves those that are there. */
  lemma {:induction false} OrphansSurvive(actors: Actors, gone: set<Id>, id: Id)
    requires DownClosed(actors, gone) && id in actors - gone
    ensures Orphan(actors - gone, id) <==> Orphan(actors, id)
  {
  }
}
