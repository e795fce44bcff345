/** Whole runs of the registry: adds split into their three critical sections and interleaved with
    stops and the shutdown. The history kept beside the registry (hook calls, commits, how many of them
    came before the shutdown, and which came after their parent was gone) is what the theorems are about. */
module Lifecycle {
  import opened Types
  import opened Registry
  import opened Supervision
  import opened Escalation
  import opened Counting

  /** An `add_actor` call in flight: its id is taken, then the parent is looked up and the name built. */
  datatype Pending =
    | Asked(parent: Id, leaf: string, actor: ActorRef)
    | Named(parent: Id, name: string, actor: ActorRef)

  datatype Commit = Commit(id: Id, name: string)

  datatype World = World(reg: Registry, usrRoot: Id, pending: map<Id, Pending>, down: bool,
                         log: seq<Event>, commits: seq<Commit>, cut: nat, late: set<Id>)

  datatype Step =
    | Reserve(parent: Id, leaf: string, actor: ActorRef)
    | Lookup(id: Id)
    | Enter(id: Id)
    | AdoptUsrRoot(id: Id)
    | StopSubtree(id: Id, reason: StoppingReason, order: seq<Id>)
    | Shutdown(order: seq<Id>)

  const INITIAL: World := World(Registry(map[], map[], map[], 1), NO_ADDRESS, map[], false, [], [], 0, {})

  ghost function Ids(commits: seq<Commit>): set<Id> {
    set c | c in commits :: c.id
  }

  function Supervisor(w: World, parent: Id): Id {
    if parent == NO_ADDRESS then w.usrRoot else parent
  }

  predicate NoneOrLive(w: World, parent: Id) {
    parent == NO_ADDRESS || parent in w.reg.actors
  }

  /** Callers pass addresses they were given by an earlier add, and the 64-bit id space is not exhausted.
      The parent is registered at the lookup, whose result is dereferenced; by the commit it may be gone.
      Adds and stops of threads outside the pools go on after the shutdown. */
  ghost predicate Enabled(w: World, s: Step) {
    match s
    case Reserve(parent, leaf, actor) => w.reg.nextId < EMPTY_ID && Supervisor(w, parent) < w.reg.nextId
    case Lookup(id) => id in w.pending && w.pending[id].Asked? && NoneOrLive(w, w.pending[id].parent)
    case Enter(id) => id in w.pending && w.pending[id].Named?
    case AdoptUsrRoot(id) => w.usrRoot == NO_ADDRESS && id < w.reg.nextId
    case StopSubtree(id, reason, order) => PostOrder(w.reg.actors, id, order)
    case Shutdown(order) => !w.down && multiset(order) == multiset(w.reg.actors.Keys)
  }

  ghost function Entered(w: World, id: Id): World
    requires id in w.pending && w.pending[id].Named?
  {
    var p := w.pending[id];
    w.(reg := Committed(w.reg, id, p.actor, p.parent, p.name),
       pending := w.pending - {id},
       commits := w.commits + [Commit(id, p.name)],
       late := if NoneOrLive(w, p.parent) then w.late else w.late + {id})
  }

  /** What a step does; one that is not enabled does nothing. */
  ghost function Next(w: World, s: Step): World {
    if !Enabled(w, s) then w
    else
      match s
      case Reserve(parent, leaf, actor) =>
        w.(reg := w.reg.(nextId := w.reg.nextId + 1),
           pending := w.pending[w.reg.nextId := Asked(Supervisor(w, parent), leaf, actor)])
      case Lookup(id) =>
        var p := w.pending[id];
        var prefix := if p.parent == NO_ADDRESS then "" else w.reg.actors[p.parent].name;
        w.(pending := w.pending[id := Named(p.parent, Path(prefix, p.leaf), p.actor)])
      case Enter(id) => Entered(w, id)
      case AdoptUsrRoot(id) => w.(usrRoot := id)
      case StopSubtree(id, reason, order) =>
        w.(reg := Removed(w.reg, Subtree(w.reg.actors, id)), log := w.log + Notices(w.reg.actors, order, reason))
      case Shutdown(order) =>
        w.(reg := Registry(map[], map[], map[], w.reg.nextId), down := true, cut := |w.commits|,
           log := w.log + seq(|order|, i requires 0 <= i < |order| => OnStop(order[i])))
  }

  ghost predicate ValidRun(w: World, steps: seq<Step>)
    decreases |steps|
  {
    steps == [] || (Enabled(w, steps[0]) && ValidRun(Next(w, steps[0]), steps[1..]))
  }

  ghost function Final(w: World, steps: seq<Step>): World
    decreases |steps|
  {
    if steps == [] then w else Final(Next(w, steps[0]), steps[1..])
  }

  /** The last actor committed under `name`, whether or not it still lives. */
  ghost function LastCommit(commits: seq<Commit>, name: string): Option<Id> {
    if commits == [] then None
    else
      var n := |commits| - 1;
      if commits[n].name == name then Some(commits[n].id) else LastCommit(commits[..n], name)
  }

  ghost predicate PendingOk(w: World, id: Id)
    requires id in w.pending
  {
    var p := w.pending[id];
    && Reserved(w.reg, id)
    && p.parent < id
    && id !in Ids(w.commits)
    && (p.Named? ==> NameFits(w.reg, p.parent, p.name) && (p.parent == NO_ADDRESS || p.parent in Ids(w.commits)))
  }

  ghost predicate DistinctIds(commits: seq<Commit>) {
    forall i, j :: 0 <= i < j < |commits| ==> commits[i].id != commits[j].id
  }

  ghost predicate LiveCommitted(actors: Actors, commits: seq<Commit>) {
    forall id <- actors :: Commit(id, actors[id].name) in commits
  }

  ghost predicate Indexed(idByName: map<string, Id>, commits: seq<Commit>) {
    forall name :: LastCommit(commits, name) == if name in idByName then Some(idByName[name]) else None
  }

  /** Since the shutdown, if there was one, every live actor was committed under its name and the name index is
      the history's; no id was ever committed twice. */
  ghost predicate HistoryOk(w: World) {
    && DistinctIds(w.commits)
    && (forall c <- w.commits :: c.id < w.reg.nextId)
    && w.cut <= |w.commits| && (!w.down ==> w.cut == 0)
    && LiveCommitted(w.reg.actors, w.commits[w.cut..])
    && Indexed(w.reg.idByName, w.commits[w.cut..])
  }

  /** `on_stop` was called once for every committed actor that is gone, and for nobody else. */
  ghost predicate StopsOk(w: World) {
    forall id :: multiset(w.log)[OnStop(id)] == if id in Ids(w.commits) && id !in w.reg.actors then 1 else 0
  }

  /** The orphans are the live actors whose commit was late. */
  ghost predicate LateOk(w: World) {
    && w.late <= Ids(w.commits)
    && forall id <- w.reg.actors :: Orphan(w.reg.actors, id) <==> id in w.late
  }

  ghost predicate Inv(w: World) {
    && WellFormed(w.reg)
    && w.usrRoot < w.reg.nextId
    && (forall id <- w.pending :: PendingOk(w, id))
    && HistoryOk(w)
    && StopsOk(w)
    && LateOk(w)
  }

  lemma {:induction false} LiveIsCommitted(w: World, id: Id)
    requires HistoryOk(w) && id in w.reg.actors
    ensures Commit(id, w.reg.actors[id].name) in w.commits && id in Ids(w.commits)
  {
    assert Commit(id, w.reg.actors[id].name) in w.commits[w.cut..];
  }

  lemma {:induction false} CountStops(order: seq<Id>, x: Id)
    ensures multiset(seq(|order|, i requires 0 <= i < |order| => OnStop(order[i])))[OnStop(x)] == multiset(order)[x]
  {
    if order != [] {
      var n := |order| - 1;
      CountStops(order[..n], x);
      assert order == order[..n] + [order[n]];
      assert seq(|order|, i requires 0 <= i < |order| => OnStop(order[i]))
          == seq(n, i requires 0 <= i < n => OnStop(order[..n][i])) + [OnStop(order[n])];
    }
  }

  lemma {:induction false} ReserveKeepsInv(w: World, s: Step)
    requires Inv(w) && Enabled(w, s) && s.Reserve?
    ensures Inv(Next(w, s))
  {
    var w' := Next(w, s);
    assert Linked(w'.reg.actors);
    forall a | a in w.reg.actors
      ensures w.reg.actors[a].parent != w.reg.nextId
    {
      assert NodeOk(w.reg.actors, a);
    }
    forall id | id in w'.pending
      ensures PendingOk(w', id)
    {
      if id in w.pending {
        assert PendingOk(w, id);
      }
    }
  }

  lemma {:induction false} LookupKeepsInv(w: World, s: Step)
    requires Inv(w) && Enabled(w, s) && s.Lookup?
    ensures Inv(Next(w, s))
  {
    var w' := Next(w, s);
    forall id | id in w'.pending
      ensures PendingOk(w', id)
    {
      assert PendingOk(w, id);
      if id == s.id && w.pending[id].parent in w.reg.actors {
        LiveIsCommitted(w, w.pending[id].parent);
      }
    }
  }

  lemma {:induction false} EnterKeepsPending(w: World, s: Step, id: Id)
    requires Enabled(w, s) && s.Enter? && id in w.pending && id != s.id && w.reg.nextId <= EMPTY_ID
    requires PendingOk(w, id) && PendingOk(w, s.id)
    ensures PendingOk(Next(w, s), id)
  {
    IdsSnoc(w.commits, Commit(s.id, w.pending[s.id].name));
  }

  lemma {:induction false} IdsSnoc(commits: seq<Commit>, c: Commit)
    ensures Ids(commits + [c]) == Ids(commits) + {c.id}
    ensures forall d <- commits :: d.id in Ids(commits)
  {
    assert forall d :: d in commits + [c] <==> d in commits || d == c;
  }

  lemma {:induction false} EnterKeepsStops(w: World, s: Step)
    requires Enabled(w, s) && s.Enter? && PendingOk(w, s.id) && StopsOk(w)
    ensures StopsOk(Next(w, s))
  {
    IdsSnoc(w.commits, Commit(s.id, w.pending[s.id].name));
  }

  lemma {:induction false} DistinctSnoc(commits: seq<Commit>, c: Commit)
    requires DistinctIds(commits) && c.id !in Ids(commits)
    ensures DistinctIds(commits + [c])
  {
    forall i | 0 <= i < |commits|
      ensures commits[i].id != c.id
    {
      assert commits[i] in commits;
    }
  }

  lemma {:induction false} IndexedSnoc(idByName: map<string, Id>, commits: seq<Commit>, c: Commit)
    requires Indexed(idByName, commits)
    ensures Indexed(idByName[c.name := c.id], commits + [c])
  {
    assert (commits + [c])[..|commits|] == commits;
  }

  lemma {:induction false} LiveCommittedSnoc(r: Registry, commits: seq<Commit>, id: Id, actor: ActorRef, parent: Id, name: string)
    requires LiveCommitted(r.actors, commits)
    ensures LiveCommitted(Committed(r, id, actor, parent, name).actors, commits + [Commit(id, name)])
  {
    var actors := Committed(r, id, actor, parent, name).actors;
    forall x | x in actors
      ensures Commit(x, actors[x].name) in commits + [Commit(id, name)]
    {
      if x != id {
        assert Commit(x, r.actors[x].name) in commits;
      }
    }
  }

  lemma {:induction false} EnterKeepsHistory(w: World, s: Step)
    requires Enabled(w, s) && s.Enter? && PendingOk(w, s.id) && HistoryOk(w)
    ensures HistoryOk(Next(w, s))
  {
    var p := w.pending[s.id];
    var since := w.commits[w.cut..];
    assert (w.commits + [Commit(s.id, p.name)])[w.cut..] == since + [Commit(s.id, p.name)];
    DistinctSnoc(w.commits, Commit(s.id, p.name));
    LiveCommittedSnoc(w.reg, since, s.id, p.actor, p.parent, p.name);
    IndexedSnoc(w.reg.idByName, since, Commit(s.id, p.name));
  }

  lemma {:induction false} EnterKeepsLate(w: World, s: Step)
    requires Enabled(w, s) && s.Enter? && PendingOk(w, s.id) && LateOk(w) && w.reg.nextId <= EMPTY_ID
    ensures LateOk(Next(w, s))
  {
    var p, w' := w.pending[s.id], Next(w, s);
    IdsSnoc(w.commits, Commit(s.id, p.name));
    forall id | id in w'.reg.actors
      ensures Orphan(w'.reg.actors, id) <==> id in w'.late
    {
      CommitOrphans(w.reg, s.id, p.actor, p.parent, p.name, id);
    }
  }

  lemma {:induction false} EnterKeepsInv(w: World, s: Step)
    requires Inv(w) && Enabled(w, s) && s.Enter?
    ensures Inv(Next(w, s))
  {
    var p := w.pending[s.id];
    assert PendingOk(w, s.id);
    CommitKeepsWellFormed(w.reg, s.id, p.actor, p.parent, p.name);
    EnterKeepsLate(w, s);
    forall id | id in Next(w, s).pending
      ensures PendingOk(Next(w, s), id)
    {
      assert PendingOk(w, id);
      EnterKeepsPending(w, s, id);
    }
    EnterKeepsHistory(w, s);
    EnterKeepsStops(w, s);
  }

  /** The hooks of a stop: one `on_stop` for each actor of the subtree. */
  lemma {:induction false} StopKeepsStops(w: World, s: Step)
    requires Inv(w) && Enabled(w, s) && s.StopSubtree?
    ensures StopsOk(Next(w, s))
  {
    var gone := Subtree(w.reg.actors, s.id);
    forall id
      ensures multiset(Next(w, s).log)[OnStop(id)] == if id in Ids(w.commits) && id !in w.reg.actors - gone then 1 else 0
    {
      CountPostOrder(w.reg.actors, s.id, s.order, s.reason, id);
      if id in w.reg.actors {
        LiveIsCommitted(w, id);
      }
    }
  }

  /** A stop calls the hooks that the law of stopping says, with its own reason, after everything called before. */
  lemma {:induction false} StopStepTells(w: World, s: Step)
    requires WellFormed(w.reg) && Enabled(w, s) && s.StopSubtree?
    ensures var w' := Next(w, s);
      w.log <= w'.log && Told(w.reg.actors, Subtree(w.reg.actors, s.id), w'.log[|w.log|..], s.reason)
  {
    StopTells(w.reg.actors, s.id, s.order, s.reason);
    assert Next(w, s).log[|w.log|..] == Notices(w.reg.actors, s.order, s.reason);
  }

  lemma {:induction false} StopKeepsInv(w: World, s: Step)
    requires Inv(w) && Enabled(w, s) && s.StopSubtree?
    ensures Inv(Next(w, s))
  {
    StopKeepsWellFormed(w.reg, s.id);
    StopKeepsStops(w, s);
    var w' := Next(w, s);
    forall id | id in w'.pending
      ensures PendingOk(w', id)
    {
      assert PendingOk(w, id);
    }
    forall id | id in w'.reg.actors
      ensures Commit(id, w'.reg.actors[id].name) in w'.commits[w'.cut..]
    {
      assert Commit(id, w.reg.actors[id].name) in w.commits[w.cut..];
    }
  }

  lemma {:induction false} ShutdownStops(w: World, s: Step, id: Id)
    requires Inv(w) && Enabled(w, s) && s.Shutdown?
    ensures multiset(Next(w, s).log)[OnStop(id)] == if id in Ids(w.commits) then 1 else 0
  {
    CountStops(s.order, id);
    assert multiset(s.order)[id] == if id in w.reg.actors then 1 else 0;
    if id in w.reg.actors {
      LiveIsCommitted(w, id);
    }
  }

  lemma {:induction false} ShutdownKeepsInv(w: World, s: Step)
    requires Inv(w) && Enabled(w, s) && s.Shutdown?
    ensures Inv(Next(w, s))
  {
    assert Next(w, s).commits[Next(w, s).cut..] == [];
    forall id | id in w.pending
      ensures PendingOk(Next(w, s), id)
    {
      assert PendingOk(w, id);
    }
    forall id
      ensures multiset(Next(w, s).log)[OnStop(id)] == if id in Ids(w.commits) then 1 else 0
    {
      ShutdownStops(w, s, id);
    }
  }

  lemma {:induction false} StepKeepsInv(w: World, s: Step)
    requires Inv(w) && Enabled(w, s)
    ensures Inv(Next(w, s))
  {
    match s
    case Reserve(_, _, _) => ReserveKeepsInv(w, s);
    case Lookup(_) => LookupKeepsInv(w, s);
    case Enter(_) => EnterKeepsInv(w, s);
    case AdoptUsrRoot(_) =>
      forall id | id in w.pending
        ensures PendingOk(Next(w, s), id)
      {
        assert PendingOk(w, id);
      }
    case StopSubtree(_, _, _) => StopKeepsInv(w, s);
    case Shutdown(_) => ShutdownKeepsInv(w, s);
  }

  lemma {:induction false} RunKeepsInv(w: World, steps: seq<Step>)
    requires Inv(w) && ValidRun(w, steps)
    ensures Inv(Final(w, steps))
    decreases |steps|
  {
    if steps != [] {
      StepKeepsInv(w, steps[0]);
      RunKeepsInv(Next(w, steps[0]), steps[1..]);
    }
  }

  /** In every reachable state the registry is well formed, so the mailbox worker finds no mailbox
      without an actor; the ids handed out so far are all distinct; and the orphans are exactly the
      live actors that were committed after their parent was gone. */
  lemma {:induction false} RegistryWellFormed(steps: seq<Step>)
    requires ValidRun(INITIAL, steps)
    ensures var w := Final(INITIAL, steps);
      && WellFormed(w.reg)
      && (forall id <- w.reg.mboxes :: id in w.reg.actors)
      && DistinctIds(w.commits)
      && (forall id <- w.reg.actors :: Orphan(w.reg.actors, id) <==> id in w.late)
  {
    RunKeepsInv(INITIAL, steps);
  }

  /** No state of the run has an orphan. */
  ghost predicate NeverOrphans(w: World, steps: seq<Step>)
    requires ValidRun(w, steps)
    decreases |steps|
  {
    NoOrphans(w.reg.actors) && (steps != [] ==> NeverOrphans(Next(w, steps[0]), steps[1..]))
  }

  lemma {:induction false} LateGrows(w: World, steps: seq<Step>)
    requires ValidRun(w, steps)
    ensures w.late <= Final(w, steps).late
    decreases |steps|
  {
    if steps != [] {
      LateGrows(Next(w, steps[0]), steps[1..]);
    }
  }

  /** A run keeps the registry free of orphans throughout exactly if no commit of it was late. */
  lemma {:induction false} OrphansComeLate(w: World, steps: seq<Step>)
    requires Inv(w) && w.late == {} && ValidRun(w, steps)
    ensures NeverOrphans(w, steps) <==> Final(w, steps).late == {}
    decreases |steps|
  {
    if steps != [] {
      var w' := Next(w, steps[0]);
      StepKeepsInv(w, steps[0]);
      LateGrows(w', steps[1..]);
      if w'.late == {} {
        OrphansComeLate(w', steps[1..]);
      } else {
        assert steps[0].id in w'.late && Orphan(w'.reg.actors, steps[0].id);
      }
    }
  }

  /** An actor committed before the shutdown has received `on_stop` exactly once after it. In every state an
      actor that is registered has received none, one that was and is no more exactly one, and nobody else any;
      so an add that commits after the shutdown is left without one. */
  lemma {:induction false} OnStopExactlyOnce(steps: seq<Step>, id: Id)
    requires ValidRun(INITIAL, steps)
    ensures var w := Final(INITIAL, steps);
      && w.cut <= |w.commits|
      && (w.down && id in Ids(w.commits[..w.cut]) ==> multiset(w.log)[OnStop(id)] == 1)
      && (id in Ids(w.commits) && id !in w.reg.actors ==> multiset(w.log)[OnStop(id)] == 1)
      && (id !in Ids(w.commits) || id in w.reg.actors ==> multiset(w.log)[OnStop(id)] == 0)
  {
    RunKeepsInv(INITIAL, steps);
    var w := Final(INITIAL, steps);
    if id in Ids(w.commits[..w.cut]) {
      BeforeTheCut(w, id);
    }
  }

  lemma {:induction false} BeforeTheCut(w: World, id: Id)
    requires HistoryOk(w) && id in Ids(w.commits[..w.cut])
    ensures id in Ids(w.commits) && id !in w.reg.actors
  {
    var i :| 0 <= i < w.cut && w.commits[i].id == id;
    assert w.commits[i] in w.commits;
  }

  /** No hook on an absent actor: a step that calls `on_stop` for an id finds it registered and removes it. */
  lemma {:induction false} OnStopWhileRegistered(steps: seq<Step>, s: Step, id: Id)
    requires ValidRun(INITIAL, steps) && Enabled(Final(INITIAL, steps), s)
    requires var w := Final(INITIAL, steps); multiset(Next(w, s).log)[OnStop(id)] != multiset(w.log)[OnStop(id)]
    ensures id in Final(INITIAL, steps).reg.actors && id !in Next(Final(INITIAL, steps), s).reg.actors
  {
    RunKeepsInv(INITIAL, steps);
    var w := Final(INITIAL, steps);
    StepKeepsInv(w, s);
    assert Next(w, s).commits == w.commits;
  }

  lemma {:induction false} LastCommitNamed(commits: seq<Commit>, name: string)
    ensures LastCommit(commits, name).Some? ==> Commit(LastCommit(commits, name).value, name) in commits
    ensures LastCommit(commits, name).None? ==> forall c <- commits :: c.name != name
  {
    if commits != [] {
      var n := |commits| - 1;
      LastCommitNamed(commits[..n], name);
      assert commits == commits[..n] + [commits[n]];
    }
  }

  /** Lookup by name agrees with the history since the shutdown, or since the beginning if there was none: it
      returns the last actor committed under that path while it lives, and nothing otherwise, even if an older
      actor of the same path lives. */
  lemma {:induction false} NameLookup(steps: seq<Step>, name: string)
    requires ValidRun(INITIAL, steps)
    ensures var w := Final(INITIAL, steps);
      && w.cut <= |w.commits| && (!w.down ==> w.cut == 0)
      && FindAddress(w.reg, name) == FoundFor(w.reg.actors, LastCommit(w.commits[w.cut..], name), name)
  {
    RunKeepsInv(INITIAL, steps);
    var w := Final(INITIAL, steps);
    DistinctSince(w.commits, w.cut);
    LookupAgrees(w.reg, w.commits[w.cut..], name);
  }

  lemma {:induction false} DistinctSince(commits: seq<Commit>, k: nat)
    requires DistinctIds(commits) && k <= |commits|
    ensures DistinctIds(commits[k..])
  {
  }

  /** The address found for the last commit under a name. */
  ghost function FoundFor(actors: Actors, last: Option<Id>, name: string): Address {
    if last.Some? && last.value in actors then Address(last.value, name) else Address(NO_ADDRESS, "")
  }

  lemma {:induction false} LookupAgrees(r: Registry, since: seq<Commit>, name: string)
    requires Linked(r.actors) && DistinctIds(since) && LiveCommitted(r.actors, since) && Indexed(r.idByName, since)
    ensures FindAddress(r, name) == FoundFor(r.actors, LastCommit(since, name), name)
  {
    LastCommitNamed(since, name);
    if name in r.idByName && r.idByName[name] in r.actors {
      var id := r.idByName[name];
      assert NodeOk(r.actors, id);
      CommittedOnce(since, Commit(id, name), Commit(id, r.actors[id].name));
    }
  }

  lemma {:induction false} CommittedOnce(commits: seq<Commit>, a: Commit, b: Commit)
    requires DistinctIds(commits)
    requires a in commits && b in commits && a.id == b.id
    ensures a == b
  {
    var i :| 0 <= i < |commits| && commits[i] == a;
    var j :| 0 <= j < |commits| && commits[j] == b;
    assert !(i < j) && !(j < i);
  }

  // ---- Started contexts ----

  /** The guardians are there or were: every add in flight goes below somebody, and only the root has no parent. */
  ghost predicate Started(w: World) {
    && w.usrRoot != NO_ADDRESS
    && (forall id <- w.pending :: w.pending[id].parent != NO_ADDRESS)
    && OnlyRoot(w.reg.actors)
  }

  lemma {:induction false} StepKeepsStarted(w: World, s: Step)
    requires w.reg.nextId <= EMPTY_ID && (forall id <- w.pending :: PendingOk(w, id))
    requires Started(w) && Enabled(w, s)
    ensures Started(Next(w, s))
  {
    if s.Enter? {
      EnterKeepsStarted(w, s.id);
    } else {
      var actors := Next(w, s).reg.actors;
      assert forall id <- actors :: id in w.reg.actors && actors[id] == w.reg.actors[id];
    }
  }

  lemma {:induction false} EnterKeepsStarted(w: World, id: Id)
    requires Started(w) && id in w.pending && w.pending[id].Named?
    requires w.reg.nextId <= EMPTY_ID && PendingOk(w, id)
    ensures Started(Entered(w, id))
  {
    var p := w.pending[id];
    CommitKeepsOnlyRoot(w.reg, id, p.actor, p.parent, p.name);
  }

  lemma {:induction false} RunKeepsStarted(w: World, steps: seq<Step>)
    requires Inv(w) && Started(w) && ValidRun(w, steps)
    ensures Started(Final(w, steps))
    decreases |steps|
  {
    if steps != [] {
      StepKeepsInv(w, steps[0]);
      StepKeepsStarted(w, steps[0]);
      RunKeepsStarted(Next(w, steps[0]), steps[1..]);
    }
  }

  /** The climb in a started context whose root guardian resumes: unless it meets an actor that was committed
      late, it is decided exactly if the direct supervisor is still there. */
  lemma {:induction false} ClimbInRun(w: World, steps: seq<Step>, hook: ErrorHook, d: Description)
    requires Inv(w) && Started(w) && ValidRun(w, steps)
    requires var actors := Final(w, steps).reg.actors;
      && (forall x <- Chain(actors, d.parent) :: x !in Final(w, steps).late)
      && (ROOT in actors ==> forall child :: hook(actors[ROOT].actor, child) == Resume)
    ensures Decided(Final(w, steps).reg.actors, hook, d) <==> d.parent in Final(w, steps).reg.actors
  {
    RunKeepsInv(w, steps);
    RunKeepsStarted(w, steps);
    GuardianDecides(Final(w, steps).reg.actors, hook);
    SomeoneDecides(Final(w, steps).reg.actors, hook, d);
  }

  /** What never changes in a description. */
  predicate SameActor(d: Description, e: Description) {
    d.actor == e.actor && d.address == e.address && d.name == e.name && d.parent == e.parent
  }

  lemma {:induction false} StepKeepsActor(w: World, s: Step, id: Id)
    requires (s.Enter? && s.id in w.pending ==> PendingOk(w, s.id)) && Enabled(w, s)
    requires id in Ids(w.commits) && id in Next(w, s).reg.actors
    ensures id in w.reg.actors && SameActor(Next(w, s).reg.actors[id], w.reg.actors[id])
    ensures id in Ids(Next(w, s).commits)
  {
    if s.Enter? {
      IdsSnoc(w.commits, Commit(s.id, w.pending[s.id].name));
    }
  }

  /** An id means one actor for ever: whoever is registered later under an id committed by now is registered
      under it now, as the same object with the same path and parent. So the supervisor captured when a task was
      posted is the one that a climb finds under that id, if it finds any. */
  lemma {:induction false} RunKeepsActor(w: World, steps: seq<Step>, id: Id)
    requires Inv(w) && ValidRun(w, steps) && id in Ids(w.commits) && id in Final(w, steps).reg.actors
    ensures id in w.reg.actors && SameActor(Final(w, steps).reg.actors[id], w.reg.actors[id])
    decreases |steps|
  {
    if steps != [] {
      var w' := Next(w, steps[0]);
      StepKeepsInv(w, steps[0]);
      CommitsGrow(w, steps[0]);
      RunKeepsActor(w', steps[1..], id);
      StepKeepsActor(w, steps[0], id);
    }
  }

  lemma {:induction false} CommitsGrow(w: World, s: Step)
    ensures Ids(w.commits) <= Ids(Next(w, s).commits)
  {
    if s.Enter? && Enabled(w, s) {
      IdsSnoc(w.commits, Commit(s.id, w.pending[s.id].name));
    }
  }

  /** Mailboxes are the mailboxes' own: an add makes one, empty, a stop takes away those of its subtree, and no
      section of an add or a stop touches the messages in any other. */
  lemma {:induction false} OtherMailboxesKept(w: World, s: Step, id: Id)
    requires Enabled(w, s) && !s.Shutdown?
    ensures id in Next(w, s).reg.mboxes <==>
      (s.Enter? && s.id == id) || (id in w.reg.mboxes && !(s.StopSubtree? && id in Subtree(w.reg.actors, s.id)))
    ensures id in Next(w, s).reg.mboxes ==>
      Next(w, s).reg.mboxes[id] == if s.Enter? && s.id == id then [] else w.reg.mboxes[id]
  {
  }

  /** A task posted in one state and failing in a later one: what was captured then agrees with the registry now. */
  lemma {:induction false} CapturedParentAgrees(before: seq<Step>, steps: seq<Step>, target: Id)
    requires ValidRun(INITIAL, before) && ValidRun(Final(INITIAL, before), steps)
    requires target in Final(INITIAL, before).reg.actors
    ensures var w := Final(INITIAL, before);
      var p, now := w.reg.actors[target].parent, Final(w, steps).reg.actors;
      p in w.reg.actors && p in now ==> now[p].actor == w.reg.actors[p].actor
  {
    RunKeepsInv(INITIAL, before);
    var w := Final(INITIAL, before);
    var p := w.reg.actors[target].parent;
    if p in w.reg.actors && p in Final(w, steps).reg.actors {
      LiveIsCommitted(w, p);
      RunKeepsActor(w, steps, p);
    }
  }

  /** An add that nobody interrupts is the three steps in a row: the sequential contract is a run of this system. */
  lemma {:induction false} AddIsThreeSteps(w: World, parent: Id, leaf: string, actor: ActorRef)
    requires Enabled(w, Reserve(parent, leaf, actor)) && NoneOrLive(w, Supervisor(w, parent))
    ensures var id, p := w.reg.nextId, Supervisor(w, parent);
      var name := (if p == NO_ADDRESS then "" else w.reg.actors[p].name) + "/" + leaf;
      var steps := [Reserve(parent, leaf, actor), Lookup(id), Enter(id)];
      && ValidRun(w, steps)
      && Final(w, steps) == w.(reg := Committed(w.reg.(nextId := id + 1), id, actor, p, name),
                               pending := w.pending - {id},
                               commits := w.commits + [Commit(id, name)])
      && Final(w, steps).reg.mboxes == w.reg.mboxes[id := []]
      && id in Final(w, steps).reg.actors
      && Final(w, steps).reg.actors[id] ==
           Description(actor, Address(id, name), name, if p == NO_ADDRESS then EMPTY_ID else p, {})
  {
    var id := w.reg.nextId;
    var s0, s1, s2 := Reserve(parent, leaf, actor), Lookup(id), Enter(id);
    var w1 := Next(w, s0);
    var w2 := Next(w1, s1);
    assert w2.pending - {id} == w.pending - {id};
    Unroll(w2, [s2]);
    Unroll(w1, [s1, s2]);
    Unroll(w, [s0, s1, s2]);
  }

  lemma {:induction false} Unroll(w: World, steps: seq<Step>)
    requires steps != [] && Enabled(w, steps[0]) && ValidRun(Next(w, steps[0]), steps[1..])
    ensures ValidRun(w, steps) && Final(w, steps) == Final(Next(w, steps[0]), steps[1..])
  {
  }

  lemma {:induction false} TailOfSum(a: seq<Step>, b: seq<Step>)
    requires a != []
    ensures (a + b)[0] == a[0] && (a + b)[1..] == a[1..] + b
  {
  }

  lemma {:induction false} Concat(w: World, a: seq<Step>, b: seq<Step>)
    requires ValidRun(w, a) && ValidRun(Final(w, a), b)
    ensures ValidRun(w, a + b) && Final(w, a + b) == Final(Final(w, a), b)
    decreases |a|
  {
    if a == [] {
      assert a + b == b;
    } else {
      TailOfSum(a, b);
      Concat(Next(w, a[0]), a[1..], b);
    }
  }

  lemma {:induction false} Extend(w: World, steps: seq<Step>, s: Step)
    requires ValidRun(w, steps) && Enabled(Final(w, steps), s)
    ensures ValidRun(w, steps + [s]) && Final(w, steps + [s]) == Next(Final(w, steps), s)
  {
    Unroll(Final(w, steps), [s]);
    Concat(w, steps, [s]);
  }

  /** The three adds of `start` and the adoption of the user guardian, from the beginning. */
  lemma {:induction false} StartRun(root: ActorRef, usr: ActorRef, sys: ActorRef) returns (steps: seq<Step>)
    ensures ValidRun(INITIAL, steps)
    ensures var w := Final(INITIAL, steps);
      && Started(w) && w.usrRoot == 2 && w.reg.nextId == 4 && w.pending == map[] && !w.down && w.late == {}
      && GuardiansAdded(map[], w.reg.actors, ROOT, root, usr, sys)
  {
    GuardiansCommitted(INITIAL.reg, root, usr, sys);
    AddIsThreeSteps(INITIAL, NO_ADDRESS, "root", root);
    steps := [Reserve(NO_ADDRESS, "root", root), Lookup(1), Enter(1)];
    var w1 := Final(INITIAL, steps);
    assert w1.reg == WithRoot(INITIAL.reg, root);
    AddIsThreeSteps(w1, 1, "usr", usr);
    var more := [Reserve(1, "usr", usr), Lookup(2), Enter(2)];
    Concat(INITIAL, steps, more);
    steps := steps + more;
    var w2 := Final(INITIAL, steps);
    assert w2.reg == WithGuardian(w1.reg, 1, "usr", usr);
    Extend(INITIAL, steps, AdoptUsrRoot(2));
    steps := steps + [AdoptUsrRoot(2)];
    var w3 := Final(INITIAL, steps);
    AddIsThreeSteps(w3, 1, "sys", sys);
    more := [Reserve(1, "sys", sys), Lookup(3), Enter(3)];
    Concat(INITIAL, steps, more);
    steps := steps + more;
    assert Final(INITIAL, steps).reg == WithGuardian(w2.reg, 1, "sys", sys);
  }

  // ---- The race between lookup and commit ----

  /** For all worlds: a due commit registers an orphan exactly if its parent was stopped after the lookup,
      which nothing in the original prevents. */
  lemma {:induction false} LateCommitMakesOrphan(w: World, id: Id)
    requires Inv(w) && id in w.pending && w.pending[id].Named?
    ensures WellFormed(Entered(w, id).reg)
    ensures Orphan(Entered(w, id).reg.actors, id) <==> !NoneOrLive(w, w.pending[id].parent)
  {
    var p := w.pending[id];
    assert PendingOk(w, id);
    CommitKeepsWellFormed(w.reg, id, p.actor, p.parent, p.name);
    CommitOrphans(w.reg, id, p.actor, p.parent, p.name, id);
  }

  /** A child of a user actor has been looked up but not committed. */
  lemma {:induction false} ChildInFlight() returns (steps: seq<Step>)
    ensures ValidRun(INITIAL, steps)
    ensures var w := Final(INITIAL, steps);
      && Started(w) && !w.down && w.late == {} && w.reg.actors.Keys == {1, 2, 3, 4}
      && 5 in w.pending && w.pending[5].Named? && w.pending[5].parent == 4
  {
    steps := StartRun(0, 1, 2);
    var w := Final(INITIAL, steps);
    AddIsThreeSteps(w, NO_ADDRESS, "p", 3);
    var more := [Reserve(NO_ADDRESS, "p", 3), Lookup(4), Enter(4)];
    Concat(INITIAL, steps, more);
    steps := steps + more;
    w := Final(INITIAL, steps);
    assert w.reg.actors.Keys == {1, 2, 3, 4} && w.reg.nextId == 5;
    Extend(INITIAL, steps, Reserve(4, "c", 4));
    steps := steps + [Reserve(4, "c", 4)];
    Extend(INITIAL, steps, Lookup(5));
    steps := steps + [Lookup(5)];
    w := Final(INITIAL, steps);
  }

  /** The youngest actor is alone in its subtree. */
  lemma {:induction false} StopYoungest(w: World, id: Id)
    requires id in w.reg.actors && forall x <- w.reg.actors :: x <= id
    ensures var s := StopSubtree(id, Manual, [id]);
      && Enabled(w, s)
      && var w' := Next(w, s);
         w'.pending == w.pending && w'.down == w.down && w'.reg.actors == w.reg.actors - {id}
  {
    forall x | x in Subtree(w.reg.actors, id)
      ensures x == id
    {
      UnderIsOlder(w.reg.actors, id, x);
    }
    assert Subtree(w.reg.actors, id) == {id};
  }

  lemma {:induction false} LateCommit(w: World, id: Id)
    requires Inv(w) && Started(w) && id in w.pending && w.pending[id].Named? && !NoneOrLive(w, w.pending[id].parent)
    ensures var w' := Next(w, Enter(id));
      && Started(w') && w'.down == w.down && w'.reg.actors.Keys == w.reg.actors.Keys + {id}
      && Orphan(w'.reg.actors, id)
  {
    LateCommitMakesOrphan(w, id);
    StepKeepsStarted(w, Enter(id));
  }

  /** The parent is stopped between the lookup and the commit of its child. */
  lemma {:induction false} StopThenCommit(steps: seq<Step>, parent: Id, id: Id)
    requires ValidRun(INITIAL, steps)
    requires var w := Final(INITIAL, steps);
      && Started(w) && parent in w.reg.actors && (forall x <- w.reg.actors :: x <= parent)
      && id in w.pending && w.pending[id].Named? && w.pending[id].parent == parent && parent != NO_ADDRESS
    ensures var steps' := steps + [StopSubtree(parent, Manual, [parent])] + [Enter(id)];
      && ValidRun(INITIAL, steps')
      && var w, w' := Final(INITIAL, steps), Final(INITIAL, steps');
         && Started(w') && w'.down == w.down && w'.reg.actors.Keys == w.reg.actors.Keys - {parent} + {id}
         && Orphan(w'.reg.actors, id)
  {
    var w, s := Final(INITIAL, steps), StopSubtree(parent, Manual, [parent]);
    StopYoungest(w, parent);
    Extend(INITIAL, steps, s);
    RunKeepsInv(INITIAL, steps);
    StepKeepsStarted(w, s);
    StepKeepsInv(w, s);
    LateCommit(Next(w, s), id);
    Extend(INITIAL, steps + [s], Enter(id));
  }

  /** The race happens in a started context with all its guardians. */
  lemma {:induction false} LateCommitReachable() returns (steps: seq<Step>)
    ensures ValidRun(INITIAL, steps)
    ensures var w := Final(INITIAL, steps);
      Started(w) && !w.down && 1 in w.reg.actors && 2 in w.reg.actors && 3 in w.reg.actors
      && 5 in w.reg.actors && Orphan(w.reg.actors, 5)
  {
    steps := ChildInFlight();
    StopThenCommit(steps, 4, 5);
    steps := steps + [StopSubtree(4, Manual, [4])] + [Enter(5)];
  }

  /** The shutdown can overtake an add: its actor is registered afterwards and has no `on_stop`. */
  lemma {:induction false} AddOutlivesShutdown() returns (steps: seq<Step>)
    ensures ValidRun(INITIAL, steps)
    ensures var w := Final(INITIAL, steps); w.down && w.reg.actors.Keys == {5} && multiset(w.log)[OnStop(5)] == 0
  {
    steps := ChildInFlight();
    var order := [1, 2, 3, 4];
    assert multiset(order) == multiset({1, 2, 3, 4});
    Extend(INITIAL, steps, Shutdown(order));
    steps := steps + [Shutdown(order)];
    Extend(INITIAL, steps, Enter(5));
    steps := steps + [Enter(5)];
    OnStopExactlyOnce(steps, 5);
  }
}
