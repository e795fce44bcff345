/** Whole runs over the exchange table: creations, subscriptions, publications, drains of one envelope at a
    time (publishers may run between two pops), collections, and actors coming and going. */
module ExchangeRuns {
  import opened Types
  import opened Exchanges
  import opened Counting

  /** An exchange with its history: for each subscription entry how much had been drained when it was made,
      all that was published, and what each actor received from this exchange. */
  datatype Channel = Channel(x: Exchange, since: seq<nat>, published: seq<Envelope>, got: map<Id, seq<Envelope>>)

  datatype State = State(live: set<Id>, nextId: nat, table: map<string, Channel>)

  datatype Step =
    | Birth
    | Death(gone: set<Id>)
    | Create(owner: Id, name: string)
    | Subscribe(id: Id, name: string)
    | Publish(name: string, e: Envelope)
    | DrainOne(name: string)
    | Collect

  const INITIAL: State := State({}, 1, map[])

  ghost function Got(ch: Channel, id: Id): seq<Envelope> {
    if id in ch.got then ch.got[id] else []
  }

  function Undrained(ch: Channel): nat {
    |ch.x.pub|
  }

  /** How many publications have left the queue; the queue is the tail of all that was published. */
  ghost function DrainedSoFar(ch: Channel): nat {
    if Undrained(ch) <= |ch.published| then |ch.published| - Undrained(ch) else 0
  }

  function Fresh(owner: Id): Channel {
    Channel(Exchange(owner, [], []), [], [], map[])
  }

  /** Addresses used by callers were handed out by an earlier add. */
  ghost predicate Enabled(s: State, step: Step) {
    match step
    case Birth => true
    case Death(gone) => true
    case Create(owner, name) => owner < s.nextId
    case Subscribe(id, name) => id < s.nextId
    case Publish(name, e) => name in s.table
    case DrainOne(name) => name in s.table && s.table[name].x.pub != []
    case Collect => true
  }

  ghost function Subscribed(ch: Channel, id: Id): Channel {
    ch.(x := ch.x.(subscribes := ch.x.subscribes + [id]), since := ch.since + [DrainedSoFar(ch)])
  }

  ghost function Popped(ch: Channel, live: set<Id>): Channel
    requires ch.x.pub != []
  {
    var e := ch.x.pub[0];
    ch.(x := ch.x.(pub := ch.x.pub[1..]),
        got := map id | id in ch.got.Keys + live ::
          Got(ch, id) + if id in live then Copies(e, Entries(ch.x.subscribes, id)) else [])
  }

  /** What a step does; one that is not enabled does nothing. */
  ghost function Next(s: State, step: Step): State {
    if !Enabled(s, step) then s
    else
      match step
      case Birth => s.(live := s.live + {s.nextId}, nextId := s.nextId + 1)
      case Death(gone) => s.(live := s.live - gone)
      case Create(owner, name) => if name in s.table then s else s.(table := s.table[name := Fresh(owner)])
      case Subscribe(id, name) =>
        var ch := if name in s.table then s.table[name] else Fresh(id);
        s.(table := s.table[name := if id in s.live then Subscribed(ch, id) else ch])
      case Publish(name, e) =>
        var ch := s.table[name];
        s.(table := s.table[name := ch.(x := ch.x.(pub := ch.x.pub + [e]), published := ch.published + [e])])
      case DrainOne(name) => s.(table := s.table[name := Popped(s.table[name], s.live)])
      case Collect => s.(table := map n | n in s.table && Kept(s.table[n].x, s.live) :: s.table[n])
  }

  ghost predicate ValidRun(s: State, steps: seq<Step>)
    decreases |steps|
  {
    steps == [] || (Enabled(s, steps[0]) && ValidRun(Next(s, steps[0]), steps[1..]))
  }

  ghost function Final(s: State, steps: seq<Step>): State
    decreases |steps|
  {
    if steps == [] then s else Final(Next(s, steps[0]), steps[1..])
  }

  /** How many entries of `id` were made before publication `m` was drained. */
  ghost function EntriesAt(subs: seq<Id>, since: seq<nat>, id: Id, m: nat): nat
    requires |subs| == |since|
  {
    if subs == [] then 0
    else
      var n := |subs| - 1;
      EntriesAt(subs[..n], since[..n], id, m) + if subs[n] == id && since[n] <= m then 1 else 0
  }

  /** What `id` should have received of the first `n` publications: each once per entry made in time. */
  ghost function Expected(ch: Channel, id: Id, n: nat): seq<Envelope>
    requires |ch.x.subscribes| == |ch.since| && n <= |ch.published|
  {
    if n == 0 then []
    else Expected(ch, id, n - 1) + Copies(ch.published[n - 1], EntriesAt(ch.x.subscribes, ch.since, id, n - 1))
  }

  ghost predicate Shaped(ch: Channel, nextId: nat) {
    && |ch.x.subscribes| == |ch.since|
    && Undrained(ch) <= |ch.published|
    && ch.published[DrainedSoFar(ch)..] == ch.x.pub
    && (forall j :: 0 <= j < |ch.since| ==> ch.since[j] <= DrainedSoFar(ch) && ch.x.subscribes[j] < nextId)
    && (forall id <- ch.got :: id < nextId)
    && ch.x.owner < nextId
  }

  ghost predicate Exact(ch: Channel, id: Id)
    requires |ch.x.subscribes| == |ch.since| && Undrained(ch) <= |ch.published|
  {
    Got(ch, id) == Expected(ch, id, DrainedSoFar(ch))
  }

  ghost predicate ChannelOk(ch: Channel, s: State) {
    Shaped(ch, s.nextId) && forall id <- s.live :: Exact(ch, id)
  }

  ghost predicate Inv(s: State) {
    && 0 < s.nextId
    && (forall id <- s.live :: id < s.nextId)
    && forall name <- s.table :: ChannelOk(s.table[name], s)
  }

  lemma {:induction false} EntriesAtAll(subs: seq<Id>, since: seq<nat>, id: Id, m: nat)
    requires |subs| == |since| && forall j :: 0 <= j < |since| ==> since[j] <= m
    ensures EntriesAt(subs, since, id, m) == Entries(subs, id)
  {
    if subs != [] {
      var n := |subs| - 1;
      EntriesAtAll(subs[..n], since[..n], id, m);
      assert subs == subs[..n] + [subs[n]];
    }
  }

  lemma {:induction false} EntriesAtAbsent(subs: seq<Id>, since: seq<nat>, id: Id, m: nat)
    requires |subs| == |since| && forall j :: 0 <= j < |subs| ==> subs[j] != id
    ensures EntriesAt(subs, since, id, m) == 0
  {
    if subs != [] {
      EntriesAtAbsent(subs[..|subs| - 1], since[..|subs| - 1], id, m);
    }
  }

  lemma {:induction false} ExpectedAbsent(ch: Channel, id: Id, n: nat)
    requires |ch.x.subscribes| == |ch.since| && n <= |ch.published|
    requires forall j :: 0 <= j < |ch.since| ==> ch.x.subscribes[j] != id
    ensures Expected(ch, id, n) == []
  {
    if n > 0 {
      ExpectedAbsent(ch, id, n - 1);
      EntriesAtAbsent(ch.x.subscribes, ch.since, id, n - 1);
    }
  }

  /** Publications and pops do not change what was expected so far. */
  lemma {:induction false} ExpectedSame(a: Channel, b: Channel, id: Id, n: nat)
    requires |a.x.subscribes| == |a.since| && a.x.subscribes == b.x.subscribes && a.since == b.since
    requires n <= |a.published| && a.published <= b.published
    ensures Expected(a, id, n) == Expected(b, id, n)
  {
    if n > 0 {
      ExpectedSame(a, b, id, n - 1);
    }
  }

  /** A new entry counts from the publications drained after it only. */
  lemma {:induction false} ExpectedSubscribed(ch: Channel, who: Id, id: Id, n: nat)
    requires |ch.x.subscribes| == |ch.since| && Undrained(ch) <= |ch.published| && n <= DrainedSoFar(ch)
    ensures Expected(Subscribed(ch, who), id, n) == Expected(ch, id, n)
  {
    if n > 0 {
      ExpectedSubscribed(ch, who, id, n - 1);
      var ch' := Subscribed(ch, who);
      assert ch'.x.subscribes[..|ch.since|] == ch.x.subscribes && ch'.since[..|ch.since|] == ch.since;
    }
  }

  lemma {:induction false} PoppedOk(ch: Channel, s: State)
    requires ChannelOk(ch, s) && ch.x.pub != [] && forall id <- s.live :: id < s.nextId
    ensures ChannelOk(Popped(ch, s.live), s)
  {
    var ch' := Popped(ch, s.live);
    var n := DrainedSoFar(ch);
    assert ch.published[n] == ch.x.pub[0] && DrainedSoFar(ch') == n + 1;
    assert ch'.published[n + 1..] == ch.published[n..][1..];
    forall id | id in s.live
      ensures Exact(ch', id)
    {
      assert Exact(ch, id);
      ExpectedSame(ch, ch', id, n);
      EntriesAtAll(ch.x.subscribes, ch.since, id, n);
    }
  }

  lemma {:induction false} SubscribedShaped(ch: Channel, nextId: nat, who: Id)
    requires Shaped(ch, nextId) && who < nextId
    ensures Shaped(Subscribed(ch, who), nextId) && DrainedSoFar(Subscribed(ch, who)) == DrainedSoFar(ch)
  {
  }

  lemma {:induction false} SubscribedOk(ch: Channel, s: State, who: Id)
    requires ChannelOk(ch, s) && who < s.nextId
    ensures ChannelOk(Subscribed(ch, who), s)
  {
    SubscribedShaped(ch, s.nextId, who);
    forall id | id in s.live
      ensures Exact(Subscribed(ch, who), id)
    {
      assert Exact(ch, id);
      ExpectedSubscribed(ch, who, id, DrainedSoFar(ch));
    }
  }

  lemma {:induction false} PublishedOk(ch: Channel, s: State, e: Envelope)
    requires ChannelOk(ch, s)
    ensures ChannelOk(ch.(x := ch.x.(pub := ch.x.pub + [e]), published := ch.published + [e]), s)
  {
    var ch' := ch.(x := ch.x.(pub := ch.x.pub + [e]), published := ch.published + [e]);
    assert ch'.published[DrainedSoFar(ch')..] == ch.published[DrainedSoFar(ch)..] + [e];
    forall id | id in s.live
      ensures Exact(ch', id)
    {
      assert Exact(ch, id);
      ExpectedSame(ch, ch', id, DrainedSoFar(ch));
    }
  }

  lemma {:induction false} BirthOk(ch: Channel, s: State)
    requires ChannelOk(ch, s)
    ensures ChannelOk(ch, Next(s, Birth))
  {
    ExpectedAbsent(ch, s.nextId, DrainedSoFar(ch));
    forall id | id in s.live + {s.nextId}
      ensures Exact(ch, id)
    {
      assert id in s.live ==> Exact(ch, id);
    }
  }

  lemma {:induction false} FreshOk(owner: Id, s: State)
    requires owner < s.nextId
    ensures ChannelOk(Fresh(owner), s)
  {
    assert DrainedSoFar(Fresh(owner)) == 0;
  }

  lemma {:induction false} StepKeepsOldChannel(s: State, step: Step, name: string)
    requires name in s.table && ChannelOk(s.table[name], s) && forall id <- s.live :: id < s.nextId
    requires Enabled(s, step) && name in Next(s, step).table
    ensures ChannelOk(Next(s, step).table[name], Next(s, step))
  {
    var ch, s' := s.table[name], Next(s, step);
    if step.Birth? {
      BirthOk(ch, s);
    } else if step.Subscribe? && step.name == name {
      SubscribedOk(ch, s, step.id);
    } else if step.Publish? && step.name == name {
      PublishedOk(ch, s, step.e);
    } else if step.DrainOne? && step.name == name {
      PoppedOk(ch, s);
    } else {
      assert s'.table[name] == ch && s'.nextId == s.nextId && s'.live <= s.live;
    }
  }

  lemma {:induction false} StepMakesChannel(s: State, step: Step, name: string)
    requires name !in s.table && Enabled(s, step) && name in Next(s, step).table
    ensures ChannelOk(Next(s, step).table[name], Next(s, step))
  {
    if step.Create? {
      FreshOk(step.owner, s);
    } else if step.Subscribe? {
      FreshOk(step.id, s);
      SubscribedOk(Fresh(step.id), s, step.id);
    }
  }

  lemma {:induction false} StepKeepsInv(s: State, step: Step)
    requires Inv(s) && Enabled(s, step)
    ensures Inv(Next(s, step))
  {
    forall name | name in Next(s, step).table
      ensures ChannelOk(Next(s, step).table[name], Next(s, step))
    {
      if name in s.table {
        StepKeepsOldChannel(s, step, name);
      } else {
        StepMakesChannel(s, step, name);
      }
    }
  }

  lemma {:induction false} RunKeepsInv(s: State, steps: seq<Step>)
    requires Inv(s) && ValidRun(s, steps)
    ensures Inv(Final(s, steps))
    decreases |steps|
  {
    if steps != [] {
      StepKeepsInv(s, steps[0]);
      RunKeepsInv(Next(s, steps[0]), steps[1..]);
    }
  }

  /** Over a whole run a live actor has received from an exchange exactly the drained publications, in publish
      order with their senders, each once per subscription entry made before it was drained. */
  lemma {:induction false} ReceivesExactly(steps: seq<Step>, name: string, id: Id)
    requires ValidRun(INITIAL, steps)
    requires var s := Final(INITIAL, steps); name in s.table && id in s.live
    ensures var ch := Final(INITIAL, steps).table[name];
      && |ch.x.subscribes| == |ch.since| && Undrained(ch) <= |ch.published|
      && ch.published[DrainedSoFar(ch)..] == ch.x.pub
      && Got(ch, id) == Expected(ch, id, DrainedSoFar(ch))
  {
    RunKeepsInv(INITIAL, steps);
    var s := Final(INITIAL, steps);
    assert ChannelOk(s.table[name], s);
    assert Exact(s.table[name], id);
  }

  /** All entries of `id` were made when `p` publications had been drained. */
  ghost predicate Together(subs: seq<Id>, since: seq<nat>, id: Id, p: nat)
    requires |subs| == |since|
  {
    forall j :: 0 <= j < |subs| && subs[j] == id ==> since[j] == p
  }

  lemma {:induction false} ExpectedBefore(ch: Channel, id: Id, p: nat, n: nat)
    requires |ch.x.subscribes| == |ch.since| && n <= |ch.published| && n <= p && Together(ch.x.subscribes, ch.since, id, p)
    ensures Expected(ch, id, n) == []
  {
    if n > 0 {
      ExpectedBefore(ch, id, p, n - 1);
      EntriesAtTogether(ch.x.subscribes, ch.since, id, p, n - 1);
    }
  }

  lemma {:induction false} ExpectedNext(ch: Channel, id: Id, p: nat, n: nat)
    requires |ch.x.subscribes| == |ch.since| && p < n <= |ch.published| && Together(ch.x.subscribes, ch.since, id, p)
    ensures Expected(ch, id, n) == Expected(ch, id, n - 1) + Copies(ch.published[n - 1], Entries(ch.x.subscribes, id))
  {
    EntriesAtTogether(ch.x.subscribes, ch.since, id, p, n - 1);
  }

  /** Then it should have received the segment from `p` on, each envelope once per entry. */
  lemma {:induction false} ExpectedSegment(ch: Channel, id: Id, p: nat, n: nat)
    requires |ch.x.subscribes| == |ch.since| && p <= n <= |ch.published| && Together(ch.x.subscribes, ch.since, id, p)
    ensures Expected(ch, id, n) == Deliveries(ch.published[p..n], Entries(ch.x.subscribes, id))
  {
    if n == p {
      ExpectedBefore(ch, id, p, n);
      assert ch.published[p..n] == [];
    } else {
      ExpectedSegment(ch, id, p, n - 1);
      ExpectedNext(ch, id, p, n);
      DeliveriesSlice(ch.published, p, n, Entries(ch.x.subscribes, id));
    }
  }

  lemma {:induction false} EntriesAtTogether(subs: seq<Id>, since: seq<nat>, id: Id, p: nat, m: nat)
    requires |subs| == |since| && Together(subs, since, id, p)
    ensures EntriesAt(subs, since, id, m) == if p <= m then Entries(subs, id) else 0
  {
    if subs != [] {
      var n := |subs| - 1;
      EntriesAtTogether(subs[..n], since[..n], id, p, m);
      assert subs == subs[..n] + [subs[n]];
    }
  }

  /** One subscription: exactly the part of the publish log not yet drained when it was made. With `k` entries
      made at that moment: each of those envelopes `k` times. */
  lemma {:induction false} SubscriberSegment(steps: seq<Step>, name: string, id: Id, j: nat)
    requires ValidRun(INITIAL, steps)
    requires var s := Final(INITIAL, steps);
      && name in s.table && id in s.live
      && var ch := s.table[name];
         && j < |ch.x.subscribes| == |ch.since| && ch.x.subscribes[j] == id
         && Together(ch.x.subscribes, ch.since, id, ch.since[j])
    ensures var ch := Final(INITIAL, steps).table[name];
      && Undrained(ch) <= |ch.published| && ch.since[j] <= DrainedSoFar(ch)
      && Got(ch, id) == Deliveries(ch.published[ch.since[j]..DrainedSoFar(ch)], Entries(ch.x.subscribes, id))
      && (Entries(ch.x.subscribes, id) == 1 ==> Got(ch, id) == ch.published[ch.since[j]..DrainedSoFar(ch)])
  {
    RunKeepsInv(INITIAL, steps);
    var s := Final(INITIAL, steps);
    var ch := s.table[name];
    assert ChannelOk(ch, s) && Exact(ch, id);
    ExpectedSegment(ch, id, ch.since[j], DrainedSoFar(ch));
    OneEntry(ch.published[ch.since[j]..DrainedSoFar(ch)]);
  }

  /** Pops in a row until the publish queue is empty: the sequential drain of one exchange. */
  ghost function DrainedAll(ch: Channel, live: set<Id>): Channel
    decreases |ch.x.pub|
  {
    if ch.x.pub == [] then ch else DrainedAll(Popped(ch, live), live)
  }

  /** It gives a live actor what the sequential drain gives its mailbox. */
  lemma {:induction false} DrainedAllDelivers(ch: Channel, live: set<Id>, id: Id)
    requires id in live
    ensures DrainedAll(ch, live).x == ch.x.(pub := [])
    ensures Got(DrainedAll(ch, live), id) == Got(ch, id) + Deliveries(ch.x.pub, Entries(ch.x.subscribes, id))
    decreases |ch.x.pub|
  {
    if ch.x.pub != [] {
      var e, rest := ch.x.pub[0], ch.x.pub[1..];
      DrainedAllDelivers(Popped(ch, live), live, id);
      assert ch.x.pub == [e] + rest;
      DeliveriesCons(e, rest, Entries(ch.x.subscribes, id));
    }
  }

  ghost predicate Collectable(s: State, name: string) {
    name in s.table && !Kept(s.table[name].x, s.live)
  }

  predicate LiveSubscription(s: State, step: Step, name: string) {
    step.Subscribe? && step.name == name && step.id in s.live
  }

  /** Only a live subscription makes a collectable exchange worth keeping again; a repeated create does not,
      since it leaves the owner as it was. */
  lemma {:induction false} StepKeepsCollectable(s: State, step: Step, name: string)
    requires Inv(s) && Enabled(s, step) && Collectable(s, name) && !LiveSubscription(s, step, name)
    ensures if step.Collect? then name !in Next(s, step).table
            else Collectable(Next(s, step), name) && Next(s, step).table[name].x.owner == s.table[name].x.owner
  {
    assert ChannelOk(s.table[name], s);
    if step.Birth? {
      var x := s.table[name].x;
      forall id | id in x.subscribes
        ensures id < s.nextId
      {
        var j :| 0 <= j < |x.subscribes| && x.subscribes[j] == id;
      }
    }
  }

  ghost predicate NoLiveSubscription(s: State, steps: seq<Step>, name: string)
    requires ValidRun(s, steps)
    decreases |steps|
  {
    steps == [] || (!LiveSubscription(s, steps[0], name) && NoLiveSubscription(Next(s, steps[0]), steps[1..], name))
  }

  /** So an exchange that is collectable stays so until the next collection, which removes it. */
  lemma {:induction false} CollectableIsStable(s: State, steps: seq<Step>, name: string)
    requires Inv(s) && ValidRun(s, steps) && Collectable(s, name)
    requires NoLiveSubscription(s, steps, name) && Collect !in steps
    ensures Collectable(Final(s, steps), name)
    ensures Final(s, steps).table[name].x.owner == s.table[name].x.owner
    ensures name !in Next(Final(s, steps), Collect).table
    decreases |steps|
  {
    if steps != [] {
      StepKeepsCollectable(s, steps[0], name);
      StepKeepsInv(s, steps[0]);
      CollectableIsStable(Next(s, steps[0]), steps[1..], name);
    }
  }

  /** A collection keeps an exchange as it is while its owner or one of its subscribers lives, and removes it otherwise. */
  lemma {:induction false} CollectKeepsWanted(s: State, name: string)
    requires name in s.table
    ensures var x := s.table[name].x;
      name in Next(s, Collect).table <==> x.owner in s.live || exists i :: 0 <= i < |x.subscribes| && x.subscribes[i] in s.live
    ensures name in Next(s, Collect).table ==> Next(s, Collect).table[name] == s.table[name]
  {
    var x := s.table[name].x;
    if Kept(x, s.live) && x.owner !in s.live {
      var id :| id in x.subscribes && id in s.live;
      var i :| 0 <= i < |x.subscribes| && x.subscribes[i] == id;
    }
  }

  // ---- What the histories record ----

  /** The exchange exists throughout the run. */
  ghost predicate Stays(s: State, steps: seq<Step>, name: string)
    decreases |steps|
  {
    name in s.table && (steps != [] ==> Stays(Next(s, steps[0]), steps[1..], name))
  }

  /** The envelopes published to `name` in a run. */
  function Publications(steps: seq<Step>, name: string): seq<Envelope> {
    if steps == [] then []
    else (if steps[0].Publish? && steps[0].name == name then [steps[0].e] else []) + Publications(steps[1..], name)
  }

  /** How many envelopes of `name` a run drains. */
  function Drains(steps: seq<Step>, name: string): nat {
    if steps == [] then 0
    else (if steps[0].DrainOne? && steps[0].name == name then 1 else 0) + Drains(steps[1..], name)
  }

  /** The registered actors that subscribe to `name` in a run. */
  ghost function Subscriptions(s: State, steps: seq<Step>, name: string): seq<Id>
    decreases |steps|
  {
    if steps == [] then []
    else (if LiveSubscription(s, steps[0], name) then [steps[0].id] else [])
         + Subscriptions(Next(s, steps[0]), steps[1..], name)
  }

  /** How much had been drained at each of these subscriptions. */
  ghost function DrainedThen(s: State, steps: seq<Step>, name: string): seq<nat>
    decreases |steps|
  {
    if steps == [] then []
    else (if LiveSubscription(s, steps[0], name) && name in s.table then [DrainedSoFar(s.table[name])] else [])
         + DrainedThen(Next(s, steps[0]), steps[1..], name)
  }

  lemma {:induction false} StepRecords(s: State, step: Step, name: string)
    requires Enabled(s, step) && name in s.table && name in Next(s, step).table
    requires Undrained(s.table[name]) <= |s.table[name].published|
    ensures var ch, ch' := s.table[name], Next(s, step).table[name];
      && ch'.x.owner == ch.x.owner
      && ch'.published == ch.published + (if step.Publish? && step.name == name then [step.e] else [])
      && ch'.x.subscribes == ch.x.subscribes + (if LiveSubscription(s, step, name) then [step.id] else [])
      && ch'.since == ch.since + (if LiveSubscription(s, step, name) then [DrainedSoFar(ch)] else [])
      && DrainedSoFar(ch') == DrainedSoFar(ch) + (if step.DrainOne? && step.name == name then 1 else 0)
  {
  }

  /** What an exchange records is what the steps did: its publications, one entry for each subscription of a
      registered actor with what had been drained by then, and one drained envelope for each pop. */
  lemma {:induction false} RunRecords(s: State, steps: seq<Step>, name: string)
    requires Inv(s) && ValidRun(s, steps) && Stays(s, steps, name)
    ensures name in Final(s, steps).table
    ensures var ch, ch' := s.table[name], Final(s, steps).table[name];
      && ch'.x.owner == ch.x.owner
      && ch'.published == ch.published + Publications(steps, name)
      && ch'.x.subscribes == ch.x.subscribes + Subscriptions(s, steps, name)
      && ch'.since == ch.since + DrainedThen(s, steps, name)
      && DrainedSoFar(ch') == DrainedSoFar(ch) + Drains(steps, name)
    decreases |steps|
  {
    if steps != [] {
      var step, s', rest := steps[0], Next(s, steps[0]), steps[1..];
      assert ChannelOk(s.table[name], s);
      StepRecords(s, step, name);
      StepKeepsInv(s, step);
      RunRecords(s', rest, name);
      RecordsJoin(s, steps, name, s.table[name], s'.table[name]);
    }
  }

  lemma {:induction false} RecordsJoin(s: State, steps: seq<Step>, name: string, ch: Channel, mid: Channel)
    requires steps != [] && name in s.table && ch == s.table[name]
    requires mid.published == ch.published + (if steps[0].Publish? && steps[0].name == name then [steps[0].e] else [])
    requires mid.x.subscribes == ch.x.subscribes + (if LiveSubscription(s, steps[0], name) then [steps[0].id] else [])
    requires mid.since == ch.since + (if LiveSubscription(s, steps[0], name) then [DrainedSoFar(ch)] else [])
    ensures var s', rest := Next(s, steps[0]), steps[1..];
      && mid.published + Publications(rest, name) == ch.published + Publications(steps, name)
      && mid.x.subscribes + Subscriptions(s', rest, name) == ch.x.subscribes + Subscriptions(s, steps, name)
      && mid.since + DrainedThen(s', rest, name) == ch.since + DrainedThen(s, steps, name)
  {
    var s', rest := Next(s, steps[0]), steps[1..];
    Associative(ch.published, if steps[0].Publish? && steps[0].name == name then [steps[0].e] else [], Publications(rest, name));
    Associative(ch.x.subscribes, if LiveSubscription(s, steps[0], name) then [steps[0].id] else [], Subscriptions(s', rest, name));
    Associative(ch.since, if LiveSubscription(s, steps[0], name) then [DrainedSoFar(ch)] else [], DrainedThen(s', rest, name));
  }

  /** A new exchange belongs to its creator or first subscriber, who is entered if registered; it starts empty. */
  lemma {:induction false} StartsEmpty(s: State, step: Step, name: string)
    requires Enabled(s, step) && name !in s.table && name in Next(s, step).table
    ensures (step.Create? || step.Subscribe?) && step.name == name
    ensures var ch := Next(s, step).table[name];
      && ch.published == [] && ch.x.pub == [] && ch.got == map[]
      && ch.x.owner == (if step.Create? then step.owner else step.id)
      && ch.x.subscribes == (if step.Subscribe? && step.id in s.live then [step.id] else [])
      && |ch.since| == |ch.x.subscribes| && (ch.since != [] ==> ch.since[0] == 0)
  {
  }

  predicate Dies(steps: seq<Step>, id: Id) {
    exists k :: 0 <= k < |steps| && steps[k].Death? && id in steps[k].gone
  }

  /** A registered actor is registered until it is removed, and never again after that. */
  lemma {:induction false} LivesUntilRemoved(s: State, steps: seq<Step>, id: Id)
    requires ValidRun(s, steps) && id < s.nextId
    ensures id in Final(s, steps).live <==> id in s.live && !Dies(steps, id)
    decreases |steps|
  {
    if steps != [] {
      LivesUntilRemoved(Next(s, steps[0]), steps[1..], id);
      assert Dies(steps, id) <==> (steps[0].Death? && id in steps[0].gone) || Dies(steps[1..], id) by {
        if Dies(steps[1..], id) {
          var k :| 0 <= k < |steps[1..]| && steps[1..][k].Death? && id in steps[1..][k].gone;
          assert steps[k + 1].Death? && id in steps[k + 1].gone;
        }
        if Dies(steps, id) {
          var k :| 0 <= k < |steps| && steps[k].Death? && id in steps[k].gone;
          assert k > 0 ==> steps[1..][k - 1].Death? && id in steps[1..][k - 1].gone;
        }
      }
    }
  }
}
