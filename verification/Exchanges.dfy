/** Exchanges as values: subscription entries, the publish queue, and what a drain delivers. */
module Exchanges {
  import opened Types

  datatype Exchange = Exchange(owner: Id, subscribes: seq<Id>, pub: seq<Envelope>)

  type Table = map<string, Exchange>

  function Copies(e: Envelope, k: nat): (s: seq<Envelope>)
    ensures |s| == k && forall i :: 0 <= i < k ==> s[i] == e
  {
    seq(k, _ => e)
  }

  /** Every envelope of `pub`, in order, `k` times in a row. */
  ghost function Deliveries(pub: seq<Envelope>, k: nat): seq<Envelope> {
    if pub == [] then [] else Deliveries(pub[..|pub| - 1], k) + Copies(pub[|pub| - 1], k)
  }

  /** How many subscription entries of `subs` name `id`. */
  ghost function Entries(subs: seq<Id>, id: Id): nat {
    multiset(subs)[id]
  }

  /** What draining the exchanges of `order`, one after the other, adds to the mailbox of `id`. */
  ghost function FanOut(table: Table, order: seq<string>, id: Id): seq<Envelope>
    requires forall n <- order :: n in table
  {
    if order == [] then []
    else
      var n := |order| - 1;
      var x := table[order[n]];
      FanOut(table, order[..n], id) + Deliveries(x.pub, Entries(x.subscribes, id))
  }

  type Mailboxes = map<Id, seq<Envelope>>

  /** Every mailbox has received `sent`, each envelope once per subscription entry of its actor. */
  ghost predicate Received(before: Mailboxes, after: Mailboxes, subs: seq<Id>, sent: seq<Envelope>) {
    && after.Keys == before.Keys
    && forall id <- after :: after[id] == before[id] + Deliveries(sent, Entries(subs, id))
  }

  lemma {:induction false} ReceivedNext(before: Mailboxes, prior: Mailboxes, after: Mailboxes, subs: seq<Id>, pub: seq<Envelope>, n: nat)
    requires n < |pub| && Received(before, prior, subs, pub[..n]) && after.Keys == prior.Keys
    requires forall id <- after :: after[id] == prior[id] + Copies(pub[n], Entries(subs, id))
    ensures Received(before, after, subs, pub[..n + 1])
  {
    assert pub[..n + 1][..n] == pub[..n];
    forall id | id in after
      ensures after[id] == before[id] + Deliveries(pub[..n + 1], Entries(subs, id))
    {
      assert prior[id] == before[id] + Deliveries(pub[..n], Entries(subs, id));
    }
  }

  /** Every mailbox of `before` has become its old contents followed by its share of the drain. */
  ghost predicate FannedOut(before: Mailboxes, after: Mailboxes, table: Table, order: seq<string>) {
    && after.Keys == before.Keys
    && (forall n <- order :: n in table)
    && forall id <- after :: after[id] == before[id] + FanOut(table, order, id)
  }

  lemma {:induction false} FanOutNext(before: Mailboxes, prior: Mailboxes, after: Mailboxes, table: Table, order: seq<string>, n: string)
    requires n in table && FannedOut(before, prior, table, order)
    requires Received(prior, after, table[n].subscribes, table[n].pub)
    ensures FannedOut(before, after, table, order + [n])
  {
    assert (order + [n])[..|order|] == order;
    forall id | id in after
      ensures after[id] == before[id] + FanOut(table, order + [n], id)
    {
      assert prior[id] == before[id] + FanOut(table, order, id);
    }
  }

  /** The table with the publish queues of all exchanges but those of `todo` emptied. */
  ghost function Drained(table: Table, todo: set<string>): Table {
    map n | n in table :: if n in todo then table[n] else table[n].(pub := [])
  }

  /** An exchange outlives a collection while its owner or one of its subscribers is registered. */
  predicate Kept(x: Exchange, live: set<Id>) {
    x.owner in live || exists id <- x.subscribes :: id in live
  }

  lemma {:induction false} DeliveriesSlice(log: seq<Envelope>, p: nat, n: nat, k: nat)
    requires p < n <= |log|
    ensures Deliveries(log[p..n], k) == Deliveries(log[p..n - 1], k) + Copies(log[n - 1], k)
  {
    assert log[p..n][..n - 1 - p] == log[p..n - 1];
  }

  lemma {:induction false} ConsFront(e: Envelope, pub: seq<Envelope>)
    requires pub != []
    ensures ([e] + pub)[..|pub|] == [e] + pub[..|pub| - 1] && ([e] + pub)[|pub|] == pub[|pub| - 1]
  {
  }

  lemma {:induction false} DeliveriesCons(e: Envelope, pub: seq<Envelope>, k: nat)
    ensures Deliveries([e] + pub, k) == Copies(e, k) + Deliveries(pub, k)
    decreases |pub|
  {
    if pub == [] {
      assert [e] + pub == [e] && [e][..0] == [];
    } else {
      var n := |pub| - 1;
      var front, last := pub[..n], Copies(pub[n], k);
      DeliveriesCons(e, front, k);
      ConsFront(e, pub);
      assert Copies(e, k) + Deliveries(front, k) + last == Copies(e, k) + (Deliveries(front, k) + last);
    }
  }

  /** With one entry a subscriber gets the queue itself. */
  lemma {:induction false} OneEntry(pub: seq<Envelope>)
    ensures Deliveries(pub, 1) == pub
  {
    if pub != [] {
      OneEntry(pub[..|pub| - 1]);
      assert pub == pub[..|pub| - 1] + [pub[|pub| - 1]];
    }
  }

  /** Position `i` of the delivered sequence holds envelope `i / k` of the queue: `k` copies each, in order. */
  lemma {:induction false} DeliveriesAt(pub: seq<Envelope>, k: nat, i: nat, j: nat)
    requires i < |pub| && j < k
    ensures |Deliveries(pub, k)| == |pub| * k && i * k + j < |pub| * k
    ensures Deliveries(pub, k)[i * k + j] == pub[i]
    decreases |pub|
  {
    var n := |pub| - 1;
    var front := pub[..n];
    DeliveriesLength(front, k);
    assert |pub| * k == n * k + k;
    if i < n {
      DeliveriesAt(front, k, i, j);
    }
  }

  lemma {:induction false} DeliveriesLength(pub: seq<Envelope>, k: nat)
    ensures |Deliveries(pub, k)| == |pub| * k
  {
    if pub != [] {
      DeliveriesLength(pub[..|pub| - 1], k);
      assert |pub| * k == (|pub| - 1) * k + k;
    }
  }
}
