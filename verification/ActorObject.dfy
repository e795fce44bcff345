/** The mailbox (`libyaaf/mailbox.h`) and the claim, drain and release of an actor (`libyaaf/actor.cpp`),
    run without interference. The handler is an oracle that returns or throws on each envelope. */
module ActorObject {
  import opened Types

  class Mailbox {
    var queue: seq<Envelope>

    constructor ()
      ensures queue == []
    {
      queue := [];
    }

    method Push(e: Envelope)
      modifies this
      ensures queue == old(queue) + [e]
    {
      queue := queue + [e];
    }

    method TryPop() returns (out: Option<Envelope>)
      modifies this
      ensures out.None? <==> old(queue) == []
      ensures old(queue) == (if out.Some? then [out.value] else []) + queue
    {
      if queue == [] {
        return None;
      }
      out := Some(queue[0]);
      queue := queue[1..];
    }
  }

  class BaseActor {
    var busy: bool
    var status: StatusKind
    var handled: seq<Envelope>

    constructor ()
      ensures !busy && status == Normal && handled == []
    {
      busy, status, handled := false, Normal, [];
    }

    /** The compare-exchange: it wins exactly when the flag was clear, and the flag is set either way. */
    method TryLock() returns (won: bool)
      modifies `busy
      ensures won <==> !old(busy)
      ensures busy
    {
      if busy {
        return false;
      }
      busy := true;
      won := true;
    }

    /** `apply`: messages are handled in order up to the first one that throws, which is consumed;
        the flag is released and the status tells how it went. */
    method Apply(mbox: Mailbox, throws: Envelope -> bool) returns (failed: bool, ghost taken: seq<Envelope>)
      requires busy || mbox.queue == []
      modifies this, mbox
      ensures !busy && status == if failed then WithError else Normal
      ensures old(mbox.queue) == taken + mbox.queue && handled == old(handled) + taken
      ensures failed ==> taken != [] && throws(taken[|taken| - 1]) && forall e <- taken[..|taken| - 1] :: !throws(e)
      ensures !failed ==> mbox.queue == [] && forall e <- taken :: !throws(e)
    {
      taken := [];
      failed := false;
      if mbox.queue == [] {
        status, busy := Normal, false;
        return;
      }
      var el := mbox.TryPop();
      while el.Some?
        invariant busy
        invariant old(mbox.queue) == taken + (if el.Some? then [el.value] else []) + mbox.queue
        invariant el.None? ==> mbox.queue == []
        invariant handled == old(handled) + taken
        invariant forall e <- taken :: !throws(e)
        decreases |mbox.queue|, el.Some?
      {
        handled := handled + [el.value];
        taken := taken + [el.value];
        if throws(el.value) {
          status, busy, failed := WithError, false, true;
          return;
        }
        ghost var rest := mbox.queue;
        el := mbox.TryPop();
        assert old(mbox.queue) == taken + rest;
      }
      status, busy := Normal, false;
    }
  }
}
