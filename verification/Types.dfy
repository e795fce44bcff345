/** Identifiers, addresses and messages shared by every part of the model. */
module Types {

  /** The value of an `id_t`: a 64-bit unsigned number. */
  type Id = nat

  /** A default-constructed `id_t` holds the largest 64-bit value; `id_t::empty` tests for it. */
  const EMPTY_ID: Id := 0xFFFF_FFFF_FFFF_FFFF

  /** A default-constructed `actor_address` holds id 0; `actor_address::empty` tests for it.
      The two sentinels differ: an empty address is not an empty id. */
  const NO_ADDRESS: Id := 0

  /** The actor object behind a description (an `actor_ptr`). Two registrations may share one. */
  type ActorRef = nat

  datatype Address = Address(id: Id, path: string)

  /** The path of an address built from a bare id. */
  const NULL_PATH: string := "null"

  /** A payload is opaque: the number only tells payloads apart. */
  datatype Envelope = Envelope(payload: nat, sender: Address)

  datatype Option<+T> = None | Some(value: T)

  datatype StoppingReason = Manual | Except

  datatype ErrorAction = Reinit | Stop | Escalate | Resume

  datatype StatusKind = Normal | WithError | Stopped

  /** The hooks that the context calls on actors, in the order in which it calls them. */
  datatype Event =
    | OnStop(actor: Id)
    | OnChildStopped(parent: Id, child: Address, reason: StoppingReason)
    | OnChildError(asked: ActorRef, child: Address)
    | OnChildStatus(told: ActorRef, child: Address, kind: StatusKind)
    | OnStart(restarted: ActorRef)
}
