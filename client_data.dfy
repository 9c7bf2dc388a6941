/**
 * Values the React client holds: timestamps as they arrive from the server,
 * references to users that are either a raw id or a populated document, and
 * messages as the chat store keeps them.
 */
module ClientData {
  import opened Common

  /** A timestamp as the client receives it: falsy, a value `new Date` cannot
      read, or a point in time in milliseconds. */
  datatype Stamp = Falsy | Unparsable | At(ms: int)

  /** A user reference inside a message or conversation: the bare id, or the
      populated user document carrying it as `_id`. */
  datatype Ref = RawId(id: nat) | Populated(id: nat)

  datatype ClientReaction = ClientReaction(user: nat, emoji: string)

  datatype ClientMessage = ClientMessage(
    id: nat,
    sender: Option<Ref>,
    content: Option<string>,
    createdAt: Stamp,
    reactions: Option<seq<ClientReaction>>)

  /** `ref === me` for a reference and `user?._id`: only a bare id can equal
      an id, and two missing values are equal. */
  predicate RefIs(r: Option<Ref>, me: Option<nat>) {
    if r.None? then me.None? else r.value.RawId? && me == Some(r.value.id)
  }

  /** The reference names the current user, whichever form it takes; with no
      current user it names nobody. */
  predicate SentBy(r: Option<Ref>, me: Option<nat>) {
    r.Some? && me == Some(r.value.id)
  }

  /** `ref._id`: present only on a populated document. */
  function IdField(r: Ref): Option<nat> {
    if r.Populated? then Some(r.id) else None
  }
}
