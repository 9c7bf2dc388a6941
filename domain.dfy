/**
 * The backend's entities (the Mongoose models Message, Conversation, User and
 * Status, as the controllers use them) and the events the server emits over
 * its live channel. Ids are natural numbers; time is integer milliseconds.
 */
module Domain {
  import opened Common

  type UserId = nat
  type SocketId = nat
  type MsgId = nat
  type ConvId = nat
  type StatusId = nat
  type TimerId = nat
  type Time = int

  const MinuteMs: int := 60 * 1000
  const DayMs: int := 24 * 60 * MinuteMs

  datatype MessageStatus = Sent | Delivered | Read

  datatype ContentType = Text | Image | Video

  datatype Reaction = Reaction(user: UserId, emoji: string)

  datatype Message = Message(
    conversation: ConvId,
    sender: UserId,
    receiver: UserId,
    content: Option<string>,
    contentType: ContentType,
    mediaUrl: Option<string>,
    status: MessageStatus,
    reactions: seq<Reaction>,
    createdAt: Time)

  datatype Conversation = Conversation(
    participants: seq<UserId>,
    lastMessage: Option<MsgId>,
    unreadCount: int)

  datatype User = User(
    phoneNumber: Option<string>,
    phoneSuffix: Option<string>,
    email: Option<string>,
    username: Option<string>,
    profilePicture: Option<string>,
    about: Option<string>,
    agreed: bool,
    isVerified: bool,
    emailOtp: Option<string>,
    emailOtpExpiry: Option<Time>,
    isOnline: bool,
    lastSeen: Option<Time>)

  datatype Status = Status(
    user: UserId,
    content: string,
    contentType: ContentType,
    viewers: seq<UserId>,
    createdAt: Time,
    expiresAt: Time)

  /** An uploaded file as multer hands it to a controller. */
  datatype File = File(mimetype: string)

  /** What the media-upload service gives back: it throws, or returns a record
      whose `secure_url` may be missing. */
  datatype Upload = UploadThrows | Uploaded(secureUrl: Option<string>)

  /** Where an emit goes: `io.emit` (every connection), `io.to(socketId)`,
      or `io.to(userId)` (the room a user joined on connect). */
  datatype Target = Everyone | ToSocket(socket: SocketId) | ToRoom(room: UserId)

  datatype Event =
    | UserStatus(userId: UserId, isOnline: bool, lastSeen: Option<Time>)
    | ReceiverMessage(receiver: Option<UserId>, body: string)
    | MessageStatusUpdate(messageId: MsgId, status: MessageStatus)
    | UserTyping(typist: UserId, conversationId: ConvId, isTyping: bool)
    | ReactionUpdate(reactedMessage: MsgId, reactions: seq<Reaction>)
    | ReceiveMessage(newMessage: MsgId)
    | MessageReadNotice(readMessage: MsgId)
    | MessageDeleted(deletedMessage: MsgId)

  datatype Emit = Emit(to: Target, event: Event)

  /** The only status change the backend ever writes is to "read". */
  predicate StatusStep(before: MessageStatus, after: MessageStatus) {
    after == before || after == Read
  }

  function Rank(s: MessageStatus): nat {
    match s
    case Sent => 0
    case Delivered => 1
    case Read => 2
  }

  lemma StatusStepNeverRegresses(before: MessageStatus, after: MessageStatus)
    requires StatusStep(before, after)
    ensures Rank(before) <= Rank(after)
  {
  }

  /** Between two states of the message collection no surviving message moved
      backwards along sent, delivered, read. */
  ghost predicate NoRegression(before: map<MsgId, Message>, after: map<MsgId, Message>) {
    forall k :: k in before && k in after ==> StatusStep(before[k].status, after[k].status)
  }

  /** Every stored status is one the backend writes: the initial "sent" or "read". */
  ghost predicate WrittenStatuses(msgs: map<MsgId, Message>) {
    forall k :: k in msgs ==> msgs[k].status == Sent || msgs[k].status == Read
  }

  /** The `updateMany(..., {$set: {messageStatus: "read"}})` write: every message
      whose id is in `ids` becomes read, every other message is untouched. */
  function MarkRead(msgs: map<MsgId, Message>, ids: set<MsgId>): (r: map<MsgId, Message>)
    ensures r.Keys == msgs.Keys
    ensures forall k :: k in msgs && k in ids ==> r[k] == msgs[k].(status := Read)
    ensures forall k :: k in msgs && k !in ids ==> r[k] == msgs[k]
    ensures NoRegression(msgs, r)
    ensures WrittenStatuses(msgs) ==> WrittenStatuses(r)
  {
    map k | k in msgs :: if k in ids then msgs[k].(status := Read) else msgs[k]
  }

  lemma {:induction false} MarkReadIdempotent(msgs: map<MsgId, Message>, ids: set<MsgId>)
    ensures MarkRead(MarkRead(msgs, ids), ids) == MarkRead(msgs, ids)
  {
    var once := MarkRead(msgs, ids);
    var twice := MarkRead(once, ids);
    forall k | k in msgs ensures twice[k] == once[k] {
    }
    assert twice.Keys == once.Keys;
  }
}

/**
 * The persistence collaborator as in-memory maps, one per collection, with a
 * counter standing in for the fresh `_id` of a new document.
 */
module Database {
  import opened Common
  import opened Domain

  class Db {
    var users: map<UserId, User>
    var messages: map<MsgId, Message>
    var conversations: map<ConvId, Conversation>
    var statuses: map<StatusId, Status>
    var nextId: nat

    /** Every id in use is below the counter, so the counter is always fresh. */
    ghost predicate Valid()
      reads this
    {
      && (forall k :: k in users ==> k < nextId)
      && (forall k :: k in messages ==> k < nextId)
      && (forall k :: k in conversations ==> k < nextId)
      && (forall k :: k in statuses ==> k < nextId)
    }

    constructor ()
      ensures Valid()
      ensures users == map[] && messages == map[] && conversations == map[] && statuses == map[]
      ensures nextId == 0
    {
      users, messages, conversations, statuses := map[], map[], map[], map[];
      nextId := 0;
    }

    /** A new document id, distinct from every id in every collection. */
    method NewId() returns (id: nat)
      requires Valid()
      modifies this`nextId
      ensures Valid()
      ensures id == old(nextId) && nextId == id + 1
      ensures id !in users && id !in messages && id !in conversations && id !in statuses
    {
      id := nextId;
      nextId := nextId + 1;
    }
  }

  /** `User.findByIdAndUpdate(userId, {isOnline, lastSeen})`: changes that user
      if the document exists and does nothing otherwise (no upsert). */
  function WithPresence(users: map<UserId, User>, u: UserId, online: bool, seen: Time): (r: map<UserId, User>)
    ensures r.Keys == users.Keys
    ensures u in users ==> r[u] == users[u].(isOnline := online, lastSeen := Some(seen))
    ensures forall v :: v in users && v != u ==> r[v] == users[v]
  {
    if u in users then users[u := users[u].(isOnline := online, lastSeen := Some(seen))] else users
  }
}
