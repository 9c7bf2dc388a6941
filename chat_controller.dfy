/**
 * The message routes of backend/controllers/chatController.js: send (with
 * find-or-create of the two-party conversation), fetch (which marks the
 * requester's messages read), explicit mark-as-read and delete. Each handler
 * works on the in-memory collections and appends its live notifications to
 * the socket server's outbox. HTTP replies are their status codes.
 */
module ChatController {
  import opened Common
  import opened Domain
  import opened Database
  import opened SocketService
  import opened Ordering

  // ---------------------------------------------------------------------
  // Find-or-create of the conversation
  // ---------------------------------------------------------------------

  /** The filter `{participants: {$all: [a, b], $size: 2}}`: exactly two
      entries, and both ids among them. */
  predicate PairMatches(c: Conversation, a: UserId, b: UserId) {
    |c.participants| == 2 && a in c.participants && b in c.participants
  }

  /** `[senderId, receiverId].sort()`: the stored participant order. */
  function SortedPair(a: UserId, b: UserId): (r: seq<UserId>)
    ensures |r| == 2 && r[0] <= r[1]
    ensures multiset(r) == multiset{a, b}
  {
    if a <= b then [a, b] else [b, a]
  }

  /** `findOne` returns the earliest stored match. */
  ghost predicate FirstMatch(convs: map<ConvId, Conversation>, id: ConvId, a: UserId, b: UserId) {
    id in convs && PairMatches(convs[id], a, b)
    && forall j :: j in convs && j < id ==> !PairMatches(convs[j], a, b)
  }

  ghost predicate NoMatch(convs: map<ConvId, Conversation>, a: UserId, b: UserId) {
    forall k :: k in convs ==> !PairMatches(convs[k], a, b)
  }

  /** The lookup names the same conversation whichever of the two sends, and
      a new conversation stores the same participant list either way. */
  lemma LookupIsSymmetric(convs: map<ConvId, Conversation>, id: ConvId, a: UserId, b: UserId)
    ensures FirstMatch(convs, id, a, b) <==> FirstMatch(convs, id, b, a)
    ensures NoMatch(convs, a, b) <==> NoMatch(convs, b, a)
    ensures SortedPair(a, b) == SortedPair(b, a)
  {
  }

  /** A message to oneself looks up `$all: [a, a]`, which any two-party
      conversation of `a` satisfies: the self-chat reuses the first
      conversation `a` has with anybody. */
  lemma SelfLookupMatchesAnyPartner(a: UserId, b: UserId)
    ensures PairMatches(Conversation([a, b], None, 0), a, a)
  {
  }

  method FindConversation(db: Db, a: UserId, b: UserId) returns (r: Option<ConvId>)
    requires db.Valid()
    ensures r.Some? ==> FirstMatch(db.conversations, r.value, a, b)
    ensures r.None? ==> NoMatch(db.conversations, a, b)
  {
    var i := 0;
    while i < db.nextId
      invariant 0 <= i <= db.nextId
      invariant forall j :: j in db.conversations && j < i ==> !PairMatches(db.conversations[j], a, b)
    {
      if i in db.conversations && PairMatches(db.conversations[i], a, b) {
        return Some(i);
      }
      i := i + 1;
    }
    return None;
  }

  /** No two stored conversations have the same participants. */
  ghost predicate DistinctPairs(convs: map<ConvId, Conversation>) {
    forall i, j :: i in convs && j in convs && i != j ==>
      multiset(convs[i].participants) != multiset(convs[j].participants)
  }

  /** The collections' invariants the message routes keep: fresh ids stay
      fresh and each participant pair has at most one conversation. */
  ghost predicate Consistent(db: Db)
    reads db
  {
    db.Valid() && DistinctPairs(db.conversations)
  }

  /** Creating a conversation only when the lookup found none keeps every
      participant pair in at most one conversation. */
  lemma CreateKeepsPairsDistinct(convs: map<ConvId, Conversation>, id: ConvId, a: UserId, b: UserId, c: Conversation)
    requires DistinctPairs(convs)
    requires id !in convs
    requires NoMatch(convs, a, b)
    requires multiset(c.participants) == multiset{a, b}
    ensures DistinctPairs(convs[id := c])
  {
    forall k | k in convs ensures multiset(convs[k].participants) != multiset{a, b} {
      var p := convs[k].participants;
      assert !PairMatches(convs[k], a, b);
      assert multiset(p) == multiset{a, b} ==> |p| == |multiset(p)| == 2 && a in multiset(p) && b in multiset(p);
    }
  }

  // ---------------------------------------------------------------------
  // Content type
  // ---------------------------------------------------------------------

  /** "text" without a file; with one, "image" for an `image*` mimetype and
      "video" for anything else. */
  function ContentTypeFor(file: Option<File>): (ct: ContentType)
    ensures file.None? <==> ct == Text
    ensures file.Some? ==> (ct == Image <==> StartsWith(file.value.mimetype, "image"))
  {
    if file.None? then Text
    else if StartsWith(file.value.mimetype, "image") then Image
    else Video
  }

  /** The stored `imageOrVideoUrl`: the upload's `secure_url`, even if missing. */
  function MediaUrl(file: Option<File>, upload: Upload): Option<string> {
    if file.Some? && upload.Uploaded? then upload.secureUrl else None
  }

  function Bump(sender: UserId, receiver: UserId): int {
    if sender != receiver then 1 else 0
  }

  // ---------------------------------------------------------------------
  // sendMessage
  // ---------------------------------------------------------------------

  datatype SendResult = Created(message: MsgId, conversation: ConvId) | ServerError

  /** `sendMessage`. The conversation is found or created first, so a failing
      upload (500) still leaves a new conversation behind. The message starts
      as "sent" whatever status the client asked for; the conversation's
      `lastMessage` becomes the new message and its single `unreadCount` rises
      by one unless the message is to oneself; `receive_message` goes to the
      receiver's socket exactly when the receiver is online. */
  method SendMessage(db: Db, io: SocketServer, sender: UserId, receiver: UserId, content: Option<string>,
                     clientStatus: Option<string>, file: Option<File>, upload: Upload, now: Time)
    returns (res: SendResult)
    requires Consistent(db)
    modifies db`conversations, db`messages, db`nextId, io`outbox
    ensures Consistent(db)
    ensures NoRegression(old(db.messages), db.messages)
    ensures WrittenStatuses(old(db.messages)) ==> WrittenStatuses(db.messages)
    ensures res.ServerError? <==> file.Some? && upload.UploadThrows?
    ensures res.ServerError? ==>
      && db.messages == old(db.messages)
      && io.outbox == old(io.outbox)
      && db.conversations == if NoMatch(old(db.conversations), sender, receiver)
                             then old(db.conversations)[old(db.nextId) := Conversation(SortedPair(sender, receiver), None, 0)]
                             else old(db.conversations)
    ensures res.Created? ==> res.message !in old(db.messages)
    ensures res.Created? ==>
      db.messages == old(db.messages)[res.message := Message(res.conversation, sender, receiver, content,
                                                             ContentTypeFor(file), MediaUrl(file, upload), Sent, [], now)]
    ensures res.Created? && res.conversation in old(db.conversations) ==>
      var c := res.conversation;
      && FirstMatch(old(db.conversations), c, sender, receiver)
      && db.conversations == old(db.conversations)[c := old(db.conversations[c]).(
           lastMessage := Some(res.message), unreadCount := old(db.conversations[c]).unreadCount + Bump(sender, receiver))]
    ensures res.Created? && res.conversation !in old(db.conversations) ==>
      && NoMatch(old(db.conversations), sender, receiver)
      && res.conversation == old(db.nextId)
      && db.conversations == old(db.conversations)[res.conversation :=
           Conversation(SortedPair(sender, receiver), Some(res.message), Bump(sender, receiver))]
    ensures res.Created? ==>
      io.outbox == old(io.outbox) + if receiver in io.onlineUsers
                                    then [Emit(ToSocket(io.onlineUsers[receiver]), ReceiveMessage(res.message))] else []
  {
    var c, created := FindOrCreateConversation(db, sender, receiver);
    if file.Some? && upload.UploadThrows? {
      res := ServerError;
    } else {
      var m := PostMessage(db, io, c, sender, receiver, content, file, upload, now);
      if created {
        var initial := Conversation(SortedPair(sender, receiver), None, 0);
        UpdateTwice(old(db.conversations), c, initial,
                    initial.(lastMessage := Some(m), unreadCount := Bump(sender, receiver)));
      }
      res := Created(m, c);
    }
  }

  lemma UpdateTwice(convs: map<ConvId, Conversation>, c: ConvId, first: Conversation, second: Conversation)
    ensures convs[c := first][c := second] == convs[c := second]
  {
  }

  /** The second half of `sendMessage`, once the upload (if any) returned:
      store the message, update the conversation, notify the receiver. */
  method PostMessage(db: Db, io: SocketServer, c: ConvId, sender: UserId, receiver: UserId, content: Option<string>,
                     file: Option<File>, upload: Upload, now: Time)
    returns (m: MsgId)
    requires Consistent(db) && c in db.conversations
    requires file.Some? ==> upload.Uploaded?
    modifies db`conversations, db`messages, db`nextId, io`outbox
    ensures Consistent(db)
    ensures NoRegression(old(db.messages), db.messages)
    ensures WrittenStatuses(old(db.messages)) ==> WrittenStatuses(db.messages)
    ensures m !in old(db.messages)
    ensures db.messages == old(db.messages)[m := Message(c, sender, receiver, content,
                                                         ContentTypeFor(file), MediaUrl(file, upload), Sent, [], now)]
    ensures db.conversations == old(db.conversations)[c := old(db.conversations[c]).(
      lastMessage := Some(m), unreadCount := old(db.conversations[c]).unreadCount + Bump(sender, receiver))]
    ensures io.outbox == old(io.outbox) + if receiver in io.onlineUsers
                                          then [Emit(ToSocket(io.onlineUsers[receiver]), ReceiveMessage(m))] else []
  {
    var contentType := Text;
    var mediaUrl: Option<string> := None;
    if file.Some? {
      mediaUrl := upload.secureUrl;
      contentType := if StartsWith(file.value.mimetype, "image") then Image else Video;
    }
    m := StoreMessage(db, Message(c, sender, receiver, content, contentType, mediaUrl, Sent, [], now));
    RecordLastMessage(db, c, m, sender != receiver);
    if receiver in io.onlineUsers {
      io.outbox := io.outbox + [Emit(ToSocket(io.onlineUsers[receiver]), ReceiveMessage(m))];
    }
  }

  /** `conversation.lastMessage = message._id`, then `unreadCount += 1` when
      `countUnread`. */
  method RecordLastMessage(db: Db, c: ConvId, m: MsgId, countUnread: bool)
    requires db.Valid() && DistinctPairs(db.conversations) && c in db.conversations
    modifies db`conversations
    ensures db.Valid() && DistinctPairs(db.conversations)
    ensures db.conversations == old(db.conversations)[c := old(db.conversations[c]).(
      lastMessage := Some(m), unreadCount := old(db.conversations[c]).unreadCount + if countUnread then 1 else 0)]
  {
    var conv := db.conversations[c];
    conv := conv.(lastMessage := Some(m));
    if countUnread {
      conv := conv.(unreadCount := conv.unreadCount + 1);
    }
    UpdateKeepsPairsDistinct(db.conversations, c, conv);
    db.conversations := db.conversations[c := conv];
  }

  /** `new Message(...).save()`: the document gets a fresh id. */
  method StoreMessage(db: Db, msg: Message) returns (m: MsgId)
    requires db.Valid()
    modifies db`messages, db`nextId
    ensures db.Valid()
    ensures m !in old(db.messages) && m == old(db.nextId)
    ensures db.messages == old(db.messages)[m := msg]
    ensures NoRegression(old(db.messages), db.messages)
    ensures WrittenStatuses(old(db.messages)) && (msg.status == Sent || msg.status == Read) ==> WrittenStatuses(db.messages)
  {
    m := db.NewId();
    db.messages := db.messages[m := msg];
  }

  /** The first half of `sendMessage`: the earliest matching conversation, or
      a new one with the sorted pair, no last message and no unread count. */
  method FindOrCreateConversation(db: Db, a: UserId, b: UserId) returns (c: ConvId, created: bool)
    requires Consistent(db)
    modifies db`conversations, db`nextId
    ensures Consistent(db)
    ensures c in db.conversations
    ensures created ==>
      && NoMatch(old(db.conversations), a, b) && c == old(db.nextId) && c !in old(db.conversations)
      && db.conversations == old(db.conversations)[c := Conversation(SortedPair(a, b), None, 0)]
    ensures !created ==>
      && FirstMatch(old(db.conversations), c, a, b)
      && db.conversations == old(db.conversations) && db.nextId == old(db.nextId)
  {
    var found := FindConversation(db, a, b);
    if found.None? {
      c := db.NewId();
      var newConv := Conversation(SortedPair(a, b), None, 0);
      CreateKeepsPairsDistinct(db.conversations, c, a, b, newConv);
      db.conversations := db.conversations[c := newConv];
      created := true;
    } else {
      c, created := found.value, false;
    }
  }

  lemma UpdateKeepsPairsDistinct(convs: map<ConvId, Conversation>, c: ConvId, conv: Conversation)
    requires DistinctPairs(convs)
    requires c in convs && conv.participants == convs[c].participants
    ensures DistinctPairs(convs[c := conv])
  {
    var convs' := convs[c := conv];
    forall i, j | i in convs' && j in convs' && i != j
      ensures multiset(convs'[i].participants) != multiset(convs'[j].participants)
    {
      assert convs'[i].participants == convs[i].participants;
      assert convs'[j].participants == convs[j].participants;
    }
  }

  // ---------------------------------------------------------------------
  // getMessage
  // ---------------------------------------------------------------------

  /** The ids the fetch's `updateMany` filter selects: messages of the
      conversation received by the requester and still "sent" or "delivered". */
  function UnreadFor(msgs: map<MsgId, Message>, conv: ConvId, user: UserId): set<MsgId> {
    set k | k in msgs && msgs[k].conversation == conv && msgs[k].receiver == user && msgs[k].status != Read
  }

  /** After the fetch's write nothing of the requester in that conversation is
      left unread, so fetching again writes nothing. */
  lemma FetchIsIdempotent(msgs: map<MsgId, Message>, conv: ConvId, user: UserId)
    ensures var once := MarkRead(msgs, UnreadFor(msgs, conv, user));
      UnreadFor(once, conv, user) == {} && MarkRead(once, UnreadFor(once, conv, user)) == once
  {
    var once := MarkRead(msgs, UnreadFor(msgs, conv, user));
    forall k | k in once ensures k !in UnreadFor(once, conv, user) {
      if k in UnreadFor(msgs, conv, user) {
        assert once[k].status == Read;
      } else {
        assert once[k] == msgs[k];
      }
    }
    MarkReadNothing(once);
  }

  lemma MarkReadNothing(msgs: map<MsgId, Message>)
    ensures MarkRead(msgs, {}) == msgs
  {
    assert MarkRead(msgs, {}).Keys == msgs.Keys;
  }

  function CreatedAtKey(msgs: map<MsgId, Message>): MsgId -> int {
    k => if k in msgs then msgs[k].createdAt else 0
  }

  /** The ids of the messages stored for `conv`, in id order. */
  method MessagesOf(db: Db, conv: ConvId) returns (ids: seq<MsgId>)
    requires db.Valid()
    ensures forall k :: k in ids <==> k in db.messages && db.messages[k].conversation == conv
    ensures forall i, j :: 0 <= i < j < |ids| ==> ids[i] < ids[j]
  {
    ids := [];
    var i := 0;
    while i < db.nextId
      invariant 0 <= i <= db.nextId
      invariant forall k :: k in ids <==> k < i && k in db.messages && db.messages[k].conversation == conv
      invariant forall p, q :: 0 <= p < q < |ids| ==> ids[p] < ids[q]
      invariant forall p :: 0 <= p < |ids| ==> ids[p] < i
    {
      if i in db.messages && db.messages[i].conversation == conv {
        ids := ids + [i];
      }
      i := i + 1;
    }
  }

  /** `getMessage`: 404 for an unknown conversation, 403 for a requester who
      is not a participant; otherwise the conversation's messages as they were
      before the call, oldest first, while every message of the conversation
      addressed to the requester and not yet read becomes read and the
      conversation's unread counter returns to zero. */
  method GetMessage(db: Db, conv: ConvId, user: UserId) returns (code: nat, data: seq<MsgId>)
    requires db.Valid()
    modifies db`messages, db`conversations
    ensures NoRegression(old(db.messages), db.messages)
    ensures WrittenStatuses(old(db.messages)) ==> WrittenStatuses(db.messages)
    ensures conv !in old(db.conversations) ==>
      code == 404 && data == [] && db.messages == old(db.messages) && db.conversations == old(db.conversations)
    ensures conv in old(db.conversations) && user !in old(db.conversations[conv]).participants ==>
      code == 403 && data == [] && db.messages == old(db.messages) && db.conversations == old(db.conversations)
    ensures conv in old(db.conversations) && user in old(db.conversations[conv]).participants ==>
      && code == 200
      && (forall k :: multiset(data)[k] == if k in old(db.messages) && old(db.messages)[k].conversation == conv then 1 else 0)
      && SortedBy(data, CreatedAtKey(old(db.messages)))
      && db.messages == MarkRead(old(db.messages), UnreadFor(old(db.messages), conv, user))
      && db.conversations == old(db.conversations)[conv := old(db.conversations[conv]).(unreadCount := 0)]
    ensures db.Valid()
  {
    if conv !in db.conversations {
      return 404, [];
    }
    if user !in db.conversations[conv].participants {
      return 403, [];
    }
    data := FetchOrdered(db, conv);
    db.messages := MarkRead(db.messages, UnreadFor(db.messages, conv, user));
    db.conversations := db.conversations[conv := db.conversations[conv].(unreadCount := 0)];
    code := 200;
  }

  /** `Message.find({conversation}).sort("createdAt")`: each message of the
      conversation exactly once, oldest first. */
  method FetchOrdered(db: Db, conv: ConvId) returns (data: seq<MsgId>)
    requires db.Valid()
    ensures forall k :: multiset(data)[k] == if k in db.messages && db.messages[k].conversation == conv then 1 else 0
    ensures SortedBy(data, CreatedAtKey(db.messages))
  {
    var ids := MessagesOf(db, conv);
    IncreasingCounts(ids);
    data := SortBy(ids, CreatedAtKey(db.messages));
  }

  // ---------------------------------------------------------------------
  // markAsRead
  // ---------------------------------------------------------------------

  /** One `message_read` per found message, in order, to its sender's socket
      when the sender is online. */
  function ReadNotices(found: seq<MsgId>, msgs: map<MsgId, Message>, online: map<UserId, SocketId>): (r: seq<Emit>)
    requires forall i :: 0 <= i < |found| ==> found[i] in msgs
    ensures |r| <= |found|
    ensures forall i :: 0 <= i < |r| ==> r[i].event.MessageReadNotice? && r[i].event.readMessage in found
    ensures forall i :: 0 <= i < |r| ==>
      && r[i].event.MessageReadNotice? && r[i].event.readMessage in msgs
      && msgs[r[i].event.readMessage].sender in online
      && r[i].to == ToSocket(online[msgs[r[i].event.readMessage].sender])
    ensures forall i :: 0 <= i < |found| && msgs[found[i]].sender in online ==>
      Emit(ToSocket(online[msgs[found[i]].sender]), MessageReadNotice(found[i])) in r
    ensures (forall i :: 0 <= i < |found| ==> msgs[found[i]].sender in online) ==> |r| == |found|
    ensures (forall i :: 0 <= i < |found| ==> msgs[found[i]].sender !in online) ==> r == []
  {
    if found == [] then []
    else
      var k := found[|found| - 1];
      ReadNotices(found[..|found| - 1], msgs, online)
        + if msgs[k].sender in online then [Emit(ToSocket(online[msgs[k].sender]), MessageReadNotice(k))] else []
  }

  /** The notices keep the order of the found messages: those of a
      concatenation are the notices of each part, one after the other. */
  lemma {:induction false} ReadNoticesAppend(a: seq<MsgId>, b: seq<MsgId>, msgs: map<MsgId, Message>,
                                             online: map<UserId, SocketId>)
    requires forall i :: 0 <= i < |a| ==> a[i] in msgs
    requires forall i :: 0 <= i < |b| ==> b[i] in msgs
    ensures forall i :: 0 <= i < |a + b| ==> (a + b)[i] in msgs
    ensures ReadNotices(a + b, msgs, online) == ReadNotices(a, msgs, online) + ReadNotices(b, msgs, online)
    decreases |b|
  {
    assert forall i :: 0 <= i < |a + b| ==> (a + b)[i] in msgs by {
      forall i | 0 <= i < |a + b| ensures (a + b)[i] in msgs {
        if i < |a| { assert (a + b)[i] == a[i]; } else { assert (a + b)[i] == b[i - |a|]; }
      }
    }
    if b == [] {
      assert a + b == a;
    } else {
      var init := b[..|b| - 1];
      assert (a + b)[..|a + b| - 1] == a + init;
      assert (a + b)[|a + b| - 1] == b[|b| - 1];
      ReadNoticesAppend(a, init, msgs, online);
    }
  }

  /** A single found message is announced exactly when its sender is online,
      on the sender's socket. */
  lemma ReadNoticesOne(k: MsgId, msgs: map<MsgId, Message>, online: map<UserId, SocketId>)
    requires k in msgs
    ensures ReadNotices([k], msgs, online) ==
      if msgs[k].sender in online then [Emit(ToSocket(online[msgs[k].sender]), MessageReadNotice(k))] else []
  {
    assert [k][..0] == [];
  }

  /** `markAsRead`: the listed messages received by the requester (in stored
      order) are the ones found and set to read; every other message is left
      alone; each found message's sender is told if online. */
  method MarkAsRead(db: Db, io: SocketServer, messageIds: seq<MsgId>, user: UserId) returns (code: nat, found: seq<MsgId>)
    requires db.Valid()
    modifies db`messages, io`outbox
    ensures code == 200
    ensures forall k :: k in found <==> k in messageIds && k in old(db.messages) && old(db.messages)[k].receiver == user
    ensures forall i, j :: 0 <= i < j < |found| ==> found[i] < found[j]
    ensures db.messages == MarkRead(old(db.messages), set k | k in found)
    ensures forall i :: 0 <= i < |found| ==> found[i] in old(db.messages)
    ensures io.outbox == old(io.outbox) + ReadNotices(found, old(db.messages), io.onlineUsers)
    ensures NoRegression(old(db.messages), db.messages)
    ensures WrittenStatuses(old(db.messages)) ==> WrittenStatuses(db.messages)
    ensures db.Valid()
  {
    found := FindReceived(db, messageIds, user);
    var before := db.messages;
    db.messages := MarkRead(db.messages, set k | k in found);
    NotifyReaders(io, found, before);
    code := 200;
  }

  /** `Message.find({_id: {$in: messageIds}, receiver: userId})`, in stored order. */
  method FindReceived(db: Db, messageIds: seq<MsgId>, user: UserId) returns (found: seq<MsgId>)
    requires db.Valid()
    ensures forall k :: k in found <==> k in messageIds && k in db.messages && db.messages[k].receiver == user
    ensures forall i, j :: 0 <= i < j < |found| ==> found[i] < found[j]
    ensures forall i :: 0 <= i < |found| ==> found[i] in db.messages
  {
    found := [];
    var i := 0;
    while i < db.nextId
      invariant 0 <= i <= db.nextId
      invariant forall k :: k in found <==> k < i && k in messageIds && k in db.messages && db.messages[k].receiver == user
      invariant forall p, q :: 0 <= p < q < |found| ==> found[p] < found[q]
      invariant forall p :: 0 <= p < |found| ==> found[p] < i
    {
      if i in messageIds && i in db.messages && db.messages[i].receiver == user {
        found := found + [i];
      }
      i := i + 1;
    }
  }

  /** The notification loop of `markAsRead`. */
  method NotifyReaders(io: SocketServer, found: seq<MsgId>, msgs: map<MsgId, Message>)
    requires forall i :: 0 <= i < |found| ==> found[i] in msgs
    modifies io`outbox
    ensures io.outbox == old(io.outbox) + ReadNotices(found, msgs, io.onlineUsers)
  {
    var j := 0;
    while j < |found|
      invariant 0 <= j <= |found|
      invariant io.outbox == old(io.outbox) + ReadNotices(found[..j], msgs, io.onlineUsers)
    {
      assert found[..j + 1][..j] == found[..j];
      var sender := msgs[found[j]].sender;
      if sender in io.onlineUsers {
        io.outbox := io.outbox + [Emit(ToSocket(io.onlineUsers[sender]), MessageReadNotice(found[j]))];
      }
      j := j + 1;
    }
    assert found[..j] == found;
  }

  // ---------------------------------------------------------------------
  // deleteMessage
  // ---------------------------------------------------------------------

  /** `deleteMessage`: 404 for an unknown message, 403 unless the requester
      sent it; otherwise it is removed and the receiver, if online, is told. */
  method DeleteMessage(db: Db, io: SocketServer, mid: MsgId, user: UserId) returns (code: nat)
    modifies db`messages, io`outbox
    ensures mid !in old(db.messages) ==> code == 404 && db.messages == old(db.messages) && io.outbox == old(io.outbox)
    ensures mid in old(db.messages) && old(db.messages)[mid].sender != user ==>
      code == 403 && db.messages == old(db.messages) && io.outbox == old(io.outbox)
    ensures mid in old(db.messages) && old(db.messages)[mid].sender == user ==>
      var receiver := old(db.messages)[mid].receiver;
      && code == 200
      && db.messages == old(db.messages) - {mid}
      && io.outbox == old(io.outbox) + if receiver in io.onlineUsers
                                       then [Emit(ToSocket(io.onlineUsers[receiver]), MessageDeleted(mid))] else []
    ensures NoRegression(old(db.messages), db.messages)
    ensures WrittenStatuses(old(db.messages)) ==> WrittenStatuses(db.messages)
  {
    if mid !in db.messages {
      return 404;
    }
    var m := db.messages[mid];
    if m.sender != user {
      return 403;
    }
    db.messages := db.messages - {mid};
    if m.receiver in io.onlineUsers {
      io.outbox := io.outbox + [Emit(ToSocket(io.onlineUsers[m.receiver]), MessageDeleted(mid))];
    }
    return 200;
  }
}
