/**
 * The realtime engine of backend/service/socketService.js: the online-user
 * registry, the typing tracker with its pending timeouts, reaction toggling,
 * read receipts and the disconnect sweep. Every `emit` is appended to an
 * outbox; a `setTimeout` becomes a pending timer that fires by an explicit
 * step; `new Date()` is a parameter.
 */
module SocketService {
  import opened Common
  import opened Domain
  import opened Database

  // ---------------------------------------------------------------------
  // Presence: onlineUsers (userId -> socketId) and each connection's userId
  // ---------------------------------------------------------------------

  /** `online` is the module-level `onlineUsers` map; `bound` holds, for each
      open connection, the `userId` its closure was given by `user_connected`. */
  datatype Presence = Presence(online: map<UserId, SocketId>, bound: map<SocketId, UserId>)

  /** `user_connected(u)` on connection `s`: the entry for `u` is overwritten. */
  function Connect(p: Presence, s: SocketId, u: UserId): (r: Presence)
    ensures u in r.online && r.online[u] == s
    ensures forall v :: v != u ==> (v in r.online <==> v in p.online)
    ensures forall v :: v != u && v in p.online ==> r.online[v] == p.online[v]
    ensures s in r.bound && r.bound[s] == u
  {
    Presence(p.online[u := s], p.bound[s := u])
  }

  /** `disconnect` of connection `s`: a connection that never announced a user
      changes nothing; otherwise that user's entry is deleted whichever
      connection it currently points at. */
  function Disconnect(p: Presence, s: SocketId): (r: Presence)
    ensures s !in p.bound ==> r == p
    ensures s in p.bound ==> p.bound[s] !in r.online
    ensures s in p.bound ==> forall v :: v != p.bound[s] ==> (v in r.online <==> v in p.online)
    ensures s in p.bound ==> forall v :: v != p.bound[s] && v in p.online ==> r.online[v] == p.online[v]
    ensures s !in r.bound
    ensures forall t :: t != s && t in p.bound ==> t in r.bound && r.bound[t] == p.bound[t]
  {
    if s !in p.bound then p
    else Presence(p.online - {p.bound[s]}, p.bound - {s})
  }

  datatype PresenceEvent = Connected(socket: SocketId, user: UserId) | Disconnected(closing: SocketId)

  function Replay(evs: seq<PresenceEvent>): Presence
  {
    if evs == [] then Presence(map[], map[])
    else
      var p := Replay(evs[..|evs| - 1]);
      match evs[|evs| - 1]
      case Connected(s, u) => Connect(p, s, u)
      case Disconnected(s) => Disconnect(p, s)
  }

  /** The connection named by the latest `user_connected(u)` in the history. */
  function LastSocket(evs: seq<PresenceEvent>, u: UserId): Option<SocketId>
  {
    if evs == [] then None
    else match evs[|evs| - 1]
      case Connected(s, v) => if v == u then Some(s) else LastSocket(evs[..|evs| - 1], u)
      case Disconnected(_) => LastSocket(evs[..|evs| - 1], u)
  }

  /** A user that is online is registered under the connection of their latest
      `user_connected`: connecting again replaces the older connection. */
  lemma {:induction false} OnlineIsLatestConnection(evs: seq<PresenceEvent>, u: UserId)
    requires u in Replay(evs).online
    ensures LastSocket(evs, u) == Some(Replay(evs).online[u])
  {
    if evs != [] {
      var init := evs[..|evs| - 1];
      match evs[|evs| - 1]
      case Connected(s, v) =>
        if v != u { OnlineIsLatestConnection(init, u); }
      case Disconnected(s) =>
        OnlineIsLatestConnection(init, u);
    }
  }

  /** As written, closing an older connection of a user who has since connected
      again from another one takes the user offline although the newer
      connection is still open. */
  lemma StaleDisconnectTakesUserOffline(u: UserId, older: SocketId, newer: SocketId)
    requires older != newer
    ensures var p := Replay([Connected(older, u), Connected(newer, u), Disconnected(older)]);
      u !in p.online && newer in p.bound && p.bound[newer] == u
  {
    var e1, e2, e3 := Connected(older, u), Connected(newer, u), Disconnected(older);
    var p0 := Replay([]);
    assert [e1][..0] == [];
    var p1 := Replay([e1]);
    assert p1 == Connect(p0, older, u);
    assert [e1, e2][..1] == [e1];
    var p2 := Replay([e1, e2]);
    assert p2 == Connect(p1, newer, u);
    assert [e1, e2, e3][..2] == [e1, e2];
    assert Replay([e1, e2, e3]) == Disconnect(p2, older);
  }

  // ---------------------------------------------------------------------
  // Typing: per user, a flag and a timeout handle per conversation
  // ---------------------------------------------------------------------

  /** The object `typingUsers.get(userId)`: `flags` are its `conversationId`
      keys, `timeouts` its `${conversationId}_timeout` keys. */
  datatype TypingRecord = TypingRecord(flags: map<ConvId, bool>, timeouts: map<ConvId, TimerId>)

  /** The callback a pending `setTimeout` of `typing_start` will run. */
  datatype TypingTimer = TypingTimer(owner: UserId, conversation: ConvId, receiver: UserId)

  predicate IsTyping(typing: map<UserId, TypingRecord>, u: UserId, c: ConvId) {
    u in typing && c in typing[u].flags && typing[u].flags[c]
  }

  predicate HasPending(typing: map<UserId, TypingRecord>, timers: map<TimerId, TypingTimer>, u: UserId, c: ConvId) {
    u in typing && c in typing[u].timeouts && typing[u].timeouts[c] in timers
  }

  predicate Owns(typing: map<UserId, TypingRecord>, u: UserId, c: ConvId, t: TimerId) {
    u in typing && c in typing[u].timeouts && typing[u].timeouts[c] == t
  }

  /** The typing tracker's invariant: each pending timer is the one its user's
      record holds for its conversation, handles are never reused, and a user
      is typing in a conversation exactly while a timeout for it is pending. */
  ghost predicate TypingConsistent(typing: map<UserId, TypingRecord>, timers: map<TimerId, TypingTimer>, next: nat) {
    && (forall t :: t in timers ==> t < next && Owns(typing, timers[t].owner, timers[t].conversation, t))
    && (forall u, c :: u in typing && c in typing[u].timeouts ==> typing[u].timeouts[c] < next)
    && (forall u, c :: HasPending(typing, timers, u, c) ==>
          timers[typing[u].timeouts[c]].owner == u && timers[typing[u].timeouts[c]].conversation == c)
    && (forall u, c :: IsTyping(typing, u, c) <==> HasPending(typing, timers, u, c))
  }

  /** At most one timeout is pending per user and conversation. */
  lemma OnePendingPerConversation(typing: map<UserId, TypingRecord>, timers: map<TimerId, TypingTimer>, next: nat, t1: TimerId, t2: TimerId)
    requires TypingConsistent(typing, timers, next)
    requires t1 in timers && t2 in timers
    requires timers[t1].owner == timers[t2].owner && timers[t1].conversation == timers[t2].conversation
    ensures t1 == t2
  {
    assert Owns(typing, timers[t1].owner, timers[t1].conversation, t1);
    assert Owns(typing, timers[t2].owner, timers[t2].conversation, t2);
  }

  /** The timers named by the record entries for the conversations in `ks`. */
  function HandlesAt(m: map<ConvId, TimerId>, ks: set<ConvId>): (r: set<TimerId>)
    ensures forall c :: c in ks && c in m ==> m[c] in r
    ensures forall t :: t in r ==> exists c :: c in ks && c in m && m[c] == t
  {
    set c | c in ks && c in m :: m[c]
  }

  // ---------------------------------------------------------------------
  // Reactions: at most one entry per user
  // ---------------------------------------------------------------------

  /** `reactions.findIndex(r => r.user === u)`: -1 when absent. */
  function FindReaction(rs: seq<Reaction>, u: UserId): (i: int)
    ensures -1 <= i < |rs|
    ensures i == -1 <==> forall j :: 0 <= j < |rs| ==> rs[j].user != u
    ensures i >= 0 ==> rs[i].user == u && forall j :: 0 <= j < i ==> rs[j].user != u
  {
    if rs == [] then -1
    else if rs[0].user == u then 0
    else
      var i := FindReaction(rs[1..], u);
      if i == -1 then -1 else i + 1
  }

  /** The toggle of `add_reaction`: no entry from the user appends one, the same
      emoji removes it, a different emoji replaces that entry's emoji in place. */
  function ToggleReaction(rs: seq<Reaction>, u: UserId, emoji: string): seq<Reaction>
  {
    var i := FindReaction(rs, u);
    if i == -1 then rs + [Reaction(u, emoji)]
    else if rs[i].emoji == emoji then rs[..i] + rs[i + 1..]
    else rs[i := Reaction(u, emoji)]
  }

  predicate OnePerUser(rs: seq<Reaction>) {
    forall i, j :: 0 <= i < j < |rs| ==> rs[i].user != rs[j].user
  }

  /** The entries of user `v`, in order. */
  function EntriesOf(rs: seq<Reaction>, v: UserId): (r: seq<Reaction>)
    ensures forall k :: 0 <= k < |r| ==> r[k].user == v
    ensures |r| <= |rs|
  {
    if rs == [] then []
    else (if rs[0].user == v then [rs[0]] else []) + EntriesOf(rs[1..], v)
  }

  lemma {:induction false} EntriesOfAppend(a: seq<Reaction>, b: seq<Reaction>, v: UserId)
    ensures EntriesOf(a + b, v) == EntriesOf(a, v) + EntriesOf(b, v)
  {
    if a == [] {
      assert a + b == b;
    } else {
      assert (a + b)[1..] == a[1..] + b;
      EntriesOfAppend(a[1..], b, v);
    }
  }

  lemma {:induction false} EntriesOfNone(rs: seq<Reaction>, v: UserId)
    requires forall j :: 0 <= j < |rs| ==> rs[j].user != v
    ensures EntriesOf(rs, v) == []
  {
    if rs != [] { EntriesOfNone(rs[1..], v); }
  }

  lemma EntriesOfSplit(rs: seq<Reaction>, i: int, v: UserId)
    requires 0 <= i < |rs|
    ensures EntriesOf(rs, v) == EntriesOf(rs[..i], v) + EntriesOf([rs[i]], v) + EntriesOf(rs[i + 1..], v)
  {
    assert rs == rs[..i] + ([rs[i]] + rs[i + 1..]);
    EntriesOfAppend(rs[..i], [rs[i]] + rs[i + 1..], v);
    EntriesOfAppend([rs[i]], rs[i + 1..], v);
  }

  /** The toggle leaves every other user's entries exactly as they were. */
  lemma {:induction false} ToggleKeepsOthers(rs: seq<Reaction>, u: UserId, emoji: string, v: UserId)
    requires v != u
    ensures EntriesOf(ToggleReaction(rs, u, emoji), v) == EntriesOf(rs, v)
  {
    var i := FindReaction(rs, u);
    if i == -1 {
      EntriesOfAppend(rs, [Reaction(u, emoji)], v);
      EntriesOfOther(Reaction(u, emoji), v);
    } else if rs[i].emoji == emoji {
      DropKeepsOthers(rs, i, v);
    } else {
      ReplaceKeepsOthers(rs, i, Reaction(u, emoji), v);
    }
  }

  lemma EntriesOfOther(x: Reaction, v: UserId)
    requires x.user != v
    ensures EntriesOf([x], v) == []
  {
    assert [x][1..] == [];
  }

  lemma DropKeepsOthers(rs: seq<Reaction>, i: nat, v: UserId)
    requires i < |rs| && rs[i].user != v
    ensures EntriesOf(rs[..i] + rs[i + 1..], v) == EntriesOf(rs, v)
  {
    EntriesOfOther(rs[i], v);
    EntriesOfSplit(rs, i, v);
    EntriesOfAppend(rs[..i], rs[i + 1..], v);
  }

  lemma ReplaceKeepsOthers(rs: seq<Reaction>, i: nat, x: Reaction, v: UserId)
    requires i < |rs| && rs[i].user != v && x.user != v
    ensures EntriesOf(rs[i := x], v) == EntriesOf(rs, v)
  {
    var r := rs[i := x];
    EntriesOfOther(rs[i], v);
    EntriesOfOther(x, v);
    EntriesOfSplit(rs, i, v);
    EntriesOfSplit(r, i, v);
    assert r[..i] == rs[..i] && r[i + 1..] == rs[i + 1..] && r[i] == x;
  }

  /** The emoji user `u` has on the message, if any. */
  function ReactionOf(rs: seq<Reaction>, u: UserId): Option<string>
  {
    var i := FindReaction(rs, u);
    if i == -1 then None else Some(rs[i].emoji)
  }

  lemma ToggleAppends(rs: seq<Reaction>, u: UserId, emoji: string)
    requires OnePerUser(rs) && FindReaction(rs, u) == -1
    ensures OnePerUser(rs + [Reaction(u, emoji)])
    ensures FindReaction(rs + [Reaction(u, emoji)], u) == |rs|
  {
    var r := rs + [Reaction(u, emoji)];
    assert r[|rs|].user == u && forall j :: 0 <= j < |rs| ==> r[j].user != u;
  }

  lemma ToggleRemoves(rs: seq<Reaction>, u: UserId, i: nat)
    requires OnePerUser(rs) && i < |rs| && rs[i].user == u
    ensures OnePerUser(rs[..i] + rs[i + 1..])
    ensures FindReaction(rs[..i] + rs[i + 1..], u) == -1
  {
    var r := rs[..i] + rs[i + 1..];
    assert forall j :: 0 <= j < |r| ==> r[j] == if j < i then rs[j] else rs[j + 1];
    forall j, k | 0 <= j < k < |r| ensures r[j].user != r[k].user {
      var j', k' := if j < i then j else j + 1, if k < i then k else k + 1;
      assert r[j] == rs[j'] && r[k] == rs[k'] && j' < k';
    }
  }

  lemma ToggleReplaces(rs: seq<Reaction>, u: UserId, emoji: string, i: nat)
    requires OnePerUser(rs) && i < |rs| && rs[i].user == u && forall j :: 0 <= j < i ==> rs[j].user != u
    ensures OnePerUser(rs[i := Reaction(u, emoji)])
    ensures FindReaction(rs[i := Reaction(u, emoji)], u) == i
  {
    var r := rs[i := Reaction(u, emoji)];
    assert forall j :: 0 <= j < |r| ==> r[j].user == rs[j].user;
    assert r[i].user == u && forall j :: 0 <= j < i ==> r[j].user != u;
  }

  /** With at most one entry per user before, there is at most one after, and
      the user's reaction is removed when it was the same emoji and set to the
      new emoji otherwise. */
  lemma ToggleEffect(rs: seq<Reaction>, u: UserId, emoji: string)
    requires OnePerUser(rs)
    ensures OnePerUser(ToggleReaction(rs, u, emoji))
    ensures ReactionOf(ToggleReaction(rs, u, emoji), u) ==
      if ReactionOf(rs, u) == Some(emoji) then None else Some(emoji)
  {
    var i := FindReaction(rs, u);
    if i == -1 {
      ToggleAppends(rs, u, emoji);
    } else if rs[i].emoji == emoji {
      ToggleRemoves(rs, u, i);
    } else {
      ToggleReplaces(rs, u, emoji, i);
    }
  }

  /** Reacting twice with the same emoji, starting with no reaction, restores
      the original list. */
  lemma ToggleTwiceRestores(rs: seq<Reaction>, u: UserId, emoji: string)
    requires ReactionOf(rs, u) == None
    ensures ToggleReaction(ToggleReaction(rs, u, emoji), u, emoji) == rs
  {
    var r := rs + [Reaction(u, emoji)];
    FindAppended(rs, Reaction(u, emoji));
    assert r[..|rs|] + r[|rs| + 1..] == rs;
  }

  /** An entry appended for a user with none is where the search finds it. */
  lemma FindAppended(rs: seq<Reaction>, x: Reaction)
    requires FindReaction(rs, x.user) == -1
    ensures FindReaction(rs + [x], x.user) == |rs|
  {
    var r := rs + [x];
    assert r[|rs|].user == x.user && forall j :: 0 <= j < |rs| ==> r[j].user != x.user;
  }

  // ---------------------------------------------------------------------
  // Emits
  // ---------------------------------------------------------------------

  /** One `message_status_update` per listed id, in list order, to one socket. */
  function StatusUpdates(ids: seq<MsgId>, to: SocketId): (r: seq<Emit>)
    ensures |r| == |ids|
    ensures forall k :: 0 <= k < |ids| ==> r[k] == Emit(ToSocket(to), MessageStatusUpdate(ids[k], Read))
  {
    if ids == [] then []
    else StatusUpdates(ids[..|ids| - 1], to) + [Emit(ToSocket(to), MessageStatusUpdate(ids[|ids| - 1], Read))]
  }

  /** A party of a message gets the `reaction_update` only when its user
      document exists (so that population yields an `_id`) and it is online. */
  function NotifyParty(online: map<UserId, SocketId>, users: map<UserId, User>, party: UserId, ev: Event): (r: seq<Emit>)
    ensures |r| <= 1
    ensures r != [] <==> party in users && party in online
    ensures r != [] ==> r == [Emit(ToSocket(online[party]), ev)]
  {
    if party in users && party in online then [Emit(ToSocket(online[party]), ev)] else []
  }

  /** The `reaction_update` fan-out: to the sender first, then the receiver,
      each only when online; zero, one or two emits. */
  function ReactionEmits(online: map<UserId, SocketId>, users: map<UserId, User>, m: Message, mid: MsgId, rs: seq<Reaction>): (r: seq<Emit>)
    ensures |r| <= 2
    ensures |r| == (if m.sender in users && m.sender in online then 1 else 0)
                 + (if m.receiver in users && m.receiver in online then 1 else 0)
    ensures forall k :: 0 <= k < |r| ==> r[k].event == ReactionUpdate(mid, rs)
  {
    NotifyParty(online, users, m.sender, ReactionUpdate(mid, rs))
      + NotifyParty(online, users, m.receiver, ReactionUpdate(mid, rs))
  }

  // ---------------------------------------------------------------------
  // The server
  // ---------------------------------------------------------------------

  class SocketServer {
    var onlineUsers: map<UserId, SocketId>
    var socketUser: map<SocketId, UserId>
    var typingUsers: map<UserId, TypingRecord>
    var timers: map<TimerId, TypingTimer>
    var nextTimer: nat
    var outbox: seq<Emit>

    ghost predicate Valid()
      reads this
    {
      TypingConsistent(typingUsers, timers, nextTimer)
    }

    ghost function PresenceOf(): Presence
      reads this
    {
      Presence(onlineUsers, socketUser)
    }

    constructor ()
      ensures Valid()
      ensures onlineUsers == map[] && socketUser == map[] && typingUsers == map[]
      ensures timers == map[] && outbox == []
    {
      onlineUsers, socketUser, typingUsers, timers := map[], map[], map[], map[];
      nextTimer := 0;
      outbox := [];
    }

    /** `user_connected`: register the connection, mark the user online in
        the database and broadcast `user_status` (without `lastSeen`). */
    method UserConnected(db: Db, socket: SocketId, u: UserId, now: Time)
      requires Valid()
      modifies this`onlineUsers, this`socketUser, this`outbox, db`users
      ensures Valid()
      ensures PresenceOf() == Connect(old(PresenceOf()), socket, u)
      ensures db.users == WithPresence(old(db.users), u, true, now)
      ensures outbox == old(outbox) + [Emit(Everyone, UserStatus(u, true, None))]
    {
      socketUser := socketUser[socket := u];
      onlineUsers := onlineUsers[u := socket];
      db.users := WithPresence(db.users, u, true, now);
      outbox := outbox + [Emit(Everyone, UserStatus(u, true, None))];
    }

    /** `get_user_status`: presence is membership in `onlineUsers`; an online
        user's `lastSeen` is the current time, an offline one's is null. */
    method GetUserStatus(u: UserId, now: Time) returns (isOnline: bool, lastSeen: Option<Time>)
      ensures isOnline <==> u in onlineUsers
      ensures lastSeen.Some? <==> isOnline
      ensures lastSeen.Some? ==> lastSeen.value == now
    {
      isOnline := u in onlineUsers;
      lastSeen := if isOnline then Some(now) else None;
    }

    /** `send_message`: relay the client's message to the receiver's socket
        when the receiver is online; nothing else changes. */
    method RelayMessage(receiver: Option<UserId>, body: string)
      modifies this`outbox
      ensures receiver.Some? && receiver.value in onlineUsers ==>
        outbox == old(outbox) + [Emit(ToSocket(onlineUsers[receiver.value]), ReceiverMessage(receiver, body))]
      ensures !(receiver.Some? && receiver.value in onlineUsers) ==> outbox == old(outbox)
    {
      if receiver.Some? && receiver.value in onlineUsers {
        outbox := outbox + [Emit(ToSocket(onlineUsers[receiver.value]), ReceiverMessage(receiver, body))];
      }
    }

    /** `message_read`: every listed message becomes read, whoever asks; then,
        if the sender is online, one `message_status_update` per listed id. */
    method MessageRead(db: Db, messageIds: seq<MsgId>, senderId: Option<UserId>)
      modifies this`outbox, db`messages
      ensures db.messages == MarkRead(old(db.messages), set k | k in messageIds)
      ensures NoRegression(old(db.messages), db.messages)
      ensures WrittenStatuses(old(db.messages)) ==> WrittenStatuses(db.messages)
      ensures senderId.Some? && senderId.value in onlineUsers ==>
        outbox == old(outbox) + StatusUpdates(messageIds, onlineUsers[senderId.value])
      ensures !(senderId.Some? && senderId.value in onlineUsers) ==> outbox == old(outbox)
    {
      db.messages := MarkRead(db.messages, set k | k in messageIds);
      if senderId.Some? && senderId.value in onlineUsers {
        var to := onlineUsers[senderId.value];
        var i := 0;
        while i < |messageIds|
          invariant 0 <= i <= |messageIds|
          invariant outbox == old(outbox) + StatusUpdates(messageIds[..i], to)
          modifies this`outbox
        {
          assert messageIds[..i + 1][..i] == messageIds[..i];
          outbox := outbox + [Emit(ToSocket(to), MessageStatusUpdate(messageIds[i], Read))];
          i := i + 1;
        }
        assert messageIds[..i] == messageIds;
      }
    }

    /** `typing_start`: ignored unless the connection has a user and both the
        conversation and the receiver are given; otherwise the flag turns on,
        any earlier timeout of that conversation is cancelled and replaced by
        a fresh one, and `user_typing` true goes to the receiver's room. */
    method TypingStart(socket: SocketId, conversation: Option<ConvId>, receiver: Option<UserId>)
      requires Valid()
      modifies this`typingUsers, this`timers, this`nextTimer, this`outbox
      ensures Valid()
      ensures socket !in socketUser || conversation.None? || receiver.None? ==>
        typingUsers == old(typingUsers) && timers == old(timers) && outbox == old(outbox)
      ensures socket in socketUser && conversation.Some? && receiver.Some? ==>
        var u, c := socketUser[socket], conversation.value;
        && IsTyping(typingUsers, u, c)
        && Owns(typingUsers, u, c, old(nextTimer))
        && (var before := if old(u in typingUsers) then old(typingUsers[u]) else TypingRecord(map[], map[]);
            && typingUsers[u].flags == before.flags[c := true]
            && typingUsers[u].timeouts == before.timeouts[c := old(nextTimer)])
        && timers == (if old(u in typingUsers && c in typingUsers[u].timeouts)
                      then old(timers) - {old(typingUsers[u].timeouts[c])} else old(timers))
                     [old(nextTimer) := TypingTimer(u, c, receiver.value)]
        && (forall v :: v != u ==> (v in typingUsers <==> v in old(typingUsers)))
        && (forall v :: v != u && v in old(typingUsers) ==> typingUsers[v] == old(typingUsers[v]))
        && outbox == old(outbox) + [Emit(ToRoom(receiver.value), UserTyping(u, c, true))]
    {
      if socket !in socketUser || conversation.None? || receiver.None? {
        return;
      }
      var u, c, to := socketUser[socket], conversation.value, receiver.value;
      var rec := if u in typingUsers then typingUsers[u] else TypingRecord(map[], map[]);
      var t := nextTimer;
      var pending := timers;
      if c in rec.timeouts {
        pending := pending - {rec.timeouts[c]};
      }
      var rec' := TypingRecord(rec.flags[c := true], rec.timeouts[c := t]);
      ghost var oldTyping := typingUsers;
      ghost var oldTimers := timers;
      typingUsers := typingUsers[u := rec'];
      timers := pending[t := TypingTimer(u, c, to)];
      nextTimer := nextTimer + 1;
      StartKeepsConsistent(oldTyping, oldTimers, t, u, c, to);
      outbox := outbox + [Emit(ToRoom(to), UserTyping(u, c, true))];
    }

    /** A pending `typing_start` timeout runs: the flag turns off and
        `user_typing` false goes to the receiver's room. */
    method FireTimer(t: TimerId)
      requires Valid()
      requires t in timers
      modifies this`typingUsers, this`timers, this`outbox
      ensures Valid()
      ensures var w := old(timers[t]);
        && timers == old(timers) - {t}
        && !IsTyping(typingUsers, w.owner, w.conversation)
        && typingUsers == old(typingUsers)[w.owner := old(typingUsers[w.owner]).(flags := old(typingUsers[w.owner]).flags[w.conversation := false])]
        && outbox == old(outbox) + [Emit(ToRoom(w.receiver), UserTyping(w.owner, w.conversation, false))]
    {
      var w := timers[t];
      assert Owns(typingUsers, w.owner, w.conversation, t);
      var rec := typingUsers[w.owner];
      ghost var oldTyping := typingUsers;
      ghost var oldTimers := timers;
      typingUsers := typingUsers[w.owner := rec.(flags := rec.flags[w.conversation := false])];
      timers := timers - {t};
      FireKeepsConsistent(oldTyping, oldTimers, nextTimer, t);
      outbox := outbox + [Emit(ToRoom(w.receiver), UserTyping(w.owner, w.conversation, false))];
    }

    /** `typing_stop`: ignored unless the guard of `typing_start` passes;
        otherwise a recorded timeout is cancelled and forgotten, the flag turns
        off (only if the user has a record), and `user_typing` false is sent
        whether or not there was a record. */
    method TypingStop(socket: SocketId, conversation: Option<ConvId>, receiver: Option<UserId>)
      requires Valid()
      modifies this`typingUsers, this`timers, this`outbox
      ensures Valid()
      ensures socket !in socketUser || conversation.None? || receiver.None? ==>
        typingUsers == old(typingUsers) && timers == old(timers) && outbox == old(outbox)
      ensures socket in socketUser && conversation.Some? && receiver.Some? ==>
        var u, c := socketUser[socket], conversation.value;
        && !IsTyping(typingUsers, u, c)
        && !HasPending(typingUsers, timers, u, c)
        && (u in old(typingUsers) ==> u in typingUsers && c !in typingUsers[u].timeouts)
        && (u !in old(typingUsers) ==> typingUsers == old(typingUsers) && timers == old(timers))
        && timers == (if old(u in typingUsers && c in typingUsers[u].timeouts)
                      then old(timers) - {old(typingUsers[u].timeouts[c])} else old(timers))
        && (forall v :: v != u ==> (v in typingUsers <==> v in old(typingUsers)))
        && (forall v :: v != u && v in old(typingUsers) ==> typingUsers[v] == old(typingUsers[v]))
        && outbox == old(outbox) + [Emit(ToRoom(receiver.value), UserTyping(u, c, false))]
    {
      if socket !in socketUser || conversation.None? || receiver.None? {
        return;
      }
      var u, c, to := socketUser[socket], conversation.value, receiver.value;
      if u in typingUsers {
        var rec := typingUsers[u];
        ghost var oldTyping := typingUsers;
        ghost var oldTimers := timers;
        if c in rec.timeouts {
          timers := timers - {rec.timeouts[c]};
        }
        typingUsers := typingUsers[u := TypingRecord(rec.flags[c := false], rec.timeouts - {c})];
        StopKeepsConsistent(oldTyping, oldTimers, nextTimer, u, c);
      }
      outbox := outbox + [Emit(ToRoom(to), UserTyping(u, c, false))];
    }

    /** `add_reaction`: nothing happens for an unknown message; otherwise the
        reacting user's entry is toggled and the new list goes to each party
        of the message that is online. */
    method AddReaction(db: Db, messageId: MsgId, emoji: string, reactionUser: UserId)
      modifies this`outbox, db`messages
      ensures messageId !in old(db.messages) ==> db.messages == old(db.messages) && outbox == old(outbox)
      ensures messageId in old(db.messages) ==>
        var m := old(db.messages[messageId]);
        var rs := ToggleReaction(m.reactions, reactionUser, emoji);
        && db.messages == old(db.messages)[messageId := m.(reactions := rs)]
        && outbox == old(outbox) + ReactionEmits(onlineUsers, db.users, m, messageId, rs)
      ensures NoRegression(old(db.messages), db.messages)
      ensures WrittenStatuses(old(db.messages)) ==> WrittenStatuses(db.messages)
    {
      if messageId !in db.messages {
        return;
      }
      var m := db.messages[messageId];
      var rs := Toggle(m.reactions, reactionUser, emoji);
      db.messages := db.messages[messageId := m.(reactions := rs)];
      var ev := ReactionUpdate(messageId, rs);
      if m.sender in db.users && m.sender in onlineUsers {
        outbox := outbox + [Emit(ToSocket(onlineUsers[m.sender]), ev)];
      }
      if m.receiver in db.users && m.receiver in onlineUsers {
        outbox := outbox + [Emit(ToSocket(onlineUsers[m.receiver]), ev)];
      }
    }

    /** `reactions.findIndex(r => r.user.toString() === reactionUser)`. */
    static method FindIndex(rs: seq<Reaction>, u: UserId) returns (existing: int)
      ensures existing == FindReaction(rs, u)
    {
      var i := 0;
      while i < |rs| && rs[i].user != u
        invariant 0 <= i <= |rs|
        invariant forall j :: 0 <= j < i ==> rs[j].user != u
      {
        i := i + 1;
      }
      existing := if i < |rs| then i else -1;
    }

    /** The in-place toggle of `add_reaction`. */
    static method Toggle(reactions: seq<Reaction>, reactionUser: UserId, emoji: string) returns (rs: seq<Reaction>)
      ensures rs == ToggleReaction(reactions, reactionUser, emoji)
    {
      rs := reactions;
      var existing := FindIndex(rs, reactionUser);
      if existing > -1 {
        if rs[existing].emoji == emoji {
          rs := rs[..existing] + rs[existing + 1..];
        } else {
          rs := rs[existing := Reaction(reactionUser, emoji)];
        }
      } else {
        rs := rs + [Reaction(reactionUser, emoji)];
      }
    }

    /** The `forEach` that calls `clearTimeout` on each of a record's handles. */
    method ClearTimeouts(rec: TypingRecord)
      modifies this`timers
      ensures timers == old(timers) - rec.timeouts.Values
    {
      var keys := rec.timeouts.Keys;
      while keys != {}
        invariant keys <= rec.timeouts.Keys
        invariant timers == old(timers) - HandlesAt(rec.timeouts, rec.timeouts.Keys - keys)
        decreases keys
      {
        var c :| c in keys;
        assert HandlesAt(rec.timeouts, rec.timeouts.Keys - (keys - {c}))
            == HandlesAt(rec.timeouts, rec.timeouts.Keys - keys) + {rec.timeouts[c]};
        timers := timers - {rec.timeouts[c]};
        keys := keys - {c};
      }
      assert rec.timeouts.Keys - keys == rec.timeouts.Keys;
      assert HandlesAt(rec.timeouts, rec.timeouts.Keys) == rec.timeouts.Values;
    }

    /** `disconnect`: a connection without a user changes nothing; otherwise the
        user leaves `onlineUsers` (whichever connection the entry names), every
        recorded typing timeout of the user is cancelled, the typing record is
        dropped, the user is marked offline and `user_status` false is
        broadcast. */
    method HandleDisconnected(db: Db, socket: SocketId, now: Time)
      requires Valid()
      modifies this`onlineUsers, this`socketUser, this`typingUsers, this`timers, this`outbox, db`users
      ensures Valid()
      ensures PresenceOf() == Disconnect(old(PresenceOf()), socket)
      ensures socket !in old(socketUser) ==>
        typingUsers == old(typingUsers) && timers == old(timers) && outbox == old(outbox) && db.users == old(db.users)
      ensures socket in old(socketUser) ==>
        var u := old(socketUser[socket]);
        && typingUsers == old(typingUsers) - {u}
        && timers == (if u in old(typingUsers) then old(timers) - old(typingUsers[u]).timeouts.Values else old(timers))
        && (forall t :: t in timers ==> timers[t].owner != u)
        && db.users == WithPresence(old(db.users), u, false, now)
        && outbox == old(outbox) + [Emit(Everyone, UserStatus(u, false, Some(now)))]
    {
      if socket !in socketUser {
        return;
      }
      var u := socketUser[socket];
      onlineUsers := onlineUsers - {u};
      if u in typingUsers {
        var rec := typingUsers[u];
        ghost var oldTyping := typingUsers;
        ghost var oldTimers := timers;
        ClearTimeouts(rec);
        typingUsers := typingUsers - {u};
        SweepKeepsConsistent(oldTyping, oldTimers, nextTimer, u);
      } else {
        assert forall t :: t in timers ==> timers[t].owner != u by {
          forall t | t in timers ensures timers[t].owner != u {
            assert Owns(typingUsers, timers[t].owner, timers[t].conversation, t);
          }
        }
      }
      db.users := WithPresence(db.users, u, false, now);
      outbox := outbox + [Emit(Everyone, UserStatus(u, false, Some(now)))];
      socketUser := socketUser - {socket};
    }
  }

  // ---------------------------------------------------------------------
  // The typing invariant across each step
  // ---------------------------------------------------------------------

  lemma StartKeepsConsistent(typing: map<UserId, TypingRecord>, timers: map<TimerId, TypingTimer>,
                             next: nat, u: UserId, c: ConvId, to: UserId)
    requires TypingConsistent(typing, timers, next)
    ensures var rec := if u in typing then typing[u] else TypingRecord(map[], map[]);
      var pending := if c in rec.timeouts then timers - {rec.timeouts[c]} else timers;
      TypingConsistent(typing[u := TypingRecord(rec.flags[c := true], rec.timeouts[c := next])],
                       pending[next := TypingTimer(u, c, to)], next + 1)
  {
    var rec := if u in typing then typing[u] else TypingRecord(map[], map[]);
    var pending := if c in rec.timeouts then timers - {rec.timeouts[c]} else timers;
    var typing' := typing[u := TypingRecord(rec.flags[c := true], rec.timeouts[c := next])];
    var timers' := pending[next := TypingTimer(u, c, to)];
    forall t | t in timers'
      ensures t < next + 1 && Owns(typing', timers'[t].owner, timers'[t].conversation, t)
    {
      if t != next {
        assert Owns(typing, timers[t].owner, timers[t].conversation, t);
      }
    }
    forall v, d | HasPending(typing', timers', v, d)
      ensures timers'[typing'[v].timeouts[d]].owner == v && timers'[typing'[v].timeouts[d]].conversation == d
    {
      if v != u || d != c {
        assert typing'[v].timeouts[d] == typing[v].timeouts[d];
        assert typing[v].timeouts[d] != next;
        assert HasPending(typing, timers, v, d);
      }
    }
    forall v, d ensures IsTyping(typing', v, d) <==> HasPending(typing', timers', v, d)
    {
      if v != u || d != c {
        assert IsTyping(typing', v, d) <==> IsTyping(typing, v, d);
        if v in typing' && d in typing'[v].timeouts {
          var h := typing'[v].timeouts[d];
          assert h == typing[v].timeouts[d] && h < next;
          if c in rec.timeouts && h == rec.timeouts[c] && h in timers {
            assert HasPending(typing, timers, v, d);
            assert HasPending(typing, timers, u, c);
          }
        }
        assert HasPending(typing', timers', v, d) <==> HasPending(typing, timers, v, d);
      }
    }
  }

  lemma FireKeepsConsistent(typing: map<UserId, TypingRecord>, timers: map<TimerId, TypingTimer>, next: nat, t: TimerId)
    requires TypingConsistent(typing, timers, next)
    requires t in timers
    ensures var w := timers[t];
      w.owner in typing &&
      TypingConsistent(typing[w.owner := typing[w.owner].(flags := typing[w.owner].flags[w.conversation := false])],
                       timers - {t}, next)
  {
    var w := timers[t];
    assert Owns(typing, w.owner, w.conversation, t);
    var typing' := typing[w.owner := typing[w.owner].(flags := typing[w.owner].flags[w.conversation := false])];
    var timers' := timers - {t};
    forall s | s in timers'
      ensures s < next && Owns(typing', timers'[s].owner, timers'[s].conversation, s)
    {
      assert Owns(typing, timers[s].owner, timers[s].conversation, s);
    }
    forall v, d ensures IsTyping(typing', v, d) <==> HasPending(typing', timers', v, d)
    {
      if v != w.owner || d != w.conversation {
        assert IsTyping(typing', v, d) <==> IsTyping(typing, v, d);
        if HasPending(typing, timers, v, d) {
          assert typing[v].timeouts[d] != t;
        }
        assert HasPending(typing', timers', v, d) <==> HasPending(typing, timers, v, d);
      }
    }
  }

  lemma StopKeepsConsistent(typing: map<UserId, TypingRecord>, timers: map<TimerId, TypingTimer>, next: nat, u: UserId, c: ConvId)
    requires TypingConsistent(typing, timers, next)
    requires u in typing
    ensures var rec := typing[u];
      TypingConsistent(typing[u := TypingRecord(rec.flags[c := false], rec.timeouts - {c})],
                       if c in rec.timeouts then timers - {rec.timeouts[c]} else timers, next)
  {
    var rec := typing[u];
    var typing' := typing[u := TypingRecord(rec.flags[c := false], rec.timeouts - {c})];
    var timers' := if c in rec.timeouts then timers - {rec.timeouts[c]} else timers;
    forall s | s in timers'
      ensures s < next && Owns(typing', timers'[s].owner, timers'[s].conversation, s)
    {
      assert Owns(typing, timers[s].owner, timers[s].conversation, s);
    }
    forall v, d ensures IsTyping(typing', v, d) <==> HasPending(typing', timers', v, d)
    {
      if v != u || d != c {
        assert IsTyping(typing', v, d) <==> IsTyping(typing, v, d);
        if HasPending(typing, timers, v, d) && c in rec.timeouts {
          assert HasPending(typing, timers, u, c) ==> typing[v].timeouts[d] != rec.timeouts[c];
        }
        assert HasPending(typing', timers', v, d) <==> HasPending(typing, timers, v, d);
      }
    }
  }

  lemma SweepKeepsConsistent(typing: map<UserId, TypingRecord>, timers: map<TimerId, TypingTimer>, next: nat, u: UserId)
    requires TypingConsistent(typing, timers, next)
    requires u in typing
    ensures TypingConsistent(typing - {u}, timers - typing[u].timeouts.Values, next)
    ensures forall t :: t in timers - typing[u].timeouts.Values ==> timers[t].owner != u
  {
    var typing' := typing - {u};
    var timers' := timers - typing[u].timeouts.Values;
    forall e | e in typing[u].timeouts ensures typing[u].timeouts[e] in typing[u].timeouts.Values {
    }
    forall s | s in timers'
      ensures s < next && Owns(typing', timers'[s].owner, timers'[s].conversation, s) && timers[s].owner != u
    {
      var w := timers[s];
      assert Owns(typing, w.owner, w.conversation, s);
    }
    forall e | e in typing[u].timeouts && typing[u].timeouts[e] in timers
      ensures timers[typing[u].timeouts[e]].owner == u
    {
      assert HasPending(typing, timers, u, e);
    }
    forall v, d ensures IsTyping(typing', v, d) <==> HasPending(typing', timers', v, d)
    {
      if v != u && HasPending(typing, timers, v, d) {
        assert timers[typing[v].timeouts[d]].owner == v;
      }
    }
  }
}
