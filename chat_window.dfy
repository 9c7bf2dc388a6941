/**
 * The chat window's logic: the guards and fields of a send, the history
 * handed to the assistant, the latest message from the other side, the
 * grouping of messages by day, the lookup of the open conversation, and the
 * debounce that turns keystrokes into typing signals.
 */
module ChatWindow {
  import opened Common
  import opened ClientData

  /** The selected contact; its `_id` may be missing. */
  datatype Contact = Contact(id: Option<nat>)

  /** The file chosen for upload. */
  datatype Picked = Picked(name: string)

  /** The `FormData` of a send, one component per appended field. */
  datatype SendForm = SendForm(senderId: string, receiverId: string, messageStatus: string,
                               content: Option<string>, media: Option<Picked>)

  /** What a send attempt does: nothing, or a request with the form, after
      which the input is cleared unless the request threw. */
  datatype Send = NotSent | Sending(form: SendForm, clearsInput: bool)

  /** An id as `FormData` stringifies it; a missing one becomes "undefined". */
  function IdText(o: Option<nat>): string {
    if o.Some? then NatToString(o.value) else "undefined"
  }

  // ---------------------------------------------------------------------
  // handleSendMessage
  // ---------------------------------------------------------------------

  /** `handleSendMessage`: nothing is sent without a contact, or with blank
      text and no file. Otherwise the form names sender and receiver, claims
      "delivered" for an online contact and the literal "send" otherwise,
      and carries the text (already trimmed, never blank) only when there
      is some, and the file when there is one; so it always carries one of
      the two. The input is cleared only when the request did not throw. */
  method HandleSendMessage(contact: Option<Contact>, me: Option<nat>, online: bool, message: string,
                           file: Option<Picked>, sendFails: bool) returns (r: Send)
    ensures r.Sending? <==> contact.Some? && (Trim(message) != "" || file.Some?)
    ensures r.Sending? ==>
      && r.form.senderId == IdText(me)
      && r.form.receiverId == IdText(contact.value.id)
      && r.form.messageStatus == (if online then "delivered" else "send")
      && (r.form.content.Some? || r.form.media.Some?)
      && r.form.media == file
      && (r.clearsInput <==> !sendFails)
    ensures r.Sending? ==> r.form.content == (if Trim(message) != "" then Some(Trim(message)) else None)
    ensures r.Sending? && r.form.content.Some? ==>
      && r.form.content.value != ""
      && Trim(r.form.content.value) == r.form.content.value
  {
    if contact.None? {
      return NotSent;
    }
    var text := Trim(message);
    TrimIdempotent(message);
    r := SendText(contact.value, me, online, text, file, sendFails);
  }

  /** The body of `handleSendMessage` once a contact is selected, on the
      trimmed text. */
  method SendText(contact: Contact, me: Option<nat>, online: bool, text: string,
                  file: Option<Picked>, sendFails: bool) returns (r: Send)
    ensures r.Sending? <==> text != "" || file.Some?
    ensures r.Sending? ==>
      && r.form.senderId == IdText(me)
      && r.form.receiverId == IdText(contact.id)
      && r.form.messageStatus == (if online then "delivered" else "send")
      && r.form.content == (if text != "" then Some(text) else None)
      && r.form.media == file
      && (r.clearsInput <==> !sendFails)
  {
    r := NotSent;
    var status := if online then "delivered" else "send";
    var content: Option<string> := None;
    if text != "" {
      content := Some(text);
    }
    if text != "" || file.Some? {
      r := Sending(SendForm(IdText(me), IdText(contact.id), status, content, file), !sendFails);
    }
  }

  // ---------------------------------------------------------------------
  // buildChatHistory
  // ---------------------------------------------------------------------

  datatype HistoryLine = HistoryLine(sender: string, content: string)

  /** The line for one message, labelled "User" when the current user sent
      it. The source compares the sender itself with the user's id (see
      `LabelAsWritten`); this is the comparison it evidently intends. */
  function LineOf(m: ClientMessage, me: Option<nat>): HistoryLine {
    HistoryLine(if SentBy(m.sender, me) then "User" else "Receiver", if Truthy(m.content) then m.content.value else "")
  }

  /** The label as written: `msg.sender === user?._id`. */
  function LabelAsWritten(m: ClientMessage, me: Option<nat>): string {
    if RefIs(m.sender, me) then "User" else "Receiver"
  }

  /** Messages reach the client with their sender populated, and a populated
      sender never equals a bare id: as written, the user's own message is
      labelled "Receiver" and counts as the other side's latest message. */
  lemma OwnMessageMisreadAsWritten()
    ensures var m := ClientMessage(1, Some(Populated(7)), Some("hi"), At(0), None);
      && LabelAsWritten(m, Some(7)) == "Receiver" && FromOtherAsWritten(m, Some(7))
      && LineOf(m, Some(7)).sender == "User" && !FromOther(m, Some(7))
  {
  }

  /** `messages.slice(-15).map(...)`: the last fifteen messages, oldest
      first, each labelled by who sent it. */
  function ChatHistory(messages: seq<ClientMessage>, me: Option<nat>): (r: seq<HistoryLine>)
    ensures |r| == if |messages| < 15 then |messages| else 15
    ensures forall k :: 0 <= k < |r| ==> r[k] == LineOf(messages[|messages| - |r| + k], me)
  {
    var tail := if |messages| <= 15 then messages else messages[|messages| - 15..];
    seq(|tail|, k requires 0 <= k < |tail| => LineOf(tail[k], me))
  }

  /** Once fifteen messages are shown, a new one pushes the oldest out. */
  lemma {:induction false} HistorySlides(messages: seq<ClientMessage>, m: ClientMessage, me: Option<nat>)
    requires |messages| >= 15
    ensures ChatHistory(messages + [m], me) == ChatHistory(messages, me)[1..] + [LineOf(m, me)]
  {
    var a := ChatHistory(messages + [m], me);
    var b := ChatHistory(messages, me)[1..] + [LineOf(m, me)];
    assert |a| == |b| == 15;
    forall k | 0 <= k < 15 ensures a[k] == b[k] {
      if k < 14 {
        assert (messages + [m])[|messages| + 1 - 15 + k] == messages[|messages| - 15 + k + 1];
      }
    }
  }

  // ---------------------------------------------------------------------
  // getLastReceiverMessage
  // ---------------------------------------------------------------------

  /** A message from the other side that has content. */
  predicate FromOther(m: ClientMessage, me: Option<nat>) {
    !SentBy(m.sender, me) && Truthy(m.content)
  }

  /** The test as written: `messages[i].sender !== user?._id && messages[i].content`. */
  predicate FromOtherAsWritten(m: ClientMessage, me: Option<nat>) {
    !RefIs(m.sender, me) && Truthy(m.content)
  }

  /** `getLastReceiverMessage`: scanning backwards, the content of the latest
      message from the other side that has content, or nothing. */
  method LastReceiverMessage(messages: Option<seq<ClientMessage>>, me: Option<nat>) returns (r: Option<string>)
    ensures r.None? <==> messages.None? || forall i :: 0 <= i < |messages.value| ==> !FromOther(messages.value[i], me)
    ensures r.Some? ==> exists i :: 0 <= i < |messages.value| && FromOther(messages.value[i], me)
                                   && messages.value[i].content == r
                                   && forall j :: i < j < |messages.value| ==> !FromOther(messages.value[j], me)
  {
    if messages.None? || |messages.value| == 0 {
      return None;
    }
    var ms := messages.value;
    var i := |ms| - 1;
    while i >= 0
      invariant -1 <= i < |ms|
      invariant forall j :: i < j < |ms| ==> !FromOther(ms[j], me)
    {
      if !SentBy(ms[i].sender, me) && Truthy(ms[i].content) {
        return ms[i].content;
      }
      i := i - 1;
    }
    return None;
  }

  // ---------------------------------------------------------------------
  // groupedMessages
  // ---------------------------------------------------------------------

  /** A message `groupedMessages` keeps: it has a readable `createdAt`. */
  predicate Dated(m: ClientMessage) {
    m.createdAt.At?
  }

  /** The messages dated on day `key`, in input order. */
  function OnDay(ms: seq<ClientMessage>, dayKey: int -> string, key: string): (r: seq<ClientMessage>)
    ensures forall m :: m in r <==> m in ms && Dated(m) && dayKey(m.createdAt.ms) == key
  {
    if ms == [] then []
    else
      var init := OnDay(ms[..|ms| - 1], dayKey, key);
      var m := ms[|ms| - 1];
      assert ms == ms[..|ms| - 1] + [m];
      if Dated(m) && dayKey(m.createdAt.ms) == key then init + [m] else init
  }

  lemma OnDayEmpty(ms: seq<ClientMessage>, dayKey: int -> string, key: string)
    requires forall m :: m in ms && Dated(m) ==> dayKey(m.createdAt.ms) != key
    ensures OnDay(ms, dayKey, key) == []
  {
  }

  /** `groups` holds, for every day some dated message of `ms` falls on,
      exactly the messages of `ms` on that day. */
  ghost predicate GroupsOf(groups: map<string, seq<ClientMessage>>, ms: seq<ClientMessage>, dayKey: int -> string) {
    && (forall key :: key in groups <==> exists m :: m in ms && Dated(m) && dayKey(m.createdAt.ms) == key)
    && (forall key :: key in groups ==> groups[key] == OnDay(ms, dayKey, key))
  }

  /** One step of the `forEach`: a dated message joins the end of its day's bucket. */
  function AddToGroups(groups: map<string, seq<ClientMessage>>, m: ClientMessage, dayKey: int -> string): map<string, seq<ClientMessage>> {
    if !Dated(m) then groups
    else
      var key := dayKey(m.createdAt.ms);
      groups[key := (if key in groups then groups[key] else []) + [m]]
  }

  lemma AddKeepsGroups(groups: map<string, seq<ClientMessage>>, ms: seq<ClientMessage>, m: ClientMessage, dayKey: int -> string)
    requires GroupsOf(groups, ms, dayKey)
    ensures GroupsOf(AddToGroups(groups, m, dayKey), ms + [m], dayKey)
  {
    var ms' := ms + [m];
    assert ms'[..|ms'| - 1] == ms;
    assert forall x :: x in ms' <==> x in ms || x == m;
    if Dated(m) {
      var key := dayKey(m.createdAt.ms);
      if key !in groups {
        OnDayEmpty(ms, dayKey, key);
      }
    }
  }

  /** The days some dated message falls on, each once, in order of first
      appearance: the key order of the object the `reduce` builds, which
      `Object.entries` renders, since "yyyy-MM-dd" keys are not array
      indices. */
  function DayKeys(ms: seq<ClientMessage>, dayKey: int -> string): (r: seq<string>)
    ensures Distinct(r)
    ensures forall key :: key in r <==> exists m :: m in ms && Dated(m) && dayKey(m.createdAt.ms) == key
  {
    if ms == [] then []
    else
      var init := DayKeys(ms[..|ms| - 1], dayKey);
      var m := ms[|ms| - 1];
      assert ms == ms[..|ms| - 1] + [m];
      if Dated(m) && dayKey(m.createdAt.ms) !in init then init + [dayKey(m.createdAt.ms)] else init
  }

  /** Message `k` is dated on day `key`. */
  predicate DatedOn(ms: seq<ClientMessage>, dayKey: int -> string, key: string, k: int) {
    0 <= k < |ms| && Dated(ms[k]) && dayKey(ms[k].createdAt.ms) == key
  }

  /** The index of the first message dated on day `key`, or `|ms|` when
      there is none. */
  function FirstOnDay(ms: seq<ClientMessage>, dayKey: int -> string, key: string): (k: nat)
    ensures k <= |ms|
    ensures k < |ms| ==> DatedOn(ms, dayKey, key, k)
    ensures forall j :: 0 <= j < k ==> !DatedOn(ms, dayKey, key, j)
  {
    if ms == [] then 0
    else
      var init := ms[..|ms| - 1];
      var k := FirstOnDay(init, dayKey, key);
      assert forall j :: 0 <= j < |init| ==> (DatedOn(init, dayKey, key, j) <==> DatedOn(ms, dayKey, key, j));
      if k < |init| then k
      else if DatedOn(ms, dayKey, key, |ms| - 1) then |ms| - 1
      else |ms|
  }

  /** The days are listed in the order in which they first occur among the
      messages. */
  lemma {:induction false} DayKeysInFirstAppearanceOrder(ms: seq<ClientMessage>, dayKey: int -> string)
    ensures forall i, j :: 0 <= i < j < |DayKeys(ms, dayKey)| ==>
      FirstOnDay(ms, dayKey, DayKeys(ms, dayKey)[i]) < FirstOnDay(ms, dayKey, DayKeys(ms, dayKey)[j])
  {
    if ms != [] {
      var init := ms[..|ms| - 1];
      var m := ms[|ms| - 1];
      DayKeysInFirstAppearanceOrder(init, dayKey);
      var ks, ki := DayKeys(ms, dayKey), DayKeys(init, dayKey);
      forall x | x in ki ensures FirstOnDay(ms, dayKey, x) == FirstOnDay(init, dayKey, x) < |init| {
        FirstOnDayInit(ms, dayKey, x);
      }
      forall i, j | 0 <= i < j < |ks| ensures FirstOnDay(ms, dayKey, ks[i]) < FirstOnDay(ms, dayKey, ks[j]) {
        if j < |ki| {
          assert ks[j] == ki[j] && ks[i] == ki[i];
        } else {
          assert ks[i] == ki[i];
          assert ks[j] == dayKey(m.createdAt.ms) && ks[j] !in ki;
          assert FirstOnDay(ms, dayKey, ks[j]) == |ms| - 1 by {
            assert DatedOn(ms, dayKey, ks[j], |ms| - 1);
            FirstOnDayNotIn(init, dayKey, ks[j]);
          }
        }
      }
    }
  }

  /** A day already in use before the last message keeps its first index. */
  lemma FirstOnDayInit(ms: seq<ClientMessage>, dayKey: int -> string, key: string)
    requires ms != [] && key in DayKeys(ms[..|ms| - 1], dayKey)
    ensures FirstOnDay(ms, dayKey, key) == FirstOnDay(ms[..|ms| - 1], dayKey, key) < |ms| - 1
  {
    var init := ms[..|ms| - 1];
    var m :| m in init && Dated(m) && dayKey(m.createdAt.ms) == key;
    var k :| 0 <= k < |init| && init[k] == m;
    assert DatedOn(init, dayKey, key, k);
  }

  /** A day no message is dated on has no first index. */
  lemma FirstOnDayNotIn(ms: seq<ClientMessage>, dayKey: int -> string, key: string)
    requires key !in DayKeys(ms, dayKey)
    ensures FirstOnDay(ms, dayKey, key) == |ms|
  {
  }

  /** Extending the messages by one extends the days by that message's day
      when it is dated on a new one. */
  lemma DayKeysSnoc(ms: seq<ClientMessage>, m: ClientMessage, dayKey: int -> string)
    ensures DayKeys(ms + [m], dayKey)
      == if Dated(m) && dayKey(m.createdAt.ms) !in DayKeys(ms, dayKey)
         then DayKeys(ms, dayKey) + [dayKey(m.createdAt.ms)] else DayKeys(ms, dayKey)
  {
    assert (ms + [m])[..|ms|] == ms;
  }

  /** `groups` and `days` are the buckets and the day order of `ms`. */
  ghost predicate Grouped(groups: map<string, seq<ClientMessage>>, days: seq<string>, ms: seq<ClientMessage>, dayKey: int -> string) {
    && GroupsOf(groups, ms, dayKey)
    && days == DayKeys(ms, dayKey)
    && (forall key :: key in groups <==> key in days)
  }

  /** One step of the `reduce` keeps the buckets and the day order. */
  lemma GroupStep(groups: map<string, seq<ClientMessage>>, days: seq<string>, ms: seq<ClientMessage>, m: ClientMessage, dayKey: int -> string)
    requires Grouped(groups, days, ms, dayKey)
    ensures Grouped(AddToGroups(groups, m, dayKey),
                    if Dated(m) && dayKey(m.createdAt.ms) !in groups then days + [dayKey(m.createdAt.ms)] else days,
                    ms + [m], dayKey)
  {
    AddKeepsGroups(groups, ms, m, dayKey);
    DayKeysSnoc(ms, m, dayKey);
  }

  /** `groupedMessages`: messages without a readable date are skipped; every
      other message goes to the bucket of its day (`dayKey` stands for the
      `yyyy-MM-dd` rendering), keeping input order. */
  method GroupedMessages(messages: Option<seq<ClientMessage>>, dayKey: int -> string)
    returns (groups: map<string, seq<ClientMessage>>, days: seq<string>)
    ensures messages.None? ==> groups == map[] && days == []
    ensures messages.Some? ==> days == DayKeys(messages.value, dayKey)
    ensures forall key :: key in groups <==> key in days
    ensures messages.Some? ==> forall key :: key in groups <==> exists m :: m in messages.value && Dated(m) && dayKey(m.createdAt.ms) == key
    ensures messages.Some? ==> forall key :: key in groups ==> groups[key] == OnDay(messages.value, dayKey, key)
  {
    groups, days := map[], [];
    if messages.None? {
      return;
    }
    var ms := messages.value;
    var i := 0;
    while i < |ms|
      invariant 0 <= i <= |ms|
      invariant Grouped(groups, days, ms[..i], dayKey)
    {
      var m := ms[i];
      assert ms[..i + 1] == ms[..i] + [m];
      GroupStep(groups, days, ms[..i], m, dayKey);
      if Dated(m) {
        var key := dayKey(m.createdAt.ms);
        if key !in groups {
          days := days + [key];
        }
        var bucket := if key in groups then groups[key] else [];
        groups := groups[key := bucket + [m]];
      }
      i := i + 1;
    }
    assert ms[..|ms|] == ms;
  }

  // ---------------------------------------------------------------------
  // The open conversation
  // ---------------------------------------------------------------------

  datatype ClientConversation = ClientConversation(id: Option<nat>, participants: Option<seq<Option<Ref>>>)

  /** `participants` is an array with a present entry that is the contact,
      as a populated `_id` or as the bare id. */
  predicate Includes(c: ClientConversation, contactId: nat) {
    c.participants.Some?
    && exists k :: 0 <= k < |c.participants.value| && c.participants.value[k].Some?
                   && c.participants.value[k].value.id == contactId
  }

  /** `conversations.data.find(...)`: the index of the first conversation
      that includes the contact. */
  function FirstIncluding(convs: seq<ClientConversation>, contactId: nat): (r: Option<nat>)
    ensures r.Some? ==> r.value < |convs| && Includes(convs[r.value], contactId)
                        && forall j :: 0 <= j < r.value ==> !Includes(convs[j], contactId)
    ensures r.None? ==> forall j :: 0 <= j < |convs| ==> !Includes(convs[j], contactId)
  {
    if convs == [] then None
    else if Includes(convs[0], contactId) then Some(0)
    else
      var rest := FirstIncluding(convs[1..], contactId);
      assert forall j :: 1 <= j < |convs| ==> convs[j] == convs[1..][j - 1];
      if rest.Some? then Some(rest.value + 1) else None
  }

  /** The conversation whose messages the window fetches: none without a
      contact id or a conversation list, otherwise the id of the first
      conversation including the contact, when it has one. */
  function ConversationToFetch(contact: Option<Contact>, data: Option<seq<ClientConversation>>): (r: Option<nat>)
    ensures contact.None? || contact.value.id.None? || data.None? ==> r.None?
    ensures r.Some? ==> exists j :: 0 <= j < |data.value| && Includes(data.value[j], contact.value.id.value)
                                    && data.value[j].id == r
                                    && forall i :: 0 <= i < j ==> !Includes(data.value[i], contact.value.id.value)
    ensures contact.Some? && contact.value.id.Some? && data.Some? && r.None? ==>
      forall j :: 0 <= j < |data.value| && Includes(data.value[j], contact.value.id.value) ==>
        data.value[FirstIncluding(data.value, contact.value.id.value).value].id.None?
  {
    if contact.None? || contact.value.id.None? || data.None? then None
    else
      match FirstIncluding(data.value, contact.value.id.value)
      case None => None
      case Some(j) => data.value[j].id
  }

  // ---------------------------------------------------------------------
  // Typing debounce
  // ---------------------------------------------------------------------

  datatype TypingSignal = StartTyping(to: Option<nat>) | StopTyping(to: Option<nat>)

  /** The effect on `[message, selectedContact]`: `current` is
      `typingTimeoutRef.current`, `pending` the timers not yet cleared (each
      with the contact id its callback captured), `signals` the calls to
      `startTyping`/`stopTyping`. */
  class TypingDebounce {
    var current: Option<nat>
    var pending: map<nat, Option<nat>>
    var nextHandle: nat
    var signals: seq<TypingSignal>

    /** At most one timer is pending, and it is the one the ref points at. */
    ghost predicate Valid()
      reads this
    {
      forall h :: h in pending ==> h < nextHandle && current == Some(h)
    }

    constructor ()
      ensures Valid() && current.None? && pending == map[] && signals == []
    {
      current, pending, nextHandle, signals := None, map[], 0, [];
    }

    /** One run of the effect, after the previous run's cleanup cleared the
      timer in the ref. With text and a contact it signals start and arms a
      fresh two-second timer; otherwise nothing is pending any more, so no
      stop signal will follow. */
    method Effect(message: string, contact: Option<Contact>)
      requires Valid()
      modifies this
      ensures Valid()
      ensures message != "" && contact.Some? ==>
        && signals == old(signals) + [StartTyping(contact.value.id)]
        && pending == map[old(nextHandle) := contact.value.id]
        && current == Some(old(nextHandle))
        && nextHandle == old(nextHandle) + 1
      ensures !(message != "" && contact.Some?) ==>
        signals == old(signals) && pending == map[] && current == old(current) && nextHandle == old(nextHandle)
    {
      if current.Some? {
        pending := pending - {current.value};
      }
      assert pending == map[];
      if message != "" && contact.Some? {
        signals := signals + [StartTyping(contact.value.id)];
        if current.Some? {
          pending := pending - {current.value};
        }
        var h := nextHandle;
        nextHandle := nextHandle + 1;
        pending := pending[h := contact.value.id];
        current := Some(h);
      }
    }

    /** A timer callback: a timer still pending signals stop to the contact
      it captured; a cleared one does nothing. */
    method Fire(h: nat)
      requires Valid()
      modifies this`pending, this`signals
      ensures Valid()
      ensures h in old(pending) ==> signals == old(signals) + [StopTyping(old(pending)[h])] && pending == map[]
      ensures h !in old(pending) ==> signals == old(signals) && pending == old(pending)
    {
      if h in pending {
        signals := signals + [StopTyping(pending[h])];
        pending := pending - {h};
      }
    }

    /** The cleanup when the window unmounts. */
    method Unmount()
      requires Valid()
      modifies this`pending
      ensures Valid() && pending == map[]
    {
      if current.Some? {
        pending := pending - {current.value};
      }
    }
  }
}
