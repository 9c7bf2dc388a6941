/**
 * The chat list: the username search, and what each row shows as preview,
 * time and unread badge.
 */
module ChatList {
  import opened Common
  import opened ClientData
  import opened HomePage
  import opened FormatTime

  /** `contact?.username?.toLowerCase().includes(searchTerm.toLowerCase())`. */
  predicate NameMatches(c: ContactEntry, search: string) {
    c.username.Some? && Contains(ToLower(c.username.value), ToLower(search))
  }

  /** `filteredContacts`: the contacts whose username contains the search
      ignoring case, in list order; a contact without a username never
      shows. */
  function FilteredContacts(contacts: seq<ContactEntry>, search: string): (r: seq<ContactEntry>)
    ensures |r| <= |contacts|
    ensures forall c :: c in r <==> c in contacts && NameMatches(c, search)
    ensures forall c :: c in r ==> c.username.Some?
  {
    if contacts == [] then []
    else
      var rest := FilteredContacts(contacts[1..], search);
      assert forall c :: c in contacts <==> c == contacts[0] || c in contacts[1..];
      if NameMatches(contacts[0], search) then [contacts[0]] + rest else rest
  }

  /** The filter keeps the list's order: the contacts kept from a
      concatenation are those kept from each part, one after the other. */
  lemma {:induction false} FilterAppend(a: seq<ContactEntry>, b: seq<ContactEntry>, search: string)
    ensures FilteredContacts(a + b, search) == FilteredContacts(a, search) + FilteredContacts(b, search)
  {
    if a == [] {
      assert a + b == b;
    } else {
      assert (a + b)[0] == a[0] && (a + b)[1..] == a[1..] + b;
      FilterAppend(a[1..], b, search);
    }
  }

  /** A single contact is kept exactly when its username matches. */
  lemma FilterOne(c: ContactEntry, search: string)
    ensures FilteredContacts([c], search) == if NameMatches(c, search) then [c] else []
  {
    assert [c][1..] == [];
  }

  /** With an empty search, exactly the contacts that have a username. */
  lemma {:induction false} EmptySearchKeepsNamed(contacts: seq<ContactEntry>)
    ensures forall c :: c in FilteredContacts(contacts, "") <==> c in contacts && c.username.Some?
  {
    forall c | c in contacts && c.username.Some?
      ensures NameMatches(c, "")
    {
      ContainsEmpty(ToLower(c.username.value));
      assert ToLower("") == "";
    }
  }

  /** Filtering again by the same search changes nothing. */
  lemma {:induction false} FilterIdempotent(contacts: seq<ContactEntry>, search: string)
    ensures FilteredContacts(FilteredContacts(contacts, search), search) == FilteredContacts(contacts, search)
  {
    if contacts != [] {
      FilterIdempotent(contacts[1..], search);
      var rest := FilteredContacts(contacts[1..], search);
      if NameMatches(contacts[0], search) {
        assert ([contacts[0]] + rest)[1..] == rest;
      }
    }
  }

  /** The unread badge: shown, with the count, exactly when there is a
      conversation whose `unreadCount` is positive. */
  function Badge(c: ContactEntry): (r: Option<int>)
    ensures r.Some? <==> c.conversation.Some? && c.conversation.value.unreadCount > 0
    ensures r.Some? ==> r.value == c.conversation.value.unreadCount && r.value > 0
  {
    if c.conversation.Some? && c.conversation.value.unreadCount > 0 then Some(c.conversation.value.unreadCount) else None
  }

  /** The preview line: a contact with no conversation invites one; with a
      conversation, the last message's content, or nothing. */
  datatype Preview = Invite | LastContent(content: Option<string>)

  function PreviewOf(c: ContactEntry): (r: Preview)
    ensures r.Invite? <==> c.conversation.None?
    ensures r.LastContent? && c.conversation.value.lastMessage.None? ==> r.content.None?
    ensures r.LastContent? && c.conversation.value.lastMessage.Some? ==> r.content == c.conversation.value.lastMessage.value.content
  {
    if c.conversation.None? then Invite
    else if c.conversation.value.lastMessage.None? then LastContent(None)
    else LastContent(c.conversation.value.lastMessage.value.content)
  }

  function PreviewText(p: Preview): string {
    match p
    case Invite => "Start a conversation"
    case LastContent(content) => if content.Some? then content.value else ""
  }

  /** The time shown on a row: only when the last message has a truthy
      `createdAt`, then formatted as the list formats times. */
  function RowTime(c: ContactEntry, now: int): (r: Option<Label>)
    ensures r.Some? <==> c.conversation.Some? && c.conversation.value.lastMessage.Some?
                         && !c.conversation.value.lastMessage.value.createdAt.Falsy?
    ensures r.Some? ==> r.value == FormatTimestamp(c.conversation.value.lastMessage.value.createdAt, now)
    ensures r.Some? && r.value == Blank ==> c.conversation.value.lastMessage.value.createdAt.Unparsable?
  {
    if c.conversation.Some? && c.conversation.value.lastMessage.Some?
       && !c.conversation.value.lastMessage.value.createdAt.Falsy?
    then Some(FormatTimestamp(c.conversation.value.lastMessage.value.createdAt, now))
    else None
  }

  /** A contact without a conversation shows the invitation, no time and no
      badge. */
  lemma {:induction false} FreshContactRow(c: ContactEntry, now: int)
    requires c.conversation.None?
    ensures PreviewText(PreviewOf(c)) == "Start a conversation" && RowTime(c, now).None? && Badge(c).None?
  {
    assert PreviewOf(c) == Invite;
  }
}
