/**
 * The home page's contact list: every other user, each with the
 * conversation the current user has with them, if any.
 */
module HomePage {
  import opened Common
  import opened ClientData

  /** A populated participant or user. */
  datatype Person = Person(id: nat, username: Option<string>, profilePicture: Option<string>)

  datatype LastMessage = LastMessage(content: Option<string>, createdAt: Stamp)

  /** A conversation as `getConversations` returns it. */
  datatype Conv = Conv(id: nat, participants: seq<Person>, lastMessage: Option<LastMessage>, unreadCount: int)

  /** One entry of the contact list. */
  datatype ContactEntry = ContactEntry(id: nat, username: Option<string>, profilePicture: Option<string>,
                                       conversation: Option<Conv>)

  /** `conv.participants.find(p => p._id !== user._id)`. */
  function OtherOf(conv: Conv, me: nat): (r: Option<Person>)
    ensures r.Some? ==> r.value in conv.participants && r.value.id != me
    ensures r.None? <==> forall k :: 0 <= k < |conv.participants| ==> conv.participants[k].id == me
  {
    OtherIn(conv.participants, me)
  }

  function OtherIn(ps: seq<Person>, me: nat): (r: Option<Person>)
    ensures r.Some? ==> r.value in ps && r.value.id != me
    ensures r.None? <==> forall k :: 0 <= k < |ps| ==> ps[k].id == me
  {
    if ps == [] then None
    else if ps[0].id != me then Some(ps[0])
    else
      assert forall k :: 1 <= k < |ps| ==> ps[k] == ps[1..][k - 1];
      OtherIn(ps[1..], me)
  }

  /** Participant `k` is the first whose id is not `me`. */
  predicate FirstOther(ps: seq<Person>, me: nat, k: int) {
    0 <= k < |ps| && ps[k].id != me && forall j :: 0 <= j < k ==> ps[j].id == me
  }

  /** `find` picks the first participant who is not the current user. */
  lemma {:induction false} OtherIsFirst(ps: seq<Person>, me: nat)
    ensures OtherIn(ps, me).Some? ==> exists k :: FirstOther(ps, me, k) && ps[k] == OtherIn(ps, me).value
  {
    if ps != [] {
      if ps[0].id != me {
        assert FirstOther(ps, me, 0);
      } else {
        OtherIsFirst(ps[1..], me);
        if OtherIn(ps[1..], me).Some? {
          var k :| FirstOther(ps[1..], me, k) && ps[1..][k] == OtherIn(ps[1..], me).value;
          assert FirstOther(ps, me, k + 1);
        }
      }
    }
  }

  /** The entry `conversationMap` stores for a conversation. */
  function EntryFor(other: Person, conv: Conv): ContactEntry {
    ContactEntry(other.id, other.username, other.profilePicture, Some(conv))
  }

  /** Every conversation has another participant. */
  predicate AllHaveOther(convs: seq<Conv>, me: nat) {
    forall i :: 0 <= i < |convs| ==> OtherOf(convs[i], me).Some?
  }

  /** `conversationMap` after the `forEach`, as a left fold. */
  function MapOf(convs: seq<Conv>, me: nat): (r: map<nat, ContactEntry>)
    requires AllHaveOther(convs, me)
    ensures forall u :: u in r ==> r[u].id == u && r[u].conversation.Some?
  {
    if convs == [] then map[]
    else
      var init := convs[..|convs| - 1];
      var last := convs[|convs| - 1];
      assert forall i :: 0 <= i < |init| ==> init[i] == convs[i];
      var other := OtherOf(last, me).value;
      MapOf(init, me)[other.id := EntryFor(other, last)]
  }

  /** Conversation `i` is the last one whose other participant is `u`. */
  predicate LastWith(convs: seq<Conv>, me: nat, u: nat, i: int)
    requires AllHaveOther(convs, me)
  {
    && 0 <= i < |convs| && OtherOf(convs[i], me).value.id == u
    && forall j :: i < j < |convs| ==> OtherOf(convs[j], me).value.id != u
  }

  /** The map holds a key exactly for each other participant. */
  lemma {:induction false} KeyPerParticipant(convs: seq<Conv>, me: nat, u: nat)
    requires AllHaveOther(convs, me)
    ensures u in MapOf(convs, me) <==> exists i :: 0 <= i < |convs| && OtherOf(convs[i], me).value.id == u
  {
    if convs != [] {
      var init, n := convs[..|convs| - 1], |convs| - 1;
      InitHasOther(convs, me);
      KeyPerParticipant(init, me, u);
      if OtherOf(convs[n], me).value.id != u {
        if exists i :: 0 <= i < |convs| && OtherOf(convs[i], me).value.id == u {
          var i :| 0 <= i < |convs| && OtherOf(convs[i], me).value.id == u;
          assert i < n;
          assert init[i] == convs[i];
        }
      }
    }
  }

  /** The entry for a key comes from the last conversation with that
      participant. */
  lemma {:induction false} LaterConversationWins(convs: seq<Conv>, me: nat, u: nat)
    requires AllHaveOther(convs, me)
    requires u in MapOf(convs, me)
    ensures exists i :: LastWith(convs, me, u, i) && MapOf(convs, me)[u] == EntryFor(OtherOf(convs[i], me).value, convs[i])
  {
    var init, n := convs[..|convs| - 1], |convs| - 1;
    InitHasOther(convs, me);
    if OtherOf(convs[n], me).value.id == u {
      assert LastWith(convs, me, u, n);
    } else {
      LaterConversationWins(init, me, u);
      var i :| LastWith(init, me, u, i) && MapOf(init, me)[u] == EntryFor(OtherOf(init[i], me).value, init[i]);
      LastWithExtends(convs, me, u, i);
    }
  }

  lemma InitHasOther(convs: seq<Conv>, me: nat)
    requires AllHaveOther(convs, me) && convs != []
    ensures AllHaveOther(convs[..|convs| - 1], me)
    ensures forall i :: 0 <= i < |convs| - 1 ==> convs[..|convs| - 1][i] == convs[i]
  {
  }

  /** The last match in all but the final conversation stays the last match
      when the final one is with someone else. */
  lemma LastWithExtends(convs: seq<Conv>, me: nat, u: nat, i: int)
    requires AllHaveOther(convs, me) && convs != []
    requires OtherOf(convs[|convs| - 1], me).value.id != u
    requires AllHaveOther(convs[..|convs| - 1], me) && LastWith(convs[..|convs| - 1], me, u, i)
    ensures LastWith(convs, me, u, i)
  {
    var init := convs[..|convs| - 1];
    forall j | i < j < |convs| ensures OtherOf(convs[j], me).value.id != u {
      if j < |init| {
        assert init[j] == convs[j];
      }
    }
    assert init[i] == convs[i];
  }

  /** The `forEach` over the conversations. It rejects (and the list stays
      as it was) when a conversation has no participant other than the user,
      since `otherUser` is then undefined. */
  method ConversationMap(convs: seq<Conv>, me: nat) returns (m: Option<map<nat, ContactEntry>>)
    ensures m.Some? <==> AllHaveOther(convs, me)
    ensures m.Some? ==> m.value == MapOf(convs, me)
  {
    var acc: map<nat, ContactEntry> := map[];
    var i := 0;
    while i < |convs|
      invariant 0 <= i <= |convs|
      invariant AllHaveOther(convs[..i], me)
      invariant acc == MapOf(convs[..i], me)
    {
      var other := OtherOf(convs[i], me);
      if other.None? {
        assert !AllHaveOther(convs, me);
        return None;
      }
      assert convs[..i + 1][..i] == convs[..i];
      acc := acc[other.value.id := EntryFor(other.value, convs[i])];
      i := i + 1;
    }
    assert convs[..i] == convs;
    return Some(acc);
  }

  /** `usersRes.data.filter(u => u._id !== user._id)`. */
  function Others(users: seq<Person>, me: nat): (r: seq<Person>)
    ensures |r| <= |users|
    ensures forall p :: p in r <==> p in users && p.id != me
  {
    if users == [] then []
    else
      assert forall p :: p in users <==> p == users[0] || p in users[1..];
      (if users[0].id != me then [users[0]] else []) + Others(users[1..], me)
  }

  /** The filter keeps the users' order: the users kept from a concatenation
      are those kept from each part, one after the other. */
  lemma {:induction false} OthersAppend(a: seq<Person>, b: seq<Person>, me: nat)
    ensures Others(a + b, me) == Others(a, me) + Others(b, me)
  {
    if a == [] {
      assert a + b == b;
    } else {
      assert (a + b)[0] == a[0] && (a + b)[1..] == a[1..] + b;
      OthersAppend(a[1..], b, me);
    }
  }

  /** A single user is kept exactly when it is not the current one. */
  lemma OthersOne(u: Person, me: nat)
    ensures Others([u], me) == if u.id != me then [u] else []
  {
    assert [u][1..] == [];
  }

  /** The `.map(...)`: a user's map entry, or the user with no conversation. */
  function MergedEntry(u: Person, cmap: map<nat, ContactEntry>): ContactEntry {
    if u.id in cmap then cmap[u.id] else ContactEntry(u.id, u.username, u.profilePicture, None)
  }

  /** `merged`: one entry per user other than the current one, in the users'
      order, carrying that user's id; its conversation is the last one with
      that user, or none. */
  function Merged(users: seq<Person>, cmap: map<nat, ContactEntry>, me: nat): (r: seq<ContactEntry>)
    requires forall u :: u in cmap ==> cmap[u].id == u && cmap[u].conversation.Some?
    ensures |r| == |Others(users, me)|
    ensures forall k :: 0 <= k < |r| ==> r[k].id == Others(users, me)[k].id && r[k].id != me
    ensures forall k :: 0 <= k < |r| ==> (r[k].conversation.None? <==> r[k].id !in cmap)
    ensures forall k :: 0 <= k < |r| && r[k].id in cmap ==> r[k] == cmap[r[k].id]
    ensures forall k :: 0 <= k < |r| && r[k].id !in cmap ==>
      var u := Others(users, me)[k];
      r[k] == ContactEntry(u.id, u.username, u.profilePicture, None)
  {
    var others := Others(users, me);
    seq(|others|, k requires 0 <= k < |others| => MergedEntry(others[k], cmap))
  }

  /** `loadChats`: the contacts the page shows, or none when the load
      rejects. */
  method LoadChats(convs: seq<Conv>, users: seq<Person>, me: nat) returns (contacts: Option<seq<ContactEntry>>)
    ensures contacts.None? <==> !AllHaveOther(convs, me)
    ensures contacts.Some? ==> contacts.value == Merged(users, MapOf(convs, me), me)
    ensures contacts.Some? ==> |contacts.value| == |Others(users, me)|
  {
    var cmap := ConversationMap(convs, me);
    if cmap.None? {
      return None;
    }
    return Some(Merged(users, cmap.value, me));
  }
}
