/**
 * The client's status store: the list of statuses kept in sync with the
 * server's live events and the results of the user's own requests, and the
 * grouping of that list by owner for the status screen.
 */
module StatusStore {
  import opened Common
  import opened Ordering

  /** A status as the client holds it; `owner` is `user?._id`, missing when
      the owner was not populated. */
  datatype StatusItem = StatusItem(
    id: nat,
    owner: Option<nat>,
    ownerName: Option<string>,
    avatar: Option<string>,
    content: string,
    contentType: string,
    viewers: seq<nat>,
    createdAt: int)

  predicate HasId(list: seq<StatusItem>, id: nat) {
    exists i :: 0 <= i < |list| && list[i].id == id
  }

  predicate DistinctIds(list: seq<StatusItem>) {
    forall i, j :: 0 <= i < j < |list| ==> list[i].id != list[j].id
  }

  // ---------------------------------------------------------------------
  // List updates
  // ---------------------------------------------------------------------

  /** `some(s => s._id === x._id) ? list : [x, ...list]`. */
  function PrependUnique(list: seq<StatusItem>, x: StatusItem): (r: seq<StatusItem>)
    ensures HasId(r, x.id)
    ensures HasId(list, x.id) ==> r == list
    ensures !HasId(list, x.id) ==> r == [x] + list
    ensures DistinctIds(list) ==> DistinctIds(r)
  {
    if HasId(list, x.id) then list
    else
      var r := [x] + list;
      assert r[0] == x;
      r
  }

  /** `filter(s => s._id !== id)`. */
  function RemoveId(list: seq<StatusItem>, id: nat): (r: seq<StatusItem>)
    ensures forall x :: x in r <==> x in list && x.id != id
    ensures |r| <= |list|
  {
    if list == [] then []
    else
      var rest := RemoveId(list[1..], id);
      assert list == [list[0]] + list[1..];
      if list[0].id == id then rest else [list[0]] + rest
  }

  lemma {:induction false} RemoveIdLeavesNone(list: seq<StatusItem>, id: nat)
    ensures !HasId(RemoveId(list, id), id)
  {
    var r := RemoveId(list, id);
    forall i | 0 <= i < |r| ensures r[i].id != id {
      assert r[i] in r;
    }
  }

  /** Removing an id that is not there changes nothing. */
  lemma {:induction false} RemoveAbsentId(list: seq<StatusItem>, id: nat)
    requires !HasId(list, id)
    ensures RemoveId(list, id) == list
  {
    if list != [] {
      assert list[0].id != id;
      assert !HasId(list[1..], id) by {
        forall i | 0 <= i < |list[1..]| ensures list[1..][i].id != id {
          assert list[1..][i] == list[i + 1];
        }
      }
      RemoveAbsentId(list[1..], id);
      assert list == [list[0]] + list[1..];
    }
  }

  lemma {:induction false} RemoveIdKeepsDistinct(list: seq<StatusItem>, id: nat)
    requires DistinctIds(list)
    ensures DistinctIds(RemoveId(list, id))
  {
    if list != [] {
      var tail := list[1..];
      assert DistinctIds(tail) by {
        forall i, j | 0 <= i < j < |tail| ensures tail[i].id != tail[j].id {
          assert tail[i] == list[i + 1] && tail[j] == list[j + 1];
        }
      }
      RemoveIdKeepsDistinct(tail, id);
      var rest := RemoveId(tail, id);
      if list[0].id != id {
        var r := [list[0]] + rest;
        forall i, j | 0 <= i < j < |r| ensures r[i].id != r[j].id {
          if i == 0 {
            assert r[j] == rest[j - 1] && rest[j - 1] in rest && rest[j - 1] in tail;
            var k :| 0 <= k < |tail| && tail[k] == rest[j - 1];
            assert tail[k] == list[k + 1];
          } else {
            assert r[i] == rest[i - 1] && r[j] == rest[j - 1];
          }
        }
      }
    }
  }

  /** Removal keeps the survivors in their order: it acts on each part of a
      split list separately. */
  lemma {:induction false} RemoveIdSplits(a: seq<StatusItem>, b: seq<StatusItem>, id: nat)
    ensures RemoveId(a + b, id) == RemoveId(a, id) + RemoveId(b, id)
  {
    if a == [] {
      assert a + b == b;
    } else {
      var ab := a + b;
      assert ab[1..] == a[1..] + b && ab[0] == a[0];
      RemoveIdSplits(a[1..], b, id);
      if a[0].id == id {
        assert RemoveId(ab, id) == RemoveId(ab[1..], id);
      } else {
        assert RemoveId(ab, id) == [a[0]] + RemoveId(ab[1..], id);
        assert RemoveId(a, id) == [a[0]] + RemoveId(a[1..], id);
      }
    }
  }

  /** `map(s => s._id === id ? {...s, viewers} : s)`. */
  function SetViewers(list: seq<StatusItem>, id: nat, viewers: seq<nat>): (r: seq<StatusItem>)
    ensures |r| == |list|
    ensures forall i :: 0 <= i < |list| ==> r[i] == if list[i].id == id then list[i].(viewers := viewers) else list[i]
  {
    if list == [] then []
    else [if list[0].id == id then list[0].(viewers := viewers) else list[0]] + SetViewers(list[1..], id, viewers)
  }

  /** Replacing viewers keeps every id where it was. */
  lemma {:induction false} SetViewersKeepsIds(list: seq<StatusItem>, id: nat, viewers: seq<nat>)
    ensures DistinctIds(list) ==> DistinctIds(SetViewers(list, id, viewers))
    ensures forall k :: HasId(SetViewers(list, id, viewers), k) <==> HasId(list, k)
  {
    var r := SetViewers(list, id, viewers);
    assert forall i :: 0 <= i < |list| ==> r[i].id == list[i].id;
  }

  /** What a request brings back: an error, or a response whose `data` may be missing. */
  datatype Response = RequestFailed(message: string) | Responded(data: Option<StatusItem>)

  class Store {
    var statuses: seq<StatusItem>
    var loading: bool
    var error: Option<string>

    /** No status appears twice. */
    ghost predicate Valid()
      reads this
    {
      DistinctIds(statuses)
    }

    constructor ()
      ensures Valid() && statuses == [] && !loading && error.None?
    {
      statuses, loading, error := [], false, None;
    }

    /** The `new_status` event. */
    method OnNewStatus(x: StatusItem)
      requires Valid()
      modifies this`statuses
      ensures Valid()
      ensures statuses == PrependUnique(old(statuses), x)
    {
      statuses := PrependUnique(statuses, x);
    }

    /** The `status_deleted` event. */
    method OnStatusDeleted(id: nat)
      requires Valid()
      modifies this`statuses
      ensures Valid()
      ensures statuses == RemoveId(old(statuses), id)
    {
      RemoveIdKeepsDistinct(statuses, id);
      statuses := RemoveId(statuses, id);
    }

    /** The `status_viewed` event. */
    method OnStatusViewed(id: nat, viewers: seq<nat>)
      requires Valid()
      modifies this`statuses
      ensures Valid()
      ensures statuses == SetViewers(old(statuses), id, viewers)
    {
      SetViewersKeepsIds(statuses, id, viewers);
      statuses := SetViewers(statuses, id, viewers);
    }

    /** `createStatus` once the request settles: a returned status is added
      without duplicating an id and ends the loading state; a response
      without one leaves the store loading; a failure records the message,
      ends loading and is rethrown (`rethrown`). */
    method CreateStatus(response: Response) returns (created: Option<StatusItem>, rethrown: bool)
      requires Valid()
      modifies this
      ensures Valid()
      ensures rethrown <==> response.RequestFailed?
      ensures response.RequestFailed? ==>
        statuses == old(statuses) && !loading && error == Some(response.message) && created.None?
      ensures response.Responded? ==> created == response.data && error.None?
      ensures response.Responded? && response.data.Some? ==>
        statuses == PrependUnique(old(statuses), response.data.value) && !loading
      ensures response.Responded? && response.data.None? ==> statuses == old(statuses) && loading
    {
      loading, error := true, None;
      if response.RequestFailed? {
        error, loading := Some(response.message), false;
        return None, true;
      }
      if response.data.Some? {
        statuses := PrependUnique(statuses, response.data.value);
        loading := false;
      }
      return response.data, false;
    }

    /** `deleteStatus` once the request settles: on success the status is
      filtered out (the loading flag is left set); on failure the list is
      kept and the error recorded. */
    method DeleteStatus(id: nat, failure: Option<string>)
      requires Valid()
      modifies this
      ensures Valid()
      ensures failure.None? ==> statuses == RemoveId(old(statuses), id) && loading && error.None?
      ensures failure.Some? ==> statuses == old(statuses) && !loading && error == failure
    {
      loading, error := true, None;
      if failure.Some? {
        error, loading := failure, false;
      } else {
        RemoveIdKeepsDistinct(statuses, id);
        statuses := RemoveId(statuses, id);
      }
    }
  }

  // ---------------------------------------------------------------------
  // Grouping by owner
  // ---------------------------------------------------------------------

  datatype GroupItem = GroupItem(id: nat, media: string, contentType: string, timestamp: int, viewers: seq<nat>)

  datatype Group = Group(id: nat, name: Option<string>, avatar: Option<string>, items: seq<GroupItem>)

  function ItemOf(s: StatusItem): GroupItem {
    GroupItem(s.id, s.content, s.contentType, s.createdAt, s.viewers)
  }

  /** The comparator `(a, b) => b.timestamp - a.timestamp`: newest first. */
  function NewestFirst(g: GroupItem): int {
    -g.timestamp
  }

  /** The entries of `u`'s statuses, in list order. */
  function ItemsOf(list: seq<StatusItem>, u: nat): seq<GroupItem> {
    if list == [] then []
    else ItemsOf(list[..|list| - 1], u) + (if list[|list| - 1].owner == Some(u) then [ItemOf(list[|list| - 1])] else [])
  }

  /** The owners in order of first appearance (`Object.values` order). */
  function Owners(list: seq<StatusItem>): seq<nat> {
    if list == [] then []
    else
      var init := Owners(list[..|list| - 1]);
      var o := list[|list| - 1].owner;
      if o.Some? && o.value !in init then init + [o.value] else init
  }

  lemma {:induction false} OwnersSpec(list: seq<StatusItem>)
    ensures forall u :: u in Owners(list) <==> exists i :: 0 <= i < |list| && list[i].owner == Some(u)
    ensures Distinct(Owners(list))
  {
    if list != [] {
      var init := list[..|list| - 1];
      OwnersSpec(init);
      forall u ensures (exists i :: 0 <= i < |list| && list[i].owner == Some(u))
                       <==> (exists i :: 0 <= i < |init| && init[i].owner == Some(u)) || list[|list| - 1].owner == Some(u) {
        if exists i :: 0 <= i < |list| && list[i].owner == Some(u) {
          var i :| 0 <= i < |list| && list[i].owner == Some(u);
          if i < |init| {
            assert init[i] == list[i];
          }
        }
        if exists i :: 0 <= i < |init| && init[i].owner == Some(u) {
          var i :| 0 <= i < |init| && init[i].owner == Some(u);
          assert list[i] == init[i];
        }
      }
    }
  }

  /** The reduce accumulator: one group per owner seen so far. */
  ghost predicate GroupsMatch(list: seq<StatusItem>, groups: map<nat, Group>) {
    && (forall u :: u in groups <==> u in Owners(list))
    && forall u :: u in groups ==> GroupFor(list, groups[u], u)
  }

  /** `getGroupStatus`: every status with an owner goes into exactly its
      owner's group, which is kept newest first (a push followed by a stable
      sort); statuses without an owner are skipped. The owners come back in
      the order their first status appears. */
  method GroupStatus(list: seq<StatusItem>) returns (groups: map<nat, Group>, order: seq<nat>)
    ensures GroupsMatch(list, groups)
    ensures order == Owners(list)
    ensures forall u :: u in groups <==> exists i :: 0 <= i < |list| && list[i].owner == Some(u)
    ensures Distinct(order) && forall u :: u in order <==> u in groups
  {
    groups, order := map[], [];
    var i := 0;
    while i < |list|
      invariant 0 <= i <= |list|
      invariant GroupsMatch(list[..i], groups)
      invariant order == Owners(list[..i])
    {
      var s := list[i];
      assert list[..i + 1] == list[..i] + [s];
      var before := groups;
      groups, order := PushStatus(groups, order, s);
      OwnersAppend(list[..i], s);
      PushKeepsMatch(list[..i], s, before, groups);
      i := i + 1;
    }
    assert list[..|list|] == list;
    OwnersSpec(list);
  }

  /** One step of the reduce: create the owner's group on first sight, push
      the entry and resort the group. */
  method PushStatus(groups: map<nat, Group>, order: seq<nat>, s: StatusItem) returns (after: map<nat, Group>, order': seq<nat>)
    ensures Pushed(groups, s, after)
    ensures order' == if s.owner.Some? && s.owner.value !in groups then order + [s.owner.value] else order
  {
    after, order' := groups, order;
    if s.owner.Some? {
      var u := s.owner.value;
      if u !in after {
        after := after[u := Group(u, s.ownerName, s.avatar, [])];
        order' := order' + [u];
      }
      var g := after[u];
      var items := SortBy(g.items + [ItemOf(s)], NewestFirst);
      after := after[u := g.(items := items)];
      assert after == groups[u := g.(items := items)];
    }
  }

  /** The entry for one more status: its owner's group, created on first
      sight, gains it and is resorted; every other group is untouched. */
  ghost predicate Pushed(before: map<nat, Group>, s: StatusItem, after: map<nat, Group>) {
    if s.owner.None? then after == before
    else
      var u := s.owner.value;
      var g := if u in before then before[u] else Group(u, s.ownerName, s.avatar, []);
      after == before[u := g.(items := SortBy(g.items + [ItemOf(s)], NewestFirst))]
  }

  lemma PushKeepsMatch(prefix: seq<StatusItem>, s: StatusItem, before: map<nat, Group>, after: map<nat, Group>)
    requires GroupsMatch(prefix, before)
    requires Pushed(before, s, after)
    ensures GroupsMatch(prefix + [s], after)
  {
    var list := prefix + [s];
    forall v: nat ensures v in after <==> v in Owners(list) {
      OwnersStep(prefix, s, v);
      PushedKeys(before, s, after, v);
    }
    forall v | v in after ensures GroupFor(list, after[v], v) {
      PushKeepsGroup(prefix, s, before, after, v);
    }
  }

  /** The same, for the group of one owner. */
  lemma PushKeepsGroup(prefix: seq<StatusItem>, s: StatusItem, before: map<nat, Group>, after: map<nat, Group>, v: nat)
    requires v in before ==> GroupFor(prefix, before[v], v)
    requires v !in before ==> v !in Owners(prefix)
    requires Pushed(before, s, after)
    requires v in after
    ensures GroupFor(prefix + [s], after[v], v)
  {
    ItemsStep(prefix, s, v);
    FirstOwnedStep(prefix, s, v);
    var list := prefix + [s];
    if v in before {
      var k := FirstOwned(prefix, v);
      assert list[k] == prefix[k];
    } else {
      UnseenOwnerHasNoItems(prefix, v);
    }
    if s.owner == Some(v) {
      var g := if v in before then before[v] else Group(v, s.ownerName, s.avatar, []);
      GroupGains(prefix, g, s, v);
    }
  }

  /** Group `g` holds exactly the entries `list` gives owner `v`, newest
      first, under the name and avatar of `v`'s first status. */
  ghost predicate GroupFor(list: seq<StatusItem>, g: Group, v: nat) {
    && g.id == v && SortedBy(g.items, NewestFirst) && multiset(g.items) == multiset(ItemsOf(list, v))
    && var k := FirstOwned(list, v);
       k < |list| && g.name == list[k].ownerName && g.avatar == list[k].avatar
  }

  /** The index of `v`'s first status, or `|list|` when `v` owns none. */
  function FirstOwned(list: seq<StatusItem>, v: nat): (k: nat)
    ensures k <= |list|
    ensures k < |list| ==> list[k].owner == Some(v)
    ensures forall j :: 0 <= j < k ==> list[j].owner != Some(v)
  {
    if list == [] then 0
    else
      var k := FirstOwned(list[..|list| - 1], v);
      if k < |list| - 1 then k
      else if list[|list| - 1].owner == Some(v) then |list| - 1
      else |list|
  }

  lemma FirstOwnedStep(prefix: seq<StatusItem>, s: StatusItem, v: nat)
    ensures FirstOwned(prefix + [s], v) == if FirstOwned(prefix, v) < |prefix| then FirstOwned(prefix, v)
                                           else if s.owner == Some(v) then |prefix| else |prefix| + 1
  {
    var list := prefix + [s];
    assert list[..|list| - 1] == prefix && list[|list| - 1] == s;
  }

  lemma GroupGains(prefix: seq<StatusItem>, g: Group, s: StatusItem, v: nat)
    requires g.id == v && multiset(g.items) == multiset(ItemsOf(prefix, v))
    requires s.owner == Some(v)
    requires var k := FirstOwned(prefix + [s], v); k < |prefix| + 1 && g.name == (prefix + [s])[k].ownerName && g.avatar == (prefix + [s])[k].avatar
    ensures GroupFor(prefix + [s], g.(items := SortBy(g.items + [ItemOf(s)], NewestFirst)), v)
  {
    ItemsStep(prefix, s, v);
  }

  lemma PushedKeys(before: map<nat, Group>, s: StatusItem, after: map<nat, Group>, v: nat)
    requires Pushed(before, s, after)
    ensures v in after <==> v in before || s.owner == Some(v)
  {
  }

  lemma OwnersAppend(prefix: seq<StatusItem>, s: StatusItem)
    ensures Owners(prefix + [s]) == if s.owner.Some? && s.owner.value !in Owners(prefix)
                                    then Owners(prefix) + [s.owner.value] else Owners(prefix)
  {
    var list := prefix + [s];
    assert list[..|list| - 1] == prefix && list[|list| - 1] == s;
  }

  lemma OwnersStep(prefix: seq<StatusItem>, s: StatusItem, v: nat)
    ensures v in Owners(prefix + [s]) <==> v in Owners(prefix) || s.owner == Some(v)
  {
    var list := prefix + [s];
    assert list[..|list| - 1] == prefix && list[|list| - 1] == s;
  }

  lemma ItemsStep(prefix: seq<StatusItem>, s: StatusItem, v: nat)
    ensures ItemsOf(prefix + [s], v) == ItemsOf(prefix, v) + if s.owner == Some(v) then [ItemOf(s)] else []
  {
    var list := prefix + [s];
    assert list[..|list| - 1] == prefix && list[|list| - 1] == s;
  }

  /** An owner not yet seen has no entries. */
  lemma {:induction false} UnseenOwnerHasNoItems(list: seq<StatusItem>, u: nat)
    requires u !in Owners(list)
    ensures ItemsOf(list, u) == []
    ensures FirstOwned(list, u) == |list|
  {
    if list != [] {
      UnseenOwnerHasNoItems(list[..|list| - 1], u);
    }
  }

  /** `getUserStatuses`: nothing for a falsy id, otherwise that user's group,
      present exactly when the user owns a status. */
  method UserStatuses(list: seq<StatusItem>, userId: Option<nat>) returns (g: Option<Group>)
    ensures userId.None? ==> g.None?
    ensures userId.Some? ==> (g.Some? <==> exists i :: 0 <= i < |list| && list[i].owner == userId)
    ensures g.Some? ==>
      && g.value.id == userId.value
      && SortedBy(g.value.items, NewestFirst)
      && multiset(g.value.items) == multiset(ItemsOf(list, userId.value))
      && FirstOwned(list, userId.value) < |list|
      && g.value.name == list[FirstOwned(list, userId.value)].ownerName
      && g.value.avatar == list[FirstOwned(list, userId.value)].avatar
  {
    if userId.None? {
      return None;
    }
    var groups, order := GroupStatus(list);
    g := if userId.value in groups then Some(groups[userId.value]) else None;
  }

  /** `filter(id => id !== userId)` on the owner order. */
  function Without(order: seq<nat>, userId: Option<nat>): (r: seq<nat>)
    ensures forall u :: u in r <==> u in order && Some(u) != userId
    ensures Distinct(order) ==> Distinct(r)
  {
    if order == [] then []
    else
      var rest := Without(order[1..], userId);
      assert order == [order[0]] + order[1..];
      assert Distinct(order) ==> Distinct(order[1..]) && order[0] !in order[1..] by {
        if Distinct(order) {
          var tail := order[1..];
          forall i, j | 0 <= i < j < |tail| ensures tail[i] != tail[j] {
            assert tail[i] == order[i + 1] && tail[j] == order[j + 1];
          }
          forall i | 0 <= i < |tail| ensures tail[i] != order[0] {
            assert tail[i] == order[i + 1];
          }
        }
      }
      if Some(order[0]) != userId then
        var r := [order[0]] + rest;
        assert forall k :: 1 <= k < |r| ==> r[k] == rest[k - 1];
        r
      else
        rest
  }

  /** `Object.values(groups)` in owner order, then the filter on ids. */
  function OthersOf(groups: map<nat, Group>, order: seq<nat>, userId: Option<nat>): (r: seq<Group>)
    requires forall u :: u in order ==> u in groups
    ensures |r| == |Without(order, userId)|
    ensures forall k :: 0 <= k < |r| ==> Without(order, userId)[k] in groups && r[k] == groups[Without(order, userId)[k]]
  {
    var ids := Without(order, userId);
    seq(|ids|, k requires 0 <= k < |ids| => groups[ids[k]])
  }

  /** `getOtherStatuses`: the groups of every owner except `userId`, each
      once, in order of first appearance. */
  method OtherStatuses(list: seq<StatusItem>, userId: Option<nat>) returns (others: seq<Group>)
    ensures |others| == |Without(Owners(list), userId)|
    ensures forall k :: 0 <= k < |others| ==>
      && others[k].id == Without(Owners(list), userId)[k]
      && SortedBy(others[k].items, NewestFirst)
      && multiset(others[k].items) == multiset(ItemsOf(list, others[k].id))
      && FirstOwned(list, others[k].id) < |list|
      && others[k].name == list[FirstOwned(list, others[k].id)].ownerName
      && others[k].avatar == list[FirstOwned(list, others[k].id)].avatar
  {
    var groups, order := GroupStatus(list);
    others := OthersOf(groups, order, userId);
  }

  /** The owners listed by `getOtherStatuses` are exactly the owners of some
      status other than `userId`, each once. */
  lemma {:induction false} OtherOwners(list: seq<StatusItem>, userId: Option<nat>)
    ensures forall u :: u in Without(Owners(list), userId) <==>
                        (exists i :: 0 <= i < |list| && list[i].owner == Some(u)) && Some(u) != userId
    ensures Distinct(Without(Owners(list), userId))
  {
    OwnersSpec(list);
  }
}
