/**
 * A chat bubble's logic: whose message it is, where the emoji picker opens,
 * and the per-emoji reaction badges.
 */
module MessageBubble {
  import opened Common
  import opened ClientData

  /** `message.sender._id === currentUser?._id`. */
  predicate IsUserMessage(sender: Ref, me: Option<nat>) {
    IdField(sender) == me
  }

  /** On the populated senders the server sends, the bubble's test is the
      intended one; only a bare id without a signed-in user slips through. */
  lemma {:induction false} BubbleSideAgrees(sender: Ref, me: Option<nat>)
    ensures sender.Populated? ==> (IsUserMessage(sender, me) <==> SentBy(Some(sender), me))
    ensures sender.RawId? ==> (IsUserMessage(sender, me) <==> me.None?)
  {
  }

  // ---------------------------------------------------------------------
  // Emoji picker position
  // ---------------------------------------------------------------------

  const PickerHeight: int := 360
  const PickerWidth: int := 350
  const Gap: int := 8
  const Margin: int := 8

  /** The smile button's bounding box and the viewport, in whole pixels. */
  datatype Rect = Rect(top: int, bottom: int, left: int, right: int)

  datatype Pos = Pos(top: int, left: int)

  /** `Math.max(8, Math.min(x, hi))`. */
  function Clamp(x: int, hi: int): (r: int)
    ensures Margin <= r
    ensures hi >= Margin ==> r <= hi
    ensures Margin <= x <= hi ==> r == x
    ensures x < Margin ==> r == Margin
    ensures hi >= Margin && x > hi ==> r == hi
    ensures hi < Margin ==> r == Margin
  {
    var m := if x < hi then x else hi;
    if Margin < m then m else Margin
  }

  /** The spot before clamping: a gap above the button when the picker fits
      above it, else a gap below. */
  function PreferredTop(rect: Rect): int {
    if rect.top > PickerHeight then rect.top - PickerHeight - Gap else rect.bottom + Gap
  }

  /** The spot before clamping: a gap left of the user's own bubble, a gap
      right of the other side's. */
  function PreferredLeft(rect: Rect, isUser: bool): int {
    if isUser then rect.left - PickerWidth - Gap else rect.right + Gap
  }

  /** `openEmojiPicker`: above the button when there is room for the picker
      there, else below; to the left of the user's own messages and to the
      right of the other side's; then clamped so that the picker keeps a
      margin of 8 from every edge of the viewport when it fits at all, and
      sits at the top-left margin when it does not. A spot that already
      fits is kept, a gap away from the button. */
  method OpenEmojiPicker(rect: Rect, isUser: bool, innerWidth: int, innerHeight: int) returns (r: Pos)
    ensures Margin <= r.top && Margin <= r.left
    ensures innerHeight - PickerHeight - Margin >= Margin ==> r.top + PickerHeight + Margin <= innerHeight
    ensures innerWidth - PickerWidth - Margin >= Margin ==> r.left + PickerWidth + Margin <= innerWidth
    ensures innerHeight - PickerHeight - Margin < Margin ==> r.top == Margin
    ensures innerWidth - PickerWidth - Margin < Margin ==> r.left == Margin
    ensures rect.top > PickerHeight && Margin <= rect.top - PickerHeight - Gap <= innerHeight - PickerHeight - Margin
            ==> r.top + PickerHeight + Gap == rect.top
    ensures rect.top <= PickerHeight && Margin <= rect.bottom + Gap <= innerHeight - PickerHeight - Margin
            ==> r.top == rect.bottom + Gap
    ensures isUser && Margin <= rect.left - PickerWidth - Gap <= innerWidth - PickerWidth - Margin
            ==> r.left + PickerWidth + Gap == rect.left
    ensures !isUser && Margin <= rect.right + Gap <= innerWidth - PickerWidth - Margin
            ==> r.left == rect.right + Gap
    ensures PreferredTop(rect) < Margin ==> r.top == Margin
    ensures PreferredLeft(rect, isUser) < Margin ==> r.left == Margin
    ensures innerHeight - PickerHeight - Margin >= Margin && PreferredTop(rect) > innerHeight - PickerHeight - Margin
            ==> r.top == innerHeight - PickerHeight - Margin
    ensures innerWidth - PickerWidth - Margin >= Margin && PreferredLeft(rect, isUser) > innerWidth - PickerWidth - Margin
            ==> r.left == innerWidth - PickerWidth - Margin
  {
    var top, left;
    if rect.top > PickerHeight {
      top := rect.top - PickerHeight - Gap;
    } else {
      top := rect.bottom + Gap;
    }
    left := if isUser then rect.left - PickerWidth - Gap else rect.right + Gap;
    top := Clamp(top, innerHeight - PickerHeight - Margin);
    left := Clamp(left, innerWidth - PickerWidth - Margin);
    return Pos(top, left);
  }

  // ---------------------------------------------------------------------
  // groupedReactions
  // ---------------------------------------------------------------------

  /** How many reactions carry `e`. */
  function CountOf(rs: seq<ClientReaction>, e: string): (n: nat)
    ensures n <= |rs|
    ensures n > 0 <==> exists k :: 0 <= k < |rs| && rs[k].emoji == e
  {
    if rs == [] then 0
    else
      var init := rs[..|rs| - 1];
      var n := CountOf(init, e) + (if rs[|rs| - 1].emoji == e then 1 else 0);
      assert forall k :: 0 <= k < |init| ==> init[k] == rs[k];
      n
  }

  /** The emojis in the order they first appear: the order of the keys of
      the object `reduce` builds. */
  function Emojis(rs: seq<ClientReaction>): (r: seq<string>)
    ensures Distinct(r)
    ensures forall e :: e in r <==> exists k :: 0 <= k < |rs| && rs[k].emoji == e
  {
    if rs == [] then []
    else
      var init := rs[..|rs| - 1];
      var e := rs[|rs| - 1].emoji;
      assert forall k :: 0 <= k < |init| ==> init[k] == rs[k];
      if e in Emojis(init) then Emojis(init) else Emojis(init) + [e]
  }

  /** The index of the first reaction with emoji `e`, or `|rs|` when none has it. */
  function FirstUse(rs: seq<ClientReaction>, e: string): (k: nat)
    ensures k <= |rs|
    ensures k < |rs| <==> exists j :: 0 <= j < |rs| && rs[j].emoji == e
    ensures k < |rs| ==> rs[k].emoji == e
    ensures forall j :: 0 <= j < k && j < |rs| ==> rs[j].emoji != e
  {
    if rs == [] then 0
    else
      var init := rs[..|rs| - 1];
      assert forall j :: 0 <= j < |init| ==> init[j] == rs[j];
      var k := FirstUse(init, e);
      if k < |init| then k
      else if rs[|rs| - 1].emoji == e then |rs| - 1
      else |rs|
  }

  /** The badges come in the order in which their emojis are first used. */
  lemma {:induction false} EmojisInFirstUseOrder(rs: seq<ClientReaction>)
    ensures forall i, j :: 0 <= i < j < |Emojis(rs)| ==> FirstUse(rs, Emojis(rs)[i]) < FirstUse(rs, Emojis(rs)[j])
  {
    if rs != [] {
      var init, e := rs[..|rs| - 1], rs[|rs| - 1].emoji;
      EmojisInFirstUseOrder(init);
      var es, ei := Emojis(rs), Emojis(init);
      forall x | x in ei ensures FirstUse(rs, x) == FirstUse(init, x) < |init| {
        FirstUseInit(rs, x);
      }
      forall i, j | 0 <= i < j < |es| ensures FirstUse(rs, es[i]) < FirstUse(rs, es[j]) {
        if j < |ei| {
          assert es[j] == ei[j] && es[i] == ei[i];
        } else {
          assert es[i] == ei[i];
          assert es[j] == e && e !in ei;
          assert FirstUse(rs, e) == |rs| - 1;
        }
      }
    }
  }

  /** An emoji already used before the last reaction keeps its first use. */
  lemma FirstUseInit(rs: seq<ClientReaction>, x: string)
    requires rs != [] && x in Emojis(rs[..|rs| - 1])
    ensures FirstUse(rs, x) == FirstUse(rs[..|rs| - 1], x) < |rs| - 1
  {
  }

  /** The sum of the counts of `keys`. */
  function Total(keys: seq<string>, rs: seq<ClientReaction>): nat {
    if keys == [] then 0 else CountOf(rs, keys[0]) + Total(keys[1..], rs)
  }

  lemma {:induction false} TotalStep(keys: seq<string>, rs: seq<ClientReaction>, x: ClientReaction)
    requires Distinct(keys)
    ensures Total(keys, rs + [x]) == Total(keys, rs) + (if x.emoji in keys then 1 else 0)
  {
    if keys != [] {
      assert (rs + [x])[..|rs|] == rs;
      TotalStep(keys[1..], rs, x);
      assert x.emoji in keys <==> x.emoji == keys[0] || x.emoji in keys[1..];
      assert keys[0] !in keys[1..];
    }
  }

  lemma {:induction false} TotalAppend(keys: seq<string>, e: string, rs: seq<ClientReaction>)
    ensures Total(keys + [e], rs) == Total(keys, rs) + CountOf(rs, e)
  {
    if keys != [] {
      assert (keys + [e])[1..] == keys[1..] + [e];
      TotalAppend(keys[1..], e, rs);
    }
  }

  /** Every reaction is counted under exactly one badge: the badges add up
      to the number of reactions. */
  lemma {:induction false} BadgesCountEveryReaction(rs: seq<ClientReaction>)
    ensures Total(Emojis(rs), rs) == |rs|
  {
    if rs != [] {
      var init, x := rs[..|rs| - 1], rs[|rs| - 1];
      assert rs == init + [x];
      BadgesCountEveryReaction(init);
      TotalStep(Emojis(init), init, x);
      if x.emoji !in Emojis(init) {
        TotalAppend(Emojis(init), x.emoji, rs);
        assert CountOf(init, x.emoji) == 0;
      }
    }
  }

  /** `keys` and `counts` are the object `reduce` has built from `rs`. */
  ghost predicate Tallied(keys: seq<string>, counts: map<string, nat>, rs: seq<ClientReaction>) {
    && keys == Emojis(rs)
    && counts.Keys == (set e | e in keys)
    && (forall e :: e in counts ==> counts[e] == CountOf(rs, e))
  }

  /** One step of the `reduce`: `acc[r.emoji] = (acc[r.emoji] || 0) + 1`. */
  lemma TallyStep(keys: seq<string>, counts: map<string, nat>, rs: seq<ClientReaction>, r: ClientReaction)
    requires Tallied(keys, counts, rs)
    ensures r.emoji !in counts ==> Tallied(keys + [r.emoji], counts[r.emoji := 1], rs + [r])
    ensures r.emoji in counts ==> Tallied(keys, counts[r.emoji := counts[r.emoji] + 1], rs + [r])
  {
    var rs' := rs + [r];
    assert rs'[..|rs'| - 1] == rs;
    if r.emoji !in counts {
      CountAbsent(rs, r.emoji);
    }
  }

  /** `message.reactions?.reduce(...) || {}`: with reactions, one key per
      emoji in the order of first appearance, counting how many reactions
      carry it; without, nothing. */
  method GroupedReactions(reactions: Option<seq<ClientReaction>>) returns (keys: seq<string>, counts: map<string, nat>)
    ensures reactions.None? ==> keys == [] && counts == map[]
    ensures reactions.Some? ==> keys == Emojis(reactions.value)
    ensures reactions.Some? ==> counts.Keys == set e | e in keys
    ensures reactions.Some? ==> forall e :: e in counts ==> counts[e] == CountOf(reactions.value, e)
  {
    keys, counts := [], map[];
    if reactions.None? {
      return;
    }
    var rs := reactions.value;
    var i := 0;
    while i < |rs|
      invariant 0 <= i <= |rs|
      invariant Tallied(keys, counts, rs[..i])
    {
      var r := rs[i];
      assert rs[..i + 1] == rs[..i] + [r];
      TallyStep(keys, counts, rs[..i], r);
      if r.emoji !in counts {
        keys := keys + [r.emoji];
        counts := counts[r.emoji := 1];
      } else {
        counts := counts[r.emoji := counts[r.emoji] + 1];
      }
      i := i + 1;
    }
    assert rs[..|rs|] == rs;
  }

  lemma CountAbsent(rs: seq<ClientReaction>, e: string)
    requires e !in Emojis(rs)
    ensures CountOf(rs, e) == 0
  {
  }
}
