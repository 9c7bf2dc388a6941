/**
 * The full-screen status viewer: the progress timer that advances to the
 * next status, the width of each progress segment, the navigation after a
 * delete, and which controls show.
 */
module StatusPreview {
  import opened Common
  import opened StatusStore

  /** The percentage each tick adds, and the one at which the timer stops. */
  const Step: int := 2
  const Full: int := 100

  /** The `setInterval` of the effect on `[currentIndex, onNext]`: `current`
      is the callback's local counter, `progress` the rendered state,
      `running` whether the interval is still set, `nexts` how many times it
      called `onNext`. */
  class ProgressTimer {
    var current: int
    var progress: int
    var running: bool
    var nexts: nat

    /** The counter is an even percentage the bar shows; the interval runs
        exactly until it reaches 100. */
    ghost predicate Valid()
      reads this
    {
      && progress == current
      && 0 <= current <= Full
      && current % Step == 0
      && (running <==> current < Full)
    }

    /** The effect's first run, when the viewer opens. */
    constructor ()
      ensures Valid() && progress == 0 && running && nexts == 0
    {
      current, progress, running, nexts := 0, 0, true, 0;
    }

    /** A later run (the index or `onNext` changed): the previous interval is
        cleared and a new one starts from zero. */
    method Restart()
      modifies this`current, this`progress, this`running
      ensures Valid() && current == 0 && running
    {
      progress := 0;
      current := 0;
      running := true;
    }

    /** One interval callback: two more percent; on reaching 100 the interval
        clears itself and calls `onNext`. A cleared interval never fires. */
    method Tick()
      requires Valid()
      modifies this
      ensures Valid()
      ensures old(running) ==> current == old(current) + Step
      ensures !old(running) ==> current == old(current) && running == old(running)
      ensures nexts == old(nexts) + (if old(running) && current == Full then 1 else 0)
    {
      if running {
        current := current + Step;
        progress := current;
        if current >= Full {
          running := false;
          nexts := nexts + 1;
        }
      }
    }

    /** `n` ticks after a start: the bar shows `min(2n, 100)` and `onNext` has
        been called once if there were at least fifty ticks, else never. */
    method Play(n: nat)
      requires Valid() && current == 0
      modifies this
      ensures Valid()
      ensures current == if n < Full / Step then Step * n else Full
      ensures nexts == old(nexts) + (if n < Full / Step then 0 else 1)
    {
      var k := 0;
      while k < n
        invariant Valid()
        invariant 0 <= k <= n
        invariant current == if k < Full / Step then Step * k else Full
        invariant nexts == old(nexts) + (if k < Full / Step then 0 else 1)
      {
        Tick();
        k := k + 1;
      }
    }
  }

  // ---------------------------------------------------------------------
  // Progress segments
  // ---------------------------------------------------------------------

  /** The width of segment `index`: full for a status already seen, the
      progress for the current one, empty for those still to come. */
  function SegmentWidth(index: int, currentIndex: int, progress: int): (w: int)
    ensures index < currentIndex ==> w == Full
    ensures index == currentIndex ==> w == progress
    ensures index > currentIndex ==> w == 0
  {
    if index < currentIndex then Full else if index == currentIndex then progress else 0
  }

  /** With the progress in range, the bar never fills a later segment more
      than an earlier one. */
  lemma SegmentsNeverIncrease(i: int, j: int, currentIndex: int, progress: int)
    requires 0 <= progress <= Full && i <= j
    ensures SegmentWidth(j, currentIndex, progress) <= SegmentWidth(i, currentIndex, progress)
  {
  }

  // ---------------------------------------------------------------------
  // Delete, and the controls shown
  // ---------------------------------------------------------------------

  /** `contact?.statuses?.[currentIndex]`. */
  function CurrentStatus(contact: Option<Group>, currentIndex: int): (r: Option<GroupItem>)
    ensures r.Some? <==> contact.Some? && 0 <= currentIndex < |contact.value.items|
    ensures r.Some? ==> r.value == contact.value.items[currentIndex]
  {
    if contact.Some? && 0 <= currentIndex < |contact.value.items| then Some(contact.value.items[currentIndex])
    else None
  }

  datatype Navigation = CloseViewer | NextStatus

  /** `handleDeleteStatus`: the current status is deleted (when the viewer
      has a delete handler and there is a status); then the viewer closes if
      the contact had exactly one status, and otherwise advances. */
  function HandleDeleteStatus(contact: Option<Group>, currentIndex: int, canDelete: bool): (r: (Option<nat>, Navigation))
    ensures r.0.Some? <==> canDelete && CurrentStatus(contact, currentIndex).Some?
    ensures r.0.Some? ==> r.0.value == contact.value.items[currentIndex].id
    ensures r.1 == CloseViewer <==> contact.Some? && |contact.value.items| == 1
  {
    var current := CurrentStatus(contact, currentIndex);
    var deleted := if canDelete && current.Some? then Some(current.value.id) else None;
    (deleted, if contact.Some? && |contact.value.items| == 1 then CloseViewer else NextStatus)
  }

  datatype Controls = NothingRendered | Rendered(prev: bool, next: bool)

  /** The viewer renders only with a status at the index; "previous" shows
      past the first status and "next" before the last. */
  function ControlsShown(contact: Option<Group>, currentIndex: int): (r: Controls)
    ensures r.NothingRendered? <==> CurrentStatus(contact, currentIndex).None?
    ensures r.Rendered? ==> (r.prev <==> currentIndex > 0)
    ensures r.Rendered? ==> (r.next <==> currentIndex < |contact.value.items| - 1)
  {
    if CurrentStatus(contact, currentIndex).None? then NothingRendered
    else Rendered(currentIndex > 0, currentIndex < |contact.value.items| - 1)
  }

  /** On the first status there is no "previous", on the last no "next"; on
      a single status neither. */
  lemma {:induction false} EndsHaveOneArrow(contact: Group, currentIndex: int)
    requires 0 <= currentIndex < |contact.items|
    ensures var c := ControlsShown(Some(contact), currentIndex);
      && c.Rendered?
      && (currentIndex == 0 ==> !c.prev)
      && (currentIndex == |contact.items| - 1 ==> !c.next)
      && (|contact.items| == 1 ==> !c.prev && !c.next)
  {
    assert CurrentStatus(Some(contact), currentIndex).Some?;
  }
}
