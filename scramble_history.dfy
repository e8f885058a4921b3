/**
 * `useScrambleHistory`: the scrambles generated so far for one event and the
 * position the user is looking at.
 *
 * The scrambler itself (a dynamic import of `cubing`) is outside the model: each
 * operation that generates is given its outcome, `Some(scramble)` on success
 * and `None` when the scrambler throws.
 */
module ScrambleHistory {
  import opened Wrappers
  import opened Scramble

  /** `Math.max(prev - 1, 0)`: the index `goToPrevious` moves to. */
  function PreviousIndex(i: int): (r: int)
    ensures r >= 0
    ensures i > 0 ==> r == i - 1
    ensures i <= 0 ==> r == 0
  {
    if i - 1 < 0 then 0 else i - 1
  }

  /** `Math.min(prev + 1, length - 1)`: the index `goToNext` moves to when it does not generate. */
  function NextIndex(i: int, length: nat): (r: int)
    ensures r <= length - 1
    ensures i + 1 <= length - 1 ==> r == i + 1
    ensures i + 1 > length - 1 ==> r == length - 1
  {
    if i + 1 < length - 1 then i + 1 else length - 1
  }

  /** Within a non-empty history, stepping back or forward stays within it. */
  lemma StepsStayInRange(i: int, length: nat)
    requires 0 <= i < length
    ensures 0 <= PreviousIndex(i) < length
    ensures 0 <= NextIndex(i, length) < length
    ensures PreviousIndex(i) <= i <= NextIndex(i, length)
  {
  }

  /** From anywhere below the last entry, a step forward followed by a step back returns. */
  lemma NextThenPrevious(i: int, length: nat)
    requires 0 <= i < length - 1
    ensures PreviousIndex(NextIndex(i, length)) == i
  {
  }

  class History {
    var history: seq<string>
    var currentIndex: int
    var isGenerating: bool
    var isInitialized: bool
    var previousEvent: Event

    /**
     * The index never leaves `-1 .. |history|`. It rests at `|history|` only
     * after `goToPrevious` on an empty history, where it points past the end.
     */
    ghost predicate Valid()
      reads this
    {
      -1 <= currentIndex <= |history|
    }

    /** The index points at a scramble of the history. */
    predicate InRange()
      reads this
    {
      0 <= currentIndex < |history|
    }

    /** Mounting the hook for `event`: no scrambles, index -1, not yet initialized. */
    constructor(event: Event)
      ensures Valid()
      ensures history == [] && currentIndex == -1
      ensures !isGenerating && !isInitialized && previousEvent == event
    {
      history := [];
      currentIndex := -1;
      isGenerating := false;
      isInitialized := false;
      previousEvent := event;
    }

    /** `history[currentIndex]`, which is `undefined` outside the history. */
    function CurrentScramble(): Option<string>
      reads this
    {
      if 0 <= currentIndex < |history| then Some(history[currentIndex]) else None
    }

    function CanGoPrevious(): bool
      reads this
    {
      currentIndex > 0
    }

    /** `canGoNext` is constantly true: going forward past the end generates. */
    function CanGoNext(): bool {
      true
    }

    /** The reset effect: a new event empties the history and allows a fresh initial generation. */
    method OnEventChange(event: Event)
      requires Valid()
      modifies this
      ensures Valid()
      ensures old(previousEvent) != event ==>
                history == [] && currentIndex == -1 && !isInitialized && previousEvent == event
      ensures old(previousEvent) == event ==>
                history == old(history) && currentIndex == old(currentIndex)
                && isInitialized == old(isInitialized) && previousEvent == old(previousEvent)
      ensures isGenerating == old(isGenerating)
    {
      if previousEvent != event {
        history := [];
        currentIndex := -1;
        isInitialized := false;
        previousEvent := event;
      }
    }

    /**
     * `generateScramble`: on success append the scramble and step the index
     * forward, returning the scramble; on failure change nothing and return
     * null. Either way `isGenerating` is false afterwards.
     */
    method GenerateScramble(generated: Option<string>) returns (r: Option<string>)
      requires Valid()
      modifies this
      ensures Valid()
      ensures r == generated
      ensures generated.Some? ==> history == old(history) + [generated.value] && currentIndex == old(currentIndex) + 1
      ensures generated.None? ==> history == old(history) && currentIndex == old(currentIndex)
      ensures !isGenerating
      ensures isInitialized == old(isInitialized) && previousEvent == old(previousEvent)
      ensures old(currentIndex) < old(|history|) && generated.Some? ==> InRange()
      ensures old(InRange()) ==> InRange()
    {
      isGenerating := true;
      match generated {
        case Some(scramble) =>
          history := history + [scramble];
          currentIndex := currentIndex + 1;
          r := Some(scramble);
        case None =>
          r := None;
      }
      isGenerating := false;
    }

    /** The initial-generation effect: generate once, unless this event already has. */
    method Initialize(generated: Option<string>)
      requires Valid()
      modifies this
      ensures Valid()
      ensures isInitialized
      ensures !old(isInitialized) && generated.Some? ==>
                history == old(history) + [generated.value] && currentIndex == old(currentIndex) + 1
      ensures old(isInitialized) || generated.None? ==>
                history == old(history) && currentIndex == old(currentIndex)
      ensures !old(isInitialized) ==> !isGenerating
      ensures old(isInitialized) ==> isGenerating == old(isGenerating)
      ensures previousEvent == old(previousEvent)
    {
      if !isInitialized {
        isInitialized := true;
        var _ := GenerateScramble(generated);
      }
    }

    /** `goToNext`: generate when at the last scramble, otherwise step forward within the history. */
    method GoToNext(generated: Option<string>)
      requires Valid()
      modifies this
      ensures Valid()
      ensures old(currentIndex) == old(|history|) - 1 && generated.Some? ==>
                history == old(history) + [generated.value] && currentIndex == old(currentIndex) + 1
      ensures old(currentIndex) == old(|history|) - 1 && generated.None? ==>
                history == old(history) && currentIndex == old(currentIndex)
      ensures old(currentIndex) != old(|history|) - 1 ==>
                history == old(history) && currentIndex == NextIndex(old(currentIndex), |history|)
      ensures old(currentIndex) == old(|history|) - 1 ==> !isGenerating
      ensures old(currentIndex) != old(|history|) - 1 ==> isGenerating == old(isGenerating)
      ensures old(InRange()) ==> InRange()
      ensures isInitialized == old(isInitialized) && previousEvent == old(previousEvent)
    {
      if currentIndex == |history| - 1 {
        var _ := GenerateScramble(generated);
      } else {
        currentIndex := NextIndex(currentIndex, |history|);
      }
    }

    /** `goToPrevious`: step back, never below the first scramble. */
    method GoToPrevious()
      requires Valid()
      modifies this
      ensures Valid()
      ensures currentIndex == PreviousIndex(old(currentIndex)) && currentIndex >= 0
      ensures old(InRange()) ==> InRange()
      ensures history == old(history) && isGenerating == old(isGenerating)
      ensures isInitialized == old(isInitialized) && previousEvent == old(previousEvent)
    {
      currentIndex := PreviousIndex(currentIndex);
    }
  }

  /**
   * Mounting generates the first scramble and only that one: the effect
   * running a second time for the same event does not generate again. The
   * first scramble is then the current one.
   */
  method MountGeneratesOnce(event: Event, first: string, second: string) returns (history: seq<string>, current: Option<string>)
    ensures history == [first]
    ensures current == Some(first)
  {
    var h := new History(event);
    h.OnEventChange(event);
    h.Initialize(Some(first));
    h.Initialize(Some(second));
    history, current := h.history, h.CurrentScramble();
  }

  /**
   * Going forward from the newest scramble generates a new one; going back
   * then shows the previous scramble again, without generating.
   */
  method ForwardThenBack(event: Event, first: string, second: string) returns (history: seq<string>, current: Option<string>)
    ensures history == [first, second]
    ensures current == Some(first)
  {
    var h := new History(event);
    h.Initialize(Some(first));
    h.GoToNext(Some(second));
    h.GoToPrevious();
    history, current := h.history, h.CurrentScramble();
  }

  /**
   * Switching to another event drops the history; the initial generation
   * then runs again for the new event.
   */
  method SwitchEvent(first: Event, other: Event, a: string, b: string) returns (history: seq<string>, index: int)
    requires first != other
    ensures history == [b]
    ensures index == 0
  {
    var h := new History(first);
    h.Initialize(Some(a));
    h.OnEventChange(other);
    h.Initialize(Some(b));
    history, index := h.history, h.currentIndex;
  }

  /**
   * `goToPrevious` on an empty history leaves the index at 0, one past the
   * end; the scramble generated next then lands at index 0 while the index
   * moves to 1, so no current scramble is shown.
   */
  method PreviousBeforeFirstScramble(event: Event, s: string) returns (history: seq<string>, index: int, current: Option<string>)
    ensures history == [s] && index == 1
    ensures current.None?
  {
    var h := new History(event);
    h.GoToPrevious();
    var _ := h.GenerateScramble(Some(s));
    history, index, current := h.history, h.currentIndex, h.CurrentScramble();
  }
}
