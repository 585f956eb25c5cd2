/** The exercise's hint button (Exercise/Controls/ShowHintButton.tsx): how many hints are shown,
    whether the hint tooltip is open, and when the "all hints shown" callback fires. */
module ShowHintButton {
  import opened Numbers

  /** The count after showHint: one more, but never more than there are hints. */
  function NextCount(count: int, hintsCount: nat): int {
    Min(count + 1, hintsCount)
  }

  /** The count after k presses of the button. */
  function AfterPresses(count: int, hintsCount: nat, k: nat): int
    decreases k
  {
    if k == 0 then count else AfterPresses(NextCount(count, hintsCount), hintsCount, k - 1)
  }

  /** Each press reveals one more hint until all are shown. */
  lemma {:induction false} PressesRevealHints(count: int, hintsCount: nat, k: nat)
    requires 1 <= count <= hintsCount
    ensures AfterPresses(count, hintsCount, k) == Min(count + k, hintsCount)
    decreases k
  {
    if k > 0 {
      PressesRevealHints(NextCount(count, hintsCount), hintsCount, k - 1);
    }
  }

  /** From the initial state, pressing once per remaining hint shows them all. */
  lemma AllHintsAfterEnoughPresses(hintsCount: nat)
    requires hintsCount >= 1
    ensures AfterPresses(1, hintsCount, hintsCount - 1) == hintsCount
  {
    PressesRevealHints(1, hintsCount, hintsCount - 1);
  }

  /** One component instance; `renderedHints` is its (unchanging) prop, and
      `allHintsShowedCalls` counts the calls of the `onAllHintsShowed` prop. */
  class HintButton {
    const renderedHints: seq<string>
    var showedHintsCount: int
    var isTooltipOpened: bool
    var allHintsShowedCalls: nat

    /** The count never exceeds the number of hints (when there is one), and starts at 1. */
    ghost predicate Valid()
      reads this
    {
      0 <= showedHintsCount
      && (|renderedHints| >= 1 ==> 1 <= showedHintsCount <= |renderedHints|)
      && (|renderedHints| == 0 ==> showedHintsCount <= 1)
    }

    constructor(hints: seq<string>)
      ensures Valid()
      ensures renderedHints == hints && showedHintsCount == 1 && !isTooltipOpened && allHintsShowedCalls == 0
    {
      renderedHints := hints;
      showedHintsCount := 1;
      isTooltipOpened := false;
      allHintsShowedCalls := 0;
    }

    /** The hints in the tooltip: the first `showedHintsCount` of them. */
    function RenderHints(): (r: seq<string>)
      reads this
      requires Valid()
      ensures |renderedHints| >= 1 ==> |r| == showedHintsCount
      ensures |r| <= |renderedHints| && r == renderedHints[..|r|]
    {
      renderedHints[..Min(showedHintsCount, |renderedHints|)]
    }

    /** renderNoHintsLeft and the button's class: every hint is shown. */
    predicate NoHintsLeft()
      reads this
    {
      showedHintsCount == |renderedHints|
    }

    /** With at least one hint, no hint is left exactly when all of them are rendered. */
    lemma NoHintsLeftIffAllRendered()
      requires Valid() && |renderedHints| >= 1
      ensures NoHintsLeft() <==> RenderHints() == renderedHints
    {
    }

    /** showTooltip: opens the tooltip, and reports when every hint is already shown. */
    method ShowTooltip() returns (allHintsShowed: bool)
      requires Valid()
      modifies this
      ensures Valid()
      ensures isTooltipOpened && showedHintsCount == old(showedHintsCount)
      ensures allHintsShowed <==> old(showedHintsCount) >= |renderedHints|
      ensures allHintsShowedCalls == old(allHintsShowedCalls) + (if allHintsShowed then 1 else 0)
    {
      isTooltipOpened := true;
      allHintsShowed := showedHintsCount >= |renderedHints|;
      if allHintsShowed {
        allHintsShowedCalls := allHintsShowedCalls + 1;
      }
    }

    /** closeTooltip: closes the tooltip only. */
    method CloseTooltip()
      requires Valid()
      modifies this
      ensures Valid()
      ensures !isTooltipOpened && showedHintsCount == old(showedHintsCount)
      ensures allHintsShowedCalls == old(allHintsShowedCalls)
    {
      isTooltipOpened := false;
    }

    /** showHint: one more hint, and the callback once the last hint is reached. */
    method ShowHint() returns (allHintsShowed: bool)
      requires Valid()
      modifies this
      ensures Valid()
      ensures showedHintsCount == NextCount(old(showedHintsCount), |renderedHints|)
      ensures isTooltipOpened == old(isTooltipOpened)
      ensures allHintsShowed <==> old(showedHintsCount) + 1 >= |renderedHints|
      ensures allHintsShowed ==> NoHintsLeft()
      ensures allHintsShowedCalls == old(allHintsShowedCalls) + (if allHintsShowed then 1 else 0)
    {
      allHintsShowed := showedHintsCount + 1 >= |renderedHints|;
      showedHintsCount := Min(showedHintsCount + 1, |renderedHints|);
      if allHintsShowed {
        allHintsShowedCalls := allHintsShowedCalls + 1;
      }
    }
  }
}
