/**
 * The portfolio grid: a category filter over the portfolio items and a
 * one-item-per-page carousel over the items the filter leaves visible.
 *
 * Clicking a filter button makes it the only active button, hides every
 * item whose category differs from the button's filter (`all` hides none),
 * resets the carousel to its first item and refreshes the navigation
 * buttons. The page has two prev/next pairs; a pair is refreshed only when
 * both of its buttons exist, and then `prev` is disabled exactly at index 0
 * and `next` exactly when the index has reached the last visible item.
 * Each button's opacity (0.5 or 1) follows its disabled flag exactly and is
 * represented by it.
 */
module Portfolio {
  import opened Flags
  import opened Slider

  /** The filter value that shows every item. */
  const ShowAll: string := "all"

  /** The `hidden` flags a filter value gives items of the given categories. */
  function HiddenFor(categories: seq<string>, filter: string): (h: seq<bool>)
    ensures |h| == |categories|
    ensures forall i :: 0 <= i < |categories| ==> (!h[i] <==> filter == ShowAll || categories[i] == filter)
  {
    seq(|categories|, i requires 0 <= i < |categories| => !(filter == ShowAll || categories[i] == filter))
  }

  /** `getVisibleItems().length`: the number of items not hidden. */
  function VisibleCount(hidden: seq<bool>): nat {
    if hidden == [] then 0
    else VisibleCount(hidden[..|hidden| - 1]) + (if hidden[|hidden| - 1] then 0 else 1)
  }

  /** The `all` filter leaves every item visible. */
  lemma {:induction false} ShowAllShowsEverything(categories: seq<string>)
    ensures VisibleCount(HiddenFor(categories, ShowAll)) == |categories|
    decreases |categories|
  {
    if categories != [] {
      var init := categories[..|categories| - 1];
      ShowAllShowsEverything(init);
      assert HiddenFor(categories, ShowAll)[..|init|] == HiddenFor(init, ShowAll);
    }
  }

  /** A filter that no item's category matches leaves nothing visible. */
  lemma {:induction false} UnmatchedFilterHidesAll(categories: seq<string>, filter: string)
    requires filter != ShowAll
    requires forall i :: 0 <= i < |categories| ==> categories[i] != filter
    ensures VisibleCount(HiddenFor(categories, filter)) == 0
    decreases |categories|
  {
    if categories != [] {
      var init := categories[..|categories| - 1];
      UnmatchedFilterHidesAll(init, filter);
      assert HiddenFor(categories, filter)[..|init|] == HiddenFor(init, filter);
    }
  }

  class Grid {
    /** Each item's `data-category`. */
    const categories: seq<string>
    /** Each filter button's `data-filter`. */
    const filters: seq<string>
    /** Whether the slider track exists; without it the slider is never wired up. */
    const hasTrack: bool
    /** Per button pair: whether both of its buttons exist. */
    const pairPresent: seq<bool>

    var hidden: array<bool>
    var filterActive: array<bool>
    var prevDisabled: array<bool>
    var nextDisabled: array<bool>
    var currentSlide: nat

    ghost predicate Valid()
      reads this, hidden, filterActive, prevDisabled, nextDisabled
    {
      Shaped() && (hasTrack ==> ButtonsShowIndex())
    }

    /** The arrays fit the markup, are distinct, and the index is in range. */
    ghost predicate Shaped()
      reads this, hidden
    {
      hidden.Length == |categories| && filterActive.Length == |filters| &&
      prevDisabled.Length == |pairPresent| && nextDisabled.Length == |pairPresent| &&
      hidden != filterActive && hidden != prevDisabled && hidden != nextDisabled &&
      filterActive != prevDisabled && filterActive != nextDisabled && prevDisabled != nextDisabled &&
      currentSlide <= LastIndex(VisibleCount(hidden[..]))
    }

    /** Every present pair shows the index: `prev` off at 0, `next` off from the last visible item on. */
    ghost predicate ButtonsShowIndex()
      reads this, hidden, prevDisabled, nextDisabled
      requires prevDisabled.Length == |pairPresent| && nextDisabled.Length == |pairPresent|
    {
      forall k :: 0 <= k < |pairPresent| && pairPresent[k] ==>
        (prevDisabled[k] <==> currentSlide == 0) &&
        (nextDisabled[k] <==> currentSlide as int >= VisibleCount(hidden[..]) - 1)
    }

    /** All items visible, the filter buttons as the markup has them, the slider refreshed once. */
    constructor (categories: seq<string>, filters: seq<string>, activeAtLoad: seq<bool>,
                 hasTrack: bool, pairPresent: seq<bool>)
      requires |activeAtLoad| == |filters|
      ensures Valid() && fresh(hidden) && fresh(filterActive) && fresh(prevDisabled) && fresh(nextDisabled)
      ensures this.categories == categories && this.filters == filters
      ensures this.hasTrack == hasTrack && this.pairPresent == pairPresent
      ensures hidden[..] == seq(|categories|, _ => false) && filterActive[..] == activeAtLoad
      ensures currentSlide == 0
    {
      this.categories := categories;
      this.filters := filters;
      this.hasTrack := hasTrack;
      this.pairPresent := pairPresent;
      hidden := new bool[|categories|](_ => false);
      filterActive := new bool[|filters|](i requires 0 <= i < |filters| => activeAtLoad[i]);
      prevDisabled := new bool[|pairPresent|](_ => false);
      nextDisabled := new bool[|pairPresent|](_ => false);
      currentSlide := 0;
      new;
      if hasTrack {
        UpdateButtons();
      }
    }

    /** Counts the items without the `hidden` flag. */
    method CountVisible() returns (n: nat)
      ensures n == VisibleCount(hidden[..])
    {
      n := 0;
      var i := 0;
      while i < hidden.Length
        invariant 0 <= i <= hidden.Length
        invariant n == VisibleCount(hidden[..i])
      {
        assert hidden[..i + 1][..i] == hidden[..i];
        if !hidden[i] {
          n := n + 1;
        }
        i := i + 1;
      }
      assert hidden[..i] == hidden[..];
    }

    /** The button part of `updateSlider`: refreshes every pair whose two buttons exist. */
    method UpdateButtons()
      requires prevDisabled.Length == |pairPresent| && nextDisabled.Length == |pairPresent|
      requires prevDisabled != nextDisabled && hidden != prevDisabled && hidden != nextDisabled
      modifies prevDisabled, nextDisabled
      ensures ButtonsShowIndex()
      ensures forall k :: 0 <= k < |pairPresent| && !pairPresent[k] ==>
        prevDisabled[k] == old(prevDisabled[k]) && nextDisabled[k] == old(nextDisabled[k])
    {
      var visible := CountVisible();
      var k := 0;
      while k < |pairPresent|
        invariant 0 <= k <= |pairPresent|
        invariant visible == VisibleCount(hidden[..])
        invariant forall j :: 0 <= j < k && pairPresent[j] ==>
          (prevDisabled[j] <==> currentSlide == 0) &&
          (nextDisabled[j] <==> currentSlide as int >= visible as int - 1)
        invariant forall j :: 0 <= j < |pairPresent| && (j >= k || !pairPresent[j]) ==>
          prevDisabled[j] == old(prevDisabled[j]) && nextDisabled[j] == old(nextDisabled[j])
      {
        if pairPresent[k] {
          prevDisabled[k] := currentSlide == 0;
          nextDisabled[k] := currentSlide as int >= visible as int - 1;
        }
        k := k + 1;
      }
    }

    /** `updateSlider`: nothing without a track (the pixel offset of the track is not modelled). */
    method UpdateSlider()
      requires Shaped()
      modifies prevDisabled, nextDisabled
      ensures Valid()
      ensures !hasTrack ==> prevDisabled[..] == old(prevDisabled[..]) && nextDisabled[..] == old(nextDisabled[..])
      ensures forall k :: 0 <= k < |pairPresent| && !pairPresent[k] ==>
        prevDisabled[k] == old(prevDisabled[k]) && nextDisabled[k] == old(nextDisabled[k])
    {
      if hasTrack {
        UpdateButtons();
      }
    }

    /**
     * A click on filter button `b`: it becomes the only active button, the
     * items are shown or hidden by its filter value, and the carousel goes
     * back to its first item.
     */
    method Filter(b: nat)
      requires Valid() && b < |filters|
      modifies this`currentSlide, hidden, filterActive, prevDisabled, nextDisabled
      ensures Valid()
      ensures filterActive[..] == OnlyAt(|filters|, b)
      ensures hidden[..] == HiddenFor(categories, filters[b])
      ensures currentSlide == 0
      ensures !hasTrack ==> prevDisabled[..] == old(prevDisabled[..]) && nextDisabled[..] == old(nextDisabled[..])
      ensures forall k :: 0 <= k < |pairPresent| && !pairPresent[k] ==>
        prevDisabled[k] == old(prevDisabled[k]) && nextDisabled[k] == old(nextDisabled[k])
    {
      var k := 0;
      while k < filterActive.Length
        invariant 0 <= k <= filterActive.Length
        invariant forall j :: 0 <= j < k ==> !filterActive[j]
        modifies filterActive
      {
        filterActive[k] := false;
        k := k + 1;
      }
      filterActive[b] := true;
      var f := filters[b];
      var i := 0;
      while i < hidden.Length
        invariant 0 <= i <= hidden.Length
        invariant forall j :: 0 <= j < i ==> (hidden[j] <==> !(f == ShowAll || categories[j] == f))
        invariant forall j :: 0 <= j < |filters| ==> (filterActive[j] <==> j == b)
        modifies hidden
      {
        hidden[i] := !(f == ShowAll || categories[i] == f);
        i := i + 1;
      }
      currentSlide := 0;
      UpdateSlider();
    }

    /** `goToPrevSlide`. */
    method Prev()
      requires Valid() && hasTrack
      modifies this`currentSlide, prevDisabled, nextDisabled
      ensures Valid()
      ensures currentSlide == PrevIndex(old(currentSlide))
      ensures forall k :: 0 <= k < |pairPresent| && !pairPresent[k] ==>
        prevDisabled[k] == old(prevDisabled[k]) && nextDisabled[k] == old(nextDisabled[k])
    {
      if currentSlide > 0 {
        currentSlide := currentSlide - 1;
        UpdateSlider();
      }
    }

    /** `goToNextSlide`: stops at the last visible item. */
    method Next()
      requires Valid() && hasTrack
      modifies this`currentSlide, prevDisabled, nextDisabled
      ensures Valid()
      ensures currentSlide == NextIndex(old(currentSlide), VisibleCount(hidden[..]))
      ensures forall k :: 0 <= k < |pairPresent| && !pairPresent[k] ==>
        prevDisabled[k] == old(prevDisabled[k]) && nextDisabled[k] == old(nextDisabled[k])
    {
      var visible := CountVisible();
      if currentSlide as int < visible as int - 1 {
        currentSlide := currentSlide + 1;
        UpdateSlider();
      }
    }

    /** `handleSwipe`: a left swipe goes to the next item, a right swipe to the previous one. */
    method Swipe(startX: int, endX: int)
      requires Valid() && hasTrack
      modifies this`currentSlide, prevDisabled, nextDisabled
      ensures Valid()
      ensures currentSlide == SwipeIndex(old(currentSlide), VisibleCount(hidden[..]), startX, endX)
      ensures forall k :: 0 <= k < |pairPresent| && !pairPresent[k] ==>
        prevDisabled[k] == old(prevDisabled[k]) && nextDisabled[k] == old(nextDisabled[k])
    {
      if endX < startX - SwipeThreshold {
        Next();
      }
      if endX > startX + SwipeThreshold {
        Prev();
      }
    }
  }

  /**
   * Filtering to a category no item has leaves nothing visible, and every
   * present pair then has both `prev` and `next` disabled.
   */
  lemma EmptyFilterDisablesBoth(g: Grid, k: nat)
    requires g.Valid() && g.hasTrack && k < |g.pairPresent| && g.pairPresent[k]
    requires VisibleCount(g.hidden[..]) == 0
    ensures g.currentSlide == 0 && g.prevDisabled[k] && g.nextDisabled[k]
  {
  }
}
