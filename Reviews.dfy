/**
 * The reviews carousel: review cards shown `perView` at a time (2 on a
 * viewport wider than 768 units, else 1, decided once at start-up), so
 * `ceil(cards / perView)` pages, one dot per page, a prev/next pair and
 * swipes. The index never wraps, and there is no auto-advance timer.
 * The refresh (`updateReviewsSlider`) does nothing at all while there is
 * no track or no card; otherwise it lights exactly the dot of the current
 * page and derives the buttons' disabled flags (and the matching opacity)
 * from the index.
 */
module Reviews {
  import opened Flags
  import opened Slider

  /** The viewport width above which two reviews share a page. */
  const Breakpoint: int := 768

  /** `Math.ceil(cards / perView)` for a positive `perView`. */
  function PageCount(cards: nat, perView: nat): (pages: nat)
    requires perView > 0
    ensures pages == 0 <==> cards == 0
  {
    (cards + perView - 1) / perView
  }

  /** The pages exactly cover the cards: every card is on a page and no page is empty. */
  lemma PageCountIsCeiling(cards: nat, perView: nat)
    requires perView == 1 || perView == 2
    ensures PageCount(cards, perView) * perView >= cards
    ensures PageCount(cards, perView) > 0 ==> (PageCount(cards, perView) - 1) * perView < cards
    ensures PageCount(cards, perView) == 0 <==> cards == 0
  {
  }

  class Carousel {
    const cards: nat
    const perView: nat
    const pages: nat
    const hasTrack: bool
    const hasPrev: bool
    const hasNext: bool

    var current: nat
    /** The `active` flag of each dot (no dots when the dot container is missing). */
    var dots: array<bool>
    var prevDisabled: bool
    var nextDisabled: bool

    ghost predicate Valid()
      reads this
    {
      (perView == 1 || perView == 2) && pages == PageCount(cards, perView) &&
      (dots.Length == pages || dots.Length == 0) &&
      current <= LastIndex(pages)
    }

    /** Start-up: one dot per page with the first lit; the buttons keep their markup state (enabled). */
    constructor (cards: nat, viewportWidth: int, hasDots: bool, hasTrack: bool, hasPrev: bool, hasNext: bool)
      ensures Valid() && fresh(dots)
      ensures this.cards == cards && perView == (if viewportWidth > Breakpoint then 2 else 1)
      ensures this.hasTrack == hasTrack && this.hasPrev == hasPrev && this.hasNext == hasNext
      ensures current == 0
      ensures dots[..] == if hasDots then OnlyAt(pages, 0) else []
      ensures !prevDisabled && !nextDisabled
    {
      this.cards := cards;
      var per := if viewportWidth > Breakpoint then 2 else 1;
      perView := per;
      pages := PageCount(cards, per);
      this.hasTrack := hasTrack;
      this.hasPrev := hasPrev;
      this.hasNext := hasNext;
      current := 0;
      dots := new bool[if hasDots then PageCount(cards, per) else 0](i => i == 0);
      prevDisabled, nextDisabled := false, false;
    }

    /** The dots and buttons show the current page. */
    ghost predicate ShowsIndex()
      reads this, dots
    {
      dots[..] == OnlyAt(dots.Length, current) &&
      (hasPrev ==> (prevDisabled <==> current == 0)) &&
      (hasNext ==> (nextDisabled <==> current as int >= pages as int - 1))
    }

    /** `updateReviewsSlider` (the track's pixel offset is not modelled). */
    method Update()
      requires Valid()
      modifies this`prevDisabled, this`nextDisabled, dots
      ensures Valid()
      ensures hasTrack && cards > 0 ==> ShowsIndex()
      ensures !hasTrack || cards == 0 ==>
        dots[..] == old(dots[..]) && prevDisabled == old(prevDisabled) && nextDisabled == old(nextDisabled)
    {
      if !hasTrack || cards == 0 {
        return;
      }
      var i := 0;
      while i < dots.Length
        invariant 0 <= i <= dots.Length
        invariant forall j :: 0 <= j < i ==> (dots[j] <==> j == current)
        modifies dots
      {
        dots[i] := i == current;
        i := i + 1;
      }
      if hasPrev {
        prevDisabled := current == 0;
      }
      if hasNext {
        nextDisabled := current as int >= pages as int - 1;
      }
    }

    /** A click on dot `i` jumps to page `i`. */
    method ClickDot(i: nat)
      requires Valid() && i < dots.Length
      modifies this`current, this`prevDisabled, this`nextDisabled, dots
      ensures Valid() && current == i
      ensures hasTrack ==> ShowsIndex() && CountOn(dots[..]) == 1
      ensures !hasTrack ==>
        dots[..] == old(dots[..]) && prevDisabled == old(prevDisabled) && nextDisabled == old(nextDisabled)
    {
      current := i;
      Update();
      if hasTrack {
        OnlyAtCount(dots.Length, current);
      }
    }

    /** The prev button. */
    method Prev()
      requires Valid() && hasPrev
      modifies this`current, this`prevDisabled, this`nextDisabled, dots
      ensures Valid() && current == PrevIndex(old(current))
      ensures current != old(current) && hasTrack && cards > 0 ==> ShowsIndex()
      ensures current == old(current) || !hasTrack || cards == 0 ==>
        dots[..] == old(dots[..]) && prevDisabled == old(prevDisabled) && nextDisabled == old(nextDisabled)
    {
      if current > 0 {
        current := current - 1;
        Update();
      }
    }

    /** The next button: stops on the last page. */
    method Next()
      requires Valid() && hasNext
      modifies this`current, this`prevDisabled, this`nextDisabled, dots
      ensures Valid() && current == NextIndex(old(current), pages)
      ensures current != old(current) && hasTrack && cards > 0 ==> ShowsIndex()
      ensures current == old(current) || !hasTrack || cards == 0 ==>
        dots[..] == old(dots[..]) && prevDisabled == old(prevDisabled) && nextDisabled == old(nextDisabled)
    {
      if current as int < pages as int - 1 {
        current := current + 1;
        Update();
      }
    }

    /** `handleReviewSwipe`: the same bounded steps as the buttons, whether or not the buttons exist. */
    method Swipe(startX: int, endX: int)
      requires Valid() && hasTrack
      modifies this`current, this`prevDisabled, this`nextDisabled, dots
      ensures Valid() && current == SwipeIndex(old(current), pages, startX, endX)
      ensures current != old(current) && hasTrack && cards > 0 ==> ShowsIndex()
      ensures current == old(current) || !hasTrack || cards == 0 ==>
        dots[..] == old(dots[..]) && prevDisabled == old(prevDisabled) && nextDisabled == old(nextDisabled)
    {
      if endX < startX - SwipeThreshold {
        if current as int < pages as int - 1 {
          current := current + 1;
          Update();
        }
      }
      if endX > startX + SwipeThreshold {
        if current > 0 {
          current := current - 1;
          Update();
        }
      }
    }
  }
}
