/**
 * The index arithmetic both carousels share. A carousel with `n` positions
 * (visible portfolio items, or review pages) keeps its index in
 * `[0, LastIndex(n)]`; `next` and `prev` stop at the ends instead of
 * wrapping, and a horizontal swipe longer than 50 units in either direction
 * is a `next` (to the left) or a `prev` (to the right).
 */
module Slider {

  /** The swipe distance a touch must exceed to count. */
  const SwipeThreshold: int := 50

  /** The largest index for `n` positions; 0 when there are none. */
  function LastIndex(n: nat): nat {
    if n == 0 then 0 else n - 1
  }

  /** `if (i < n - 1) i++`. */
  function NextIndex(i: nat, n: nat): (r: nat)
    ensures i <= LastIndex(n) ==> r <= LastIndex(n)
    ensures r == i || r == i + 1
    ensures r == i + 1 <==> i + 1 < n
  {
    if i < n - 1 then i + 1 else i
  }

  /** `if (i > 0) i--`. */
  function PrevIndex(i: nat): (r: nat)
    ensures r <= i && (i > 0 ==> r == i - 1)
    ensures r == i <==> i == 0
  {
    if i > 0 then i - 1 else i
  }

  /**
   * What a swipe from `startX` to `endX` does to index `i`: a move left by
   * more than the threshold steps forward, a move right by more than the
   * threshold steps back, anything shorter does nothing.
   */
  function SwipeIndex(i: nat, n: nat, startX: int, endX: int): nat {
    if startX - endX > SwipeThreshold then NextIndex(i, n)
    else if endX - startX > SwipeThreshold then PrevIndex(i)
    else i
  }

  /** Neither end wraps round: `next` at the last index and `prev` at 0 stay put. */
  lemma EndsDoNotWrap(n: nat)
    ensures NextIndex(LastIndex(n), n) == LastIndex(n)
    ensures PrevIndex(0) == 0
  {
  }

  /** Every move keeps the index within `[0, LastIndex(n)]`. */
  lemma MovesStayInRange(i: nat, n: nat, startX: int, endX: int)
    requires i <= LastIndex(n)
    ensures NextIndex(i, n) <= LastIndex(n)
    ensures PrevIndex(i) <= LastIndex(n)
    ensures SwipeIndex(i, n, startX, endX) <= LastIndex(n)
  {
  }
}
