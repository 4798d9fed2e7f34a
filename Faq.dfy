/**
 * The FAQ accordion. A click on item `i`'s question reads whether `i` is
 * open, closes every item, and reopens `i` only if it was closed: clicking
 * the open item closes it, clicking a closed item leaves it the only one
 * open.
 */
module Faq {
  import opened Flags

  /** The items' open flags after a click on item `i`. */
  function Clicked(open: seq<bool>, i: nat): (r: seq<bool>)
    requires i < |open|
    ensures |r| == |open|
    ensures forall j :: 0 <= j < |open| ==> (r[j] <==> j == i && !open[i])
  {
    if open[i] then AllOff(|open|) else OnlyAt(|open|, i)
  }

  /** After any click, whatever was open before, at most one item is open. */
  lemma ClickLeavesAtMostOne(open: seq<bool>, i: nat)
    requires i < |open|
    ensures CountOn(Clicked(open, i)) <= 1
    ensures CountOn(Clicked(open, i)) == if open[i] then 0 else 1
  {
    if open[i] {
      AllOffCount(|open|);
    } else {
      OnlyAtCount(|open|, i);
    }
  }

  /** Clicking the same item twice from an accordion with that item closed closes everything. */
  lemma ClickTwiceClosesAll(open: seq<bool>, i: nat)
    requires i < |open| && !open[i]
    ensures Clicked(Clicked(open, i), i) == AllOff(|open|)
  {
  }

  class Accordion {
    var open: array<bool>

    constructor (items: nat)
      ensures fresh(open) && open[..] == AllOff(items)
    {
      open := new bool[items](_ => false);
    }

    /** The question of item `i` was clicked. */
    method Click(i: nat)
      requires i < open.Length
      modifies open
      ensures open[..] == Clicked(old(open[..]), i)
    {
      var wasOpen := open[i];
      var k := 0;
      while k < open.Length
        invariant 0 <= k <= open.Length
        invariant forall j :: 0 <= j < k ==> !open[j]
      {
        open[k] := false;
        k := k + 1;
      }
      if !wasOpen {
        open[i] := true;
      }
    }
  }
}
