/**
 * Rows of on/off class flags (`active` on filter buttons, review dots and
 * FAQ items) and the pattern every widget here aims for: exactly one flag
 * on, or none.
 */
module Flags {

  /** `n` flags with only the one at `k` on (none when `k >= n`). */
  function OnlyAt(n: nat, k: nat): (s: seq<bool>)
    ensures |s| == n
    ensures forall j :: 0 <= j < n ==> (s[j] <==> j == k)
  {
    seq(n, j => j == k)
  }

  /** `n` flags, all off. */
  function AllOff(n: nat): (s: seq<bool>)
    ensures |s| == n
    ensures forall j :: 0 <= j < n ==> !s[j]
  {
    seq(n, j => false)
  }

  /** How many flags are on. */
  function CountOn(s: seq<bool>): nat {
    if s == [] then 0 else CountOn(s[..|s| - 1]) + (if s[|s| - 1] then 1 else 0)
  }

  /** No flag on means a count of zero, and the converse. */
  lemma {:induction false} CountOnZero(s: seq<bool>)
    ensures CountOn(s) == 0 <==> forall j :: 0 <= j < |s| ==> !s[j]
    decreases |s|
  {
    if s != [] {
      CountOnZero(s[..|s| - 1]);
      assert forall j :: 0 <= j < |s| - 1 ==> s[..|s| - 1][j] == s[j];
    }
  }

  /** A row whose only candidate is `k` has at most one flag on, and exactly one if `k` is on. */
  lemma {:induction false} CountOnSingle(s: seq<bool>, k: nat)
    requires forall j :: 0 <= j < |s| && j != k ==> !s[j]
    ensures CountOn(s) == if k < |s| && s[k] then 1 else 0
    decreases |s|
  {
    if s != [] {
      var init := s[..|s| - 1];
      assert forall j :: 0 <= j < |init| ==> init[j] == s[j];
      CountOnSingle(init, k);
    }
  }

  /** `OnlyAt` turns on exactly one flag when `k` is in range, none otherwise. */
  lemma OnlyAtCount(n: nat, k: nat)
    ensures CountOn(OnlyAt(n, k)) == if k < n then 1 else 0
  {
    CountOnSingle(OnlyAt(n, k), k);
  }

  lemma AllOffCount(n: nat)
    ensures CountOn(AllOff(n)) == 0
  {
    CountOnZero(AllOff(n));
  }
}
