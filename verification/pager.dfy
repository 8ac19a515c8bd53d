/**
 * Index bookkeeping shared by the two analysis views: the previous/next
 * buttons, which move the current index with `Math.max(0, i - 1)` and
 * `Math.min(len - 1, i + 1)`, and the set of all indices of a list.
 */
module Pager {

  /** `Math.max(0, i - 1)` */
  function PrevIndex(i: int): (r: int)
    ensures r >= 0
    ensures r <= i || i < 0
    ensures i > 0 ==> r == i - 1
  {
    if i - 1 > 0 then i - 1 else 0
  }

  /** `Math.min(len - 1, i + 1)` */
  function NextIndex(i: int, len: int): (r: int)
    ensures r <= len - 1
    ensures r >= i || i >= len
    ensures i < len - 1 ==> r == i + 1
  {
    if len - 1 < i + 1 then len - 1 else i + 1
  }

  /** Both buttons keep an index of a non-empty list within [0, len - 1]. */
  lemma NavigationStaysInRange(i: int, len: int)
    requires 0 <= i < len
    ensures 0 <= PrevIndex(i) < len
    ensures 0 <= NextIndex(i, len) < len
  {
  }

  /** Next then previous goes back, except at the end where next stays put. */
  lemma NextThenPrev(i: int, len: int)
    requires 0 <= i < len - 1
    ensures PrevIndex(NextIndex(i, len)) == i
  {
  }

  /** At the ends the buttons are no-ops: previous at 0, next at the last index. */
  lemma ClampedAtEnds(len: int)
    requires len > 0
    ensures PrevIndex(0) == 0
    ensures NextIndex(len - 1, len) == len - 1
  {
  }

  /** The indices of a list of n elements, `new Set(list.map((_, i) => i))`. */
  function Indices(n: nat): (r: set<int>)
    ensures forall i :: i in r <==> 0 <= i < n
    ensures |r| == n
  {
    if n == 0 then {} else Indices(n - 1) + {n - 1}
  }
}
