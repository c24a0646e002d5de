/** Shell sort: one pass per gap, and why a later pass keeps what an earlier one achieved. */
module ShellSort {
  import opened Common

  // ---------------------------------------------------------------- counting along a stride

  function One(b: bool): (n: nat) {
    if b then 1 else 0
  }

  /** How many of the positions `p`, `p - h`, `p - 2h`, … hold more than `v`. */
  ghost function Below(s: seq<int>, h: int, p: int, v: int): (n: nat)
    requires h > 0
    decreases if p < 0 then 0 else p + 1
  {
    if 0 <= p < |s| then One(s[p] > v) + Below(s, h, p - h, v) else 0
  }

  /** How many of the positions `p`, `p + h`, `p + 2h`, … hold more than `v`. */
  ghost function Above(s: seq<int>, h: int, p: int, v: int): (n: nat)
    requires h > 0
    decreases if p < |s| then |s| - p else 0
  {
    if 0 <= p < |s| then One(s[p] > v) + Above(s, h, p + h, v) else 0
  }

  /** How many positions there are from `p` upwards. */
  ghost function Room(n: int, h: int, p: int): (r: nat)
    requires h > 0
    decreases if p < n then n - p else 0
  {
    if 0 <= p < n then 1 + Room(n, h, p + h) else 0
  }

  /** The count over the whole stride through `p`. */
  ghost function Total(s: seq<int>, h: int, p: int, v: int): (n: nat)
    requires h > 0
  {
    Below(s, h, p, v) + Above(s, h, p + h, v)
  }

  /** Every stride holds the same values in both. */
  ghost predicate SameStrides(s: seq<int>, s': seq<int>, h: int)
    requires h > 0
  {
    |s| == |s'| && forall p, v :: 0 <= p < |s| ==> Total(s, h, p, v) == Total(s', h, p, v)
  }

  /** Elements `k` apart are in order. */
  ghost predicate Ordered(s: seq<int>, k: int) {
    forall i, j :: 0 <= i < |s| && 0 <= j < |s| && j == i + k ==> s[i] <= s[j]
  }

  ghost predicate OrderedFrom(s: seq<int>, g: int) {
    forall i, j :: 0 <= i < |s| && 0 <= j < |s| && i + g <= j ==> s[i] <= s[j]
  }

  // ---------------------------------------------------------------- h-sorting keeps k-order

  lemma {:induction false} BelowPairs(s: seq<int>, h: int, k: int, p: int, v: int)
    requires h > 0 && k >= 0 && Ordered(s, k) && p + k < |s|
    ensures Below(s, h, p, v) <= Below(s, h, p + k, v)
    decreases if p < 0 then 0 else p + 1
  {
    if p >= 0 {
      BelowPairs(s, h, k, p - h, v);
      assert s[p] <= s[p + k];
    }
  }

  lemma {:induction false} AbovePairs(s: seq<int>, h: int, k: int, p: int, v: int)
    requires h > 0 && k >= 0 && Ordered(s, k) && 0 <= p
    ensures Above(s, h, p, v) + Room(|s|, h, p + k) <= Above(s, h, p + k, v) + Room(|s|, h, p)
    decreases if p < |s| then |s| - p else 0
  {
    if p + k < |s| {
      AbovePairs(s, h, k, p + h, v);
      assert s[p] <= s[p + k];
    } else {
      AboveAtMost(s, h, p, v);
    }
  }

  lemma {:induction false} AboveAtMost(s: seq<int>, h: int, p: int, v: int)
    requires h > 0
    ensures Above(s, h, p, v) <= Room(|s|, h, p)
    decreases if p < |s| then |s| - p else 0
  {
    if 0 <= p < |s| { AboveAtMost(s, h, p + h, v); }
  }

  /** In an h-sorted sequence everything above a large value on its stride is large. */
  lemma {:induction false} AboveLarge(s: seq<int>, h: int, p: int, v: int)
    requires h > 0 && Ordered(s, h) && 0 <= p && (p < |s| ==> s[p] > v)
    ensures Above(s, h, p, v) == Room(|s|, h, p)
    decreases if p < |s| then |s| - p else 0
  {
    if p < |s| { AboveLarge(s, h, p + h, v); }
  }

  lemma {:induction false} BelowSmall(s: seq<int>, h: int, p: int, v: int)
    requires h > 0 && Ordered(s, h) && p < |s| && (p >= 0 ==> s[p] <= v)
    ensures Below(s, h, p, v) == 0
    decreases if p < 0 then 0 else p + 1
  {
    if p >= 0 { BelowSmall(s, h, p - h, v); }
  }

  /** The classical theorem: h-sorting a k-ordered sequence leaves it k-ordered. */
  lemma SortingKeepsOrder(s: seq<int>, s': seq<int>, h: int, k: int)
    requires h > 0 && k >= 0 && Ordered(s, k) && SameStrides(s, s', h) && Ordered(s', h)
    ensures Ordered(s', k)
  {
    forall i, j | 0 <= i < |s'| && 0 <= j < |s'| && j == i + k ensures s'[i] <= s'[j] {
      SortingKeepsPair(s, s', h, i, j);
    }
  }

  lemma SortingKeepsPair(s: seq<int>, s': seq<int>, h: int, i: int, j: int)
    requires h > 0 && 0 <= i <= j < |s| && Ordered(s, j - i) && SameStrides(s, s', h) && Ordered(s', h)
    ensures s'[i] <= s'[j]
  {
    var v := s'[j];
    assert Total(s, h, i, v) == Total(s', h, i, v) && Total(s, h, j, v) == Total(s', h, j, v);
    BelowSmall(s', h, j, v);
    AboveAtMost(s', h, j + h, v);
    BelowPairs(s, h, j - i, i, v);
    AbovePairs(s, h, j - i, i + h, v);
    TotalAtLeast(s', h, i, v);
    if s'[i] > v { AboveLarge(s', h, i, v); }
  }

  lemma TotalAtLeast(s: seq<int>, h: int, p: int, v: int)
    requires h > 0 && 0 <= p < |s|
    ensures Total(s, h, p, v) >= Above(s, h, p, v)
  {
  }

  lemma SortingKeepsAll(s: seq<int>, s': seq<int>, h: int, g: int)
    requires h > 0 && g >= 0 && OrderedFrom(s, g) && SameStrides(s, s', h) && Ordered(s', h)
    ensures OrderedFrom(s', g)
  {
    forall i, j | 0 <= i && i + g <= j < |s'| ensures s'[i] <= s'[j] {
      SortingKeepsOrder(s, s', h, j - i);
    }
  }

  // ---------------------------------------------------------------- exchanging neighbours on a stride

  ghost function Swapped(s: seq<int>, i: int, j: int): (r: seq<int>)
    requires 0 <= i < |s| && 0 <= j < |s|
    ensures |r| == |s|
  {
    s[i := s[j]][j := s[i]]
  }

  lemma SwappedPermutes(s: seq<int>, i: int, j: int)
    requires 0 <= i < |s| && 0 <= j < |s|
    ensures multiset(Swapped(s, i, j)) == multiset(s)
  {
  }

  lemma {:induction false} BelowSwapped(s: seq<int>, h: int, j: int, p: int, v: int)
    requires h > 0 && h <= j < |s| && p < |s|
    ensures var s' := Swapped(s, j - h, j);
            Below(s', h, p, v) + One(p == j - h && s[j - h] > v) == Below(s, h, p, v) + One(p == j - h && s[j] > v)
    decreases if p < 0 then 0 else p + 1
  {
    if p >= 0 { BelowSwapped(s, h, j, p - h, v); }
  }

  lemma {:induction false} AboveSwapped(s: seq<int>, h: int, j: int, p: int, v: int)
    requires h > 0 && h <= j < |s| && p >= 0
    ensures var s' := Swapped(s, j - h, j);
            Above(s', h, p, v) + One(p == j && s[j] > v) == Above(s, h, p, v) + One(p == j && s[j - h] > v)
    decreases if p < |s| then |s| - p else 0
  {
    if p < |s| { AboveSwapped(s, h, j, p + h, v); }
  }

  lemma SwapKeepsStrides(s: seq<int>, t: seq<int>, h: int, j: int)
    requires h > 0 && SameStrides(s, t, h) && h <= j < |t|
    ensures SameStrides(s, Swapped(t, j - h, j), h)
  {
    var t' := Swapped(t, j - h, j);
    forall p, v | 0 <= p < |s| ensures Total(s, h, p, v) == Total(t', h, p, v) {
      BelowSwapped(t, h, j, p, v);
      AboveSwapped(t, h, j, p + h, v);
    }
  }

  // ---------------------------------------------------------------- one insertion

  /** Sorted along the strides up to position `n`, except where the hole at `j` meets what is before it. */
  ghost predicate SortedBut(s: seq<int>, h: int, n: int, j: int) {
    && (forall p, q :: 0 <= p < |s| && 0 <= q < |s| && q == p + h && q < n && q != j ==> s[p] <= s[q])
    && (forall p, q :: 0 <= p < |s| && 0 <= q < |s| && p == j - h && q == j + h && q < n ==> s[p] <= s[q])
  }

  ghost predicate SortedUpTo(s: seq<int>, h: int, n: int) {
    forall p, q :: 0 <= p < |s| && 0 <= q < |s| && q == p + h && q < n ==> s[p] <= s[q]
  }

  lemma SwapSorted(s: seq<int>, h: int, n: int, j: int)
    requires h > 0 && h <= j < |s| && SortedBut(s, h, n, j) && s[j] < s[j - h] && j < n
    ensures SortedBut(Swapped(s, j - h, j), h, n, j - h)
  {
  }

  lemma StridesUnchangedAbove(s: seq<int>, t: seq<int>, h: int, p: int, v: int)
    requires h > 0 && |s| == |t| && p >= 0 && forall q :: p <= q < |s| ==> s[q] == t[q]
    ensures Above(s, h, p, v) == Above(t, h, p, v)
    decreases if p < |s| then |s| - p else 0
  {
    if p < |s| { StridesUnchangedAbove(s, t, h, p + h, v); }
  }

  lemma {:induction false} NoneBelow(s: seq<int>, h: int, p: int, v: int)
    requires h > 0 && p < |s| && forall q :: 0 <= q <= p ==> s[q] <= v
    ensures Below(s, h, p, v) == 0
    decreases if p < 0 then 0 else p + 1
  {
    if p >= 0 { NoneBelow(s, h, p - h, v); }
  }

  /** If elements more than `h` apart are in order, an insertion moves at most one element. */
  lemma AtMostOneMove(s: seq<int>, h: int, i: int)
    requires 0 < h <= i < |s| && OrderedFrom(s, h + 1)
    ensures Below(s, h, i - h, s[i]) <= 1
  {
    NoneBelow(s, h, i - 2 * h, s[i]);
  }

  lemma {:induction false} FewInversions(s: seq<int>, h: int, n: nat)
    requires h > 0 && n <= |s| && OrderedFrom(s, h + 1)
    ensures Inversions(s, h, n) <= if n <= h then 0 else n - h
  {
    if n > 0 {
      FewInversions(s, h, n - 1);
      if n > h { AtMostOneMove(s, h, n - 1); }
    }
  }

  // ---------------------------------------------------------------- the loops

  /** While element number `i` looks for its place, at `j` now: the same values on every stride. */
  ghost predicate Placing(start: seq<int>, l: seq<int>, gap: int, i: int, j: int)
    requires gap > 0
  {
    SameStrides(start, l, gap) && multiset(l) == multiset(start) && SortedBut(l, gap, i + 1, j)
  }

  lemma PlaceNext(start: seq<int>, l: seq<int>, gap: int, i: int, j: int)
    requires gap > 0 && Placing(start, l, gap, i, j) && gap <= j <= i < |l| && l[j] < l[j - gap]
    ensures Placing(start, Swapped(l, j - gap, j), gap, i, j - gap)
  {
    hide SameStrides, SortedBut, Swapped;
    SwapKeepsStrides(start, l, gap, j);
    SwapSorted(l, gap, i + 1, j);
    SwappedPermutes(l, j - gap, j);
  }

  lemma PlaceFound(start: seq<int>, l: seq<int>, gap: int, i: int, j: int)
    requires gap > 0 && Placing(start, l, gap, i, j) && 0 <= j < |l| && (gap <= j ==> l[j - gap] <= l[j])
    ensures SameStrides(start, l, gap) && multiset(l) == multiset(start) && SortedUpTo(l, gap, i + 1)
  {
  }

  lemma PlaceStarts(start: seq<int>, l: seq<int>, gap: int, i: int)
    requires gap > 0 && SameStrides(start, l, gap) && multiset(l) == multiset(start) && SortedUpTo(l, gap, i)
    ensures Placing(start, l, gap, i, i)
  {
  }

  lemma BelowStep(s: seq<int>, h: int, p: int, v: int)
    requires h > 0 && 0 <= p < |s|
    ensures Below(s, h, p, v) == One(s[p] > v) + Below(s, h, p - h, v)
  {
  }

  /** Where the search for the place ends, nothing further down the stride is larger. */
  lemma NoMoreMoves(s: seq<int>, h: int, i: int, j: int, v: int)
    requires h > 0 && SortedUpTo(s, h, i) && 0 <= j <= i < |s| && (h <= j ==> s[j - h] <= v)
    ensures Below(s, h, j - h, v) == 0
  {
    SmallBelow(s, h, i, j - h, v);
  }

  lemma {:induction false} SmallBelow(s: seq<int>, h: int, i: int, p: int, v: int)
    requires h > 0 && SortedUpTo(s, h, i) && p < i <= |s| && (0 <= p ==> s[p] <= v)
    ensures Below(s, h, p, v) == 0
    decreases if p < 0 then 0 else p + 1
  {
    if p >= h { assert s[p - h] <= s[p]; }
    if p >= 0 { SmallBelow(s, h, i, p - h, v); }
  }

  /** How often, among the first `n` elements, a larger one stands below a smaller one on the same stride. */
  ghost function Inversions(s: seq<int>, h: int, n: nat): (r: nat)
    requires h > 0 && n <= |s|
  {
    if n == 0 then 0 else Inversions(s, h, n - 1) + Below(s, h, n - 1 - h, s[n - 1])
  }

  lemma {:induction false} FirstHaveNone(s: seq<int>, h: int, n: nat)
    requires h > 0 && n <= |s| && n <= h
    ensures Inversions(s, h, n) == 0
  {
    if n > 0 { FirstHaveNone(s, h, n - 1); }
  }

  ghost predicate OneStride(h: int, i: int, j: int)
    requires h > 0
  {
    (j - i) % h == 0
  }

  /** The positions down the stride from `p` that hold more than `v`, each paired with `j`. */
  ghost function LargerBelow(s: seq<int>, h: int, p: int, v: int, j: int): (r: set<(int, int)>)
    requires h > 0
  {
    set i | 0 <= i < |s| && i <= p && OneStride(h, i, p) && s[i] > v :: (i, j)
  }

  lemma StrideDown(h: int, i: int, p: int)
    requires h > 0 && i <= p
    ensures OneStride(h, i, p) <==> i == p || (i <= p - h && OneStride(h, i, p - h))
  {
    OneMultiple(p - h - i, h);
    SameRemainder(0, h, 0, 0);
    if 0 < p - i < h { SameRemainder(p - i, h, 0, p - i); }
  }

  lemma LargerSplits(s: seq<int>, h: int, p: int, v: int, j: int)
    requires h > 0 && 0 <= p < |s|
    requires forall i: int | i <= p :: OneStride(h, i, p) <==> i == p || (i <= p - h && OneStride(h, i, p - h))
    ensures |LargerBelow(s, h, p, v, j)| == |LargerBelow(s, h, p - h, v, j)| + One(s[p] > v)
  {
    hide OneStride;
    var all, rest := LargerBelow(s, h, p, v, j), LargerBelow(s, h, p - h, v, j);
    assert (p, j) !in rest;
    assert all == rest + if s[p] > v then {(p, j)} else {};
  }

  lemma {:induction false} BelowCounts(s: seq<int>, h: int, p: int, v: int, j: int)
    requires h > 0 && p < |s|
    ensures Below(s, h, p, v) == |LargerBelow(s, h, p, v, j)|
    decreases if p < 0 then 0 else p + 1
  {
    if p >= 0 {
      BelowCounts(s, h, p - h, v, j);
      forall i: int | i <= p ensures OneStride(h, i, p) <==> i == p || (i <= p - h && OneStride(h, i, p - h)) { StrideDown(h, i, p); }
      hide OneStride;
      LargerSplits(s, h, p, v, j);
    }
  }

  /** The pairs among the first `n` elements that stand on one stride in the wrong order. */
  ghost function WrongPairs(s: seq<int>, h: int, n: nat): (r: set<(int, int)>)
    requires h > 0 && n <= |s|
  {
    set i, j | 0 <= i < j < n && OneStride(h, i, j) && s[i] > s[j] :: (i, j)
  }

  /** The inversions are exactly those pairs. */
  lemma {:induction false} InversionsCount(s: seq<int>, h: int, n: nat)
    requires h > 0 && n <= |s|
    ensures Inversions(s, h, n) == |WrongPairs(s, h, n)|
  {
    if n > 0 {
      var j := n - 1;
      InversionsCount(s, h, j);
      BelowCounts(s, h, j - h, s[j], j);
      hide WrongPairs, LargerBelow, Below;
      LastPairs(s, h, j);
    }
  }

  lemma LastPairs(s: seq<int>, h: int, j: nat)
    requires h > 0 && j < |s|
    ensures |WrongPairs(s, h, j + 1)| == |WrongPairs(s, h, j)| + |LargerBelow(s, h, j - h, s[j], j)|
  {
    var all, before, last := WrongPairs(s, h, j + 1), WrongPairs(s, h, j), LargerBelow(s, h, j - h, s[j], j);
    forall i: int, k: int ensures (i, k) in all <==> (i, k) in before || (i, k) in last {
      if 0 <= i < j { StrideDown(h, i, j); }
    }
    assert before !! last;
    hide WrongPairs, LargerBelow;
    forall q ensures q in all <==> q in before + last { assert q == (q.0, q.1); }
    assert all == before + last;
  }

  /** Sorting the elements before `i` along the strides does not change how many of them exceed element `i`. */
  lemma SameBelow(s: seq<int>, t: seq<int>, h: int, i: int)
    requires 0 < h <= i < |s| && SameStrides(s, t, h) && forall q :: i <= q < |s| ==> s[q] == t[q]
    ensures Below(t, h, i - h, t[i]) == Below(s, h, i - h, s[i])
  {
    StridesUnchangedAbove(s, t, h, i, s[i]);
    assert Total(s, h, i - h, s[i]) == Total(t, h, i - h, s[i]);
  }

  /** Element `i` is put in its place among those before it on its stride. */
  method Insert(a: array<int>, gap: nat, i: nat, ghost start: seq<int>) returns (moves: nat)
    requires 0 < gap <= i < a.Length && SameStrides(start, a[..], gap) && multiset(a[..]) == multiset(start)
    requires SortedUpTo(a[..], gap, i)
    modifies a
    ensures SameStrides(start, a[..], gap) && multiset(a[..]) == multiset(start) && SortedUpTo(a[..], gap, i + 1)
    ensures forall q :: i < q < a.Length ==> a[q] == old(a[q])
    ensures moves == 1 + Below(old(a[..]), gap, i - gap, old(a[i]))
  {
    hide Placing, Below;
    var temporary := a[i];
    var j := i;
    moves := 0;
    ghost var l, was := a[..], a[..];
    PlaceStarts(start, l, gap, i);
    hide SameStrides, SortedUpTo;
    while j >= gap
      invariant 0 <= j <= i && |l| == a.Length && l[j] == temporary && Placing(start, l, gap, i, j)
      invariant forall q :: 0 <= q < a.Length && q != j ==> a[q] == l[q]
      invariant forall q :: 0 <= q < a.Length && (q < j || q > i) ==> a[q] == was[q]
      invariant moves + Below(was, gap, j - gap, temporary) == Below(was, gap, i - gap, temporary)
    {
      BelowStep(was, gap, j - gap, temporary);
      if temporary < a[j - gap] {
        PlaceNext(start, l, gap, i, j);
        l := Swapped(l, j - gap, j);
        a[j] := a[j - gap];
        moves := moves + 1;
        j := j - gap;
      } else {
        break;
      }
    }
    NoMoreMoves(was, gap, i, j, temporary);
    moves := moves + 1;
    PlaceFound(start, l, gap, i, j);
    a[j] := temporary;
    assert a[..] == l;
  }

  /** `t` is `s` with every stride of the gap sorted. */
  ghost predicate IsPass(s: seq<int>, t: seq<int>, gap: int) {
    gap > 0 && Ordered(t, gap) && SameStrides(s, t, gap)
  }

  /** There is only one way to sort the strides. */
  lemma PassUnique(s: seq<int>, t: seq<int>, u: seq<int>, gap: int)
    requires IsPass(s, t, gap) && IsPass(s, u, gap)
    ensures t == u
  {
    forall p | 0 <= p < |t| ensures t[p] == u[p] {
      NotBelow(s, t, u, gap, p);
      NotBelow(s, u, t, gap, p);
    }
  }

  lemma NotBelow(s: seq<int>, t: seq<int>, u: seq<int>, gap: int, p: int)
    requires IsPass(s, t, gap) && IsPass(s, u, gap) && 0 <= p < |t|
    ensures t[p] >= u[p]
  {
    var v := t[p];
    assert Total(s, gap, p, v) == Total(t, gap, p, v) == Total(u, gap, p, v);
    BelowSmall(t, gap, p, v);
    AboveAtMost(t, gap, p + gap, v);
    TotalAtLeast(u, gap, p, v);
    if u[p] > v { AboveLarge(u, gap, p, v); }
  }

  /** What a pass adds to the counter: one for each insertion, and one for each element it moves. */
  ghost function PassMoves(s: seq<int>, gap: int): (n: nat)
    requires gap > 0
  {
    if gap >= |s| then 0 else |s| - gap + Inversions(s, gap, |s|)
  }

  type Gap = g: nat | g > 0 witness 1

  /** `states` is what one pass per gap makes of `s`, step by step. */
  ghost predicate Passes(s: seq<int>, gaps: seq<Gap>, states: seq<seq<int>>) {
    && |states| == |gaps| + 1 && states[0] == s
    && forall k :: 0 <= k < |gaps| ==> IsPass(states[k], states[k + 1], gaps[k])
  }

  /** What all the passes add to the counter. */
  ghost function AllMoves(gaps: seq<Gap>, states: seq<seq<int>>): (n: nat)
    requires |states| == |gaps| + 1
  {
    if gaps == [] then 0
    else AllMoves(gaps[..|gaps| - 1], states[..|gaps|]) + PassMoves(states[|gaps| - 1], gaps[|gaps| - 1])
  }

  /** The gaps alone decide what the passes make of the input, and so what the counter shows. */
  lemma {:induction false} PassesUnique(s: seq<int>, gaps: seq<Gap>, x: seq<seq<int>>, y: seq<seq<int>>)
    requires Passes(s, gaps, x) && Passes(s, gaps, y)
    ensures x == y
  {
    if gaps != [] {
      var n := |gaps| - 1;
      PassesUnique(s, gaps[..n], x[..n + 1], y[..n + 1]);
      assert x[n] == x[..n + 1][n] == y[..n + 1][n] == y[n];
      PassUnique(x[n], x[n + 1], y[n + 1], gaps[n]);
      assert x == x[..n + 1] + [x[n + 1]] && y == y[..n + 1] + [y[n + 1]];
    }
  }

  lemma PassesMore(s: seq<int>, gaps: seq<Gap>, states: seq<seq<int>>, gap: Gap, t: seq<int>)
    requires |states| == |gaps| + 1 && Passes(s, gaps, states) && IsPass(states[|gaps|], t, gap)
    ensures Passes(s, gaps + [gap], states + [t])
    ensures AllMoves(gaps + [gap], states + [t]) == AllMoves(gaps, states) + PassMoves(states[|gaps|], gap)
  {
    hide IsPass, PassMoves;
    assert (gaps + [gap])[..|gaps|] == gaps && (states + [t])[..|states|] == states;
  }

  /** One pass of the outer loop: every stride of the gap gets sorted. */
  method GapPass(a: array<int>, gap: nat) returns (moves: nat)
    requires gap > 0
    modifies a
    ensures IsPass(old(a[..]), a[..], gap) && multiset(a[..]) == multiset(old(a[..]))
    ensures moves == PassMoves(old(a[..]), gap)
  {
    moves := 0;
    ghost var start := a[..];
    if gap <= a.Length { FirstHaveNone(start, gap, gap); }
    var i := gap;
    while i < a.Length
      invariant gap <= i && (i <= a.Length || i == gap) && SortedUpTo(a[..], gap, i)
      invariant SameStrides(start, a[..], gap) && multiset(a[..]) == multiset(start)
      invariant forall q :: i <= q < a.Length ==> a[q] == start[q]
      invariant moves == if i <= a.Length then i - gap + Inversions(start, gap, i) else 0
    {
      SameBelow(start, a[..], gap, i);
      var m := Insert(a, gap, i, start);
      moves := moves + m;
      i := i + 1;
    }
  }

  ghost predicate Sorted(s: seq<int>) {
    forall i, j :: 0 <= i < j < |s| ==> s[i] <= s[j]
  }

  /** After the pass with gap `g` elements at least `g` apart are in order. */
  lemma PassOrders(s: seq<int>, s': seq<int>, g: int)
    requires OrderedFrom(s, g + 1) && IsPass(s, s', g)
    ensures OrderedFrom(s', g)
  {
    SortingKeepsAll(s, s', g, g + 1);
    forall i, j | 0 <= i && i + g <= j < |s'| ensures s'[i] <= s'[j] {
      if j == i + g { assert s'[i] <= s'[j]; }
    }
  }

  lemma NoPasses(s: seq<int>)
    ensures Passes(s, [], [s]) && AllMoves([], [s]) == 0
  {
  }

  lemma OrderedAtEnds(s: seq<int>)
    ensures OrderedFrom(s, |s| + 1)
  {
  }

  lemma OneOrdered(s: seq<int>)
    requires OrderedFrom(s, 1)
    ensures Sorted(s)
  {
  }

  /** With everything further apart in order, a pass counts at most two for each insertion. */
  lemma MovesBound(s: seq<int>, gap: nat)
    requires 0 < gap <= |s| && OrderedFrom(s, gap + 1)
    ensures |s| - gap <= PassMoves(s, gap) <= 2 * (|s| - gap)
  {
    FewInversions(s, gap, |s|);
  }

  /** After `k` passes of at least 0, 1, ..., k - 1 and at most twice as many counts. */
  ghost predicate InBounds(k: int, total: int) {
    k * (k - 1) <= 2 * total <= 2 * (k * (k - 1))
  }

  lemma BoundsStart()
    ensures InBounds(0, 0)
  {
  }

  lemma BoundsMean(k: int, total: int)
    requires InBounds(k, total)
    ensures k * (k - 1) <= 2 * total <= 2 * k * (k - 1)
  {
    assert 2 * k * (k - 1) == 2 * (k * (k - 1));
  }

  lemma BoundStep(k: nat, total: int, m: int)
    requires InBounds(k, total) && k <= m <= 2 * k
    ensures InBounds(k + 1, total + m)
  {
    assert (k + 1) * k == k * (k - 1) + 2 * k;
  }

  lemma DownStep(gaps: seq<Gap>, gap: nat)
    requires gap > 0
    ensures gaps + DownFrom(gap) == gaps + [gap] + DownFrom(gap - 1)
  {
  }

  function DownFrom(gap: nat): (gaps: seq<Gap>) {
    if gap == 0 then [] else [gap] + DownFrom(gap - 1)
  }

  lemma {:induction false} DownGaps(n: nat, k: nat)
    requires k < n
    ensures |DownFrom(n)| == n && DownFrom(n)[k] == n - k
  {
    if n > 1 { DownGaps(n - 1, if k == 0 then 0 else k - 1); }
  }

  /** Every gap from the size down to 1. Each insertion then moves at most one element. The counter is the
      number of insertions and moves, as the states between the passes show. */
  method ShellSortOwn1(a: array<int>) returns (totalSwaps: nat, ghost states: seq<seq<int>>)
    modifies a
    ensures Sorted(a[..]) && multiset(a[..]) == multiset(old(a[..]))
    ensures |states| == |DownFrom(a.Length)| + 1 && Passes(old(a[..]), DownFrom(a.Length), states)
    ensures totalSwaps == AllMoves(DownFrom(a.Length), states)
    ensures a.Length * (a.Length - 1) <= 2 * totalSwaps <= 2 * a.Length * (a.Length - 1)
  {
    hide IsPass, PassMoves, OrderedFrom, Passes, AllMoves, InBounds;
    BoundsStart();
    totalSwaps := 0;
    ghost var n, gaps: seq<Gap> := a.Length, [];
    states := [a[..]];
    NoPasses(a[..]);
    OrderedAtEnds(a[..]);
    var gap := a.Length;
    while gap > 0
      invariant 0 <= gap <= n && OrderedFrom(a[..], gap + 1) && multiset(a[..]) == multiset(old(a[..]))
      invariant DownFrom(n) == gaps + DownFrom(gap) && |states| == |gaps| + 1 && states[|gaps|] == a[..]
      invariant Passes(old(a[..]), gaps, states)
      invariant totalSwaps == AllMoves(gaps, states)
      invariant InBounds(n - gap, totalSwaps)
    {
      ghost var before := a[..];
      var m := GapPass(a, gap);
      PassOrders(before, a[..], gap);
      MovesBound(before, gap);
      BoundStep(n - gap, totalSwaps, m);
      DownStep(gaps, gap);
      PassesMore(old(a[..]), gaps, states, gap, a[..]);
      gaps, states := gaps + [gap], states + [a[..]];
      totalSwaps := totalSwaps + m;
      gap := gap - 1;
    }
    assert gaps + [] == gaps;
    OneOrdered(a[..]);
    BoundsMean(n, totalSwaps);
  }

  lemma OneOrderedSorted(s: seq<int>)
    requires Ordered(s, 1)
    ensures Sorted(s)
  {
    forall i, j | 0 <= i < j < |s| ensures s[i] <= s[j] { OneOrderedChain(s, i, j); }
  }

  lemma {:induction false} OneOrderedChain(s: seq<int>, i: int, j: int)
    requires Ordered(s, 1) && 0 <= i <= j < |s|
    ensures s[i] <= s[j]
    decreases j - i
  {
    if i < j { OneOrderedChain(s, i, j - 1); }
  }

  lemma SortingKeepsGaps(s: seq<int>, s': seq<int>, h: int, gaps: seq<Gap>)
    requires IsPass(s, s', h) && forall k :: k in gaps ==> Ordered(s, k)
    ensures forall k :: k in gaps + [h] ==> Ordered(s', k)
  {
    forall k | k in gaps ensures Ordered(s', k) {
      var i :| 0 <= i < |gaps| && gaps[i] == k;
      SortingKeepsOrder(s, s', h, gaps[i]);
    }
  }

  function HalvingFrom(gap: nat): (gaps: seq<Gap>)
    ensures gap > 0 ==> 1 in gaps
  {
    if gap == 0 then [] else [gap] + HalvingFrom(gap / 2)
  }

  function Power2(k: nat): (n: nat)
    ensures n > 0
  {
    if k == 0 then 1 else 2 * Power2(k - 1)
  }

  lemma {:induction false} HalvingGaps(gap: nat, k: nat)
    requires k < |HalvingFrom(gap)|
    ensures HalvingFrom(gap)[k] == gap / Power2(k) && gap / Power2(|HalvingFrom(gap)|) == 0
  {
    HalveOnce(gap, |HalvingFrom(gap / 2)|);
    if k > 0 {
      HalvingGaps(gap / 2, k - 1);
      HalveOnce(gap, k - 1);
    } else if gap / 2 > 0 {
      HalvingGaps(gap / 2, 0);
    }
  }

  lemma HalveOnce(gap: nat, k: nat)
    ensures gap / 2 / Power2(k) == gap / Power2(k + 1)
  {
    var m := Power2(k);
    var q, r := gap / 2 / m, gap / 2 % m;
    assert gap / 2 == m * q + r;
    assert gap == (2 * m) * q + (2 * r + gap % 2);
    SameQuotient(gap, 2 * m, q, 2 * r + gap % 2);
  }

  lemma SameQuotient(x: int, m: int, q: int, r: int)
    requires m > 0 && x == m * q + r && 0 <= r < m
    ensures x / m == q
  {
    var q', r' := x / m, x % m;
    SameRemainder(x, m, q, r);
    assert x == m * q' + r' && r' == r;
    assert m * (q' - q) == 0;
  }

  lemma HalvingEnds()
    ensures HalvingFrom(0) == []
  {
  }

  lemma ShortSorted(s: seq<int>)
    requires |s| <= 1
    ensures Sorted(s)
  {
  }

  lemma HalvingStep(gaps: seq<Gap>, gap: nat)
    requires gap > 0
    ensures gaps + HalvingFrom(gap) == gaps + [gap] + HalvingFrom(gap / 2)
  {
  }

  /** Halving gaps: the order of every gap used survives to the end. The counter as above. */
  method ShellSortShell(a: array<int>) returns (totalSwaps: nat, ghost states: seq<seq<int>>)
    modifies a
    ensures Sorted(a[..]) && multiset(a[..]) == multiset(old(a[..]))
    ensures |states| == |HalvingFrom(a.Length / 2)| + 1 && Passes(old(a[..]), HalvingFrom(a.Length / 2), states)
    ensures totalSwaps == AllMoves(HalvingFrom(a.Length / 2), states)
    ensures forall k :: k in HalvingFrom(a.Length / 2) ==> Ordered(a[..], k)
  {
    hide Ordered, SameStrides, HalvingFrom, Sorted, IsPass, PassMoves, Passes, AllMoves;
    totalSwaps := 0;
    HalvingEnds();
    ghost var gaps: seq<Gap> := [];
    states := [a[..]];
    NoPasses(a[..]);
    var gap := a.Length / 2;
    while gap > 0
      invariant gap >= 0 && multiset(a[..]) == multiset(old(a[..]))
      invariant HalvingFrom(a.Length / 2) == gaps + HalvingFrom(gap)
      invariant |states| == |gaps| + 1 && states[|gaps|] == a[..]
      invariant Passes(old(a[..]), gaps, states) && totalSwaps == AllMoves(gaps, states)
      invariant forall k :: k in gaps ==> Ordered(a[..], k)
      decreases gap
    {
      ghost var before := a[..];
      var m := GapPass(a, gap);
      SortingKeepsGaps(before, a[..], gap, gaps);
      HalvingStep(gaps, gap);
      PassesMore(old(a[..]), gaps, states, gap, a[..]);
      totalSwaps := totalSwaps + m;
      gaps, states := gaps + [gap], states + [a[..]];
      gap := gap / 2;
    }
    assert gaps + [] == gaps;
    if a.Length > 1 {
      assert 1 in HalvingFrom(a.Length / 2);
      OneOrderedSorted(a[..]);
    } else {
      ShortSorted(a[..]);
    }
  }
}
