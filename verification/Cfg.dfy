/** The control flow graph of the SSA compiler: its three depth-first searches, the dominator
    tree by block deletion, the dominance frontiers and the iterated frontier. */
module Cfg {
  import opened Common
  import opened Ir
  import opened Dominance

  function SuccsOf(blocks: seq<CFGBlock>): (g: Graph)
    ensures |g| == |blocks|
    ensures forall i :: 0 <= i < |blocks| ==> g[i] == blocks[i].succs
  {
    seq(|blocks|, i requires 0 <= i < |blocks| => blocks[i].succs)
  }

  ghost function Elements(s: seq<nat>): (r: set<nat>)
    ensures forall x :: x in r <==> x in s
  {
    set x | x in s
  }

  ghost predicate IsBlock(g: Graph, b: nat) { b < |g| }

  ghost function AllBlocks(g: Graph): set<nat> {
    set b: nat | b < |g| && IsBlock(g, b)
  }

  // ---------------------------------------------------------------- depth-first search

  /** A search from `start` that found `before` marked ended with `after` marked. */
  ghost predicate Explored(g: Graph, start: nat, before: set<nat>, after: set<nat>) {
    && before <= after && start in after
    && (forall x :: x in after && x !in before ==> x < |g| && Connects(g, start, x, before))
    && (forall x, y :: x in after && x !in before && Edge(g, x, y) ==> y in after)
  }

  /** The same while the first `i` successors of `start` are done. */
  ghost predicate Exploring(g: Graph, start: nat, before: set<nat>, now: set<nat>, i: nat) {
    && start < |g| && start !in before
    && before <= now && start in now
    && (forall x :: x in now && x !in before ==> x < |g| && Connects(g, start, x, before))
    && (forall x, y :: x in now && x !in before && x != start && Edge(g, x, y) ==> y in now)
    && i <= |g[start]| && (forall j :: 0 <= j < i ==> g[start][j] in now)
  }

  lemma ExploringStarts(g: Graph, start: nat, before: set<nat>)
    requires start < |g| && start !in before
    ensures Exploring(g, start, before, before + {start}, 0)
  {
    assert PathBetween(g, [start], start, start) && Avoids([start], before);
  }

  lemma ExploringStep(g: Graph, start: nat, before: set<nat>, now: set<nat>, i: nat, after: set<nat>)
    requires WellFormed(g) && Exploring(g, start, before, now, i) && i < |g[start]|
    requires if g[start][i] in now then after == now else Explored(g, g[start][i], now, after)
    ensures Exploring(g, start, before, after, i + 1)
  {
    var next := g[start][i];
    assert next in g[start];
    if next !in now {
      forall x | x in after && x !in before ensures x < |g| && Connects(g, start, x, before) {
        if x !in now {
          var p :| PathBetween(g, p, next, x) && Avoids(p, now);
          PathPrepend(g, p, start, next, x);
          assert Avoids([start] + p, before);
        }
      }
    }
  }

  lemma ExploringEnds(g: Graph, start: nat, before: set<nat>, now: set<nat>)
    requires WellFormed(g) && start < |g| && Exploring(g, start, before, now, |g[start]|)
    ensures Explored(g, start, before, now)
  {
  }

  /** A search marks exactly what can be reached around the marked blocks. */
  lemma ExploredExactly(g: Graph, start: nat, before: set<nat>, after: set<nat>, y: nat)
    requires WellFormed(g) && Explored(g, start, before, after) && start !in before
    ensures y in after <==> y in before || Connects(g, start, y, before)
  {
    if Connects(g, start, y, before) {
      var p :| PathBetween(g, p, start, y) && Avoids(p, before);
      ExploredCovers(g, start, before, after, p);
    }
  }

  lemma ExploredCovers(g: Graph, start: nat, before: set<nat>, after: set<nat>, p: seq<nat>)
    requires Explored(g, start, before, after)
    requires Path(g, p) && p[0] == start && Avoids(p, before)
    ensures p[|p| - 1] in after
    decreases |p|
  {
    if |p| > 1 {
      var k := |p| - 2;
      PathPrefix(g, p, k);
      ExploredCovers(g, start, before, after, p[..k + 1]);
      assert p[..k + 1][k] == p[k];
      assert Edge(g, p[k], p[k + 1]);
    }
  }

  lemma ExploredReachable(g: Graph, after: set<nat>, y: nat)
    requires WellFormed(g) && Explored(g, 0, {}, after)
    ensures y in after <==> Reachable(g, y)
  {
    ExploredExactly(g, 0, {}, after, y);
    if Reachable(g, y) {
      var p :| PathTo(g, p, y);
      assert Avoids(p, {});
    } else if Connects(g, 0, y, {}) {
      var p :| PathBetween(g, p, 0, y) && Avoids(p, {});
      assert PathTo(g, p, y);
    }
  }

  // ---------------------------------------------------------------- the two orders

  /** `order[i]` is reached through blocks listed no later than itself. */
  ghost predicate ReachedInOrder(g: Graph, order: seq<nat>, i: nat)
    requires i < |order|
  {
    exists p :: PathTo(g, p, order[i]) && forall k :: 0 <= k < |p| ==> p[k] in order[..i + 1]
  }

  /** A DFS preorder: the reachable blocks, each once, each after the blocks it is reached through. */
  ghost predicate IsPreorder(g: Graph, order: seq<nat>) {
    && Distinct(order) && |order| > 0 && order[0] == 0
    && (forall b :: b in order <==> Reachable(g, b))
    && (forall i :: 0 <= i < |order| ==> ReachedInOrder(g, order, i))
  }

  /** No strict dominator of `order[i]` is listed before it. */
  ghost predicate DominatorsLater(g: Graph, order: seq<nat>, i: nat)
    requires i < |order|
  {
    forall x :: SDom(g, x, order[i]) ==> x !in order[..i]
  }

  /** A DFS postorder as dominance sees it: the reachable blocks, each once, each before all of
      its strict dominators. */
  ghost predicate IsPostorder(g: Graph, order: seq<nat>) {
    && Distinct(order)
    && (forall b :: b in order <==> Reachable(g, b))
    && (forall i :: 0 <= i < |order| ==> DominatorsLater(g, order, i))
  }

  lemma ReachedInOrderExtends(g: Graph, order: seq<nat>, longer: seq<nat>, i: nat)
    requires i < |order| && order <= longer && ReachedInOrder(g, order, i)
    ensures ReachedInOrder(g, longer, i)
  {
    assert longer[..i + 1] == order[..i + 1];
  }

  /** In a preorder a strict dominator comes first. */
  lemma PreorderDominators(g: Graph, order: seq<nat>, i: nat, d: nat)
    requires IsPreorder(g, order) && i < |order| && SDom(g, d, order[i])
    ensures d in order[..i]
  {
    assert ReachedInOrder(g, order, i);
    var p :| PathTo(g, p, order[i]) && forall k :: 0 <= k < |p| ==> p[k] in order[..i + 1];
    assert d in p;
    assert d in order[..i + 1];
  }

  /** In a postorder a strict dominator comes last. */
  lemma PostorderDominated(g: Graph, order: seq<nat>, i: nat, z: nat)
    requires IsPostorder(g, order) && i < |order| && SDom(g, order[i], z) && Reachable(g, z)
    ensures z in order[..i]
  {
    assert z in order;
    var j :| 0 <= j < |order| && order[j] == z;
    assert DominatorsLater(g, order, j);
    if j < i { assert order[..i][j] == z; }
  }

  // ---------------------------------------------------------------- dominator tree

  /** `d` is the last of the first `n` blocks of `order` that strictly dominates `x`. */
  ghost predicate LastDominator(g: Graph, order: seq<nat>, n: nat, x: nat, d: Option<nat>)
    requires n <= |order|
  {
    match d
    case None => forall k :: 0 <= k < n ==> !SDom(g, order[k], x)
    case Some(v) =>
      exists k :: 0 <= k < n && order[k] == v && SDom(g, order[k], x)
        && forall m :: k < m < n ==> !SDom(g, order[m], x)
  }

  lemma LastDominatorStep(g: Graph, order: seq<nat>, n: nat, x: nat, d: Option<nat>, d': Option<nat>)
    requires n < |order| && LastDominator(g, order, n, x, d)
    requires d' == if SDom(g, order[n], x) then Some(order[n]) else d
    ensures LastDominator(g, order, n + 1, x, d')
  {
    if !SDom(g, order[n], x) && d.Some? {
      var k :| 0 <= k < n && order[k] == d.value && SDom(g, order[k], x)
        && forall m :: k < m < n ==> !SDom(g, order[m], x);
      assert forall m :: k < m < n + 1 ==> !SDom(g, order[m], x);
    }
  }

  ghost predicate IsDominator(g: Graph, x: nat, d: Option<nat>) {
    match d
    case None => x == 0 || !Reachable(g, x)
    case Some(v) => x != 0 && v < |g| && Reachable(g, x) && IDom(g, v, x)
  }

  /** The last strict dominator in preorder is the immediate one. */
  lemma LastDominatorIsImmediate(g: Graph, order: seq<nat>, x: nat, d: Option<nat>)
    requires WellFormed(g) && IsPreorder(g, order) && x in order
    requires LastDominator(g, order, |order|, x, d)
    ensures IsDominator(g, x, d)
  {
    EntryDominates(g, x);
    if d.Some? {
      var k :| 0 <= k < |order| && order[k] == d.value && SDom(g, order[k], x)
        && forall m :: k < m < |order| ==> !SDom(g, order[m], x);
      assert order[k] in order;
      if x == 0 { assert PathTo(g, [0], 0); assert false; }
      forall e | SDom(g, e, x) ensures Dom(g, e, d.value) {
        DomChain(g, e, order[k], x);
        if !Dom(g, e, order[k]) {
          DominatorReachable(g, e, x);
          var m :| 0 <= m < |order| && order[m] == e;
          DomReflexive(g, e);
          PreorderDominators(g, order, m, order[k]);
        }
      }
      var p :| PathTo(g, p, order[k]);
    } else {
      assert !SDom(g, order[0], x);
    }
  }

  /** The blocks below `n` whose dominator is `x`, in index order. */
  function ChildrenBelow(blocks: seq<CFGBlock>, x: nat, n: nat): (r: seq<nat>)
    requires n <= |blocks|
  {
    if n == 0 then []
    else if blocks[n - 1].dominator == Some(x) then ChildrenBelow(blocks, x, n - 1) + [n - 1]
    else ChildrenBelow(blocks, x, n - 1)
  }

  lemma {:induction false} ChildrenBelowMembers(blocks: seq<CFGBlock>, x: nat, n: nat)
    requires n <= |blocks|
    ensures var r := ChildrenBelow(blocks, x, n);
            && (forall z :: z in r <==> 0 <= z < n && blocks[z].dominator == Some(x))
            && (forall i :: 0 <= i < |r| ==> r[i] < n)
            && (forall i, j :: 0 <= i < j < |r| ==> r[i] < r[j])
  {
    if n > 0 { ChildrenBelowMembers(blocks, x, n - 1); }
  }

  lemma ChildrenBelowSame(blocks: seq<CFGBlock>, blocks': seq<CFGBlock>, x: nat, n: nat)
    requires n <= |blocks| == |blocks'|
    requires forall i :: 0 <= i < |blocks| ==> blocks[i].dominator == blocks'[i].dominator
    ensures ChildrenBelow(blocks, x, n) == ChildrenBelow(blocks', x, n)
  {
  }

  /** Only the two dominator fields may differ. */
  ghost predicate SameCode(blocks: seq<CFGBlock>, blocks': seq<CFGBlock>) {
    |blocks| == |blocks'| && forall i :: 0 <= i < |blocks| ==>
      blocks'[i] == blocks[i].(dominator := blocks'[i].dominator, dominatingBlocks := blocks'[i].dominatingBlocks)
  }

  lemma SameCodeSameGraph(blocks: seq<CFGBlock>, blocks': seq<CFGBlock>)
    requires SameCode(blocks, blocks')
    ensures SuccsOf(blocks) == SuccsOf(blocks')
  {
    forall i | 0 <= i < |blocks| ensures SuccsOf(blocks)[i] == SuccsOf(blocks')[i] {
      assert blocks'[i].succs == blocks[i].succs;
    }
  }

  /** Every block's dominator field is its immediate dominator and every block lists exactly the
      blocks it immediately dominates, in index order. */
  ghost predicate HasDominatorTree(blocks: seq<CFGBlock>) {
    var g := SuccsOf(blocks);
    && (forall x :: 0 <= x < |blocks| ==> IsDominator(g, x, blocks[x].dominator))
    && (forall x :: 0 <= x < |blocks| ==>
          blocks[x].dominatingBlocks == ChildrenBelow(blocks, x, |blocks|))
  }

  // ---------------------------------------------------------------- frontiers

  ghost function Frontier(g: Graph, x: nat): (r: set<nat>) {
    set y: nat | y < |g| && InFrontier(g, x, y)
  }

  /** What the table must hold: the frontier of each reachable block, nothing for the others. */
  ghost function TrueFrontier(g: Graph, x: nat): (r: set<nat>) {
    if Reachable(g, x) then Frontier(g, x) else {}
  }

  ghost function FrontierTable(g: Graph): (df: map<nat, set<nat>>)
    ensures df.Keys == AllBlocks(g)
    ensures forall x, y :: x in df && y in df[x] ==> y in df
  {
    map x | x in AllBlocks(g) :: TrueFrontier(g, x)
  }

  /** The table once the blocks of `done` have their frontiers. */
  ghost function PartialTable(g: Graph, done: seq<nat>): (df: map<nat, set<nat>>) {
    map x | x in AllBlocks(g) :: if x in done then Frontier(g, x) else {}
  }

  lemma PartialTableStep(g: Graph, order: seq<nat>, i: nat)
    requires i < |order| && IsPostorder(g, order)
    ensures PartialTable(g, order[..i + 1]) == PartialTable(g, order[..i])[order[i] := Frontier(g, order[i])]
  {
    hide Frontier, DominatorsLater;
    assert order[i] in order && Reachable(g, order[i]);
    var p :| PathTo(g, p, order[i]);
    assert order[i] in AllBlocks(g);
    assert order[..i + 1] == order[..i] + [order[i]];
  }

  lemma FullTable(g: Graph, order: seq<nat>)
    requires IsPostorder(g, order)
    ensures PartialTable(g, order) == FrontierTable(g)
  {
    hide Frontier, DominatorsLater;
  }

  lemma FrontierReachable(g: Graph, x: nat, y: nat)
    requires y in Frontier(g, x)
    ensures y < |g| && Reachable(g, y)
  {
    var q :| Reachable(g, q) && Edge(g, q, y) && Dom(g, x, q);
    ReachableStep(g, q, y);
  }

  /** The frontier of `x` from its successors and the frontiers of its children. */
  lemma FrontierEquation(g: Graph, x: nat, y: nat)
    requires WellFormed(g) && Reachable(g, x)
    ensures InFrontier(g, x, y) <==>
            !IDom(g, x, y) && (Edge(g, x, y)
              || exists z :: Reachable(g, z) && IDom(g, x, z) && InFrontier(g, z, y))
  {
    if Edge(g, x, y) {
      FrontierLocal(g, x, y);
    } else if exists z :: Reachable(g, z) && IDom(g, x, z) && InFrontier(g, z, y) {
      var z :| Reachable(g, z) && IDom(g, x, z) && InFrontier(g, z, y);
      FrontierUp(g, x, z, y);
    } else if InFrontier(g, x, y) {
      var q :| Reachable(g, q) && Edge(g, q, y) && Dom(g, x, q);
      var p :| PathTo(g, p, q);
      var z := ChildTowards(g, x, q, p);
      FrontierDown(g, x, y, q, z);
    }
  }

  /** Comparing a dominator field tests immediate dominance. */
  lemma DominatorMeans(blocks: seq<CFGBlock>, g: Graph, x: nat, y: nat)
    requires g == SuccsOf(blocks) && WellFormed(g) && HasDominatorTree(blocks)
    requires y < |g| && Reachable(g, y)
    ensures blocks[y].dominator == Some(x) <==> IDom(g, x, y)
  {
    assert IsDominator(g, y, blocks[y].dominator);
    if IDom(g, x, y) {
      if y == 0 { assert PathTo(g, [0], 0); assert false; }
      IDomUnique(g, x, blocks[y].dominator.value, y);
    }
  }

  lemma ChildMeans(blocks: seq<CFGBlock>, g: Graph, x: nat, z: nat)
    requires g == SuccsOf(blocks) && HasDominatorTree(blocks)
    requires x < |g| && z in blocks[x].dominatingBlocks
    ensures z < |g| && Reachable(g, z) && IDom(g, x, z)
  {
    ChildrenBelowMembers(blocks, x, |blocks|);
    assert IsDominator(g, z, blocks[z].dominator);
  }

  lemma ChildListed(blocks: seq<CFGBlock>, g: Graph, x: nat, z: nat)
    requires g == SuccsOf(blocks) && WellFormed(g) && HasDominatorTree(blocks)
    requires x < |g| && Reachable(g, z) && IDom(g, x, z)
    ensures z in blocks[x].dominatingBlocks
  {
    var p :| PathTo(g, p, z);
    DominatorMeans(blocks, g, x, z);
    ChildrenBelowMembers(blocks, x, |blocks|);
  }

  /** What is in the frontier of `x` once its successors and the first `c` children are done. */
  ghost function Collected(g: Graph, x: nat, children: seq<nat>, c: nat): (r: set<nat>)
    requires x < |g| && c <= |children|
  {
    set y: nat | y < |g| && !IDom(g, x, y)
      && (y in g[x] || exists k :: 0 <= k < c && y in Frontier(g, children[k]))
  }

  lemma CollectedStep(g: Graph, x: nat, children: seq<nat>, c: nat, r: set<nat>)
    requires x < |g| && c < |children|
    requires forall y :: y in r <==>
               y in Collected(g, x, children, c) || (y in Frontier(g, children[c]) && !IDom(g, x, y))
    ensures r == Collected(g, x, children, c + 1)
  {
    forall y ensures y in r <==> y in Collected(g, x, children, c + 1) {
      if y in Frontier(g, children[c]) {
      } else if y < |g| && exists k :: 0 <= k < c + 1 && y in Frontier(g, children[k]) {
        var k :| 0 <= k < c + 1 && y in Frontier(g, children[k]);
        assert k < c;
      }
    }
  }

  /** Cytron's equation with the children as the block lists them. */
  lemma CollectedFrontier(blocks: seq<CFGBlock>, g: Graph, x: nat)
    requires g == SuccsOf(blocks) && WellFormed(g) && HasDominatorTree(blocks)
    requires x < |g| && Reachable(g, x)
    ensures Collected(g, x, blocks[x].dominatingBlocks, |blocks[x].dominatingBlocks|) == Frontier(g, x)
  {
    var children := blocks[x].dominatingBlocks;
    forall y: nat | y < |g|
      ensures y in Collected(g, x, children, |children|) <==> y in Frontier(g, x)
    {
      FrontierEquation(g, x, y);
      if exists z :: Reachable(g, z) && IDom(g, x, z) && InFrontier(g, z, y) {
        var z :| Reachable(g, z) && IDom(g, x, z) && InFrontier(g, z, y);
        ChildListed(blocks, g, x, z);
        var k :| 0 <= k < |children| && children[k] == z;
        assert y in Frontier(g, children[k]);
      }
      if exists k :: 0 <= k < |children| && y in Frontier(g, children[k]) {
        var k :| 0 <= k < |children| && y in Frontier(g, children[k]);
        ChildMeans(blocks, g, x, children[k]);
      }
    }
  }

  /** The union of the frontiers of the blocks of `s`. */
  ghost function Merged(df: map<nat, set<nat>>, s: set<nat>): (r: set<nat>)
    requires s <= df.Keys
  {
    set x, y | x in s && y in df[x] :: y
  }

  lemma MergedMonotone(df: map<nat, set<nat>>, s: set<nat>, t: set<nat>)
    requires s <= df.Keys && t <= df.Keys
    ensures s <= t ==> Merged(df, s) <= Merged(df, t)
  {
  }

  /** `t` is the least set with `t == Merged(df, s + t)`. */
  ghost predicate IsIteratedFrontier(df: map<nat, set<nat>>, s: set<nat>, t: set<nat>)
    requires s <= df.Keys
  {
    && t <= df.Keys && t == Merged(df, s + t)
    && forall u :: u <= df.Keys && Merged(df, s + u) <= u ==> t <= u
  }

  class CFG {
    var BasicBlocks: seq<CFGBlock>
    var InPredOrder: seq<nat>
    var InPostOrder: seq<nat>
    var VisitedMap: set<nat>  // the blocks mapped to a nonzero value
    var DominanceFrontier: map<nat, set<nat>>

    constructor ()
      ensures BasicBlocks == [] && InPredOrder == [] && InPostOrder == [] && DominanceFrontier == map[]
    {
      BasicBlocks, InPredOrder, InPostOrder, VisitedMap, DominanceFrontier := [], [], [], {}, map[];
    }

    ghost function Graph(): (g: Graph)
      reads this`BasicBlocks
    {
      SuccsOf(BasicBlocks)
    }

    method PredOrderDFS(block: nat, ghost g: Graph, ghost path: seq<nat>)
      requires g == Graph() && WellFormed(g) && block !in VisitedMap && VisitedMap <= AllBlocks(g)
      requires Distinct(InPredOrder) && Elements(InPredOrder) == VisitedMap
      requires PathTo(g, path, block) && forall k :: 0 <= k < |path| - 1 ==> path[k] in InPredOrder
      modifies this`VisitedMap, this`InPredOrder
      ensures VisitedMap <= AllBlocks(g) && Explored(g, block, old(VisitedMap), VisitedMap)
      ensures Distinct(InPredOrder) && Elements(InPredOrder) == VisitedMap
      ensures old(InPredOrder) + [block] <= InPredOrder
      ensures forall i :: |old(InPredOrder)| <= i < |InPredOrder| ==> ReachedInOrder(g, InPredOrder, i)
      decreases AllBlocks(g) - VisitedMap
    {
      ghost var before, n := VisitedMap, |InPredOrder|;
      ghost var order0 := InPredOrder;
      VisitedMap := VisitedMap + {block};
      InPredOrder := InPredOrder + [block];
      ExploringStarts(g, block, before);
      assert InPredOrder[..n + 1] == InPredOrder;
      assert ReachedInOrder(g, InPredOrder, n);
      var i := 0;
      while i < |BasicBlocks[block].succs|
        invariant Exploring(g, block, before, VisitedMap, i) && VisitedMap <= AllBlocks(g)
        invariant Distinct(InPredOrder) && Elements(InPredOrder) == VisitedMap
        invariant order0 + [block] <= InPredOrder
        invariant forall k :: n <= k < |InPredOrder| ==> ReachedInOrder(g, InPredOrder, k)
      {
        var next := BasicBlocks[block].succs[i];
        ghost var now, order := VisitedMap, InPredOrder;
        assert next in g[block];
        if next !in VisitedMap {
          PathAppend(g, path, 0, block, next);
          PredOrderDFS(next, g, path + [next]);
          forall k | n <= k < |InPredOrder| ensures ReachedInOrder(g, InPredOrder, k) {
            if k < |order| { ReachedInOrderExtends(g, order, InPredOrder, k); }
          }
        }
        ExploringStep(g, block, before, now, i, VisitedMap);
        i := i + 1;
      }
      ExploringEnds(g, block, before, VisitedMap);
    }

    method ComputePredOrder()
      requires WellFormed(Graph())
      requires InPredOrder != [] ==> IsPreorder(Graph(), InPredOrder)
      modifies this`VisitedMap, this`InPredOrder
      ensures IsPreorder(Graph(), InPredOrder)
      ensures old(InPredOrder) != [] ==> InPredOrder == old(InPredOrder)
    {
      if InPredOrder == [] {
        VisitedMap := {};
        ghost var g := Graph();
        assert PathTo(g, [0], 0);
        PredOrderDFS(0, g, [0]);
        forall b ensures b in InPredOrder <==> Reachable(g, b) {
          ExploredReachable(g, VisitedMap, b);
          assert b in InPredOrder <==> b in Elements(InPredOrder);
        }
      }
    }

    method PostOrderDFS(block: nat, ghost g: Graph, ghost stack: seq<nat>)
      requires g == Graph() && WellFormed(g) && block !in VisitedMap && VisitedMap <= AllBlocks(g)
      requires Distinct(InPostOrder) && Elements(InPostOrder) <= VisitedMap
      requires PathTo(g, stack, block)
      requires forall k :: 0 <= k < |stack| - 1 ==> stack[k] in VisitedMap && stack[k] !in InPostOrder
      modifies this`VisitedMap, this`InPostOrder
      ensures VisitedMap <= AllBlocks(g) && Explored(g, block, old(VisitedMap), VisitedMap)
      ensures Distinct(InPostOrder) && old(InPostOrder) <= InPostOrder
      ensures Elements(InPostOrder) == old(Elements(InPostOrder)) + (VisitedMap - old(VisitedMap))
      ensures forall i :: |old(InPostOrder)| <= i < |InPostOrder| ==> DominatorsLater(g, InPostOrder, i)
      decreases AllBlocks(g) - VisitedMap
    {
      ghost var before, n, order0 := VisitedMap, |InPostOrder|, InPostOrder;
      VisitedMap := VisitedMap + {block};
      ExploringStarts(g, block, before);
      var i := 0;
      while i < |BasicBlocks[block].succs|
        invariant Exploring(g, block, before, VisitedMap, i) && VisitedMap <= AllBlocks(g)
        invariant Distinct(InPostOrder) && order0 <= InPostOrder
        invariant Elements(InPostOrder) == Elements(order0) + (VisitedMap - before - {block})
        invariant forall k :: n <= k < |InPostOrder| ==> DominatorsLater(g, InPostOrder, k)
      {
        var next := BasicBlocks[block].succs[i];
        ghost var now, order := VisitedMap, InPostOrder;
        assert next in g[block];
        if next !in VisitedMap {
          PathAppend(g, stack, 0, block, next);
          forall k | 0 <= k < |stack + [next]| - 1
            ensures (stack + [next])[k] in VisitedMap && (stack + [next])[k] !in InPostOrder
          {
            assert (stack + [next])[k] == stack[k];
            assert stack[k] !in Elements(InPostOrder);
          }
          PostOrderDFS(next, g, stack + [next]);
          forall k | n <= k < |InPostOrder| ensures DominatorsLater(g, InPostOrder, k) {
            if k < |order| { assert DominatorsLater(g, order, k); assert InPostOrder[..k] == order[..k]; }
          }
        }
        ExploringStep(g, block, before, now, i, VisitedMap);
        i := i + 1;
      }
      ExploringEnds(g, block, before, VisitedMap);
      ghost var order := InPostOrder;
      InPostOrder := InPostOrder + [block];
      assert block !in Elements(order);
      forall k | n <= k < |InPostOrder| ensures DominatorsLater(g, InPostOrder, k) {
        if k < |order| {
          assert DominatorsLater(g, order, k);
          assert InPostOrder[..k] == order[..k];
        } else {
          assert InPostOrder[..k] == order;
          forall x | SDom(g, x, block) ensures x !in order {
            assert x in stack;
            var m :| 0 <= m < |stack| && stack[m] == x;
            assert x !in Elements(order);
          }
        }
      }
    }

    method ComputePostOrder()
      requires WellFormed(Graph())
      requires InPostOrder != [] ==> IsPostorder(Graph(), InPostOrder)
      modifies this`VisitedMap, this`InPostOrder
      ensures IsPostorder(Graph(), InPostOrder)
      ensures old(InPostOrder) != [] ==> InPostOrder == old(InPostOrder)
    {
      if InPostOrder == [] {
        VisitedMap := {};
        ghost var g := Graph();
        assert PathTo(g, [0], 0);
        PostOrderDFS(0, g, [0]);
        forall b ensures b in InPostOrder <==> Reachable(g, b) {
          ExploredReachable(g, VisitedMap, b);
          assert b in InPostOrder <==> b in Elements(InPostOrder);
        }
      }
    }

    method DomDFS(block: nat, ghost g: Graph)
      requires g == Graph() && WellFormed(g) && block < |g| && VisitedMap <= AllBlocks(g)
      modifies this`VisitedMap
      ensures VisitedMap <= AllBlocks(g)
      ensures if block in old(VisitedMap) then VisitedMap == old(VisitedMap)
              else Explored(g, block, old(VisitedMap), VisitedMap)
      decreases AllBlocks(g) - VisitedMap
    {
      if block !in VisitedMap {
        ghost var before := VisitedMap;
        VisitedMap := VisitedMap + {block};
        ExploringStarts(g, block, before);
        var i := 0;
        while i < |BasicBlocks[block].succs|
          invariant Exploring(g, block, before, VisitedMap, i) && VisitedMap <= AllBlocks(g)
        {
          var next := BasicBlocks[block].succs[i];
          ghost var now := VisitedMap;
          assert next in g[block];
          if next !in VisitedMap {
            DomDFS(next, g);
          }
          ExploringStep(g, block, before, now, i, VisitedMap);
          i := i + 1;
        }
        ExploringEnds(g, block, before, VisitedMap);
      }
    }

    /** The search for `it` pre-marked leaves unmarked exactly what `it` strictly dominates. */
    method MarkAround(it: nat, ghost g: Graph)
      requires g == Graph() && WellFormed(g) && it < |g|
      modifies this`VisitedMap
      ensures forall y :: Reachable(g, y) ==> (y !in VisitedMap <==> SDom(g, it, y))
    {
      VisitedMap := {};
      VisitedMap := VisitedMap + {it};
      DomDFS(0, g);
      forall y | Reachable(g, y) ensures y !in VisitedMap <==> SDom(g, it, y) {
        DomIffCut(g, it, y);
        if it != 0 {
          ExploredExactly(g, 0, {it}, VisitedMap, y);
        } else {
          EntryDominates(g, y);
        }
      }
    }

    method ComputeDominatorTree()
      requires WellFormed(Graph()) && IsPreorder(Graph(), InPredOrder)
      requires forall x :: 0 <= x < |BasicBlocks| ==>
                 BasicBlocks[x].dominator == None && BasicBlocks[x].dominatingBlocks == []
      modifies this`VisitedMap, this`InPredOrder, this`BasicBlocks
      ensures InPredOrder == old(InPredOrder) && SameCode(old(BasicBlocks), BasicBlocks)
      ensures Graph() == old(Graph()) && HasDominatorTree(BasicBlocks)
    {
      if InPredOrder != [] {
        ComputePredOrder();
      }
      ghost var g, blocks0 := Graph(), BasicBlocks;
      var i := 0;
      while i < |InPredOrder|
        invariant i <= |InPredOrder| && InPredOrder == old(InPredOrder)
        invariant SameCode(blocks0, BasicBlocks)
        invariant forall x :: 0 <= x < |g| ==> BasicBlocks[x].dominatingBlocks == []
        invariant forall x :: 0 <= x < |g| && x !in InPredOrder ==> BasicBlocks[x].dominator == None
        invariant forall x :: 0 <= x < |g| && x in InPredOrder ==>
                    LastDominator(g, InPredOrder, i, x, BasicBlocks[x].dominator)
      {
        var it := InPredOrder[i];
        assert it in InPredOrder;
        SameCodeSameGraph(blocks0, BasicBlocks);
        assert Reachable(g, it);
        MarkAround(it, g);
        AssignDominator(it, i, g);
        i := i + 1;
      }
      SameCodeSameGraph(blocks0, BasicBlocks);
      forall x | 0 <= x < |g| ensures IsDominator(g, x, BasicBlocks[x].dominator) {
        if x in InPredOrder {
          LastDominatorIsImmediate(g, InPredOrder, x, BasicBlocks[x].dominator);
        }
      }
      ghost var blocks1 := BasicBlocks;
      assert forall x :: 0 <= x < |g| ==> IsDominator(g, x, blocks1[x].dominator);
      ListChildren();
      SameCodeSameGraph(blocks0, BasicBlocks);
      forall x | 0 <= x < |g|
        ensures BasicBlocks[x].dominatingBlocks == ChildrenBelow(BasicBlocks, x, |BasicBlocks|)
      {
        ChildrenBelowSame(blocks1, BasicBlocks, x, |g|);
      }
    }

    /** The inner loop over InPredOrder: every unmarked block gets `it` as its dominator. */
    method AssignDominator(it: nat, ghost n: nat, ghost g: Graph)
      requires g == Graph() && WellFormed(g) && IsPreorder(g, InPredOrder)
      requires n < |InPredOrder| && InPredOrder[n] == it
      requires forall y :: Reachable(g, y) ==> (y !in VisitedMap <==> SDom(g, it, y))
      requires forall x :: 0 <= x < |g| && x in InPredOrder ==>
                 LastDominator(g, InPredOrder, n, x, BasicBlocks[x].dominator)
      modifies this`BasicBlocks
      ensures SameCode(old(BasicBlocks), BasicBlocks)
      ensures forall x :: 0 <= x < |g| ==>
                BasicBlocks[x].dominatingBlocks == old(BasicBlocks)[x].dominatingBlocks
      ensures forall x :: 0 <= x < |g| && x !in InPredOrder ==>
                BasicBlocks[x].dominator == old(BasicBlocks)[x].dominator
      ensures forall x :: 0 <= x < |g| && x in InPredOrder ==>
                LastDominator(g, InPredOrder, n + 1, x, BasicBlocks[x].dominator)
    {
      ghost var blocks0 := BasicBlocks;
      var j := 0;
      while j < |InPredOrder|
        invariant j <= |InPredOrder| && |BasicBlocks| == |g|
        invariant forall x :: 0 <= x < |g| ==> BasicBlocks[x] == blocks0[x].(dominator :=
                    if x in InPredOrder[..j] && SDom(g, it, x) then Some(it) else blocks0[x].dominator)
      {
        var jt := InPredOrder[j];
        assert jt in InPredOrder && Reachable(g, jt);
        ghost var p :| PathTo(g, p, jt);
        if jt !in VisitedMap {
          BasicBlocks := BasicBlocks[jt := BasicBlocks[jt].(dominator := Some(it))];
        }
        assert InPredOrder[..j + 1] == InPredOrder[..j] + [jt];
        j := j + 1;
      }
      assert InPredOrder[..j] == InPredOrder;
      forall x | 0 <= x < |g| && x in InPredOrder
        ensures LastDominator(g, InPredOrder, n + 1, x, BasicBlocks[x].dominator)
      {
        LastDominatorStep(g, InPredOrder, n, x, blocks0[x].dominator, BasicBlocks[x].dominator);
      }
    }

    /** The last loop of ComputeDominatorTree. */
    method ListChildren()
      requires forall x :: 0 <= x < |BasicBlocks| ==> BasicBlocks[x].dominatingBlocks == []
      requires forall x :: 0 <= x < |BasicBlocks| && BasicBlocks[x].dominator.Some? ==>
                 BasicBlocks[x].dominator.value < |BasicBlocks|
      modifies this`BasicBlocks
      ensures |BasicBlocks| == |old(BasicBlocks)|
      ensures SameCode(old(BasicBlocks), BasicBlocks)
      ensures forall x :: 0 <= x < |BasicBlocks| ==>
                && BasicBlocks[x].dominator == old(BasicBlocks)[x].dominator
                && BasicBlocks[x].dominatingBlocks == ChildrenBelow(old(BasicBlocks), x, |BasicBlocks|)
    {
      ghost var blocks0 := BasicBlocks;
      var v := 0;
      while v < |BasicBlocks|
        invariant v <= |BasicBlocks| && SameCode(blocks0, BasicBlocks)
        invariant forall x :: 0 <= x < |blocks0| ==> BasicBlocks[x].dominator == blocks0[x].dominator
        invariant forall x :: 0 <= x < |blocks0| ==>
                    BasicBlocks[x].dominatingBlocks == ChildrenBelow(blocks0, x, v)
      {
        assert BasicBlocks[v].dominator == blocks0[v].dominator;
        ghost var now := BasicBlocks;
        if BasicBlocks[v].dominator.Some? {
          var d := BasicBlocks[v].dominator.value;
          BasicBlocks := BasicBlocks[d := BasicBlocks[d].(dominatingBlocks := BasicBlocks[d].dominatingBlocks + [v])];
        }
        forall x | 0 <= x < |blocks0|
          ensures BasicBlocks[x].dominatingBlocks == ChildrenBelow(blocks0, x, v + 1)
        {
          assert now[x].dominatingBlocks == ChildrenBelow(blocks0, x, v);
        }
        v := v + 1;
      }
    }

    method ComputeBaseDominanceFrontier()
      requires WellFormed(Graph()) && HasDominatorTree(BasicBlocks) && IsPostorder(Graph(), InPostOrder)
      requires DominanceFrontier != map[] ==> DominanceFrontier == FrontierTable(Graph())
      modifies this`DominanceFrontier
      ensures DominanceFrontier == FrontierTable(Graph())
    {
      if DominanceFrontier != map[] {
        return;
      }
      hide WellFormed, HasDominatorTree, IsPostorder, Frontier, FrontierTable;
      ghost var g := Graph();
      ClearFrontiers(g);
      assert DominanceFrontier == PartialTable(g, InPostOrder[..0]);
      var i := 0;
      while i < |InPostOrder|
        invariant i <= |InPostOrder|
        invariant DominanceFrontier == PartialTable(g, InPostOrder[..i])
      {
        FrontierOf(i, g);
        PartialTableStep(g, InPostOrder, i);
        i := i + 1;
      }
      assert InPostOrder[..i] == InPostOrder;
      FullTable(g, InPostOrder);
    }

    /** The first loop: every block gets an empty entry. */
    method ClearFrontiers(ghost g: Graph)
      requires g == Graph() && DominanceFrontier == map[]
      modifies this`DominanceFrontier
      ensures DominanceFrontier.Keys == AllBlocks(g)
      ensures forall x :: x in DominanceFrontier ==> DominanceFrontier[x] == {}
    {
      var b := 0;
      while b < |BasicBlocks|
        invariant b <= |BasicBlocks|
        invariant forall x: nat :: x in DominanceFrontier <==> x < b
        invariant forall x :: x in DominanceFrontier ==> DominanceFrontier[x] == {}
      {
        DominanceFrontier := DominanceFrontier[b := {}];
        b := b + 1;
      }
    }

    /** One round of the loop over InPostOrder. */
    method FrontierOf(i: nat, ghost g: Graph)
      requires g == Graph() && WellFormed(g) && HasDominatorTree(BasicBlocks) && IsPostorder(g, InPostOrder)
      requires i < |InPostOrder| && DominanceFrontier == PartialTable(g, InPostOrder[..i])
      modifies this`DominanceFrontier
      ensures DominanceFrontier == old(DominanceFrontier)[InPostOrder[i] := Frontier(g, InPostOrder[i])]
    {
      var x := InPostOrder[i];
      assert x in InPostOrder && Reachable(g, x);
      ghost var p :| PathTo(g, p, x);
      assert x in DominanceFrontier && x !in InPostOrder[..i];
      ghost var df0 := DominanceFrontier;
      AddSuccessors(x, g);
      var children := BasicBlocks[x].dominatingBlocks;
      assert DominanceFrontier[x] == Collected(g, x, children, 0);
      var c := 0;
      while c < |children|
        invariant c <= |children| && x in DominanceFrontier
        invariant DominanceFrontier == df0[x := DominanceFrontier[x]]
        invariant DominanceFrontier[x] == Collected(g, x, children, c)
      {
        var z := children[c];
        ChildMeans(BasicBlocks, g, x, z);
        PostorderDominated(g, InPostOrder, i, z);
        assert DominanceFrontier[z] == df0[z] == Frontier(g, z);
        AddFromChild(x, z, g);
        CollectedStep(g, x, children, c, DominanceFrontier[x]);
        c := c + 1;
      }
      CollectedFrontier(BasicBlocks, g, x);
    }

    /** The loop over X->Succs. */
    method AddSuccessors(x: nat, ghost g: Graph)
      requires g == Graph() && WellFormed(g) && HasDominatorTree(BasicBlocks)
      requires x < |g| && Reachable(g, x) && x in DominanceFrontier && DominanceFrontier[x] == {}
      modifies this`DominanceFrontier
      ensures x in DominanceFrontier && DominanceFrontier == old(DominanceFrontier)[x := DominanceFrontier[x]]
      ensures forall y :: y in DominanceFrontier[x] <==> y in g[x] && !IDom(g, x, y)
    {
      ghost var df0 := DominanceFrontier;
      var s := 0;
      while s < |BasicBlocks[x].succs|
        invariant s <= |BasicBlocks[x].succs| && x in DominanceFrontier
        invariant DominanceFrontier == df0[x := DominanceFrontier[x]]
        invariant forall y :: y in DominanceFrontier[x] <==>
                    y in BasicBlocks[x].succs[..s] && !IDom(g, x, y)
      {
        var y := BasicBlocks[x].succs[s];
        assert y in g[x];
        ReachableStep(g, x, y);
        DominatorMeans(BasicBlocks, g, x, y);
        if BasicBlocks[y].dominator != Some(x) {
          DominanceFrontier := DominanceFrontier[x := DominanceFrontier[x] + {y}];
        }
        s := s + 1;
      }
      assert BasicBlocks[x].succs[..s] == g[x];
    }

    /** The loop over the frontier of the child `z`. */
    method AddFromChild(x: nat, z: nat, ghost g: Graph)
      requires g == Graph() && WellFormed(g) && HasDominatorTree(BasicBlocks)
      requires x in DominanceFrontier && z in DominanceFrontier && x != z
      requires DominanceFrontier[z] == Frontier(g, z)
      modifies this`DominanceFrontier
      ensures x in DominanceFrontier && DominanceFrontier == old(DominanceFrontier)[x := DominanceFrontier[x]]
      ensures forall y :: y in DominanceFrontier[x] <==>
                y in old(DominanceFrontier)[x] || (y in Frontier(g, z) && !IDom(g, x, y))
    {
      ghost var df0 := DominanceFrontier;
      var rest := DominanceFrontier[z];
      while rest != {}
        invariant x in DominanceFrontier && DominanceFrontier == df0[x := DominanceFrontier[x]]
        invariant rest <= Frontier(g, z)
        invariant forall y :: y in DominanceFrontier[x] <==>
                    y in df0[x] || (y in Frontier(g, z) && y !in rest && !IDom(g, x, y))
        decreases rest
      {
        var y :| y in rest;
        rest := rest - {y};
        FrontierReachable(g, z, y);
        DominatorMeans(BasicBlocks, g, x, y);
        if BasicBlocks[y].dominator != Some(x) {
          DominanceFrontier := DominanceFrontier[x := DominanceFrontier[x] + {y}];
        }
      }
    }

    method GetMergedDominanceFrontierFromSubset(subset: set<nat>) returns (merged: set<nat>)
      requires WellFormed(Graph()) && HasDominatorTree(BasicBlocks) && IsPostorder(Graph(), InPostOrder)
      requires DominanceFrontier != map[] ==> DominanceFrontier == FrontierTable(Graph())
      requires subset <= AllBlocks(Graph())
      modifies this`DominanceFrontier
      ensures DominanceFrontier == FrontierTable(Graph())
      ensures merged == Merged(FrontierTable(Graph()), subset)
    {
      if DominanceFrontier == map[] {
        ComputeBaseDominanceFrontier();
      }
      merged := {};
      var rest := subset;
      while rest != {}
        invariant rest <= subset
        invariant merged == Merged(DominanceFrontier, subset - rest)
        decreases rest
      {
        var v :| v in rest;
        rest := rest - {v};
        merged := merged + DominanceFrontier[v];
      }
      assert subset - rest == subset;
    }

    method GetDominanceFrontierForSubset(subset: set<nat>) returns (result: set<nat>)
      requires WellFormed(Graph()) && HasDominatorTree(BasicBlocks) && IsPostorder(Graph(), InPostOrder)
      requires DominanceFrontier != map[] ==> DominanceFrontier == FrontierTable(Graph())
      requires subset <= AllBlocks(Graph())
      modifies this`DominanceFrontier
      ensures DominanceFrontier == FrontierTable(Graph())
      ensures IsIteratedFrontier(FrontierTable(Graph()), subset, result)
    {
      hide HasDominatorTree, IsPostorder, WellFormed, FrontierTable;
      ghost var df := FrontierTable(Graph());
      result := {};
      var dfp := GetMergedDominanceFrontierFromSubset(subset);
      var hasChanged := true;
      ghost var first := true;
      while hasChanged
        invariant DominanceFrontier == df && dfp <= df.Keys && result <= dfp
        invariant dfp <= Merged(df, subset + dfp)
        invariant if first then result == {} && dfp == Merged(df, subset) && hasChanged else result == dfp
        invariant forall u :: u <= df.Keys && Merged(df, subset + u) <= u ==> dfp <= u
        invariant !hasChanged ==> result == Merged(df, subset + result)
        decreases hasChanged, first, df.Keys - result
      {
        hasChanged := false;
        ghost var prev := dfp;
        dfp := dfp + subset;
        dfp := GetMergedDominanceFrontierFromSubset(dfp);
        assert prev + subset == subset + prev;
        MergedMonotone(df, subset + prev, subset + dfp);
        forall u | u <= df.Keys && Merged(df, subset + u) <= u ensures dfp <= u {
          MergedMonotone(df, subset + prev, subset + u);
        }
        if result != dfp {
          result := dfp;
          hasChanged := true;
        }
        first := false;
      }
    }

    method CommitAllChanges()
      requires WellFormed(Graph()) && InPredOrder == [] && InPostOrder == [] && DominanceFrontier == map[]
      requires forall x :: 0 <= x < |BasicBlocks| ==>
                 BasicBlocks[x].dominator == None && BasicBlocks[x].dominatingBlocks == []
      modifies this
      ensures SameCode(old(BasicBlocks), BasicBlocks) && Graph() == old(Graph())
      ensures HasDominatorTree(BasicBlocks) && DominanceFrontier == FrontierTable(Graph())
      ensures IsPreorder(Graph(), InPredOrder) && IsPostorder(Graph(), InPostOrder)
    {
      ComputePredOrder();
      ComputePostOrder();
      ComputeDominatorTree();
      ComputeBaseDominanceFrontier();
    }
  }
}
