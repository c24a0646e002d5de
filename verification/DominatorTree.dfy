/** The dominator tree that the graph stores, seen as a tree: subtrees, siblings, chains. */
module DominatorTree {
  import opened Ir
  import opened Dominance
  import opened Cfg

  ghost predicate TreeOk(blocks: seq<CFGBlock>) {
    WellFormed(SuccsOf(blocks)) && HasDominatorTree(blocks)
  }

  ghost predicate IsBelow(g: Graph, x: nat, y: nat) {
    Reachable(g, y) && Dom(g, x, y)
  }

  /** The blocks that `x` dominates. */
  ghost function Below(g: Graph, x: nat): (r: set<nat>) {
    set y: nat | y < |g| && IsBelow(g, x, y)
  }

  lemma ReachableInRange(g: Graph, y: nat)
    requires Reachable(g, y)
    ensures y < |g|
  {
    var p :| PathTo(g, p, y);
  }

  lemma BelowSelf(g: Graph, x: nat)
    requires Reachable(g, x)
    ensures x in Below(g, x)
  {
    ReachableInRange(g, x);
    DomReflexive(g, x);
  }

  /** The subtree of a child is a proper part of the subtree of its parent. */
  lemma ChildBelow(g: Graph, x: nat, z: nat)
    requires Reachable(g, z) && IDom(g, x, z)
    ensures Below(g, z) < Below(g, x) && x !in Below(g, z)
  {
    forall y | y in Below(g, z) ensures y in Below(g, x) { DomTransitive(g, x, z, y); }
    BelowSelf(g, x);
    if x in Below(g, z) { DomAntisymmetric(g, x, z); }
  }

  lemma SiblingsDisjoint(g: Graph, x: nat, z: nat, w: nat)
    requires Reachable(g, z) && Reachable(g, w) && IDom(g, x, z) && IDom(g, x, w) && z != w
    ensures Below(g, z) !! Below(g, w)
  {
    forall y | y in Below(g, z) && y in Below(g, w) ensures false {
      DomChain(g, z, w, y);
      if Dom(g, z, w) {
        DomAntisymmetric(g, x, z);
      } else {
        DomAntisymmetric(g, x, w);
      }
    }
  }

  function Children(blocks: seq<CFGBlock>, x: nat): seq<nat>
    requires x < |blocks|
  {
    blocks[x].dominatingBlocks
  }

  lemma ChildFacts(blocks: seq<CFGBlock>, x: nat, k: nat)
    requires TreeOk(blocks) && x < |blocks| && k < |Children(blocks, x)|
    ensures var g, z := SuccsOf(blocks), Children(blocks, x)[k];
            && z < |blocks| && Reachable(g, z) && IDom(g, x, z)
            && Below(g, z) < Below(g, x) && x !in Below(g, z)
  {
    var z := Children(blocks, x)[k];
    assert z in blocks[x].dominatingBlocks;
    ChildMeans(blocks, SuccsOf(blocks), x, z);
    ChildBelow(SuccsOf(blocks), x, z);
  }

  lemma ChildrenDistinct(blocks: seq<CFGBlock>, x: nat, j: nat, k: nat)
    requires TreeOk(blocks) && x < |blocks| && j < k < |Children(blocks, x)|
    ensures Children(blocks, x)[j] < Children(blocks, x)[k]
    ensures var g := SuccsOf(blocks); Below(g, Children(blocks, x)[j]) !! Below(g, Children(blocks, x)[k])
  {
    ChildrenBelowMembers(blocks, x, |blocks|);
    ChildFacts(blocks, x, j);
    ChildFacts(blocks, x, k);
    SiblingsDisjoint(SuccsOf(blocks), x, Children(blocks, x)[j], Children(blocks, x)[k]);
  }

  /** The union of the subtrees of the first `k` children. */
  ghost function BelowChildren(blocks: seq<CFGBlock>, x: nat, k: nat): (r: set<nat>)
    requires x < |blocks| && k <= |Children(blocks, x)|
  {
    if k == 0 then {} else BelowChildren(blocks, x, k - 1) + Below(SuccsOf(blocks), Children(blocks, x)[k - 1])
  }

  lemma BelowChildrenMember(blocks: seq<CFGBlock>, x: nat, k: nat, y: nat)
    requires x < |blocks| && k <= |Children(blocks, x)|
    ensures y in BelowChildren(blocks, x, k) <==>
            exists j :: 0 <= j < k && y in Below(SuccsOf(blocks), Children(blocks, x)[j])
  {
    if k > 0 { BelowChildrenMember(blocks, x, k - 1, y); }
  }

  /** A subtree is its root and the subtrees of its children. */
  lemma BelowSplits(blocks: seq<CFGBlock>, x: nat)
    requires TreeOk(blocks) && x < |blocks| && Reachable(SuccsOf(blocks), x)
    ensures var g, n := SuccsOf(blocks), |Children(blocks, x)|;
            Below(g, x) == {x} + BelowChildren(blocks, x, n)
  {
    var g, n := SuccsOf(blocks), |Children(blocks, x)|;
    BelowSelf(g, x);
    forall y ensures y in Below(g, x) <==> y == x || y in BelowChildren(blocks, x, n) {
      BelowChildrenMember(blocks, x, n, y);
      if y in Below(g, x) && y != x {
        var p :| PathTo(g, p, y);
        var z := ChildTowards(g, x, y, p);
        ChildListed(blocks, g, x, z);
        var j :| 0 <= j < n && Children(blocks, x)[j] == z;
        assert y in Below(g, Children(blocks, x)[j]);
      }
      if y in BelowChildren(blocks, x, n) {
        var j :| 0 <= j < n && y in Below(g, Children(blocks, x)[j]);
        ChildFacts(blocks, x, j);
      }
    }
  }

  /** Before it is visited, the subtree of child `k` is apart from what was visited. */
  lemma NextChildApart(blocks: seq<CFGBlock>, x: nat, k: nat)
    requires TreeOk(blocks) && x < |blocks| && k < |Children(blocks, x)|
    ensures BelowChildren(blocks, x, k) !! Below(SuccsOf(blocks), Children(blocks, x)[k])
  {
    var g := SuccsOf(blocks);
    forall y | y in BelowChildren(blocks, x, k) ensures y !in Below(g, Children(blocks, x)[k]) {
      BelowChildrenMember(blocks, x, k, y);
      var j :| 0 <= j < k && y in Below(g, Children(blocks, x)[j]);
      ChildrenDistinct(blocks, x, j, k);
    }
  }

  lemma BelowChildrenMore(blocks: seq<CFGBlock>, x: nat, k: nat)
    requires TreeOk(blocks) && x < |blocks| && k < |Children(blocks, x)|
    ensures Below(SuccsOf(blocks), Children(blocks, x)[k]) <= BelowChildren(blocks, x, |Children(blocks, x)|)
  {
    var n, z := |Children(blocks, x)|, Children(blocks, x)[k];
    forall y | y in Below(SuccsOf(blocks), z) ensures y in BelowChildren(blocks, x, n) {
      BelowChildrenMember(blocks, x, n, y);
    }
  }

  lemma RootApart(blocks: seq<CFGBlock>, x: nat)
    requires TreeOk(blocks) && x < |blocks|
    ensures x !in BelowChildren(blocks, x, |Children(blocks, x)|)
  {
    var n := |Children(blocks, x)|;
    BelowChildrenMember(blocks, x, n, x);
    if x in BelowChildren(blocks, x, n) {
      var j :| 0 <= j < n && x in Below(SuccsOf(blocks), Children(blocks, x)[j]);
      ChildFacts(blocks, x, j);
    }
  }
}
