/** Paths, dominators and dominance frontiers of a control flow graph, stated over paths only.
    Nothing here mentions how the compiler computes them. A graph is the list of successor
    lists of its blocks; block 0 is the entry. */
module Dominance {

  type Graph = seq<seq<nat>>

  ghost predicate WellFormed(g: Graph) {
    |g| > 0 && forall b, s :: 0 <= b < |g| && s in g[b] ==> s < |g|
  }

  ghost predicate Edge(g: Graph, a: nat, b: nat) {
    a < |g| && b < |g| && b in g[a]
  }

  /** A nonempty walk along edges. */
  ghost predicate Path(g: Graph, p: seq<nat>) {
    && |p| > 0
    && (forall i :: 0 <= i < |p| ==> p[i] < |g|)
    && (forall i, j :: 0 <= i && j == i + 1 && j < |p| ==> Edge(g, p[i], p[j]))
  }

  ghost predicate PathBetween(g: Graph, p: seq<nat>, a: nat, b: nat) {
    Path(g, p) && p[0] == a && p[|p| - 1] == b
  }

  ghost predicate PathTo(g: Graph, p: seq<nat>, b: nat) {
    PathBetween(g, p, 0, b)
  }

  ghost predicate Reachable(g: Graph, b: nat) {
    exists p :: PathTo(g, p, b)
  }

  ghost predicate Avoids(p: seq<nat>, s: set<nat>) {
    forall i :: 0 <= i < |p| ==> p[i] !in s
  }

  /** `b` can be reached from `a` without touching the blocks of `s`. */
  ghost predicate Connects(g: Graph, a: nat, b: nat, s: set<nat>) {
    exists p :: PathBetween(g, p, a, b) && Avoids(p, s)
  }

  /** `d` is on every path from the entry to `b`. */
  ghost predicate Dom(g: Graph, d: nat, b: nat) {
    forall p :: PathTo(g, p, b) ==> d in p
  }

  ghost predicate SDom(g: Graph, d: nat, b: nat) {
    d != b && Dom(g, d, b)
  }

  /** `d` is the closest strict dominator of `b`. */
  ghost predicate IDom(g: Graph, d: nat, b: nat) {
    && Reachable(g, d) && SDom(g, d, b)
    && forall e :: SDom(g, e, b) ==> Dom(g, e, d)
  }

  /** Membership of the dominance frontier of `x`. */
  ghost predicate InFrontier(g: Graph, x: nat, y: nat) {
    && y < |g|
    && !SDom(g, x, y)
    && exists q :: Reachable(g, q) && Edge(g, q, y) && Dom(g, x, q)
  }

  // ---------------------------------------------------------------- paths

  lemma PathAppend(g: Graph, p: seq<nat>, a: nat, b: nat, c: nat)
    requires PathBetween(g, p, a, b) && Edge(g, b, c)
    ensures PathBetween(g, p + [c], a, c)
  {
    var r := p + [c];
    forall i, j | 0 <= i && j == i + 1 && j < |r| ensures Edge(g, r[i], r[j]) {
      if j < |p| { assert r[i] == p[i] && r[j] == p[j]; }
    }
  }

  lemma PathPrepend(g: Graph, p: seq<nat>, a: nat, b: nat, c: nat)
    requires PathBetween(g, p, b, c) && Edge(g, a, b)
    ensures PathBetween(g, [a] + p, a, c)
  {
    var r := [a] + p;
    forall i, j | 0 <= i && j == i + 1 && j < |r| ensures Edge(g, r[i], r[j]) {
      if i > 0 { assert r[i] == p[i - 1] && r[j] == p[j - 1]; }
    }
  }

  /** Two paths that meet in a block join to one. */
  lemma PathJoin(g: Graph, p: seq<nat>, q: seq<nat>, a: nat, b: nat, c: nat)
    requires PathBetween(g, p, a, b) && PathBetween(g, q, b, c)
    ensures PathBetween(g, p + q[1..], a, c)
  {
    var r := p + q[1..];
    forall i, j | 0 <= i && j == i + 1 && j < |r| ensures Edge(g, r[i], r[j]) {
      if j < |p| {
        assert r[i] == p[i] && r[j] == p[j];
      } else {
        assert r[j] == q[j - |p| + 1];
        assert r[i] == q[i - |p| + 1];
      }
    }
  }

  lemma PathPrefix(g: Graph, p: seq<nat>, k: nat)
    requires Path(g, p) && k < |p|
    ensures PathBetween(g, p[..k + 1], p[0], p[k])
  {
    var r := p[..k + 1];
    forall i, j | 0 <= i && j == i + 1 && j < |r| ensures Edge(g, r[i], r[j]) {
      assert r[i] == p[i] && r[j] == p[j];
    }
  }

  lemma PathSuffix(g: Graph, p: seq<nat>, k: nat)
    requires Path(g, p) && k < |p|
    ensures PathBetween(g, p[k..], p[k], p[|p| - 1])
  {
    var r := p[k..];
    forall i, j | 0 <= i && j == i + 1 && j < |r| ensures Edge(g, r[i], r[j]) {
      assert r[i] == p[i + k] && r[j] == p[j + k];
    }
  }

  lemma ReachableStep(g: Graph, a: nat, b: nat)
    requires Reachable(g, a) && Edge(g, a, b)
    ensures Reachable(g, b)
  {
    var p :| PathTo(g, p, a);
    PathAppend(g, p, 0, a, b);
    assert PathTo(g, p + [b], b);
  }

  lemma ReachableOnPath(g: Graph, p: seq<nat>, k: nat)
    requires Path(g, p) && p[0] == 0 && k < |p|
    ensures Reachable(g, p[k])
  {
    PathPrefix(g, p, k);
    assert PathTo(g, p[..k + 1], p[k]);
  }

  lemma EntryReachable(g: Graph)
    requires |g| > 0
    ensures Reachable(g, 0)
  {
    assert PathTo(g, [0], 0);
  }

  lemma LastIndex(p: seq<nat>, x: nat) returns (k: nat)
    requires x in p
    ensures k < |p| && p[k] == x && forall i :: k < i < |p| ==> p[i] != x
  {
    k := |p| - 1;
    while p[k] != x
      invariant k < |p| && x in p[..k + 1]
      invariant forall i :: k < i < |p| ==> p[i] != x
      decreases k
    {
      k := k - 1;
    }
  }

  // ---------------------------------------------------------------- dominance is a tree order

  lemma DomReflexive(g: Graph, b: nat)
    ensures Dom(g, b, b)
  {
    forall p | PathTo(g, p, b) ensures b in p { assert p[|p| - 1] == b; }
  }

  lemma DomTransitive(g: Graph, a: nat, b: nat, c: nat)
    requires Dom(g, a, b) && Dom(g, b, c)
    ensures Dom(g, a, c)
  {
    forall p | PathTo(g, p, c) ensures a in p {
      assert b in p;
      var k :| 0 <= k < |p| && p[k] == b;
      PathPrefix(g, p, k);
      assert a in p[..k + 1];
    }
  }

  lemma DominatorReachable(g: Graph, a: nat, b: nat)
    requires Reachable(g, b) && Dom(g, a, b)
    ensures Reachable(g, a)
  {
    var p :| PathTo(g, p, b);
    assert a in p;
    var k :| 0 <= k < |p| && p[k] == a;
    ReachableOnPath(g, p, k);
  }

  lemma DomAntisymmetric(g: Graph, a: nat, b: nat)
    requires Reachable(g, b) && Dom(g, a, b) && Dom(g, b, a)
    ensures a == b
  {
    var p :| PathTo(g, p, b);
    NoMutualOnPath(g, a, b, p);
  }

  lemma NoMutualOnPath(g: Graph, a: nat, b: nat, p: seq<nat>)
    requires PathTo(g, p, b) && Dom(g, a, b) && Dom(g, b, a)
    ensures a == b
    decreases |p|
  {
    if a != b {
      assert a in p;
      var k :| 0 <= k < |p| && p[k] == a;
      PathPrefix(g, p, k);
      assert b in p[..k + 1];
      var l :| 0 <= l < |p[..k + 1]| && p[..k + 1][l] == b;
      PathPrefix(g, p, l);
      NoMutualOnPath(g, a, b, p[..l + 1]);
    }
  }

  lemma EntryDominates(g: Graph, b: nat)
    ensures Dom(g, 0, b)
  {
    forall p | PathTo(g, p, b) ensures 0 in p { assert p[0] == 0; }
  }

  /** Dominating a block is the same as cutting it off from the entry. */
  lemma DomIffCut(g: Graph, d: nat, b: nat)
    ensures Dom(g, d, b) <==> !Connects(g, 0, b, {d})
  {
    if !Dom(g, d, b) {
      var p :| PathTo(g, p, b) && d !in p;
      assert Avoids(p, {d});
    }
    if Connects(g, 0, b, {d}) {
      var p :| PathBetween(g, p, 0, b) && Avoids(p, {d});
      assert d !in p;
    }
  }

  /** If `c` lies on a path to `b` and `a` does not occur after it, `a` already dominates `c`. */
  lemma DomThroughLast(g: Graph, a: nat, c: nat, b: nat, p: seq<nat>, k: nat)
    requires PathTo(g, p, b) && k < |p| && p[k] == c
    requires Dom(g, a, b) && forall i :: k < i < |p| ==> p[i] != a
    ensures Dom(g, a, c)
  {
    PathSuffix(g, p, k);
    forall q | PathTo(g, q, c) ensures a in q {
      PathJoin(g, q, p[k..], 0, c, b);
      assert a in q + p[k..][1..];
      assert p[k..][1..] == p[k + 1..];
    }
  }

  /** The dominators of a block form a chain. */
  lemma DomChain(g: Graph, a: nat, c: nat, b: nat)
    requires Reachable(g, b) && Dom(g, a, b) && Dom(g, c, b)
    ensures Dom(g, a, c) || Dom(g, c, a)
  {
    var p :| PathTo(g, p, b);
    var i := LastIndex(p, a);
    var j := LastIndex(p, c);
    if i <= j {
      DomThroughLast(g, a, c, b, p, j);
    } else {
      DomThroughLast(g, c, a, b, p, i);
    }
  }

  /** A strict dominator of a block dominates each of its reachable predecessors. */
  lemma SDomOfPredecessor(g: Graph, d: nat, q: nat, y: nat)
    requires Edge(g, q, y) && SDom(g, d, y)
    ensures Dom(g, d, q)
  {
    forall p | PathTo(g, p, q) ensures d in p {
      PathAppend(g, p, 0, q, y);
      assert d in p + [y];
    }
  }

  lemma SDomTransitive(g: Graph, a: nat, b: nat, c: nat)
    requires Reachable(g, c) && Dom(g, a, b) && Dom(g, b, c)
    requires a != b || b != c
    ensures SDom(g, a, c)
  {
    DomTransitive(g, a, b, c);
    if a == c { DominatorReachable(g, b, c); DomAntisymmetric(g, a, b); }
  }

  lemma IDomUnique(g: Graph, d: nat, e: nat, b: nat)
    requires Reachable(g, b) && IDom(g, d, b) && IDom(g, e, b)
    ensures d == e
  {
    DomAntisymmetric(g, d, e);
  }

  /** Every reachable block but the entry has an immediate dominator, met on any path before it. */
  lemma IDomExists(g: Graph, b: nat, p: seq<nat>) returns (d: nat, k: nat)
    requires b != 0 && PathTo(g, p, b)
    ensures IDom(g, d, b) && k < |p| - 1 && p[k] == d
  {
    EntryDominates(g, b);
    k := |p| - 1;
    while !SDom(g, p[k], b)
      invariant k < |p| && exists i :: 0 <= i <= k && SDom(g, p[i], b)
      invariant forall i :: k < i < |p| ==> !SDom(g, p[i], b)
      decreases k
    {
      k := k - 1;
    }
    d := p[k];
    ReachableOnPath(g, p, k);
    forall e | SDom(g, e, b) ensures Dom(g, e, d) { DomThroughLast(g, e, d, b, p, k); }
  }

  /** Below a strict dominator `x` of `q`, one dominator-tree child of `x` dominates `q`. */
  lemma ChildTowards(g: Graph, x: nat, q: nat, p: seq<nat>) returns (z: nat)
    requires PathTo(g, p, q) && SDom(g, x, q)
    ensures IDom(g, x, z) && Dom(g, z, q) && Reachable(g, z)
    decreases |p|
  {
    if q == 0 {
      assert PathTo(g, [0], 0);
      assert false;
    }
    var d, k := IDomExists(g, q, p);
    if d == x {
      z := q;
      DomReflexive(g, q);
      ReachableOnPath(g, p, |p| - 1);
    } else {
      PathPrefix(g, p, k);
      z := ChildTowards(g, x, d, p[..k + 1]);
      DomTransitive(g, z, d, q);
    }
  }

  // ---------------------------------------------------------------- Cytron's two frontier equations

  /** A successor of `x` is in the frontier of `x` unless `x` is its immediate dominator. */
  lemma FrontierLocal(g: Graph, x: nat, y: nat)
    requires Reachable(g, x) && Edge(g, x, y)
    ensures InFrontier(g, x, y) <==> !IDom(g, x, y)
  {
    DomReflexive(g, x);
    ReachableStep(g, x, y);
    if SDom(g, x, y) {
      forall e | SDom(g, e, y) ensures Dom(g, e, x) { SDomOfPredecessor(g, e, x, y); }
    }
  }

  /** A frontier block of the child `z` of `x` is in the frontier of `x` unless `x` is its
      immediate dominator. */
  lemma FrontierUp(g: Graph, x: nat, z: nat, y: nat)
    requires Reachable(g, z) && IDom(g, x, z) && InFrontier(g, z, y)
    ensures InFrontier(g, x, y) <==> !IDom(g, x, y)
  {
    var q :| Reachable(g, q) && Edge(g, q, y) && Dom(g, z, q);
    DomTransitive(g, x, z, q);
    ReachableStep(g, q, y);
    if SDom(g, x, y) {
      forall e | SDom(g, e, y) ensures Dom(g, e, x) {
        SDomOfPredecessor(g, e, q, y);
        DomChain(g, e, z, q);
        if Dom(g, z, e) {
          DomTransitive(g, z, e, y);
          assert z == y;
          DomAntisymmetric(g, e, y);
        } else {
          DomReflexive(g, z);
          assert SDom(g, e, z);
        }
      }
    }
  }

  /** Every frontier block comes from a successor of `x` or from the frontier of a child of `x`. */
  lemma FrontierDown(g: Graph, x: nat, y: nat, q: nat, z: nat)
    requires Reachable(g, q) && Edge(g, q, y) && !SDom(g, x, y)
    requires Reachable(g, z) && IDom(g, x, z) && Dom(g, z, q)
    ensures InFrontier(g, z, y)
  {
    ReachableStep(g, q, y);
    if SDom(g, z, y) { SDomTransitive(g, x, z, y); }
  }
}
