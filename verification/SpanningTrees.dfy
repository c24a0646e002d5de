/** Weighted undirected graphs as adjacency lists, their spanning trees, and the exchange step that
    lets a cheapest edge out of a set of vertices enter a spanning tree without raising its weight. */
module SpanningTrees {

  datatype Edge = Edge(u: int, v: int, weight: int)

  /** For each vertex the list of (neighbour, weight). */
  type Adjacency = seq<seq<(int, int)>>

  ghost predicate HasEdge(g: Adjacency, e: Edge) {
    0 <= e.u < |g| && (e.v, e.weight) in g[e.u]
  }

  /** Neighbours exist, and every edge is listed at both ends. */
  ghost predicate Undirected(g: Adjacency) {
    forall u, x :: 0 <= u < |g| && x in g[u] ==> 0 <= x.0 < |g| && (u, x.1) in g[x.0]
  }

  // ---------------------------------------------------------------- connection by a list of edges

  ghost predicate Joins(t: seq<Edge>, j: int, a: int, b: int) {
    0 <= j < |t| && ((t[j].u == a && t[j].v == b) || (t[j].u == b && t[j].v == a))
  }

  ghost predicate Adjacent(t: seq<Edge>, a: int, b: int) {
    exists j :: Joins(t, j, a, b)
  }

  ghost predicate IsPath(t: seq<Edge>, p: seq<int>) {
    |p| > 0 && forall i :: 0 < i < |p| ==> Adjacent(t, p[i - 1], p[i])
  }

  ghost predicate PathBetween(t: seq<Edge>, p: seq<int>, a: int, b: int) {
    IsPath(t, p) && p[0] == a && p[|p| - 1] == b
  }

  ghost predicate Connected(t: seq<Edge>, a: int, b: int) {
    exists p :: PathBetween(t, p, a, b)
  }

  /** A choice of one edge fewer than there are vertices that connects them all. */
  ghost predicate SpanningTree(g: Adjacency, t: seq<Edge>) {
    && |t| == |g| - 1
    && (forall i :: 0 <= i < |t| ==> HasEdge(g, t[i]))
    && (forall v :: 0 <= v < |g| ==> Connected(t, 0, v))
  }

  function Weight(t: seq<Edge>): (w: int) {
    if t == [] then 0 else Weight(t[..|t| - 1]) + t[|t| - 1].weight
  }

  lemma ConnectedSelf(t: seq<Edge>, a: int)
    ensures Connected(t, a, a)
  {
    assert PathBetween(t, [a], a, a);
  }

  lemma AdjacentConnected(t: seq<Edge>, j: int, a: int, b: int)
    requires Joins(t, j, a, b)
    ensures Connected(t, a, b)
  {
    assert PathBetween(t, [a, b], a, b);
  }

  lemma ConnectedBack(t: seq<Edge>, a: int, b: int)
    requires Connected(t, a, b)
    ensures Connected(t, b, a)
  {
    var p :| PathBetween(t, p, a, b);
    var q := seq(|p|, i requires 0 <= i < |p| => p[|p| - 1 - i]);
    forall i | 0 < i < |q| ensures Adjacent(t, q[i - 1], q[i]) {
      assert Adjacent(t, p[|p| - 1 - i], p[|p| - i]);
      var j :| Joins(t, j, p[|p| - 1 - i], p[|p| - i]);
      assert Joins(t, j, q[i - 1], q[i]);
    }
    assert PathBetween(t, q, b, a);
  }

  lemma ConnectedOn(t: seq<Edge>, a: int, b: int, c: int)
    requires Connected(t, a, b) && Connected(t, b, c)
    ensures Connected(t, a, c)
  {
    var p :| PathBetween(t, p, a, b);
    var q :| PathBetween(t, q, b, c);
    var r := p + q[1..];
    forall i | 0 < i < |r| ensures Adjacent(t, r[i - 1], r[i]) {
      if i >= |p| { assert r[i] == q[i - |p| + 1] && r[i - 1] == q[i - |p|]; }
    }
    assert PathBetween(t, r, a, c);
  }

  /** If the ends of every edge of `t` are connected by `t'`, then so is everything that `t` connects. */
  lemma {:induction false} Substitute(t: seq<Edge>, t': seq<Edge>, p: seq<int>)
    requires IsPath(t, p) && forall j :: 0 <= j < |t| ==> Connected(t', t[j].u, t[j].v)
    ensures Connected(t', p[0], p[|p| - 1])
    decreases |p|
  {
    if |p| == 1 {
      ConnectedSelf(t', p[0]);
    } else {
      var n := |p| - 1;
      assert Adjacent(t, p[n - 1], p[n]);
      Substitute(t, t', p[..n]);
      var j :| Joins(t, j, p[n - 1], p[n]);
      if t[j].u == p[n] { ConnectedBack(t', p[n], p[n - 1]); }
      ConnectedOn(t', p[0], p[n - 1], p[n]);
    }
  }

  lemma {:induction false} WeightUpdate(t: seq<Edge>, i: int, e: Edge)
    requires 0 <= i < |t|
    ensures Weight(t[i := e]) == Weight(t) - t[i].weight + e.weight
  {
    var n := |t| - 1;
    if i == n {
      assert t[i := e][..n] == t[..n];
    } else {
      assert t[i := e][..n] == t[..n][i := e];
      WeightUpdate(t[..n], i, e);
    }
  }

  // ---------------------------------------------------------------- growing a tree

  /** `tree` gives each vertex taken so far, other than the first, the edge that brought it in. A list
      of edges agrees with it when edge number `v - 1` is the one of vertex `v`. */
  ghost predicate Agrees(t: seq<Edge>, tree: map<int, Edge>) {
    forall v :: v in tree ==> 0 < v <= |t| && t[v - 1] == tree[v]
  }

  /** Whatever agrees with the tree connects its vertices to vertex 0. */
  ghost predicate Spans(tree: map<int, Edge>, n: int) {
    forall t, v :: |t| == n - 1 && Agrees(t, tree) && v in tree ==> Connected(t, 0, v)
  }

  /** Vertex 0 and the vertices of the tree. */
  ghost predicate Taken(tree: map<int, Edge>, v: int) {
    v == 0 || v in tree
  }

  ghost predicate TreeInside(tree: map<int, Edge>) {
    forall v :: v in tree ==> v > 0 && tree[v].v == v && Taken(tree, tree[v].u)
  }

  ghost predicate NoHeavier(g: Adjacency, tree: map<int, Edge>, t: seq<Edge>, t': seq<Edge>) {
    SpanningTree(g, t') && Agrees(t', tree) && Weight(t') <= Weight(t)
  }

  ghost predicate CanAgree(g: Adjacency, tree: map<int, Edge>, t: seq<Edge>) {
    exists t' :: NoHeavier(g, tree, t, t')
  }

  /** Every spanning tree can be changed into one that agrees with the tree and is no heavier. */
  ghost predicate Promising(g: Adjacency, tree: map<int, Edge>) {
    forall t :: SpanningTree(g, t) ==> CanAgree(g, tree, t)
  }

  lemma EmptyTree(g: Adjacency)
    ensures Promising(g, map[]) && Spans(map[], |g|) && TreeInside(map[])
  {
    forall t | SpanningTree(g, t) ensures CanAgree(g, map[], t) {
      assert NoHeavier(g, map[], t, t);
    }
  }

  lemma GrowSpans(tree: map<int, Edge>, n: int, v: int, e: Edge)
    requires Spans(tree, n) && 0 < v < n && v !in tree && e.v == v && Taken(tree, e.u)
    ensures Spans(tree[v := e], n)
  {
    var tree' := tree[v := e];
    forall t, x | |t| == n - 1 && Agrees(t, tree') && x in tree' ensures Connected(t, 0, x) {
      assert Agrees(t, tree) by {
        forall y | y in tree ensures 0 < y <= |t| && t[y - 1] == tree[y] { assert y in tree' && tree'[y] == tree[y]; }
      }
      if x == v {
        assert t[v - 1] == e;
        if e.u == 0 { ConnectedSelf(t, 0); }
        AdjacentConnected(t, v - 1, e.u, v);
        ConnectedOn(t, 0, e.u, v);
      }
    }
  }

  /** The last edge by which a path leaves the taken vertices: after it the path stays outside. */
  lemma {:induction false} LastExit(t: seq<Edge>, tree: map<int, Edge>, p: seq<int>) returns (k: int)
    requires IsPath(t, p) && Taken(tree, p[0]) && !Taken(tree, p[|p| - 1])
    ensures 0 < k < |p| && Taken(tree, p[k - 1]) && forall i :: k <= i < |p| ==> !Taken(tree, p[i])
  {
    k := |p| - 1;
    while !Taken(tree, p[k - 1])
      invariant 0 < k < |p| && forall i :: k <= i < |p| ==> !Taken(tree, p[i])
      decreases k
    {
      k := k - 1;
    }
  }

  /** The exchange: edge number `j` makes room for the edge `e` of vertex `v`. */
  ghost function Exchanged(t: seq<Edge>, j: int, v: int, e: Edge): (t': seq<Edge>)
    requires 0 <= j < |t| && 0 < v <= |t|
    ensures |t'| == |t|
  {
    t[j := t[v - 1]][v - 1 := e]
  }

  lemma ExchangedWeight(t: seq<Edge>, j: int, v: int, e: Edge)
    requires 0 <= j < |t| && 0 < v <= |t|
    ensures Weight(Exchanged(t, j, v, e)) == Weight(t) - t[j].weight + e.weight
  {
    WeightUpdate(t, j, t[v - 1]);
    WeightUpdate(t[j := t[v - 1]], v - 1, e);
  }

  /** All edges but number `j` are still there. */
  lemma ExchangedJoins(t: seq<Edge>, j: int, v: int, e: Edge, i: int)
    requires 0 <= j < |t| && 0 < v <= |t| && 0 <= i < |t| && i != j
    ensures Connected(Exchanged(t, j, v, e), t[i].u, t[i].v)
  {
    var t' := Exchanged(t, j, v, e);
    AdjacentConnected(t', if i == v - 1 then j else i, t[i].u, t[i].v);
  }

  lemma ExchangedAgrees(t: seq<Edge>, tree: map<int, Edge>, j: int, v: int, e: Edge)
    requires Agrees(t, tree) && 0 <= j < |t| && 0 < v <= |t| && v !in tree && j + 1 !in tree
    ensures Agrees(Exchanged(t, j, v, e), tree[v := e])
  {
  }

  /** The part of the path after the exit does not use the edge that left. */
  lemma OutsideStays(t: seq<Edge>, tree: map<int, Edge>, j: int, v: int, e: Edge, p: seq<int>)
    requires IsPath(t, p) && 0 <= j < |t| && 0 < v <= |t| && (Taken(tree, t[j].u) || Taken(tree, t[j].v))
    requires forall i :: 0 <= i < |p| ==> !Taken(tree, p[i])
    ensures PathBetween(Exchanged(t, j, v, e), p, p[0], p[|p| - 1])
  {
    var t' := Exchanged(t, j, v, e);
    forall i | 0 < i < |p| ensures Adjacent(t', p[i - 1], p[i]) {
      var k :| Joins(t, k, p[i - 1], p[i]);
      assert k != j;
      assert Joins(t', if k == v - 1 then j else k, p[i - 1], p[i]);
    }
  }

  /** `e` joins `v` to a taken vertex at no more than the weight of any edge out of the taken ones. */
  ghost predicate Cheapest(g: Adjacency, tree: map<int, Edge>, v: int, e: Edge) {
    && 0 < v < |g| && v !in tree && e.v == v && Taken(tree, e.u) && HasEdge(g, e)
    && forall f :: HasEdge(g, f) && Taken(tree, f.u) && !Taken(tree, f.v) ==> e.weight <= f.weight
  }

  lemma BothWays(g: Adjacency, f: Edge)
    requires Undirected(g) && HasEdge(g, f)
    ensures HasEdge(g, Edge(f.v, f.u, f.weight))
  {
    assert (f.v, f.weight) in g[f.u];
  }

  lemma CrossingCosts(g: Adjacency, tree: map<int, Edge>, v: int, e: Edge, f: Edge, x: int, y: int)
    requires Undirected(g) && Cheapest(g, tree, v, e) && HasEdge(g, f)
    requires (f.u == x && f.v == y) || (f.u == y && f.v == x)
    requires Taken(tree, x) && !Taken(tree, y)
    ensures e.weight <= f.weight
  {
    BothWays(g, f);
    if f.u == y { assert HasEdge(g, Edge(x, y, f.weight)); }
  }

  /** The tree's own edges stay inside, so an edge that leaves is none of them. */
  lemma TreeEdgeInside(t: seq<Edge>, tree: map<int, Edge>, j: int, x: int, y: int)
    requires Agrees(t, tree) && TreeInside(tree) && Joins(t, j, x, y)
    ensures j + 1 in tree ==> Taken(tree, y)
  {
    if j + 1 in tree { assert t[j] == tree[j + 1]; }
  }

  /** Where to make room in `t`: an edge out of the taken vertices whose outer end `t` connects to `v`
      from outside. */
  lemma FindExit(g: Adjacency, tree: map<int, Edge>, t: seq<Edge>, v: int) returns (j: int, x: int, y: int, q: seq<int>)
    requires SpanningTree(g, t) && 0 < v < |g| && v !in tree
    ensures Joins(t, j, x, y) && Taken(tree, x) && !Taken(tree, y)
    ensures PathBetween(t, q, y, v) && forall i :: 0 <= i < |q| ==> !Taken(tree, q[i])
  {
    assert Connected(t, 0, v);
    var p :| PathBetween(t, p, 0, v);
    var k := LastExit(t, tree, p);
    x, y, q := p[k - 1], p[k], p[k..];
    assert Adjacent(t, p[k - 1], p[k]);
    j :| Joins(t, j, x, y);
    forall i | 0 < i < |q| ensures Adjacent(t, q[i - 1], q[i]) { assert q[i - 1] == p[k + i - 1] && q[i] == p[k + i]; }
  }

  lemma TakenConnected(tree: map<int, Edge>, n: int, t: seq<Edge>, x: int)
    requires Spans(tree, n) && |t| == n - 1 && Agrees(t, tree) && Taken(tree, x)
    ensures Connected(t, 0, x)
  {
    if x == 0 { ConnectedSelf(t, 0); }
  }

  /** The ends of the edge that left are still connected. */
  lemma ExitConnected(g: Adjacency, tree: map<int, Edge>, t': seq<Edge>, v: int, x: int, y: int)
    requires |t'| == |g| - 1 && Spans(tree, |g|) && Agrees(t', tree)
    requires Taken(tree, x) && v in tree && Connected(t', y, v)
    ensures Connected(t', x, y)
  {
    TakenConnected(tree, |g|, t', x);
    TakenConnected(tree, |g|, t', v);
    ConnectedBack(t', y, v);
    ConnectedOn(t', 0, v, y);
    ConnectedBack(t', 0, x);
    ConnectedOn(t', x, 0, y);
  }

  lemma StillSpanning(g: Adjacency, t: seq<Edge>, t': seq<Edge>)
    requires SpanningTree(g, t) && |t'| == |t| && (forall i :: 0 <= i < |t'| ==> HasEdge(g, t'[i]))
    requires forall j :: 0 <= j < |t| ==> Connected(t', t[j].u, t[j].v)
    ensures SpanningTree(g, t')
  {
    forall v | 0 <= v < |g| ensures Connected(t', 0, v) {
      assert Connected(t, 0, v);
      var p :| PathBetween(t, p, 0, v);
      Substitute(t, t', p);
    }
  }

  lemma ExchangedConnected(g: Adjacency, tree: map<int, Edge>, t: seq<Edge>, v: int, e: Edge,
                           j: int, x: int, y: int, q: seq<int>, i: int)
    requires SpanningTree(g, t) && Agrees(t, tree) && Spans(tree, |g|) && Cheapest(g, tree, v, e)
    requires Joins(t, j, x, y) && Taken(tree, x) && !Taken(tree, y) && j + 1 !in tree && 0 <= i < |t|
    requires PathBetween(t, q, y, v) && forall i :: 0 <= i < |q| ==> !Taken(tree, q[i])
    ensures Connected(Exchanged(t, j, v, e), t[i].u, t[i].v)
  {
    if i != j {
      ExchangedJoins(t, j, v, e, i);
    } else {
      var t', tree' := Exchanged(t, j, v, e), tree[v := e];
      OutsideStays(t, tree, j, v, e, q);
      GrowSpans(tree, |g|, v, e);
      ExchangedAgrees(t, tree, j, v, e);
      ExitConnected(g, tree', t', v, x, y);
      ConnectedBack(t', x, y);
    }
  }

  /** The exchange gives a spanning tree that is no heavier and agrees with the grown tree. */
  lemma Exchange(g: Adjacency, tree: map<int, Edge>, t: seq<Edge>, v: int, e: Edge) returns (t': seq<Edge>)
    requires Undirected(g) && SpanningTree(g, t) && Agrees(t, tree) && Spans(tree, |g|) && TreeInside(tree)
    requires Cheapest(g, tree, v, e)
    ensures SpanningTree(g, t') && Agrees(t', tree[v := e]) && Weight(t') <= Weight(t)
  {
    var j, x, y, q := FindExit(g, tree, t, v);
    hide Spans, Agrees, PathBetween, Connected, SpanningTree, Cheapest, TreeInside, Taken;
    t' := ExchangeAt(g, tree, t, v, e, j, x, y, q);
  }

  lemma ExchangeAt(g: Adjacency, tree: map<int, Edge>, t: seq<Edge>, v: int, e: Edge,
                   j: int, x: int, y: int, q: seq<int>) returns (t': seq<Edge>)
    requires Undirected(g) && SpanningTree(g, t) && Agrees(t, tree) && Spans(tree, |g|) && TreeInside(tree)
    requires Cheapest(g, tree, v, e)
    requires Joins(t, j, x, y) && Taken(tree, x) && !Taken(tree, y)
    requires PathBetween(t, q, y, v) && forall i :: 0 <= i < |q| ==> !Taken(tree, q[i])
    ensures SpanningTree(g, t') && Agrees(t', tree[v := e]) && Weight(t') <= Weight(t)
  {
    hide Spans, PathBetween, Connected, Undirected, TreeInside, Weight, Taken;
    TreeEdgeInside(t, tree, j, x, y);
    t' := Exchanged(t, j, v, e);
    ExchangedAgrees(t, tree, j, v, e);
    CrossingCosts(g, tree, v, e, t[j], x, y);
    ExchangedWeight(t, j, v, e);
    forall i | 0 <= i < |t| ensures Connected(t', t[i].u, t[i].v) {
      ExchangedConnected(g, tree, t, v, e, j, x, y, q, i);
    }
    StillSpanning(g, t, t');
  }

  lemma GrowInside(tree: map<int, Edge>, v: int, e: Edge)
    requires TreeInside(tree) && v > 0 && e.v == v && Taken(tree, e.u)
    ensures TreeInside(tree[v := e])
  {
  }

  /** Taking a cheapest edge keeps the tree promising. */
  lemma GrowPromising(g: Adjacency, tree: map<int, Edge>, v: int, e: Edge)
    requires Undirected(g) && Promising(g, tree) && Spans(tree, |g|) && TreeInside(tree) && Cheapest(g, tree, v, e)
    ensures Promising(g, tree[v := e]) && Spans(tree[v := e], |g|) && TreeInside(tree[v := e])
  {
    hide Spans, SpanningTree, Agrees, Weight, Undirected;
    GrowSpans(tree, |g|, v, e);
    GrowInside(tree, v, e);
    hide TreeInside, Cheapest;
    forall t | SpanningTree(g, t) ensures CanAgree(g, tree[v := e], t) {
      assert CanAgree(g, tree, t);
      var s :| NoHeavier(g, tree, t, s);
      var t' := Exchange(g, tree, s, v, e);
      assert NoHeavier(g, tree[v := e], t, t');
    }
  }

  lemma AgreesAt(t: seq<Edge>, tree: map<int, Edge>, i: int)
    requires Agrees(t, tree) && 0 <= i < |t| && i + 1 in tree
    ensures t[i] == tree[i + 1]
  {
  }

  /** Once every vertex is taken, the tree is a spanning tree of least weight. */
  lemma FullTree(g: Adjacency, tree: map<int, Edge>, t: seq<Edge>)
    requires |g| > 0 && Promising(g, tree) && Spans(tree, |g|) && |t| == |g| - 1
    requires (forall v :: v in tree <==> 0 < v < |g|) && Agrees(t, tree) && forall v :: v in tree ==> HasEdge(g, tree[v])
    ensures SpanningTree(g, t) && forall s :: SpanningTree(g, s) ==> Weight(t) <= Weight(s)
  {
    hide Spans, Weight, Connected, Agrees;
    forall v | 0 <= v < |g| ensures Connected(t, 0, v) { TakenConnected(tree, |g|, t, v); }
    forall i | 0 <= i < |t| ensures HasEdge(g, t[i]) { AgreesAt(t, tree, i); }
    forall s | SpanningTree(g, s) ensures Weight(t) <= Weight(s) {
      assert CanAgree(g, tree, s);
      var t' :| NoHeavier(g, tree, s, t');
      assert t' == t by {
        forall i | 0 <= i < |t| ensures t'[i] == t[i] {
          AgreesAt(t, tree, i);
          AgreesAt(t', tree, i);
        }
      }
    }
  }
}
