/** Prim's algorithm with a lazy priority queue. */
module Prim {
  import opened SpanningTrees

  const INF: int := 0x3f3f3f3f

  // ---------------------------------------------------------------- building the graph

  /** One undirected edge: listed at both ends. */
  method AddEdge(graph: array<seq<(int, int)>>, u: int, v: int, weight: int)
    requires 0 <= u < graph.Length && 0 <= v < graph.Length
    modifies graph
    ensures forall e :: HasEdge(graph[..], e) <==>
              HasEdge(old(graph[..]), e) || e == Edge(u, v, weight) || e == Edge(v, u, weight)
    ensures Undirected(old(graph[..])) ==> Undirected(graph[..])
  {
    ghost var before := graph[..];
    graph[u] := graph[u] + [(v, weight)];
    graph[v] := graph[v] + [(u, weight)];
    EdgeAdded(before, graph[..], u, v, weight);
  }

  lemma EdgeAdded(g: Adjacency, g': Adjacency, u: int, v: int, weight: int)
    requires 0 <= u < |g| && 0 <= v < |g|
    requires g' == var h := g[u := g[u] + [(v, weight)]]; h[v := h[v] + [(u, weight)]]
    ensures forall e :: HasEdge(g', e) <==> HasEdge(g, e) || e == Edge(u, v, weight) || e == Edge(v, u, weight)
    ensures Undirected(g) ==> Undirected(g')
  {
    if Undirected(g) {
      forall a, x | 0 <= a < |g'| && x in g'[a] ensures 0 <= x.0 < |g'| && (a, x.1) in g'[x.0] {
        assert x in g[a] || (a == u && x == (v, weight)) || (a == v && x == (u, weight));
      }
    }
  }

  // ---------------------------------------------------------------- the queue

  predicate NotAfter(a: (int, int), b: (int, int)) {
    a.0 < b.0 || (a.0 == b.0 && a.1 <= b.1)
  }

  ghost predicate IsTop(queue: multiset<(int, int)>, e: (int, int)) {
    e in queue && forall f :: f in queue ==> NotAfter(e, f)
  }

  lemma TopExists(queue: multiset<(int, int)>) returns (e: (int, int))
    requires queue != multiset{}
    ensures IsTop(queue, e)
    decreases |queue|
  {
    var x :| x in queue;
    var rest := queue - multiset{x};
    e := x;
    if rest != multiset{} {
      var y := TopExists(rest);
      if NotAfter(y, x) { e := y; }
    }
    forall f | f in queue ensures NotAfter(e, f) {
      if f != x { assert f in rest; }
    }
  }

  /** The least entry, by key and then by vertex. */
  method Top(queue: multiset<(int, int)>) returns (e: (int, int))
    requires queue != multiset{}
    ensures IsTop(queue, e)
  {
    ghost var w := TopExists(queue);
    e :| e in queue && forall f :: f in queue ==> NotAfter(e, f);
  }

  // ---------------------------------------------------------------- the state of a run

  ghost predicate Sized(g: Adjacency, key: seq<int>, parent: seq<int>, visited: seq<bool>) {
    |g| > 0 && |key| == |g| && |parent| == |g| && |visited| == |g|
  }

  ghost predicate KeyOk(g: Adjacency, key: seq<int>, parent: seq<int>, visited: seq<bool>, v: int)
    requires Sized(g, key, parent, visited) && 0 <= v < |g|
  {
    && key[v] <= INF && (parent[v] == -1 <==> key[v] == INF) && (visited[v] ==> parent[v] != -1)
    && (parent[v] != -1 ==> 0 <= parent[v] < |g| && visited[parent[v]] && HasEdge(g, Edge(parent[v], v, key[v])))
  }

  ghost predicate KeysOk(g: Adjacency, key: seq<int>, parent: seq<int>, visited: seq<bool>)
    requires Sized(g, key, parent, visited)
  {
    && key[0] == 0 && parent[0] == -1
    && (forall v :: 0 < v < |g| ==> KeyOk(g, key, parent, visited, v))
    && (!visited[0] ==> forall v :: 0 <= v < |g| ==> !visited[v])
  }

  /** Stale entries may remain, but the current key of an unvisited vertex is always queued. */
  ghost predicate QueueOk(key: seq<int>, visited: seq<bool>, queue: multiset<(int, int)>)
    requires |key| == |visited|
  {
    && (forall e :: e in queue ==> 0 <= e.1 < |key| && e.0 < INF && key[e.1] <= e.0)
    && (forall v :: 0 <= v < |key| && !visited[v] && key[v] < INF ==> (key[v], v) in queue)
  }

  /** Edges out of visited vertices were looked at; for `u` only the first `i` of them. */
  ghost predicate Relaxed(g: Adjacency, key: seq<int>, visited: seq<bool>, u: int, i: int)
    requires |key| == |g| == |visited|
  {
    && (forall f :: HasEdge(g, f) && visited[f.u] && f.u != u && 0 <= f.v < |g| && !visited[f.v] ==> key[f.v] <= f.weight)
    && (0 <= u < |g| ==> forall k :: 0 <= k < i && k < |g[u]| && 0 <= g[u][k].0 < |g| && !visited[g[u][k].0] ==> key[g[u][k].0] <= g[u][k].1)
  }

  ghost predicate Recorded(key: seq<int>, parent: seq<int>, visited: seq<bool>, tree: map<int, Edge>)
    requires |key| == |parent| == |visited|
  {
    && (forall v :: v in tree <==> 0 < v < |key| && visited[v])
    && (forall v :: v in tree ==> tree[v] == Edge(parent[v], v, key[v]))
  }

  /** One step along an edge lighter than `INF`. */
  ghost predicate LightStep(g: Adjacency, a: int, b: int) {
    exists w :: w < INF && HasEdge(g, Edge(a, b, w))
  }

  ghost predicate LightPath(g: Adjacency, p: seq<int>, v: int) {
    |p| > 0 && p[0] == 0 && p[|p| - 1] == v && forall i :: 0 < i < |p| ==> LightStep(g, p[i - 1], p[i])
  }

  ghost predicate LightReach(g: Adjacency, v: int) {
    exists p :: LightPath(g, p, v)
  }

  ghost predicate Reached(g: Adjacency, visited: seq<bool>) {
    forall v :: 0 <= v < |visited| && visited[v] ==> LightReach(g, v)
  }

  ghost predicate Growing(g: Adjacency, tree: map<int, Edge>) {
    Promising(g, tree) && Spans(tree, |g|) && TreeInside(tree)
  }

  /** Between rounds of the main loop (`u == -1`), or while the edges of `u` are looked at. */
  ghost predicate Inv(g: Adjacency, key: seq<int>, parent: seq<int>, visited: seq<bool>, queue: multiset<(int, int)>,
                      tree: map<int, Edge>, u: int, i: int)
  {
    && Undirected(g) && Sized(g, key, parent, visited) && KeysOk(g, key, parent, visited) && QueueOk(key, visited, queue)
    && Relaxed(g, key, visited, u, i) && Recorded(key, parent, visited, tree) && Reached(g, visited) && Growing(g, tree)
  }

  lemma ReachStep(g: Adjacency, a: int, b: int, w: int)
    requires LightReach(g, a) && w < INF && HasEdge(g, Edge(a, b, w))
    ensures LightReach(g, b)
  {
    var p :| LightPath(g, p, a);
    assert LightStep(g, a, b);
    assert LightPath(g, p + [b], b);
  }

  /** A set of vertices that holds 0 and is closed under light steps holds all that is reached. */
  lemma {:induction false} ReachClosed(g: Adjacency, visited: seq<bool>, p: seq<int>, v: int)
    requires Undirected(g) && |visited| == |g| > 0 && visited[0] && LightPath(g, p, v)
    requires forall f :: HasEdge(g, f) && visited[f.u] && f.weight < INF && 0 <= f.v < |g| ==> visited[f.v]
    ensures 0 <= v < |g| && visited[v]
    decreases |p|
  {
    if |p| > 1 {
      var n := |p| - 1;
      assert LightStep(g, p[n - 1], p[n]);
      ReachClosed(g, visited, p[..n], p[n - 1]);
      var w :| w < INF && HasEdge(g, Edge(p[n - 1], p[n], w));
      assert (p[n], w) in g[p[n - 1]];
      assert HasEdge(g, Edge(p[n - 1], p[n], w));
    }
  }

  lemma Initially(g: Adjacency, key: seq<int>, parent: seq<int>, visited: seq<bool>)
    requires Undirected(g) && Sized(g, key, parent, visited)
    requires forall v :: 0 <= v < |g| ==> (key[v] == (if v == 0 then 0 else INF)) && parent[v] == -1 && !visited[v]
    ensures Inv(g, key, parent, visited, multiset{(0, 0)}, map[], -1, 0)
  {
    EmptyTree(g);
  }

  // ---------------------------------------------------------------- taking a vertex

  /** The entry on top carries the current key of its vertex. */
  lemma TopIsCurrent(g: Adjacency, key: seq<int>, visited: seq<bool>, queue: multiset<(int, int)>, e: (int, int))
    requires |key| == |visited| && QueueOk(key, visited, queue) && IsTop(queue, e) && !visited[e.1]
    ensures 0 <= e.1 < |key| && e.0 == key[e.1] < INF
    ensures forall v :: 0 <= v < |key| && !visited[v] ==> key[e.1] <= key[v] || key[v] >= INF
  {
    assert NotAfter(e, (key[e.1], e.1));
    forall v | 0 <= v < |key| && !visited[v] && key[v] < INF ensures key[e.1] <= key[v] {
      assert (key[v], v) in queue;
      assert NotAfter(e, (key[v], v));
    }
  }

  /** Its edge is a cheapest one out of the visited vertices. */
  lemma TopIsCheapest(g: Adjacency, key: seq<int>, parent: seq<int>, visited: seq<bool>, queue: multiset<(int, int)>,
                      tree: map<int, Edge>, e: (int, int))
    requires Inv(g, key, parent, visited, queue, tree, -1, 0) && IsTop(queue, e) && !visited[e.1] && e.1 != 0
    ensures 0 < e.1 < |g| && visited[0] && Cheapest(g, tree, e.1, Edge(parent[e.1], e.1, key[e.1]))
    ensures key[e.1] < INF && 0 <= parent[e.1] < |g| && visited[parent[e.1]]
  {
    hide Growing, Reached;
    TopIsCurrent(g, key, visited, queue, e);
    var u := e.1;
    assert KeyOk(g, key, parent, visited, u);
    forall f | HasEdge(g, f) && Taken(tree, f.u) && !Taken(tree, f.v) ensures key[u] <= f.weight {
      assert (f.v, f.weight) in g[f.u];
      assert 0 < f.v < |g| && !visited[f.v] && visited[f.u];
      assert key[f.v] <= f.weight;
      assert KeyOk(g, key, parent, visited, f.v);
    }
  }

  ghost function Grown(tree: map<int, Edge>, key: seq<int>, parent: seq<int>, u: int): map<int, Edge>
    requires 0 <= u < |key| == |parent|
  {
    if u == 0 then tree else tree[u := Edge(parent[u], u, key[u])]
  }

  lemma GrownTree(g: Adjacency, key: seq<int>, parent: seq<int>, visited: seq<bool>, queue: multiset<(int, int)>,
                  tree: map<int, Edge>, e: (int, int))
    requires Inv(g, key, parent, visited, queue, tree, -1, 0) && IsTop(queue, e) && !visited[e.1]
    ensures 0 <= e.1 < |g| && Growing(g, Grown(tree, key, parent, e.1)) && LightReach(g, e.1)
    ensures e.1 > 0 ==> visited[0] && parent[e.1] != -1
  {
    if e.1 == 0 {
      assert LightPath(g, [0], 0);
    } else {
      TopIsCheapest(g, key, parent, visited, queue, tree, e);
      hide KeysOk, QueueOk, Relaxed, Recorded;
      GrowPromising(g, tree, e.1, Edge(parent[e.1], e.1, key[e.1]));
      ReachStep(g, parent[e.1], e.1, key[e.1]);
    }
  }

  /** Visiting the vertex on top, before its own edges are looked at. */
  lemma Visit(g: Adjacency, key: seq<int>, parent: seq<int>, visited: seq<bool>, queue: multiset<(int, int)>,
              tree: map<int, Edge>, e: (int, int))
    requires Inv(g, key, parent, visited, queue, tree, -1, 0) && IsTop(queue, e) && !visited[e.1]
    ensures 0 <= e.1 < |g|
    ensures Inv(g, key, parent, visited[e.1 := true], queue - multiset{e}, Grown(tree, key, parent, e.1), e.1, 0)
  {
    hide Growing, LightReach, QueueOk, KeysOk, Relaxed, Recorded, Undirected;
    GrownTree(g, key, parent, visited, queue, tree, e);
    VisitQueue(key, visited, queue, e);
    VisitKeys(g, key, parent, visited, e.1);
    VisitRelaxed(g, key, visited, e.1);
    VisitRecorded(key, parent, visited, tree, e.1);
  }

  lemma VisitKeys(g: Adjacency, key: seq<int>, parent: seq<int>, visited: seq<bool>, u: int)
    requires Sized(g, key, parent, visited) && KeysOk(g, key, parent, visited) && 0 <= u < |g|
    requires u > 0 ==> visited[0] && parent[u] != -1
    ensures KeysOk(g, key, parent, visited[u := true])
  {
    hide HasEdge;
    var visited' := visited[u := true];
    forall v | 0 < v < |g| ensures KeyOk(g, key, parent, visited', v) { assert KeyOk(g, key, parent, visited, v); }
  }

  lemma VisitRelaxed(g: Adjacency, key: seq<int>, visited: seq<bool>, u: int)
    requires |key| == |g| == |visited| && Relaxed(g, key, visited, -1, 0) && 0 <= u < |g|
    ensures Relaxed(g, key, visited[u := true], u, 0)
  {
  }

  lemma VisitRecorded(key: seq<int>, parent: seq<int>, visited: seq<bool>, tree: map<int, Edge>, u: int)
    requires |key| == |parent| == |visited| && Recorded(key, parent, visited, tree) && 0 <= u < |key|
    ensures Recorded(key, parent, visited[u := true], Grown(tree, key, parent, u))
  {
  }

  lemma VisitQueue(key: seq<int>, visited: seq<bool>, queue: multiset<(int, int)>, e: (int, int))
    requires |key| == |visited| && QueueOk(key, visited, queue) && e in queue
    ensures 0 <= e.1 < |key| && QueueOk(key, visited[e.1 := true], queue - multiset{e})
  {
  }

  /** A stale entry is dropped. */
  lemma DropStale(g: Adjacency, key: seq<int>, parent: seq<int>, visited: seq<bool>, queue: multiset<(int, int)>,
                  tree: map<int, Edge>, e: (int, int))
    requires Inv(g, key, parent, visited, queue, tree, -1, 0) && e in queue && visited[e.1]
    ensures Inv(g, key, parent, visited, queue - multiset{e}, tree, -1, 0)
  {
    hide Growing, Reached, Recorded, Relaxed, KeysOk;
    VisitQueue(key, visited, queue, e);
    assert visited[e.1 := true] == visited;
  }

  // ---------------------------------------------------------------- looking at the edges of a vertex

  lemma SkipEdge(g: Adjacency, key: seq<int>, parent: seq<int>, visited: seq<bool>, queue: multiset<(int, int)>,
                 tree: map<int, Edge>, u: int, i: int)
    requires Inv(g, key, parent, visited, queue, tree, u, i) && 0 <= u < |g| && 0 <= i < |g[u]| && 0 <= g[u][i].0 < |g|
    requires visited[g[u][i].0] || key[g[u][i].0] <= g[u][i].1
    ensures Inv(g, key, parent, visited, queue, tree, u, i + 1)
  {
    hide Growing, Reached, Recorded, KeysOk, QueueOk;
  }

  lemma TakeEdge(g: Adjacency, key: seq<int>, parent: seq<int>, visited: seq<bool>, queue: multiset<(int, int)>,
                 tree: map<int, Edge>, u: int, i: int)
    requires Inv(g, key, parent, visited, queue, tree, u, i) && 0 <= u < |g| && visited[u] && 0 <= i < |g[u]|
    requires 0 <= g[u][i].0 < |g| && !visited[g[u][i].0] && key[g[u][i].0] > g[u][i].1
    ensures var (v, w) := g[u][i];
            Inv(g, key[v := w], parent[v := u], visited, queue + multiset{(w, v)}, tree, u, i + 1)
  {
    hide Growing, Reached;
    var (v, w) := g[u][i];
    TakeKeys(g, key, parent, visited, u, i);
    hide KeysOk;
    TakeQueue(key, visited, queue, v, w);
    hide QueueOk;
    TakeRelaxed(g, key, visited, u, i);
  }

  lemma TakeKeys(g: Adjacency, key: seq<int>, parent: seq<int>, visited: seq<bool>, u: int, i: int)
    requires Sized(g, key, parent, visited) && KeysOk(g, key, parent, visited) && 0 <= u < |g| && visited[u] && 0 <= i < |g[u]|
    requires 0 <= g[u][i].0 < |g| && !visited[g[u][i].0] && key[g[u][i].0] > g[u][i].1
    ensures var (v, w) := g[u][i]; w < INF && v > 0 && KeysOk(g, key[v := w], parent[v := u], visited)
  {
    var (v, w) := g[u][i];
    assert (v, w) in g[u];
    assert KeyOk(g, key, parent, visited, v);
    var key', parent' := key[v := w], parent[v := u];
    forall x | 0 < x < |g| ensures KeyOk(g, key', parent', visited, x) { assert KeyOk(g, key, parent, visited, x); }
  }

  lemma TakeQueue(key: seq<int>, visited: seq<bool>, queue: multiset<(int, int)>, v: int, w: int)
    requires |key| == |visited| && QueueOk(key, visited, queue) && 0 <= v < |key| && w < key[v] && w < INF
    ensures QueueOk(key[v := w], visited, queue + multiset{(w, v)})
  {
  }

  lemma TakeRelaxed(g: Adjacency, key: seq<int>, visited: seq<bool>, u: int, i: int)
    requires |key| == |g| == |visited| && Relaxed(g, key, visited, u, i) && 0 <= u < |g| && 0 <= i < |g[u]|
    requires 0 <= g[u][i].0 < |g| && key[g[u][i].0] > g[u][i].1
    ensures var (v, w) := g[u][i]; Relaxed(g, key[v := w], visited, u, i + 1)
  {
  }

  lemma EdgesDone(g: Adjacency, key: seq<int>, parent: seq<int>, visited: seq<bool>, queue: multiset<(int, int)>,
                  tree: map<int, Edge>, u: int)
    requires 0 <= u < |g| && Inv(g, key, parent, visited, queue, tree, u, |g[u]|)
    ensures Inv(g, key, parent, visited, queue, tree, -1, 0)
  {
    hide Growing, Reached, Recorded, KeysOk, QueueOk;
    forall f | HasEdge(g, f) && visited[f.u] && 0 <= f.v < |g| && !visited[f.v] ensures key[f.v] <= f.weight {
      if f.u == u { var k :| 0 <= k < |g[u]| && g[u][k] == (f.v, f.weight); }
    }
  }

  // ---------------------------------------------------------------- the end of a run

  /** The printed edges, with their weights. */
  function TreeEdges(parent: seq<int>, key: seq<int>): (t: seq<Edge>)
    requires 0 < |parent| == |key|
    ensures |t| == |parent| - 1
  {
    seq(|parent| - 1, i requires 0 <= i < |parent| - 1 => Edge(parent[i + 1], i + 1, key[i + 1]))
  }

  ghost predicate LightConnected(g: Adjacency) {
    forall v :: 0 <= v < |g| ==> LightReach(g, v)
  }

  ghost predicate MinimumSpanningTree(g: Adjacency, t: seq<Edge>) {
    SpanningTree(g, t) && forall s :: SpanningTree(g, s) ==> Weight(t) <= Weight(s)
  }

  lemma FinallyVisited(g: Adjacency, key: seq<int>, parent: seq<int>, visited: seq<bool>, tree: map<int, Edge>, v: int)
    requires Inv(g, key, parent, visited, multiset{}, tree, -1, 0) && 0 <= v < |g|
    ensures visited[v] <==> LightReach(g, v)
    ensures v > 0 ==> (parent[v] != -1 <==> visited[v])
  {
    hide Growing, Recorded;
    assert visited[0];
    if v > 0 {
      assert KeyOk(g, key, parent, visited, v);
    }
    if LightReach(g, v) {
      var p :| LightPath(g, p, v);
      forall f | HasEdge(g, f) && visited[f.u] && f.weight < INF && 0 <= f.v < |g| ensures visited[f.v] {
        assert key[f.v] >= INF || visited[f.v];
      }
      ReachClosed(g, visited, p, v);
    }
  }

  lemma FinalTree(g: Adjacency, key: seq<int>, parent: seq<int>, visited: seq<bool>, tree: map<int, Edge>)
    requires Inv(g, key, parent, visited, multiset{}, tree, -1, 0) && LightConnected(g)
    ensures MinimumSpanningTree(g, TreeEdges(parent, key))
  {
    hide QueueOk, Relaxed, Reached, KeysOk, Promising, Spans, TreeInside, LightReach, SpanningTree;
    var t := TreeEdges(parent, key);
    forall v | 0 <= v < |g| ensures visited[v] { FinallyVisited(g, key, parent, visited, tree, v); }
    forall v | v in tree ensures HasEdge(g, tree[v]) {
      FinallyVisited(g, key, parent, visited, tree, v);
      InvKey(g, key, parent, visited, multiset{}, tree, v);
    }
    FullTree(g, tree, t);
  }

  ghost function Unvisited(visited: seq<bool>): (n: nat) {
    if visited == [] then 0 else Unvisited(visited[..|visited| - 1]) + if visited[|visited| - 1] then 0 else 1
  }

  lemma {:induction false} VisitShrinks(visited: seq<bool>, u: int)
    requires 0 <= u < |visited| && !visited[u]
    ensures Unvisited(visited[u := true]) == Unvisited(visited) - 1
  {
    var n := |visited| - 1;
    if u == n {
      assert visited[u := true][..n] == visited[..n];
    } else {
      assert visited[u := true][..n] == visited[..n][u := true];
      VisitShrinks(visited[..n], u);
    }
  }

  lemma EntryInRange(g: Adjacency, key: seq<int>, parent: seq<int>, visited: seq<bool>, queue: multiset<(int, int)>,
                     tree: map<int, Edge>, e: (int, int))
    requires Inv(g, key, parent, visited, queue, tree, -1, 0) && e in queue
    ensures 0 <= e.1 < |g| == |visited|
  {
  }

  lemma InvSized(g: Adjacency, key: seq<int>, parent: seq<int>, visited: seq<bool>, queue: multiset<(int, int)>,
                 tree: map<int, Edge>, u: int, i: int)
    requires Inv(g, key, parent, visited, queue, tree, u, i)
    ensures Sized(g, key, parent, visited) && Undirected(g)
  {
  }

  /** The parents found, and the weights of the edges to them. The edges span the graph exactly when the
      edges lighter than `INF` connect it, and then they form a spanning tree of least weight. */
  method Run(graph: array<seq<(int, int)>>) returns (parent: seq<int>, key: seq<int>)
    requires graph.Length > 0 && Undirected(graph[..])
    ensures |parent| == |key| == graph.Length
    ensures forall v :: 0 < v < graph.Length ==> (parent[v] != -1 <==> LightReach(graph[..], v))
    ensures forall v :: 0 < v < graph.Length && parent[v] != -1 ==> HasEdge(graph[..], Edge(parent[v], v, key[v]))
    ensures LightConnected(graph[..]) ==> MinimumSpanningTree(graph[..], TreeEdges(parent, key))
  {
    hide Inv, LightConnected, MinimumSpanningTree;
    ghost var g := graph[..];
    var n := graph.Length;
    var queue: multiset<(int, int)> := multiset{(0, 0)};
    key := seq(n, i => INF);
    parent := seq(n, i => -1);
    var visited := seq(n, i => false);
    key := key[0 := 0];
    ghost var tree: map<int, Edge> := map[];
    Initially(g, key, parent, visited);
    while queue != multiset{}
      invariant Inv(g, key, parent, visited, queue, tree, -1, 0) && |visited| == n
      decreases Unvisited(visited), |queue|
    {
      var top := Top(queue);
      var u := top.1;
      EntryInRange(g, key, parent, visited, queue, tree, top);
      if visited[u] {
        DropStale(g, key, parent, visited, queue, tree, top);
        queue := queue - multiset{top};
        continue;
      }
      Visit(g, key, parent, visited, queue, tree, top);
      VisitShrinks(visited, u);
      InvSized(g, key, parent, visited, queue, tree, -1, 0);
      queue := queue - multiset{top};
      visited := visited[u := true];
      tree := Grown(tree, key, parent, u);
      key, parent, queue := RelaxEdges(graph, key, parent, visited, queue, u, tree);
    }
    InvSized(g, key, parent, visited, queue, tree, -1, 0);
    forall v | 0 < v < n ensures (parent[v] != -1 <==> LightReach(g, v)) && (parent[v] != -1 ==> HasEdge(g, Edge(parent[v], v, key[v]))) {
      FinallyVisited(g, key, parent, visited, tree, v);
      InvKey(g, key, parent, visited, queue, tree, v);
    }
    if LightConnected(g) { FinalTree(g, key, parent, visited, tree); }
  }

  lemma InvKey(g: Adjacency, key: seq<int>, parent: seq<int>, visited: seq<bool>, queue: multiset<(int, int)>,
               tree: map<int, Edge>, v: int)
    requires Inv(g, key, parent, visited, queue, tree, -1, 0) && 0 < v < |g|
    ensures parent[v] != -1 ==> HasEdge(g, Edge(parent[v], v, key[v]))
  {
    assert KeyOk(g, key, parent, visited, v);
  }

  /** The loop over the edges of the vertex just visited. */
  method RelaxEdges(graph: array<seq<(int, int)>>, key0: seq<int>, parent0: seq<int>, visited: seq<bool>,
                    queue0: multiset<(int, int)>, u: int, ghost tree: map<int, Edge>)
    returns (key: seq<int>, parent: seq<int>, queue: multiset<(int, int)>)
    requires Inv(graph[..], key0, parent0, visited, queue0, tree, u, 0)
    requires |visited| == graph.Length && 0 <= u < graph.Length && visited[u]
    ensures Inv(graph[..], key, parent, visited, queue, tree, -1, 0)
  {
    hide Inv;
    key, parent, queue := key0, parent0, queue0;
    ghost var g := graph[..];
    var i := 0;
    while i < |graph[u]|
      invariant 0 <= i <= |graph[u]| && Inv(g, key, parent, visited, queue, tree, u, i)
    {
      InvSized(g, key, parent, visited, queue, tree, u, i);
      var (vertex, weight) := graph[u][i];
      assert (vertex, weight) in g[u];
      if !visited[vertex] && key[vertex] > weight {
        TakeEdge(g, key, parent, visited, queue, tree, u, i);
        key := key[vertex := weight];
        queue := queue + multiset{(key[vertex], vertex)};
        parent := parent[vertex := u];
      } else {
        SkipEdge(g, key, parent, visited, queue, tree, u, i);
      }
      i := i + 1;
    }
    EdgesDone(g, key, parent, visited, queue, tree, u);
  }
}
