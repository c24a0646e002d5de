/** Graphs that CFGBuilder produces: their dominator tree follows the nesting of the conditionals, and
    without conditionals in then-arms nothing is left over on the renaming stack where it matters. */
module Structured {
  import opened Common
  import opened Ir
  import opened Dominance
  import opened Cfg
  import opened DominatorTree
  import opened Renaming
  import opened ReachingDefs
  import opened SsaForm
  import opened Builder

  /** A finished graph: every block became current, and every conditional is on record. */
  ghost predicate Built(f: seq<CFGBlock>, order: seq<nat>, records: seq<IfRecord>) {
    && Mirrored(f) && Ordered(f, order) && (forall b :: 0 <= b < |f| ==> b in order)
    && Recorded(f, order, 0, |order| - 1, records)
  }

  /** Links decide whether a graph is built. */
  lemma BuiltKept(f: seq<CFGBlock>, g: seq<CFGBlock>, order: seq<nat>, records: seq<IfRecord>)
    requires Built(f, order, records) && |f| == |g|
    requires forall y :: 0 <= y < |f| ==> g[y].succs == f[y].succs && g[y].preds == f[y].preds
    ensures Built(g, order, records)
  {
    MirroredSame(f, g);
    OrderedKept(f, order, g);
    assert SameBefore(f, order, g);
    RecordedKept(f, order, g, order, 0, records);
  }

  // ---------------------------------------------------------------- paths and positions

  ghost function Pos(order: seq<nat>, b: nat): (i: nat)
    requires b in order
    ensures i < |order| && order[i] == b
  {
    var i: nat :| i < |order| && order[i] == b;
    i
  }

  lemma PosUnique(order: seq<nat>, i: nat)
    requires Distinct(order) && i < |order|
    ensures order[i] in order && Pos(order, order[i]) == i
  {
  }

  /** Along an edge the position grows. */
  lemma EdgeForward(f: seq<CFGBlock>, order: seq<nat>, a: nat, b: nat)
    requires Ordered(f, order) && (forall b :: 0 <= b < |f| ==> b in order) && Edge(SuccsOf(f), a, b)
    ensures a in order && b in order && Link(f, order, Pos(order, a), Pos(order, b)) && Pos(order, a) < Pos(order, b)
  {
    assert Link(f, order, Pos(order, a), Pos(order, b));
  }

  lemma PathForward(f: seq<CFGBlock>, order: seq<nat>, p: seq<nat>, i: nat, j: nat)
    requires Ordered(f, order) && (forall b :: 0 <= b < |f| ==> b in order) && Path(SuccsOf(f), p) && i < j < |p|
    ensures p[i] in order && p[j] in order && Pos(order, p[i]) < Pos(order, p[j])
    decreases j
  {
    assert Edge(SuccsOf(f), p[j - 1], p[j]);
    EdgeForward(f, order, p[j - 1], p[j]);
    if i < j - 1 { PathForward(f, order, p, i, j - 1); }
  }

  /** No block of a built graph can reach itself. */
  lemma Acyclic(f: seq<CFGBlock>, order: seq<nat>, p: seq<nat>)
    requires Ordered(f, order) && (forall b :: 0 <= b < |f| ==> b in order) && Path(SuccsOf(f), p) && |p| > 1
    ensures p[0] != p[|p| - 1]
  {
    PathForward(f, order, p, 0, |p| - 1);
  }

  /** Every block of a built graph is reachable. */
  lemma AllReachable(f: seq<CFGBlock>, order: seq<nat>, j: nat)
    requires Ordered(f, order) && j < |order|
    ensures Reachable(SuccsOf(f), order[j])
    decreases j
  {
    if j == 0 {
      assert PathTo(SuccsOf(f), [0], 0);
    } else {
      assert HasEarlierPred(f, order, j);
      var i :| i < j && Link(f, order, i, j);
      AllReachable(f, order, i);
      ReachableStep(SuccsOf(f), order[i], order[j]);
    }
  }

  // ---------------------------------------------------------------- regions and dominance

  /** The first block of a region dominates the region. */
  lemma RegionDominated(f: seq<CFGBlock>, order: seq<nat>, lo: nat, hi: nat, j: nat)
    requires Ordered(f, order) && (forall b :: 0 <= b < |f| ==> b in order) && Region(f, order, lo, hi) && lo <= j <= hi
    ensures Dom(SuccsOf(f), order[lo], order[j])
    decreases j
  {
    var g := SuccsOf(f);
    if j == lo {
      DomReflexive(g, order[lo]);
    } else {
      forall p | PathTo(g, p, order[j]) ensures order[lo] in p {
        assert |p| > 1;
        var m := |p| - 2;
        assert Edge(g, p[m], p[m + 1]);
        EdgeForward(f, order, p[m], p[m + 1]);
        PosUnique(order, j);
        var i := Pos(order, p[m]);
        assert lo <= i < j;
        RegionDominated(f, order, lo, hi, i);
        PathPrefix(g, p, m);
        assert PathTo(g, p[..m + 1], order[i]);
        assert order[lo] in p[..m + 1];
      }
    }
  }

  /** Inside a region one gets to its last block. */
  lemma RegionExit(f: seq<CFGBlock>, order: seq<nat>, lo: nat, hi: nat, j: nat) returns (p: seq<nat>)
    requires Ordered(f, order) && (forall b :: 0 <= b < |f| ==> b in order) && Region(f, order, lo, hi) && lo <= j <= hi
    ensures PathBetween(SuccsOf(f), p, order[j], order[hi])
    ensures forall m :: 0 <= m < |p| ==> p[m] in order && j <= Pos(order, p[m]) <= hi
    decreases hi - j
  {
    var g := SuccsOf(f);
    if j == hi {
      p := [order[j]];
      PosUnique(order, j);
    } else {
      assert Leaves(f, order, j);
      var s := f[order[j]].succs[0];
      assert s in f[order[j]].succs && s in order;
      var k := Pos(order, s);
      assert Link(f, order, j, k);
      var q := RegionExit(f, order, lo, hi, k);
      p := [order[j]] + q;
      PathPrepend(g, q, order[j], s, order[hi]);
      PosUnique(order, j);
    }
  }

  /** A block with one predecessor has it as its immediate dominator. */
  lemma SinglePredDominates(f: seq<CFGBlock>, order: seq<nat>, x: nat, t: nat)
    requires Mirrored(f) && Ordered(f, order) && (forall b :: 0 <= b < |f| ==> b in order)
    requires t < |f| && x < |f| && f[t].preds == [x] && t != 0
    ensures Edge(SuccsOf(f), x, t) && IDom(SuccsOf(f), x, t)
  {
    var g := SuccsOf(f);
    assert HasPred(f, t, x);
    assert HasSucc(f, x, t);
    EdgeForward(f, order, x, t);
    AllReachable(f, order, Pos(order, x));
    forall p | PathTo(g, p, t) ensures x in p {
      assert |p| > 1;
      assert Edge(g, p[|p| - 2], p[|p| - 1]);
      assert HasSucc(f, p[|p| - 2], t);
      assert HasPred(f, t, p[|p| - 2]);
    }
    forall e | SDom(g, e, t) ensures Dom(g, e, x) { SDomOfPredecessor(g, e, x, t); }
  }

  /** An arm of a conditional: a region entered from `x` only and left to `m` only. */
  ghost predicate Arm(f: seq<CFGBlock>, order: seq<nat>, x: nat, lo: nat, hi: nat, m: nat) {
    && lo <= hi < m < |order| && x < lo && (forall i :: 0 <= i < |order| ==> order[i] < |f|)
    && Region(f, order, lo, hi) && f[order[lo]].preds == [order[x]] && f[order[hi]].succs == [order[m]]
  }

  lemma RecordArms(f: seq<CFGBlock>, order: seq<nat>, r: IfRecord)
    requires RecordOk(f, order, r)
    ensures Arm(f, order, r.p, r.p + 1, r.ht, r.he + 1) && Arm(f, order, r.p, r.ht + 1, r.he, r.he + 1)
  {
  }

  lemma ArmFirst(f: seq<CFGBlock>, order: seq<nat>, x: nat, lo: nat, hi: nat, m: nat)
    requires Ordered(f, order) && Arm(f, order, x, lo, hi, m)
    ensures lo < |order| && x < |order| && order[lo] < |f| && order[x] < |f| && order[lo] != 0 && f[order[lo]].preds == [order[x]]
  {
  }

  /** Any path to the block before the arm goes on through the arm to the merge block. */
  lemma ThroughArm(f: seq<CFGBlock>, order: seq<nat>, x: nat, lo: nat, hi: nat, m: nat, p: seq<nat>) returns (r: seq<nat>)
    requires Mirrored(f) && Ordered(f, order) && (forall b :: 0 <= b < |f| ==> b in order)
    requires Arm(f, order, x, lo, hi, m) && PathTo(SuccsOf(f), p, order[x])
    ensures PathTo(SuccsOf(f), p + r, order[m])
    ensures forall i :: 0 <= i < |r| ==> r[i] in order && (lo <= Pos(order, r[i]) <= hi || r[i] == order[m])
  {
    var g := SuccsOf(f);
    var q := RegionExit(f, order, lo, hi, lo);
    assert HasPred(f, order[lo], order[x]);
    assert HasSucc(f, order[x], order[lo]);
    PathPrepend(g, q, order[x], order[lo], order[hi]);
    PathJoin(g, p, [order[x]] + q, 0, order[x], order[hi]);
    assert ([order[x]] + q)[1..] == q;
    PathAppend(g, p + q, 0, order[hi], order[m]);
    r := q + [order[m]];
    assert p + q + [order[m]] == p + r;
  }

  /** A path that goes past the end of an arm it has entered leaves it through the merge block. */
  lemma LeavesThroughMerge(f: seq<CFGBlock>, order: seq<nat>, x: nat, lo: nat, hi: nat, m: nat, p: seq<nat>, k: nat)
    returns (n: nat)
    requires Ordered(f, order) && (forall b :: 0 <= b < |f| ==> b in order) && Arm(f, order, x, lo, hi, m)
    requires Path(SuccsOf(f), p) && k < |p| && p[k] in order && lo <= Pos(order, p[k]) <= hi
    requires p[|p| - 1] in order && hi < Pos(order, p[|p| - 1])
    ensures n < |p| && p[n] == order[m]
    decreases |p| - k
  {
    var g := SuccsOf(f);
    assert k < |p| - 1;
    assert Edge(g, p[k], p[k + 1]);
    EdgeForward(f, order, p[k], p[k + 1]);
    var i, j := Pos(order, p[k]), Pos(order, p[k + 1]);
    if i == hi {
      n := k + 1;
      assert p[k + 1] in f[order[hi]].succs;
    } else {
      n := LeavesThroughMerge(f, order, x, lo, hi, m, p, k + 1);
    }
  }

  /** The first block of an arm dominates nothing outside the arm, because the other arm goes around it. */
  lemma ArmDominatesArmOnly(f: seq<CFGBlock>, order: seq<nat>, x: nat, lo: nat, hi: nat, lo': nat, hi': nat, m: nat, q: nat)
    requires Mirrored(f) && Ordered(f, order) && (forall b :: 0 <= b < |f| ==> b in order)
    requires Arm(f, order, x, lo, hi, m) && Arm(f, order, x, lo', hi', m) && (hi < lo' || hi' < lo)
    requires Reachable(SuccsOf(f), q) && Dom(SuccsOf(f), order[lo], q)
    ensures q in order && lo <= Pos(order, q) <= hi
  {
    hide Mirrored, Arm, Path;
    ArmBounds(f, order, x, lo, hi, m);
    var g := SuccsOf(f);
    var p :| PathTo(g, p, q);
    assert order[lo] in p;
    var k :| 0 <= k < |p| && p[k] == order[lo];
    PosUnique(order, lo);
    if k < |p| - 1 { PathForward(f, order, p, k, |p| - 1); }
    if hi < Pos(order, q) {
      var w := AvoidsArm(f, order, x, lo, hi, lo', hi', m, p, k, q);
    }
  }

  lemma ArmBounds(f: seq<CFGBlock>, order: seq<nat>, x: nat, lo: nat, hi: nat, m: nat)
    requires Arm(f, order, x, lo, hi, m)
    ensures x < lo <= hi < m < |order|
  {
  }

  /** A path that leaves the arm can be replaced by one that goes around it. */
  lemma AvoidsArm(f: seq<CFGBlock>, order: seq<nat>, x: nat, lo: nat, hi: nat, lo': nat, hi': nat, m: nat, p: seq<nat>, k: nat, q: nat)
    returns (w: seq<nat>)
    requires Mirrored(f) && Ordered(f, order) && (forall b :: 0 <= b < |f| ==> b in order)
    requires Arm(f, order, x, lo, hi, m) && Arm(f, order, x, lo', hi', m) && (hi < lo' || hi' < lo)
    requires PathTo(SuccsOf(f), p, q) && k < |p| && p[k] == order[lo] && q in order && hi < Pos(order, q)
    ensures PathTo(SuccsOf(f), w, q) && order[lo] !in w
  {
    hide Mirrored, Arm;
    var g := SuccsOf(f);
    ArmBounds(f, order, x, lo, hi, m);
    PosUnique(order, lo);
    PosUnique(order, m);
    var n := LeavesThroughMerge(f, order, x, lo, hi, m, p, k);
    var before := AroundArm(f, order, x, lo, lo', hi', m);
    PathSuffix(g, p, n);
    PathJoin(g, before, p[n..], 0, order[m], q);
    w := before + p[n..][1..];
    forall i | 0 <= i < |w| ensures w[i] != order[lo] {
      if i >= |before| {
        assert w[i] == p[n + 1 + i - |before|];
        PathForward(f, order, p, n, n + 1 + i - |before|);
      }
    }
  }

  /** A path to the merge block that avoids the first block of an arm by taking the other one. */
  lemma AroundArm(f: seq<CFGBlock>, order: seq<nat>, x: nat, lo: nat, lo': nat, hi': nat, m: nat) returns (p: seq<nat>)
    requires Mirrored(f) && Ordered(f, order) && (forall b :: 0 <= b < |f| ==> b in order)
    requires Arm(f, order, x, lo', hi', m) && x < lo < m && (lo < lo' || hi' < lo)
    ensures PathTo(SuccsOf(f), p, order[m]) && order[lo] !in p
  {
    var g := SuccsOf(f);
    AllReachable(f, order, x);
    var p0 :| PathTo(g, p0, order[x]);
    var r := ThroughArm(f, order, x, lo', hi', m, p0);
    p := p0 + r;
    PosUnique(order, lo);
    PosUnique(order, x);
    forall i | 0 <= i < |p| ensures p[i] != order[lo] {
      if i < |p0| - 1 {
        PathForward(f, order, p0, i, |p0| - 1);
      } else if i >= |p0| {
        assert p[i] == r[i - |p0|];
      }
    }
  }

  /** The merge block of a conditional is immediately dominated by the branching block. */
  lemma MergeDominator(f: seq<CFGBlock>, order: seq<nat>, r: IfRecord)
    requires Mirrored(f) && Ordered(f, order) && (forall b :: 0 <= b < |f| ==> b in order) && RecordOk(f, order, r)
    ensures IDom(SuccsOf(f), order[r.p], order[r.he + 1])
  {
    hide Mirrored, Ordered, RecordOk, Region, Arm;
    RecordPositions(f, order, r);
    var g, x, m := SuccsOf(f), order[r.p], order[r.he + 1];
    RegionIf(f, order, r);
    RegionDominated(f, order, r.p, r.he + 1, r.he + 1);
    AllReachable(f, order, r.p);
    RecordArms(f, order, r);
    forall d | SDom(g, d, m) ensures Dom(g, d, x) {
      forall p | PathTo(g, p, x) ensures d in p { BothArms(f, order, r.p, r.p + 1, r.ht, r.ht + 1, r.he, r.he + 1, d, p); }
    }
  }

  lemma RecordPositions(f: seq<CFGBlock>, order: seq<nat>, r: IfRecord)
    requires Ordered(f, order) && RecordOk(f, order, r)
    ensures r.p < r.ht < r.he && r.he + 1 < |order| && order[r.p] != order[r.he + 1]
    ensures order[r.p + 1] < order[r.ht + 1] < order[r.he + 1] < |f|
  {
  }

  /** What dominates the merge block is on every path to the branch, for the arms have no block in common. */
  lemma BothArms(f: seq<CFGBlock>, order: seq<nat>, x: nat, lo: nat, hi: nat, lo': nat, hi': nat, m: nat, d: nat, p: seq<nat>)
    requires Mirrored(f) && Ordered(f, order) && (forall b :: 0 <= b < |f| ==> b in order)
    requires Arm(f, order, x, lo, hi, m) && Arm(f, order, x, lo', hi', m) && hi < lo'
    requires SDom(SuccsOf(f), d, order[m]) && PathTo(SuccsOf(f), p, order[x])
    ensures d in p
  {
    hide Mirrored, Ordered, Region, Dominance.PathBetween, Pos;
    var a := ThroughArm(f, order, x, lo, hi, m, p);
    var b := ThroughArm(f, order, x, lo', hi', m, p);
    assert PathTo(SuccsOf(f), p + a, order[m]) && PathTo(SuccsOf(f), p + b, order[m]);
    OnlyInArm(order, a, lo, hi, order[m], d);
    OnlyInArm(order, b, lo', hi', order[m], d);
  }

  lemma OnlyInArm(order: seq<nat>, r: seq<nat>, lo: nat, hi: nat, m: nat, d: nat)
    requires forall i :: 0 <= i < |r| ==> r[i] in order && (lo <= Pos(order, r[i]) <= hi || r[i] == m)
    ensures d in r && d != m ==> d in order && lo <= Pos(order, d) <= hi
  {
  }

  // ---------------------------------------------------------------- siblings

  /** The branching block is the dominator of the three blocks of its conditional. */
  lemma RecordDominators(f: seq<CFGBlock>, order: seq<nat>, r: IfRecord)
    requires Mirrored(f) && Ordered(f, order) && (forall b :: 0 <= b < |f| ==> b in order) && RecordOk(f, order, r)
    requires TreeOk(f)
    ensures r.p < r.ht < r.he && r.he + 1 < |order|
    ensures forall j :: 0 <= j < |order| && Covers(r, j) ==> order[j] < |f| && f[order[j]].dominator == Some(order[r.p])
  {
    var g := SuccsOf(f);
    RecordPositions(f, order, r);
    MergeDominator(f, order, r);
    SinglePredDominates(f, order, order[r.p], order[r.p + 1]);
    SinglePredDominates(f, order, order[r.p], order[r.ht + 1]);
    forall j | 0 <= j < |order| && Covers(r, j) ensures order[j] < |f| && f[order[j]].dominator == Some(order[r.p]) {
      AllReachable(f, order, j);
      DominatorMeans(f, g, order[r.p], order[j]);
    }
  }

  /** Every block but Entry is one of the three blocks of a conditional. */
  lemma InSomeRecord(f: seq<CFGBlock>, order: seq<nat>, records: seq<IfRecord>, z: nat) returns (k: nat, j: nat)
    requires Built(f, order, records) && z < |f| && z != 0
    ensures k < |records| && 0 < j < |order| && order[j] == z && Covers(records[k], j)
    ensures RecordOk(f, order, records[k])
  {
    j := Pos(order, z);
    assert Covered(records, j);
    k :| 0 <= k < |records| && Covers(records[k], j);
    assert RecordIn(f, order, 0, |order| - 1, records[k]);
  }

  /** Siblings in the dominator tree belong to the same conditional. */
  lemma SameConditional(f: seq<CFGBlock>, order: seq<nat>, records: seq<IfRecord>, w: nat, z: nat) returns (k: nat, i: nat, j: nat)
    requires Built(f, order, records) && TreeOk(f) && w < z < |f|
    requires f[w].dominator.Some? && f[w].dominator == f[z].dominator
    ensures k < |records| && RecordOk(f, order, records[k]) && i < |order| && j < |order| && order[i] == w && order[j] == z
    ensures Covers(records[k], i) && Covers(records[k], j)
  {
    hide Mirrored, Ordered, RecordOk, TreeOk, Region;
    NoDominator(f);
    k, i := InSomeRecord(f, order, records, w);
    var l;
    l, j := InSomeRecord(f, order, records, z);
    RecordDominators(f, order, records[k]);
    RecordDominators(f, order, records[l]);
    assert order[records[k].p] == order[records[l].p];
    SamePosition(f, order, records[k].p, records[l].p);
    assert k == l;
  }

  lemma SamePosition(f: seq<CFGBlock>, order: seq<nat>, i: nat, j: nat)
    requires Ordered(f, order) && i < |order| && j < |order| && order[i] == order[j]
    ensures i == j
  {
  }

  lemma NoDominator(f: seq<CFGBlock>)
    requires TreeOk(f)
    ensures |f| > 0 && f[0].dominator == None
  {
    assert IsDominator(SuccsOf(f), 0, f[0].dominator);
  }

  // ---------------------------------------------------------------- phis in a built graph

  /** Phis only at blocks of a frontier: what the iterated frontier gives. */
  ghost predicate PhisOnlyAtFrontiers(f: seq<CFGBlock>, name: string) {
    var g := SuccsOf(f);
    forall y :: HasPhi(f, y, name) ==> exists b :: Reachable(g, b) && InFrontier(g, b, y)
  }

  lemma NoPhiAfterBranch(f: seq<CFGBlock>, order: seq<nat>, name: string, x: nat, t: nat)
    requires Mirrored(f) && Ordered(f, order) && (forall b :: 0 <= b < |f| ==> b in order) && PhisOnlyAtFrontiers(f, name)
    requires t < |f| && x < |f| && f[t].preds == [x] && t != 0
    ensures !HasPhi(f, t, name)
  {
    var g := SuccsOf(f);
    if HasPhi(f, t, name) {
      SinglePredDominates(f, order, x, t);
      var b :| Reachable(g, b) && InFrontier(g, b, t);
      var q :| Reachable(g, q) && Edge(g, q, t) && Dom(g, b, q);
      assert HasSucc(f, q, t);
      assert HasPred(f, t, q);
      assert q == x;
      ReachableStep(g, q, t);
      SDomTransitive(g, b, x, t);
    }
  }

  /** A phi inside an arm makes a phi in the merge block. */
  lemma PhiReachesMerge(f: seq<CFGBlock>, order: seq<nat>, name: string, x: nat, lo: nat, hi: nat, lo': nat, hi': nat, m: nat, q: nat)
    requires Mirrored(f) && Ordered(f, order) && (forall b :: 0 <= b < |f| ==> b in order) && PhisPlaced(f, name)
    requires Arm(f, order, x, lo, hi, m) && Arm(f, order, x, lo', hi', m) && (hi < lo' || hi' < lo)
    requires q in order && lo <= Pos(order, q) <= hi && HasPhi(f, q, name)
    ensures HasPhi(f, order[m], name)
  {
    if !HasPhi(f, order[m], name) {
      var g, j := SuccsOf(f), Pos(order, q);
      AllReachable(f, order, j);
      var p0 :| PathTo(g, p0, q);
      var e := RegionExit(f, order, lo, hi, j);
      PathJoin(g, p0, e, 0, q, order[hi]);
      PathAppend(g, p0 + e[1..], 0, order[hi], order[m]);
      var p := p0 + e[1..] + [order[m]];
      var k := LastDefAfter(f, name, p, |p0| - 1);
      LastDefDominates(f, name, order[m], p, k, |p| - 1);
      assert p[k] == e[k - |p0| + 1];
      RegionDominated(f, order, lo, hi, Pos(order, p[k]));
      DomTransitive(g, order[lo], p[k], order[m]);
      AllReachable(f, order, m);
      ArmDominatesArmOnly(f, order, x, lo, hi, lo', hi', m, order[m]);
      PosUnique(order, m);
    }
  }

  lemma LastDefAfter(f: seq<CFGBlock>, name: string, p: seq<nat>, i: nat) returns (k: nat)
    requires i + 1 < |p| && Defines(f, p[i], name)
    ensures i <= k && LastDefOn(f, name, p, k)
  {
    k := |p| - 2;
    while !Defines(f, p[k], name)
      invariant i <= k < |p| - 1
      invariant forall j :: k < j < |p| - 1 ==> !Defines(f, p[j], name)
      decreases k
    {
      k := k - 1;
    }
  }

  // ---------------------------------------------------------------- the main results

  lemma RecordThenRegion(f: seq<CFGBlock>, order: seq<nat>, r: IfRecord)
    requires RecordOk(f, order, r)
    ensures Region(f, order, r.p + 1, r.ht)
  {
  }

  /** The failing programs: a phi inside a then-arm is left over when the else-arm is entered. */
  lemma ElseArmPolluted(f: seq<CFGBlock>, order: seq<nat>, records: seq<IfRecord>, name: string, k: nat, j: nat)
    requires Built(f, order, records) && TreeOk(f) && k < |records|
    requires records[k].p + 1 <= j <= records[k].ht < |order| && HasPhi(f, order[j], name)
    ensures records[k].ht + 1 < |order| && Polluted(f, name, order[records[k].ht + 1])
  {
    hide Ordered, Mirrored, RecordOk, Region, TreeOk, HasPhi, Dom, Reachable;
    var r := records[k];
    assert RecordIn(f, order, 0, |order| - 1, r);
    RecordPositions(f, order, r);
    RecordDominators(f, order, r);
    RecordThenRegion(f, order, r);
    RegionDominated(f, order, r.p + 1, r.ht, j);
    AllReachable(f, order, j);
    assert Covers(r, r.p + 1) && Covers(r, r.ht + 1);
    assert PollutedBy(f, name, order[r.ht + 1], order[r.p + 1], order[j]);
  }
}
