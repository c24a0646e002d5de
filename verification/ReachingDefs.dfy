/** Which definition a renamed use names. The specification is over paths: the last block on a path
    that defines the variable. */
module ReachingDefs {
  import opened Common
  import opened Ir
  import opened Dominance
  import opened Cfg
  import opened DominatorTree
  import opened Renaming

  // ---------------------------------------------------------------- specification

  /** On `p`, `p[k]` is the last block before the end that defines `name`. */
  ghost predicate LastDefOn(blocks: seq<CFGBlock>, name: string, p: seq<nat>, k: nat) {
    && k + 1 < |p| && Defines(blocks, p[k], name)
    && forall j :: k < j < |p| - 1 ==> !Defines(blocks, p[j], name)
  }

  /** Every block in the frontier of a definition has a phi. */
  ghost predicate PhisPlaced(blocks: seq<CFGBlock>, name: string) {
    var g := SuccsOf(blocks);
    forall b, y :: Reachable(g, b) && Defines(blocks, b, name) && InFrontier(g, b, y) ==> HasPhi(blocks, y, name)
  }

  /** The index of the last definition of `name` in a list of statements. */
  function LastIndexOf(s: seq<IRNode>, name: string): (r: Option<int>) {
    if s == [] then None
    else if IsDef(s[|s| - 1], name) then Some(s[|s| - 1].variable.ssaIndex)
    else LastIndexOf(s[..|s| - 1], name)
  }

  /** Every occurrence of `name` read by the statement carries index `i`. */
  ghost predicate UsesCarry(s: IRNode, name: string, i: int) {
    match s
    case IRAssignment(_, rhs) => Carries(rhs, name, i)
    case IRBranch(Some(c), _, _) => Carries(c, name, i)
    case _ => true
  }

  ghost predicate Carries(n: ASTNode, name: string, i: int) {
    match n
    case ASTSymbol(s) => s.name == name ==> s.ssaIndex == i
    case ASTAssign(x, e) => (x.name == name ==> x.ssaIndex == i) && Carries(e, name, i)
    case ASTBinary(_, l, r) => Carries(l, name, i) && Carries(r, name, i)
    case _ => true
  }

  /** An earlier sibling of `z` in the dominator tree has a phi for `name` in its subtree, whose stack
      entry the traversal never pops. */
  ghost predicate Polluted(blocks: seq<CFGBlock>, name: string, z: nat) {
    exists w, q :: PollutedBy(blocks, name, z, w, q)
  }

  ghost predicate PollutedBy(blocks: seq<CFGBlock>, name: string, z: nat, w: nat, q: nat) {
    var g := SuccsOf(blocks);
    && w < z && z < |blocks| && blocks[w].dominator.Some? && blocks[w].dominator == blocks[z].dominator
    && Reachable(g, q) && Dom(g, w, q) && HasPhi(blocks, q, name)
  }

  /** Nothing is left on the stack between the definitions of `d` and the entry of `y`. */
  ghost predicate Unpolluted(blocks: seq<CFGBlock>, name: string, d: nat, y: nat) {
    var g := SuccsOf(blocks);
    forall z :: SDom(g, d, z) && Dom(g, z, y) && Reachable(g, z) ==> !Polluted(blocks, name, z)
  }

  /** The closest strict dominator of `y` that defines `name`. */
  ghost predicate NearestDef(blocks: seq<CFGBlock>, name: string, d: nat, y: nat) {
    var g := SuccsOf(blocks);
    && SDom(g, d, y) && Defines(blocks, d, name)
    && forall e :: SDom(g, e, y) && Defines(blocks, e, name) ==> Dom(g, e, d)
  }

  // ---------------------------------------------------------------- paths

  /** With phis placed, the last definition on any path to `y` dominates `y`. */
  lemma LastDefDominates(blocks: seq<CFGBlock>, name: string, y: nat, p: seq<nat>, k: nat, m: nat)
    requires PhisPlaced(blocks, name) && PathTo(SuccsOf(blocks), p, y) && LastDefOn(blocks, name, p, k)
    requires !HasPhi(blocks, y, name) && k <= m < |p|
    ensures Dom(SuccsOf(blocks), p[k], p[m]) && (m > k ==> p[m] != p[k])
    decreases m
  {
    var g := SuccsOf(blocks);
    if m == k {
      DomReflexive(g, p[k]);
    } else {
      LastDefDominates(blocks, name, y, p, k, m - 1);
      ReachableOnPath(g, p, m - 1);
      ReachableOnPath(g, p, k);
      assert Edge(g, p[m - 1], p[m]);
      if !SDom(g, p[k], p[m]) {
        assert InFrontier(g, p[k], p[m]);
      }
    }
  }

  /** ... and is the nearest definition in the dominator tree, whatever the path. */
  lemma LastDefIsNearest(blocks: seq<CFGBlock>, name: string, y: nat, p: seq<nat>, k: nat, d: nat)
    requires PhisPlaced(blocks, name) && PathTo(SuccsOf(blocks), p, y) && LastDefOn(blocks, name, p, k)
    requires !HasPhi(blocks, y, name) && NearestDef(blocks, name, d, y)
    ensures p[k] == d
  {
    var g := SuccsOf(blocks);
    LastDefDominates(blocks, name, y, p, k, |p| - 1);
    assert Dom(g, p[k], d);
    if p[k] != d {
      DomThroughLast(g, d, p[k], y, p, k);
      ReachableOnPath(g, p, k);
      DomAntisymmetric(g, d, p[k]);
    }
  }

  lemma NearestDefExists(blocks: seq<CFGBlock>, name: string, y: nat, p: seq<nat>) returns (d: nat)
    requires PathTo(SuccsOf(blocks), p, y) && DefinedAbove(blocks, y, name)
    ensures NearestDef(blocks, name, d, y)
    decreases |p|
  {
    var g := SuccsOf(blocks);
    var e :| SDom(g, e, y) && Defines(blocks, e, name);
    if y == 0 { NothingAboveEntry(blocks, name); }
    var x, k := IDomExists(g, y, p);
    if Defines(blocks, x, name) {
      d := x;
    } else {
      PathPrefix(g, p, k);
      assert SDom(g, e, x);
      d := NearestDefExists(blocks, name, x, p[..k + 1]);
      DomTransitive(g, d, x, y);
      SDomTransitive(g, d, x, y);
      forall f | SDom(g, f, y) && Defines(blocks, f, name) ensures Dom(g, f, d) {
        assert SDom(g, f, x);
      }
    }
  }

  /** A path that passes a definition has a last one. */
  lemma LastDefExists(blocks: seq<CFGBlock>, name: string, y: nat, p: seq<nat>) returns (k: nat)
    requires PathTo(SuccsOf(blocks), p, y) && DefinedAbove(blocks, y, name)
    ensures LastDefOn(blocks, name, p, k)
  {
    var e :| SDom(SuccsOf(blocks), e, y) && Defines(blocks, e, name);
    assert e in p;
    k := |p| - 2;
    while !Defines(blocks, p[k], name)
      invariant k < |p| - 1 && exists i :: 0 <= i <= k && Defines(blocks, p[i], name)
      invariant forall j :: k < j < |p| - 1 ==> !Defines(blocks, p[j], name)
      decreases k
    {
      k := k - 1;
    }
  }

  // ---------------------------------------------------------------- what is left on the stack

  lemma CountPositive(blocks: seq<CFGBlock>, name: string, x: nat)
    requires TreeOk(blocks) && x < |blocks| && Reachable(SuccsOf(blocks), x)
    ensures PhisBelow(blocks, name, x) > 0 <==>
            exists q :: q in Below(SuccsOf(blocks), x) && HasPhi(blocks, q, name)
    decreases Below(SuccsOf(blocks), x), |Children(blocks, x)| + 1
  {
    var n := |Children(blocks, x)|;
    CountChildrenPositive(blocks, name, x, n);
    BelowSplits(blocks, x);
    BelowSelf(SuccsOf(blocks), x);
  }

  lemma CountChildrenPositive(blocks: seq<CFGBlock>, name: string, x: nat, k: nat)
    requires TreeOk(blocks) && x < |blocks| && k <= |Children(blocks, x)|
    ensures PhisBelowChildren(blocks, name, x, k) > 0 <==>
            exists q :: q in BelowChildren(blocks, x, k) && HasPhi(blocks, q, name)
    decreases Below(SuccsOf(blocks), x), k
  {
    if k > 0 {
      ChildFacts(blocks, x, k - 1);
      CountChildrenPositive(blocks, name, x, k - 1);
      CountPositive(blocks, name, Children(blocks, x)[k - 1]);
    }
  }

  /** A child is polluted exactly when something was left by the children before it. */
  lemma PollutedMeans(blocks: seq<CFGBlock>, name: string, x: nat, k: nat)
    requires TreeOk(blocks) && x < |blocks| && k < |Children(blocks, x)|
    ensures Polluted(blocks, name, Children(blocks, x)[k]) <==> PhisBelowChildren(blocks, name, x, k) > 0
  {
    hide PhisBelowChildren, HasPhi, TreeOk, PollutedBy, Dominance.Dom, Dominance.Reachable, Below, BelowChildren;
    var z := Children(blocks, x)[k];
    CountChildrenPositive(blocks, name, x, k);
    if PhisBelowChildren(blocks, name, x, k) > 0 {
      var q :| q in BelowChildren(blocks, x, k) && HasPhi(blocks, q, name);
      BelowChildrenMember(blocks, x, k, q);
      var j :| 0 <= j < k && q in Below(SuccsOf(blocks), Children(blocks, x)[j]);
      LeftByChild(blocks, name, x, j, k, q);
    }
    if Polluted(blocks, name, z) {
      var w, q :| PollutedBy(blocks, name, z, w, q);
      var j := PolluterIsChild(blocks, name, x, k, w, q);
      BelowChildrenMember(blocks, x, k, q);
    }
  }

  lemma LeftByChild(blocks: seq<CFGBlock>, name: string, x: nat, j: nat, k: nat, q: nat)
    requires TreeOk(blocks) && x < |blocks| && j < k < |Children(blocks, x)|
    requires q in Below(SuccsOf(blocks), Children(blocks, x)[j]) && HasPhi(blocks, q, name)
    ensures PollutedBy(blocks, name, Children(blocks, x)[k], Children(blocks, x)[j], q)
  {
    ChildrenBelowMembers(blocks, x, |blocks|);
    assert Children(blocks, x) == ChildrenBelow(blocks, x, |blocks|);
    assert Children(blocks, x)[j] in Children(blocks, x) && Children(blocks, x)[k] in Children(blocks, x);
  }

  lemma PolluterIsChild(blocks: seq<CFGBlock>, name: string, x: nat, k: nat, w: nat, q: nat) returns (j: nat)
    requires TreeOk(blocks) && x < |blocks| && k < |Children(blocks, x)|
    requires PollutedBy(blocks, name, Children(blocks, x)[k], w, q)
    ensures j < k && q in Below(SuccsOf(blocks), Children(blocks, x)[j]) && HasPhi(blocks, q, name)
  {
    ChildrenBelowMembers(blocks, x, |blocks|);
    assert Children(blocks, x) == ChildrenBelow(blocks, x, |blocks|);
    assert Children(blocks, x)[k] in Children(blocks, x);
    assert w in Children(blocks, x);
    j :| 0 <= j < |Children(blocks, x)| && Children(blocks, x)[j] == w;
    ReachableInRange(SuccsOf(blocks), q);
  }

  // ---------------------------------------------------------------- what is on top of the stack

  /** The block is entered with the index of its nearest definition on the stack, and on top of it
      exactly when nothing was left in between. */
  lemma IncomingTop(blocks: seq<CFGBlock>, name: string, visits: map<nat, Visit>, now: seq<CFGBlock>,
                    y: nat, d: nat, p: seq<nat>)
    requires IsRenaming(blocks, name, visits, now) && PathTo(SuccsOf(blocks), p, y) && NearestDef(blocks, name, d, y)
    ensures d in visits && y in visits && d < |blocks|
    ensures OutTop(blocks[d].statements, name, visits[d]) in visits[y].stack
    ensures Top(visits[y].stack) == OutTop(blocks[d].statements, name, visits[d]) <==> Unpolluted(blocks, name, d, y)
    decreases |p|
  {
    var g := SuccsOf(blocks);
    assert Reachable(g, y);
    DominatorReachable(g, d, y);
    if y == 0 { NothingAboveEntry(blocks, name); }
    var x, m := IDomExists(g, y, p);
    DominatorReachable(g, x, y);
    ReachableInRange(g, x);
    var k := ChildIndex(blocks, x, y);
    assert ChildVisits(blocks, name, visits, x);
    assert ChildVisit(blocks, name, visits, x, k);
    PollutedMeans(blocks, name, x, k);
    var out := OutTop(blocks[d].statements, name, visits[d]);
    var pushed := Pushed(blocks[x].statements, name, visits[x]);
    if x == d {
      PushedTop(blocks[x].statements, name, visits[x]);
      UnpollutedChild(blocks, name, d, y);
      TopOfPrefix(pushed, visits[y].stack, out);
    } else {
      NearestOfParent(blocks, name, d, x, y);
      PathPrefix(g, p, m);
      IncomingTop(blocks, name, visits, now, x, d, p[..m + 1]);
      assert pushed == visits[x].stack;
      UnpollutedStep(blocks, name, d, x, y);
      TopOfPrefix(pushed, visits[y].stack, out);
    }
  }

  lemma ChildIndex(blocks: seq<CFGBlock>, x: nat, y: nat) returns (k: nat)
    requires TreeOk(blocks) && x < |blocks| && Reachable(SuccsOf(blocks), y) && IDom(SuccsOf(blocks), x, y)
    ensures k < |Children(blocks, x)| && Children(blocks, x)[k] == y
  {
    ChildListed(blocks, SuccsOf(blocks), x, y);
    k :| 0 <= k < |Children(blocks, x)| && Children(blocks, x)[k] == y;
  }

  lemma PushedTop(s: seq<IRNode>, name: string, v: Visit)
    requires CountDefs(s, name) > 0
    ensures Pushed(s, name, v) != [] && Top(Pushed(s, name, v)) == OutTop(s, name, v)
  {
    assert s[..|s|] == s;
  }

  /** In an increasing stack an entry of a prefix is on top only if it is the last of the prefix and
      nothing follows. */
  lemma TopOfPrefix(pre: seq<int>, stack: seq<int>, out: int)
    requires pre <= stack && Increasing(stack) && out in pre
    ensures out in stack
    ensures Top(stack) == out <==> (|stack| == |pre| && Top(pre) == out)
  {
    var i :| 0 <= i < |pre| && pre[i] == out;
    assert stack[i] == out;
  }

  /** Directly below the definition only the block itself matters. */
  lemma UnpollutedChild(blocks: seq<CFGBlock>, name: string, d: nat, y: nat)
    requires Reachable(SuccsOf(blocks), y) && IDom(SuccsOf(blocks), d, y)
    ensures Unpolluted(blocks, name, d, y) <==> !Polluted(blocks, name, y)
  {
    var g := SuccsOf(blocks);
    DomReflexive(g, y);
    forall z | SDom(g, d, z) && Dom(g, z, y) && Reachable(g, z) ensures z == y {
      if z != y {
        assert Dom(g, z, d);
        DomAntisymmetric(g, d, z);
      }
    }
  }

  lemma NearestOfParent(blocks: seq<CFGBlock>, name: string, d: nat, x: nat, y: nat)
    requires Reachable(SuccsOf(blocks), y) && IDom(SuccsOf(blocks), x, y) && NearestDef(blocks, name, d, y) && x != d
    ensures NearestDef(blocks, name, d, x) && !Defines(blocks, x, name)
  {
    var g := SuccsOf(blocks);
    assert Dom(g, d, x);
    if Defines(blocks, x, name) {
      DomAntisymmetric(g, d, x);
    }
    forall e | SDom(g, e, x) && Defines(blocks, e, name) ensures Dom(g, e, d) {
      SDomTransitive(g, e, x, y);
    }
  }

  lemma UnpollutedStep(blocks: seq<CFGBlock>, name: string, d: nat, x: nat, y: nat)
    requires Reachable(SuccsOf(blocks), y) && IDom(SuccsOf(blocks), x, y) && SDom(SuccsOf(blocks), d, x)
    ensures Unpolluted(blocks, name, d, y) <==> !Polluted(blocks, name, y) && Unpolluted(blocks, name, d, x)
  {
    var g := SuccsOf(blocks);
    DomReflexive(g, y);
    SDomTransitive(g, d, x, y);
    forall z | SDom(g, d, z) && Reachable(g, z) ensures Dom(g, z, y) <==> z == y || Dom(g, z, x) {
      if Dom(g, z, x) { DomTransitive(g, z, x, y); }
    }
  }

  // ---------------------------------------------------------------- reading the indices off the result

  lemma CarriesSet(n: ASTNode, name: string, t: int, i: int)
    ensures Carries(SetIndex(n, name, t), name, i) <==> (Mentions(n, name) ==> t == i)
  {
  }

  lemma UsesCarryRenamed(s: IRNode, name: string, t: int, j: int, i: int)
    ensures UsesCarry(Renamed(s, name, t, j), name, i) <==> (ReadsIn(s, name) ==> t == i)
  {
    match s
    case IRAssignment(_, rhs) => CarriesSet(rhs, name, t, i);
    case IRBranch(Some(c), _, _) => CarriesSet(c, name, t, i);
    case _ =>
  }

  /** A visited statement keeps what it defines and gets the index the traversal gave it. */
  lemma DefIndex(blocks: seq<CFGBlock>, name: string, visits: map<nat, Visit>, now: seq<CFGBlock>, y: nat, i: nat)
    requires Annotated(blocks, name, visits, now) && y < |blocks| && y in visits && i < |blocks[y].statements|
    ensures i < |now[y].statements|
    ensures IsDef(now[y].statements[i], name) <==> IsDef(blocks[y].statements[i], name)
    ensures IsDef(blocks[y].statements[i], name) ==>
              now[y].statements[i].variable.ssaIndex == visits[y].start + CountDefs(blocks[y].statements[..i], name)
    ensures !blocks[y].statements[i].IRPhiNode? ==>
              now[y].statements[i] == RenamedAt(blocks[y].statements, i, name, visits[y].start, Top(visits[y].stack))
  {
    assert AnnotatedBlock(blocks, name, visits, y, now[y]);
    assert now[y].statements[i] == Final(blocks, name, visits, y, i);
  }

  lemma NoDefsInEmpty(name: string)
    ensures CountDefs([], name) == 0
  {
  }

  /** The last definition among the first `i` statements carries the index that was then on top. */
  lemma LastIndexIsTop(blocks: seq<CFGBlock>, name: string, visits: map<nat, Visit>, now: seq<CFGBlock>, y: nat, i: nat)
    requires Annotated(blocks, name, visits, now) && y < |blocks| && y in visits && i <= |blocks[y].statements|
    ensures i <= |now[y].statements|
    ensures LastIndexOf(now[y].statements[..i], name) ==
            if CountDefs(blocks[y].statements[..i], name) > 0
            then Some(TopAt(blocks[y].statements, i, name, visits[y].start, Top(visits[y].stack))) else None
    decreases i
  {
    hide IsDef, CountDefs, Final;
    assert AnnotatedBlock(blocks, name, visits, y, now[y]);
    assert i == 0 ==> CountDefs(blocks[y].statements[..i], name) == 0 by { NoDefsInEmpty(name); }
    if i > 0 {
      LastIndexIsTop(blocks, name, visits, now, y, i - 1);
      DefIndex(blocks, name, visits, now, y, i - 1);
      DefStep(blocks[y].statements, i - 1, name);
      assert now[y].statements[..i][..i - 1] == now[y].statements[..i - 1];
      assert now[y].statements[..i][i - 1] == now[y].statements[i - 1];
    }
  }

  lemma LastIndexIsOut(blocks: seq<CFGBlock>, name: string, visits: map<nat, Visit>, now: seq<CFGBlock>, y: nat)
    requires Annotated(blocks, name, visits, now) && y < |blocks| && y in visits && Defines(blocks, y, name)
    ensures LastIndexOf(now[y].statements, name) == Some(OutTop(blocks[y].statements, name, visits[y]))
  {
    assert AnnotatedBlock(blocks, name, visits, y, now[y]);
    var n := |now[y].statements|;
    LastIndexIsTop(blocks, name, visits, now, y, n);
    assert now[y].statements[..n] == now[y].statements;
    assert blocks[y].statements[..n] == blocks[y].statements;
  }

  // ---------------------------------------------------------------- the main results on renaming

  /** Different definitions of a variable get different indices. */
  lemma DefinitionsDistinct(blocks: seq<CFGBlock>, name: string, visits: map<nat, Visit>, now: seq<CFGBlock>, c: int,
                            y: nat, i: nat, z: nat, j: nat)
    requires IsRenaming(blocks, name, visits, now) && IndicesApart(blocks, name, visits, c)
    requires Reachable(SuccsOf(blocks), y) && Reachable(SuccsOf(blocks), z) && (y != z || i != j)
    requires y < |blocks| && i < |blocks[y].statements| && IsDef(blocks[y].statements[i], name)
    requires z < |blocks| && j < |blocks[z].statements| && IsDef(blocks[z].statements[j], name)
    ensures i < |now[y].statements| && j < |now[z].statements|
    ensures IsDef(now[y].statements[i], name) && IsDef(now[z].statements[j], name)
    ensures now[y].statements[i].variable.ssaIndex != now[z].statements[j].variable.ssaIndex
  {
    hide Annotated, TreeOk, ChildVisits, CountDefs, IsDef;
    assert y in visits && z in visits;
    DefIndex(blocks, name, visits, now, y, i);
    DefIndex(blocks, name, visits, now, z, j);
    DefStep(blocks[y].statements, i, name);
    DefStep(blocks[z].statements, j, name);
    DefsMonotone(blocks[y].statements, i + 1, name);
    DefsMonotone(blocks[z].statements, j + 1, name);
    if y == z {
      DefsBetween(blocks[y].statements, if i < j then i + 1 else j + 1, if i < j then j else i, name);
    }
  }

  lemma DefsMonotone(s: seq<IRNode>, i: nat, name: string)
    requires i <= |s|
    ensures CountDefs(s[..i], name) <= CountDefs(s, name)
  {
    CountMonotone(s, i, name);
  }

  lemma DefsBetween(s: seq<IRNode>, i: nat, j: nat, name: string)
    requires i <= j <= |s|
    ensures CountDefs(s[..i], name) <= CountDefs(s[..j], name)
  {
    DefsMonotone(s[..j], i, name);
    assert s[..j][..i] == s[..i];
  }

  /** A use after a definition in its own block names that definition. */
  lemma LocalUse(blocks: seq<CFGBlock>, name: string, visits: map<nat, Visit>, now: seq<CFGBlock>, y: nat, i: nat)
    requires IsRenaming(blocks, name, visits, now) && y < |blocks| && Reachable(SuccsOf(blocks), y)
    requires i < |blocks[y].statements| && CountDefs(blocks[y].statements[..i], name) > 0
    ensures i < |now[y].statements| && LastIndexOf(now[y].statements[..i], name).Some?
    ensures UsesCarry(now[y].statements[i], name, LastIndexOf(now[y].statements[..i], name).value)
  {
    LastIndexIsTop(blocks, name, visits, now, y, i);
    DefIndex(blocks, name, visits, now, y, i);
    var s := blocks[y].statements;
    if !s[i].IRPhiNode? {
      var top := TopAt(s, i, name, visits[y].start, Top(visits[y].stack));
      UsesCarryRenamed(s[i], name, top, visits[y].start + CountDefs(s[..i], name), top);
    } else {
      assert AnnotatedBlock(blocks, name, visits, y, now[y]);
      assert now[y].statements[i] == Final(blocks, name, visits, y, i);
    }
  }

  /** A use before any definition in its block names the last definition on every path to the block,
      exactly when no entry of an earlier sibling's phi was left on the stack. */
  lemma IncomingUse(blocks: seq<CFGBlock>, name: string, visits: map<nat, Visit>, now: seq<CFGBlock>,
                    y: nat, i: nat, p: seq<nat>, k: nat)
    requires IsRenaming(blocks, name, visits, now) && PhisPlaced(blocks, name)
    requires y < |blocks| && !HasPhi(blocks, y, name) && ReadsIncoming(blocks[y].statements, i, name)
    requires PathTo(SuccsOf(blocks), p, y) && LastDefOn(blocks, name, p, k)
    ensures p[k] < |now| && i < |now[y].statements| && LastIndexOf(now[p[k]].statements, name).Some?
    ensures UsesCarry(now[y].statements[i], name, LastIndexOf(now[p[k]].statements, name).value) <==>
            Unpolluted(blocks, name, p[k], y)
  {
    hide Annotated, Unpolluted, PhisPlaced, TreeOk, NearestDef, UsesCarry, ChildVisits;
    AnnotatedLinks(blocks, name, visits, y, now);
    LastDefIs(blocks, name, y, p, k);
    IncomingTop(blocks, name, visits, now, y, p[k], p);
    LastIndexIsOut(blocks, name, visits, now, p[k]);
    assert !blocks[y].statements[i].IRPhiNode?;
    DefIndex(blocks, name, visits, now, y, i);
    UsesCarryRenamed(blocks[y].statements[i], name, Top(visits[y].stack), visits[y].start + CountDefs(blocks[y].statements[..i], name),
                     OutTop(blocks[p[k]].statements, name, visits[p[k]]));
  }

  lemma LastDefIs(blocks: seq<CFGBlock>, name: string, y: nat, p: seq<nat>, k: nat)
    requires PhisPlaced(blocks, name) && PathTo(SuccsOf(blocks), p, y) && LastDefOn(blocks, name, p, k)
    requires !HasPhi(blocks, y, name)
    ensures NearestDef(blocks, name, p[k], y) && p[k] < |blocks| && Defines(blocks, p[k], name) && Reachable(SuccsOf(blocks), y)
  {
    LastDefDominates(blocks, name, y, p, k, |p| - 1);
    assert DefinedAbove(blocks, y, name);
    var d := NearestDefExists(blocks, name, y, p);
    LastDefIsNearest(blocks, name, y, p, k, d);
  }

  /** The same for the argument that a phi of `y` takes from its predecessor `q`: `p` ends in `q`. */
  lemma PhiArgument(blocks: seq<CFGBlock>, name: string, visits: map<nat, Visit>, now: seq<CFGBlock>,
                    y: nat, i: nat, q: nat, p: seq<nat>, k: nat)
    requires IsRenaming(blocks, name, visits, now) && PhisPlaced(blocks, name)
    requires q < |blocks| && y < |blocks| && y in blocks[q].succs
    requires i < |blocks[y].statements| && TakesArg(blocks[y].statements[i], q, name)
    requires PathTo(SuccsOf(blocks), p, q) && LastDefOn(blocks, name, p + [y], k)
    ensures p[k] < |now| && i < |now[y].statements| && TakesArg(now[y].statements[i], q, name)
    ensures LastIndexOf(now[p[k]].statements, name).Some?
    ensures now[y].statements[i].blockToVarMap[q].ssaIndex == LastIndexOf(now[p[k]].statements, name).value <==>
            Unpolluted(blocks, name, p[k], q)
  {
    hide Unpolluted, PhisPlaced, TreeOk, NearestDef, ChildVisits;
    ArgIsOut(blocks, name, visits, now, y, i, q, p);
    assert (p + [y])[k] == p[k];
    if k == |p| - 1 {
      LastIndexIsOut(blocks, name, visits, now, q);
      UnpollutedSelf(blocks, name, q);
    } else {
      assert !Defines(blocks, (p + [y])[|p| - 1], name);
      assert forall j :: k < j < |p| - 1 ==> (p + [y])[j] == p[j];
      assert LastDefOn(blocks, name, p, k);
      LastDefIs(blocks, name, q, p, k);
      IncomingTop(blocks, name, visits, now, q, p[k], p);
      LastIndexIsOut(blocks, name, visits, now, p[k]);
      assert blocks[q].statements[..|blocks[q].statements|] == blocks[q].statements;
    }
  }

  lemma ArgIsOut(blocks: seq<CFGBlock>, name: string, visits: map<nat, Visit>, now: seq<CFGBlock>, y: nat, i: nat, q: nat, p: seq<nat>)
    requires IsRenaming(blocks, name, visits, now) && PathTo(SuccsOf(blocks), p, q)
    requires q < |blocks| && y < |blocks| && y in blocks[q].succs
    requires i < |blocks[y].statements| && TakesArg(blocks[y].statements[i], q, name)
    ensures q in visits && i < |now[y].statements| && TakesArg(now[y].statements[i], q, name)
    ensures now[y].statements[i].blockToVarMap[q].ssaIndex == OutTop(blocks[q].statements, name, visits[q])
  {
    assert Reachable(SuccsOf(blocks), q);
    assert AnnotatedBlock(blocks, name, visits, y, now[y]);
    assert now[y].statements[i] == Final(blocks, name, visits, y, i);
  }

  lemma UnpollutedSelf(blocks: seq<CFGBlock>, name: string, q: nat)
    ensures Unpolluted(blocks, name, q, q)
  {
    var g := SuccsOf(blocks);
    forall z | Dom(g, q, z) && Dom(g, z, q) && Reachable(g, z) ensures z == q {
      DomAntisymmetric(g, q, z);
    }
  }
}
