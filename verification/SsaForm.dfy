/** The result of the whole pass: what it means for a graph to be in SSA form for a variable, and that
    renaming one variable establishes it without disturbing the others. */
module SsaForm {
  import opened Common
  import opened Ir
  import opened Dominance
  import opened Cfg
  import opened DominatorTree
  import opened Renaming
  import opened ReachingDefs

  // ---------------------------------------------------------------- the specification

  /** Statement `i` of `y` reads `name` before any definition in `y`, and `p[k]` is the last definition
      on the path `p` to `y`. */
  ghost predicate IncomingRead(f: seq<CFGBlock>, name: string, y: nat, i: nat, p: seq<nat>, k: nat) {
    && y < |f| && !HasPhi(f, y, name) && ReadsIncoming(f[y].statements, i, name)
    && PathTo(SuccsOf(f), p, y) && LastDefOn(f, name, p, k)
  }

  ghost predicate ReadNames(f: seq<CFGBlock>, name: string, y: nat, i: nat, d: nat) {
    && y < |f| && i < |f[y].statements| && d < |f| && LastIndexOf(f[d].statements, name).Some?
    && UsesCarry(f[y].statements[i], name, LastIndexOf(f[d].statements, name).value)
  }

  ghost predicate ArgumentRead(f: seq<CFGBlock>, name: string, y: nat, i: nat, q: nat, p: seq<nat>, k: nat) {
    && q < |f| && y < |f| && y in f[q].succs && i < |f[y].statements| && TakesArg(f[y].statements[i], q, name)
    && PathTo(SuccsOf(f), p, q) && LastDefOn(f, name, p + [y], k)
  }

  ghost predicate ArgumentNames(f: seq<CFGBlock>, name: string, y: nat, i: nat, q: nat, d: nat) {
    && y < |f| && i < |f[y].statements| && TakesArg(f[y].statements[i], q, name)
    && d < |f| && LastIndexOf(f[d].statements, name).Some?
    && f[y].statements[i].blockToVarMap[q].ssaIndex == LastIndexOf(f[d].statements, name).value
  }

  /** Reads name the definition that reaches them on every path, exactly where nothing is left over. */
  ghost predicate ReadsRight(f: seq<CFGBlock>, name: string) {
    && (forall y, i, p, k :: IncomingRead(f, name, y, i, p, k) ==>
          (ReadNames(f, name, y, i, p[k]) <==> Unpolluted(f, name, p[k], y)))
    && (forall y, i, q, p, k :: ArgumentRead(f, name, y, i, q, p, k) ==>
          (ArgumentNames(f, name, y, i, q, p[k]) <==> Unpolluted(f, name, p[k], q)))
  }

  ghost predicate DefAt(f: seq<CFGBlock>, name: string, y: nat, i: nat) {
    && y < |f| && Reachable(SuccsOf(f), y) && i < |f[y].statements| && IsDef(f[y].statements[i], name)
  }

  ghost predicate DefsApart(f: seq<CFGBlock>, name: string) {
    forall y: nat, i: nat, z: nat, j: nat :: DefAt(f, name, y, i) && DefAt(f, name, z, j) && (y != z || i != j) ==>
      f[y].statements[i].variable.ssaIndex != f[z].statements[j].variable.ssaIndex
  }

  /** Definition `i` of block `y` carries index `k`. */
  ghost predicate CarriesIndex(f: seq<CFGBlock>, name: string, y: nat, i: nat, k: int) {
    DefAt(f, name, y, i) && f[y].statements[i].variable.ssaIndex == k
  }

  ghost predicate Carried(f: seq<CFGBlock>, name: string, k: int) {
    exists y: nat, i: nat :: CarriesIndex(f, name, y, i, k)
  }

  /** The indices of the definitions that can be reached are 0 to n - 1, and each occurs. */
  ghost predicate NumberedTo(f: seq<CFGBlock>, name: string, n: nat) {
    && (forall y: nat, i: nat :: DefAt(f, name, y, i) ==> 0 <= f[y].statements[i].variable.ssaIndex < n)
    && (forall k :: 0 <= k < n ==> Carried(f, name, k))
  }

  /** With different indices for different definitions: the indices are 0, 1, 2, ... without a gap. */
  ghost predicate Numbered(f: seq<CFGBlock>, name: string) {
    exists n :: NumberedTo(f, name, n)
  }

  ghost predicate LocalReadsRight(f: seq<CFGBlock>, name: string) {
    forall y, i :: LocalRead(f, name, y, i) ==> LocalNames(f, name, y, i)
  }

  ghost predicate LocalRead(f: seq<CFGBlock>, name: string, y: nat, i: nat) {
    && y < |f| && Reachable(SuccsOf(f), y) && i < |f[y].statements| && CountDefs(f[y].statements[..i], name) > 0
  }

  ghost predicate LocalNames(f: seq<CFGBlock>, name: string, y: nat, i: nat) {
    && y < |f| && i < |f[y].statements| && LastIndexOf(f[y].statements[..i], name).Some?
    && UsesCarry(f[y].statements[i], name, LastIndexOf(f[y].statements[..i], name).value)
  }

  ghost predicate InSsaForm(f: seq<CFGBlock>, name: string) {
    DefsApart(f, name) && Numbered(f, name) && LocalReadsRight(f, name) && ReadsRight(f, name)
  }

  // ---------------------------------------------------------------- indices do not matter to the shape

  function EraseNode(n: ASTNode): (r: ASTNode) {
    match n
    case ASTSymbol(s) => ASTSymbol(s.(ssaIndex := 0))
    case ASTAssign(x, e) => ASTAssign(x.(ssaIndex := 0), EraseNode(e))
    case ASTBinary(op, l, r) => ASTBinary(op, EraseNode(l), EraseNode(r))
    case _ => n
  }

  function Erase(s: IRNode): (r: IRNode) {
    match s
    case IRAssignment(x, rhs) => IRAssignment(x.(ssaIndex := 0), EraseNode(rhs))
    case IRBranch(Some(c), a, b) => IRBranch(Some(EraseNode(c)), a, b)
    case IRPhiNode(x, args) => IRPhiNode(x.(ssaIndex := 0), map q | q in args :: args[q].(ssaIndex := 0))
    case _ => s
  }

  /** The graphs differ in indices only. */
  ghost predicate SameShape(f: seq<CFGBlock>, g: seq<CFGBlock>) {
    |f| == |g| && forall y :: 0 <= y < |f| ==> SameBlock(f[y], g[y])
  }

  ghost predicate SameBlock(b: CFGBlock, c: CFGBlock) {
    && c == b.(statements := c.statements) && |b.statements| == |c.statements|
    && forall i :: 0 <= i < |b.statements| ==> Erase(b.statements[i]) == Erase(c.statements[i])
  }

  lemma MentionsErased(n: ASTNode, name: string)
    ensures Mentions(EraseNode(n), name) <==> Mentions(n, name)
  {
  }

  lemma SetIndexErased(n: ASTNode, name: string, i: int)
    ensures EraseNode(SetIndex(n, name, i)) == EraseNode(n)
  {
  }

  lemma SameStatement(s: IRNode, t: IRNode, name: string, b: nat)
    requires Erase(s) == Erase(t)
    ensures IsPhi(s, name) <==> IsPhi(t, name)
    ensures IsAssign(s, name) <==> IsAssign(t, name)
    ensures ReadsIn(s, name) <==> ReadsIn(t, name)
    ensures TakesArg(s, b, name) <==> TakesArg(t, b, name)
  {
    match s
    case IRAssignment(_, rhs) => MentionsErased(rhs, name); MentionsErased(t.rhs, name);
    case IRBranch(Some(c), _, _) => MentionsErased(c, name); MentionsErased(t.condition.value, name);
    case IRPhiNode(_, args) =>
      var e, e' := Erase(s).blockToVarMap, Erase(t).blockToVarMap;
      assert b in args <==> b in e;
      assert b in t.blockToVarMap <==> b in e';
      if b in args { assert e[b].name == args[b].name && e'[b].name == t.blockToVarMap[b].name; }
    case _ =>
  }

  lemma AnnotatedErased(blocks: seq<CFGBlock>, name: string, visits: map<nat, Visit>, now: seq<CFGBlock>)
    requires Annotated(blocks, name, visits, now)
    ensures SameShape(blocks, now)
  {
    forall y | 0 <= y < |blocks| ensures SameBlock(blocks[y], now[y]) {
      assert AnnotatedBlock(blocks, name, visits, y, now[y]);
      forall i | 0 <= i < |now[y].statements| ensures Erase(blocks[y].statements[i]) == Erase(now[y].statements[i]) {
        assert now[y].statements[i] == Final(blocks, name, visits, y, i);
        FinalErased(blocks, name, visits, y, i);
      }
    }
  }

  lemma RenamedErased(s: IRNode, name: string, top: int, i: int)
    ensures Erase(Renamed(s, name, top, i)) == Erase(s)
  {
    match s
    case IRAssignment(_, rhs) => SetIndexErased(rhs, name, top);
    case IRBranch(Some(c), _, _) => SetIndexErased(c, name, top);
    case _ =>
  }

  lemma FinalErased(blocks: seq<CFGBlock>, name: string, visits: map<nat, Visit>, y: nat, i: nat)
    requires y < |blocks| && i < |blocks[y].statements|
    ensures Erase(Final(blocks, name, visits, y, i)) == Erase(blocks[y].statements[i])
  {
    var s := blocks[y].statements;
    var r := if y in visits then RenamedAt(s, i, name, visits[y].start, Top(visits[y].stack)) else s[i];
    if y in visits {
      RenamedErased(s[i], name, TopAt(s, i, name, visits[y].start, Top(visits[y].stack)), visits[y].start + CountDefs(s[..i], name));
    }
    var f := WithArgs(blocks, name, visits, y, r);
    if r.IRPhiNode? {
      assert Erase(f).blockToVarMap == Erase(r).blockToVarMap;
    }
  }

  // ---------------------------------------------------------------- shape decides everything but the indices

  lemma ShapeCounts(f: seq<CFGBlock>, g: seq<CFGBlock>, y: nat, i: nat, name: string)
    requires SameShape(f, g) && y < |f| && i <= |f[y].statements|
    ensures i <= |g[y].statements|
    ensures CountPhis(f[y].statements[..i], name) == CountPhis(g[y].statements[..i], name)
    ensures CountAssigns(f[y].statements[..i], name) == CountAssigns(g[y].statements[..i], name)
  {
    assert SameBlock(f[y], g[y]);
    forall j | 0 <= j < |f[y].statements|
      ensures (IsPhi(f[y].statements[j], name) <==> IsPhi(g[y].statements[j], name))
      ensures (IsAssign(f[y].statements[j], name) <==> IsAssign(g[y].statements[j], name))
    {
      SameStatement(f[y].statements[j], g[y].statements[j], name, 0);
    }
    CountSamePrefix(f[y].statements, g[y].statements, name, i);
  }

  lemma ShapeGraph(f: seq<CFGBlock>, g: seq<CFGBlock>)
    requires SameShape(f, g)
    ensures SuccsOf(f) == SuccsOf(g)
    ensures forall y :: 0 <= y < |f| ==>
              g[y].succs == f[y].succs && g[y].dominator == f[y].dominator && g[y].dominatingBlocks == f[y].dominatingBlocks
  {
    forall y | 0 <= y < |f|
      ensures g[y].succs == f[y].succs && g[y].dominator == f[y].dominator && g[y].dominatingBlocks == f[y].dominatingBlocks
    {
      assert SameBlock(f[y], g[y]);
    }
    assert SuccsOf(f) == SuccsOf(g);
  }

  lemma ShapeTree(f: seq<CFGBlock>, g: seq<CFGBlock>)
    requires SameShape(f, g) && TreeOk(f)
    ensures TreeOk(g)
  {
    ShapeGraph(f, g);
    forall x | 0 <= x < |g| ensures g[x].dominatingBlocks == ChildrenBelow(g, x, |g|) {
      assert f[x].dominatingBlocks == ChildrenBelow(f, x, |f|);
      ChildrenBelowSame(f, g, x, |f|);
    }
  }

  lemma ShapeDefines(f: seq<CFGBlock>, g: seq<CFGBlock>, name: string, y: nat)
    requires SameShape(f, g)
    ensures Defines(f, y, name) <==> Defines(g, y, name)
    ensures HasPhi(f, y, name) <==> HasPhi(g, y, name)
  {
    if y < |f| {
      var n := |f[y].statements|;
      ShapeCounts(f, g, y, n, name);
      assert SameBlock(f[y], g[y]);
      assert f[y].statements[..n] == f[y].statements && g[y].statements[..n] == g[y].statements;
    }
  }

  lemma ShapeReads(f: seq<CFGBlock>, g: seq<CFGBlock>, name: string, y: nat, i: nat)
    requires SameShape(f, g) && y < |f|
    ensures ReadsIncoming(f[y].statements, i, name) <==> ReadsIncoming(g[y].statements, i, name)
  {
    assert SameBlock(f[y], g[y]);
    if i < |f[y].statements| {
      ShapeCounts(f, g, y, i, name);
      SameStatement(f[y].statements[i], g[y].statements[i], name, 0);
    }
  }

  lemma ShapeTakes(f: seq<CFGBlock>, g: seq<CFGBlock>, name: string, y: nat, i: nat, q: nat)
    requires SameShape(f, g) && y < |f| && i < |f[y].statements|
    ensures i < |g[y].statements| && (TakesArg(f[y].statements[i], q, name) <==> TakesArg(g[y].statements[i], q, name))
  {
    assert SameBlock(f[y], g[y]);
    SameStatement(f[y].statements[i], g[y].statements[i], name, q);
  }

  lemma ShapeLastDef(f: seq<CFGBlock>, g: seq<CFGBlock>, name: string, p: seq<nat>, k: nat)
    requires SameShape(f, g)
    ensures LastDefOn(f, name, p, k) <==> LastDefOn(g, name, p, k)
  {
    forall y ensures Defines(f, y, name) <==> Defines(g, y, name) { ShapeDefines(f, g, name, y); }
  }

  lemma SameShapeSymmetric(f: seq<CFGBlock>, g: seq<CFGBlock>)
    requires SameShape(f, g)
    ensures SameShape(g, f)
  {
    forall y | 0 <= y < |g| ensures SameBlock(g[y], f[y]) { assert SameBlock(f[y], g[y]); }
  }

  lemma SameShapeTransitive(f: seq<CFGBlock>, g: seq<CFGBlock>, h: seq<CFGBlock>)
    requires SameShape(f, g) && SameShape(g, h)
    ensures SameShape(f, h)
  {
    forall y | 0 <= y < |f| ensures SameBlock(f[y], h[y]) {
      assert SameBlock(f[y], g[y]) && SameBlock(g[y], h[y]);
    }
  }

  lemma ShapePolluted(f: seq<CFGBlock>, g: seq<CFGBlock>, name: string, z: nat)
    requires SameShape(f, g)
    ensures Polluted(f, name, z) ==> Polluted(g, name, z)
  {
    ShapeGraph(f, g);
    if Polluted(f, name, z) {
      var w, q :| PollutedBy(f, name, z, w, q);
      ShapeDefines(f, g, name, q);
      assert PollutedBy(g, name, z, w, q);
    }
  }

  lemma ShapeUnpolluted(f: seq<CFGBlock>, g: seq<CFGBlock>, name: string, d: nat, y: nat)
    requires SameShape(f, g)
    ensures Unpolluted(f, name, d, y) <==> Unpolluted(g, name, d, y)
  {
    ShapeGraph(f, g);
    SameShapeSymmetric(f, g);
    forall z ensures Polluted(f, name, z) <==> Polluted(g, name, z) {
      ShapePolluted(f, g, name, z);
      ShapePolluted(g, f, name, z);
    }
  }

  lemma ShapeNeeds(f: seq<CFGBlock>, g: seq<CFGBlock>, name: string, b: nat)
    requires SameShape(f, g)
    ensures NeedsIncoming(g, b, name) ==> NeedsIncoming(f, b, name)
  {
    ShapeGraph(f, g);
    if NeedsIncoming(g, b, name) {
      ShapeDefines(f, g, name, b);
      if i :| ReadsIncoming(g[b].statements, i, name) {
        ShapeReads(f, g, name, b, i);
      } else {
        var y, i :| y in g[b].succs && y < |g| && 0 <= i < |g[y].statements| && TakesArg(g[y].statements[i], b, name);
        assert SameBlock(f[y], g[y]);
        ShapeTakes(f, g, name, y, i, b);
        assert FeedsPhi(f, b, name);
      }
    }
  }

  lemma ShapeStrict(f: seq<CFGBlock>, g: seq<CFGBlock>, name: string)
    requires SameShape(f, g) && Strict(f, name)
    ensures Strict(g, name)
  {
    ShapeGraph(f, g);
    forall b | Reachable(SuccsOf(g), b) && NeedsIncoming(g, b, name) ensures DefinedAbove(g, b, name) {
      ShapeNeeds(f, g, name, b);
      assert DefinedAbove(f, b, name);
      var d :| SDom(SuccsOf(f), d, b) && Defines(f, d, name);
      ShapeDefines(f, g, name, d);
    }
  }

  lemma ShapePlaced(f: seq<CFGBlock>, g: seq<CFGBlock>, name: string)
    requires SameShape(f, g) && PhisPlaced(f, name)
    ensures PhisPlaced(g, name)
  {
    ShapeGraph(f, g);
    forall b, y | Reachable(SuccsOf(g), b) && Defines(g, b, name) && InFrontier(SuccsOf(g), b, y)
      ensures HasPhi(g, y, name)
    {
      ShapeDefines(f, g, name, b);
      ShapeDefines(f, g, name, y);
    }
  }

  // ---------------------------------------------------------------- renaming establishes the form

  lemma ShapeLocalReads(f: seq<CFGBlock>, g: seq<CFGBlock>, name: string, y: nat, i: nat)
    requires SameShape(f, g) && LocalRead(f, name, y, i)
    ensures LocalRead(g, name, y, i)
  {
    ShapeGraph(f, g);
    ShapeCounts(f, g, y, i, name);
    assert SameBlock(f[y], g[y]);
  }

  lemma ShapeDefAt(f: seq<CFGBlock>, g: seq<CFGBlock>, name: string, y: nat, i: nat)
    requires SameShape(f, g) && DefAt(f, name, y, i)
    ensures DefAt(g, name, y, i)
  {
    ShapeGraph(f, g);
    assert SameBlock(f[y], g[y]);
    SameStatement(f[y].statements[i], g[y].statements[i], name, 0);
  }

  lemma ShapeIncomingRead(f: seq<CFGBlock>, g: seq<CFGBlock>, name: string, y: nat, i: nat, p: seq<nat>, k: nat)
    requires SameShape(f, g) && IncomingRead(f, name, y, i, p, k)
    ensures IncomingRead(g, name, y, i, p, k)
  {
    ShapeGraph(f, g);
    ShapeDefines(f, g, name, y);
    ShapeReads(f, g, name, y, i);
    ShapeLastDef(f, g, name, p, k);
  }

  lemma ShapeArgumentRead(f: seq<CFGBlock>, g: seq<CFGBlock>, name: string, y: nat, i: nat, q: nat, p: seq<nat>, k: nat)
    requires SameShape(f, g) && ArgumentRead(f, name, y, i, q, p, k)
    ensures ArgumentRead(g, name, y, i, q, p, k)
  {
    ShapeGraph(f, g);
    ShapeTakes(f, g, name, y, i, q);
    ShapeLastDef(f, g, name, p + [y], k);
  }

  /** Renaming a variable whose phis are placed puts the graph into SSA form for it. */
  lemma RenamingGivesSsa(blocks: seq<CFGBlock>, name: string, visits: map<nat, Visit>, now: seq<CFGBlock>, c: int)
    requires IsRenaming(blocks, name, visits, now) && IndicesApart(blocks, name, visits, c) && 0 <= c && PhisPlaced(blocks, name)
    ensures InSsaForm(now, name)
  {
    hide *;
    AnnotatedShape(blocks, name, visits, now);
    RenamingDefs(blocks, name, visits, now, c);
    RenamingNumbers(blocks, name, visits, now, c);
    RenamingLocal(blocks, name, visits, now);
    RenamingReads(blocks, name, visits, now);
    InSsaFormIf(now, name);
  }

  lemma InSsaFormIf(f: seq<CFGBlock>, name: string)
    requires DefsApart(f, name) && Numbered(f, name) && LocalReadsRight(f, name) && ReadsRight(f, name)
    ensures InSsaForm(f, name)
  {
  }

  lemma AnnotatedShape(blocks: seq<CFGBlock>, name: string, visits: map<nat, Visit>, now: seq<CFGBlock>)
    requires IsRenaming(blocks, name, visits, now)
    ensures SameShape(blocks, now) && SameShape(now, blocks)
  {
    AnnotatedErased(blocks, name, visits, now);
    SameShapeSymmetric(blocks, now);
  }

  lemma RenamingDefs(blocks: seq<CFGBlock>, name: string, visits: map<nat, Visit>, now: seq<CFGBlock>, c: int)
    requires IsRenaming(blocks, name, visits, now) && IndicesApart(blocks, name, visits, c) && SameShape(now, blocks)
    ensures DefsApart(now, name)
  {
    hide IsRenaming, IndicesApart, SameShape;
    forall y: nat, i: nat, z: nat, j: nat | DefAt(now, name, y, i) && DefAt(now, name, z, j) && (y != z || i != j)
      ensures now[y].statements[i].variable.ssaIndex != now[z].statements[j].variable.ssaIndex
    {
      ShapeDefAt(now, blocks, name, y, i);
      ShapeDefAt(now, blocks, name, z, j);
      DefinitionsDistinct(blocks, name, visits, now, c, y, i, z, j);
    }
  }

  /** Every number below the count of a block's definitions is the position of one of them. */
  lemma {:induction false} NthDef(s: seq<IRNode>, name: string, m: nat, n: nat)
    requires n <= |s| && m < CountDefs(s[..n], name)
    ensures exists i :: 0 <= i < n && IsDef(s[i], name) && CountDefs(s[..i], name) == m
  {
    hide IsDef, CountDefs;
    if n == 0 {
      NoDefsInEmpty(name);
    } else {
      DefStep(s, n - 1, name);
      if m < CountDefs(s[..n - 1], name) {
        NthDef(s, name, m, n - 1);
      } else {
        assert IsDef(s[n - 1], name) && CountDefs(s[..n - 1], name) == m;
      }
    }
  }

  lemma GivenCarried(blocks: seq<CFGBlock>, name: string, visits: map<nat, Visit>, now: seq<CFGBlock>, k: int)
    requires IsRenaming(blocks, name, visits, now) && SameShape(blocks, now) && Given(blocks, name, visits, k)
    ensures Carried(now, name, k)
  {
    hide SameShape, CountDefs, IsDef;
    var y: nat :| GivenIn(blocks, name, visits, k, y);
    var s := blocks[y].statements;
    assert s[..|s|] == s;
    NthDef(s, name, k - visits[y].start, |s|);
    var i :| 0 <= i < |s| && IsDef(s[i], name) && CountDefs(s[..i], name) == k - visits[y].start;
    DefIndex(blocks, name, visits, now, y, i);
    ShapeDefAt(blocks, now, name, y, i);
    assert CarriesIndex(now, name, y, i, k);
  }

  /** The counter starts at 0 and is used up without a gap. */
  lemma RenamingNumbers(blocks: seq<CFGBlock>, name: string, visits: map<nat, Visit>, now: seq<CFGBlock>, c: int)
    requires IsRenaming(blocks, name, visits, now) && IndicesApart(blocks, name, visits, c) && 0 <= c
    requires SameShape(blocks, now) && SameShape(now, blocks)
    ensures Numbered(now, name)
  {
    forall y: nat, i: nat | DefAt(now, name, y, i) ensures 0 <= now[y].statements[i].variable.ssaIndex < c {
      ShapeDefAt(now, blocks, name, y, i);
      IndexInRange(blocks, name, visits, now, c, y, i);
    }
    forall k | 0 <= k < c ensures Carried(now, name, k) {
      assert Given(blocks, name, visits, k);
      GivenCarried(blocks, name, visits, now, k);
    }
    assert NumberedTo(now, name, c);
  }

  lemma IndexInRange(blocks: seq<CFGBlock>, name: string, visits: map<nat, Visit>, now: seq<CFGBlock>, c: int, y: nat, i: nat)
    requires IsRenaming(blocks, name, visits, now) && IndicesApart(blocks, name, visits, c) && DefAt(blocks, name, y, i)
    ensures y < |now| && i < |now[y].statements| && IsDef(now[y].statements[i], name) && 0 <= now[y].statements[i].variable.ssaIndex < c
  {
    hide CountDefs, IsDef, Given;
    var s := blocks[y].statements;
    assert s[..|s|] == s;
    DefIndex(blocks, name, visits, now, y, i);
    DefStep(s, i, name);
    DefsMonotone(s, i + 1, name);
  }

  /** All indices of the one definition that a variable may have are 0. */
  lemma OnlyDefinitionZero(f: seq<CFGBlock>, name: string, y: nat, i: nat)
    requires InSsaForm(f, name) && DefAt(f, name, y, i)
    requires forall z: nat, j: nat :: DefAt(f, name, z, j) ==> z == y && j == i
    ensures f[y].statements[i].variable.ssaIndex == 0
  {
    hide LocalReadsRight, ReadsRight;
    var n: nat :| NumberedTo(f, name, n);
    assert Carried(f, name, 0);
    var z: nat, j: nat :| CarriesIndex(f, name, z, j, 0);
  }

  lemma RenamingLocal(blocks: seq<CFGBlock>, name: string, visits: map<nat, Visit>, now: seq<CFGBlock>)
    requires IsRenaming(blocks, name, visits, now) && SameShape(now, blocks)
    ensures LocalReadsRight(now, name)
  {
    hide IsRenaming, SameShape;
    forall y, i | LocalRead(now, name, y, i) ensures LocalNames(now, name, y, i) {
      ShapeLocalReads(now, blocks, name, y, i);
      LocalUse(blocks, name, visits, now, y, i);
    }
  }

  lemma RenamingReads(blocks: seq<CFGBlock>, name: string, visits: map<nat, Visit>, now: seq<CFGBlock>)
    requires IsRenaming(blocks, name, visits, now) && PhisPlaced(blocks, name) && SameShape(blocks, now) && SameShape(now, blocks)
    ensures ReadsRight(now, name)
  {
    hide IsRenaming, SameShape, PhisPlaced, Unpolluted;
    forall y, i, p, k | IncomingRead(now, name, y, i, p, k)
      ensures ReadNames(now, name, y, i, p[k]) <==> Unpolluted(now, name, p[k], y)
    {
      ShapeIncomingRead(now, blocks, name, y, i, p, k);
      IncomingUse(blocks, name, visits, now, y, i, p, k);
      ShapeUnpolluted(blocks, now, name, p[k], y);
    }
    forall y, i, q, p, k | ArgumentRead(now, name, y, i, q, p, k)
      ensures ArgumentNames(now, name, y, i, q, p[k]) <==> Unpolluted(now, name, p[k], q)
    {
      ShapeArgumentRead(now, blocks, name, y, i, q, p, k);
      PhiArgument(blocks, name, visits, now, y, i, q, p, k);
      ShapeUnpolluted(blocks, now, name, p[k], q);
    }
  }

  // ---------------------------------------------------------------- and keeps it for the others

  /** The statements agree on every index of `name`. */
  ghost predicate SameIndices(s: IRNode, t: IRNode, name: string) {
    && (forall i :: UsesCarry(s, name, i) <==> UsesCarry(t, name, i))
    && (IsDef(s, name) && IsDef(t, name) ==> s.variable.ssaIndex == t.variable.ssaIndex)
    && (forall q :: TakesArg(s, q, name) && TakesArg(t, q, name) ==>
          s.blockToVarMap[q].ssaIndex == t.blockToVarMap[q].ssaIndex)
  }

  lemma CarriesOther(n: ASTNode, w: string, t: int, name: string, i: int)
    requires w != name
    ensures Carries(SetIndex(n, w, t), name, i) <==> Carries(n, name, i)
  {
  }

  lemma RenamedOther(s: IRNode, w: string, top: int, j: int, name: string)
    requires w != name
    ensures SameIndices(s, Renamed(s, w, top, j), name)
  {
    forall i ensures UsesCarry(s, name, i) <==> UsesCarry(Renamed(s, w, top, j), name, i) {
      match s
      case IRAssignment(_, rhs) => CarriesOther(rhs, w, top, name, i);
      case IRBranch(Some(c), _, _) => CarriesOther(c, w, top, name, i);
      case _ =>
    }
  }

  lemma FinalOther(blocks: seq<CFGBlock>, w: string, visits: map<nat, Visit>, y: nat, i: nat, name: string)
    requires w != name && y < |blocks| && i < |blocks[y].statements|
    ensures SameIndices(blocks[y].statements[i], Final(blocks, w, visits, y, i), name)
  {
    var s := blocks[y].statements;
    if y in visits {
      RenamedOther(s[i], w, TopAt(s, i, w, visits[y].start, Top(visits[y].stack)), visits[y].start + CountDefs(s[..i], w), name);
    }
  }

  ghost predicate SameFor(f: seq<CFGBlock>, g: seq<CFGBlock>, name: string) {
    SameShape(f, g) && forall y, i :: 0 <= y < |f| && 0 <= i < |f[y].statements| && i < |g[y].statements| ==>
      SameIndices(f[y].statements[i], g[y].statements[i], name)
  }

  lemma RenamingSameFor(blocks: seq<CFGBlock>, w: string, visits: map<nat, Visit>, now: seq<CFGBlock>, name: string)
    requires IsRenaming(blocks, w, visits, now) && w != name
    ensures SameFor(blocks, now, name)
  {
    AnnotatedErased(blocks, w, visits, now);
    forall y, i | 0 <= y < |blocks| && 0 <= i < |blocks[y].statements| && i < |now[y].statements|
      ensures SameIndices(blocks[y].statements[i], now[y].statements[i], name)
    {
      assert AnnotatedBlock(blocks, w, visits, y, now[y]);
      assert now[y].statements[i] == Final(blocks, w, visits, y, i);
      FinalOther(blocks, w, visits, y, i, name);
    }
  }

  lemma SameLastIndex(f: seq<CFGBlock>, g: seq<CFGBlock>, name: string, y: nat, i: nat)
    requires SameFor(f, g, name) && y < |f| && i <= |f[y].statements|
    ensures i <= |g[y].statements| && LastIndexOf(f[y].statements[..i], name) == LastIndexOf(g[y].statements[..i], name)
    decreases i
  {
    hide Erase;
    assert SameBlock(f[y], g[y]);
    if i > 0 {
      var s, t := f[y].statements, g[y].statements;
      SameLastIndex(f, g, name, y, i - 1);
      SameStatement(s[i - 1], t[i - 1], name, 0);
      assert SameIndices(s[i - 1], t[i - 1], name);
      assert s[..i][..i - 1] == s[..i - 1] && t[..i][..i - 1] == t[..i - 1];
      assert s[..i][i - 1] == s[i - 1] && t[..i][i - 1] == t[i - 1];
    }
  }

  lemma SameLast(f: seq<CFGBlock>, g: seq<CFGBlock>, name: string, y: nat)
    requires SameFor(f, g, name) && y < |f|
    ensures LastIndexOf(f[y].statements, name) == LastIndexOf(g[y].statements, name)
  {
    var n := |f[y].statements|;
    SameLastIndex(f, g, name, y, n);
    assert SameBlock(f[y], g[y]);
    assert f[y].statements[..n] == f[y].statements && g[y].statements[..n] == g[y].statements;
  }

  lemma SameReadNames(f: seq<CFGBlock>, g: seq<CFGBlock>, name: string, y: nat, i: nat, d: nat)
    requires SameFor(f, g, name)
    ensures ReadNames(f, name, y, i, d) <==> ReadNames(g, name, y, i, d)
  {
    if y < |f| && d < |f| {
      SameLast(f, g, name, d);
      assert SameBlock(f[y], g[y]);
    }
  }

  lemma SameArgumentNames(f: seq<CFGBlock>, g: seq<CFGBlock>, name: string, y: nat, i: nat, q: nat, d: nat)
    requires SameFor(f, g, name)
    ensures ArgumentNames(f, name, y, i, q, d) <==> ArgumentNames(g, name, y, i, q, d)
  {
    if y < |f| && d < |f| {
      SameLast(f, g, name, d);
      assert SameBlock(f[y], g[y]);
      if i < |f[y].statements| { ShapeTakes(f, g, name, y, i, q); }
    }
  }

  lemma SameReads(f: seq<CFGBlock>, g: seq<CFGBlock>, name: string)
    requires SameFor(f, g, name) && SameShape(g, f) && ReadsRight(f, name)
    ensures ReadsRight(g, name)
  {
    hide Unpolluted, ReadNames, ArgumentNames;
    forall y, i, p, k | IncomingRead(g, name, y, i, p, k)
      ensures ReadNames(g, name, y, i, p[k]) <==> Unpolluted(g, name, p[k], y)
    {
      ShapeIncomingRead(g, f, name, y, i, p, k);
      SameReadNames(f, g, name, y, i, p[k]);
      ShapeUnpolluted(f, g, name, p[k], y);
    }
    forall y, i, q, p, k | ArgumentRead(g, name, y, i, q, p, k)
      ensures ArgumentNames(g, name, y, i, q, p[k]) <==> Unpolluted(g, name, p[k], q)
    {
      ShapeArgumentRead(g, f, name, y, i, q, p, k);
      SameArgumentNames(f, g, name, y, i, q, p[k]);
      ShapeUnpolluted(f, g, name, p[k], q);
    }
  }

  lemma SameLocal(f: seq<CFGBlock>, g: seq<CFGBlock>, name: string)
    requires SameFor(f, g, name) && SameShape(g, f) && LocalReadsRight(f, name) && DefsApart(f, name)
    ensures LocalReadsRight(g, name) && DefsApart(g, name)
  {
    forall y: nat, i: nat | LocalRead(g, name, y, i) ensures LocalNames(g, name, y, i) {
      ShapeLocalReads(g, f, name, y, i);
      assert LocalNames(f, name, y, i);
      SameLastIndex(f, g, name, y, i);
      assert SameIndices(f[y].statements[i], g[y].statements[i], name);
    }
    forall y: nat, i: nat, z: nat, j: nat | DefAt(g, name, y, i) && DefAt(g, name, z, j) && (y != z || i != j)
      ensures g[y].statements[i].variable.ssaIndex != g[z].statements[j].variable.ssaIndex
    {
      ShapeDefAt(g, f, name, y, i);
      ShapeDefAt(g, f, name, z, j);
      assert SameIndices(f[y].statements[i], g[y].statements[i], name);
      assert SameIndices(f[z].statements[j], g[z].statements[j], name);
    }
  }

  lemma CarriedKept(f: seq<CFGBlock>, g: seq<CFGBlock>, name: string, k: int)
    requires SameFor(f, g, name) && SameShape(f, g) && Carried(f, name, k)
    ensures Carried(g, name, k)
  {
    hide SameShape;
    var y: nat, i: nat :| CarriesIndex(f, name, y, i, k);
    ShapeDefAt(f, g, name, y, i);
    assert SameIndices(f[y].statements[i], g[y].statements[i], name);
    assert CarriesIndex(g, name, y, i, k);
  }

  lemma NumbersKept(f: seq<CFGBlock>, g: seq<CFGBlock>, name: string)
    requires SameFor(f, g, name) && SameShape(f, g) && SameShape(g, f) && Numbered(f, name)
    ensures Numbered(g, name)
  {
    hide SameShape;
    var n: nat :| NumberedTo(f, name, n);
    forall y: nat, i: nat | DefAt(g, name, y, i) ensures 0 <= g[y].statements[i].variable.ssaIndex < n {
      ShapeDefAt(g, f, name, y, i);
      assert SameIndices(f[y].statements[i], g[y].statements[i], name);
    }
    forall k | 0 <= k < n ensures Carried(g, name, k) { CarriedKept(f, g, name, k); }
    assert NumberedTo(g, name, n);
  }

  /** Renaming another variable keeps a variable in SSA form. */
  lemma RenamingKeepsSsa(blocks: seq<CFGBlock>, w: string, visits: map<nat, Visit>, now: seq<CFGBlock>, name: string)
    requires IsRenaming(blocks, w, visits, now) && w != name && InSsaForm(blocks, name)
    ensures InSsaForm(now, name)
  {
    AnnotatedShape(blocks, w, visits, now);
    RenamingSameFor(blocks, w, visits, now, name);
    SameLocal(blocks, now, name);
    NumbersKept(blocks, now, name);
    SameReads(blocks, now, name);
  }
}
