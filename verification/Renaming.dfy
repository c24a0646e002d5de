/** Renaming of one variable over the dominator tree (SSABuilder). */
module Renaming {
  import opened Common
  import opened Ir
  import opened Dominance
  import opened Cfg
  import opened DominatorTree

  // ---------------------------------------------------------------- statements

  /** Sets the index of every occurrence of `name` that VariableSearchVisitor finds. */
  function SetIndex(n: ASTNode, name: string, i: int): (r: ASTNode) {
    match n
    case ASTSymbol(s) => if s.name == name then ASTSymbol(s.(ssaIndex := i)) else n
    case ASTAssign(x, e) =>
      ASTAssign(if x.name == name then x.(ssaIndex := i) else x, SetIndex(e, name, i))
    case ASTBinary(op, l, r) => ASTBinary(op, SetIndex(l, name, i), SetIndex(r, name, i))
    case _ => n
  }

  predicate Mentions(n: ASTNode, name: string) {
    match n
    case ASTSymbol(s) => s.name == name
    case ASTAssign(x, e) => x.name == name || Mentions(e, name)
    case ASTBinary(_, l, r) => Mentions(l, name) || Mentions(r, name)
    case _ => false
  }

  lemma SetIndexUnmentioned(n: ASTNode, name: string, i: int)
    requires !Mentions(n, name)
    ensures SetIndex(n, name, i) == n
  {
  }

  predicate ReadsIn(s: IRNode, name: string) {
    match s
    case IRAssignment(_, rhs) => Mentions(rhs, name)
    case IRBranch(Some(c), _, _) => Mentions(c, name)
    case _ => false
  }

  predicate IsPhi(s: IRNode, name: string) {
    s.IRPhiNode? && s.variable.name == name
  }

  predicate IsAssign(s: IRNode, name: string) {
    s.IRAssignment? && s.variable.name == name
  }

  predicate IsDef(s: IRNode, name: string) {
    IsPhi(s, name) || IsAssign(s, name)
  }

  function SetUses(s: IRNode, name: string, top: int): (r: IRNode) {
    match s
    case IRAssignment(x, rhs) => IRAssignment(x, SetIndex(rhs, name, top))
    case IRBranch(Some(c), a, b) => IRBranch(Some(SetIndex(c, name, top)), a, b)
    case _ => s
  }

  /** A statement after its uses were set to `top` and, if it defines `name`, its target to `i`. */
  function Renamed(s: IRNode, name: string, top: int, i: int): (r: IRNode) {
    var u := SetUses(s, name, top);
    match u
    case IRAssignment(x, rhs) => if x.name == name then IRAssignment(x.(ssaIndex := i), rhs) else u
    case IRPhiNode(x, args) => if x.name == name then IRPhiNode(x.(ssaIndex := i), args) else u
    case _ => u
  }

  lemma SetUsesUnread(s: IRNode, name: string, top: int)
    requires !ReadsIn(s, name)
    ensures SetUses(s, name, top) == s
  {
    match s
    case IRAssignment(_, rhs) => SetIndexUnmentioned(rhs, name, top);
    case IRBranch(Some(c), _, _) => SetIndexUnmentioned(c, name, top);
    case _ =>
  }

  // ---------------------------------------------------------------- counting definitions

  function CountPhis(s: seq<IRNode>, name: string): (n: nat) {
    if s == [] then 0 else CountPhis(s[..|s| - 1], name) + if IsPhi(s[|s| - 1], name) then 1 else 0
  }

  function CountAssigns(s: seq<IRNode>, name: string): (n: nat) {
    if s == [] then 0 else CountAssigns(s[..|s| - 1], name) + if IsAssign(s[|s| - 1], name) then 1 else 0
  }

  function CountDefs(s: seq<IRNode>, name: string): (n: nat) {
    CountPhis(s, name) + CountAssigns(s, name)
  }

  lemma CountStep(s: seq<IRNode>, i: nat, name: string)
    requires i < |s|
    ensures CountPhis(s[..i + 1], name) == CountPhis(s[..i], name) + if IsPhi(s[i], name) then 1 else 0
    ensures CountAssigns(s[..i + 1], name) == CountAssigns(s[..i], name) + if IsAssign(s[i], name) then 1 else 0
  {
    assert s[..i + 1][..i] == s[..i];
  }

  /** The statements agree on what they define. */
  ghost predicate SameDefs(s: seq<IRNode>, t: seq<IRNode>, name: string) {
    |s| == |t| && forall i :: 0 <= i < |s| ==>
      (IsPhi(s[i], name) <==> IsPhi(t[i], name)) && (IsAssign(s[i], name) <==> IsAssign(t[i], name))
  }

  lemma CountSame(s: seq<IRNode>, t: seq<IRNode>, name: string)
    requires SameDefs(s, t, name)
    ensures CountPhis(s, name) == CountPhis(t, name) && CountAssigns(s, name) == CountAssigns(t, name)
  {
    if s != [] {
      CountSame(s[..|s| - 1], t[..|t| - 1], name);
    }
  }

  /** The index on top of the stack before statement `i`, for a block entered with `start` as the
      next index and `top` on the stack. */
  function TopAt(s: seq<IRNode>, i: nat, name: string, start: int, top: int): (r: int)
    requires i <= |s|
  {
    var n := CountDefs(s[..i], name);
    if n > 0 then start + n - 1 else top
  }

  function RenamedAt(s: seq<IRNode>, i: nat, name: string, start: int, top: int): (r: IRNode)
    requires i < |s|
  {
    Renamed(s[i], name, TopAt(s, i, name, start, top), start + CountDefs(s[..i], name))
  }

  function Top(stack: seq<int>): int {
    if stack == [] then 0 else stack[|stack| - 1]
  }

  /** The indices start, start + 1, ... of `n` definitions. */
  function Indices(start: int, n: nat): (r: seq<int>)
    ensures |r| == n && forall i :: 0 <= i < n ==> r[i] == start + i
  {
    seq(n, i => start + i)
  }

  /** Statement `i` reads `name` before any definition in the block. */
  ghost predicate ReadsIncoming(s: seq<IRNode>, i: nat, name: string) {
    i < |s| && ReadsIn(s[i], name) && CountDefs(s[..i], name) == 0
  }

  // ---------------------------------------------------------------- phi arguments

  predicate TakesArg(s: IRNode, b: nat, name: string) {
    s.IRPhiNode? && b in s.blockToVarMap && s.blockToVarMap[b].name == name
  }

  function FillArg(s: IRNode, b: nat, name: string, top: int): (r: IRNode) {
    if TakesArg(s, b, name)
    then s.(blockToVarMap := s.blockToVarMap[b := s.blockToVarMap[b].(ssaIndex := top)])
    else s
  }

  function FillArgs(s: seq<IRNode>, b: nat, name: string, top: int): (r: seq<IRNode>)
    ensures |r| == |s| && forall i :: 0 <= i < |s| ==> r[i] == FillArg(s[i], b, name, top)
  {
    seq(|s|, i requires 0 <= i < |s| => FillArg(s[i], b, name, top))
  }

  function FilledBlock(block: CFGBlock, isSucc: bool, b: nat, name: string, top: int): (r: CFGBlock) {
    if isSucc then block.(statements := FillArgs(block.statements, b, name, top)) else block
  }

  /** Some successor of `b` has a phi that takes an argument from `b`. */
  ghost predicate FeedsPhi(blocks: seq<CFGBlock>, b: nat, name: string) {
    b < |blocks| && (exists y, i ::
      y in blocks[b].succs && y < |blocks| && 0 <= i < |blocks[y].statements| && TakesArg(blocks[y].statements[i], b, name))
  }

  // ---------------------------------------------------------------- what the traversal leaves

  /** How a block was entered: the next free index and the stack. */
  datatype Visit = Visit(start: int, stack: seq<int>)

  /** The index on top of the stack when the block ends. */
  function OutTop(s: seq<IRNode>, name: string, v: Visit): int {
    TopAt(s, |s|, name, v.start, Top(v.stack))
  }

  /** The argument for predecessor `q` of a phi in block `y`. */
  ghost function FinalArg(blocks: seq<CFGBlock>, name: string, visits: map<nat, Visit>, y: nat, q: nat, x: Symbol): Symbol {
    if x.name == name && q in visits && q < |blocks| && y in blocks[q].succs
    then x.(ssaIndex := OutTop(blocks[q].statements, name, visits[q]))
    else x
  }

  ghost function WithArgs(blocks: seq<CFGBlock>, name: string, visits: map<nat, Visit>, y: nat, s: IRNode): IRNode {
    if s.IRPhiNode?
    then s.(blockToVarMap := map q | q in s.blockToVarMap :: FinalArg(blocks, name, visits, y, q, s.blockToVarMap[q]))
    else s
  }

  /** Statement `i` of block `y`, once the blocks of `visits` have been visited. */
  ghost function Final(blocks: seq<CFGBlock>, name: string, visits: map<nat, Visit>, y: nat, i: nat): IRNode
    requires y < |blocks| && i < |blocks[y].statements|
  {
    var s := blocks[y].statements;
    WithArgs(blocks, name, visits, y,
      if y in visits then RenamedAt(s, i, name, visits[y].start, Top(visits[y].stack)) else s[i])
  }

  /** `now` is `blocks` with the indices that visiting the blocks of `visits` gives. */
  ghost predicate Annotated(blocks: seq<CFGBlock>, name: string, visits: map<nat, Visit>, now: seq<CFGBlock>) {
    && |now| == |blocks|
    && forall y :: 0 <= y < |blocks| ==> AnnotatedBlock(blocks, name, visits, y, now[y])
  }

  ghost predicate AnnotatedBlock(blocks: seq<CFGBlock>, name: string, visits: map<nat, Visit>, y: nat, now: CFGBlock)
    requires y < |blocks|
  {
    && now == blocks[y].(statements := now.statements)
    && |now.statements| == |blocks[y].statements|
    && forall i :: 0 <= i < |now.statements| ==> now.statements[i] == Final(blocks, name, visits, y, i)
  }

  lemma RenamedWithArgs(blocks: seq<CFGBlock>, name: string, visits: map<nat, Visit>, y: nat, s: IRNode, top: int, i: int)
    ensures Renamed(WithArgs(blocks, name, visits, y, s), name, top, i) == WithArgs(blocks, name, visits, y, Renamed(s, name, top, i))
  {
  }

  /** Visiting `b` adds its argument to the phis of its successors and changes no other argument. */
  lemma WithArgsAfter(blocks: seq<CFGBlock>, name: string, visits: map<nat, Visit>, y: nat, s: IRNode, b: nat, v: Visit)
    requires b < |blocks| && b !in visits
    ensures WithArgs(blocks, name, visits[b := v], y, s) ==
            if y in blocks[b].succs
            then FillArg(WithArgs(blocks, name, visits, y, s), b, name, OutTop(blocks[b].statements, name, v))
            else WithArgs(blocks, name, visits, y, s)
  {
    if s.IRPhiNode? {
      var l := WithArgs(blocks, name, visits[b := v], y, s);
      var w := WithArgs(blocks, name, visits, y, s);
      if y in blocks[b].succs {
        assert l.blockToVarMap == FillArg(w, b, name, OutTop(blocks[b].statements, name, v)).blockToVarMap;
      } else {
        assert l.blockToVarMap == w.blockToVarMap;
      }
    }
  }

  lemma AnnotatedSameDefs(blocks: seq<CFGBlock>, name: string, visits: map<nat, Visit>, y: nat, now: CFGBlock, other: string)
    requires y < |blocks| && AnnotatedBlock(blocks, name, visits, y, now)
    ensures SameDefs(blocks[y].statements, now.statements, other)
  {
    forall i | 0 <= i < |now.statements|
      ensures IsPhi(blocks[y].statements[i], other) <==> IsPhi(now.statements[i], other)
      ensures IsAssign(blocks[y].statements[i], other) <==> IsAssign(now.statements[i], other)
    {
      assert now.statements[i] == Final(blocks, name, visits, y, i);
    }
  }

  lemma CountSamePrefix(s: seq<IRNode>, t: seq<IRNode>, name: string, i: nat)
    requires SameDefs(s, t, name) && i <= |s|
    ensures CountPhis(s[..i], name) == CountPhis(t[..i], name) && CountAssigns(s[..i], name) == CountAssigns(t[..i], name)
  {
    CountSame(s[..i], t[..i], name);
  }

  /** `mid` is `now` after the statements of `b` were renamed, `after` once the phis of its
      successors have their arguments: then `b` counts as visited. */
  lemma VisitAnnotates(blocks: seq<CFGBlock>, name: string, visits: map<nat, Visit>, b: nat, v: Visit,
                       now: seq<CFGBlock>, mid: seq<CFGBlock>, after: seq<CFGBlock>)
    requires Annotated(blocks, name, visits, now) && b < |blocks| && b !in visits
    requires |mid| == |after| == |now| && |mid[b].statements| == |now[b].statements|
    requires mid == now[b := now[b].(statements := mid[b].statements)]
    requires forall i :: 0 <= i < |now[b].statements| ==>
               mid[b].statements[i] == RenamedAt(now[b].statements, i, name, v.start, Top(v.stack))
    requires forall y :: 0 <= y < |now| ==>
               after[y] == FilledBlock(mid[y], y in blocks[b].succs, b, name, OutTop(blocks[b].statements, name, v))
    ensures Annotated(blocks, name, visits[b := v], after)
  {
    hide FillArg, IsDef, CountDefs, TopAt, Renamed, OutTop, WithArgs;
    forall y | 0 <= y < |blocks| ensures AnnotatedBlock(blocks, name, visits[b := v], y, after[y]) {
      assert AnnotatedBlock(blocks, name, visits, y, now[y]);
      forall i | 0 <= i < |after[y].statements|
        ensures after[y].statements[i] == Final(blocks, name, visits[b := v], y, i)
      {
        var s := blocks[y].statements;
        assert now[y].statements[i] == Final(blocks, name, visits, y, i);
        if y == b {
          RenamedAnnotated(blocks, name, visits, b, now[b], v, i);
          WithArgsAfter(blocks, name, visits, b, RenamedAt(s, i, name, v.start, Top(v.stack)), b, v);
        } else {
          var f := if y in visits then RenamedAt(s, i, name, visits[y].start, Top(visits[y].stack)) else s[i];
          WithArgsAfter(blocks, name, visits, y, f, b, v);
        }
      }
    }
  }

  /** Renaming an annotated statement is annotating the renamed one. */
  lemma RenamedAnnotated(blocks: seq<CFGBlock>, name: string, visits: map<nat, Visit>, b: nat, now: CFGBlock, v: Visit, i: nat)
    requires b < |blocks| && b !in visits && AnnotatedBlock(blocks, name, visits, b, now) && i < |now.statements|
    ensures RenamedAt(now.statements, i, name, v.start, Top(v.stack)) ==
            WithArgs(blocks, name, visits, b, RenamedAt(blocks[b].statements, i, name, v.start, Top(v.stack)))
  {
    hide IsDef, Renamed, WithArgs;
    var s := blocks[b].statements;
    assert now.statements[i] == Final(blocks, name, visits, b, i);
    AnnotatedSameDefs(blocks, name, visits, b, now, name);
    CountSamePrefix(s, now.statements, name, i);
    RenamedWithArgs(blocks, name, visits, b, s[i], TopAt(s, i, name, v.start, Top(v.stack)), v.start + CountDefs(s[..i], name));
  }

  // ---------------------------------------------------------------- bookkeeping over the tree

  /** The phis for `name` in the subtree of `x`. */
  ghost function PhisBelow(blocks: seq<CFGBlock>, name: string, x: nat): (n: nat)
    requires TreeOk(blocks) && x < |blocks|
    decreases Below(SuccsOf(blocks), x), |Children(blocks, x)| + 1
  {
    CountPhis(blocks[x].statements, name) + PhisBelowChildren(blocks, name, x, |Children(blocks, x)|)
  }

  /** The phis for `name` in the subtrees of the first `k` children of `x`. */
  ghost function PhisBelowChildren(blocks: seq<CFGBlock>, name: string, x: nat, k: nat): (n: nat)
    requires TreeOk(blocks) && x < |blocks| && k <= |Children(blocks, x)|
    decreases Below(SuccsOf(blocks), x), k
  {
    if k == 0 then 0
    else
      ChildFacts(blocks, x, k - 1);
      PhisBelowChildren(blocks, name, x, k - 1) + PhisBelow(blocks, name, Children(blocks, x)[k - 1])
  }

  /** All definitions of `name` in the subtree of `x`. */
  ghost function DefsBelow(blocks: seq<CFGBlock>, name: string, x: nat): (n: nat)
    requires TreeOk(blocks) && x < |blocks|
    decreases Below(SuccsOf(blocks), x), |Children(blocks, x)| + 1
  {
    CountDefs(blocks[x].statements, name) + DefsBelowChildren(blocks, name, x, |Children(blocks, x)|)
  }

  ghost function DefsBelowChildren(blocks: seq<CFGBlock>, name: string, x: nat, k: nat): (n: nat)
    requires TreeOk(blocks) && x < |blocks| && k <= |Children(blocks, x)|
    decreases Below(SuccsOf(blocks), x), k
  {
    if k == 0 then 0
    else
      ChildFacts(blocks, x, k - 1);
      DefsBelowChildren(blocks, name, x, k - 1) + DefsBelow(blocks, name, Children(blocks, x)[k - 1])
  }

  ghost predicate Defines(blocks: seq<CFGBlock>, b: nat, name: string) {
    b < |blocks| && CountDefs(blocks[b].statements, name) > 0
  }

  ghost predicate HasPhi(blocks: seq<CFGBlock>, b: nat, name: string) {
    b < |blocks| && CountPhis(blocks[b].statements, name) > 0
  }

  /** Block `b` reads the index that was on the stack when it was entered. */
  ghost predicate NeedsIncoming(blocks: seq<CFGBlock>, b: nat, name: string) {
    && b < |blocks|
    && ((exists i :: ReadsIncoming(blocks[b].statements, i, name))
        || (CountDefs(blocks[b].statements, name) == 0 && FeedsPhi(blocks, b, name)))
  }

  ghost predicate DefinedAbove(blocks: seq<CFGBlock>, b: nat, name: string) {
    exists d :: SDom(SuccsOf(blocks), d, b) && Defines(blocks, d, name)
  }

  /** Every read of `name` has a definition on the way to it in the dominator tree. */
  ghost predicate Strict(blocks: seq<CFGBlock>, name: string) {
    forall b :: Reachable(SuccsOf(blocks), b) && NeedsIncoming(blocks, b, name) ==> DefinedAbove(blocks, b, name)
  }

  ghost predicate Increasing(s: seq<int>) {
    forall i, j :: 0 <= i < j < |s| ==> s[i] < s[j]
  }

  ghost predicate AllUnder(s: seq<int>, c: int) {
    forall i :: 0 <= i < |s| ==> s[i] < c
  }

  /** The stack when the definitions of block `b` have been pushed. */
  function Pushed(s: seq<IRNode>, name: string, v: Visit): (r: seq<int>) {
    v.stack + Indices(v.start, CountDefs(s, name))
  }

  lemma PushedIncreasing(s: seq<IRNode>, name: string, v: Visit)
    requires Increasing(v.stack) && AllUnder(v.stack, v.start)
    ensures Increasing(Pushed(s, name, v)) && AllUnder(Pushed(s, name, v), v.start + CountDefs(s, name))
    ensures Top(Pushed(s, name, v)) == OutTop(s, name, v)
  {
    assert s[..|s|] == s;
  }

  /** What the subtree of `x`, entered at number `c`, leaves on the stack: of what was pushed there, all but as
      many of the last entries as `x` has assignments. */
  ghost function Left(blocks: seq<CFGBlock>, name: string, x: nat, c: int): (r: seq<int>)
    requires TreeOk(blocks) && x < |blocks|
    decreases Below(SuccsOf(blocks), x), |Children(blocks, x)| + 1
  {
    var s := blocks[x].statements;
    var all := Indices(c, CountDefs(s, name)) + LeftChildren(blocks, name, x, |Children(blocks, x)|, c + CountDefs(s, name));
    all[..|all| - CountAssigns(s, name)]
  }

  /** What the first `k` children of `x` leave, the first of them entered at number `c`. */
  ghost function LeftChildren(blocks: seq<CFGBlock>, name: string, x: nat, k: nat, c: int): (r: seq<int>)
    requires TreeOk(blocks) && x < |blocks| && k <= |Children(blocks, x)|
    decreases Below(SuccsOf(blocks), x), k
  {
    if k == 0 then []
    else
      ChildFacts(blocks, x, k - 1);
      LeftChildren(blocks, name, x, k - 1, c)
      + Left(blocks, name, Children(blocks, x)[k - 1], c + DefsBelowChildren(blocks, name, x, k - 1))
  }

  /** Child `k` of `y` was entered with what `y` pushed, plus what the subtrees of the children before it
      left, one entry for every phi there. Its numbers follow those of `y` and of these subtrees. */
  ghost predicate ChildVisit(blocks: seq<CFGBlock>, name: string, visits: map<nat, Visit>, y: nat, k: nat)
    requires TreeOk(blocks) && y < |blocks| && k < |Children(blocks, y)|
  {
    var z := Children(blocks, y)[k];
    && y in visits && z in visits
    && var pushed := Pushed(blocks[y].statements, name, visits[y]);
       && pushed <= visits[z].stack
       && |visits[z].stack| == |pushed| + PhisBelowChildren(blocks, name, y, k)
       && Increasing(visits[z].stack)
       && visits[z].stack == pushed + LeftChildren(blocks, name, y, k, visits[y].start + CountDefs(blocks[y].statements, name))
       && visits[z].start == visits[y].start + CountDefs(blocks[y].statements, name) + DefsBelowChildren(blocks, name, y, k)
  }

  ghost predicate ChildVisits(blocks: seq<CFGBlock>, name: string, visits: map<nat, Visit>, y: nat)
    requires TreeOk(blocks) && y < |blocks|
  {
    forall k :: 0 <= k < |Children(blocks, y)| ==> ChildVisit(blocks, name, visits, y, k)
  }

  /** Index `k` was given to a definition in block `y`. */
  ghost predicate GivenIn(blocks: seq<CFGBlock>, name: string, visits: map<nat, Visit>, k: int, y: nat) {
    && y in visits && y < |blocks|
    && visits[y].start <= k < visits[y].start + CountDefs(blocks[y].statements, name)
  }

  ghost predicate Given(blocks: seq<CFGBlock>, name: string, visits: map<nat, Visit>, k: int) {
    exists y: nat :: GivenIn(blocks, name, visits, k, y)
  }

  /** The indices given in different blocks are different, all below `c`, and none below `c` is left out. */
  ghost predicate IndicesApart(blocks: seq<CFGBlock>, name: string, visits: map<nat, Visit>, c: int) {
    && (forall y :: y in visits ==>
          y < |blocks| && 0 <= visits[y].start && visits[y].start + CountDefs(blocks[y].statements, name) <= c)
    && (forall y, z :: y in visits && z in visits && y != z ==>
          (visits[y].start + CountDefs(blocks[y].statements, name) <= visits[z].start
           || visits[z].start + CountDefs(blocks[z].statements, name) <= visits[y].start))
    && (forall k :: 0 <= k < c ==> Given(blocks, name, visits, k))
  }

  ghost predicate Grown(visits: map<nat, Visit>, visits': map<nat, Visit>) {
    forall y :: y in visits ==> y in visits' && visits'[y] == visits[y]
  }

  lemma ChildVisitsKept(blocks: seq<CFGBlock>, name: string, visits: map<nat, Visit>, visits': map<nat, Visit>, y: nat)
    requires TreeOk(blocks) && y < |blocks| && Grown(visits, visits') && ChildVisits(blocks, name, visits, y)
    ensures ChildVisits(blocks, name, visits', y)
  {
    forall k | 0 <= k < |Children(blocks, y)| ensures ChildVisit(blocks, name, visits', y, k) {
      assert ChildVisit(blocks, name, visits, y, k);
    }
  }

  lemma ChildDefinedAbove(blocks: seq<CFGBlock>, x: nat, k: nat, name: string)
    requires TreeOk(blocks) && x < |blocks| && k < |Children(blocks, x)|
    requires DefinedAbove(blocks, Children(blocks, x)[k], name)
    ensures Defines(blocks, x, name) || DefinedAbove(blocks, x, name)
  {
    var g, z := SuccsOf(blocks), Children(blocks, x)[k];
    ChildFacts(blocks, x, k);
    var d :| SDom(g, d, z) && Defines(blocks, d, name);
    assert Dom(g, d, x);
    assert d != x ==> SDom(g, d, x);
  }

  /** The bookkeeping once child `k` of `x`, entered as `v` says, is done. */
  lemma ChildDone(blocks: seq<CFGBlock>, name: string, before: map<nat, Visit>, after: map<nat, Visit>, x: nat, k: nat, v: Visit)
    requires TreeOk(blocks) && x < |blocks| && k < |Children(blocks, x)|
    requires x in before && Grown(before, after) && Children(blocks, x)[k] in after && after[Children(blocks, x)[k]] == v
    requires var pushed := Pushed(blocks[x].statements, name, before[x]);
             && pushed <= v.stack && |v.stack| == |pushed| + PhisBelowChildren(blocks, name, x, k) && Increasing(v.stack)
             && v.start == before[x].start + CountDefs(blocks[x].statements, name) + DefsBelowChildren(blocks, name, x, k)
             && v.stack == pushed + LeftChildren(blocks, name, x, k, before[x].start + CountDefs(blocks[x].statements, name))
    requires forall j :: 0 <= j < k ==> ChildVisit(blocks, name, before, x, j)
    requires forall y :: y in BelowChildren(blocks, x, k) ==> y < |blocks| && ChildVisits(blocks, name, before, y)
    requires forall y :: y in Below(SuccsOf(blocks), Children(blocks, x)[k]) ==> y < |blocks| && ChildVisits(blocks, name, after, y)
    ensures forall j :: 0 <= j < k + 1 ==> ChildVisit(blocks, name, after, x, j)
    ensures forall y :: y in BelowChildren(blocks, x, k + 1) ==> y < |blocks| && ChildVisits(blocks, name, after, y)
  {
    hide PhisBelowChildren, DefsBelowChildren, LeftChildren, CountDefs, HasDominatorTree, WellFormed, Below, Pushed, ChildVisits;
    forall j | 0 <= j < k + 1 ensures ChildVisit(blocks, name, after, x, j) {
      if j < k { assert ChildVisit(blocks, name, before, x, j); }
    }
    assert BelowChildren(blocks, x, k + 1) == BelowChildren(blocks, x, k) + Below(SuccsOf(blocks), Children(blocks, x)[k]);
    forall y: nat | y in BelowChildren(blocks, x, k + 1) ensures y < |blocks| && ChildVisits(blocks, name, after, y) {
      if y in BelowChildren(blocks, x, k) { ChildVisitsKept(blocks, name, before, after, y); }
    }
  }

  /** An incoming read of the annotated block is one of the original block. */
  lemma NeedsTop(blocks: seq<CFGBlock>, name: string, visits: map<nat, Visit>, b: nat, now: seq<CFGBlock>, i: nat)
    requires Annotated(blocks, name, visits, now) && b < |blocks| && b !in visits
    requires ReadsIncoming(now[b].statements, i, name)
    ensures ReadsIncoming(blocks[b].statements, i, name)
  {
    assert AnnotatedBlock(blocks, name, visits, b, now[b]);
    AnnotatedSameDefs(blocks, name, visits, b, now[b], name);
    CountSamePrefix(blocks[b].statements, now[b].statements, name, i);
    assert now[b].statements[i] == Final(blocks, name, visits, b, i);
  }

  lemma FeedsSame(blocks: seq<CFGBlock>, name: string, visits: map<nat, Visit>, b: nat, v: Visit,
                  now: seq<CFGBlock>, mid: seq<CFGBlock>)
    requires Annotated(blocks, name, visits, now) && b < |blocks| && |mid| == |now|
    requires mid == now[b := now[b].(statements := mid[b].statements)] && |mid[b].statements| == |now[b].statements|
    requires forall i :: 0 <= i < |now[b].statements| ==>
               mid[b].statements[i] == RenamedAt(now[b].statements, i, name, v.start, Top(v.stack))
    requires FeedsPhi(mid, b, name)
    ensures FeedsPhi(blocks, b, name)
  {
    var y, i :| y in mid[b].succs && y < |mid| && 0 <= i < |mid[y].statements| && TakesArg(mid[y].statements[i], b, name);
    hide FeedsPhi;
    assert TakesArg(now[y].statements[i], b, name) by {
      if y == b { assert mid[b].statements[i] == RenamedAt(now[b].statements, i, name, v.start, Top(v.stack)); }
    }
    AnnotatedTakes(blocks, name, visits, now, y, i, b);
    AnnotatedSuccs(blocks, name, visits, now, b);
    FeedsAt(blocks, b, name, y, i);
  }

  lemma FeedsAt(blocks: seq<CFGBlock>, b: nat, name: string, y: nat, i: nat)
    requires b < |blocks| && y in blocks[b].succs && y < |blocks| && i < |blocks[y].statements| && TakesArg(blocks[y].statements[i], b, name)
    ensures FeedsPhi(blocks, b, name)
  {
  }

  lemma AnnotatedSuccs(blocks: seq<CFGBlock>, name: string, visits: map<nat, Visit>, now: seq<CFGBlock>, b: nat)
    requires Annotated(blocks, name, visits, now) && b < |blocks|
    ensures now[b].succs == blocks[b].succs
  {
    assert AnnotatedBlock(blocks, name, visits, b, now[b]);
  }

  lemma AnnotatedTakes(blocks: seq<CFGBlock>, name: string, visits: map<nat, Visit>, now: seq<CFGBlock>, y: nat, i: nat, b: nat)
    requires Annotated(blocks, name, visits, now) && y < |blocks| && i < |now[y].statements| && TakesArg(now[y].statements[i], b, name)
    ensures i < |blocks[y].statements| && TakesArg(blocks[y].statements[i], b, name)
  {
    assert AnnotatedBlock(blocks, name, visits, y, now[y]);
    assert now[y].statements[i] == Final(blocks, name, visits, y, i);
  }

  lemma IncomingDefined(blocks: seq<CFGBlock>, name: string, visits: map<nat, Visit>, b: nat, now: seq<CFGBlock>)
    requires Annotated(blocks, name, visits, now) && b < |blocks| && b !in visits
    requires Strict(blocks, name) && Reachable(SuccsOf(blocks), b)
    requires exists i :: ReadsIncoming(now[b].statements, i, name)
    ensures DefinedAbove(blocks, b, name)
  {
    var i :| ReadsIncoming(now[b].statements, i, name);
    NeedsTop(blocks, name, visits, b, now, i);
    assert NeedsIncoming(blocks, b, name);
  }

  lemma FeedsDefined(blocks: seq<CFGBlock>, name: string, b: nat)
    requires Strict(blocks, name) && Reachable(SuccsOf(blocks), b)
    requires b < |blocks| && CountDefs(blocks[b].statements, name) == 0 && FeedsPhi(blocks, b, name)
    ensures DefinedAbove(blocks, b, name)
  {
    assert NeedsIncoming(blocks, b, name);
  }

  lemma ApartStep(blocks: seq<CFGBlock>, name: string, visits: map<nat, Visit>, b: nat, v: Visit)
    requires IndicesApart(blocks, name, visits, v.start) && 0 <= v.start && b < |blocks| && b !in visits
    ensures IndicesApart(blocks, name, visits[b := v], v.start + CountDefs(blocks[b].statements, name))
  {
    hide CountDefs;
    var more, c := visits[b := v], v.start + CountDefs(blocks[b].statements, name);
    forall k | 0 <= k < c ensures Given(blocks, name, more, k) {
      if k < v.start {
        assert Given(blocks, name, visits, k);
        var y: nat :| GivenIn(blocks, name, visits, k, y);
        assert GivenIn(blocks, name, more, k, y);
      } else {
        assert GivenIn(blocks, name, more, k, b);
      }
    }
  }

  lemma EnoughEntries(blocks: seq<CFGBlock>, name: string, x: nat)
    requires x < |blocks|
    ensures CountAssigns(blocks[x].statements, name) <= CountDefs(blocks[x].statements, name)
    ensures forall c :: |Indices(c, CountDefs(blocks[x].statements, name))| == CountDefs(blocks[x].statements, name)
  {
  }

  /** The stack and the counter when the pops of `x` are done. */
  lemma VisitEnds(blocks: seq<CFGBlock>, name: string, x: nat, c: int, before: seq<int>, whole: seq<int>, after: seq<int>, counter: int)
    requires TreeOk(blocks) && x < |blocks|
    requires var s, n := blocks[x].statements, |Children(blocks, x)|;
             && whole == before + Indices(c, CountDefs(s, name)) + LeftChildren(blocks, name, x, n, c + CountDefs(s, name))
             && |whole| == |before| + CountDefs(s, name) + PhisBelowChildren(blocks, name, x, n)
             && after == whole[..|whole| - CountAssigns(s, name)] && Increasing(whole) && AllUnder(whole, counter)
             && counter == c + CountDefs(s, name) + DefsBelowChildren(blocks, name, x, n)
    ensures before <= after && |after| == |before| + PhisBelow(blocks, name, x) && after == before + Left(blocks, name, x, c)
    ensures Increasing(after) && AllUnder(after, counter) && counter == c + DefsBelow(blocks, name, x)
  {
    LeftAfterPops(blocks, name, x, c, before);
    hide Left, LeftChildren, Indices, HasDominatorTree, WellFormed;
  }

  lemma NoBelowChildren(blocks: seq<CFGBlock>, x: nat)
    requires x < |blocks|
    ensures BelowChildren(blocks, x, 0) == {}
  {
  }

  lemma BelowOneMore(blocks: seq<CFGBlock>, x: nat, k: nat)
    requires x < |blocks| && k < |Children(blocks, x)|
    ensures BelowChildren(blocks, x, k + 1) == BelowChildren(blocks, x, k) + Below(SuccsOf(blocks), Children(blocks, x)[k])
  {
    hide Below;
  }

  lemma NoChildren(blocks: seq<CFGBlock>, name: string, x: nat, c: int)
    requires TreeOk(blocks) && x < |blocks|
    ensures PhisBelowChildren(blocks, name, x, 0) == 0 && DefsBelowChildren(blocks, name, x, 0) == 0
    ensures LeftChildren(blocks, name, x, 0, c) == []
  {
  }

  lemma OneMoreChild(blocks: seq<CFGBlock>, name: string, x: nat, k: nat, c: int)
    requires TreeOk(blocks) && x < |blocks| && k < |Children(blocks, x)|
    ensures var z := Children(blocks, x)[k];
            && z < |blocks|
            && PhisBelowChildren(blocks, name, x, k + 1) == PhisBelowChildren(blocks, name, x, k) + PhisBelow(blocks, name, z)
            && DefsBelowChildren(blocks, name, x, k + 1) == DefsBelowChildren(blocks, name, x, k) + DefsBelow(blocks, name, z)
            && LeftChildren(blocks, name, x, k + 1, c)
               == LeftChildren(blocks, name, x, k, c) + Left(blocks, name, z, c + DefsBelowChildren(blocks, name, x, k))
  {
    hide HasDominatorTree, WellFormed;
    ChildFacts(blocks, x, k);
  }

  /** Popping the entries of the assignments off the whole stack and off what the subtree pushed is the same. */
  lemma LeftAfterPops(blocks: seq<CFGBlock>, name: string, x: nat, c: int, stack: seq<int>)
    requires TreeOk(blocks) && x < |blocks|
    ensures var s := blocks[x].statements;
            var whole := stack + Indices(c, CountDefs(s, name)) + LeftChildren(blocks, name, x, |Children(blocks, x)|, c + CountDefs(s, name));
            CountAssigns(s, name) <= |whole| && whole[..|whole| - CountAssigns(s, name)] == stack + Left(blocks, name, x, c)
  {
    hide LeftChildren, HasDominatorTree, WellFormed;
    var s := blocks[x].statements;
    var all := Indices(c, CountDefs(s, name)) + LeftChildren(blocks, name, x, |Children(blocks, x)|, c + CountDefs(s, name));
    assert stack + Indices(c, CountDefs(s, name)) + LeftChildren(blocks, name, x, |Children(blocks, x)|, c + CountDefs(s, name)) == stack + all;
  }

  /** Links and children are those of the original block. */
  lemma AnnotatedLinks(blocks: seq<CFGBlock>, name: string, visits: map<nat, Visit>, b: nat, now: seq<CFGBlock>)
    requires Annotated(blocks, name, visits, now) && b < |blocks|
    ensures |now| == |blocks| && now[b].succs == blocks[b].succs && now[b].dominatingBlocks == blocks[b].dominatingBlocks
    ensures CountDefs(now[b].statements, name) == CountDefs(blocks[b].statements, name)
    ensures CountAssigns(now[b].statements, name) == CountAssigns(blocks[b].statements, name)
  {
    assert AnnotatedBlock(blocks, name, visits, b, now[b]);
    AnnotatedSameDefs(blocks, name, visits, b, now[b], name);
    CountSame(blocks[b].statements, now[b].statements, name);
  }

  lemma SuccsInRange(blocks: seq<CFGBlock>, b: nat, y: nat)
    requires WellFormed(SuccsOf(blocks)) && b < |blocks| && y in blocks[b].succs
    ensures y < |blocks|
  {
    assert y in SuccsOf(blocks)[b];
  }

  class SSABuilder {
    const CFGraph: CFG
    var Counter: int
    var Stack: seq<int>

    constructor (graph: CFG)
      ensures CFGraph == graph
    {
      CFGraph := graph;
      Counter, Stack := 0, [];
    }

    /** One statement: its uses read the top of the stack, a definition pushes a new index. */
    method RenameStatement(s: IRNode, name: string) returns (r: IRNode)
      requires ReadsIn(s, name) ==> Stack != []
      modifies this
      ensures r == Renamed(s, name, Top(old(Stack)), old(Counter))
      ensures Stack == old(Stack) + (if IsDef(s, name) then [old(Counter)] else [])
      ensures Counter == old(Counter) + (if IsDef(s, name) then 1 else 0)
    {
      r := s;
      if s.IRPhiNode? {
        if s.variable.name == name {
          r := IRPhiNode(s.variable.(ssaIndex := Counter), s.blockToVarMap);
          Stack := Stack + [Counter];
          Counter := Counter + 1;
        }
      } else if ReadsIn(s, name) {
        r := SetUses(s, name, Stack[|Stack| - 1]);
      } else {
        SetUsesUnread(s, name, Top(Stack));
      }
      if r.IRAssignment? {
        if r.variable.name == name {
          r := IRAssignment(r.variable.(ssaIndex := Counter), r.rhs);
          Stack := Stack + [Counter];
          Counter := Counter + 1;
        }
      }
    }

    /** The first loop of TraverseBlockWithVar. */
    method RenameStatements(block: nat, name: string)
      requires block < |CFGraph.BasicBlocks|
      requires (exists i :: ReadsIncoming(CFGraph.BasicBlocks[block].statements, i, name)) ==> Stack != []
      modifies this, CFGraph`BasicBlocks
      ensures |CFGraph.BasicBlocks| == |old(CFGraph.BasicBlocks)|
      ensures var s, t := old(CFGraph.BasicBlocks[block].statements), CFGraph.BasicBlocks[block].statements;
              && CFGraph.BasicBlocks == old(CFGraph.BasicBlocks)[block := old(CFGraph.BasicBlocks)[block].(statements := t)]
              && |t| == |s|
              && (forall i :: 0 <= i < |s| ==> t[i] == RenamedAt(s, i, name, old(Counter), Top(old(Stack))))
              && Counter == old(Counter) + CountDefs(s, name)
              && Stack == old(Stack) + Indices(old(Counter), CountDefs(s, name))
    {
      ghost var blocks, start, stack := CFGraph.BasicBlocks, Counter, Stack;
      ghost var s := blocks[block].statements;
      var i := 0;
      while i < |CFGraph.BasicBlocks[block].statements|
        invariant 0 <= i <= |s| && |CFGraph.BasicBlocks| == |blocks|
        invariant CFGraph.BasicBlocks == blocks[block := blocks[block].(statements := CFGraph.BasicBlocks[block].statements)]
        invariant |CFGraph.BasicBlocks[block].statements| == |s|
        invariant forall j :: 0 <= j < i ==> CFGraph.BasicBlocks[block].statements[j] == RenamedAt(s, j, name, start, Top(stack))
        invariant forall j :: i <= j < |s| ==> CFGraph.BasicBlocks[block].statements[j] == s[j]
        invariant Counter == start + CountDefs(s[..i], name)
        invariant Stack == stack + Indices(start, CountDefs(s[..i], name))
      {
        hide Renamed, IsDef, ReadsIn, CountPhis, CountAssigns;
        DefStep(s, i, name);
        var stmt := CFGraph.BasicBlocks[block].statements[i];
        if ReadsIn(stmt, name) && CountDefs(s[..i], name) == 0 { assert ReadsIncoming(s, i, name); }
        assert Top(Stack) == TopAt(s, i, name, start, Top(stack));
        stmt := RenameStatement(stmt, name);
        CFGraph.BasicBlocks := CFGraph.BasicBlocks[block :=
          CFGraph.BasicBlocks[block].(statements := CFGraph.BasicBlocks[block].statements[i := stmt])];
        i := i + 1;
      }
      assert s[..i] == s;
    }

    /** The second loop: the phis of the successors take the top of the stack as their argument. */
    method FillSuccessors(block: nat, name: string)
      requires block < |CFGraph.BasicBlocks| && Distinct(CFGraph.BasicBlocks[block].succs)
      requires forall y :: y in CFGraph.BasicBlocks[block].succs ==> y < |CFGraph.BasicBlocks|
      requires FeedsPhi(CFGraph.BasicBlocks, block, name) ==> Stack != []
      modifies CFGraph`BasicBlocks
      ensures |CFGraph.BasicBlocks| == |old(CFGraph.BasicBlocks)|
      ensures forall y :: 0 <= y < |CFGraph.BasicBlocks| ==> (CFGraph.BasicBlocks[y] ==
                FilledBlock(old(CFGraph.BasicBlocks)[y], y in old(CFGraph.BasicBlocks)[block].succs, block, name, Top(Stack)))
    {
      ghost var blocks := CFGraph.BasicBlocks;
      var succs := CFGraph.BasicBlocks[block].succs;
      var k := 0;
      while k < |succs|
        invariant k <= |succs| && |CFGraph.BasicBlocks| == |blocks|
        invariant forall y :: 0 <= y < |blocks| ==>
                    CFGraph.BasicBlocks[y] == FilledBlock(blocks[y], y in succs[..k], block, name, Top(Stack))
      {
        var y := succs[k];
        assert y in succs && y !in succs[..k];
        assert forall i :: 0 <= i < |blocks[y].statements| && TakesArg(blocks[y].statements[i], block, name) ==>
          FeedsPhi(blocks, block, name);
        FillBlock(y, block, name);
        assert succs[..k + 1] == succs[..k] + [y];
        k := k + 1;
      }
      assert succs[..k] == succs;
    }

    method FillBlock(y: nat, block: nat, name: string)
      requires y < |CFGraph.BasicBlocks|
      requires forall i :: 0 <= i < |CFGraph.BasicBlocks[y].statements| ==>
                 TakesArg(CFGraph.BasicBlocks[y].statements[i], block, name) ==> Stack != []
      modifies CFGraph`BasicBlocks
      ensures CFGraph.BasicBlocks == old(CFGraph.BasicBlocks)[y :=
                FilledBlock(old(CFGraph.BasicBlocks)[y], true, block, name, Top(Stack))]
    {
      ghost var blocks := CFGraph.BasicBlocks;
      ghost var s := blocks[y].statements;
      var i := 0;
      while i < |CFGraph.BasicBlocks[y].statements|
        invariant i <= |s| && |CFGraph.BasicBlocks| == |blocks|
        invariant CFGraph.BasicBlocks == blocks[y := blocks[y].(statements := CFGraph.BasicBlocks[y].statements)]
        invariant |CFGraph.BasicBlocks[y].statements| == |s|
        invariant forall j :: 0 <= j < |s| ==>
                    CFGraph.BasicBlocks[y].statements[j] == if j < i then FillArg(s[j], block, name, Top(Stack)) else s[j]
      {
        var stmt := CFGraph.BasicBlocks[y].statements[i];
        if TakesArg(stmt, block, name) {
          stmt := stmt.(blockToVarMap := stmt.blockToVarMap[block :=
            stmt.blockToVarMap[block].(ssaIndex := Stack[|Stack| - 1])]);
          CFGraph.BasicBlocks := CFGraph.BasicBlocks[y :=
            CFGraph.BasicBlocks[y].(statements := CFGraph.BasicBlocks[y].statements[i := stmt])];
        }
        i := i + 1;
      }
      assert CFGraph.BasicBlocks[y].statements == FillArgs(s, block, name, Top(Stack));
    }

    /** What holds between two steps of the traversal. */
    ghost predicate Running(blocks: seq<CFGBlock>, name: string, visits: map<nat, Visit>)
      reads this, CFGraph
    {
      && Annotated(blocks, name, visits, CFGraph.BasicBlocks)
      && Increasing(Stack) && AllUnder(Stack, Counter) && 0 <= Counter
      && IndicesApart(blocks, name, visits, Counter)
    }

    method TraverseBlockWithVar(block: nat, name: string, ghost blocks: seq<CFGBlock>, ghost visits: map<nat, Visit>)
      returns (ghost visits': map<nat, Visit>)
      requires TreeOk(blocks) && (forall b :: 0 <= b < |blocks| ==> Distinct(blocks[b].succs))
      requires block < |blocks| && Reachable(SuccsOf(blocks), block)
      requires Running(blocks, name, visits) && visits.Keys !! Below(SuccsOf(blocks), block)
      requires Strict(blocks, name) && (DefinedAbove(blocks, block, name) ==> Stack != [])
      modifies this, CFGraph`BasicBlocks
      ensures Running(blocks, name, visits') && Grown(visits, visits')
      ensures visits'.Keys == visits.Keys + Below(SuccsOf(blocks), block)
      ensures block in visits' && visits'[block] == Visit(old(Counter), old(Stack))
      ensures old(Stack) <= Stack && |Stack| == |old(Stack)| + PhisBelow(blocks, name, block)
      ensures Counter == old(Counter) + DefsBelow(blocks, name, block)
      ensures Stack == old(Stack) + Left(blocks, name, block, old(Counter))
      ensures forall y :: y in Below(SuccsOf(blocks), block) ==> y < |blocks| && ChildVisits(blocks, name, visits', y)
      decreases Below(SuccsOf(blocks), block), 1
    {
      hide Annotated, IndicesApart, HasDominatorTree, WellFormed, Strict, DefinedAbove, ChildVisits, Below, BelowChildren, Left, LeftChildren,
        Increasing, AllUnder, PhisBelow, PhisBelowChildren, DefsBelow, DefsBelowChildren, CountDefs, Indices;
      BelowSplits(blocks, block);
      RootApart(blocks, block);
      visits' := VisitBlock(block, name, blocks, visits);
      visits' := VisitChildren(block, name, blocks, visits');
      AnnotatedLinks(blocks, name, visits', block, CFGraph.BasicBlocks);
      ghost var whole := Stack;
      EnoughEntries(blocks, name, block);
      PopAssignments(block, name);
      VisitEnds(blocks, name, block, old(Counter), old(Stack), whole, Stack, Counter);
    }

    /** The loop over DominatingBlocks. */
    method VisitChildren(block: nat, name: string, ghost blocks: seq<CFGBlock>, ghost visits: map<nat, Visit>)
      returns (ghost visits': map<nat, Visit>)
      requires TreeOk(blocks) && (forall b :: 0 <= b < |blocks| ==> Distinct(blocks[b].succs))
      requires block < |blocks| && Reachable(SuccsOf(blocks), block)
      requires Running(blocks, name, visits) && Strict(blocks, name)
      requires block in visits && visits.Keys !! BelowChildren(blocks, block, |Children(blocks, block)|)
      requires Stack == Pushed(blocks[block].statements, name, visits[block])
      requires Counter == visits[block].start + CountDefs(blocks[block].statements, name)
      requires Defines(blocks, block, name) || DefinedAbove(blocks, block, name) ==> Stack != []
      modifies this, CFGraph`BasicBlocks
      ensures Running(blocks, name, visits') && Grown(visits, visits')
      ensures visits'.Keys == visits.Keys + BelowChildren(blocks, block, |Children(blocks, block)|)
      ensures old(Stack) <= Stack
      ensures |Stack| == |old(Stack)| + PhisBelowChildren(blocks, name, block, |Children(blocks, block)|)
      ensures Counter == old(Counter) + DefsBelowChildren(blocks, name, block, |Children(blocks, block)|)
      ensures Stack == old(Stack) + LeftChildren(blocks, name, block, |Children(blocks, block)|, old(Counter))
      ensures ChildVisits(blocks, name, visits', block)
      ensures forall y :: y in BelowChildren(blocks, block, |Children(blocks, block)|) ==>
                y < |blocks| && ChildVisits(blocks, name, visits', y)
      decreases Below(SuccsOf(blocks), block), 0
    {
      hide Annotated, IndicesApart, HasDominatorTree, WellFormed, Strict, DefinedAbove, PhisBelow, DefsBelow, Left, Below, PhisBelowChildren,
        DefsBelowChildren, LeftChildren, BelowChildren;
      NoBelowChildren(blocks, block);
      NoChildren(blocks, name, block, Counter);
      AnnotatedLinks(blocks, name, visits, block, CFGraph.BasicBlocks);
      var children := CFGraph.BasicBlocks[block].dominatingBlocks;
      ghost var pushed, first := Stack, Counter;
      visits' := visits;
      var k := 0;
      while k < |children|
        invariant 0 <= k <= |children| == |Children(blocks, block)|
        invariant Running(blocks, name, visits') && Grown(visits, visits')
        invariant visits'.Keys == visits.Keys + BelowChildren(blocks, block, k)
        invariant pushed <= Stack && |Stack| == |pushed| + PhisBelowChildren(blocks, name, block, k)
        invariant Counter == first + DefsBelowChildren(blocks, name, block, k)
        invariant Stack == pushed + LeftChildren(blocks, name, block, k, first)
        invariant forall j :: 0 <= j < k ==> ChildVisit(blocks, name, visits', block, j)
        invariant forall y :: y in BelowChildren(blocks, block, k) ==> y < |blocks| && ChildVisits(blocks, name, visits', y)
      {
        hide ChildVisits, ChildVisit, Pushed, CountDefs, Increasing, AllUnder;
        ghost var before, entered := visits', Visit(Counter, Stack);
        ChildFacts(blocks, block, k);
        BelowOneMore(blocks, block, k);
        BelowChildrenMore(blocks, block, k);
        NextChildApart(blocks, block, k);
        if DefinedAbove(blocks, children[k], name) { ChildDefinedAbove(blocks, block, k, name); }
        visits' := TraverseBlockWithVar(children[k], name, blocks, before);
        ChildDone(blocks, name, before, visits', block, k, entered);
        OneMoreChild(blocks, name, block, k, first);
        k := k + 1;
      }
    }

    /** The parts of TraverseBlockWithVar before the children are visited. */
    method VisitBlock(block: nat, name: string, ghost blocks: seq<CFGBlock>, ghost visits: map<nat, Visit>)
      returns (ghost visits': map<nat, Visit>)
      requires TreeOk(blocks) && (forall b :: 0 <= b < |blocks| ==> Distinct(blocks[b].succs))
      requires block < |blocks| && Reachable(SuccsOf(blocks), block)
      requires Running(blocks, name, visits) && block !in visits
      requires Strict(blocks, name) && (DefinedAbove(blocks, block, name) ==> Stack != [])
      modifies this, CFGraph`BasicBlocks
      ensures visits' == visits[block := Visit(old(Counter), old(Stack))]
      ensures Running(blocks, name, visits')
      ensures Counter == old(Counter) + CountDefs(blocks[block].statements, name)
      ensures Stack == Pushed(blocks[block].statements, name, Visit(old(Counter), old(Stack)))
    {
      hide Annotated, IndicesApart, HasDominatorTree, WellFormed, Strict, DefinedAbove, ReadsIncoming, FeedsPhi, CountDefs;
      ghost var v, now := Visit(Counter, Stack), CFGraph.BasicBlocks;
      AnnotatedLinks(blocks, name, visits, block, now);
      if exists i :: ReadsIncoming(now[block].statements, i, name) {
        IncomingDefined(blocks, name, visits, block, now);
      }
      RenameStatements(block, name);
      ghost var mid := CFGraph.BasicBlocks;
      PushedIncreasing(blocks[block].statements, name, v);
      if FeedsPhi(mid, block, name) {
        FeedsSame(blocks, name, visits, block, v, now, mid);
        if Stack == [] { FeedsDefined(blocks, name, block); }
      }
      forall y | y in mid[block].succs ensures y < |mid| { SuccsInRange(blocks, block, y); }
      FillSuccessors(block, name);
      visits' := visits[block := v];
      VisitAnnotates(blocks, name, visits, block, v, now, mid, CFGraph.BasicBlocks);
      ApartStep(blocks, name, visits, block, v);
    }

    /** The last loop: one pop per assignment, none for a phi. */
    method PopAssignments(block: nat, name: string)
      requires block < |CFGraph.BasicBlocks|
      requires CountAssigns(CFGraph.BasicBlocks[block].statements, name) <= |Stack|
      modifies this`Stack
      ensures Stack == old(Stack)[..|old(Stack)| - CountAssigns(CFGraph.BasicBlocks[block].statements, name)]
    {
      ghost var stack, s := Stack, CFGraph.BasicBlocks[block].statements;
      var i := 0;
      while i < |CFGraph.BasicBlocks[block].statements|
        invariant 0 <= i <= |s| && CountAssigns(s[..i], name) <= CountAssigns(s, name)
        invariant Stack == stack[..|stack| - CountAssigns(s[..i], name)]
      {
        CountStep(s, i, name);
        CountMonotone(s, i + 1, name);
        if IsAssign(CFGraph.BasicBlocks[block].statements[i], name) {
          Stack := Stack[..|Stack| - 1];
        }
        i := i + 1;
      }
      assert s[..i] == s;
    }

    method RenameVarToSSAForm(name: string) returns (ghost visits: map<nat, Visit>)
      requires TreeOk(CFGraph.BasicBlocks) && Strict(CFGraph.BasicBlocks, name)
      requires forall b :: 0 <= b < |CFGraph.BasicBlocks| ==> Distinct(CFGraph.BasicBlocks[b].succs)
      modifies this, CFGraph`BasicBlocks
      ensures IsRenaming(old(CFGraph.BasicBlocks), name, visits, CFGraph.BasicBlocks)
      ensures IndicesApart(old(CFGraph.BasicBlocks), name, visits, Counter) && 0 <= Counter
      ensures |Stack| == PhisBelow(old(CFGraph.BasicBlocks), name, 0)
      ensures Stack == Left(old(CFGraph.BasicBlocks), name, 0, 0)
      ensures 0 in visits && visits[0] == Visit(0, []) && Counter == DefsBelow(old(CFGraph.BasicBlocks), name, 0)
    {
      ghost var blocks := CFGraph.BasicBlocks;
      Counter := 0;
      Stack := [];
      EntryReachable(SuccsOf(blocks));
      assert SuccsOf(blocks)[0] == blocks[0].succs;
      NothingAboveEntry(blocks, name);
      UnvisitedAnnotated(blocks, name);
      visits := TraverseBlockWithVar(0, name, blocks, map[]);
      EverythingBelowEntry(blocks);
    }
  }

  /** Every reachable block was visited, once; the others were not. */
  ghost predicate IsRenaming(blocks: seq<CFGBlock>, name: string, visits: map<nat, Visit>, now: seq<CFGBlock>) {
    && TreeOk(blocks) && Annotated(blocks, name, visits, now)
    && (forall y :: y in visits <==> Reachable(SuccsOf(blocks), y))
    && (forall y :: y in visits ==> y < |blocks| && ChildVisits(blocks, name, visits, y))
  }

  /** Blocks entered alike have subtrees entered alike. */
  lemma {:induction false} VisitsSame(blocks: seq<CFGBlock>, name: string, v: map<nat, Visit>, w: map<nat, Visit>, x: nat)
    requires TreeOk(blocks) && x < |blocks| && Reachable(SuccsOf(blocks), x) && x in v && x in w && v[x] == w[x]
    requires forall y :: y in Below(SuccsOf(blocks), x) ==> y < |blocks| && ChildVisits(blocks, name, v, y) && ChildVisits(blocks, name, w, y)
    ensures forall y :: y in Below(SuccsOf(blocks), x) ==> y in v && y in w && v[y] == w[y]
    decreases Below(SuccsOf(blocks), x), 1
  {
    hide HasDominatorTree, WellFormed, Below;
    BelowSplits(blocks, x);
    ChildrenSame(blocks, name, v, w, x, |Children(blocks, x)|);
  }

  lemma {:induction false} ChildrenSame(blocks: seq<CFGBlock>, name: string, v: map<nat, Visit>, w: map<nat, Visit>, x: nat, k: nat)
    requires TreeOk(blocks) && x < |blocks| && k <= |Children(blocks, x)| && Reachable(SuccsOf(blocks), x)
    requires x in v && x in w && v[x] == w[x]
    requires forall y :: y in Below(SuccsOf(blocks), x) ==> y < |blocks| && ChildVisits(blocks, name, v, y) && ChildVisits(blocks, name, w, y)
    ensures forall y :: y in BelowChildren(blocks, x, k) ==> y in v && y in w && v[y] == w[y]
    decreases Below(SuccsOf(blocks), x), 0, k
  {
    hide HasDominatorTree, WellFormed, Below, LeftChildren, DefsBelowChildren, PhisBelowChildren, Pushed, Increasing;
    if k > 0 {
      ChildrenSame(blocks, name, v, w, x, k - 1);
      var z := Children(blocks, x)[k - 1];
      ChildFacts(blocks, x, k - 1);
      BelowSelf(SuccsOf(blocks), x);
      assert ChildVisit(blocks, name, v, x, k - 1) && ChildVisit(blocks, name, w, x, k - 1);
      VisitsSame(blocks, name, v, w, z);
    }
  }

  /** The graph decides the renaming: every index of the result, also those of reads that meet leftover entries. */
  lemma RenamingUnique(blocks: seq<CFGBlock>, name: string, v: map<nat, Visit>, now: seq<CFGBlock>, w: map<nat, Visit>, other: seq<CFGBlock>)
    requires IsRenaming(blocks, name, v, now) && IsRenaming(blocks, name, w, other)
    requires 0 in v && 0 in w && v[0] == w[0] == Visit(0, [])
    ensures v == w && now == other
  {
    hide HasDominatorTree, ChildVisits;
    EntryReachable(SuccsOf(blocks));
    EverythingBelowEntry(blocks);
    VisitsSame(blocks, name, v, w, 0);
    assert v == w;
    SameAnnotated(blocks, name, v, now, other);
  }

  lemma SameAnnotated(blocks: seq<CFGBlock>, name: string, visits: map<nat, Visit>, now: seq<CFGBlock>, other: seq<CFGBlock>)
    requires Annotated(blocks, name, visits, now) && Annotated(blocks, name, visits, other)
    ensures now == other
  {
    hide Final;
    forall y | 0 <= y < |blocks| ensures now[y] == other[y] {
      assert AnnotatedBlock(blocks, name, visits, y, now[y]) && AnnotatedBlock(blocks, name, visits, y, other[y]);
      assert now[y].statements == other[y].statements;
    }
  }

  lemma NothingAboveEntry(blocks: seq<CFGBlock>, name: string)
    requires |blocks| > 0
    ensures !DefinedAbove(blocks, 0, name)
  {
    var g := SuccsOf(blocks);
    assert PathTo(g, [0], 0);
    forall d ensures !SDom(g, d, 0) {
      assert Dom(g, d, 0) ==> d in [0];
    }
  }

  lemma UnvisitedAnnotated(blocks: seq<CFGBlock>, name: string)
    ensures Annotated(blocks, name, map[], blocks)
  {
    forall y | 0 <= y < |blocks| ensures AnnotatedBlock(blocks, name, map[], y, blocks[y]) {
      forall i | 0 <= i < |blocks[y].statements|
        ensures blocks[y].statements[i] == Final(blocks, name, map[], y, i)
      {
        var s := blocks[y].statements[i];
        if s.IRPhiNode? {
          assert WithArgs(blocks, name, map[], y, s).blockToVarMap == s.blockToVarMap;
        }
      }
    }
  }

  lemma EverythingBelowEntry(blocks: seq<CFGBlock>)
    ensures forall y :: y in Below(SuccsOf(blocks), 0) <==> Reachable(SuccsOf(blocks), y)
  {
    var g := SuccsOf(blocks);
    forall y ensures y in Below(g, 0) <==> Reachable(g, y) {
      EntryDominates(g, y);
      if Reachable(g, y) { ReachableInRange(g, y); }
    }
  }

  lemma DefStep(s: seq<IRNode>, i: nat, name: string)
    requires i < |s|
    ensures CountDefs(s[..i + 1], name) == CountDefs(s[..i], name) + if IsDef(s[i], name) then 1 else 0
  {
    CountStep(s, i, name);
  }

  lemma CountMonotone(s: seq<IRNode>, i: nat, name: string)
    requires i <= |s|
    ensures CountAssigns(s[..i], name) <= CountAssigns(s, name)
    ensures CountPhis(s[..i], name) <= CountPhis(s, name)
    decreases |s| - i
  {
    if i == |s| {
      assert s[..i] == s;
    } else {
      CountStep(s, i, name);
      CountMonotone(s, i + 1, name);
    }
  }
}
