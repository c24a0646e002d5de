/** A program that the renaming gets wrong, compiled: `x = 0; if (c) { if (d) x = 1; }`. The phi of the
    inner conditional leaves its entry on the stack, and the argument of the outer phi for the else-arm
    names that entry in place of the assignment in Entry. */
module NestedThen {
  import opened Common
  import opened Ir
  import opened Dominance
  import opened Cfg
  import opened DominatorTree
  import opened Lowering
  import opened Renaming
  import opened ReachingDefs
  import opened SsaForm
  import opened Builder
  import opened Pipeline
  import opened Structured
  import opened Naming
  import opened Compile
  import opened SsaMeaning
  import opened Preservation

  // ---------------------------------------------------------------- the program and its graph

  function Variable(name: string): ASTNode {
    ASTSymbol(Symbol(name, 0))
  }

  function AssignX(value: int): ASTNode {
    ASTAssign(Symbol("x", 0), ASTNumber(value))
  }

  function Inner(): ASTNode {
    ASTIf(Variable("d"), AssignX(1), ASTNumber(0))
  }

  function Outer(): ASTNode {
    ASTIf(Variable("c"), Inner(), ASTNumber(0))
  }

  function Program(): seq<ASTNode> {
    [AssignX(0), Outer()]
  }

  function Set(value: int): IRNode {
    IRAssignment(Symbol("x", 0), ASTNumber(value))
  }

  function Jump(target: nat): IRNode {
    IRBranch(None, target, None)
  }

  function Branch(name: string, t: nat, e: nat): IRNode {
    IRBranch(Some(Variable(name)), t, Some(e))
  }

  function Block(title: string, statements: seq<IRNode>, succs: seq<nat>, preds: seq<nat>): CFGBlock {
    CFGBlock(title, statements, succs, preds, None, [])
  }

  const Entry: CFGBlock := Block("Entry", [Set(0), Branch("c", 1, 2)], [1, 2], [])
  const Then: CFGBlock := Block("Then", [Branch("d", 4, 5)], [4, 5], [0])

  /** Entry with its assignment. */
  function S1(): BState {
    BState([Block("Entry", [Set(0)], [], [])], 0, map["x" := {0}], [0])
  }

  /** Both conditions tested, the inner then-block current. */
  function S2(): BState {
    BState([Block("Entry", [Set(0), Branch("c", 1, 2)], [1, 2], []), Block("Then", [], [], [0]), Block("Else", [], [], [0]),
            Block("IfContinue", [], [], [])], 1, map["x" := {0}], [0, 1])
  }

  function S3(): BState {
    BState([Entry, Then, Block("Else", [], [], [0]), Block("IfContinue", [], [], []),
            Block("Then", [], [], [1]), Block("Else", [], [], [1]), Block("IfContinue", [], [], [])], 4, map["x" := {0}], [0, 1, 4])
  }

  function S4(): BState {
    BState([Entry, Then, Block("Else", [], [], [0]), Block("IfContinue", [], [], []),
            Block("Then", [Set(1)], [], [1]), Block("Else", [], [], [1]), Block("IfContinue", [], [], [])], 4, map["x" := {0, 4}], [0, 1, 4])
  }

  function S5(): BState {
    BState([Entry, Then, Block("Else", [], [], [0]), Block("IfContinue", [], [], []),
            Block("Then", [Set(1), Jump(6)], [6], [1]), Block("Else", [], [], [1]), Block("IfContinue", [], [], [4])],
           5, map["x" := {0, 4}], [0, 1, 4, 5])
  }

  function S6(): BState {
    BState([Entry, Then, Block("Else", [], [], [0]), Block("IfContinue", [], [], []),
            Block("Then", [Set(1), Jump(6)], [6], [1]), Block("Else", [Jump(6)], [6], [1]), Block("IfContinue", [], [], [4, 5])],
           6, map["x" := {0, 4}], [0, 1, 4, 5, 6])
  }

  function S7(): BState {
    BState([Entry, Then, Block("Else", [], [], [0]), Block("IfContinue", [], [], [6]),
            Block("Then", [Set(1), Jump(6)], [6], [1]), Block("Else", [Jump(6)], [6], [1]), Block("IfContinue", [Jump(3)], [3], [4, 5])],
           2, map["x" := {0, 4}], [0, 1, 4, 5, 6, 2])
  }

  /** The finished graph. */
  function S8(): BState {
    BState([Entry, Then, Block("Else", [Jump(3)], [3], [0]), Block("IfContinue", [], [], [6, 2]),
            Block("Then", [Set(1), Jump(6)], [6], [1]), Block("Else", [Jump(6)], [6], [1]), Block("IfContinue", [Jump(3)], [3], [4, 5])],
           3, map["x" := {0, 4}], [0, 1, 4, 5, 6, 2, 3])
  }

  lemma Same(a: BState, b: BState)
    requires a.cur == b.cur && a.vars == b.vars && a.order == b.order && |a.blocks| == |b.blocks|
    requires forall i :: 0 <= i < |a.blocks| ==> a.blocks[i] == b.blocks[i]
    ensures a == b
  {
    assert a.blocks == b.blocks;
  }

  lemma Step1()
    ensures AfterAssign(EntryState, Symbol("x", 0), ASTNumber(0)) == S1()
  {
    var r := AfterAssign(EntryState, Symbol("x", 0), ASTNumber(0));
    assert r.blocks[0].statements == [Set(0)];
    assert r.vars["x"] == {0};
    assert r.vars == map["x" := {0}];
    Same(r, S1());
  }

  lemma Step2()
    ensures AfterBranch(S1(), Variable("c")) == S2()
  {
    var r := AfterBranch(S1(), Variable("c"));
    assert r.blocks[0].statements == [Set(0), Branch("c", 1, 2)] && r.blocks[0].succs == [1, 2];
    assert r.blocks[1].preds == [0] && r.blocks[2].preds == [0];
    Same(r, S2());
  }

  lemma Step3()
    ensures AfterBranch(S2(), Variable("d")) == S3()
  {
    var r := AfterBranch(S2(), Variable("d"));
    assert r.blocks[1].statements == [Branch("d", 4, 5)] && r.blocks[1].succs == [4, 5];
    assert r.blocks[4].preds == [1] && r.blocks[5].preds == [1];
    Same(r, S3());
  }

  lemma Step4()
    ensures AfterAssign(S3(), Symbol("x", 0), ASTNumber(1)) == S4()
  {
    var r := AfterAssign(S3(), Symbol("x", 0), ASTNumber(1));
    assert r.blocks[4].statements == [Set(1)];
    assert r.vars["x"] == {0, 4};
    Same(r, S4());
  }

  lemma Step5()
    ensures AfterJump(S4(), 6, 5) == S5()
  {
    var r := AfterJump(S4(), 6, 5);
    assert r.blocks[4].statements == [Set(1), Jump(6)] && r.blocks[4].succs == [6] && r.blocks[6].preds == [4];
    Same(r, S5());
  }

  lemma Step6()
    ensures AfterJump(S5(), 6, 6) == S6()
  {
    var r := AfterJump(S5(), 6, 6);
    assert r.blocks[5].statements == [Jump(6)] && r.blocks[5].succs == [6] && r.blocks[6].preds == [4, 5];
    Same(r, S6());
  }

  lemma Step7()
    ensures AfterJump(S6(), 3, 2) == S7()
  {
    var r := AfterJump(S6(), 3, 2);
    assert r.blocks[6].statements == [Jump(3)] && r.blocks[6].succs == [3] && r.blocks[3].preds == [6];
    Same(r, S7());
  }

  lemma Step8()
    ensures AfterJump(S7(), 3, 3) == S8()
  {
    var r := AfterJump(S7(), 3, 3);
    assert r.blocks[2].statements == [Jump(3)] && r.blocks[2].succs == [3] && r.blocks[3].preds == [6, 2];
    Same(r, S8());
  }

  lemma InnerLowered()
    ensures LoweredTo(Inner(), S2()) == S6()
  {
    hide AfterBranch, AfterAssign, AfterJump, S6;
    Step3(); Step4(); Step5(); Step6();
    assert LoweredTo(AssignX(1), S3()) == S4();
    assert EndArm(S4(), 6, 5) == S5();
    assert LoweredTo(ASTNumber(0), S5()) == S5();
    assert EndArm(S5(), 6, 6) == S6();
  }

  lemma OuterLowered()
    ensures LoweredTo(Outer(), S1()) == S8()
  {
    hide AfterBranch, AfterJump, S8, Inner;
    Step2(); InnerLowered(); Step7(); Step8();
    assert EndArm(S6(), 3, 2) == S7();
    assert LoweredTo(ASTNumber(0), S7()) == S7();
    assert EndArm(S7(), 3, 3) == S8();
  }

  /** The builder turns the program into the finished graph. */
  lemma ProgramLowered()
    ensures LoweredTo(Sequence(Program()), EntryState) == S8()
  {
    hide AfterAssign, S1, S8, Outer;
    var first := Sequence([AssignX(0)]);
    assert [AssignX(0)][..0] == [];
    assert Program()[..1] == [AssignX(0)];
    Step1();
    assert LoweredTo(first, EntryState) == S1();
    OuterLowered();
  }

  // ---------------------------------------------------------------- the demand of the renaming is met

  lemma EntryAssignsX()
    ensures AssignedFirst(S8().blocks, "x")
  {
    var s := Entry.statements;
    assert s[..1] == [Set(0)] && s[..1][..0] == [] && s[..0] == [];
    assert CountAssigns(s[..1], "x") == 1;
    forall i: nat ensures !ReadsIncoming(s, i, "x") {
      if i < |s| { assert !ReadsIn(s[i], "x"); }
    }
  }

  lemma DemandMet()
    ensures NeverEmpty(S8().blocks, S8().vars)
  {
    hide NeverEmpty, AssignedFirst;
    EntryAssignsX();
    AssignedFirstNeverEmpty(S8().blocks, S8().vars);
  }

  // ---------------------------------------------------------------- dominance in this graph

  const G: Graph := [[1, 2], [4, 5], [3], [], [6], [6], [3]]

  /** The only way into `y` is from `q`. */
  ghost predicate OnlyFrom(g: Graph, q: nat, y: nat) {
    y != 0 && q != y && Edge(g, q, y) && forall r :: Edge(g, r, y) ==> r == q
  }

  lemma OnlyFromDominates(g: Graph, q: nat, y: nat, x: nat)
    requires OnlyFrom(g, q, y) && Dom(g, x, q)
    ensures Dom(g, x, y) && Dom(g, q, y)
  {
    forall p | PathTo(g, p, y) ensures x in p && q in p {
      var n := |p| - 1;
      assert Edge(g, p[n - 1], p[n]);
      PathPrefix(g, p, n - 1);
      assert PathTo(g, p[..n], q);
      assert x in p[..n] && p[n - 1] == q;
    }
  }

  lemma OnlyFromNoFrontier(g: Graph, q: nat, y: nat, x: nat)
    requires OnlyFrom(g, q, y)
    ensures !InFrontier(g, x, y)
  {
    if r :| Reachable(g, r) && Edge(g, r, y) && Dom(g, x, r) {
      OnlyFromDominates(g, q, y, x);
      if x == y {
        ReachableStep(g, r, y);
        DomAntisymmetric(g, q, y);
      }
    }
  }

  lemma OnlyFromImmediate(g: Graph, q: nat, y: nat)
    requires OnlyFrom(g, q, y) && Reachable(g, q)
    ensures Reachable(g, y) && IDom(g, q, y)
  {
    ReachableStep(g, q, y);
    DomReflexive(g, q);
    OnlyFromDominates(g, q, y, q);
    forall e | SDom(g, e, y) ensures Dom(g, e, q) {
      forall p | PathTo(g, p, q) ensures e in p {
        PathAppend(g, p, 0, q, y);
        assert e in p + [y];
      }
    }
  }

  lemma Ways()
    ensures OnlyFrom(G, 0, 1) && OnlyFrom(G, 0, 2) && OnlyFrom(G, 1, 4) && OnlyFrom(G, 1, 5)
    ensures Reachable(G, 0) && Reachable(G, 2) && Reachable(G, 4) && Reachable(G, 6)
  {
    EntryReachable(G);
    ReachableStep(G, 0, 1);
    ReachableStep(G, 0, 2);
    ReachableStep(G, 1, 4);
    ReachableStep(G, 4, 6);
  }

  /** Every path to the inner merge block goes through the outer then-block. */
  lemma InnerMergeDominated()
    ensures Dom(G, 1, 6)
  {
    Ways();
    DomReflexive(G, 1);
    OnlyFromDominates(G, 1, 4, 1);
    OnlyFromDominates(G, 1, 5, 1);
    forall p | PathTo(G, p, 6) ensures 1 in p {
      var n := |p| - 1;
      assert Edge(G, p[n - 1], p[n]);
      PathPrefix(G, p, n - 1);
      assert p[n - 1] == 4 || p[n - 1] == 5;
      assert PathTo(G, p[..n], p[n - 1]);
      assert 1 in p[..n];
    }
  }

  /** The assignment in the inner then-block meets the other arm in the inner merge block, and what is
      merged there meets the outer else-arm in the outer one. */
  lemma Frontiers()
    ensures InFrontier(G, 4, 6) && InFrontier(G, 6, 3)
  {
    Ways();
    DomReflexive(G, 4);
    DomReflexive(G, 6);
    assert PathTo(G, [0, 1, 5, 6], 6) && 4 !in [0, 1, 5, 6];
    assert PathTo(G, [0, 2, 3], 3) && 6 !in [0, 2, 3];
    assert Edge(G, 4, 6) && Edge(G, 6, 3);
  }

  // ---------------------------------------------------------------- the compiled program

  /** What a commit of the graph leaves. */
  ghost predicate Compiled(records: seq<IfRecord>, st: Stages, after: seq<CFGBlock>) {
    Inv(S8()) && Built(S8().blocks, S8().order, records) && Committed(S8().blocks, S8().vars, st, after)
  }

  lemma CompiledGraph(records: seq<IfRecord>, st: Stages, after: seq<CFGBlock>)
    requires Compiled(records, st, after)
    ensures RenamedGraph(after, S8().order, records, "x") && LaidOutBlocks(after) && SuccsOf(after) == G && |after| == 7
    ensures |after[3].statements| > 0 ==> after[3].statements[0].IRPhiNode?
  {
    hide Inv, Built, Committed, RenamedGraph, NeverEmpty, LaidOutBlocks;
    DemandMet();
    CommittedGraph(S8(), records, st, after, "x");
    SameLinks(S8().blocks, st, after, S8().vars);
    CompiledLaidOut(records, st, after);
    CommittedStatement(S8().blocks, S8().vars, st, after, 3);
    if |after[3].statements| > 0 { ErasedPhi(after[3].statements[0], st.names[3][0], S8().blocks[3].preds); }
  }

  ghost predicate LaidOutBlocks(after: seq<CFGBlock>) {
    LaidOut(after, {"x"})
  }

  lemma CompiledLaidOut(records: seq<IfRecord>, st: Stages, after: seq<CFGBlock>)
    requires Compiled(records, st, after)
    ensures LaidOutBlocks(after)
  {
    hide Inv, Built, Committed, NeverEmpty, LaidOut;
    DemandMet();
    BranchesAreLast();
    CommittedLaidOut(S8(), records, st, after);
    assert S8().vars.Keys == {"x"};
  }

  lemma BranchesAreLast()
    ensures BranchesLast(S8().blocks)
  {
  }

  lemma CompiledDefines(records: seq<IfRecord>, st: Stages, after: seq<CFGBlock>, y: nat)
    requires Compiled(records, st, after) && y < 7
    ensures Defines(after, y, "x") <==> HasPhi(after, y, "x") || Assigns(S8().blocks[y], "x")
  {
    hide Inv, Built, Assigns, NeverEmpty, HasDominatorTree, PlacedRight, InSsaForm;
    DemandMet();
    TreeReady(S8(), st.tree);
    OnePhiEach(st.tree, st.placed, st.names, st.phied, y, "x");
    AssignsMeans(st.tree[y], "x");
    AssignsSame(st.tree[y], S8().blocks[y]);
    ShapeDefines(st.phied, after, "x", y);
  }

  lemma AssignsSame(a: CFGBlock, b: CFGBlock)
    requires a.statements == b.statements
    ensures Assigns(a, "x") <==> Assigns(b, "x")
  {
  }

  lemma Assigners()
    ensures Assigns(S8().blocks[0], "x") && Assigns(S8().blocks[4], "x") && !Assigns(S8().blocks[2], "x")
  {
    assert S8().blocks[0].statements[0] == Set(0) && S8().blocks[4].statements[0] == Set(1);
  }

  /** Where `x` is defined: Entry, the inner then-block, and both merge blocks, but not the else-block. */
  lemma Definitions(records: seq<IfRecord>, st: Stages, after: seq<CFGBlock>)
    requires Compiled(records, st, after)
    ensures Defines(after, 0, "x") && HasPhi(after, 6, "x") && HasPhi(after, 3, "x") && !Defines(after, 2, "x")
  {
    CompiledGraph(records, st, after);
    hide Compiled, Built, TreeOk, Strict, ReadsRight, PhisFirst, LaidOutBlocks, HasPhi, Defines, Assigns, InFrontier, OnlyFrom, Reachable;
    Assigners();
    Ways();
    Frontiers();
    CompiledDefines(records, st, after, 0);
    CompiledDefines(records, st, after, 2);
    CompiledDefines(records, st, after, 4);
    CompiledDefines(records, st, after, 6);
    assert HasPhi(after, 6, "x");
    assert HasPhi(after, 3, "x");
    forall b: nat ensures !InFrontier(G, b, 2) { OnlyFromNoFrontier(G, 0, 2, b); }
    assert !HasPhi(after, 2, "x");
  }

  /** The two arms of the outer conditional are siblings in the dominator tree. */
  lemma Siblings(after: seq<CFGBlock>)
    requires |after| == 7 && TreeOk(after) && SuccsOf(after) == G
    ensures after[1].dominator == Some(0) && after[2].dominator == Some(0)
  {
    Ways();
    OnlyFromImmediate(G, 0, 1);
    OnlyFromImmediate(G, 0, 2);
    hide Reachable, IDom, OnlyFrom;
    assert IsDominator(G, 1, after[1].dominator) && IsDominator(G, 2, after[2].dominator);
    IDomUnique(G, after[1].dominator.value, 0, 1);
    IDomUnique(G, after[2].dominator.value, 0, 2);
  }

  lemma ElseBlockPolluted(records: seq<IfRecord>, st: Stages, after: seq<CFGBlock>)
    requires Compiled(records, st, after)
    ensures !Unpolluted(after, "x", 0, 2)
  {
    CompiledGraph(records, st, after);
    hide Compiled, Built, Strict, ReadsRight, PhisFirst, PhisPlaced, PhisOnlyAtFrontiers, LaidOutBlocks, HasPhi, Defines, Reachable, Dominance.Dom, TreeOk, OnlyFrom;
    Definitions(records, st, after);
    Siblings(after);
    Ways();
    InnerMergeDominated();
    assert PollutedBy(after, "x", 2, 1, 6);
    DomReflexive(G, 2);
    EntryDominates(G, 2);
  }

  /** The outer phi takes an argument for the else-block, which should name the assignment in Entry. */
  lemma OuterPhiArgument(records: seq<IfRecord>, st: Stages, after: seq<CFGBlock>)
    requires Compiled(records, st, after)
    ensures ArgumentRead(after, "x", 3, 0, 2, [0, 2], 0)
  {
    hide Compiled, RenamedGraph, Defines, LaidOutBlocks, HasPhi, TakesArg;
    CompiledGraph(records, st, after);
    Definitions(records, st, after);
    OuterPhiTakes(after);
    assert PathTo(G, [0, 2], 2);
    assert [0, 2] + [3] == [0, 2, 3];
    assert LastDefOn(after, "x", [0, 2, 3], 0);
  }

  lemma OuterPhiTakes(after: seq<CFGBlock>)
    requires LaidOutBlocks(after) && |after| == 7 && SuccsOf(after) == G && HasPhi(after, 3, "x")
    requires |after[3].statements| > 0 ==> after[3].statements[0].IRPhiNode?
    ensures 3 in after[2].succs && |after[3].statements| > 0 && TakesArg(after[3].statements[0], 2, "x")
  {
    assert after[2].succs == SuccsOf(after)[2] == [3];
    assert after[3].statements != [];
    assert Laid(after, {"x"}, 3, 0);
  }

  /** Compiles the program: the argument of the outer phi for the else-block does not name the assignment
      in Entry, the only definition that reaches it. */
  method CompileNestedThen() returns (b: CFGBuilder)
    ensures ArgumentRead(b.CFGraph.BasicBlocks, "x", 3, 0, 2, [0, 2], 0)
    ensures !ArgumentNames(b.CFGraph.BasicBlocks, "x", 3, 0, 2, 0)
  {
    hide Inv, Built, Committed, NeverEmpty, LoweredTo, S8, ArgumentRead, ArgumentNames, Unpolluted, SsaPerforms, Plain, NamesRight, ElseSeesOld;
    ProgramLowered();
    DemandMet();
    ghost var records, st;
    b, records, st := CompileProgram(Program());
    ghost var after := b.CFGraph.BasicBlocks;
    OuterPhiArgument(records, st, after);
    ElseBlockPolluted(records, st, after);
    ArgumentWrong(records, st, after);
  }

  lemma ArgumentWrong(records: seq<IfRecord>, st: Stages, after: seq<CFGBlock>)
    requires Compiled(records, st, after) && ArgumentRead(after, "x", 3, 0, 2, [0, 2], 0) && !Unpolluted(after, "x", 0, 2)
    ensures !ArgumentNames(after, "x", 3, 0, 2, 0)
  {
    hide Compiled, ArgumentRead, ArgumentNames, Unpolluted, Built, TreeOk, Strict, PhisFirst, PhisPlaced, PhisOnlyAtFrontiers, LaidOutBlocks;
    CompiledGraph(records, st, after);
    var p := [0, 2];
    assert ArgumentRead(after, "x", 3, 0, 2, p, 0);
    assert p[0] == 0;
  }
}
