/** From a list of syntax trees to SSA form: building, committing, and what the result promises. */
module Compile {
  import opened Common
  import opened Ir
  import opened Dominance
  import opened Cfg
  import opened DominatorTree
  import opened Lowering
  import opened Renaming
  import opened ReachingDefs
  import opened SsaForm
  import opened Builder
  import opened Pipeline
  import opened Structured
  import opened Naming

  /** The trees one after the other, as a single tree. */
  function Sequence(program: seq<ASTNode>): (r: ASTNode) {
    if program == [] then ASTNumber(0)
    else ASTBinary(';', Sequence(program[..|program| - 1]), program[|program| - 1])
  }

  ghost predicate Fresh(b: CFGBuilder)
    reads b, b.CFGraph
  {
    b.CFGraph.InPredOrder == [] && b.CFGraph.InPostOrder == [] && b.CFGraph.DominanceFrontier == map[]
  }

  /** Every block has been current. */
  ghost predicate Complete(s: BState) {
    forall b :: 0 <= b < |s.blocks| ==> b in s.order
  }

  const EntryState: BState := BState([NewBlock("Entry")], 0, map[], [0])

  /** Builds the graph of a program: Traverse on each tree in turn. */
  method BuildProgram(program: seq<ASTNode>) returns (b: CFGBuilder, ghost records: seq<IfRecord>)
    ensures fresh(b) && fresh(b.CFGraph) && Fresh(b)
    ensures Inv(EntryState) && Inv(b.State()) && Lowered(Sequence(program), EntryState, b.State(), records)
    ensures Complete(b.State()) && Built(b.CFGraph.BasicBlocks, b.order, records) && BranchesLast(b.CFGraph.BasicBlocks)
    ensures b.State() == LoweredTo(Sequence(program), EntryState)
    ensures forall ev: Evaluator, store: Store ::
              Performs(b.CFGraph.BasicBlocks, ev, store, End(b.CFGraph.BasicBlocks, b.CurrentBlock), ExecAst(ev, Sequence(program), store))
  {
    hide Implements, Region, Recorded, Inv, Frame, BranchesLast, AfterAssign, AfterBranch, EndArm;
    b := new CFGBuilder();
    EntryInv(EntryState);
    NothingLowered(ASTNumber(0), EntryState);
    records := [];
    var i := 0;
    assert program[..0] == [];
    while i < |program|
      invariant 0 <= i <= |program| && fresh(b) && fresh(b.CFGraph) && Fresh(b)
      invariant BranchesLast(b.CFGraph.BasicBlocks) && b.State() == LoweredTo(Sequence(program[..i]), EntryState)
      invariant Inv(b.State()) && Lowered(Sequence(program[..i]), EntryState, b.State(), records)
    {
      ghost var s := b.State();
      ghost var more := b.Traverse(program[i]);
      assert program[..i + 1][..i] == program[..i];
      SequenceLowered(Sequence(program[..i + 1]), EntryState, s, b.State(), records, more);
      records := records + more;
      i := i + 1;
    }
    assert program[..i] == program;
    BuiltFromEntry(Sequence(program), b.State(), records);
    PerformsFromEntry(Sequence(program), b.State(), records);
  }

  /** Running the graph from Entry performs the assignments of `out`, in order, and then stops at `end`. */
  ghost predicate Performs(blocks: seq<CFGBlock>, ev: Evaluator, store: Store, end: Point, out: Outcome) {
    var c := Config(end.block, end.pc, out.store, out.trace);
    Leads(blocks, ev, Config(0, 0, store, []), c) && Step(blocks, ev, c) == None
  }

  lemma PerformsFromEntry(node: ASTNode, s: BState, records: seq<IfRecord>)
    requires Inv(EntryState) && Inv(s) && Lowered(node, EntryState, s, records)
    ensures forall ev: Evaluator, store: Store ::
              Performs(s.blocks, ev, store, End(s.blocks, s.cur), ExecAst(ev, node, store))
  {
    forall ev: Evaluator, store: Store
      ensures Performs(s.blocks, ev, store, End(s.blocks, s.cur), ExecAst(ev, node, store))
    {
      assert Does(s.blocks, node, Point(0, 0), End(s.blocks, s.cur), ev, store, []);
      var out := ExecAst(ev, node, store);
      assert [] + out.trace == out.trace;
    }
  }

  lemma BuiltFromEntry(node: ASTNode, s: BState, records: seq<IfRecord>)
    requires Inv(EntryState) && Inv(s) && Lowered(node, EntryState, s, records)
    ensures Complete(s) && Built(s.blocks, s.order, records)
  {
    hide Implements, Region, Recorded, Inv;
    InvListed(s);
    assert 0 in EntryState.order;
    assert EntryState.order[0] == s.order[0];
    forall b | 0 <= b < |s.blocks| ensures b in s.order { if b == 0 { assert s.order[0] == 0; } }
  }

  /** A built graph is acyclic, has no unreachable block, and is well formed. */
  lemma BuiltGraph(f: seq<CFGBlock>, order: seq<nat>, records: seq<IfRecord>)
    requires Built(f, order, records)
    ensures WellFormed(SuccsOf(f))
    ensures forall b :: 0 <= b < |f| ==> Reachable(SuccsOf(f), b)
    ensures forall p :: Path(SuccsOf(f), p) && |p| > 1 ==> p[0] != p[|p| - 1]
  {
    forall b, y | 0 <= b < |f| && y in SuccsOf(f)[b] ensures y < |f| {
      assert LinksOk(f[b], |f|);
    }
    forall b | 0 <= b < |f| ensures Reachable(SuccsOf(f), b) { AllReachable(f, order, Pos(order, b)); }
    forall p | Path(SuccsOf(f), p) && |p| > 1 ensures p[0] != p[|p| - 1] { Acyclic(f, order, p); }
  }

  // ---------------------------------------------------------------- commit

  /** What a commit leaves: the code with its dominator tree, phis in front, and indices. */
  datatype Stages = Stages(tree: seq<CFGBlock>, placed: map<string, set<nat>>, names: seq<seq<string>>, phied: seq<CFGBlock>)

  ghost predicate Committed(before: seq<CFGBlock>, vars: map<string, set<nat>>, st: Stages, after: seq<CFGBlock>) {
    && SameCode(before, st.tree) && TreeOk(st.tree)
    && WithPhis(st.tree, st.placed, st.names, st.phied) && PlacedRight(SuccsOf(st.tree), vars, st.placed)
    && SameShape(st.phied, after)
    && forall v :: v in vars ==> InSsaForm(after, v)
  }

  lemma CommitReady(s: BState, records: seq<IfRecord>)
    requires Inv(s) && Built(s.blocks, s.order, records)
    ensures WellFormed(SuccsOf(s.blocks))
    ensures forall x :: 0 <= x < |s.blocks| ==> s.blocks[x].dominator == None && s.blocks[x].dominatingBlocks == []
  {
    BuiltGraph(s.blocks, s.order, records);
    forall x | 0 <= x < |s.blocks| ensures s.blocks[x].dominator == None && s.blocks[x].dominatingBlocks == [] {
      assert BlockFits(s.blocks[x]);
    }
  }

  /** What phi insertion and renaming need of the blocks with their dominator tree. */
  ghost predicate Ready(tree: seq<CFGBlock>, vars: map<string, set<nat>>) {
    && TreeOk(tree) && VarsExact(tree, vars)
    && Mirrored(tree) && (forall v :: v in vars ==> vars[v] <= AllBlocks(SuccsOf(tree))) && NeverEmpty(tree, vars)
    && (forall y :: 0 <= y < |tree| ==> PhiFree(tree[y]) && Distinct(tree[y].succs))
  }

  lemma TreeReady(s: BState, tree: seq<CFGBlock>)
    requires Inv(s) && SameCode(s.blocks, tree) && WellFormed(SuccsOf(tree)) && HasDominatorTree(tree)
    requires NeverEmpty(s.blocks, s.vars)
    ensures Ready(tree, s.vars)
  {
    hide HasDominatorTree, NeverEmpty;
    NeverEmptyKept(s.blocks, tree, s.vars);
    MirroredSame(s.blocks, tree);
    forall y | 0 <= y < |tree|
      ensures tree[y].statements == s.blocks[y].statements && PhiFree(tree[y]) && Distinct(tree[y].succs)
    {
      assert BlockFits(s.blocks[y]) && LinksOk(s.blocks[y], |s.blocks|);
      forall k | 0 <= k < |tree[y].statements| ensures !tree[y].statements[k].IRPhiNode? {
        assert StatementFits(s.blocks[y], s.blocks[y].statements[k]);
      }
    }
    forall name, b | 0 <= b < |tree| ensures (name in s.vars && b in s.vars[name]) <==> Assigns(tree[b], name) {
      assert Assigns(tree[b], name) <==> Assigns(s.blocks[b], name);
    }
  }

  lemma PhisReady(tree: seq<CFGBlock>, vars: map<string, set<nat>>, placed: map<string, set<nat>>,
                  names: seq<seq<string>>, phied: seq<CFGBlock>)
    requires Ready(tree, vars) && WithPhis(tree, placed, names, phied) && PlacedRight(SuccsOf(tree), vars, placed)
    ensures TreeOk(phied) && (forall b :: 0 <= b < |phied| ==> Distinct(phied[b].succs))
    ensures forall v :: v in vars ==> Strict(phied, v) && PhisPlaced(phied, v)
  {
    hide HasDominatorTree, WithPhis, PlacedRight, Strict, PhisPlaced, NeverEmpty, Supplied, Mirrored;
    WithPhisGraph(tree, placed, names, phied);
    SameTreeKept(tree, phied);
    forall v | v in vars ensures Strict(phied, v) && PhisPlaced(phied, v) {
      PlacedSupplied(tree, vars, placed, v);
      SuppliedIsStrict(tree, placed, names, phied, v);
      InsertionPlacesPhis(tree, vars, placed, names, phied, v);
    }
  }

  method CommitSSAFormBuilding(b: CFGBuilder, ghost records: seq<IfRecord>) returns (ghost st: Stages)
    requires Fresh(b) && Inv(b.State()) && Built(b.CFGraph.BasicBlocks, b.order, records)
    requires NeverEmpty(b.CFGraph.BasicBlocks, b.BlocksForVariable)
    modifies b.CFGraph
    ensures Committed(old(b.CFGraph.BasicBlocks), b.BlocksForVariable, st, b.CFGraph.BasicBlocks)
  {
    hide Inv, Built, WithPhis, PlacedRight, HasDominatorTree, WellFormed, IsPostorder, IsPreorder, FrontierTable, SameShape,
      InSsaForm, Strict, PhisPlaced, NeverEmpty, SameCode, VarsExact;
    ghost var s := b.State();
    CommitReady(s, records);
    b.CFGraph.CommitAllChanges();
    ghost var tree := b.CFGraph.BasicBlocks;
    TreeReady(s, tree);
    var vars := b.BlocksForVariable;
    ghost var placed, names := InsertPhiNodes(b.CFGraph, vars);
    ghost var phied := b.CFGraph.BasicBlocks;
    PhisReady(tree, vars, placed, names, phied);
    BuildSSAForm(b.CFGraph, vars);
    st := Stages(tree, placed, names, phied);
  }

  // ---------------------------------------------------------------- what the result promises

  lemma PhisFromPlaced(tree: seq<CFGBlock>, vars: map<string, set<nat>>, st: Stages, v: string)
    requires Ready(tree, vars) && st.tree == tree
    requires WithPhis(tree, st.placed, st.names, st.phied) && PlacedRight(SuccsOf(tree), vars, st.placed)
    ensures PhisOnlyAtFrontiers(st.phied, v)
  {
    var g := SuccsOf(tree);
    WithPhisGraph(tree, st.placed, st.names, st.phied);
    SameTreeKept(tree, st.phied);
    forall y | HasPhi(st.phied, y, v) ensures exists b :: Reachable(g, b) && InFrontier(g, b, y) {
      OnePhiEach(tree, st.placed, st.names, st.phied, y, v);
      FrontierSource(g, vars[v], st.placed[v], y);
    }
  }

  lemma FrontierSource(g: Graph, s: set<nat>, t: set<nat>, y: nat)
    requires s <= AllBlocks(g) && IsIteratedFrontier(FrontierTable(g), s, t) && y in t
    ensures exists b :: Reachable(g, b) && InFrontier(g, b, y)
  {
    assert y in Merged(FrontierTable(g), s + t);
    var b :| b in s + t && y in FrontierTable(g)[b];
  }

  lemma ShapeOnlyAtFrontiers(f: seq<CFGBlock>, g: seq<CFGBlock>, v: string)
    requires SameShape(f, g) && PhisOnlyAtFrontiers(f, v)
    ensures PhisOnlyAtFrontiers(g, v)
  {
    ShapeGraph(f, g);
    forall y | HasPhi(g, y, v) ensures exists b :: Reachable(SuccsOf(g), b) && InFrontier(SuccsOf(g), b, y) {
      ShapeDefines(f, g, v, y);
    }
  }

  lemma SameLinks(before: seq<CFGBlock>, st: Stages, after: seq<CFGBlock>, vars: map<string, set<nat>>)
    requires Committed(before, vars, st, after)
    ensures |before| == |after|
    ensures forall y :: 0 <= y < |before| ==> after[y].succs == before[y].succs && after[y].preds == before[y].preds
  {
    WithPhisGraph(st.tree, st.placed, st.names, st.phied);
    forall y | 0 <= y < |before| ensures after[y].succs == before[y].succs && after[y].preds == before[y].preds {
      assert SameBlock(st.phied[y], after[y]);
    }
  }

  /** The final graph is still the built graph, with phis exactly where the frontiers ask for them. */
  lemma FinalGraph(s: BState, records: seq<IfRecord>, st: Stages, after: seq<CFGBlock>, v: string)
    requires Inv(s) && Built(s.blocks, s.order, records) && Committed(s.blocks, s.vars, st, after)
    requires NeverEmpty(s.blocks, s.vars)
    requires v in s.vars
    ensures Built(after, s.order, records) && TreeOk(after) && PhisPlaced(after, v) && PhisOnlyAtFrontiers(after, v)
  {
    hide Inv, Built, WithPhis, PlacedRight, HasDominatorTree, SameShape, InSsaForm, Strict, PhisPlaced, PhisOnlyAtFrontiers, SameCode;
    SameLinks(s.blocks, st, after, s.vars);
    BuiltKept(s.blocks, after, s.order, records);
    TreeReady(s, st.tree);
    PhisReady(st.tree, s.vars, st.placed, st.names, st.phied);
    PhisFromPlaced(st.tree, s.vars, st, v);
    ShapeTree(st.phied, after);
    ShapePlaced(st.phied, after, v);
    ShapeOnlyAtFrontiers(st.phied, after, v);
  }

  /** Phis stand in front of the code, before and after renaming. */
  lemma PhisInFront(tree: seq<CFGBlock>, placed: map<string, set<nat>>, names: seq<seq<string>>, phied: seq<CFGBlock>, after: seq<CFGBlock>)
    requires WithPhis(tree, placed, names, phied) && SameShape(phied, after) && forall y :: 0 <= y < |tree| ==> PhiFree(tree[y])
    ensures PhisFirst(after)
  {
    hide WithPhis, SameShape;
    forall y: nat, i: nat | y < |after| && i < |after[y].statements|
      ensures y < |names| && (after[y].statements[i].IRPhiNode? <==> i < |names[y]|)
    {
      PhiInFront(tree, placed, names, phied, after, y, i);
    }
  }

  lemma PhiInFront(tree: seq<CFGBlock>, placed: map<string, set<nat>>, names: seq<seq<string>>, phied: seq<CFGBlock>, after: seq<CFGBlock>,
                   y: nat, i: nat)
    requires WithPhis(tree, placed, names, phied) && SameShape(phied, after) && forall y :: 0 <= y < |tree| ==> PhiFree(tree[y])
    requires y < |after| && i < |after[y].statements|
    ensures y < |names| && (after[y].statements[i].IRPhiNode? <==> i < |names[y]|)
  {
    assert PhisAdded(tree[y], y, placed, names[y], phied[y]);
    assert SameBlock(phied[y], after[y]);
    var n, s := |names[y]|, phied[y].statements;
    assert Erase(s[i]) == Erase(after[y].statements[i]);
    if i >= n { assert s[i] == tree[y].statements[i - n]; }
  }

  /** The committed graph is a built graph, with its phis in place and renamed. */
  lemma CommittedGraph(s: BState, records: seq<IfRecord>, st: Stages, after: seq<CFGBlock>, v: string)
    requires Inv(s) && Built(s.blocks, s.order, records) && Committed(s.blocks, s.vars, st, after)
    requires NeverEmpty(s.blocks, s.vars) && v in s.vars
    ensures RenamedGraph(after, s.order, records, v) && LocalReadsRight(after, v)
  {
    hide Inv, Built, WithPhis, PlacedRight, HasDominatorTree, SameShape, Strict, PhisPlaced, PhisOnlyAtFrontiers, SameCode, PhisFirst,
      ReadsRight, LocalReadsRight, DefsApart, Numbered, NeverEmpty, PhiFree;
    FinalGraph(s, records, st, after, v);
    assert InSsaForm(after, v);
    TreeReady(s, st.tree);
    PhisReady(st.tree, s.vars, st.placed, st.names, st.phied);
    ShapeStrict(st.phied, after, v);
    PhisInFront(st.tree, st.placed, st.names, st.phied, after);
  }

  /** Whether an else-arm takes an old value does not depend on indices. */
  lemma ShapeSeesOld(f: seq<CFGBlock>, g: seq<CFGBlock>, order: seq<nat>, records: seq<IfRecord>, v: string)
    requires SameShape(f, g) && ElseSeesOld(f, order, records, v)
    ensures ElseSeesOld(g, order, records, v)
  {
    hide SameShape, NeedsIncoming, HasPhi, Defines;
    ShapeGraph(f, g);
    SameShapeSymmetric(f, g);
    var k, i: nat, j: nat :| 0 <= k < |records| && SeesOld(f, order, records[k], v, i, j);
    SeesOldRange(f, order, records[k], v, i, j);
    forall b: nat ensures (HasPhi(f, b, v) <==> HasPhi(g, b, v)) && (Defines(f, b, v) <==> Defines(g, b, v)) {
      ShapeDefines(f, g, v, b);
    }
    ShapeNeeds(g, f, v, order[j]);
    assert SeesOld(g, order, records[k], v, i, j);
  }

  /** For every program: the pass names all reads and phi arguments of a variable right if and only if,
      in the graph with phis, no else-arm takes a value from before a conditional that has a phi for it
      in its then-arm. */
  lemma ProgramsNamedExactly(s: BState, records: seq<IfRecord>, st: Stages, after: seq<CFGBlock>, v: string)
    requires Inv(s) && Built(s.blocks, s.order, records) && Committed(s.blocks, s.vars, st, after)
    requires NeverEmpty(s.blocks, s.vars) && v in s.vars
    ensures NamesRight(after, v) <==> !ElseSeesOld(st.phied, s.order, records, v)
  {
    hide RenamedGraph, NamesRight, Inv, Built, NeverEmpty, ElseSeesOld, SameShape, InSsaForm;
    CommittedGraph(s, records, st, after, v);
    NamedExactly(after, s.order, records, v);
    SameShapeSymmetric(st.phied, after);
    if ElseSeesOld(st.phied, s.order, records, v) { ShapeSeesOld(st.phied, after, s.order, records, v); }
    if ElseSeesOld(after, s.order, records, v) { ShapeSeesOld(after, st.phied, s.order, records, v); }
  }

  /** For a program without conditionals in then-arms, every use and every phi argument names the
      definition that reaches it, whatever path is taken. */
  lemma FlatProgramsNamedRight(s: BState, records: seq<IfRecord>, st: Stages, after: seq<CFGBlock>, v: string)
    requires Inv(s) && Built(s.blocks, s.order, records) && Committed(s.blocks, s.vars, st, after)
    requires NeverEmpty(s.blocks, s.vars)
    requires v in s.vars && forall k :: 0 <= k < |records| ==> records[k].ht == records[k].p + 1
    ensures NamesRight(after, v)
  {
    hide RenamedGraph, NamesRight, Inv, Built, Committed, NeverEmpty, ElseSeesOld;
    CommittedGraph(s, records, st, after, v);
    FlatNeverSeesOld(after, s.order, records, v);
    NamedExactly(after, s.order, records, v);
  }

  /** Where it fails: a block of an else-arm that takes a value from before a conditional with a phi for it
      in the then-arm misnames every such read, and every phi argument it hands on. */
  lemma NestedThenMisreads(s: BState, records: seq<IfRecord>, st: Stages, after: seq<CFGBlock>, v: string, k: nat, i: nat, j: nat)
    requires Inv(s) && Built(s.blocks, s.order, records) && Committed(s.blocks, s.vars, st, after)
    requires NeverEmpty(s.blocks, s.vars)
    requires v in s.vars && k < |records| && SeesOld(after, s.order, records[k], v, i, j)
    ensures j < |s.order|
    ensures forall n, p, d :: IncomingRead(after, v, s.order[j], n, p, d) ==> !ReadNames(after, v, s.order[j], n, p[d])
    ensures !Defines(after, s.order[j], v) ==> forall y, n, p, d :: ArgumentRead(after, v, y, n, s.order[j], p, d) ==>
              !ArgumentNames(after, v, y, n, s.order[j], p[d])
  {
    hide RenamedGraph, Inv, Built, Committed, NeverEmpty, ReadNames, ArgumentNames, HasPhi, NeedsIncoming;
    CommittedGraph(s, records, st, after, v);
    forall n, p, d | IncomingRead(after, v, s.order[j], n, p, d) ensures !ReadNames(after, v, s.order[j], n, p[d]) {
      OldMisread(after, s.order, records, v, k, i, j, n, p, d);
    }
    if !Defines(after, s.order[j], v) {
      forall y, n, p, d | ArgumentRead(after, v, y, n, s.order[j], p, d) ensures !ArgumentNames(after, v, y, n, s.order[j], p[d]) {
        OldMisargued(after, s.order, records, v, k, i, j, y, n, p, d);
      }
    }
  }
}
