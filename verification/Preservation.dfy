/** The whole pass preserves meaning: the graph in SSA form, run with one register per index, performs
    the assignments of the program in the same order. */
module Preservation {
  import opened Common
  import opened Ir
  import opened Dominance
  import opened Cfg
  import opened DominatorTree
  import opened Lowering
  import opened Renaming
  import opened ReachingDefs
  import opened SsaForm
  import opened SsaMeaning
  import opened Builder
  import opened Pipeline
  import opened Structured
  import opened Naming
  import opened Compile

  // ---------------------------------------------------------------- phis are skipped

  /** `after` is `before` with `n[y]` phis in front of block `y`, and other indices. */
  ghost predicate Prefixed(before: seq<CFGBlock>, n: seq<nat>, after: seq<CFGBlock>) {
    && |n| == |before| && |after| == |before|
    && forall y :: 0 <= y < |before| ==> PrefixedBlock(before[y], n[y], after[y])
  }

  ghost predicate PrefixedBlock(b: CFGBlock, n: nat, c: CFGBlock) {
    && |c.statements| == n + |b.statements|
    && (forall i :: 0 <= i < n ==> c.statements[i].IRPhiNode?)
    && (forall i :: 0 <= i < |b.statements| ==> Erase(c.statements[n + i]) == Erase(b.statements[i]))
  }

  function Shifted(c: Config, n: seq<nat>): Config
    requires c.block < |n|
  {
    c.(pc := c.pc + n[c.block])
  }

  lemma {:induction false} SkipPhis(after: seq<CFGBlock>, ev: Evaluator, c: Config, k: nat)
    requires c.block < |after| && c.pc + k <= |after[c.block].statements|
    requires forall i :: c.pc <= i < c.pc + k ==> after[c.block].statements[i].IRPhiNode?
    ensures Run(after, ev, c, k) == Some(c.(pc := c.pc + k))
    decreases k
  {
    if k > 0 { SkipPhis(after, ev, c.(pc := c.pc + 1), k - 1); }
  }

  lemma SameErased(ev: Evaluator, a: ASTNode, b: ASTNode, store: Store)
    requires Plain(ev) && EraseNode(a) == EraseNode(b)
    ensures ev(a, store) == ev(b, store)
  {
    assert ev(a, store) == ev(EraseNode(a), store) && ev(b, store) == ev(EraseNode(b), store);
  }

  /** One step without phis is one step with them, but for skipping those of a block entered. */
  lemma StepShifted(before: seq<CFGBlock>, n: seq<nat>, after: seq<CFGBlock>, ev: Evaluator, c: Config, c': Config)
    requires Prefixed(before, n, after) && Plain(ev) && Step(before, ev, c) == Some(c') && c'.block < |before|
    ensures c.block < |before| && Leads(after, ev, Shifted(c, n), Shifted(c', n))
  {
    hide Plain;
    assert PrefixedBlock(before[c.block], n[c.block], after[c.block]);
    var s, t := before[c.block].statements[c.pc], after[c.block].statements[n[c.block] + c.pc];
    assert Erase(t) == Erase(s);
    var d := Shifted(c, n);
    match s {
      case IRAssignment(x, e) =>
        SameErased(ev, e, t.rhs, c.store);
        assert Step(after, ev, d) == Some(Shifted(c', n));
        LeadsStep(after, ev, d, Shifted(c', n));
      case IRBranch(cond, _, _) =>
        if cond.Some? { SameErased(ev, cond.value, t.condition.value, c.store); }
        assert Step(after, ev, d) == Some(c');
        LeadsStep(after, ev, d, c');
        EnterShifted(before, n, after, ev, c');
        LeadsJoin(after, ev, d, c', Shifted(c', n));
      case IRPhiNode(_, _) =>
        assert Step(after, ev, d) == Some(Shifted(c', n));
        LeadsStep(after, ev, d, Shifted(c', n));
    }
  }

  lemma EnterShifted(before: seq<CFGBlock>, n: seq<nat>, after: seq<CFGBlock>, ev: Evaluator, c: Config)
    requires Prefixed(before, n, after) && c.block < |before| && c.pc == 0
    ensures Leads(after, ev, c, Shifted(c, n))
  {
    assert PrefixedBlock(before[c.block], n[c.block], after[c.block]);
    SkipPhis(after, ev, c, n[c.block]);
  }

  /** Branches stay inside the graph. */
  ghost predicate TargetsExist(before: seq<CFGBlock>) {
    forall y: nat, i: nat :: y < |before| && i < |before[y].statements| ==> TargetsIn(before[y].statements[i], |before|)
  }

  ghost predicate TargetsIn(s: IRNode, n: nat) {
    s.IRBranch? ==> s.first < n && (s.second.Some? ==> s.second.value < n)
  }

  lemma StepStays(before: seq<CFGBlock>, ev: Evaluator, c: Config)
    requires TargetsExist(before) && Step(before, ev, c).Some?
    ensures Step(before, ev, c).value.block < |before|
  {
    assert TargetsIn(before[c.block].statements[c.pc], |before|);
  }

  lemma {:induction false} RunShifted(before: seq<CFGBlock>, n: seq<nat>, after: seq<CFGBlock>, ev: Evaluator, c: Config, m: nat)
    requires Prefixed(before, n, after) && |n| == |before|
    requires Plain(ev) && TargetsExist(before) && c.block < |before| && Run(before, ev, c, m).Some?
    ensures Run(before, ev, c, m).value.block < |before|
    ensures Leads(after, ev, Shifted(c, n), Shifted(Run(before, ev, c, m).value, n))
    decreases m
  {
    hide Plain, Prefixed, TargetsExist, Step;
    if m == 0 {
      assert Run(after, ev, Shifted(c, n), 0) == Some(Shifted(c, n));
    } else {
      var c' := Step(before, ev, c).value;
      StepStays(before, ev, c);
      PrefixedSize(before, n, after);
      StepShifted(before, n, after, ev, c, c');
      RunShifted(before, n, after, ev, c', m - 1);
      hide Leads;
      LeadsJoin(after, ev, Shifted(c, n), Shifted(c', n), Shifted(Run(before, ev, c, m).value, n));
    }
  }

  lemma PrefixedSize(before: seq<CFGBlock>, n: seq<nat>, after: seq<CFGBlock>)
    requires Prefixed(before, n, after)
    ensures |n| == |before| && |after| == |before|
  {
  }

  // ---------------------------------------------------------------- the committed graph

  /** Statement `i` of block `y` after the pass: a phi, or the statement of the program further on. */
  lemma CommittedStatement(before: seq<CFGBlock>, vars: map<string, set<nat>>, st: Stages, after: seq<CFGBlock>, y: nat)
    requires Committed(before, vars, st, after) && y < |before|
    ensures |st.names| == |before| && |after| == |before|
    ensures |after[y].statements| == |st.names[y]| + |before[y].statements|
    ensures forall i :: 0 <= i < |st.names[y]| ==> Erase(after[y].statements[i]) == Erase(PhiFor(st.names[y][i], before[y].preds))
    ensures forall i :: 0 <= i < |before[y].statements| ==>
              Erase(after[y].statements[|st.names[y]| + i]) == Erase(before[y].statements[i])
  {
    hide Committed, Erase;
    CommittedBlock(before, vars, st, after, y);
    PhisThenCode(before[y].statements, st.names[y], before[y].preds, st.phied[y].statements, after[y].statements);
  }

  lemma CommittedBlock(before: seq<CFGBlock>, vars: map<string, set<nat>>, st: Stages, after: seq<CFGBlock>, y: nat)
    requires Committed(before, vars, st, after) && y < |before|
    ensures |st.names| == |before| && |after| == |before| && |st.phied| == |before|
    ensures st.phied[y].statements == Phis(st.names[y], before[y].preds) + before[y].statements
    ensures |after[y].statements| == |st.phied[y].statements|
    ensures forall i :: 0 <= i < |after[y].statements| ==> Erase(st.phied[y].statements[i]) == Erase(after[y].statements[i])
  {
    hide TreeOk, PlacedRight, InSsaForm, Erase, Phis;
    assert PhisAdded(st.tree[y], y, st.placed, st.names[y], st.phied[y]);
    assert SameBlock(st.phied[y], after[y]);
  }

  lemma PhisThenCode(code: seq<IRNode>, names: seq<string>, preds: seq<nat>, s: seq<IRNode>, t: seq<IRNode>)
    requires s == Phis(names, preds) + code && |t| == |s| && forall i :: 0 <= i < |t| ==> Erase(s[i]) == Erase(t[i])
    ensures forall i :: 0 <= i < |names| ==> Erase(t[i]) == Erase(PhiFor(names[i], preds))
    ensures forall i :: 0 <= i < |code| ==> Erase(t[|names| + i]) == Erase(code[i])
  {
    hide Erase, PhiFor;
    forall i | 0 <= i < |code| ensures Erase(t[|names| + i]) == Erase(code[i]) {
      assert s[|names| + i] == code[i];
    }
  }

  ghost function Sizes(names: seq<seq<string>>): (n: seq<nat>)
    ensures |n| == |names| && forall y :: 0 <= y < |names| ==> n[y] == |names[y]|
  {
    seq(|names|, y requires 0 <= y < |names| => |names[y]|)
  }

  lemma CommittedSizes(before: seq<CFGBlock>, vars: map<string, set<nat>>, st: Stages, after: seq<CFGBlock>)
    requires Committed(before, vars, st, after)
    ensures |st.names| == |before| && |after| == |before|
  {
    hide TreeOk, PlacedRight, InSsaForm, PhisAdded, SameBlock;
  }

  lemma CommittedPrefixed(before: seq<CFGBlock>, vars: map<string, set<nat>>, st: Stages, after: seq<CFGBlock>)
    requires Committed(before, vars, st, after)
    ensures Prefixed(before, Sizes(st.names), after)
  {
    hide Committed, Erase;
    CommittedSizes(before, vars, st, after);
    forall y | 0 <= y < |before| ensures PrefixedBlock(before[y], Sizes(st.names)[y], after[y]) {
      CommittedStatement(before, vars, st, after, y);
      forall i | 0 <= i < |st.names[y]| ensures after[y].statements[i].IRPhiNode? {
        ErasedPhi(after[y].statements[i], st.names[y][i], before[y].preds);
      }
    }
  }

  lemma ErasedPhi(s: IRNode, name: string, preds: seq<nat>)
    requires Erase(s) == Erase(PhiFor(name, preds))
    ensures s.IRPhiNode? && s.variable.name == name
    ensures forall q: nat :: q in preds ==> TakesArg(s, q, name)
  {
    var e, e' := Erase(s).blockToVarMap, Erase(PhiFor(name, preds)).blockToVarMap;
    forall q: nat | q in preds ensures TakesArg(s, q, name) {
      assert q in e' && e'[q].name == name;
      assert q in e && e[q].name == s.blockToVarMap[q].name;
    }
  }

  lemma LaidPhi(s: BState, records: seq<IfRecord>, st: Stages, after: seq<CFGBlock>, y: nat, i: nat)
    requires Inv(s) && Built(s.blocks, s.order, records) && Committed(s.blocks, s.vars, st, after)
    requires NeverEmpty(s.blocks, s.vars) && y < |after| && y < |st.names| && i < |st.names[y]|
    ensures i < |after[y].statements| && Laid(after, s.vars.Keys, y, i)
  {
    var f, v := after[y].statements, st.names[y][i];
    SameLinks(s.blocks, st, after, s.vars);
    CommittedStatement(s.blocks, s.vars, st, after, y);
    ErasedPhi(f[i], v, s.blocks[y].preds);
    PlacedVariable(s, st, after, y, i);
    forall q: nat | q < |after| && y in after[q].succs ensures TakesArg(f[i], q, v) {
      PredListed(s, q, y);
    }
    forall j | 0 <= j < i ensures f[j].IRPhiNode? && f[j].variable.name != v {
      ErasedPhi(f[j], st.names[y][j], s.blocks[y].preds);
    }
    EntryHasNoPhi(s, records, st, after, v);
    PhiThere(after, y, i, v);
  }

  lemma PhiThere(f: seq<CFGBlock>, y: nat, i: nat, v: string)
    requires y < |f| && i < |f[y].statements| && IsPhi(f[y].statements[i], v)
    ensures HasPhi(f, y, v)
  {
    PhisCounted(f[y].statements, i, v);
  }

  lemma {:induction false} PhisCounted(s: seq<IRNode>, i: nat, v: string)
    requires i < |s| && IsPhi(s[i], v)
    ensures CountPhis(s, v) > 0
  {
    if i < |s| - 1 { PhisCounted(s[..|s| - 1], i, v); }
  }

  lemma PlacedVariable(s: BState, st: Stages, after: seq<CFGBlock>, y: nat, i: nat)
    requires Committed(s.blocks, s.vars, st, after) && y < |st.names| && i < |st.names[y]|
    ensures st.names[y][i] in s.vars && forall j :: 0 <= j < i ==> st.names[y][j] != st.names[y][i]
  {
    assert PhisAdded(st.tree[y], y, st.placed, st.names[y], st.phied[y]);
    assert st.names[y][i] in st.names[y];
  }

  lemma PredListed(s: BState, q: nat, y: nat)
    requires Inv(s) && q < |s.blocks| && y < |s.blocks| && y in s.blocks[q].succs
    ensures q in s.blocks[y].preds
  {
    InvListed(s);
    assert HasSucc(s.blocks, q, y);
    assert HasPred(s.blocks, y, q);
  }

  /** Entry is in no frontier, for no edge leads to it. */
  lemma EntryHasNoPhi(s: BState, records: seq<IfRecord>, st: Stages, after: seq<CFGBlock>, v: string)
    requires Inv(s) && Built(s.blocks, s.order, records) && Committed(s.blocks, s.vars, st, after)
    requires NeverEmpty(s.blocks, s.vars) && v in s.vars
    ensures !HasPhi(after, 0, v)
  {
    hide Inv, Committed, HasPhi, NeverEmpty, TreeOk;
    FinalGraph(s, records, st, after, v);
    PosUnique(s.order, 0);
    if HasPhi(after, 0, v) {
      var b :| Reachable(SuccsOf(after), b) && InFrontier(SuccsOf(after), b, 0);
      var q :| Reachable(SuccsOf(after), q) && Edge(SuccsOf(after), q, 0) && Dom(SuccsOf(after), b, q);
      EdgeForward(after, s.order, q, 0);
    }
  }

  lemma LaidOther(s: BState, records: seq<IfRecord>, st: Stages, after: seq<CFGBlock>, y: nat, i: nat)
    requires Inv(s) && Built(s.blocks, s.order, records) && Committed(s.blocks, s.vars, st, after) && BranchesLast(s.blocks)
    requires y < |after| && y < |st.names| && y < |s.blocks| && i < |s.blocks[y].statements|
    ensures |st.names[y]| + i < |after[y].statements| && Laid(after, s.vars.Keys, y, |st.names[y]| + i)
  {
    hide Inv, Built, Committed;
    SameLinks(s.blocks, st, after, s.vars);
    CommittedStatement(s.blocks, s.vars, st, after, y);
    StatementFacts(s, y, i);
    assert BranchLast(s.blocks[y]);
    var t := s.blocks[y].statements[i];
    assert Erase(after[y].statements[|st.names[y]| + i]) == Erase(t);
  }

  lemma StatementFacts(s: BState, y: nat, i: nat)
    requires Inv(s) && y < |s.blocks| && i < |s.blocks[y].statements|
    ensures StatementFits(s.blocks[y], s.blocks[y].statements[i])
    ensures s.blocks[y].statements[i].IRAssignment? ==> s.blocks[y].statements[i].variable.name in s.vars
  {
    assert BlockFits(s.blocks[y]);
    var t := s.blocks[y].statements[i];
    if t.IRAssignment? { assert Assigns(s.blocks[y], t.variable.name); }
  }

  lemma CommittedLaidOut(s: BState, records: seq<IfRecord>, st: Stages, after: seq<CFGBlock>)
    requires Inv(s) && Built(s.blocks, s.order, records) && Committed(s.blocks, s.vars, st, after) && BranchesLast(s.blocks)
    requires NeverEmpty(s.blocks, s.vars)
    ensures LaidOut(after, s.vars.Keys) && TargetsExist(s.blocks)
  {
    hide Inv, Built, Committed, NeverEmpty, Laid, BranchesLast, Erase;
    SameLinks(s.blocks, st, after, s.vars);
    BuiltGraph(s.blocks, s.order, records);
    assert SuccsOf(after) == SuccsOf(s.blocks);
    forall y: nat, i: nat | y < |after| && i < |after[y].statements| ensures Laid(after, s.vars.Keys, y, i) {
      CommittedStatement(s.blocks, s.vars, st, after, y);
      if i < |st.names[y]| {
        LaidPhi(s, records, st, after, y, i);
      } else {
        LaidOther(s, records, st, after, y, i - |st.names[y]|);
      }
    }
    forall y: nat, i: nat | y < |s.blocks| && i < |s.blocks[y].statements| ensures TargetsIn(s.blocks[y].statements[i], |s.blocks|) {
      FitsTarget(s, y, i);
    }
  }

  lemma FitsTarget(s: BState, y: nat, i: nat)
    requires Inv(s) && WellFormed(SuccsOf(s.blocks)) && y < |s.blocks| && i < |s.blocks[y].statements|
    ensures TargetsIn(s.blocks[y].statements[i], |s.blocks|)
  {
    assert BlockFits(s.blocks[y]);
    assert StatementFits(s.blocks[y], s.blocks[y].statements[i]);
    var g := SuccsOf(s.blocks);
    assert forall t: nat :: t in g[y] ==> t < |g|;
  }

  lemma CommittedNamed(s: BState, records: seq<IfRecord>, st: Stages, after: seq<CFGBlock>, v: string)
    requires Inv(s) && Built(s.blocks, s.order, records) && Committed(s.blocks, s.vars, st, after)
    requires NeverEmpty(s.blocks, s.vars)
    requires v in s.vars && !ElseSeesOld(st.phied, s.order, records, v)
    ensures NamedRight(after, v)
  {
    hide Inv, Built, NeverEmpty, Committed, Strict, IncomingRead, ArgumentRead, ReadNames, ArgumentNames, LocalReadsRight, ElseSeesOld,
      TreeOk, PhisPlaced, PhisOnlyAtFrontiers, PhisFirst, ReadsRight;
    ProgramsNamedExactly(s, records, st, after, v);
    CommittedGraph(s, records, st, after, v);
  }

  /** For every program whose names come out right: whatever the graph performs from Entry, the graph in
      SSA form performs with one register per index. */
  lemma PassPreservesMeaning(s: BState, records: seq<IfRecord>, st: Stages, after: seq<CFGBlock>,
                             ev: Evaluator, inputs: Store, end: Point, out: Outcome)
    requires Inv(s) && Built(s.blocks, s.order, records) && BranchesLast(s.blocks) && Committed(s.blocks, s.vars, st, after)
    requires NeverEmpty(s.blocks, s.vars) && Plain(ev)
    requires forall v :: v in s.vars ==> !ElseSeesOld(st.phied, s.order, records, v)
    requires end.block < |s.blocks| && end == End(s.blocks, end.block) && Performs(s.blocks, ev, inputs, end, out)
    ensures SsaPerforms(after, ev, inputs, out.trace)
  {
    hide Inv, Built, Committed, NeverEmpty, Plain, BranchesLast, SsaPerforms, NamedRight, LaidOut, Prefixed, TargetsExist, Step, ElseSeesOld;
    CommittedLaidOut(s, records, st, after);
    forall v | v in s.vars.Keys ensures NamedRight(after, v) { CommittedNamed(s, records, st, after, v); }
    var start, c := Config(0, 0, inputs, []), Config(end.block, end.pc, out.store, out.trace);
    var m :| Run(s.blocks, ev, start, m) == Some(c);
    var n := Sizes(st.names);
    CommittedPrefixed(s.blocks, s.vars, st, after);
    PrefixedSize(s.blocks, n, after);
    RunShifted(s.blocks, n, after, ev, start, m);
    EntryNotShifted(s, records, st, after);
    CommittedStatement(s.blocks, s.vars, st, after, end.block);
    SsaMeansTheSame(after, s.vars.Keys, ev, inputs, Shifted(c, n));
  }

  lemma EntryNotShifted(s: BState, records: seq<IfRecord>, st: Stages, after: seq<CFGBlock>)
    requires Inv(s) && Built(s.blocks, s.order, records) && Committed(s.blocks, s.vars, st, after) && |st.names| > 0
    requires NeverEmpty(s.blocks, s.vars)
    ensures st.names[0] == []
  {
    hide Inv, Built, Committed, NeverEmpty, Erase;
    CommittedSizes(s.blocks, s.vars, st, after);
    if st.names[0] != [] {
      CommittedStatement(s.blocks, s.vars, st, after, 0);
      ErasedPhi(after[0].statements[0], st.names[0][0], s.blocks[0].preds);
      LaidPhi(s, records, st, after, 0, 0);
    }
  }

  /** From syntax trees to SSA form: a program whose names come out right, built and committed, performs
      with registers exactly the assignments of its trees. */
  lemma ProgramsKeepMeaning(program: seq<ASTNode>, s: BState, records: seq<IfRecord>, st: Stages, after: seq<CFGBlock>,
                            ev: Evaluator, inputs: Store)
    requires Inv(EntryState) && Inv(s) && Lowered(Sequence(program), EntryState, s, records)
    requires forall v :: v in s.vars ==> !ElseSeesOld(st.phied, s.order, records, v)
    requires Built(s.blocks, s.order, records) && BranchesLast(s.blocks) && Committed(s.blocks, s.vars, st, after)
    requires NeverEmpty(s.blocks, s.vars) && Plain(ev)
    ensures SsaPerforms(after, ev, inputs, ExecAst(ev, Sequence(program), inputs).trace)
  {
    hide Built, Committed, NeverEmpty, Plain, BranchesLast, SsaPerforms, Implements, Region, Recorded, Frame, Performs,
      ElseSeesOld;
    InvListed(s);
    PerformsFromEntry(Sequence(program), s, records);
    hide Inv;
    PassPreservesMeaning(s, records, st, after, ev, inputs, End(s.blocks, s.cur), ExecAst(ev, Sequence(program), inputs));
  }

  lemma FlatProgramsKeepMeaning(s: BState, records: seq<IfRecord>, st: Stages, after: seq<CFGBlock>, v: string)
    requires Inv(s) && Built(s.blocks, s.order, records) && Committed(s.blocks, s.vars, st, after) && NeverEmpty(s.blocks, s.vars)
    requires v in s.vars && forall k :: 0 <= k < |records| ==> records[k].ht == records[k].p + 1
    ensures !ElseSeesOld(st.phied, s.order, records, v)
  {
    hide Inv, Built, Committed, NeverEmpty, ElseSeesOld, NamesRight;
    FlatProgramsNamedRight(s, records, st, after, v);
    ProgramsNamedExactly(s, records, st, after, v);
  }

  /** No else-arm takes a value from before a conditional that has a phi for it in its then-arm. */
  ghost predicate NothingOld(s: BState, records: seq<IfRecord>, st: Stages) {
    forall v :: v in s.vars ==> !ElseSeesOld(st.phied, s.order, records, v)
  }

  /** The whole compiler: build, then commit. */
  method CompileProgram(program: seq<ASTNode>) returns (b: CFGBuilder, ghost records: seq<IfRecord>, ghost st: Stages)
    requires NeverEmpty(LoweredTo(Sequence(program), EntryState).blocks, LoweredTo(Sequence(program), EntryState).vars)
    ensures var s := LoweredTo(Sequence(program), EntryState);
            && Inv(s) && Built(s.blocks, s.order, records) && Committed(s.blocks, s.vars, st, b.CFGraph.BasicBlocks)
            && (forall v :: v in s.vars ==>
                  (NamesRight(b.CFGraph.BasicBlocks, v) <==> !ElseSeesOld(st.phied, s.order, records, v)))
            && (ThenFlat(Sequence(program)) ==> NothingOld(s, records, st))
            && (NothingOld(s, records, st) ==> forall ev: Evaluator, inputs: Store :: Plain(ev) ==>
                  SsaPerforms(b.CFGraph.BasicBlocks, ev, inputs, ExecAst(ev, Sequence(program), inputs).trace))
  {
    hide Implements, Region, Recorded, Inv, Frame, BranchesLast, LoweredTo, Built, Committed, NeverEmpty, ElseSeesOld, NamesRight, Plain,
      SsaPerforms, Performs, Complete;
    b, records := BuildProgram(program);
    ghost var s := b.State();
    st := CommitSSAFormBuilding(b, records);
    ghost var after := b.CFGraph.BasicBlocks;
    forall v | v in s.vars ensures NamesRight(after, v) <==> !ElseSeesOld(st.phied, s.order, records, v) {
      ProgramsNamedExactly(s, records, st, after, v);
    }
    if ThenFlat(Sequence(program)) {
      forall v | v in s.vars ensures !ElseSeesOld(st.phied, s.order, records, v) {
        FlatProgramsKeepMeaning(s, records, st, after, v);
      }
    }
    if NothingOld(s, records, st) {
      forall ev: Evaluator, inputs: Store | Plain(ev) ensures SsaPerforms(after, ev, inputs, ExecAst(ev, Sequence(program), inputs).trace) {
        ProgramsKeepMeaning(program, s, records, st, after, ev, inputs);
      }
    }
  }
}
