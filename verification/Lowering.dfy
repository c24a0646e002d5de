/** Lowering of syntax trees to the control flow graph (CFGBuilder), with the meaning of both sides:
    a tree and a graph each perform a sequence of assignments. */
module Lowering {
  import opened Common
  import opened Ir

  // ---------------------------------------------------------------- meaning of trees

  type Store = map<string, int>
  type Evaluator = (ASTNode, Store) -> int

  /** One assignment performed. */
  datatype Event = Event(name: string, value: int)

  datatype Outcome = Outcome(store: Store, trace: seq<Event>)

  /** A tree in statement position: assignments, conditionals, and binary nodes as sequences. The
      compiler ignores numbers, symbols and for loops there. */
  function ExecAst(ev: Evaluator, node: ASTNode, store: Store): (r: Outcome) {
    match node
    case ASTAssign(x, e) => Outcome(store[x.name := ev(e, store)], [Event(x.name, ev(e, store))])
    case ASTIf(c, t, e) => if ev(c, store) != 0 then ExecAst(ev, t, store) else ExecAst(ev, e, store)
    case ASTBinary(_, l, r) =>
      var first := ExecAst(ev, l, store);
      var second := ExecAst(ev, r, first.store);
      Outcome(second.store, first.trace + second.trace)
    case _ => Outcome(store, [])
  }

  // ---------------------------------------------------------------- meaning of graphs

  datatype Config = Config(block: nat, pc: nat, store: Store, trace: seq<Event>)

  /** One statement; None when the block has no statement left. */
  function Step(blocks: seq<CFGBlock>, ev: Evaluator, c: Config): (r: Option<Config>) {
    if c.block >= |blocks| || c.pc >= |blocks[c.block].statements| then None
    else match blocks[c.block].statements[c.pc]
      case IRAssignment(x, e) =>
        var v := ev(e, c.store);
        Some(Config(c.block, c.pc + 1, c.store[x.name := v], c.trace + [Event(x.name, v)]))
      case IRBranch(None, target, _) => Some(Config(target, 0, c.store, c.trace))
      case IRBranch(Some(cond), yes, Some(no)) =>
        Some(Config(if ev(cond, c.store) != 0 then yes else no, 0, c.store, c.trace))
      case IRBranch(Some(_), _, None) => None
      case IRPhiNode(_, _) => Some(c.(pc := c.pc + 1))
  }

  function Run(blocks: seq<CFGBlock>, ev: Evaluator, c: Config, n: nat): (r: Option<Config>)
    decreases n
  {
    if n == 0 then Some(c)
    else match Step(blocks, ev, c)
      case None => None
      case Some(c') => Run(blocks, ev, c', n - 1)
  }

  ghost predicate Leads(blocks: seq<CFGBlock>, ev: Evaluator, c: Config, c': Config) {
    exists n :: Run(blocks, ev, c, n) == Some(c')
  }

  lemma RunJoin(blocks: seq<CFGBlock>, ev: Evaluator, c: Config, n: nat, c': Config, m: nat)
    requires Run(blocks, ev, c, n) == Some(c')
    ensures Run(blocks, ev, c, n + m) == Run(blocks, ev, c', m)
    decreases n
  {
    if n > 0 { RunJoin(blocks, ev, Step(blocks, ev, c).value, n - 1, c', m); }
  }

  lemma LeadsJoin(blocks: seq<CFGBlock>, ev: Evaluator, a: Config, b: Config, c: Config)
    requires Leads(blocks, ev, a, b) && Leads(blocks, ev, b, c)
    ensures Leads(blocks, ev, a, c)
  {
    var n :| Run(blocks, ev, a, n) == Some(b);
    var m :| Run(blocks, ev, b, m) == Some(c);
    RunJoin(blocks, ev, a, n, b, m);
  }

  lemma LeadsStep(blocks: seq<CFGBlock>, ev: Evaluator, a: Config, b: Config)
    requires Step(blocks, ev, a) == Some(b)
    ensures Leads(blocks, ev, a, b)
  {
    assert Run(blocks, ev, b, 0) == Some(b);
    assert Run(blocks, ev, a, 1) == Some(b);
  }

  /** Statements are only ever appended. */
  ghost predicate Extends(blocks: seq<CFGBlock>, blocks': seq<CFGBlock>) {
    |blocks| <= |blocks'| && forall b :: 0 <= b < |blocks| ==> blocks[b].statements <= blocks'[b].statements
  }

  lemma ExtendsTransitive(a: seq<CFGBlock>, b: seq<CFGBlock>, c: seq<CFGBlock>)
    requires Extends(a, b) && Extends(b, c)
    ensures Extends(a, c)
  {
  }

  lemma RunExtends(blocks: seq<CFGBlock>, blocks': seq<CFGBlock>, ev: Evaluator, c: Config, n: nat)
    requires Extends(blocks, blocks') && Run(blocks, ev, c, n).Some?
    ensures Run(blocks', ev, c, n) == Run(blocks, ev, c, n)
    decreases n
  {
    if n > 0 { RunExtends(blocks, blocks', ev, Step(blocks, ev, c).value, n - 1); }
  }

  lemma LeadsExtends(blocks: seq<CFGBlock>, blocks': seq<CFGBlock>, ev: Evaluator, a: Config, b: Config)
    requires Extends(blocks, blocks') && Leads(blocks, ev, a, b)
    ensures Leads(blocks', ev, a, b)
  {
    var n :| Run(blocks, ev, a, n) == Some(b);
    RunExtends(blocks, blocks', ev, a, n);
  }

  /** A point between statements. */
  datatype Point = Point(block: nat, pc: nat)

  ghost function End(blocks: seq<CFGBlock>, b: nat): Point
    requires b < |blocks|
  {
    Point(b, |blocks[b].statements|)
  }

  /** From `from`, the graph does what `node` does and arrives at `to`. */
  ghost predicate Does(blocks: seq<CFGBlock>, node: ASTNode, from: Point, to: Point,
                       ev: Evaluator, store: Store, trace: seq<Event>)
  {
    var out := ExecAst(ev, node, store);
    Leads(blocks, ev, Config(from.block, from.pc, store, trace),
          Config(to.block, to.pc, out.store, trace + out.trace))
  }

  ghost predicate Implements(blocks: seq<CFGBlock>, node: ASTNode, from: Point, to: Point) {
    forall ev: Evaluator, store: Store, trace: seq<Event> :: Does(blocks, node, from, to, ev, store, trace)
  }

  lemma ImplementsExtends(blocks: seq<CFGBlock>, blocks': seq<CFGBlock>, node: ASTNode, from: Point, to: Point)
    requires Extends(blocks, blocks') && Implements(blocks, node, from, to)
    ensures Implements(blocks', node, from, to)
  {
    forall ev: Evaluator, store: Store, trace: seq<Event>
      ensures Does(blocks', node, from, to, ev, store, trace)
    {
      assert Does(blocks, node, from, to, ev, store, trace);
      var out := ExecAst(ev, node, store);
      LeadsExtends(blocks, blocks', ev, Config(from.block, from.pc, store, trace),
                   Config(to.block, to.pc, out.store, trace + out.trace));
    }
  }

  lemma ImplementsNothing(blocks: seq<CFGBlock>, node: ASTNode, at: Point)
    requires node.ASTNumber? || node.ASTSymbol? || node.ASTFor?
    ensures Implements(blocks, node, at, at)
  {
    forall ev: Evaluator, store: Store, trace: seq<Event>
      ensures Does(blocks, node, at, at, ev, store, trace)
    {
      assert trace + [] == trace;
      var c := Config(at.block, at.pc, store, trace);
      assert Run(blocks, ev, c, 0) == Some(c);
    }
  }

  lemma ImplementsAssign(blocks: seq<CFGBlock>, node: ASTNode, b: nat, pc: nat)
    requires node.ASTAssign? && b < |blocks| && pc < |blocks[b].statements|
    requires blocks[b].statements[pc] == IRAssignment(node.varExp, node.expr)
    ensures Implements(blocks, node, Point(b, pc), Point(b, pc + 1))
  {
    var from, to := Point(b, pc), Point(b, pc + 1);
    forall ev: Evaluator, store: Store, trace: seq<Event>
      ensures Does(blocks, node, from, to, ev, store, trace)
    {
      var out := ExecAst(ev, node, store);
      LeadsStep(blocks, ev, Config(b, pc, store, trace), Config(b, pc + 1, out.store, trace + out.trace));
    }
  }

  lemma ImplementsSequence(blocks: seq<CFGBlock>, node: ASTNode, from: Point, mid: Point, to: Point)
    requires node.ASTBinary?
    requires Implements(blocks, node.lhs, from, mid) && Implements(blocks, node.rhs, mid, to)
    ensures Implements(blocks, node, from, to)
  {
    forall ev: Evaluator, store: Store, trace: seq<Event>
      ensures Does(blocks, node, from, to, ev, store, trace)
    {
      var first := ExecAst(ev, node.lhs, store);
      var second := ExecAst(ev, node.rhs, first.store);
      assert Does(blocks, node.lhs, from, mid, ev, store, trace);
      assert Does(blocks, node.rhs, mid, to, ev, first.store, trace + first.trace);
      assert trace + first.trace + second.trace == trace + (first.trace + second.trace);
      LeadsJoin(blocks, ev, Config(from.block, from.pc, store, trace),
                Config(mid.block, mid.pc, first.store, trace + first.trace),
                Config(to.block, to.pc, second.store, trace + first.trace + second.trace));
    }
  }

  ghost predicate HasJump(blocks: seq<CFGBlock>, at: Point, target: nat) {
    && at.block < |blocks| && at.pc < |blocks[at.block].statements|
    && var s := blocks[at.block].statements[at.pc];
       s.IRBranch? && s.condition == None && s.first == target
  }

  ghost predicate HasBranch(blocks: seq<CFGBlock>, at: Point, cond: ASTNode, yes: nat, no: nat) {
    && at.block < |blocks| && at.pc < |blocks[at.block].statements|
    && blocks[at.block].statements[at.pc] == IRBranch(Some(cond), yes, Some(no))
  }

  lemma ImplementsIf(blocks: seq<CFGBlock>, node: ASTNode, from: Point, t: nat, e: nat, m: nat,
                     thenEnd: Point, elseEnd: Point)
    requires node.ASTIf? && HasBranch(blocks, from, node.conditionExp, t, e)
    requires Implements(blocks, node.thenExp, Point(t, 0), thenEnd) && HasJump(blocks, thenEnd, m)
    requires Implements(blocks, node.elseExp, Point(e, 0), elseEnd) && HasJump(blocks, elseEnd, m)
    ensures Implements(blocks, node, from, Point(m, 0))
  {
    forall ev: Evaluator, store: Store, trace: seq<Event>
      ensures Does(blocks, node, from, Point(m, 0), ev, store, trace)
    {
      var yes := ev(node.conditionExp, store) != 0;
      var arm, body, end := if yes then t else e, if yes then node.thenExp else node.elseExp,
                            if yes then thenEnd else elseEnd;
      var out := ExecAst(ev, body, store);
      assert Does(blocks, body, Point(arm, 0), end, ev, store, trace);
      var c0, c1 := Config(from.block, from.pc, store, trace), Config(arm, 0, store, trace);
      var c2 := Config(end.block, end.pc, out.store, trace + out.trace);
      var c3 := Config(m, 0, out.store, trace + out.trace);
      LeadsStep(blocks, ev, c0, c1);
      LeadsStep(blocks, ev, c2, c3);
      LeadsJoin(blocks, ev, c0, c1, c2);
      LeadsJoin(blocks, ev, c0, c2, c3);
    }
  }
}
