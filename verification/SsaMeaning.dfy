/** The meaning of a graph in SSA form: every index of a variable is a register of its own, and a phi
    copies the argument of the block the run came from. A graph whose reads are named right means the
    same as the graph with the indices forgotten. */
module SsaMeaning {
  import opened Common
  import opened Ir
  import opened Dominance
  import opened Cfg
  import opened Lowering
  import opened Renaming
  import opened ReachingDefs
  import opened SsaForm

  type Registers = map<Symbol, int>

  datatype SsaConfig = SsaConfig(block: nat, pc: nat, from: nat, regs: Registers, trace: seq<Event>)

  /** A register, or the input of that name for a variable that is never assigned. */
  function Lookup(regs: Registers, inputs: Store, s: Symbol): (r: Option<int>) {
    if s in regs then Some(regs[s]) else if s.name in inputs then Some(inputs[s.name]) else None
  }

  function Seen(regs: Registers, inputs: Store, s: Symbol, seen: Store): Store {
    match Lookup(regs, inputs, s)
    case None => seen
    case Some(v) => seen[s.name := v]
  }

  /** What an expression sees: for each variable in it the value of the register it names. */
  function View(n: ASTNode, regs: Registers, inputs: Store, seen: Store): (r: Store) {
    match n
    case ASTSymbol(s) => Seen(regs, inputs, s, seen)
    case ASTAssign(x, e) => View(e, regs, inputs, Seen(regs, inputs, x, seen))
    case ASTBinary(_, l, r) => View(r, regs, inputs, View(l, regs, inputs, seen))
    case _ => seen
  }

  function SsaStep(f: seq<CFGBlock>, ev: Evaluator, inputs: Store, c: SsaConfig): (r: Option<SsaConfig>) {
    if c.block >= |f| || c.pc >= |f[c.block].statements| then None
    else match f[c.block].statements[c.pc]
      case IRAssignment(x, e) =>
        var v := ev(e, View(e, c.regs, inputs, map[]));
        Some(c.(pc := c.pc + 1, regs := c.regs[x := v], trace := c.trace + [Event(x.name, v)]))
      case IRBranch(None, target, _) => Some(c.(block := target, pc := 0, from := c.block))
      case IRBranch(Some(cond), yes, Some(no)) =>
        var target := if ev(cond, View(cond, c.regs, inputs, map[])) != 0 then yes else no;
        Some(c.(block := target, pc := 0, from := c.block))
      case IRBranch(Some(_), _, None) => None
      case IRPhiNode(x, args) =>
        if c.from in args && args[c.from] in c.regs then Some(c.(pc := c.pc + 1, regs := c.regs[x := c.regs[args[c.from]]]))
        else None
  }

  function SsaRun(f: seq<CFGBlock>, ev: Evaluator, inputs: Store, c: SsaConfig, n: nat): (r: Option<SsaConfig>)
    decreases n
  {
    if n == 0 then Some(c)
    else match SsaStep(f, ev, inputs, c)
      case None => None
      case Some(c') => SsaRun(f, ev, inputs, c', n - 1)
  }

  // ---------------------------------------------------------------- evaluators

  ghost predicate AgreeOn(n: ASTNode, s: Store, t: Store) {
    forall v :: Mentions(n, v) ==> SameAt(s, t, v)
  }

  ghost predicate SameAt(s: Store, t: Store, v: string) {
    (v in s <==> v in t) && (v in s ==> s[v] == t[v])
  }

  /** The evaluator looks at the variables of the expression only, and not at indices. */
  ghost predicate Plain(ev: Evaluator) {
    && (forall n: ASTNode, s: Store :: ev(n, s) == ev(EraseNode(n), s))
    && (forall n: ASTNode, s: Store, t: Store :: AgreeOn(n, s, t) ==> ev(n, s) == ev(n, t))
  }

  predicate OccursIn(n: ASTNode, s: Symbol) {
    match n
    case ASTSymbol(x) => x == s
    case ASTAssign(x, e) => x == s || OccursIn(e, s)
    case ASTBinary(_, l, r) => OccursIn(l, s) || OccursIn(r, s)
    case _ => false
  }

  lemma OccurrenceMentioned(n: ASTNode, s: Symbol)
    requires OccursIn(n, s)
    ensures Mentions(n, s.name)
  {
  }

  lemma OccurrenceCarries(n: ASTNode, s: Symbol, i: int)
    requires OccursIn(n, s) && Carries(n, s.name, i)
    ensures s.ssaIndex == i
  {
  }

  /** Every occurrence in the expression names a register with the value of its variable. */
  ghost predicate NamesValues(n: ASTNode, regs: Registers, inputs: Store, store: Store) {
    forall s :: OccursIn(n, s) ==> Lookup(regs, inputs, s) == Value(store, s.name)
  }

  function Value(store: Store, v: string): Option<int> {
    if v in store then Some(store[v]) else None
  }

  lemma {:induction false} ViewAt(n: ASTNode, regs: Registers, inputs: Store, seen: Store, store: Store, v: string)
    requires NamesValues(n, regs, inputs, store)
    ensures if Mentions(n, v) && v in store then v in View(n, regs, inputs, seen) && View(n, regs, inputs, seen)[v] == store[v]
            else SameAt(View(n, regs, inputs, seen), seen, v)
  {
    match n
    case ASTSymbol(s) => assert OccursIn(n, s);
    case ASTAssign(x, e) =>
      assert OccursIn(n, x);
      assert NamesValues(e, regs, inputs, store);
      ViewAt(e, regs, inputs, Seen(regs, inputs, x, seen), store, v);
    case ASTBinary(_, l, r) =>
      assert NamesValues(l, regs, inputs, store) && NamesValues(r, regs, inputs, store);
      ViewAt(l, regs, inputs, seen, store, v);
      ViewAt(r, regs, inputs, View(l, regs, inputs, seen), store, v);
    case _ =>
  }

  lemma SameValue(ev: Evaluator, n: ASTNode, regs: Registers, inputs: Store, store: Store)
    requires Plain(ev) && NamesValues(n, regs, inputs, store)
    ensures ev(n, View(n, regs, inputs, map[])) == ev(n, store)
  {
    forall v | Mentions(n, v) ensures SameAt(View(n, regs, inputs, map[]), store, v) {
      ViewAt(n, regs, inputs, map[], store, v);
    }
    assert AgreeOn(n, View(n, regs, inputs, map[]), store);
  }

  // ---------------------------------------------------------------- the graphs considered

  /** Where statements may stand: phis first, one for each variable and with an argument for every
      predecessor; branches last and along edges; only variables of `vars` are defined. */
  ghost predicate Laid(f: seq<CFGBlock>, vars: set<string>, y: nat, i: nat)
    requires y < |f| && i < |f[y].statements|
  {
    var s := f[y].statements;
    match s[i]
    case IRAssignment(x, _) => x.name in vars
    case IRBranch(c, yes, no) => i == |s| - 1 && yes in f[y].succs && (c.Some? ==> no.Some? && no.value in f[y].succs)
    case IRPhiNode(x, args) =>
      && x.name in vars && (forall q: nat :: q < |f| && y in f[q].succs ==> TakesArg(s[i], q, x.name))
      && (forall j :: 0 <= j < i ==> s[j].IRPhiNode? && s[j].variable.name != x.name) && y != 0
  }

  ghost predicate LaidOut(f: seq<CFGBlock>, vars: set<string>) {
    && WellFormed(SuccsOf(f))
    && forall y: nat, i: nat :: y < |f| && i < |f[y].statements| ==> Laid(f, vars, y, i)
  }

  /** Every read and every phi argument names the definition that reaches it. */
  ghost predicate NamedRight(f: seq<CFGBlock>, v: string) {
    && Strict(f, v) && LocalReadsRight(f, v)
    && (forall y, i, p, k :: IncomingRead(f, v, y, i, p, k) ==> ReadNames(f, v, y, i, p[k]))
    && (forall y, i, q, p, k :: ArgumentRead(f, v, y, i, q, p, k) ==> ArgumentNames(f, v, y, i, q, p[k]))
  }

  // ---------------------------------------------------------------- the current definition

  /** The last definition of `v` on the path `p` and the first `i` statements of its last block has
      index `idx`. */
  ghost predicate IsCurrent(f: seq<CFGBlock>, v: string, p: seq<nat>, i: nat, idx: int)
    requires |p| > 0 && p[|p| - 1] < |f| && i <= |f[p[|p| - 1]].statements|
  {
    var s := f[p[|p| - 1]].statements[..i];
    if CountDefs(s, v) > 0 then LastIndexOf(s, v) == Some(idx) else FromPath(f, v, p, idx)
  }

  ghost predicate FromPath(f: seq<CFGBlock>, v: string, p: seq<nat>, idx: int) {
    exists k: nat :: LastDefOn(f, v, p, k) && p[k] < |f| && LastIndexOf(f[p[k]].statements, v) == Some(idx)
  }

  ghost predicate Holds(f: seq<CFGBlock>, vars: set<string>, p: seq<nat>, i: nat, regs: Registers, store: Store)
    requires |p| > 0 && p[|p| - 1] < |f| && i <= |f[p[|p| - 1]].statements|
  {
    forall v, idx :: v in vars && IsCurrent(f, v, p, i, idx) ==> InRegister(regs, store, v, idx)
  }

  ghost predicate InRegister(regs: Registers, store: Store, v: string, idx: int) {
    Symbol(v, idx) in regs && v in store && regs[Symbol(v, idx)] == store[v]
  }

  ghost predicate OthersKept(vars: set<string>, regs: Registers, inputs: Store, store: Store) {
    && (forall s :: s in regs ==> s.name in vars)
    && (forall v :: v !in vars ==> SameAt(store, inputs, v))
  }

  ghost predicate Related(f: seq<CFGBlock>, vars: set<string>, inputs: Store, p: seq<nat>, c: Config, sc: SsaConfig) {
    && PathTo(SuccsOf(f), p, c.block) && c.block < |f| && c.pc <= |f[c.block].statements|
    && sc.block == c.block && sc.pc == c.pc && sc.trace == c.trace && (|p| > 1 ==> sc.from == p[|p| - 2])
    && Holds(f, vars, p, c.pc, sc.regs, c.store) && OthersKept(vars, sc.regs, inputs, c.store)
  }

  // ---------------------------------------------------------------- reads

  lemma PhiCounted(s: seq<IRNode>, v: string, i: nat)
    requires i < |s| && IsDef(s[i], v)
    ensures CountDefs(s, v) > 0
  {
    var n := |s| - 1;
    if i < n { PhiCounted(s[..n], v, i); }
  }

  lemma CountedDef(s: seq<IRNode>, v: string)
    requires CountPhis(s, v) > 0
    ensures exists i :: 0 <= i < |s| && IsPhi(s[i], v)
  {
    var n := |s| - 1;
    if !IsPhi(s[n], v) {
      CountedDef(s[..n], v);
      var i :| 0 <= i < |s[..n]| && IsPhi(s[..n][i], v);
      assert s[i] == s[..n][i];
    }
  }

  /** A statement that reads a variable not yet defined in its block stands in a block without a phi for it. */
  lemma NoPhiBefore(f: seq<CFGBlock>, vars: set<string>, y: nat, i: nat, v: string)
    requires LaidOut(f, vars) && y < |f| && i < |f[y].statements| && !f[y].statements[i].IRPhiNode?
    requires CountDefs(f[y].statements[..i], v) == 0
    ensures !HasPhi(f, y, v)
  {
    var s := f[y].statements;
    if CountPhis(s, v) > 0 {
      CountedDef(s, v);
      var j :| 0 <= j < |s| && IsPhi(s[j], v);
      assert Laid(f, vars, y, j);
      if j < i {
        assert s[..i][j] == s[j];
        PhiCounted(s[..i], v, j);
      }
    }
  }

  lemma ReadNeeds(f: seq<CFGBlock>, v: string, y: nat, i: nat, p: seq<nat>) returns (k: nat)
    requires Strict(f, v) && PathTo(SuccsOf(f), p, y) && y < |f| && ReadsIncoming(f[y].statements, i, v)
    ensures LastDefOn(f, v, p, k)
  {
    assert Reachable(SuccsOf(f), y);
    assert NeedsIncoming(f, y, v);
    k := LastDefExists(f, v, y, p);
  }

  /** A statement that reads `v` names the current definition of `v`. */
  lemma ReadIsCurrent(f: seq<CFGBlock>, vars: set<string>, v: string, p: seq<nat>, y: nat, i: nat) returns (idx: int)
    requires LaidOut(f, vars) && NamedRight(f, v) && PathTo(SuccsOf(f), p, y) && y < |f| && i < |f[y].statements|
    requires ReadsIn(f[y].statements[i], v)
    ensures IsCurrent(f, v, p, i, idx) && UsesCarry(f[y].statements[i], v, idx)
  {
    hide WellFormed, Strict, UsesCarry;
    var s := f[y].statements;
    if CountDefs(s[..i], v) > 0 {
      assert Reachable(SuccsOf(f), y);
      assert LocalRead(f, v, y, i);
      assert LocalNames(f, v, y, i);
      idx := LastIndexOf(s[..i], v).value;
    } else {
      NoPhiBefore(f, vars, y, i, v);
      var k := ReadNeeds(f, v, y, i, p);
      assert IncomingRead(f, v, y, i, p, k);
      assert ReadNames(f, v, y, i, p[k]);
      idx := LastIndexOf(f[p[k]].statements, v).value;
      assert FromPath(f, v, p, idx);
    }
  }

  /** The expression of a statement. */
  function Expression(s: IRNode): (r: Option<ASTNode>) {
    match s
    case IRAssignment(_, e) => Some(e)
    case IRBranch(c, _, _) => c
    case _ => None
  }

  lemma ReadsMatch(f: seq<CFGBlock>, vars: set<string>, inputs: Store, p: seq<nat>, c: Config, sc: SsaConfig)
    requires LaidOut(f, vars) && (forall v :: v in vars ==> NamedRight(f, v)) && Related(f, vars, inputs, p, c, sc)
    requires c.pc < |f[c.block].statements| && Expression(f[c.block].statements[c.pc]).Some?
    ensures NamesValues(Expression(f[c.block].statements[c.pc]).value, sc.regs, inputs, c.store)
  {
    hide LaidOut, NamedRight, Holds, IsCurrent;
    var st := f[c.block].statements[c.pc];
    var e := Expression(st).value;
    forall s | OccursIn(e, s) ensures Lookup(sc.regs, inputs, s) == Value(c.store, s.name) {
      OccurrenceMentioned(e, s);
      if s.name in vars {
        var idx := ReadIsCurrent(f, vars, s.name, p, c.block, c.pc);
        OccurrenceCarries(e, s, idx);
        HeldAt(f, vars, p, c.pc, sc.regs, c.store, s.name, idx);
      } else {
        assert SameAt(c.store, inputs, s.name);
      }
    }
  }

  lemma HeldAt(f: seq<CFGBlock>, vars: set<string>, p: seq<nat>, i: nat, regs: Registers, store: Store, v: string, idx: int)
    requires |p| > 0 && p[|p| - 1] < |f| && i <= |f[p[|p| - 1]].statements|
    requires Holds(f, vars, p, i, regs, store) && v in vars && IsCurrent(f, v, p, i, idx)
    ensures InRegister(regs, store, v, idx)
  {
  }

  // ---------------------------------------------------------------- definitions

  lemma LastIndexStep(s: seq<IRNode>, i: nat, v: string)
    requires i < |s|
    ensures LastIndexOf(s[..i + 1], v) == if IsDef(s[i], v) then Some(s[i].variable.ssaIndex) else LastIndexOf(s[..i], v)
  {
    assert s[..i + 1][..i] == s[..i];
  }

  lemma CurrentAfter(f: seq<CFGBlock>, v: string, p: seq<nat>, i: nat, idx: int)
    requires |p| > 0 && p[|p| - 1] < |f| && i < |f[p[|p| - 1]].statements| && IsCurrent(f, v, p, i + 1, idx)
    ensures var st := f[p[|p| - 1]].statements[i];
            if IsDef(st, v) then idx == st.variable.ssaIndex else IsCurrent(f, v, p, i, idx)
  {
    DefStep(f[p[|p| - 1]].statements, i, v);
    LastIndexStep(f[p[|p| - 1]].statements, i, v);
  }

  /** Writing the register of the definition at `i` makes it current. */
  lemma DefineHolds(f: seq<CFGBlock>, vars: set<string>, p: seq<nat>, i: nat, regs: Registers, store: Store,
                    regs': Registers, store': Store, x: Symbol, value: int)
    requires |p| > 0 && p[|p| - 1] < |f| && i < |f[p[|p| - 1]].statements| && Holds(f, vars, p, i, regs, store)
    requires !f[p[|p| - 1]].statements[i].IRBranch? && f[p[|p| - 1]].statements[i].variable == x
    requires regs' == regs[x := value] && x.name in store' && store'[x.name] == value
    requires forall v :: v != x.name ==> SameAt(store, store', v)
    ensures Holds(f, vars, p, i + 1, regs', store')
  {
    hide IsCurrent;
    forall v, idx | v in vars && IsCurrent(f, v, p, i + 1, idx) ensures InRegister(regs', store', v, idx) {
      CurrentAfter(f, v, p, i, idx);
      if v != x.name { assert InRegister(regs, store, v, idx) && SameAt(store, store', v); }
    }
  }

  lemma StepAssign(f: seq<CFGBlock>, vars: set<string>, ev: Evaluator, inputs: Store, p: seq<nat>, c: Config, sc: SsaConfig)
    requires LaidOut(f, vars) && (forall v :: v in vars ==> NamedRight(f, v)) && Plain(ev) && Related(f, vars, inputs, p, c, sc)
    requires c.pc < |f[c.block].statements| && f[c.block].statements[c.pc].IRAssignment?
    ensures Step(f, ev, c).Some? && SsaStep(f, ev, inputs, sc).Some?
    ensures Related(f, vars, inputs, p, Step(f, ev, c).value, SsaStep(f, ev, inputs, sc).value)
  {
    hide NamedRight, Holds, IsCurrent, Plain, NamesValues;
    var st := f[c.block].statements[c.pc];
    var x, e := st.variable, st.rhs;
    assert Laid(f, vars, c.block, c.pc);
    hide LaidOut;
    ReadsMatch(f, vars, inputs, p, c, sc);
    SameValue(ev, e, sc.regs, inputs, c.store);
    var value := ev(e, c.store);
    DefineHolds(f, vars, p, c.pc, sc.regs, c.store, sc.regs[x := value], c.store[x.name := value], x, value);
  }

  // ---------------------------------------------------------------- phis

  /** A phi's argument for the block the run came from is the current definition. */
  lemma ArgumentIsCurrent(f: seq<CFGBlock>, vars: set<string>, p: seq<nat>, y: nat, i: nat, v: string, q: nat) returns (idx: int)
    requires LaidOut(f, vars) && NamedRight(f, v) && PathTo(SuccsOf(f), p, y) && |p| > 1 && q == p[|p| - 2]
    requires y < |f| && i < |f[y].statements| && IsPhi(f[y].statements[i], v)
    ensures TakesArg(f[y].statements[i], q, v) && f[y].statements[i].blockToVarMap[q] == Symbol(v, idx)
    ensures IsCurrent(f, v, p, i, idx)
  {
    hide Strict, LocalReadsRight;
    var g, s, n := SuccsOf(f), f[y].statements, |p| - 1;
    assert Edge(g, p[n - 1], p[n]);
    assert Laid(f, vars, y, i);
    assert TakesArg(s[i], q, v);
    hide LaidOut, WellFormed;
    PathPrefix(g, p, n - 1);
    assert p == p[..n] + [y];
    var k := ArgumentNeeds(f, v, y, i, q, p);
    assert ArgumentRead(f, v, y, i, q, p[..n], k);
    assert ArgumentNames(f, v, y, i, q, p[k]);
    idx := s[i].blockToVarMap[q].ssaIndex;
    FirstPhi(s, i, v);
    assert FromPath(f, v, p, idx);
  }

  lemma {:induction false} FirstPhi(s: seq<IRNode>, i: nat, v: string)
    requires i < |s| && forall j :: 0 <= j < i ==> s[j].IRPhiNode? && s[j].variable.name != v
    ensures CountDefs(s[..i], v) == 0
  {
    if i > 0 {
      FirstPhi(s, i - 1, v);
      DefStep(s, i - 1, v);
    }
  }

  lemma ArgumentNeeds(f: seq<CFGBlock>, v: string, y: nat, i: nat, q: nat, p: seq<nat>) returns (k: nat)
    requires Strict(f, v) && |p| > 1 && q == p[|p| - 2] && PathTo(SuccsOf(f), p[..|p| - 1], q)
    requires q < |f| && y < |f| && y in f[q].succs && i < |f[y].statements| && TakesArg(f[y].statements[i], q, v)
    ensures LastDefOn(f, v, p, k)
  {
    var n := |p| - 1;
    if Defines(f, q, v) {
      k := n - 1;
    } else {
      assert FeedsPhi(f, q, v);
      assert NeedsIncoming(f, q, v) && Reachable(SuccsOf(f), q);
      k := LastDefExists(f, v, q, p[..n]);
      assert p[..n][k] == p[k];
      assert forall j :: k < j < n - 1 ==> p[..n][j] == p[j];
    }
  }

  lemma StepPhi(f: seq<CFGBlock>, vars: set<string>, ev: Evaluator, inputs: Store, p: seq<nat>, c: Config, sc: SsaConfig)
    requires LaidOut(f, vars) && (forall v :: v in vars ==> NamedRight(f, v)) && Related(f, vars, inputs, p, c, sc)
    requires c.pc < |f[c.block].statements| && f[c.block].statements[c.pc].IRPhiNode?
    ensures Step(f, ev, c).Some? && SsaStep(f, ev, inputs, sc).Some?
    ensures Related(f, vars, inputs, p, Step(f, ev, c).value, SsaStep(f, ev, inputs, sc).value)
  {
    hide NamedRight, Holds, IsCurrent;
    var st := f[c.block].statements[c.pc];
    var x := st.variable;
    assert Laid(f, vars, c.block, c.pc);
    assert |p| > 1;
    var idx := ArgumentIsCurrent(f, vars, p, c.block, c.pc, x.name, sc.from);
    hide LaidOut;
    HeldAt(f, vars, p, c.pc, sc.regs, c.store, x.name, idx);
    DefineHolds(f, vars, p, c.pc, sc.regs, c.store, sc.regs[x := c.store[x.name]], c.store, x, c.store[x.name]);
  }

  // ---------------------------------------------------------------- branches

  lemma EnterCurrent(f: seq<CFGBlock>, v: string, p: seq<nat>, t: nat, idx: int)
    requires |p| > 0 && p[|p| - 1] < |f| && t < |f| && f[p[|p| - 1]].statements != []
    requires f[p[|p| - 1]].statements[|f[p[|p| - 1]].statements| - 1].IRBranch?
    requires IsCurrent(f, v, p + [t], 0, idx)
    ensures IsCurrent(f, v, p, |f[p[|p| - 1]].statements| - 1, idx)
  {
    var s, n, p' := f[p[|p| - 1]].statements, |p| - 1, p + [t];
    var i := |s| - 1;
    DefStep(s, i, v);
    LastIndexStep(s, i, v);
    assert s[..i + 1] == s;
    assert f[t].statements[..0] == [];
    var k: nat :| LastDefOn(f, v, p', k) && p'[k] < |f| && LastIndexOf(f[p'[k]].statements, v) == Some(idx);
    assert p'[k] == p[k];
    if k < n {
      assert !Defines(f, p'[n], v);
      assert forall j :: k < j < n ==> p'[j] == p[j];
      assert LastDefOn(f, v, p, k);
    }
  }

  lemma EnterHolds(f: seq<CFGBlock>, vars: set<string>, p: seq<nat>, t: nat, regs: Registers, store: Store)
    requires |p| > 0 && p[|p| - 1] < |f| && t < |f| && f[p[|p| - 1]].statements != []
    requires f[p[|p| - 1]].statements[|f[p[|p| - 1]].statements| - 1].IRBranch?
    requires Holds(f, vars, p, |f[p[|p| - 1]].statements| - 1, regs, store)
    ensures Holds(f, vars, p + [t], 0, regs, store)
  {
    hide IsCurrent;
    forall v, idx | v in vars && IsCurrent(f, v, p + [t], 0, idx) ensures InRegister(regs, store, v, idx) {
      EnterCurrent(f, v, p, t, idx);
    }
  }

  lemma StepBranch(f: seq<CFGBlock>, vars: set<string>, ev: Evaluator, inputs: Store, p: seq<nat>, c: Config, sc: SsaConfig)
    requires LaidOut(f, vars) && (forall v :: v in vars ==> NamedRight(f, v)) && Plain(ev) && Related(f, vars, inputs, p, c, sc)
    requires c.pc < |f[c.block].statements| && f[c.block].statements[c.pc].IRBranch?
    ensures Step(f, ev, c).Some? && SsaStep(f, ev, inputs, sc).Some?
    ensures Related(f, vars, inputs, p + [Step(f, ev, c).value.block], Step(f, ev, c).value, SsaStep(f, ev, inputs, sc).value)
  {
    hide NamedRight, Holds, IsCurrent, Plain, NamesValues;
    var st := f[c.block].statements[c.pc];
    assert Laid(f, vars, c.block, c.pc);
    if st.condition.Some? {
      ReadsMatch(f, vars, inputs, p, c, sc);
      SameValue(ev, st.condition.value, sc.regs, inputs, c.store);
    }
    var t := Step(f, ev, c).value.block;
    assert t in SuccsOf(f)[c.block];
    assert t < |f|;
    hide LaidOut;
    PathAppend(SuccsOf(f), p, 0, c.block, t);
    EnterHolds(f, vars, p, t, sc.regs, c.store);
  }

  // ---------------------------------------------------------------- lockstep

  lemma LockStep(f: seq<CFGBlock>, vars: set<string>, ev: Evaluator, inputs: Store, p: seq<nat>, c: Config, sc: SsaConfig)
    returns (p': seq<nat>)
    requires LaidOut(f, vars) && (forall v :: v in vars ==> NamedRight(f, v)) && Plain(ev) && Related(f, vars, inputs, p, c, sc)
    ensures Step(f, ev, c).None? <==> SsaStep(f, ev, inputs, sc).None?
    ensures Step(f, ev, c).Some? ==> Related(f, vars, inputs, p', Step(f, ev, c).value, SsaStep(f, ev, inputs, sc).value)
  {
    p' := p;
    hide LaidOut, NamedRight, Plain, Holds, OthersKept;
    if c.pc < |f[c.block].statements| {
      match f[c.block].statements[c.pc]
      case IRAssignment(_, _) => StepAssign(f, vars, ev, inputs, p, c, sc);
      case IRPhiNode(_, _) => StepPhi(f, vars, ev, inputs, p, c, sc);
      case IRBranch(_, _, _) =>
        StepBranch(f, vars, ev, inputs, p, c, sc);
        p' := p + [Step(f, ev, c).value.block];
    }
  }

  /** Runs of the graph with registers and with the indices forgotten go together, step by step. */
  lemma {:induction false} LockRun(f: seq<CFGBlock>, vars: set<string>, ev: Evaluator, inputs: Store, p: seq<nat>,
                                   c: Config, sc: SsaConfig, n: nat) returns (p': seq<nat>)
    requires LaidOut(f, vars) && (forall v :: v in vars ==> NamedRight(f, v)) && Plain(ev) && Related(f, vars, inputs, p, c, sc)
    requires Run(f, ev, c, n).Some?
    ensures SsaRun(f, ev, inputs, sc, n).Some?
    ensures Related(f, vars, inputs, p', Run(f, ev, c, n).value, SsaRun(f, ev, inputs, sc, n).value)
    decreases n
  {
    hide LaidOut, NamedRight, Plain, Related, Step, SsaStep;
    p' := p;
    if n > 0 {
      var q := LockStep(f, vars, ev, inputs, p, c, sc);
      p' := LockRun(f, vars, ev, inputs, q, Step(f, ev, c).value, SsaStep(f, ev, inputs, sc).value, n - 1);
    }
  }

  /** At the start no variable has a definition. */
  lemma StartRelated(f: seq<CFGBlock>, vars: set<string>, inputs: Store)
    requires |f| > 0
    ensures Related(f, vars, inputs, [0], Config(0, 0, inputs, []), SsaConfig(0, 0, 0, map[], []))
  {
    assert PathTo(SuccsOf(f), [0], 0);
    assert f[0].statements[..0] == [];
  }

  /** Run to its end with registers, the graph performs exactly these assignments. */
  ghost predicate SsaPerforms(f: seq<CFGBlock>, ev: Evaluator, inputs: Store, trace: seq<Event>) {
    exists n: nat :: SsaEnds(f, ev, inputs, n, trace)
  }

  ghost predicate SsaEnds(f: seq<CFGBlock>, ev: Evaluator, inputs: Store, n: nat, trace: seq<Event>) {
    && SsaRun(f, ev, inputs, SsaConfig(0, 0, 0, map[], []), n).Some?
    && var c := SsaRun(f, ev, inputs, SsaConfig(0, 0, 0, map[], []), n).value;
       c.trace == trace && SsaStep(f, ev, inputs, c) == None && c.block < |f| && c.pc == |f[c.block].statements|
  }

  lemma SsaMeansTheSame(f: seq<CFGBlock>, vars: set<string>, ev: Evaluator, inputs: Store, c: Config)
    requires LaidOut(f, vars) && (forall v :: v in vars ==> NamedRight(f, v)) && Plain(ev)
    requires Leads(f, ev, Config(0, 0, inputs, []), c) && c.block < |f| && c.pc == |f[c.block].statements|
    ensures SsaPerforms(f, ev, inputs, c.trace)
  {
    hide LaidOut, NamedRight, Plain, Holds, OthersKept;
    StartRelated(f, vars, inputs);
    var n :| Run(f, ev, Config(0, 0, inputs, []), n) == Some(c);
    var p := LockRun(f, vars, ev, inputs, [0], Config(0, 0, inputs, []), SsaConfig(0, 0, 0, map[], []), n);
    assert SsaEnds(f, ev, inputs, n, c.trace);
  }
}
