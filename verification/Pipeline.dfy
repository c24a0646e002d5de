/** Phi insertion and the whole of CFGBuilder::CommitSSAFormBuilding. */
module Pipeline {
  import opened Common
  import opened Ir
  import opened Dominance
  import opened Cfg
  import opened DominatorTree
  import opened Renaming
  import opened ReachingDefs
  import opened SsaForm
  import opened Builder

  // ---------------------------------------------------------------- phi insertion

  /** A new phi: one argument for every predecessor. */
  function PhiFor(name: string, preds: seq<nat>): (r: IRNode) {
    IRPhiNode(Symbol(name, 0), map q | q in preds :: Symbol(name, 0))
  }

  function Phis(names: seq<string>, preds: seq<nat>): (r: seq<IRNode>)
    ensures |r| == |names| && forall i :: 0 <= i < |r| ==> r[i] == PhiFor(names[i], preds)
  {
    seq(|names|, i requires 0 <= i < |names| => PhiFor(names[i], preds))
  }

  /** Block `y` got one phi for every variable of `placed` whose set holds it, in front. */
  ghost predicate PhisAdded(block: CFGBlock, y: nat, placed: map<string, set<nat>>, names: seq<string>, block': CFGBlock) {
    && Distinct(names)
    && (forall v :: v in names <==> v in placed && y in placed[v])
    && block' == block.(statements := Phis(names, block.preds) + block.statements)
  }

  ghost predicate WithPhis(blocks: seq<CFGBlock>, placed: map<string, set<nat>>, names: seq<seq<string>>, blocks': seq<CFGBlock>) {
    && |names| == |blocks| == |blocks'|
    && forall y :: 0 <= y < |blocks| ==> PhisAdded(blocks[y], y, placed, names[y], blocks'[y])
  }

  /** `placed` gives each variable the iterated frontier of the blocks that assign it. */
  ghost predicate PlacedRight(g: Graph, vars: map<string, set<nat>>, placed: map<string, set<nat>>) {
    && placed.Keys == vars.Keys
    && forall v :: v in vars ==> vars[v] <= AllBlocks(g) && IsIteratedFrontier(FrontierTable(g), vars[v], placed[v])
  }

  lemma PhisAddedSame(block: CFGBlock, y: nat, placed: map<string, set<nat>>, names: seq<string>, block': CFGBlock, v: string, t: set<nat>)
    requires PhisAdded(block, y, placed, names, block') && v !in placed && y !in t
    ensures PhisAdded(block, y, placed[v := t], names, block')
  {
    assert v !in names;
  }

  lemma PhisAddedOne(block: CFGBlock, y: nat, placed: map<string, set<nat>>, names: seq<string>, block': CFGBlock, v: string, t: set<nat>)
    requires PhisAdded(block, y, placed, names, block') && v !in placed && y in t
    ensures PhisAdded(block, y, placed[v := t], [v] + names,
                      block'.(statements := [PhiFor(v, block'.preds)] + block'.statements))
  {
    assert v !in names;
    assert Phis([v] + names, block.preds) == [PhiFor(v, block.preds)] + Phis(names, block.preds);
    assert [PhiFor(v, block.preds)] + Phis(names, block.preds) + block.statements
        == [PhiFor(v, block.preds)] + (Phis(names, block.preds) + block.statements);
  }

  method BuildArguments(name: string, preds: seq<nat>) returns (args: map<nat, Symbol>)
    ensures args == PhiFor(name, preds).blockToVarMap
  {
    args := map[];
    var k := 0;
    while k < |preds|
      invariant k <= |preds|
      invariant args == map q | q in preds[..k] :: Symbol(name, 0)
    {
      assert preds[..k + 1] == preds[..k] + [preds[k]];
      args := args[preds[k] := Symbol(name, 0)];
      k := k + 1;
    }
    assert preds[..k] == preds;
  }

  /** One round of the outer loop of InsertPhiNodes. */
  method InsertPhisFor(cfg: CFG, name: string, target: set<nat>, ghost blocks: seq<CFGBlock>,
                       ghost placed: map<string, set<nat>>, ghost names: seq<seq<string>>)
    returns (ghost names': seq<seq<string>>)
    requires WithPhis(blocks, placed, names, cfg.BasicBlocks) && name !in placed
    requires forall y :: y in target ==> y < |blocks|
    modifies cfg`BasicBlocks
    ensures WithPhis(blocks, placed[name := target], names', cfg.BasicBlocks)
  {
    names' := names;
    ghost var before := cfg.BasicBlocks;
    var rest := target;
    while rest != {}
      invariant rest <= target && |names'| == |blocks| == |cfg.BasicBlocks|
      invariant forall y :: 0 <= y < |blocks| && y in target - rest ==>
                  PhisAdded(blocks[y], y, placed[name := target], names'[y], cfg.BasicBlocks[y])
      invariant forall y :: 0 <= y < |blocks| && y !in target - rest ==>
                  names'[y] == names[y] && cfg.BasicBlocks[y] == before[y]
      decreases rest
    {
      hide PhisAdded, PhiFor;
      var y :| y in rest;
      rest := rest - {y};
      var args := BuildArguments(name, cfg.BasicBlocks[y].preds);
      assert PhisAdded(blocks[y], y, placed, names[y], before[y]);
      PhisAddedOne(blocks[y], y, placed, names[y], before[y], name, target);
      PhiForArgs(name, cfg.BasicBlocks[y].preds, args);
      names' := names'[y := [name] + names'[y]];
      cfg.BasicBlocks := cfg.BasicBlocks[y := cfg.BasicBlocks[y].(statements :=
        [IRPhiNode(Symbol(name, 0), args)] + cfg.BasicBlocks[y].statements)];
    }
    forall y | 0 <= y < |blocks|
      ensures PhisAdded(blocks[y], y, placed[name := target], names'[y], cfg.BasicBlocks[y])
    {
      if y !in target {
        assert PhisAdded(blocks[y], y, placed, names[y], before[y]);
        PhisAddedSame(blocks[y], y, placed, names[y], before[y], name, target);
      } else {
        assert y in target - rest;
      }
    }
  }

  lemma PhiForArgs(name: string, preds: seq<nat>, args: map<nat, Symbol>)
    requires args == PhiFor(name, preds).blockToVarMap
    ensures IRPhiNode(Symbol(name, 0), args) == PhiFor(name, preds)
  {
  }

  /** CFGBuilder::InsertPhiNodes. */
  method InsertPhiNodes(cfg: CFG, vars: map<string, set<nat>>)
    returns (ghost placed: map<string, set<nat>>, ghost names: seq<seq<string>>)
    requires WellFormed(cfg.Graph()) && HasDominatorTree(cfg.BasicBlocks) && IsPostorder(cfg.Graph(), cfg.InPostOrder)
    requires cfg.DominanceFrontier != map[] ==> cfg.DominanceFrontier == FrontierTable(cfg.Graph())
    requires forall v :: v in vars ==> vars[v] <= AllBlocks(cfg.Graph())
    modifies cfg`DominanceFrontier, cfg`BasicBlocks
    ensures WithPhis(old(cfg.BasicBlocks), placed, names, cfg.BasicBlocks)
    ensures PlacedRight(old(cfg.Graph()), vars, placed)
    ensures cfg.Graph() == old(cfg.Graph())
  {
    hide WithPhis, IsIteratedFrontier, HasDominatorTree, IsPostorder, WellFormed, FrontierTable, SameTree, AllBlocks;
    ghost var blocks, g := cfg.BasicBlocks, cfg.Graph();
    placed := map[];
    names := seq(|blocks|, i => []);
    NoPhisYet(blocks, names);
    WithPhisGraph(blocks, placed, names, cfg.BasicBlocks);
    var rest := vars.Keys;
    while rest != {}
      invariant rest <= vars.Keys && placed.Keys == vars.Keys - rest
      invariant WithPhis(blocks, placed, names, cfg.BasicBlocks) && SameTree(blocks, cfg.BasicBlocks)
      invariant cfg.DominanceFrontier != map[] ==> cfg.DominanceFrontier == FrontierTable(g)
      invariant cfg.InPostOrder == old(cfg.InPostOrder)
      invariant forall v :: v in placed ==> IsIteratedFrontier(FrontierTable(g), vars[v], placed[v])
      decreases rest
    {
      var v :| v in rest;
      rest := rest - {v};
      SameTreeKept(blocks, cfg.BasicBlocks);
      var target := cfg.GetDominanceFrontierForSubset(vars[v]);
      FrontierInRange(g, vars[v], target, |blocks|);
      names := InsertPhisFor(cfg, v, target, blocks, placed, names);
      placed := placed[v := target];
      WithPhisGraph(blocks, placed, names, cfg.BasicBlocks);
    }
    SameTreeKept(blocks, cfg.BasicBlocks);
  }

  /** The blocks agree on links and on the dominator tree. */
  ghost predicate SameTree(blocks: seq<CFGBlock>, blocks': seq<CFGBlock>) {
    |blocks| == |blocks'| && forall y :: 0 <= y < |blocks| ==> blocks'[y] == blocks[y].(statements := blocks'[y].statements)
  }

  lemma NoPhisYet(blocks: seq<CFGBlock>, names: seq<seq<string>>)
    requires |names| == |blocks| && forall y :: 0 <= y < |blocks| ==> names[y] == []
    ensures WithPhis(blocks, map[], names, blocks)
  {
    forall y | 0 <= y < |blocks| ensures PhisAdded(blocks[y], y, map[], names[y], blocks[y]) {
      assert Phis([], blocks[y].preds) + blocks[y].statements == blocks[y].statements;
    }
  }

  lemma WithPhisGraph(blocks: seq<CFGBlock>, placed: map<string, set<nat>>, names: seq<seq<string>>, blocks': seq<CFGBlock>)
    requires WithPhis(blocks, placed, names, blocks')
    ensures SameTree(blocks, blocks')
  {
    forall y | 0 <= y < |blocks| ensures blocks'[y] == blocks[y].(statements := blocks'[y].statements) {
      assert PhisAdded(blocks[y], y, placed, names[y], blocks'[y]);
    }
  }

  lemma SameTreeKept(blocks: seq<CFGBlock>, blocks': seq<CFGBlock>)
    requires SameTree(blocks, blocks')
    ensures SuccsOf(blocks) == SuccsOf(blocks') && (HasDominatorTree(blocks) ==> HasDominatorTree(blocks'))
  {
    assert SuccsOf(blocks) == SuccsOf(blocks');
    if HasDominatorTree(blocks) {
      forall x | 0 <= x < |blocks'| ensures blocks'[x].dominatingBlocks == ChildrenBelow(blocks', x, |blocks'|) {
        assert blocks[x].dominatingBlocks == ChildrenBelow(blocks, x, |blocks|);
        ChildrenBelowSame(blocks, blocks', x, |blocks|);
      }
    }
  }

  lemma FrontierInRange(g: Graph, s: set<nat>, t: set<nat>, n: nat)
    requires n == |g| && s <= AllBlocks(g) && IsIteratedFrontier(FrontierTable(g), s, t)
    ensures forall y :: y in t ==> y < n
  {
  }

  // ---------------------------------------------------------------- what insertion gives each variable

  lemma CountJoin(a: seq<IRNode>, b: seq<IRNode>, name: string)
    ensures CountPhis(a + b, name) == CountPhis(a, name) + CountPhis(b, name)
    ensures CountAssigns(a + b, name) == CountAssigns(a, name) + CountAssigns(b, name)
  {
    if b == [] {
      assert a + b == a;
    } else {
      assert (a + b)[..|a + b| - 1] == a + b[..|b| - 1];
      CountJoin(a, b[..|b| - 1], name);
    }
  }

  lemma CountNewPhis(names: seq<string>, preds: seq<nat>, name: string)
    requires Distinct(names)
    ensures CountPhis(Phis(names, preds), name) == if name in names then 1 else 0
    ensures CountAssigns(Phis(names, preds), name) == 0
  {
    if names != [] {
      var n := |names| - 1;
      assert Phis(names, preds)[..n] == Phis(names[..n], preds);
      CountNewPhis(names[..n], preds, name);
      assert name in names <==> name in names[..n] || name == names[n];
    }
  }

  ghost predicate PhiFree(block: CFGBlock) {
    forall k :: 0 <= k < |block.statements| ==> !block.statements[k].IRPhiNode?
  }

  lemma CountPhiFree(s: seq<IRNode>, name: string)
    requires forall k :: 0 <= k < |s| ==> !s[k].IRPhiNode?
    ensures CountPhis(s, name) == 0
  {
    if s != [] { CountPhiFree(s[..|s| - 1], name); }
  }

  /** Each variable has exactly one phi in each block of its iterated frontier, no other phi, and its
      assignments are where they were. */
  lemma OnePhiEach(blocks: seq<CFGBlock>, placed: map<string, set<nat>>, names: seq<seq<string>>, blocks': seq<CFGBlock>, y: nat, v: string)
    requires WithPhis(blocks, placed, names, blocks') && y < |blocks| && PhiFree(blocks[y])
    ensures CountPhis(blocks'[y].statements, v) == if v in placed && y in placed[v] then 1 else 0
    ensures CountAssigns(blocks'[y].statements, v) == CountAssigns(blocks[y].statements, v)
  {
    assert PhisAdded(blocks[y], y, placed, names[y], blocks'[y]);
    CountJoin(Phis(names[y], blocks[y].preds), blocks[y].statements, v);
    CountNewPhis(names[y], blocks[y].preds, v);
    CountPhiFree(blocks[y].statements, v);
  }

  lemma AssignsCounted(s: seq<IRNode>, name: string)
    ensures CountAssigns(s, name) > 0 <==> exists k :: 0 <= k < |s| && IsAssign(s[k], name)
  {
    if s != [] {
      AssignsCounted(s[..|s| - 1], name);
      if k :| 0 <= k < |s| && IsAssign(s[k], name) {
        if k < |s| - 1 { assert IsAssign(s[..|s| - 1][k], name); }
      }
    }
  }

  lemma AssignsMeans(block: CFGBlock, name: string)
    ensures Assigns(block, name) <==> CountAssigns(block.statements, name) > 0
  {
    AssignsCounted(block.statements, name);
  }

  /** After insertion every frontier block of a definition has a phi: the iterated frontier is closed. */
  lemma InsertionPlacesPhis(blocks: seq<CFGBlock>, vars: map<string, set<nat>>, placed: map<string, set<nat>>,
                            names: seq<seq<string>>, blocks': seq<CFGBlock>, v: string)
    requires WithPhis(blocks, placed, names, blocks') && PlacedRight(SuccsOf(blocks), vars, placed)
    requires VarsExact(blocks, vars) && (forall y :: 0 <= y < |blocks| ==> PhiFree(blocks[y]))
    ensures PhisPlaced(blocks', v)
  {
    hide WithPhis, PlacedRight, VarsExact, PhiFree, InFrontier, HasPhi, Defines;
    var g := SuccsOf(blocks);
    SameSuccs(blocks, placed, names, blocks');
    forall b: nat, y: nat | Reachable(g, b) && Defines(blocks', b, v) && InFrontier(g, b, y) ensures HasPhi(blocks', y, v) {
      InsertionPlacesPhi(blocks, vars, placed, names, blocks', v, b, y);
    }
  }

  lemma InsertionPlacesPhi(blocks: seq<CFGBlock>, vars: map<string, set<nat>>, placed: map<string, set<nat>>,
                           names: seq<seq<string>>, blocks': seq<CFGBlock>, v: string, b: nat, y: nat)
    requires WithPhis(blocks, placed, names, blocks') && PlacedRight(SuccsOf(blocks), vars, placed)
    requires VarsExact(blocks, vars) && (forall y :: 0 <= y < |blocks| ==> PhiFree(blocks[y]))
    requires Reachable(SuccsOf(blocks), b) && Defines(blocks', b, v) && InFrontier(SuccsOf(blocks), b, y)
    ensures HasPhi(blocks', y, v)
  {
    hide PhiFree, PhisAdded, IsIteratedFrontier;
    OnePhiEach(blocks, placed, names, blocks', b, v);
    OnePhiEach(blocks, placed, names, blocks', y, v);
    AssignsMeans(blocks[b], v);
    assert (v in vars && b in vars[v]) <==> Assigns(blocks[b], v);
    assert v in vars && b in vars[v] + placed[v];
    FrontierClosed(SuccsOf(blocks), vars[v], placed[v], b, y);
  }

  lemma FrontierClosed(g: Graph, s: set<nat>, t: set<nat>, b: nat, y: nat)
    requires s <= AllBlocks(g) && IsIteratedFrontier(FrontierTable(g), s, t)
    requires b in s + t && Reachable(g, b) && InFrontier(g, b, y)
    ensures y in t
  {
    assert y in FrontierTable(g)[b];
    assert y in Merged(FrontierTable(g), s + t);
  }

  // ---------------------------------------------------------------- the stack is never read empty

  /** With phis in the blocks of `t`, block `b` takes the value of `name` from above: it reads it before
      assigning it, or hands it on to a phi of a successor. */
  ghost predicate LooksUp(blocks: seq<CFGBlock>, t: set<nat>, b: nat, name: string) {
    && b < |blocks| && b !in t
    && ((exists i :: ReadsIncoming(blocks[b].statements, i, name))
        || (CountAssigns(blocks[b].statements, name) == 0 && exists y :: y in blocks[b].succs && y in t))
  }

  /** Block `d` gets a phi for `name` or assigns it. */
  ghost predicate Provides(blocks: seq<CFGBlock>, t: set<nat>, d: nat, name: string) {
    d < |blocks| && (d in t || CountAssigns(blocks[d].statements, name) > 0)
  }

  ghost predicate ProvidedAbove(blocks: seq<CFGBlock>, t: set<nat>, b: nat, name: string) {
    exists d :: SDom(SuccsOf(blocks), d, b) && Provides(blocks, t, d, name)
  }

  ghost predicate Supplied(blocks: seq<CFGBlock>, t: set<nat>, name: string) {
    forall b :: Reachable(SuccsOf(blocks), b) && LooksUp(blocks, t, b, name) ==> ProvidedAbove(blocks, t, b, name)
  }

  /** What the renaming demands of the program: no read and no phi argument finds the stack empty. */
  ghost predicate NeverEmpty(blocks: seq<CFGBlock>, vars: map<string, set<nat>>) {
    var g := SuccsOf(blocks);
    forall v, t :: v in vars && vars[v] <= AllBlocks(g) && IsIteratedFrontier(FrontierTable(g), vars[v], t) ==> Supplied(blocks, t, v)
  }

  /** Entry assigns the variable before it reads it: a simple way to meet the demand. */
  ghost predicate AssignedFirst(blocks: seq<CFGBlock>, name: string) {
    && |blocks| > 0 && CountAssigns(blocks[0].statements, name) > 0
    && forall i: nat :: !ReadsIncoming(blocks[0].statements, i, name)
  }

  lemma AssignedFirstIsSupplied(blocks: seq<CFGBlock>, t: set<nat>, v: string)
    requires AssignedFirst(blocks, v)
    ensures Supplied(blocks, t, v)
  {
    var g := SuccsOf(blocks);
    forall b | Reachable(g, b) && LooksUp(blocks, t, b, v) ensures ProvidedAbove(blocks, t, b, v) {
      if b != 0 {
        EntryDominates(g, b);
        assert SDom(g, 0, b) && Provides(blocks, t, 0, v);
      }
    }
  }

  lemma AssignedFirstNeverEmpty(blocks: seq<CFGBlock>, vars: map<string, set<nat>>)
    requires forall v :: v in vars ==> AssignedFirst(blocks, v)
    ensures NeverEmpty(blocks, vars)
  {
    hide AssignedFirst, Supplied;
    forall v, t: set<nat> | v in vars ensures Supplied(blocks, t, v) { AssignedFirstIsSupplied(blocks, t, v); }
  }

  /** A read of the value from above, before and after the phis are put in front. */
  lemma ReadAfterPhis(block: CFGBlock, y: nat, placed: map<string, set<nat>>, names: seq<string>, block': CFGBlock, i: nat, v: string)
    requires PhisAdded(block, y, placed, names, block')
    ensures ReadsIncoming(block'.statements, i, v) <==>
            v !in names && |names| <= i && ReadsIncoming(block.statements, i - |names|, v)
  {
    var n, s, s' := |names|, block.statements, block'.statements;
    var phis := Phis(names, block.preds);
    assert s' == phis + s;
    if n <= i <= |s'| {
      assert s'[..i] == phis + s[..i - n];
      CountJoin(phis, s[..i - n], v);
      CountNewPhis(names, block.preds, v);
    }
  }

  /** A phi of block `y` that takes an argument for `b`. */
  lemma PhiTakes(block: CFGBlock, y: nat, placed: map<string, set<nat>>, names: seq<string>, block': CFGBlock, b: nat, v: string)
    requires PhisAdded(block, y, placed, names, block') && PhiFree(block)
    ensures (exists i :: 0 <= i < |block'.statements| && TakesArg(block'.statements[i], b, v)) <==> v in names && b in block.preds
  {
    var n, s' := |names|, block'.statements;
    forall i | n <= i < |s'| ensures !s'[i].IRPhiNode? { assert s'[i] == block.statements[i - n]; }
    if i :| 0 <= i < |s'| && TakesArg(s'[i], b, v) {
      assert s'[i] == PhiFor(names[i], block.preds);
    }
    if v in names && b in block.preds {
      var i :| 0 <= i < |names| && names[i] == v;
      assert s'[i] == PhiFor(v, block.preds);
      assert TakesArg(s'[i], b, v);
    }
  }

  lemma PhiNames(blocks: seq<CFGBlock>, placed: map<string, set<nat>>, names: seq<seq<string>>, blocks': seq<CFGBlock>, y: nat, v: string)
    requires WithPhis(blocks, placed, names, blocks') && y < |blocks| && v in placed
    ensures v in names[y] <==> y in placed[v]
  {
    assert PhisAdded(blocks[y], y, placed, names[y], blocks'[y]);
  }

  /** The blocks that take the value from above are those that read the stack on entry. */
  lemma LooksUpMeans(blocks: seq<CFGBlock>, placed: map<string, set<nat>>, names: seq<seq<string>>, blocks': seq<CFGBlock>, b: nat, v: string)
    requires WithPhis(blocks, placed, names, blocks') && Mirrored(blocks) && v in placed && b < |blocks|
    requires forall y :: 0 <= y < |blocks| ==> PhiFree(blocks[y])
    ensures LooksUp(blocks, placed[v], b, v) <==> NeedsIncoming(blocks', b, v)
  {
    hide Mirrored, PhiFree;
    assert PhisAdded(blocks[b], b, placed, names[b], blocks'[b]);
    PhiNames(blocks, placed, names, blocks', b, v);
    OnePhiEach(blocks, placed, names, blocks', b, v);
    ReadsAfterPhis(blocks[b], b, placed, names[b], blocks'[b], v);
    FeedsMeans(blocks, placed, names, blocks', b, v);
  }

  lemma ReadsAfterPhis(block: CFGBlock, y: nat, placed: map<string, set<nat>>, names: seq<string>, block': CFGBlock, v: string)
    requires PhisAdded(block, y, placed, names, block')
    ensures (exists i :: ReadsIncoming(block'.statements, i, v)) <==> v !in names && exists i :: ReadsIncoming(block.statements, i, v)
  {
    hide ReadsIncoming;
    if i: nat :| ReadsIncoming(block'.statements, i, v) { ReadAfterPhis(block, y, placed, names, block', i, v); }
    if v !in names {
      if i: nat :| ReadsIncoming(block.statements, i, v) { ReadAfterPhis(block, y, placed, names, block', i + |names|, v); }
    }
  }

  lemma FeedsMeans(blocks: seq<CFGBlock>, placed: map<string, set<nat>>, names: seq<seq<string>>, blocks': seq<CFGBlock>, b: nat, v: string)
    requires WithPhis(blocks, placed, names, blocks') && Mirrored(blocks) && v in placed && b < |blocks|
    requires forall y :: 0 <= y < |blocks| ==> PhiFree(blocks[y])
    ensures FeedsPhi(blocks', b, v) <==> exists y :: y in blocks[b].succs && y in placed[v]
  {
    hide Mirrored, PhiFree, TakesArg, PhisAdded;
    SuccsKept(blocks, placed, names, blocks', b);
    if FeedsPhi(blocks', b, v) {
      var y, i :| y in blocks'[b].succs && y < |blocks'| && 0 <= i < |blocks'[y].statements| && TakesArg(blocks'[y].statements[i], b, v);
      PhiTakes(blocks[y], y, placed, names[y], blocks'[y], b, v);
      PhiNames(blocks, placed, names, blocks', y, v);
    }
    if y :| y in blocks[b].succs && y in placed[v] {
      LinkedBack(blocks, b, y);
      PhiTakes(blocks[y], y, placed, names[y], blocks'[y], b, v);
      PhiNames(blocks, placed, names, blocks', y, v);
      var i :| 0 <= i < |blocks'[y].statements| && TakesArg(blocks'[y].statements[i], b, v);
    }
  }

  lemma SuccsKept(blocks: seq<CFGBlock>, placed: map<string, set<nat>>, names: seq<seq<string>>, blocks': seq<CFGBlock>, b: nat)
    requires WithPhis(blocks, placed, names, blocks') && b < |blocks|
    ensures blocks'[b].succs == blocks[b].succs && PhisAdded(blocks[b], b, placed, names[b], blocks'[b])
  {
    assert PhisAdded(blocks[b], b, placed, names[b], blocks'[b]);
  }

  lemma LinkedBack(blocks: seq<CFGBlock>, b: nat, y: nat)
    requires Mirrored(blocks) && b < |blocks| && y in blocks[b].succs
    ensures y < |blocks| && b in blocks[y].preds
  {
    assert HasSucc(blocks, b, y);
    assert HasPred(blocks, y, b);
  }

  /** The demand on the program is exactly that every read of the graph with phis has a definition above it. */
  lemma SuppliedIsStrict(blocks: seq<CFGBlock>, placed: map<string, set<nat>>, names: seq<seq<string>>, blocks': seq<CFGBlock>, v: string)
    requires WithPhis(blocks, placed, names, blocks') && Mirrored(blocks) && v in placed
    requires forall y :: 0 <= y < |blocks| ==> PhiFree(blocks[y])
    ensures Supplied(blocks, placed[v], v) <==> Strict(blocks', v)
  {
    hide Mirrored, PhiFree, WithPhis, LooksUp, NeedsIncoming, ProvidedAbove, DefinedAbove;
    var g := SuccsOf(blocks);
    SameSuccs(blocks, placed, names, blocks');
    forall b | Reachable(g, b)
      ensures LooksUp(blocks, placed[v], b, v) <==> NeedsIncoming(blocks', b, v)
      ensures ProvidedAbove(blocks, placed[v], b, v) <==> DefinedAbove(blocks', b, v)
    {
      ReachableInRange(g, b);
      LooksUpMeans(blocks, placed, names, blocks', b, v);
      ProvidedMeans(blocks, placed, names, blocks', b, v);
    }
  }

  lemma SameSuccs(blocks: seq<CFGBlock>, placed: map<string, set<nat>>, names: seq<seq<string>>, blocks': seq<CFGBlock>)
    requires WithPhis(blocks, placed, names, blocks')
    ensures SuccsOf(blocks') == SuccsOf(blocks)
  {
    forall b: nat | b < |blocks| ensures blocks'[b].succs == blocks[b].succs { SuccsKept(blocks, placed, names, blocks', b); }
  }

  /** The demand depends on code and edges only. */
  lemma NeverEmptyKept(blocks: seq<CFGBlock>, tree: seq<CFGBlock>, vars: map<string, set<nat>>)
    requires NeverEmpty(blocks, vars) && SameCode(blocks, tree)
    ensures NeverEmpty(tree, vars)
  {
    SameCodeSameGraph(blocks, tree);
    var g := SuccsOf(tree);
    forall v, t | v in vars && vars[v] <= AllBlocks(g) && IsIteratedFrontier(FrontierTable(g), vars[v], t) ensures Supplied(tree, t, v) {
      assert Supplied(blocks, t, v);
      SuppliedKept(blocks, tree, t, v);
    }
  }

  lemma SuppliedKept(blocks: seq<CFGBlock>, tree: seq<CFGBlock>, t: set<nat>, v: string)
    requires Supplied(blocks, t, v) && SameCode(blocks, tree)
    ensures Supplied(tree, t, v)
  {
    hide ReadsIncoming;
    SameCodeSameGraph(blocks, tree);
    forall b: nat | b < |blocks| ensures tree[b].statements == blocks[b].statements && tree[b].succs == blocks[b].succs {}
    forall b | Reachable(SuccsOf(tree), b) && LooksUp(tree, t, b, v) ensures ProvidedAbove(tree, t, b, v) {
      assert LooksUp(blocks, t, b, v);
      var d :| SDom(SuccsOf(blocks), d, b) && Provides(blocks, t, d, v);
      assert Provides(tree, t, d, v);
    }
  }

  lemma PlacedSupplied(blocks: seq<CFGBlock>, vars: map<string, set<nat>>, placed: map<string, set<nat>>, v: string)
    requires NeverEmpty(blocks, vars) && PlacedRight(SuccsOf(blocks), vars, placed) && v in vars
    ensures v in placed && Supplied(blocks, placed[v], v)
  {
  }

  lemma ProvidedMeans(blocks: seq<CFGBlock>, placed: map<string, set<nat>>, names: seq<seq<string>>, blocks': seq<CFGBlock>, b: nat, v: string)
    requires WithPhis(blocks, placed, names, blocks') && v in placed
    requires forall y :: 0 <= y < |blocks| ==> PhiFree(blocks[y])
    ensures ProvidedAbove(blocks, placed[v], b, v) <==> DefinedAbove(blocks', b, v)
  {
    hide PhiFree, PhisAdded;
    SameSuccs(blocks, placed, names, blocks');
    forall d: nat | d < |blocks| ensures Provides(blocks, placed[v], d, v) <==> Defines(blocks', d, v) {
      OnePhiEach(blocks, placed, names, blocks', d, v);
    }
  }

  // ---------------------------------------------------------------- the whole pass

  /** CFGBuilder::BuildSSAForm. */
  method BuildSSAForm(cfg: CFG, vars: map<string, set<nat>>)
    requires TreeOk(cfg.BasicBlocks)
    requires forall b :: 0 <= b < |cfg.BasicBlocks| ==> Distinct(cfg.BasicBlocks[b].succs)
    requires forall v :: v in vars ==> Strict(cfg.BasicBlocks, v) && PhisPlaced(cfg.BasicBlocks, v)
    modifies cfg`BasicBlocks
    ensures SameShape(old(cfg.BasicBlocks), cfg.BasicBlocks)
    ensures forall v :: v in vars ==> InSsaForm(cfg.BasicBlocks, v)
  {
    hide TreeOk, Strict, PhisPlaced, SameShape, InSsaForm, IsRenaming, IndicesApart;
    ghost var blocks := cfg.BasicBlocks;
    ShapeReflexive(blocks);
    var builder := new SSABuilder(cfg);
    var rest := vars.Keys;
    while rest != {}
      invariant rest <= vars.Keys && SameShape(blocks, cfg.BasicBlocks) && builder.CFGraph == cfg && fresh(builder)
      invariant forall v :: v in vars && v !in rest ==> InSsaForm(cfg.BasicBlocks, v)
      decreases rest
    {
      var v :| v in rest;
      rest := rest - {v};
      ghost var before := cfg.BasicBlocks;
      ReadyAgain(blocks, before, v);
      ghost var visits := builder.RenameVarToSSAForm(v);
      RenamingGivesSsa(before, v, visits, cfg.BasicBlocks, builder.Counter);
      AnnotatedShape(before, v, visits, cfg.BasicBlocks);
      SameShapeTransitive(blocks, before, cfg.BasicBlocks);
      forall w | w in vars && w !in rest ensures InSsaForm(cfg.BasicBlocks, w) {
        if w != v { RenamingKeepsSsa(before, v, visits, cfg.BasicBlocks, w); }
      }
    }
  }

  lemma ShapeReflexive(f: seq<CFGBlock>)
    ensures SameShape(f, f)
  {
    forall y | 0 <= y < |f| ensures SameBlock(f[y], f[y]) {}
  }

  lemma ReadyAgain(f: seq<CFGBlock>, g: seq<CFGBlock>, v: string)
    requires SameShape(f, g) && TreeOk(f) && Strict(f, v) && PhisPlaced(f, v)
    requires forall b :: 0 <= b < |f| ==> Distinct(f[b].succs)
    ensures TreeOk(g) && Strict(g, v) && PhisPlaced(g, v)
    ensures forall b :: 0 <= b < |g| ==> Distinct(g[b].succs)
  {
    ShapeGraph(f, g);
    ShapeTree(f, g);
    ShapeStrict(f, g, v);
    ShapePlaced(f, g, v);
  }
}
