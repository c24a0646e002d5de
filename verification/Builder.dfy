/** CFGBuilder: the walk over the syntax tree that creates blocks, links and statements. */
module Builder {
  import opened Common
  import opened Ir
  import opened Dominance
  import opened Cfg
  import opened Lowering

  // ---------------------------------------------------------------- shape of a graph being built

  ghost predicate HasSucc(blocks: seq<CFGBlock>, a: nat, b: nat) {
    a < |blocks| && b in blocks[a].succs
  }

  ghost predicate HasPred(blocks: seq<CFGBlock>, b: nat, a: nat) {
    b < |blocks| && a in blocks[b].preds
  }

  ghost predicate LinksOk(block: CFGBlock, n: nat) {
    && Distinct(block.succs) && Distinct(block.preds)
    && (forall s :: s in block.succs ==> s < n) && (forall p :: p in block.preds ==> p < n)
  }

  /** Predecessor lists mirror successor lists and neither repeats a block. */
  ghost predicate Mirrored(blocks: seq<CFGBlock>) {
    && (forall a, b :: HasSucc(blocks, a, b) <==> HasPred(blocks, b, a))
    && (forall a :: 0 <= a < |blocks| ==> LinksOk(blocks[a], |blocks|))
  }

  /** An edge between two positions of `order`. */
  ghost predicate Link(blocks: seq<CFGBlock>, order: seq<nat>, i: int, k: int) {
    0 <= i < |order| && 0 <= k < |order| && order[i] < |blocks| && order[k] in blocks[order[i]].succs
  }

  ghost predicate HasEarlierPred(blocks: seq<CFGBlock>, order: seq<nat>, j: int) {
    exists i :: i < j && Link(blocks, order, i, j)
  }

  ghost predicate StatementFits(block: CFGBlock, s: IRNode) {
    match s
    case IRAssignment(_, _) => true
    case IRBranch(None, target, no) => target in block.succs && no == None
    case IRBranch(Some(_), yes, no) => yes in block.succs && no.Some? && no.value in block.succs
    case IRPhiNode(_, _) => false
  }

  /** `order` lists the blocks in the order in which they became current. It is topological, starts
      with Entry, and every later block has an earlier predecessor; blocks not yet current are empty. */
  ghost predicate Ordered(blocks: seq<CFGBlock>, order: seq<nat>) {
    && Distinct(order) && |order| > 0 && order[0] == 0
    && (forall i :: 0 <= i < |order| ==> order[i] < |blocks|)
    && (forall i, k :: Link(blocks, order, i, k) ==> i < k)
    && (forall b :: 0 <= b < |blocks| && b !in order ==> blocks[b].succs == [] && blocks[b].statements == [])
    && (forall j :: 0 < j < |order| ==> HasEarlierPred(blocks, order, j))
  }

  ghost predicate BlockFits(block: CFGBlock) {
    && block.dominator == None && block.dominatingBlocks == []
    && forall k :: 0 <= k < |block.statements| ==> StatementFits(block, block.statements[k])
  }

  ghost predicate AllFit(blocks: seq<CFGBlock>) {
    forall b :: 0 <= b < |blocks| ==> BlockFits(blocks[b])
  }

  ghost predicate Shape(blocks: seq<CFGBlock>, order: seq<nat>) {
    Mirrored(blocks) && Ordered(blocks, order) && AllFit(blocks)
  }

  ghost predicate Assigns(block: CFGBlock, name: string) {
    exists k :: 0 <= k < |block.statements| && block.statements[k].IRAssignment?
      && block.statements[k].variable.name == name
  }

  /** BlocksForVariable names exactly the blocks that assign each variable. */
  ghost predicate VarsExact(blocks: seq<CFGBlock>, vars: map<string, set<nat>>) {
    forall name, b :: 0 <= b < |blocks| ==>
      ((name in vars && b in vars[name]) <==> Assigns(blocks[b], name))
  }

  ghost predicate VarsInRange(blocks: seq<CFGBlock>, vars: map<string, set<nat>>) {
    forall name, b :: name in vars && b in vars[name] ==> b < |blocks|
  }

  // ---------------------------------------------------------------- regions

  /** The block at position `j` has successors, all of them already current. */
  ghost predicate Leaves(blocks: seq<CFGBlock>, order: seq<nat>, j: int) {
    && 0 <= j < |order| && order[j] < |blocks| && blocks[order[j]].succs != []
    && forall s :: s in blocks[order[j]].succs ==> s in order
  }

  /** The positions lo..hi of `order` are entered only through `lo` and left only through `hi`. */
  ghost predicate Region(blocks: seq<CFGBlock>, order: seq<nat>, lo: nat, hi: nat) {
    && lo <= hi < |order|
    && (forall i, j :: Link(blocks, order, i, j) && lo < j <= hi ==> lo <= i)
    && (forall j, k :: Link(blocks, order, j, k) && lo <= j < hi ==> k <= hi)
    && (forall j :: lo <= j < hi ==> Leaves(blocks, order, j))
  }

  /** One conditional: `order[p]` branches to the arms p+1..ht and ht+1..he, which join in he+1. */
  datatype IfRecord = IfRecord(p: nat, ht: nat, he: nat)

  ghost predicate RecordOk(blocks: seq<CFGBlock>, order: seq<nat>, r: IfRecord)
  {
    && r.p < r.ht < r.he && r.he + 1 < |order|
    && (forall i :: 0 <= i < |order| ==> order[i] < |blocks|)
    && Region(blocks, order, r.p + 1, r.ht) && Region(blocks, order, r.ht + 1, r.he)
    && var x, t, te, e, ee, m := order[r.p], order[r.p + 1], order[r.ht], order[r.ht + 1], order[r.he], order[r.he + 1];
       && t < e < m
       && blocks[x].succs == [t, e] && blocks[te].succs == [m] && blocks[ee].succs == [m]
       && blocks[t].preds == [x] && blocks[e].preds == [x] && blocks[m].preds == [te, ee]
  }

  /** No conditional inside a then-arm. */
  predicate ThenFlat(node: ASTNode) {
    match node
    case ASTIf(_, t, e) => IfFree(t) && ThenFlat(e)
    case ASTBinary(_, l, r) => ThenFlat(l) && ThenFlat(r)
    case _ => true
  }

  predicate IfFree(node: ASTNode) {
    match node
    case ASTIf(_, _, _) => false
    case ASTBinary(_, l, r) => IfFree(l) && IfFree(r)
    case _ => true
  }

  /** `records` describe the conditionals met between positions lo and hi. */
  ghost predicate Recorded(blocks: seq<CFGBlock>, order: seq<nat>, lo: nat, hi: nat, records: seq<IfRecord>)
  {
    && (forall k :: 0 <= k < |records| ==> RecordIn(blocks, order, lo, hi, records[k]))
    && (forall k, l :: 0 <= k < l < |records| ==> records[k].p != records[l].p)
    && (forall j :: lo < j <= hi ==> Covered(records, j))
  }

  ghost predicate RecordIn(blocks: seq<CFGBlock>, order: seq<nat>, lo: nat, hi: nat, r: IfRecord) {
    RecordOk(blocks, order, r) && lo <= r.p && r.he < hi
  }

  ghost predicate Covers(r: IfRecord, j: nat) {
    j == r.p + 1 || j == r.ht + 1 || j == r.he + 1
  }

  ghost predicate Covered(records: seq<IfRecord>, j: nat) {
    exists k :: 0 <= k < |records| && Covers(records[k], j)
  }

  // ---------------------------------------------------------------- states of the builder

  datatype BState = BState(blocks: seq<CFGBlock>, cur: nat, vars: map<string, set<nat>>, order: seq<nat>)

  ghost predicate Inv(s: BState) {
    && Shape(s.blocks, s.order) && s.cur == s.order[|s.order| - 1]
    && s.blocks[s.cur].succs == []
    && VarsExact(s.blocks, s.vars) && VarsInRange(s.blocks, s.vars)
  }

  /** Only the current block and new blocks changed; the new blocks all became current. */
  ghost predicate Frame(s: BState, s': BState) {
    && s.order <= s'.order && |s.order| > 0 && s.order[|s.order| - 1] == s.cur
    && Extends(s.blocks, s'.blocks)
    && (forall b :: 0 <= b < |s.blocks| && b != s.cur ==> s'.blocks[b] == s.blocks[b])
    && (forall b :: 0 <= b < |s.blocks| && b !in s.order ==> b !in s'.order)
    && (forall b :: |s.blocks| <= b < |s'.blocks| ==> b in s'.order)
    && (s.cur < |s.blocks| ==> s'.blocks[s.cur].preds == s.blocks[s.cur].preds)
  }

  ghost predicate Lowered(node: ASTNode, s: BState, s': BState, records: seq<IfRecord>)
    requires Inv(s) && Inv(s')
  {
    && Frame(s, s')
    && Region(s'.blocks, s'.order, |s.order| - 1, |s'.order| - 1)
    && Recorded(s'.blocks, s'.order, |s.order| - 1, |s'.order| - 1, records)
    && (ThenFlat(node) ==> forall k :: 0 <= k < |records| ==> records[k].ht == records[k].p + 1)
    && (IfFree(node) ==> s'.order == s.order)
    && Implements(s'.blocks, node, End(s.blocks, s.cur), End(s'.blocks, s'.cur))
  }

  // ---------------------------------------------------------------- the primitive changes

  function WithLink(blocks: seq<CFGBlock>, pred: nat, succ: nat): (r: seq<CFGBlock>)
    requires pred < |blocks| && succ < |blocks|
  {
    var a := if pred in blocks[succ].preds then blocks
             else blocks[succ := blocks[succ].(preds := blocks[succ].preds + [pred])];
    if succ in a[pred].succs then a else a[pred := a[pred].(succs := a[pred].succs + [succ])]
  }

  function WithStatement(blocks: seq<CFGBlock>, b: nat, s: IRNode): (r: seq<CFGBlock>)
    requires b < |blocks|
  {
    blocks[b := blocks[b].(statements := blocks[b].statements + [s])]
  }

  function NewBlock(title: string): CFGBlock {
    CFGBlock(title, [], [], [], None, [])
  }

  lemma EarlierPredKept(blocks: seq<CFGBlock>, order: seq<nat>, blocks': seq<CFGBlock>, order': seq<nat>, j: nat)
    requires 0 < j < |order| && order <= order' && |blocks| <= |blocks'|
    requires forall i :: 0 <= i < |order| ==> order[i] < |blocks|
    requires forall i :: 0 <= i < |order'| ==> order'[i] < |blocks'|
    requires forall b :: 0 <= b < |blocks| ==> blocks[b].succs <= blocks'[b].succs
    requires HasEarlierPred(blocks, order, j)
    ensures HasEarlierPred(blocks', order', j)
  {
    var i :| i < j && Link(blocks, order, i, j);
    assert Link(blocks', order', i, j);
  }

  lemma OrderedKept(blocks: seq<CFGBlock>, order: seq<nat>, blocks': seq<CFGBlock>)
    requires Ordered(blocks, order) && |blocks| <= |blocks'|
    requires forall b :: 0 <= b < |blocks| ==> blocks[b].succs <= blocks'[b].succs
    requires forall b, s :: 0 <= b < |blocks| && s in blocks'[b].succs && s !in blocks[b].succs ==> s !in order
    requires forall b :: 0 <= b < |blocks'| && b !in order ==> blocks'[b].succs == [] && blocks'[b].statements == []
    ensures Ordered(blocks', order)
  {
    forall j | 0 < j < |order| ensures HasEarlierPred(blocks', order, j) {
      EarlierPredKept(blocks, order, blocks', order, j);
    }
    forall i, k | Link(blocks', order, i, k) ensures i < k {
      assert order[k] in order;
      assert Link(blocks, order, i, k);
    }
  }

  lemma ShapeNewBlock(blocks: seq<CFGBlock>, order: seq<nat>, title: string)
    requires Shape(blocks, order)
    ensures Shape(blocks + [NewBlock(title)], order)
  {
    var blocks' := blocks + [NewBlock(title)];
    assert forall a :: 0 <= a < |blocks| ==> blocks'[a] == blocks[a];
    MirroredSame(blocks, blocks');
    OrderedKept(blocks, order, blocks');
  }

  lemma MirroredLink(blocks: seq<CFGBlock>, pred: nat, succ: nat)
    requires Mirrored(blocks) && pred < |blocks| && succ < |blocks|
    ensures Mirrored(WithLink(blocks, pred, succ))
    ensures if succ in blocks[pred].succs then WithLink(blocks, pred, succ) == blocks
            else pred !in blocks[succ].preds
  {
    var blocks' := WithLink(blocks, pred, succ);
    assert HasSucc(blocks, pred, succ) <==> HasPred(blocks, succ, pred);
    if succ !in blocks[pred].succs {
      forall a, b ensures HasSucc(blocks', a, b) <==> HasPred(blocks', b, a) {
        assert HasSucc(blocks', a, b) <==> HasSucc(blocks, a, b) || (a == pred && b == succ);
        assert HasPred(blocks', b, a) <==> HasPred(blocks, b, a) || (a == pred && b == succ);
      }
      forall a | 0 <= a < |blocks'| ensures LinksOk(blocks'[a], |blocks'|) {
        assert LinksOk(blocks[a], |blocks|);
      }
    }
  }

  /** Statements and fresh blocks leave the links mirrored. */
  lemma MirroredSame(blocks: seq<CFGBlock>, blocks': seq<CFGBlock>)
    requires Mirrored(blocks) && |blocks| <= |blocks'|
    requires forall a :: 0 <= a < |blocks| ==> blocks'[a].succs == blocks[a].succs && blocks'[a].preds == blocks[a].preds
    requires forall a :: |blocks| <= a < |blocks'| ==> blocks'[a].succs == [] && blocks'[a].preds == []
    ensures Mirrored(blocks')
  {
    forall a, b ensures HasSucc(blocks', a, b) <==> HasPred(blocks', b, a) {
      assert HasSucc(blocks', a, b) <==> HasSucc(blocks, a, b);
      assert HasPred(blocks', b, a) <==> HasPred(blocks, b, a);
    }
    forall a | 0 <= a < |blocks'| ensures LinksOk(blocks'[a], |blocks'|) {
      if a < |blocks| { assert LinksOk(blocks[a], |blocks|); }
    }
  }

  /** Linking the current block to a block that is not current yet. */
  lemma ShapeLink(blocks: seq<CFGBlock>, order: seq<nat>, target: nat)
    requires Shape(blocks, order) && target < |blocks| && target !in order
    ensures Shape(WithLink(blocks, order[|order| - 1], target), order)
  {
    var cur := order[|order| - 1];
    var blocks' := WithLink(blocks, cur, target);
    MirroredLink(blocks, cur, target);
    OrderedKept(blocks, order, blocks');
    forall b | 0 <= b < |blocks'| ensures BlockFits(blocks'[b]) {
      FitsKept(blocks[b], blocks'[b]);
    }
  }

  lemma FitsKept(block: CFGBlock, block': CFGBlock)
    requires BlockFits(block) && block.succs <= block'.succs && block.statements == block'.statements
    requires block'.dominator == None && block'.dominatingBlocks == []
    ensures BlockFits(block')
  {
    forall k | 0 <= k < |block'.statements| ensures StatementFits(block', block'.statements[k]) {
      assert StatementFits(block, block.statements[k]);
    }
  }

  lemma ShapeStatement(blocks: seq<CFGBlock>, order: seq<nat>, s: IRNode)
    requires Shape(blocks, order) && StatementFits(blocks[order[|order| - 1]], s)
    ensures Shape(WithStatement(blocks, order[|order| - 1], s), order)
    ensures Extends(blocks, WithStatement(blocks, order[|order| - 1], s))
  {
    var cur := order[|order| - 1];
    var blocks' := WithStatement(blocks, cur, s);
    assert forall b :: 0 <= b < |blocks| ==> blocks'[b].succs == blocks[b].succs && blocks'[b].preds == blocks[b].preds;
    MirroredSame(blocks, blocks');
    OrderedKept(blocks, order, blocks');
    forall k | 0 <= k < |blocks'[cur].statements|
      ensures StatementFits(blocks'[cur], blocks'[cur].statements[k])
    {
      assert BlockFits(blocks[cur]);
      if k < |blocks[cur].statements| { assert StatementFits(blocks[cur], blocks[cur].statements[k]); }
    }
  }

  /** A linked block becomes current. */
  lemma ShapeActivate(blocks: seq<CFGBlock>, order: seq<nat>, b: nat, i: nat)
    requires Shape(blocks, order) && b < |blocks| && b !in order
    requires i < |order| && b in blocks[order[i]].succs
    ensures Shape(blocks, order + [b])
  {
    var order' := order + [b];
    forall j | 0 < j < |order'| ensures HasEarlierPred(blocks, order', j) {
      if j < |order| {
        EarlierPredKept(blocks, order, blocks, order', j);
      } else {
        assert Link(blocks, order', i, j);
      }
    }
    assert blocks[b].succs == [];
    forall k, l | Link(blocks, order', k, l) ensures k < l {
      if k < |order| && l < |order| { assert Link(blocks, order, k, l); }
    }
  }

  // ---------------------------------------------------------------- regions are kept and composed

  lemma RegionKept(blocks: seq<CFGBlock>, order: seq<nat>, blocks': seq<CFGBlock>, order': seq<nat>, lo: nat, hi: nat)
    requires Ordered(blocks, order) && Ordered(blocks', order') && order <= order'
    requires Region(blocks, order, lo, hi)
    requires forall i :: 0 <= i < hi ==> blocks'[order[i]].succs == blocks[order[i]].succs
    ensures Region(blocks', order', lo, hi)
  {
    forall i, j | Link(blocks', order', i, j) && lo < j <= hi ensures lo <= i {
      if i < hi { assert Link(blocks, order, i, j); }
    }
    forall j | lo <= j < hi ensures Leaves(blocks', order', j) {
      assert Leaves(blocks, order, j);
    }
    forall j, k | Link(blocks', order', j, k) && lo <= j < hi ensures k <= hi {
      LinkBack(blocks, order, blocks', order', j, k);
    }
  }

  lemma LinkBack(blocks: seq<CFGBlock>, order: seq<nat>, blocks': seq<CFGBlock>, order': seq<nat>, j: int, k: int)
    requires order <= order' && Distinct(order') && 0 <= j < |order|
    requires Leaves(blocks, order, j) && Link(blocks', order', j, k)
    requires blocks'[order[j]].succs == blocks[order[j]].succs
    ensures Link(blocks, order, j, k)
  {
    var l :| 0 <= l < |order| && order[l] == order'[k];
    assert order'[l] == order'[k];
  }

  lemma RegionJoin(blocks: seq<CFGBlock>, order: seq<nat>, lo: nat, mid: nat, hi: nat)
    requires Region(blocks, order, lo, mid) && Region(blocks, order, mid, hi)
    ensures Region(blocks, order, lo, hi)
  {
  }

  lemma LinkPred(blocks: seq<CFGBlock>, order: seq<nat>, i: int, j: int)
    requires Mirrored(blocks) && Link(blocks, order, i, j)
    ensures order[j] < |blocks| && order[i] in blocks[order[j]].preds
  {
    assert HasSucc(blocks, order[i], order[j]);
    assert HasPred(blocks, order[j], order[i]);
  }

  lemma RegionIf(blocks: seq<CFGBlock>, order: seq<nat>, r: IfRecord)
    requires Mirrored(blocks) && Ordered(blocks, order) && RecordOk(blocks, order, r)
    ensures Region(blocks, order, r.p, r.he + 1)
  {
    forall i, j | Link(blocks, order, i, j) && r.p < j <= r.he + 1 ensures r.p <= i {
      LinkPred(blocks, order, i, j);
    }
    forall j, k | Link(blocks, order, j, k) && r.p <= j < r.he + 1 ensures k <= r.he + 1 {
    }
    forall j | r.p <= j < r.he + 1 ensures Leaves(blocks, order, j) {
      IfLeaves(blocks, order, r, j);
    }
  }

  lemma IfLeaves(blocks: seq<CFGBlock>, order: seq<nat>, r: IfRecord, j: int)
    requires Ordered(blocks, order) && RecordOk(blocks, order, r) && r.p <= j <= r.he
    ensures Leaves(blocks, order, j)
  {
    assert order[r.p + 1] in order && order[r.ht + 1] in order && order[r.he + 1] in order;
  }

  /** A record stays right while the graph grows elsewhere. */
  lemma RecordKept(blocks: seq<CFGBlock>, order: seq<nat>, blocks': seq<CFGBlock>, order': seq<nat>, r: IfRecord)
    requires Ordered(blocks, order) && Ordered(blocks', order') && order <= order'
    requires RecordOk(blocks, order, r)
    requires forall i :: 0 <= i <= r.he ==> blocks'[order[i]].succs == blocks[order[i]].succs
    requires forall i :: 0 <= i <= r.he + 1 ==> blocks'[order[i]].preds == blocks[order[i]].preds
    ensures RecordOk(blocks', order', r)
  {
    hide Region, Ordered;
    RegionKept(blocks, order, blocks', order', r.p + 1, r.ht);
    RegionKept(blocks, order, blocks', order', r.ht + 1, r.he);
    OrderedRange(blocks', order');
    assert order'[r.p] == order[r.p] && order'[r.p + 1] == order[r.p + 1] && order'[r.ht] == order[r.ht];
    assert order'[r.ht + 1] == order[r.ht + 1] && order'[r.he] == order[r.he] && order'[r.he + 1] == order[r.he + 1];
  }

  lemma OrderedRange(blocks: seq<CFGBlock>, order: seq<nat>)
    requires Ordered(blocks, order)
    ensures forall i :: 0 <= i < |order| ==> order[i] < |blocks|
  {
  }

  /** After the current block changed, everything before it is as it was. */
  ghost predicate SameBefore(blocks: seq<CFGBlock>, order: seq<nat>, blocks': seq<CFGBlock>)
    requires |order| > 0 && forall i :: 0 <= i < |order| ==> order[i] < |blocks| && order[i] < |blocks'|
  {
    && (forall i :: 0 <= i < |order| - 1 ==> blocks'[order[i]].succs == blocks[order[i]].succs)
    && (forall i :: 0 <= i < |order| ==> blocks'[order[i]].preds == blocks[order[i]].preds)
  }

  lemma RecordedKept(blocks: seq<CFGBlock>, order: seq<nat>, blocks': seq<CFGBlock>, order': seq<nat>,
                     lo: nat, records: seq<IfRecord>)
    requires Ordered(blocks, order) && Ordered(blocks', order') && order <= order'
    requires SameBefore(blocks, order, blocks')
    requires Recorded(blocks, order, lo, |order| - 1, records)
    ensures Recorded(blocks', order', lo, |order| - 1, records)
  {
    forall k | 0 <= k < |records| ensures RecordIn(blocks', order', lo, |order| - 1, records[k]) {
      assert RecordIn(blocks, order, lo, |order| - 1, records[k]);
      RecordKept(blocks, order, blocks', order', records[k]);
    }
  }

  lemma RecordedJoin(blocks: seq<CFGBlock>, order: seq<nat>, lo: nat, mid: nat, hi: nat,
                     first: seq<IfRecord>, second: seq<IfRecord>)
    requires lo <= mid <= hi
    requires Recorded(blocks, order, lo, mid, first) && Recorded(blocks, order, mid, hi, second)
    ensures Recorded(blocks, order, lo, hi, first + second)
  {
    var all := first + second;
    forall k | 0 <= k < |all| ensures RecordIn(blocks, order, lo, hi, all[k]) {
      if k < |first| { assert RecordIn(blocks, order, lo, mid, first[k]); }
      else { assert RecordIn(blocks, order, mid, hi, second[k - |first|]); }
    }
    forall k, l | 0 <= k < l < |all| ensures all[k].p != all[l].p {
      if k < |first| <= l {
        assert RecordIn(blocks, order, lo, mid, first[k]);
        assert RecordIn(blocks, order, mid, hi, second[l - |first|]);
      }
    }
    forall j | lo < j <= hi ensures Covered(all, j) {
      if j <= mid {
        assert Covered(first, j);
        var k :| 0 <= k < |first| && Covers(first[k], j);
        assert all[k] == first[k];
      } else {
        assert Covered(second, j);
        var k :| 0 <= k < |second| && Covers(second[k], j);
        assert all[|first| + k] == second[k];
      }
    }
  }

  lemma FrameJoin(s: BState, s': BState, s'': BState)
    requires Inv(s) && Inv(s') && Inv(s'') && Frame(s, s') && Frame(s', s'')
    ensures Frame(s, s'')
  {
    hide Inv, Mirrored, Ordered;
    InvListed(s);
    InvListed(s');
    InvListed(s'');
    forall b: nat | b < |s.blocks| && b != s.cur ensures s''.blocks[b] == s.blocks[b] {
      ArmKeeps(s, s', b);
    }
    if s.cur != s'.cur { assert s''.blocks[s.cur] == s'.blocks[s.cur]; }
    forall b | |s.blocks| <= b < |s''.blocks| ensures b in s''.order {
      if b < |s'.blocks| { assert b in s'.order; }
    }
  }

  lemma FrameSameBefore(s: BState, s': BState)
    requires Inv(s) && Inv(s') && Frame(s, s')
    ensures SameBefore(s.blocks, s.order, s'.blocks)
  {
    forall i | 0 <= i < |s.order| - 1 ensures s'.blocks[s.order[i]] == s.blocks[s.order[i]] {
      assert s.order[i] != s.cur;
    }
  }

  // ---------------------------------------------------------------- the steps of CFGBuilder

  ghost function AfterAssign(s: BState, x: Symbol, e: ASTNode): (r: BState)
    requires s.cur < |s.blocks|
  {
    BState(WithStatement(s.blocks, s.cur, IRAssignment(x, e)), s.cur,
           s.vars[x.name := (if x.name in s.vars then s.vars[x.name] else {}) + {s.cur}], s.order)
  }

  /** The three blocks of a conditional exist, the current block branches, Then is current. */
  ghost function AfterBranch(s: BState, cond: ASTNode): (r: BState)
    requires s.cur < |s.blocks|
  {
    var n := |s.blocks|;
    var bs := s.blocks + [NewBlock("Then")] + [NewBlock("Else")] + [NewBlock("IfContinue")];
    BState(WithStatement(WithLink(WithLink(bs, s.cur, n), s.cur, n + 1), s.cur, IRBranch(Some(cond), n, Some(n + 1))),
           n, s.vars, s.order + [n])
  }

  /** The current block jumps to `target` and `next` is current. */
  ghost function AfterJump(s: BState, target: nat, next: nat): (r: BState)
    requires s.cur < |s.blocks| && target < |s.blocks|
  {
    BState(WithStatement(WithLink(s.blocks, s.cur, target), s.cur, IRBranch(None, target, None)),
           next, s.vars, s.order + [next])
  }

  /** The state a builder is in after a tree. */
  ghost function LoweredTo(node: ASTNode, s: BState): (r: BState) {
    match node
    case ASTAssign(x, e) => if s.cur < |s.blocks| then AfterAssign(s, x, e) else s
    case ASTIf(c, t, e) =>
      if s.cur >= |s.blocks| then s
      else
        var n := |s.blocks|;
        EndArm(LoweredTo(e, EndArm(LoweredTo(t, AfterBranch(s, c)), n + 2, n + 1)), n + 2, n + 2)
    case ASTBinary(_, l, r) => LoweredTo(r, LoweredTo(l, s))
    case _ => s
  }

  /** The jump at the end of an arm, where there is a block to jump from. */
  ghost function EndArm(s: BState, target: nat, next: nat): BState {
    if s.cur < |s.blocks| && target < |s.blocks| then AfterJump(s, target, next) else s
  }

  lemma LoweredIf(node: ASTNode, s: BState, s2: BState, s4: BState)
    requires node.ASTIf? && s.cur < |s.blocks| && s2 == LoweredTo(node.thenExp, AfterBranch(s, node.conditionExp))
    requires s2.cur < |s2.blocks| && |s.blocks| + 2 < |s2.blocks|
    requires s4 == LoweredTo(node.elseExp, AfterJump(s2, |s.blocks| + 2, |s.blocks| + 1))
    requires s4.cur < |s4.blocks| && |s.blocks| + 2 < |s4.blocks|
    ensures LoweredTo(node, s) == AfterJump(s4, |s.blocks| + 2, |s.blocks| + 2)
  {
    hide AfterBranch, AfterJump;
  }

  /** A branch is the last statement of its block. */
  ghost predicate BranchLast(block: CFGBlock) {
    forall k :: 0 <= k < |block.statements| && block.statements[k].IRBranch? ==> k == |block.statements| - 1
  }

  ghost predicate BranchesLast(blocks: seq<CFGBlock>) {
    forall b :: 0 <= b < |blocks| ==> BranchLast(blocks[b])
  }

  lemma NoBranchYet(s: BState, k: int)
    requires Inv(s) && s.cur < |s.blocks| && 0 <= k < |s.blocks[s.cur].statements|
    ensures !s.blocks[s.cur].statements[k].IRBranch?
  {
    assert BlockFits(s.blocks[s.cur]);
    assert StatementFits(s.blocks[s.cur], s.blocks[s.cur].statements[k]);
  }

  /** A statement appended to the current block, which has no branch yet, keeps branches last. */
  lemma AppendKeepsLast(s: BState, block: CFGBlock, n: IRNode)
    requires Inv(s) && s.cur < |s.blocks| && block.statements == s.blocks[s.cur].statements + [n]
    ensures BranchLast(block)
  {
    hide Inv;
    forall k | 0 <= k < |block.statements| && block.statements[k].IRBranch? ensures k == |block.statements| - 1 {
      if k < |block.statements| - 1 { NoBranchYet(s, k); }
    }
  }

  lemma AssignKeepsLast(s: BState, x: Symbol, e: ASTNode)
    requires Inv(s) && s.cur < |s.blocks| && BranchesLast(s.blocks)
    ensures BranchesLast(AfterAssign(s, x, e).blocks)
  {
    hide Inv, BranchLast;
    AppendKeepsLast(s, AfterAssign(s, x, e).blocks[s.cur], IRAssignment(x, e));
  }

  lemma BranchKeepsLast(s: BState, cond: ASTNode)
    requires Inv(s) && s.cur < |s.blocks| && BranchesLast(s.blocks)
    ensures BranchesLast(AfterBranch(s, cond).blocks)
  {
    hide Inv, AfterBranch;
    BranchBlocks(s, cond);
    var s', n := AfterBranch(s, cond), |s.blocks|;
    AppendKeepsLast(s, s'.blocks[s.cur], IRBranch(Some(cond), n, Some(n + 1)));
    assert BranchLast(s'.blocks[n]) && BranchLast(s'.blocks[n + 1]) && BranchLast(s'.blocks[n + 2]);
    hide BranchLast;
  }

  lemma JumpKeepsLast(s: BState, target: nat, next: nat)
    requires Inv(s) && s.cur < |s.blocks| && target < |s.blocks| && target !in s.order && BranchesLast(s.blocks)
    ensures BranchesLast(AfterJump(s, target, next).blocks)
  {
    hide Inv, AfterJump;
    JumpBlocks(s, target, next);
    var s' := AfterJump(s, target, next);
    AppendKeepsLast(s, s'.blocks[s.cur], IRBranch(None, target, None));
    assert BranchLast(s.blocks[target]);
    assert BranchLast(s'.blocks[target]);
    hide BranchLast;
  }

  lemma VarsKept(blocks: seq<CFGBlock>, vars: map<string, set<nat>>, blocks': seq<CFGBlock>)
    requires VarsExact(blocks, vars) && VarsInRange(blocks, vars) && |blocks| <= |blocks'|
    requires forall b :: 0 <= b < |blocks| ==> SameAssigns(blocks[b], blocks'[b])
    requires forall b :: |blocks| <= b < |blocks'| ==> blocks'[b].statements == []
    ensures VarsExact(blocks', vars) && VarsInRange(blocks', vars)
  {
    forall name, b | 0 <= b < |blocks'|
      ensures (name in vars && b in vars[name]) <==> Assigns(blocks'[b], name)
    {
      if b < |blocks| { assert SameAssigns(blocks[b], blocks'[b]); }
    }
  }

  ghost predicate SameAssigns(block: CFGBlock, block': CFGBlock) {
    forall name :: Assigns(block, name) <==> Assigns(block', name)
  }

  lemma SameAssignsBranch(block: CFGBlock, block': CFGBlock, s: IRNode)
    requires !s.IRAssignment? && block'.statements == block.statements + [s]
    ensures SameAssigns(block, block')
  {
    forall name ensures Assigns(block, name) <==> Assigns(block', name) {
      if Assigns(block, name) {
        var k :| 0 <= k < |block.statements| && block.statements[k].IRAssignment?
          && block.statements[k].variable.name == name;
        assert block'.statements[k] == block.statements[k];
      }
    }
  }

  lemma AssignKeepsInv(s: BState, x: Symbol, e: ASTNode)
    requires Inv(s)
    ensures Inv(AfterAssign(s, x, e))
  {
    hide Shape, Assigns;
    ShapeCurrent(s);
    var s' := AfterAssign(s, x, e);
    ShapeStatement(s.blocks, s.order, IRAssignment(x, e));
    forall name, b | 0 <= b < |s'.blocks|
      ensures (name in s'.vars && b in s'.vars[name]) <==> Assigns(s'.blocks[b], name)
    {
      assert (name in s.vars && b in s.vars[name]) <==> Assigns(s.blocks[b], name);
      if b == s.cur { AssignsMore(s.blocks[b], s'.blocks[b], x, e, name); }
    }
  }

  lemma ShapeCurrent(s: BState)
    requires Inv(s)
    ensures |s.order| > 0 && s.order[|s.order| - 1] == s.cur && s.cur < |s.blocks|
  {
  }

  lemma AssignsMore(block: CFGBlock, block': CFGBlock, x: Symbol, e: ASTNode, name: string)
    requires block'.statements == block.statements + [IRAssignment(x, e)]
    ensures Assigns(block', name) <==> Assigns(block, name) || name == x.name
  {
    var old', new' := block.statements, block'.statements;
    if Assigns(block, name) {
      var k :| 0 <= k < |old'| && old'[k].IRAssignment? && old'[k].variable.name == name;
      assert new'[k] == old'[k];
    }
    if name == x.name { assert new'[|old'|] == IRAssignment(x, e); }
  }

  lemma AssignLowered(s: BState, node: ASTNode)
    requires Inv(s) && node.ASTAssign?
    ensures Inv(AfterAssign(s, node.varExp, node.expr))
    ensures Lowered(node, s, AfterAssign(s, node.varExp, node.expr), [])
  {
    AssignKeepsInv(s, node.varExp, node.expr);
    var s' := AfterAssign(s, node.varExp, node.expr);
    ImplementsAssign(s'.blocks, node, s.cur, |s.blocks[s.cur].statements|);
  }

  /** Block by block, what AfterBranch did. */
  lemma BranchBlocks(s: BState, cond: ASTNode)
    requires Inv(s)
    ensures var s', n := AfterBranch(s, cond), |s.blocks|;
            && |s'.blocks| == n + 3
            && (forall b :: 0 <= b < n && b != s.cur ==> s'.blocks[b] == s.blocks[b])
            && s'.blocks[s.cur] == s.blocks[s.cur].(succs := [n, n + 1],
                 statements := s.blocks[s.cur].statements + [IRBranch(Some(cond), n, Some(n + 1))])
            && s'.blocks[n] == NewBlock("Then").(preds := [s.cur])
            && s'.blocks[n + 1] == NewBlock("Else").(preds := [s.cur])
            && s'.blocks[n + 2] == NewBlock("IfContinue")
  {
  }

  lemma ShapeThreeBlocks(blocks: seq<CFGBlock>, order: seq<nat>, t: string, e: string, m: string)
    requires Shape(blocks, order)
    ensures Shape(blocks + [NewBlock(t)] + [NewBlock(e)] + [NewBlock(m)], order)
  {
    ShapeNewBlock(blocks, order, t);
    ShapeNewBlock(blocks + [NewBlock(t)], order, e);
    ShapeNewBlock(blocks + [NewBlock(t)] + [NewBlock(e)], order, m);
  }

  lemma ShapeTwoLinks(blocks: seq<CFGBlock>, order: seq<nat>, t: nat, e: nat)
    requires Shape(blocks, order) && t < |blocks| && e < |blocks| && t !in order && e !in order
    ensures var cur := order[|order| - 1];
            var linked := WithLink(WithLink(blocks, cur, t), cur, e);
            Shape(linked, order) && t in linked[cur].succs && e in linked[cur].succs
  {
    ShapeLink(blocks, order, t);
    ShapeLink(WithLink(blocks, order[|order| - 1], t), order, e);
  }

  lemma BranchKeepsShape(s: BState, cond: ASTNode)
    requires Inv(s)
    ensures Shape(AfterBranch(s, cond).blocks, s.order)
  {
    hide VarsExact, VarsInRange, Shape, Mirrored, Ordered, Distinct;
    InvListed(s);
    var n := |s.blocks|;
    var b3 := s.blocks + [NewBlock("Then")] + [NewBlock("Else")] + [NewBlock("IfContinue")];
    ShapeThreeBlocks(s.blocks, s.order, "Then", "Else", "IfContinue");
    ShapeTwoLinks(b3, s.order, n, n + 1);
    ShapeStatement(WithLink(WithLink(b3, s.cur, n), s.cur, n + 1), s.order, IRBranch(Some(cond), n, Some(n + 1)));
  }

  lemma BranchKeepsInv(s: BState, cond: ASTNode)
    requires Inv(s)
    ensures Inv(AfterBranch(s, cond))
  {
    hide VarsExact, VarsInRange, Shape, Mirrored, Ordered, Distinct;
    InvListed(s);
    var s', n := AfterBranch(s, cond), |s.blocks|;
    BranchBlocks(s, cond);
    assert Shape(s'.blocks, s'.order) by {
      BranchKeepsShape(s, cond);
      ShapeActivate(s'.blocks, s.order, n, |s.order| - 1);
    }
    assert VarsExact(s'.blocks, s'.vars) && VarsInRange(s'.blocks, s'.vars) by {
      SameAssignsBranch(s.blocks[s.cur], s'.blocks[s.cur], IRBranch(Some(cond), n, Some(n + 1)));
      VarsKept(s.blocks, s.vars, s'.blocks);
    }
  }

  lemma JumpBlocks(s: BState, target: nat, next: nat)
    requires Inv(s) && target < |s.blocks| && target !in s.order
    ensures var s' := AfterJump(s, target, next);
            && |s'.blocks| == |s.blocks|
            && (forall b :: 0 <= b < |s.blocks| && b != s.cur && b != target ==> s'.blocks[b] == s.blocks[b])
            && s'.blocks[s.cur] == s.blocks[s.cur].(succs := [target],
                 statements := s.blocks[s.cur].statements + [IRBranch(None, target, None)])
            && s'.blocks[target] == s.blocks[target].(preds := s.blocks[target].preds + [s.cur])
  {
    MirroredLink(s.blocks, s.cur, target);
  }

  lemma JumpKeepsShape(s: BState, target: nat, next: nat)
    requires Inv(s) && target < |s.blocks| && target !in s.order
    ensures Shape(AfterJump(s, target, next).blocks, s.order)
  {
    ShapeLink(s.blocks, s.order, target);
    ShapeStatement(WithLink(s.blocks, s.cur, target), s.order, IRBranch(None, target, None));
  }

  lemma JumpKeepsInv(s: BState, target: nat, next: nat, i: nat)
    requires Inv(s) && target < |s.blocks| && target !in s.order
    requires next < |s.blocks| && next !in s.order
    requires i < |s.order| && (next == target || next in s.blocks[s.order[i]].succs)
    ensures Inv(AfterJump(s, target, next))
  {
    var s' := AfterJump(s, target, next);
    JumpBlocks(s, target, next);
    assert Shape(s'.blocks, s'.order) by {
      JumpKeepsShape(s, target, next);
      ShapeActivate(s'.blocks, s.order, next, if next == target then |s.order| - 1 else i);
    }
    assert VarsExact(s'.blocks, s'.vars) && VarsInRange(s'.blocks, s'.vars) by {
      SameAssignsBranch(s.blocks[s.cur], s'.blocks[s.cur], IRBranch(None, target, None));
      VarsKept(s.blocks, s.vars, s'.blocks);
    }
  }

  // ---------------------------------------------------------------- a conditional, from start to end

  /** The part of Inv that concerns the list of blocks only. */
  ghost predicate Listed(s: BState) {
    && Distinct(s.order) && |s.order| > 0 && s.order[|s.order| - 1] == s.cur
    && forall i :: 0 <= i < |s.order| ==> s.order[i] < |s.blocks|
  }

  /** `s'` is `s` after a jump to `target`, with `next` current. */
  ghost predicate Jumped(s: BState, target: nat, next: nat, s': BState) {
    && |s'.blocks| == |s.blocks| && target < |s.blocks| && s.cur < |s.blocks|
    && target !in s.order && next !in s.order
    && s'.order == s.order + [next] && s'.cur == next
    && (forall b :: 0 <= b < |s.blocks| && b != s.cur && b != target ==> s'.blocks[b] == s.blocks[b])
    && s'.blocks[s.cur].succs == [target] && s'.blocks[s.cur].preds == s.blocks[s.cur].preds
    && s'.blocks[s.cur].statements == s.blocks[s.cur].statements + [IRBranch(None, target, None)]
    && s'.blocks[target] == s.blocks[target].(preds := s.blocks[target].preds + [s.cur])
  }

  lemma JumpJumped(s: BState, target: nat, next: nat)
    requires Inv(s) && target < |s.blocks| && target !in s.order && next !in s.order
    ensures Jumped(s, target, next, AfterJump(s, target, next))
  {
    JumpBlocks(s, target, next);
  }

  lemma JumpedKeeps(s: BState, target: nat, next: nat, s': BState)
    requires Listed(s) && Jumped(s, target, next, s')
    ensures SameBefore(s.blocks, s.order, s'.blocks) && Extends(s.blocks, s'.blocks)
  {
    forall i | 0 <= i < |s.order| ensures s.order[i] != target { assert s.order[i] in s.order; }
  }

  lemma SameBeforeJoin(b: seq<CFGBlock>, o: seq<nat>, b': seq<CFGBlock>, o': seq<nat>, b'': seq<CFGBlock>)
    requires |o| > 0 && o <= o' && forall i :: 0 <= i < |o| ==> o[i] < |b|
    requires forall i :: 0 <= i < |o'| ==> o'[i] < |b'| && o'[i] < |b''|
    requires SameBefore(b, o, b') && SameBefore(b', o', b'')
    ensures SameBefore(b, o, b'')
  {
  }

  /** What the then-arm leaves of the blocks of its conditional: x branched to t = n and e = n + 1. */
  ghost predicate ThenState(n: nat, x: nat, k: nat, s: BState) {
    && n + 2 < |s.blocks| && n + 1 !in s.order && n + 2 !in s.order
    && k + 1 < |s.order| && s.order[k] == x && s.order[k + 1] == n && x < n
    && s.blocks[x].succs == [n, n + 1] && s.blocks[n].preds == [x] && s.blocks[n + 1].preds == [x]
    && s.blocks[n + 2].preds == [] && s.blocks[n + 2].statements == [] && s.blocks[n + 1].statements == []
  }

  lemma ThenDone(s: BState, cond: ASTNode, s': BState)
    requires Inv(s) && Listed(s') && Frame(AfterBranch(s, cond), s')
    ensures ThenState(|s.blocks|, s.cur, |s.order| - 1, s')
  {
    BranchBlocks(s, cond);
    var s1 := AfterBranch(s, cond);
    assert s1.order[|s.order| - 1] == s.cur && s1.order[|s.order|] == |s.blocks|;
    forall i | 0 <= i < |s1.order| ensures s1.order[i] <= |s.blocks| {}
  }

  /** The same after the else-arm. */
  ghost predicate ElseState(n: nat, x: nat, k: nat, s: BState, s': BState) {
    && n + 2 < |s'.blocks| && n + 2 !in s'.order && |s.order| > 0
    && s.order + [n + 1] <= s'.order
    && k + 1 < |s.order| && s.order[k] == x && s.order[k + 1] == n && x < n
    && s.order[|s.order| - 1] == s.cur < |s'.blocks|
    && s'.blocks[s.cur].succs == [n + 2] && s'.blocks[n + 2].preds == [s.cur]
    && s'.blocks[x].succs == [n, n + 1] && s'.blocks[n].preds == [x] && s'.blocks[n + 1].preds == [x]
  }

  lemma ElseDone(n: nat, x: nat, k: nat, s: BState, s3: BState, s': BState)
    requires Listed(s) && Listed(s3) && Listed(s') && ThenState(n, x, k, s)
    requires Jumped(s, n + 2, n + 1, s3) && Frame(s3, s')
    ensures ElseState(n, x, k, s, s')
  {
    assert s.cur in s.order && x in s.order && n in s.order;
    assert x != s.cur;
    assert n + 2 !in s3.order;
  }

  lemma ListedFrameSame(s: BState, s': BState)
    requires Listed(s) && Listed(s') && Frame(s, s')
    ensures SameBefore(s.blocks, s.order, s'.blocks)
  {
    forall i | 0 <= i < |s.order| - 1 ensures s'.blocks[s.order[i]] == s.blocks[s.order[i]] {
      assert s.order[i] != s.cur;
    }
  }

  /** The final links and positions of a conditional. */
  lemma IfLinks(n: nat, x: nat, k: nat, s: BState, s': BState, s5: BState)
    requires Listed(s) && Listed(s') && Listed(s5) && ElseState(n, x, k, s, s') && Jumped(s', n + 2, n + 2, s5)
    ensures var b, o, ht, he := s5.blocks, s5.order, |s.order| - 1, |s'.order| - 1;
            && k < ht < he && |o| == he + 2
            && o[k] == x && o[k + 1] == n && o[ht] == s.cur && o[ht + 1] == n + 1 && o[he] == s'.cur && o[he + 1] == n + 2
            && b[x].succs == [n, n + 1] && b[s.cur].succs == [n + 2] && b[s'.cur].succs == [n + 2]
            && b[n].preds == [x] && b[n + 1].preds == [x] && b[n + 2].preds == [s.cur, s'.cur]
  {
    var o, ht, he := s5.order, |s.order| - 1, |s'.order| - 1;
    assert forall i :: 0 <= i < |s.order| ==> s'.order[i] == s.order[i];
    assert s'.order[ht + 1] == (s.order + [n + 1])[ht + 1] == n + 1;
    assert forall i :: 0 <= i < |s'.order| ==> o[i] == s'.order[i];
    assert o[he + 1] == n + 2;
    assert x != s'.cur && s.cur != s'.cur && n != n + 2;
    assert s.cur in s'.order && x in s'.order;
  }

  /** The blocks of a conditional are linked as `r` says. */
  ghost predicate RecordLinks(b: seq<CFGBlock>, o: seq<nat>, r: IfRecord) {
    && r.p < r.ht < r.he && r.he + 2 == |o| && (forall i :: 0 <= i < |o| ==> o[i] < |b|)
    && o[r.p + 1] < o[r.ht + 1] < o[r.he + 1]
    && b[o[r.p]].succs == [o[r.p + 1], o[r.ht + 1]] && b[o[r.ht]].succs == [o[r.he + 1]] && b[o[r.he]].succs == [o[r.he + 1]]
    && b[o[r.p + 1]].preds == [o[r.p]] && b[o[r.ht + 1]].preds == [o[r.p]] && b[o[r.he + 1]].preds == [o[r.ht], o[r.he]]
  }

  lemma IfRecordOk(r: IfRecord, s2: BState, s4: BState, s5: BState)
    requires Ordered(s2.blocks, s2.order) && Ordered(s4.blocks, s4.order) && Ordered(s5.blocks, s5.order)
    requires s2.order <= s5.order && s4.order <= s5.order
    requires SameBefore(s2.blocks, s2.order, s5.blocks) && SameBefore(s4.blocks, s4.order, s5.blocks)
    requires r.ht == |s2.order| - 1 && r.he == |s4.order| - 1
    requires Region(s2.blocks, s2.order, r.p + 1, r.ht) && Region(s4.blocks, s4.order, r.ht + 1, r.he)
    requires RecordLinks(s5.blocks, s5.order, r)
    ensures RecordOk(s5.blocks, s5.order, r)
  {
    RegionKept(s2.blocks, s2.order, s5.blocks, s5.order, r.p + 1, r.ht);
    RegionKept(s4.blocks, s4.order, s5.blocks, s5.order, r.ht + 1, r.he);
  }

  lemma RecordedIf(blocks: seq<CFGBlock>, order: seq<nat>, r: IfRecord, r2: seq<IfRecord>, r4: seq<IfRecord>)
    requires RecordOk(blocks, order, r)
    requires Recorded(blocks, order, r.p + 1, r.ht, r2) && Recorded(blocks, order, r.ht + 1, r.he, r4)
    requires r.p < r.ht < r.he
    ensures Recorded(blocks, order, r.p, r.he + 1, [r] + r2 + r4)
  {
    hide RecordOk, Covered;
    var all := [r] + r2 + r4;
    forall k | 0 <= k < |all|
      ensures RecordIn(blocks, order, r.p, r.he + 1, all[k])
      ensures k > 0 ==> all[k].p > r.p
      ensures 1 <= k < 1 + |r2| ==> all[k] == r2[k - 1] && all[k].p < r.ht
      ensures 1 + |r2| <= k ==> all[k] == r4[k - 1 - |r2|] && r.ht < all[k].p
    {
      if 1 <= k < 1 + |r2| { assert RecordIn(blocks, order, r.p + 1, r.ht, r2[k - 1]); }
      else if 1 + |r2| <= k { assert RecordIn(blocks, order, r.ht + 1, r.he, r4[k - 1 - |r2|]); }
      RecordSpan(blocks, order, all[k]);
    }
    forall j | r.p < j <= r.he + 1 ensures Covered(all, j) {
      CoveredIf(r, r2, r4, j);
    }
  }

  lemma RecordSpan(blocks: seq<CFGBlock>, order: seq<nat>, r: IfRecord)
    requires RecordOk(blocks, order, r)
    ensures r.p < r.ht < r.he
  {
  }

  lemma CoveredIf(r: IfRecord, r2: seq<IfRecord>, r4: seq<IfRecord>, j: nat)
    requires r.p < j <= r.he + 1
    requires r.p + 1 < j <= r.ht ==> Covered(r2, j)
    requires r.ht + 1 < j <= r.he ==> Covered(r4, j)
    ensures Covered([r] + r2 + r4, j)
  {
    var all := [r] + r2 + r4;
    if j == r.p + 1 || j == r.ht + 1 || j == r.he + 1 {
      assert Covers(all[0], j);
    } else if j <= r.ht {
      var k :| 0 <= k < |r2| && Covers(r2[k], j);
      assert Covers(all[k + 1], j);
    } else {
      var k :| 0 <= k < |r4| && Covers(r4[k], j);
      assert Covers(all[k + 1 + |r2|], j);
    }
  }

  /** A block that existed before the conditional is as the branch left it. */
  lemma IfKeeps(n: nat, s1: BState, s2: BState, s3: BState, s4: BState, s5: BState, b: nat)
    requires Listed(s2) && Listed(s4) && b < n && n + 3 == |s1.blocks| && s1.cur == n
    requires Frame(s1, s2) && Jumped(s2, n + 2, n + 1, s3) && Frame(s3, s4) && Jumped(s4, n + 2, n + 2, s5)
    ensures s5.blocks[b] == s1.blocks[b] && (b !in s1.order ==> b !in s5.order)
  {
    ArmKeeps(s1, s2, b);
    ArmKeeps(s3, s4, b);
  }

  lemma IfExtends(n: nat, s1: BState, s2: BState, s3: BState, s4: BState, s5: BState)
    requires Listed(s2) && Listed(s4)
    requires Frame(s1, s2) && Jumped(s2, n + 2, n + 1, s3) && Frame(s3, s4) && Jumped(s4, n + 2, n + 2, s5)
    ensures Extends(s1.blocks, s5.blocks) && s1.order <= s5.order
  {
    JumpedKeeps(s2, n + 2, n + 1, s3);
    JumpedKeeps(s4, n + 2, n + 2, s5);
    ExtendsTransitive(s1.blocks, s2.blocks, s3.blocks);
    ExtendsTransitive(s1.blocks, s3.blocks, s4.blocks);
    ExtendsTransitive(s1.blocks, s4.blocks, s5.blocks);
  }

  /** `s1` is `s` after the branch of a conditional whose Then block is current. */
  ghost predicate Branched(s: BState, s1: BState) {
    var n := |s.blocks|;
    && |s1.blocks| == n + 3 && s1.order == s.order + [n] && s1.cur == n
    && (forall b :: 0 <= b < n && b != s.cur ==> s1.blocks[b] == s.blocks[b])
    && s.cur < n && s.blocks[s.cur].statements <= s1.blocks[s.cur].statements
    && s1.blocks[s.cur].preds == s.blocks[s.cur].preds
  }

  /** A whole conditional changes only the current block and new blocks. */
  lemma FrameIf(s: BState, s1: BState, s2: BState, s3: BState, s4: BState, s5: BState)
    requires Listed(s) && Branched(s, s1) && Listed(s2) && Listed(s4)
    requires var n := |s.blocks|;
             && Frame(s1, s2) && Jumped(s2, n + 2, n + 1, s3) && Frame(s3, s4) && Jumped(s4, n + 2, n + 2, s5)
    ensures Frame(s, s5)
  {
    var n := |s.blocks|;
    assert Extends(s.blocks, s1.blocks);
    assert |s3.blocks| == |s2.blocks| && |s5.blocks| == |s4.blocks|;
    assert s3.order == s2.order + [n + 1] && s5.order == s4.order + [n + 2];
    hide Jumped, Extends;
    IfExtends(n, s1, s2, s3, s4, s5);
    ExtendsTransitive(s.blocks, s1.blocks, s5.blocks);
    forall b | 0 <= b < n
      ensures s5.blocks[b] == s1.blocks[b]
      ensures b !in s.order ==> b !in s5.order
    {
      IfKeeps(n, s1, s2, s3, s4, s5, b);
    }
    forall b | n <= b < |s5.blocks| ensures b in s5.order {
      NewListed(s, s1, s2, s3, s4, s5, b);
    }
  }

  /** A block that is not the arm's first is neither changed nor current at the end of the arm. */
  lemma ArmKeeps(s: BState, s': BState, b: nat)
    requires Listed(s') && Frame(s, s') && b < |s.blocks| && b != s.cur
    ensures s'.blocks[b] == s.blocks[b] && b != s'.cur && (b !in s.order ==> b !in s'.order)
  {
    assert s'.cur in s'.order;
  }

  lemma NewListed(s: BState, s1: BState, s2: BState, s3: BState, s4: BState, s5: BState, b: nat)
    requires |s1.blocks| == |s.blocks| + 3 && |s.blocks| <= b < |s5.blocks|
    requires Frame(s1, s2) && Frame(s3, s4) && |s3.blocks| == |s2.blocks| && |s5.blocks| == |s4.blocks|
    requires s1.order == s.order + [|s.blocks|] && s3.order == s2.order + [|s.blocks| + 1] && s5.order == s4.order + [|s.blocks| + 2]
    ensures b in s5.order
  {
    var n := |s.blocks|;
    assert s1.order[|s.order|] == n && s2.order[|s.order|] == n;
    assert s3.order[|s2.order|] == n + 1 && s4.order[|s2.order|] == n + 1;
    if n + 3 <= b < |s2.blocks| {
      assert b in s2.order;
      var i :| 0 <= i < |s2.order| && s2.order[i] == b;
      assert s3.order[i] == b && s4.order[i] == b && s5.order[i] == b;
    } else if n + 3 <= b {
      assert b in s4.order;
    } else if b == n {
      assert s3.order[|s.order|] == n && s4.order[|s.order|] == n && s5.order[|s.order|] == n;
    } else if b == n + 1 {
      assert s5.order[|s2.order|] == n + 1;
    } else {
      assert s5.order[|s4.order|] == n + 2;
    }
  }

  lemma BranchBranched(s: BState, cond: ASTNode)
    requires Inv(s)
    ensures var s1 := AfterBranch(s, cond);
            && Branched(s, s1) && s1.blocks[|s.blocks|].statements == []
            && HasBranch(s1.blocks, End(s.blocks, s.cur), cond, |s.blocks|, |s.blocks| + 1)
  {
    BranchBlocks(s, cond);
  }

  lemma IfMeaning(node: ASTNode, n: nat, from: Point, s1: BState, s2: BState, s3: BState, s4: BState, s5: BState)
    requires node.ASTIf? && HasBranch(s1.blocks, from, node.conditionExp, n, n + 1)
    requires Listed(s2) && Listed(s4) && s2.cur < |s2.blocks| && s4.cur < |s4.blocks|
    requires Frame(s1, s2) && Jumped(s2, n + 2, n + 1, s3) && Frame(s3, s4) && Jumped(s4, n + 2, n + 2, s5)
    requires Implements(s2.blocks, node.thenExp, Point(n, 0), End(s2.blocks, s2.cur))
    requires Implements(s4.blocks, node.elseExp, Point(n + 1, 0), End(s4.blocks, s4.cur))
    ensures Implements(s5.blocks, node, from, Point(n + 2, 0))
  {
    IfExtends(n, s1, s2, s3, s4, s5);
    JumpedKeeps(s2, n + 2, n + 1, s3);
    JumpedKeeps(s4, n + 2, n + 2, s5);
    ExtendsTransitive(s3.blocks, s4.blocks, s5.blocks);
    ExtendsTransitive(s2.blocks, s3.blocks, s5.blocks);
    ImplementsExtends(s2.blocks, s5.blocks, node.thenExp, Point(n, 0), End(s2.blocks, s2.cur));
    ImplementsExtends(s4.blocks, s5.blocks, node.elseExp, Point(n + 1, 0), End(s4.blocks, s4.cur));
    assert HasJump(s3.blocks, End(s2.blocks, s2.cur), n + 2);
    assert HasJump(s5.blocks, End(s2.blocks, s2.cur), n + 2);
    ImplementsIf(s5.blocks, node, from, n, n + 1, n + 2, End(s2.blocks, s2.cur), End(s4.blocks, s4.cur));
  }

  /** What happened between the then-arm and the end of a conditional, and the links it left. */
  lemma IfTail(n: nat, x: nat, r: IfRecord, s2: BState, s3: BState, s4: BState, s5: BState)
    requires Listed(s2) && Listed(s3) && Listed(s4) && Listed(s5) && ThenState(n, x, r.p, s2)
    requires Jumped(s2, n + 2, n + 1, s3) && Frame(s3, s4) && Jumped(s4, n + 2, n + 2, s5)
    requires r.ht == |s2.order| - 1 && r.he == |s4.order| - 1
    ensures s2.order <= s5.order && s4.order <= s5.order
    ensures forall i :: 0 <= i < |s2.order| ==> s2.order[i] < |s5.blocks|
    ensures forall i :: 0 <= i < |s4.order| ==> s4.order[i] < |s5.blocks|
    ensures SameBefore(s2.blocks, s2.order, s5.blocks) && SameBefore(s4.blocks, s4.order, s5.blocks)
  {
    hide SameBefore;
    JumpedKeeps(s2, n + 2, n + 1, s3);
    ListedFrameSame(s3, s4);
    JumpedKeeps(s4, n + 2, n + 2, s5);
    SameBeforeJoin(s3.blocks, s3.order, s4.blocks, s4.order, s5.blocks);
    SameBeforeJoin(s2.blocks, s2.order, s3.blocks, s3.order, s5.blocks);
  }

  lemma IfTailLinks(n: nat, x: nat, r: IfRecord, s2: BState, s3: BState, s4: BState, s5: BState)
    requires Listed(s2) && Listed(s3) && Listed(s4) && Listed(s5) && ThenState(n, x, r.p, s2)
    requires Jumped(s2, n + 2, n + 1, s3) && Frame(s3, s4) && Jumped(s4, n + 2, n + 2, s5)
    requires r.ht == |s2.order| - 1 && r.he == |s4.order| - 1
    ensures RecordLinks(s5.blocks, s5.order, r)
    ensures |s5.order| == r.he + 2 && s5.cur == n + 2 && n + 2 < |s5.blocks| && s5.blocks[n + 2].statements == []
  {
    ElseDone(n, x, r.p, s2, s3, s4);
    IfLinks(n, x, r.p, s2, s4, s5);
    assert n + 2 !in s3.order;
  }

  lemma IfRegionsJoin(r: IfRecord, s2: BState, s4: BState, s5: BState, r2: seq<IfRecord>, r4: seq<IfRecord>)
    requires Mirrored(s5.blocks) && Ordered(s2.blocks, s2.order) && Ordered(s4.blocks, s4.order) && Ordered(s5.blocks, s5.order)
    requires s2.order <= s5.order && s4.order <= s5.order
    requires SameBefore(s2.blocks, s2.order, s5.blocks) && SameBefore(s4.blocks, s4.order, s5.blocks)
    requires r.ht == |s2.order| - 1 && r.he == |s4.order| - 1 && RecordLinks(s5.blocks, s5.order, r)
    requires Region(s2.blocks, s2.order, r.p + 1, r.ht) && Recorded(s2.blocks, s2.order, r.p + 1, r.ht, r2)
    requires Region(s4.blocks, s4.order, r.ht + 1, r.he) && Recorded(s4.blocks, s4.order, r.ht + 1, r.he, r4)
    ensures Region(s5.blocks, s5.order, r.p, r.he + 1)
    ensures Recorded(s5.blocks, s5.order, r.p, r.he + 1, [r] + r2 + r4)
  {
    hide Region, RecordLinks, Recorded, SameBefore, Mirrored, Ordered, RecordOk;
    IfRecordOk(r, s2, s4, s5);
    RegionIf(s5.blocks, s5.order, r);
    RecordSpan(s5.blocks, s5.order, r);
    RecordedKept(s2.blocks, s2.order, s5.blocks, s5.order, r.p + 1, r2);
    RecordedKept(s4.blocks, s4.order, s5.blocks, s5.order, r.ht + 1, r4);
    RecordedIf(s5.blocks, s5.order, r, r2, r4);
  }

  lemma InvListed(s: BState)
    requires Inv(s)
    ensures Listed(s) && Mirrored(s.blocks) && Ordered(s.blocks, s.order) && s.cur < |s.blocks|
  {
  }

  /** A conditional whose arms were lowered is lowered. */
  lemma IfLowered(node: ASTNode, s: BState, s2: BState, s3: BState, s4: BState, s5: BState, r: IfRecord,
                  r2: seq<IfRecord>, r4: seq<IfRecord>)
    requires node.ASTIf? && Inv(s)
    requires Inv(s2) && Inv(s3) && Inv(s4) && Inv(s5)
    requires var n, s1 := |s.blocks|, AfterBranch(s, node.conditionExp);
             && Frame(s1, s2) && Jumped(s2, n + 2, n + 1, s3) && Frame(s3, s4) && Jumped(s4, n + 2, n + 2, s5)
             && Implements(s2.blocks, node.thenExp, Point(n, 0), End(s2.blocks, s2.cur))
             && Implements(s4.blocks, node.elseExp, Point(n + 1, 0), End(s4.blocks, s4.cur))
    requires r == IfRecord(|s.order| - 1, |s2.order| - 1, |s4.order| - 1)
    requires Region(s2.blocks, s2.order, r.p + 1, r.ht) && Recorded(s2.blocks, s2.order, r.p + 1, r.ht, r2)
    requires Region(s4.blocks, s4.order, r.ht + 1, r.he) && Recorded(s4.blocks, s4.order, r.ht + 1, r.he, r4)
    requires IfFree(node.thenExp) ==> r.ht == r.p + 1
    requires IfFree(node.thenExp) ==> r2 == []
    requires ThenFlat(node.elseExp) ==> forall k :: 0 <= k < |r4| ==> r4[k].ht == r4[k].p + 1
    ensures Lowered(node, s, s5, [r] + r2 + r4)
  {
    hide Implements, Recorded, Region, Inv, Mirrored, Ordered, SameBefore, Frame, Jumped, Branched, ThenState, AfterBranch, RecordLinks;
    InvListed(s); InvListed(s2); InvListed(s3); InvListed(s4); InvListed(s5);
    var n, s1 := |s.blocks|, AfterBranch(s, node.conditionExp);
    BranchBranched(s, node.conditionExp);
    assert Frame(s, s5) by { FrameIf(s, s1, s2, s3, s4, s5); }
    ThenDone(s, node.conditionExp, s2);
    IfTail(n, s.cur, r, s2, s3, s4, s5);
    IfTailLinks(n, s.cur, r, s2, s3, s4, s5);
    IfRegionsJoin(r, s2, s4, s5, r2, r4);
    assert Implements(s5.blocks, node, End(s.blocks, s.cur), End(s5.blocks, s5.cur)) by {
      IfMeaning(node, n, End(s.blocks, s.cur), s1, s2, s3, s4, s5);
    }
  }

  lemma NothingLowered(node: ASTNode, s: BState)
    requires Inv(s) && (node.ASTNumber? || node.ASTSymbol? || node.ASTFor?)
    ensures Lowered(node, s, s, [])
  {
    ImplementsNothing(s.blocks, node, End(s.blocks, s.cur));
  }

  lemma NoneBetween(blocks: seq<CFGBlock>, order: seq<nat>, lo: nat, r: IfRecord)
    ensures !RecordIn(blocks, order, lo, lo, r)
  {
  }

  lemma NoRecords(blocks: seq<CFGBlock>, order: seq<nat>, lo: nat, records: seq<IfRecord>)
    requires Recorded(blocks, order, lo, lo, records)
    ensures records == []
  {
    if records != [] { NoneBetween(blocks, order, lo, records[0]); }
  }

  lemma SequenceRegions(s: BState, s': BState, s'': BState, first: seq<IfRecord>, second: seq<IfRecord>)
    requires Inv(s) && Inv(s') && Inv(s'') && Frame(s, s') && Frame(s', s'')
    requires var lo, mid, hi := |s.order| - 1, |s'.order| - 1, |s''.order| - 1;
             && Region(s'.blocks, s'.order, lo, mid) && Recorded(s'.blocks, s'.order, lo, mid, first)
             && Region(s''.blocks, s''.order, mid, hi) && Recorded(s''.blocks, s''.order, mid, hi, second)
    ensures Region(s''.blocks, s''.order, |s.order| - 1, |s''.order| - 1)
    ensures Recorded(s''.blocks, s''.order, |s.order| - 1, |s''.order| - 1, first + second)
  {
    hide Region, Recorded, Mirrored, VarsExact, VarsInRange, AllFit;
    var lo, mid, hi := |s.order| - 1, |s'.order| - 1, |s''.order| - 1;
    FrameSameBefore(s', s'');
    RegionKept(s'.blocks, s'.order, s''.blocks, s''.order, lo, mid);
    RegionJoin(s''.blocks, s''.order, lo, mid, hi);
    RecordedKept(s'.blocks, s'.order, s''.blocks, s''.order, lo, first);
    RecordedJoin(s''.blocks, s''.order, lo, mid, hi, first, second);
  }

  lemma SequenceLowered(node: ASTNode, s: BState, s': BState, s'': BState, first: seq<IfRecord>, second: seq<IfRecord>)
    requires node.ASTBinary? && Inv(s) && Inv(s') && Inv(s'')
    requires Lowered(node.lhs, s, s', first) && Lowered(node.rhs, s', s'', second)
    ensures Lowered(node, s, s'', first + second)
  {
    hide Implements, Region, Recorded, Inv;
    InvListed(s); InvListed(s'); InvListed(s'');
    FrameJoin(s, s', s'');
    SequenceRegions(s, s', s'', first, second);
    ImplementsExtends(s'.blocks, s''.blocks, node.lhs, End(s.blocks, s.cur), End(s'.blocks, s'.cur));
    ImplementsSequence(s''.blocks, node, End(s.blocks, s.cur), End(s'.blocks, s'.cur), End(s''.blocks, s''.cur));
    assert forall k :: 0 <= k < |first + second| ==>
      (first + second)[k] == if k < |first| then first[k] else second[k - |first|];
  }

  lemma EntryInv(s: BState)
    requires s == BState([NewBlock("Entry")], 0, map[], [0])
    ensures Inv(s)
  {
    assert Mirrored(s.blocks) by {
      forall a, b ensures HasSucc(s.blocks, a, b) <==> HasPred(s.blocks, b, a) {}
    }
  }

  class CFGBuilder {
    const CFGraph: CFG
    var CurrentBlock: nat
    var BlocksForVariable: map<string, set<nat>>
    ghost var order: seq<nat>

    ghost function State(): (s: BState)
      reads this, CFGraph
    {
      BState(CFGraph.BasicBlocks, CurrentBlock, BlocksForVariable, order)
    }

    constructor ()
      ensures fresh(CFGraph) && CFGraph.InPredOrder == [] && CFGraph.InPostOrder == []
      ensures CFGraph.DominanceFrontier == map[]
      ensures State() == BState([NewBlock("Entry")], 0, map[], [0]) && Inv(State()) && BranchesLast(CFGraph.BasicBlocks)
    {
      CFGraph := new CFG();
      CurrentBlock, BlocksForVariable, order := 0, map[], [0];
      new;
      var entry := CreateBlock("Entry");
      CurrentBlock := entry;
      EntryInv(State());
    }

    method CreateBlock(title: string) returns (b: nat)
      modifies CFGraph`BasicBlocks
      ensures b == |old(CFGraph.BasicBlocks)|
      ensures CFGraph.BasicBlocks == old(CFGraph.BasicBlocks) + [NewBlock(title)]
    {
      b := |CFGraph.BasicBlocks|;
      CFGraph.BasicBlocks := CFGraph.BasicBlocks + [NewBlock(title)];
    }

    /** CFGBlock::AddLink. */
    method AddLink(pred: nat, succ: nat)
      requires pred < |CFGraph.BasicBlocks| && succ < |CFGraph.BasicBlocks|
      modifies CFGraph`BasicBlocks
      ensures CFGraph.BasicBlocks == WithLink(old(CFGraph.BasicBlocks), pred, succ)
    {
      if pred !in CFGraph.BasicBlocks[succ].preds {
        CFGraph.BasicBlocks := CFGraph.BasicBlocks[succ :=
          CFGraph.BasicBlocks[succ].(preds := CFGraph.BasicBlocks[succ].preds + [pred])];
      }
      if succ !in CFGraph.BasicBlocks[pred].succs {
        CFGraph.BasicBlocks := CFGraph.BasicBlocks[pred :=
          CFGraph.BasicBlocks[pred].(succs := CFGraph.BasicBlocks[pred].succs + [succ])];
      }
    }

    method AddStatement(b: nat, s: IRNode)
      requires b < |CFGraph.BasicBlocks|
      modifies CFGraph`BasicBlocks
      ensures CFGraph.BasicBlocks == WithStatement(old(CFGraph.BasicBlocks), b, s)
    {
      CFGraph.BasicBlocks := CFGraph.BasicBlocks[b :=
        CFGraph.BasicBlocks[b].(statements := CFGraph.BasicBlocks[b].statements + [s])];
    }

    method CreateBranch(target: nat)
      requires CurrentBlock < |CFGraph.BasicBlocks| && target < |CFGraph.BasicBlocks|
      modifies CFGraph`BasicBlocks
      ensures CFGraph.BasicBlocks == WithStatement(WithLink(old(CFGraph.BasicBlocks), CurrentBlock, target),
                                                   CurrentBlock, IRBranch(None, target, None))
    {
      AddLink(CurrentBlock, target);
      AddStatement(CurrentBlock, IRBranch(None, target, None));
    }

    method CreateConditionalBranch(cond: ASTNode, thenBlock: nat, elseBlock: nat)
      requires CurrentBlock < |CFGraph.BasicBlocks|
      requires thenBlock < |CFGraph.BasicBlocks| && elseBlock < |CFGraph.BasicBlocks|
      modifies CFGraph`BasicBlocks
      ensures CFGraph.BasicBlocks ==
              WithStatement(WithLink(WithLink(old(CFGraph.BasicBlocks), CurrentBlock, thenBlock), CurrentBlock, elseBlock),
                            CurrentBlock, IRBranch(Some(cond), thenBlock, Some(elseBlock)))
    {
      AddLink(CurrentBlock, thenBlock);
      AddLink(CurrentBlock, elseBlock);
      AddStatement(CurrentBlock, IRBranch(Some(cond), thenBlock, Some(elseBlock)));
    }

    method Traverse(node: ASTNode) returns (ghost records: seq<IfRecord>)
      requires Inv(State()) && BranchesLast(CFGraph.BasicBlocks)
      modifies this, CFGraph`BasicBlocks
      ensures BranchesLast(CFGraph.BasicBlocks) && State() == LoweredTo(node, old(State()))
      ensures Inv(State()) && Lowered(node, old(State()), State(), records)
      decreases node, 1
    {
      match node
      case ASTAssign(_, _) => VisitAssign(node); records := [];
      case ASTIf(_, _, _) => records := VisitIf(node);
      case ASTBinary(_, _, _) => records := VisitBinary(node);
      case _ => NothingLowered(node, State()); records := [];
    }

    method VisitAssign(node: ASTNode)
      requires Inv(State()) && node.ASTAssign? && BranchesLast(CFGraph.BasicBlocks)
      modifies this`BlocksForVariable, CFGraph`BasicBlocks
      ensures BranchesLast(CFGraph.BasicBlocks)
      ensures State() == AfterAssign(old(State()), node.varExp, node.expr)
      ensures Inv(State()) && Lowered(node, old(State()), State(), [])
    {
      ghost var s := State();
      var name := node.varExp.name;
      var blocks := if name in BlocksForVariable then BlocksForVariable[name] else {};
      BlocksForVariable := BlocksForVariable[name := blocks + {CurrentBlock}];
      AddStatement(CurrentBlock, IRAssignment(node.varExp, node.expr));
      AssignLowered(s, node);
      AssignKeepsLast(s, node.varExp, node.expr);
    }

    method VisitIf(node: ASTNode) returns (ghost records: seq<IfRecord>)
      requires Inv(State()) && node.ASTIf? && BranchesLast(CFGraph.BasicBlocks)
      modifies this, CFGraph`BasicBlocks
      ensures BranchesLast(CFGraph.BasicBlocks) && State() == LoweredTo(node, old(State()))
      ensures Inv(State()) && Lowered(node, old(State()), State(), records)
      decreases node, 0
    {
      hide Implements, Region, Recorded, Frame, Inv, Jumped, ThenState, ElseState, Shape, AfterBranch, AfterJump, Lowered,
        BranchesLast, LoweredTo;
      ghost var s := State();
      InvListed(s);
      var thenBlock, elseBlock, mergeBlock := OpenIf(node.conditionExp);
      ghost var s1 := State();
      BranchKeepsInv(s, node.conditionExp);
      BranchKeepsLast(s, node.conditionExp);
      ghost var r2 := Traverse(node.thenExp);
      ghost var s2 := State();
      ThenCanJump(s, node, s1, s2, r2);
      JumpKeepsLast(s2, mergeBlock, elseBlock);
      JumpAndEnter(mergeBlock, elseBlock);
      ghost var s3 := State();
      ghost var r4 := Traverse(node.elseExp);
      ghost var s4 := State();
      ElseCanJump(s, node, s2, s3, s4, r4);
      JumpKeepsLast(s4, mergeBlock, mergeBlock);
      JumpAndEnter(mergeBlock, mergeBlock);
      LoweredIf(node, s, s2, s4);
      records := IfFinished(node, s, s2, s3, s4, State(), r2, r4);
    }

    /** The three blocks of a conditional, the branch on its condition, and its then-block current. */
    method OpenIf(cond: ASTNode) returns (thenBlock: nat, elseBlock: nat, mergeBlock: nat)
      requires CurrentBlock < |CFGraph.BasicBlocks|
      modifies this`CurrentBlock, this`order, CFGraph`BasicBlocks
      ensures State() == AfterBranch(old(State()), cond)
      ensures thenBlock == |old(CFGraph.BasicBlocks)| && elseBlock == thenBlock + 1 && mergeBlock == thenBlock + 2
    {
      hide WithStatement, WithLink;
      thenBlock := CreateBlock("Then");
      elseBlock := CreateBlock("Else");
      mergeBlock := CreateBlock("IfContinue");
      CreateConditionalBranch(cond, thenBlock, elseBlock);
      CurrentBlock := thenBlock;
      order := order + [thenBlock];
    }

    /** The end of an arm: a jump to the merge block, and the next block current. */
    method JumpAndEnter(target: nat, next: nat)
      requires CurrentBlock < |CFGraph.BasicBlocks| && target < |CFGraph.BasicBlocks|
      modifies this`CurrentBlock, this`order, CFGraph`BasicBlocks
      ensures State() == AfterJump(old(State()), target, next)
    {
      hide WithStatement, WithLink;
      CreateBranch(target);
      CurrentBlock := next;
      order := order + [next];
    }

    method VisitBinary(node: ASTNode) returns (ghost records: seq<IfRecord>)
      requires Inv(State()) && node.ASTBinary? && BranchesLast(CFGraph.BasicBlocks)
      modifies this, CFGraph`BasicBlocks
      ensures BranchesLast(CFGraph.BasicBlocks) && State() == LoweredTo(node, old(State()))
      ensures Inv(State()) && Lowered(node, old(State()), State(), records)
      decreases node, 0
    {
      hide Implements, Region, Recorded, Frame, Inv, BranchesLast, AfterAssign, AfterBranch, EndArm;
      ghost var s := State();
      ghost var first := Traverse(node.lhs);
      ghost var s' := State();
      ghost var second := Traverse(node.rhs);
      SequenceLowered(node, s, s', State(), first, second);
      records := first + second;
    }
  }

  /** After the then-arm the builder can jump to the merge block and start the else-arm. */
  lemma ThenCanJump(s: BState, node: ASTNode, s1: BState, s2: BState, records: seq<IfRecord>)
    requires node.ASTIf? && Inv(s) && s1 == AfterBranch(s, node.conditionExp) && Inv(s1) && Inv(s2)
    requires Lowered(node.thenExp, s1, s2, records)
    ensures s2.cur < |s2.blocks| && |s.blocks| + 2 < |s2.blocks| && |s.blocks| + 2 !in s2.order
    ensures Inv(AfterJump(s2, |s.blocks| + 2, |s.blocks| + 1))
    ensures Jumped(s2, |s.blocks| + 2, |s.blocks| + 1, AfterJump(s2, |s.blocks| + 2, |s.blocks| + 1))
    ensures ThenState(|s.blocks|, s.cur, |s.order| - 1, s2)
  {
    hide Implements, Region, Recorded, AfterBranch, AfterJump, Shape, VarsExact, VarsInRange;
    InvListed(s2);
    ThenDone(s, node.conditionExp, s2);
    JumpJumped(s2, |s.blocks| + 2, |s.blocks| + 1);
    JumpKeepsInv(s2, |s.blocks| + 2, |s.blocks| + 1, |s.order| - 1);
  }

  lemma ElseRoom(n: nat, x: nat, k: nat, s: BState, s': BState)
    requires ElseState(n, x, k, s, s') && Listed(s')
    ensures n + 2 < |s'.blocks| && n + 2 !in s'.order && 0 < |s'.order| && s'.order[0] < |s'.blocks|
  {
  }

  lemma ElseCanJump(s: BState, node: ASTNode, s2: BState, s3: BState, s4: BState, records: seq<IfRecord>)
    requires node.ASTIf? && Inv(s) && Inv(s2) && Inv(s3) && Inv(s4)
    requires ThenState(|s.blocks|, s.cur, |s.order| - 1, s2) && Jumped(s2, |s.blocks| + 2, |s.blocks| + 1, s3)
    requires Lowered(node.elseExp, s3, s4, records)
    ensures s4.cur < |s4.blocks| && |s.blocks| + 2 < |s4.blocks| && |s.blocks| + 2 !in s4.order
    ensures Inv(AfterJump(s4, |s.blocks| + 2, |s.blocks| + 2))
    ensures Jumped(s4, |s.blocks| + 2, |s.blocks| + 2, AfterJump(s4, |s.blocks| + 2, |s.blocks| + 2))
  {
    hide Implements, Region, Recorded, AfterJump, Inv, Shape, Ordered, Mirrored, Frame, ThenState, ElseState, Jumped, Listed;
    InvListed(s); ListedSome(s);
    InvListed(s2); InvListed(s3); InvListed(s4);
    ElseDone(|s.blocks|, s.cur, |s.order| - 1, s2, s3, s4);
    ElseRoom(|s.blocks|, s.cur, |s.order| - 1, s2, s4);
    JumpJumped(s4, |s.blocks| + 2, |s.blocks| + 2);
    JumpKeepsInv(s4, |s.blocks| + 2, |s.blocks| + 2, 0);
  }

  lemma ListedSome(s: BState)
    requires Listed(s)
    ensures |s.order| > 0
  {
  }

  lemma ThenStart(s: BState, cond: ASTNode)
    requires Inv(s)
    ensures s.cur < |s.blocks| && |s.order| > 0
    ensures var s1 := AfterBranch(s, cond);
            |s1.order| == |s.order| + 1 && End(s1.blocks, s1.cur) == Point(|s.blocks|, 0)
  {
    hide Shape, VarsExact, VarsInRange;
    InvListed(s);
    BranchBranched(s, cond);
  }

  lemma ElseStart(n: nat, x: nat, k: nat, s2: BState, s3: BState)
    requires Listed(s2) && ThenState(n, x, k, s2) && Jumped(s2, n + 2, n + 1, s3)
    ensures |s3.order| == |s2.order| + 1 && s3.cur < |s3.blocks| && End(s3.blocks, s3.cur) == Point(n + 1, 0) && |s2.order| > 0
  {
    assert s2.cur in s2.order;
  }

  lemma IfFinished(node: ASTNode, s: BState, s2: BState, s3: BState, s4: BState, s5: BState,
                   r2: seq<IfRecord>, r4: seq<IfRecord>) returns (records: seq<IfRecord>)
    requires node.ASTIf? && Inv(s) && Inv(AfterBranch(s, node.conditionExp))
    requires Inv(s2) && Inv(s3) && Inv(s4) && Inv(s5)
    requires Lowered(node.thenExp, AfterBranch(s, node.conditionExp), s2, r2) && Lowered(node.elseExp, s3, s4, r4)
    requires Jumped(s2, |s.blocks| + 2, |s.blocks| + 1, s3) && Jumped(s4, |s.blocks| + 2, |s.blocks| + 2, s5)
    ensures Lowered(node, s, s5, records)
  {
    hide Implements, Region, Recorded, Inv, Shape, Ordered, Mirrored, Frame, Listed, AfterBranch, ThenState, Jumped, Branched;
    InvListed(s); InvListed(s2); InvListed(s3); InvListed(s4); InvListed(s5);
    ThenStart(s, node.conditionExp);
    ThenDone(s, node.conditionExp, s2);
    ListedSome(s); ListedSome(s4);
    ElseStart(|s.blocks|, s.cur, |s.order| - 1, s2, s3);
    var r := IfRecord(|s.order| - 1, |s2.order| - 1, |s4.order| - 1);
    if IfFree(node.thenExp) { NoRecords(s2.blocks, s2.order, r.ht, r2); }
    IfLowered(node, s, s2, s3, s4, s5, r, r2, r4);
    records := [r] + r2 + r4;
  }
}
