/** Exactly which programs the renaming gets right. A phi inside a then-arm leaves its entry on the stack
    for the else-arm; that does harm just where the else-arm still needs the value from before the
    conditional. */
module Naming {
  import opened Common
  import opened Ir
  import opened Dominance
  import opened Cfg
  import opened DominatorTree
  import opened Renaming
  import opened ReachingDefs
  import opened SsaForm
  import opened Builder
  import opened Structured

  /** Every read and every phi argument names the definition that reaches it, on every path. */
  ghost predicate NamesRight(f: seq<CFGBlock>, v: string) {
    && (forall y, i, p, k :: IncomingRead(f, v, y, i, p, k) ==> ReadNames(f, v, y, i, p[k]))
    && (forall y, i, q, p, k :: ArgumentRead(f, v, y, i, q, p, k) ==> ArgumentNames(f, v, y, i, q, p[k]))
  }

  /** Block `order[i]` of the then-arm has a phi, and block `order[j]` of the else-arm takes the value from
      above, with no definition on the way inside the else-arm. */
  ghost predicate SeesOld(f: seq<CFGBlock>, order: seq<nat>, r: IfRecord, v: string, i: nat, j: nat) {
    && r.p + 1 <= i <= r.ht < |order| && HasPhi(f, order[i], v)
    && r.ht + 1 <= j <= r.he < |order| && NeedsIncoming(f, order[j], v)
    && forall l :: r.ht + 1 <= l <= r.he && SDom(SuccsOf(f), order[l], order[j]) ==> !Defines(f, order[l], v)
  }

  ghost predicate ElseSeesOld(f: seq<CFGBlock>, order: seq<nat>, records: seq<IfRecord>, v: string) {
    exists k, i, j :: 0 <= k < |records| && SeesOld(f, order, records[k], v, i, j)
  }

  ghost predicate PhisFirst(f: seq<CFGBlock>) {
    forall y, i, j :: 0 <= y < |f| && 0 <= i < j < |f[y].statements| && f[y].statements[j].IRPhiNode? ==> f[y].statements[i].IRPhiNode?
  }

  /** A built graph with its phis in place, renamed. */
  ghost predicate RenamedGraph(f: seq<CFGBlock>, order: seq<nat>, records: seq<IfRecord>, v: string) {
    && Built(f, order, records) && TreeOk(f) && PhisPlaced(f, v) && PhisOnlyAtFrontiers(f, v) && PhisFirst(f)
    && Strict(f, v) && ReadsRight(f, v)
  }

  // ---------------------------------------------------------------- leftovers

  /** Leftovers meet a block with a phi of its own, or the first block of an else-arm. */
  lemma PollutedSplits(f: seq<CFGBlock>, order: seq<nat>, records: seq<IfRecord>, v: string, z: nat) returns (k: nat, i: nat)
    requires Built(f, order, records) && TreeOk(f) && PhisPlaced(f, v) && Polluted(f, v, z) && !HasPhi(f, z, v)
    ensures k < |records| && RecordOk(f, order, records[k]) && records[k].p + 1 <= i <= records[k].ht < |order| && HasPhi(f, order[i], v)
    ensures records[k].ht + 1 < |order| && z == order[records[k].ht + 1]
  {
    hide Mirrored, Ordered, Recorded, RecordOk, Region, Arm, TreeOk, PhisPlaced, HasPhi, Dominance.Dom;
    var w, q :| PollutedBy(f, v, z, w, q);
    var l, j;
    k, l, j := SameConditional(f, order, records, w, z);
    var r := records[k];
    RecordArms(f, order, r);
    RecordPositions(f, order, r);
    if l == r.p + 1 {
      ArmDominatesArmOnly(f, order, r.p, r.p + 1, r.ht, r.ht + 1, r.he, r.he + 1, q);
      i := Pos(order, q);
      if j == r.he + 1 { PhiReachesMerge(f, order, v, r.p, r.p + 1, r.ht, r.ht + 1, r.he, r.he + 1, q); }
    } else {
      i := r.p + 1;
      ArmDominatesArmOnly(f, order, r.p, r.ht + 1, r.he, r.p + 1, r.ht, r.he + 1, q);
      PhiReachesMerge(f, order, v, r.p, r.ht + 1, r.he, r.p + 1, r.ht, r.he + 1, q);
    }
  }

  /** Where a record's else-arm lies in the dominator tree. */
  lemma ElseArm(f: seq<CFGBlock>, order: seq<nat>, records: seq<IfRecord>, k: nat, y: nat)
    requires Built(f, order, records) && TreeOk(f) && k < |records| && y < |f|
    ensures var r := records[k];
            && r.p < r.ht < r.he && r.he + 1 < |order| && y in order
            && (Dom(SuccsOf(f), order[r.ht + 1], y) <==> r.ht + 1 <= Pos(order, y) <= r.he)
  {
    hide Mirrored, Ordered, Region, RecordOk, Arm, TreeOk, Dominance.Dom, Reachable;
    var r := records[k];
    assert RecordIn(f, order, 0, |order| - 1, r);
    RecordArms(f, order, r);
    RecordPositions(f, order, r);
    AllReachable(f, order, Pos(order, y));
    if Dom(SuccsOf(f), order[r.ht + 1], y) {
      ArmDominatesArmOnly(f, order, r.p, r.ht + 1, r.he, r.p + 1, r.ht, r.he + 1, y);
    }
    if r.ht + 1 <= Pos(order, y) <= r.he {
      RecordElseRegion(f, order, r);
      RegionDominated(f, order, r.ht + 1, r.he, Pos(order, y));
    }
  }

  lemma RecordElseRegion(f: seq<CFGBlock>, order: seq<nat>, r: IfRecord)
    requires RecordOk(f, order, r)
    ensures Region(f, order, r.ht + 1, r.he)
  {
  }

  lemma ReachedBlock(f: seq<CFGBlock>, order: seq<nat>, records: seq<IfRecord>, y: nat)
    requires Built(f, order, records) && y < |f|
    ensures Reachable(SuccsOf(f), y)
  {
    AllReachable(f, order, Pos(order, y));
  }

  lemma PosOf(f: seq<CFGBlock>, order: seq<nat>, records: seq<IfRecord>, j: nat)
    requires Built(f, order, records) && j < |order|
    ensures order[j] < |f| && Pos(order, order[j]) == j
  {
    PosUnique(order, j);
  }

  // ---------------------------------------------------------------- a value from before is misnamed

  /** A definition above such a block lies above the whole else-arm, which is entered with leftovers. */
  lemma OldIsPolluted(f: seq<CFGBlock>, order: seq<nat>, records: seq<IfRecord>, v: string, k: nat, i: nat, j: nat, d: nat)
    requires Built(f, order, records) && TreeOk(f) && k < |records| && SeesOld(f, order, records[k], v, i, j)
    requires SDom(SuccsOf(f), d, order[j]) && Defines(f, d, v)
    ensures !Unpolluted(f, v, d, order[j])
  {
    hide Built, TreeOk, HasPhi, NeedsIncoming, Polluted, Reachable, Dominance.Dom, Defines;
    var g, r := SuccsOf(f), records[k];
    var e, y := order[r.ht + 1], order[j];
    PosOf(f, order, records, j);
    DefinesInRange(f, d, v);
    ElseArm(f, order, records, k, y);
    ElseArm(f, order, records, k, d);
    PosOf(f, order, records, r.ht + 1);
    ReachedBlock(f, order, records, y);
    ReachedBlock(f, order, records, e);
    DomChain(g, d, e, y);
    assert SDom(g, d, e);
    ElseArmPolluted(f, order, records, v, k, i);
  }

  lemma DefinesInRange(f: seq<CFGBlock>, d: nat, v: string)
    requires Defines(f, d, v)
    ensures d < |f|
  {
  }

  /** Every read of the value from before the conditional in such a block is misnamed. */
  lemma OldMisread(f: seq<CFGBlock>, order: seq<nat>, records: seq<IfRecord>, v: string, k: nat, i: nat, j: nat,
                   n: nat, p: seq<nat>, d: nat)
    requires RenamedGraph(f, order, records, v) && k < |records| && SeesOld(f, order, records[k], v, i, j)
    requires IncomingRead(f, v, order[j], n, p, d)
    ensures !ReadNames(f, v, order[j], n, p[d])
  {
    hide Built, TreeOk, PhisPlaced, PhisOnlyAtFrontiers, PhisFirst, Strict, HasPhi, ReadNames, Unpolluted, SeesOld;
    SeesOldRange(f, order, records[k], v, i, j);
    LastDefIs(f, v, order[j], p, d);
    OldIsPolluted(f, order, records, v, k, i, j, p[d]);
  }

  lemma SeesOldRange(f: seq<CFGBlock>, order: seq<nat>, r: IfRecord, v: string, i: nat, j: nat)
    requires SeesOld(f, order, r, v, i, j)
    ensures i < |order| && j < |order| && NeedsIncoming(f, order[j], v)
  {
  }

  /** And so is every phi argument that such a block hands on. */
  lemma OldMisargued(f: seq<CFGBlock>, order: seq<nat>, records: seq<IfRecord>, v: string, k: nat, i: nat, j: nat,
                     y: nat, n: nat, p: seq<nat>, d: nat)
    requires RenamedGraph(f, order, records, v) && k < |records| && SeesOld(f, order, records[k], v, i, j)
    requires ArgumentRead(f, v, y, n, order[j], p, d) && CountDefs(f[order[j]].statements, v) == 0
    ensures !ArgumentNames(f, v, y, n, order[j], p[d])
  {
    hide Built, TreeOk, PhisPlaced, PhisOnlyAtFrontiers, PhisFirst, Strict, ArgumentNames, Unpolluted, SeesOld;
    SeesOldRange(f, order, records[k], v, i, j);
    var q := order[j];
    LastDefBefore(f, v, y, q, p, d);
    LastDefIs(f, v, q, p, d);
    OldIsPolluted(f, order, records, v, k, i, j, p[d]);
  }

  /** A last definition on the way to a phi lies before a block that defines nothing. */
  lemma LastDefBefore(f: seq<CFGBlock>, v: string, y: nat, q: nat, p: seq<nat>, d: nat)
    requires PathTo(SuccsOf(f), p, q) && LastDefOn(f, v, p + [y], d) && !Defines(f, q, v)
    ensures LastDefOn(f, v, p, d)
  {
    assert (p + [y])[d] == p[d];
    assert forall j :: d < j < |p| ==> (p + [y])[j] == p[j];
  }

  /** A block that takes the value from above does so in a read or in a phi argument. */
  lemma OldIsUsed(f: seq<CFGBlock>, order: seq<nat>, records: seq<IfRecord>, v: string, k: nat, i: nat, j: nat)
    requires RenamedGraph(f, order, records, v) && k < |records| && SeesOld(f, order, records[k], v, i, j)
    ensures !NamesRight(f, v)
  {
    hide Built, TreeOk, PhisPlaced, PhisOnlyAtFrontiers, ReadsRight, ReadNames, ArgumentNames, SeesOld;
    SeesOldRange(f, order, records[k], v, i, j);
    var y := order[j];
    ReachedBlock(f, order, records, y);
    var p :| PathTo(SuccsOf(f), p, y);
    var d := LastDefExists(f, v, y, p);
    if n: nat :| ReadsIncoming(f[y].statements, n, v) {
      ReadHasNoPhi(f, y, n, v);
      OldMisread(f, order, records, v, k, i, j, n, p, d);
    } else {
      var z, n :| z in f[y].succs && z < |f| && 0 <= n < |f[z].statements| && TakesArg(f[z].statements[n], y, v);
      ArgumentComes(f, v, z, n, y, p, d);
      OldMisargued(f, order, records, v, k, i, j, z, n, p, d);
    }
  }

  lemma ArgumentComes(f: seq<CFGBlock>, v: string, y: nat, n: nat, q: nat, p: seq<nat>, d: nat)
    requires q < |f| && y < |f| && y in f[q].succs && n < |f[y].statements| && TakesArg(f[y].statements[n], q, v)
    requires PathTo(SuccsOf(f), p, q) && LastDefOn(f, v, p, d) && !Defines(f, q, v)
    ensures ArgumentRead(f, v, y, n, q, p, d)
  {
    assert (p + [y])[d] == p[d];
    assert forall j :: d < j < |p| ==> (p + [y])[j] == p[j];
  }

  lemma ReadHasNoPhi(f: seq<CFGBlock>, y: nat, n: nat, v: string)
    requires PhisFirst(f) && y < |f| && ReadsIncoming(f[y].statements, n, v)
    ensures !HasPhi(f, y, v)
  {
    var s := f[y].statements;
    if CountPhis(s, v) > 0 {
      var j := SomePhi(s, v);
      assert s[j].IRPhiNode?;
      assert j < n;
      PhiCountedBefore(s, n, j, v);
    }
  }

  lemma SomePhi(s: seq<IRNode>, v: string) returns (j: nat)
    requires CountPhis(s, v) > 0
    ensures j < |s| && IsPhi(s[j], v)
  {
    var n := |s| - 1;
    if IsPhi(s[n], v) { j := n; } else { j := SomePhi(s[..n], v); }
  }

  lemma PhiCountedBefore(s: seq<IRNode>, n: nat, j: nat, v: string)
    requires j < n <= |s| && IsPhi(s[j], v)
    ensures CountDefs(s[..n], v) > 0
    decreases n
  {
    CountStep(s, n - 1, v);
    if j < n - 1 { PhiCountedBefore(s, n - 1, j, v); }
  }

  // ---------------------------------------------------------------- and nothing else is

  /** A value taken from above, with leftovers in between, is a value from before a conditional with a phi
      in its then-arm. */
  lemma PollutedIsOld(f: seq<CFGBlock>, order: seq<nat>, records: seq<IfRecord>, v: string, d: nat, y: nat)
    requires RenamedGraph(f, order, records, v) && NearestDef(f, v, d, y) && !HasPhi(f, y, v) && NeedsIncoming(f, y, v)
    requires !Unpolluted(f, v, d, y)
    ensures ElseSeesOld(f, order, records, v)
  {
    hide Built, TreeOk, PhisPlaced, PhisOnlyAtFrontiers, PhisFirst, Strict, ReadsRight, NeedsIncoming, Polluted, Reachable, Dominance.Dom, HasPhi;
    var g := SuccsOf(f);
    var z :| SDom(g, d, z) && Dom(g, z, y) && Reachable(g, z) && Polluted(f, v, z);
    if HasPhi(f, z, v) {
      PhiDefines(f, z, v);
      DomAntisymmetric(g, d, z);
    } else {
      var k, i := PollutedSplits(f, order, records, v, z);
      NeedsInRange(f, y, v);
      ElseArm(f, order, records, k, y);
      OnlyAbove(f, order, records, v, k, d, y, z);
      assert SeesOld(f, order, records[k], v, i, Pos(order, y));
    }
  }

  lemma NeedsInRange(f: seq<CFGBlock>, y: nat, v: string)
    requires NeedsIncoming(f, y, v)
    ensures y < |f|
  {
  }

  lemma PhiDefines(f: seq<CFGBlock>, z: nat, v: string)
    requires HasPhi(f, z, v)
    ensures Defines(f, z, v)
  {
  }

  lemma OnlyAbove(f: seq<CFGBlock>, order: seq<nat>, records: seq<IfRecord>, v: string, k: nat, d: nat, y: nat, z: nat)
    requires Built(f, order, records) && TreeOk(f) && k < |records| && NearestDef(f, v, d, y) && SDom(SuccsOf(f), d, z)
    requires records[k].ht + 1 < |order| && z == order[records[k].ht + 1] && Reachable(SuccsOf(f), z)
    ensures forall l :: records[k].ht + 1 <= l <= records[k].he && l < |order| && SDom(SuccsOf(f), order[l], y) ==> !Defines(f, order[l], v)
  {
    hide Built, TreeOk, Reachable, Dominance.Dom, Defines;
    var g, r := SuccsOf(f), records[k];
    forall l: nat | r.ht + 1 <= l <= r.he && l < |order| && SDom(g, order[l], y) && Defines(f, order[l], v) ensures false {
      PosOf(f, order, records, l);
      ElseArm(f, order, records, k, order[l]);
      DomTransitive(g, z, order[l], d);
      DomAntisymmetric(g, d, z);
    }
  }

  /** The renaming names every read and every phi argument right if and only if no else-arm takes a value
      from before a conditional that has a phi for it in its then-arm. */
  lemma NamedExactly(f: seq<CFGBlock>, order: seq<nat>, records: seq<IfRecord>, v: string)
    requires RenamedGraph(f, order, records, v)
    ensures NamesRight(f, v) <==> !ElseSeesOld(f, order, records, v)
  {
    hide RenamedGraph, SeesOld, ReadNames, ArgumentNames, HasPhi, ReadsIncoming, TakesArg, Defines;
    if ElseSeesOld(f, order, records, v) {
      var k, i, j :| 0 <= k < |records| && SeesOld(f, order, records[k], v, i, j);
      OldIsUsed(f, order, records, v, k, i, j);
    } else {
      forall y, i, p, k | IncomingRead(f, v, y, i, p, k) ensures ReadNames(f, v, y, i, p[k]) {
        ReadRight(f, order, records, v, y, i, p, k);
      }
      forall y, i, q, p, k | ArgumentRead(f, v, y, i, q, p, k) ensures ArgumentNames(f, v, y, i, q, p[k]) {
        ArgumentRight(f, order, records, v, y, i, q, p, k);
      }
    }
  }

  lemma ReadRight(f: seq<CFGBlock>, order: seq<nat>, records: seq<IfRecord>, v: string, y: nat, i: nat, p: seq<nat>, k: nat)
    requires RenamedGraph(f, order, records, v) && !ElseSeesOld(f, order, records, v) && IncomingRead(f, v, y, i, p, k)
    ensures ReadNames(f, v, y, i, p[k])
  {
    hide Built, TreeOk, PhisPlaced, PhisOnlyAtFrontiers, PhisFirst, Strict, HasPhi, ReadNames, Unpolluted, NearestDef, ElseSeesOld;
    LastDefIs(f, v, y, p, k);
    if !Unpolluted(f, v, p[k], y) { PollutedIsOld(f, order, records, v, p[k], y); }
  }

  lemma ArgumentRight(f: seq<CFGBlock>, order: seq<nat>, records: seq<IfRecord>, v: string, y: nat, i: nat, q: nat, p: seq<nat>, k: nat)
    requires RenamedGraph(f, order, records, v) && !ElseSeesOld(f, order, records, v) && ArgumentRead(f, v, y, i, q, p, k)
    ensures ArgumentNames(f, v, y, i, q, p[k])
  {
    hide Built, TreeOk, PhisPlaced, PhisOnlyAtFrontiers, PhisFirst, Strict, ArgumentNames, Unpolluted, NearestDef, ElseSeesOld;
    assert (p + [y])[k] == p[k];
    if k == |p| - 1 {
      UnpollutedSelf(f, v, q);
    } else {
      assert (p + [y])[|p| - 1] == q;
      LastDefBefore(f, v, y, q, p, k);
      LastDefIs(f, v, q, p, k);
      assert NeedsIncoming(f, q, v);
      if !Unpolluted(f, v, p[k], q) { PollutedIsOld(f, order, records, v, p[k], q); }
    }
  }

  /** Without conditionals in then-arms there is no phi in a then-arm at all. */
  lemma FlatNeverSeesOld(f: seq<CFGBlock>, order: seq<nat>, records: seq<IfRecord>, v: string)
    requires RenamedGraph(f, order, records, v) && forall k :: 0 <= k < |records| ==> records[k].ht == records[k].p + 1
    ensures !ElseSeesOld(f, order, records, v)
  {
    hide RenamedGraph, HasPhi, NeedsIncoming;
    forall k, i: nat, j: nat | 0 <= k < |records| ensures !SeesOld(f, order, records[k], v, i, j) {
      ThenStartHasNoPhi(f, order, records, v, k);
    }
  }

  lemma ThenStartHasNoPhi(f: seq<CFGBlock>, order: seq<nat>, records: seq<IfRecord>, v: string, k: nat)
    requires RenamedGraph(f, order, records, v) && k < |records|
    ensures records[k].p + 1 < |order| && !HasPhi(f, order[records[k].p + 1], v)
  {
    hide TreeOk, PhisPlaced, PhisFirst, Strict, ReadsRight, HasPhi, Mirrored, Ordered, Region, Arm, PhisOnlyAtFrontiers, RecordOk;
    var r := records[k];
    assert RecordIn(f, order, 0, |order| - 1, r);
    RecordArms(f, order, r);
    ArmFirst(f, order, r.p, r.p + 1, r.ht, r.he + 1);
    NoPhiAfterBranch(f, order, v, order[r.p], order[r.p + 1]);
  }
}
