/** One more symbol: the step of the construction, with or without a clone, keeps the invariant. */
module SuffixStep {
  import opened SuffixTheory

  /** What a step decides: `m`, the length of the longest suffix of the new text that is already a
      substring; the state `b` of that suffix after the step; the state `q` that was split (if any);
      the states that got a transition to the new state; and those redirected to the clone. */
  datatype Choice = Choice(m: int, b: int, q: int, split: bool, added: set<int>, redirected: set<int>)

  ghost function NewTransitions(st: seq<State>, c: char, k: Choice, r: int): map<char, int>
    requires 0 <= r < |st|
  {
    if r in k.added then st[r].transitions[c := |st|]
    else if r in k.redirected then st[r].transitions[c := |st| + 1]
    else st[r].transitions
  }

  /** The states after the step. */
  ghost predicate Updated(st: seq<State>, s: string, c: char, k: Choice, st': seq<State>) {
    var n := |st|;
    && |st'| == (if k.split then n + 2 else n + 1)
    && (forall r :: 0 <= r < n ==> st'[r] == st[r].(
          transitions := NewTransitions(st, c, k, r), link := if k.split && r == k.q then n + 1 else st[r].link))
    && st'[n] == State(|s| + 1, k.b, |s|, n, [], map[])
    && (if k.split
        then 0 < k.q < n && k.b == n + 1 && 0 <= st[k.q].link < n
             && st'[n + 1] == State(k.m, st[k.q].link, st[k.q].first, n + 1, [], NewTransitions(st, c, k, k.q))
        else 0 <= k.b < n && k.redirected == {})
  }

  ghost predicate SplitOk(st: seq<State>, s: string, c: char, k: Choice) {
    if k.split
    then 0 < k.q < |st| && 0 <= st[k.q].link < |st| && st[st[k.q].link].length < k.m < st[k.q].length
    else 0 <= k.b < |st| && st[k.b].length == k.m
  }

  /** The state that held the suffix of length `m` before the step. */
  ghost function Base(k: Choice): int {
    if k.split then k.q else k.b
  }

  ghost predicate Border(st: seq<State>, s: string, c: char, k: Choice) {
    && 0 <= k.m <= |s|
    && In(st, s, (s + [c])[|s| + 1 - k.m..], Base(k))
    && forall w :: IsSuffix(w, s + [c]) ==> (Factor(s, w) <==> |w| <= k.m)
  }

  ghost predicate AddedOk(st: seq<State>, s: string, c: char, k: Choice) {
    && (forall a :: a in k.added ==> 0 <= a < |st| && c !in st[a].transitions && IsSuffix(Longest(st, s, a), s))
    && (forall a, w :: a in k.added && In(st, s, w, a) ==> k.m <= |w|)
    && (forall w :: IsSuffix(w, s) && !Factor(s, w + [c]) ==> HeldByAdded(st, s, k, w))
  }

  ghost predicate HeldByAdded(st: seq<State>, s: string, k: Choice, w: string) {
    exists a :: a in k.added && In(st, s, w, a)
  }

  ghost predicate RedirectedOk(st: seq<State>, s: string, c: char, k: Choice) {
    && (forall r :: r in k.redirected ==> 0 <= r < |st| && c in st[r].transitions && st[r].transitions[c] == k.q)
    && (forall r, w :: r in k.redirected && In(st, s, w, r) ==> |w| + 1 <= k.m)
    && (k.split ==> forall r, d, w :: LeadsTo(st, s, r, d, w, k.q) && |w| + 1 <= k.m ==> d == c && r in k.redirected)
  }

  ghost predicate LeadsTo(st: seq<State>, s: string, r: int, d: char, w: string, q: int) {
    In(st, s, w, r) && d in st[r].transitions && st[r].transitions[d] == q
  }

  ghost predicate Stepped(st: seq<State>, s: string, c: char, k: Choice, st': seq<State>) {
    && Inv(st, s) && Updated(st, s, c, k, st') && SplitOk(st, s, c, k)
    && Border(st, s, c, k) && AddedOk(st, s, c, k) && RedirectedOk(st, s, c, k)
  }

  // ---------------------------------------------------------------- members before and after

  lemma OldLongest(st: seq<State>, s: string, c: char, k: Choice, st': seq<State>, r: int)
    requires Linked(st, s) && Updated(st, s, c, k, st') && 0 <= r < |st|
    ensures Longest(st', s + [c], r) == Longest(st, s, r)
  {
    hide Linked, Updated, IsSuffix;
    OldFields(st, s, c, k, st', r);
    if r > 0 {
      OldState(st, s, r);
      InnerSlice(s, c, st[r].first + 1 - st[r].length, st[r].first + 1);
    }
  }

  lemma OldFields(st: seq<State>, s: string, c: char, k: Choice, st': seq<State>, r: int)
    requires Updated(st, s, c, k, st') && 0 <= r < |st|
    ensures |st'| > r && st'[r].length == st[r].length && st'[r].first == st[r].first && st'[r].index == st[r].index
    ensures st'[r].link == if k.split && r == k.q then |st| + 1 else st[r].link
  {
  }

  lemma InnerSlice(s: string, c: char, i: int, j: int)
    requires 0 <= i <= j <= |s|
    ensures (s + [c])[i..j] == s[i..j]
  {
  }

  lemma CloneString(s: string, c: char, f: int, l: int, m: int, border: string)
    requires 0 <= m <= l <= f + 1 <= |s| && |border| == m && IsSuffix(border, s[f + 1 - l..f + 1])
    ensures (s + [c])[f + 1 - m..f + 1] == border
  {
    assert s[f + 1 - l..f + 1][l - m..] == s[f + 1 - m..f + 1];
    assert (s + [c])[f + 1 - m..f + 1] == s[f + 1 - m..f + 1];
  }

  lemma NewLongest(st: seq<State>, s: string, c: char, k: Choice, st': seq<State>)
    requires |st| > 0 && Updated(st, s, c, k, st')
    ensures Longest(st', s + [c], |st|) == s + [c]
  {
    var t := s + [c];
    assert t[0..|s| + 1] == t;
  }

  lemma CloneLongest(st: seq<State>, s: string, c: char, k: Choice, st': seq<State>)
    requires Linked(st, s) && Updated(st, s, c, k, st') && SplitOk(st, s, c, k) && Border(st, s, c, k) && k.split
    ensures Longest(st', s + [c], |st| + 1) == (s + [c])[|s| + 1 - k.m..]
  {
    hide Linked, Border, Updated, IsSuffix, In, Longest;
    BorderIn(st, s, c, k);
    CloneFields(st, s, c, k, st');
    OldState(st, s, k.q);
    MemberSuffix(st, s, (s + [c])[|s| + 1 - k.m..], k.q);
    LongestIs(st, s, k.q);
    CloneString(s, c, st[k.q].first, st[k.q].length, k.m, (s + [c])[|s| + 1 - k.m..]);
    LongestIs(st', s + [c], |st| + 1);
  }

  lemma LongestIs(st: seq<State>, s: string, q: int)
    requires 0 < q < |st| && 0 <= st[q].length <= st[q].first + 1 <= |s|
    ensures Longest(st, s, q) == s[st[q].first + 1 - st[q].length..st[q].first + 1]
  {
  }

  lemma BorderIn(st: seq<State>, s: string, c: char, k: Choice)
    requires Border(st, s, c, k)
    ensures 0 <= k.m <= |s| && In(st, s, (s + [c])[|s| + 1 - k.m..], Base(k)) && IsSuffix((s + [c])[|s| + 1 - k.m..], s + [c])
  {
  }

  lemma CloneFields(st: seq<State>, s: string, c: char, k: Choice, st': seq<State>)
    requires Updated(st, s, c, k, st') && k.split
    ensures |st'| == |st| + 2 && 0 < k.q < |st| && st'[|st| + 1].length == k.m && st'[|st| + 1].first == st[k.q].first
    ensures st'[|st| + 1].index == |st| + 1 && st'[|st| + 1].link == st[k.q].link
  {
  }

  lemma OldState(st: seq<State>, s: string, q: int)
    requires Linked(st, s) && 0 < q < |st|
    ensures StateOk(st, s, q)
  {
  }

  lemma BorderLongest(st: seq<State>, s: string, c: char, k: Choice, st': seq<State>)
    requires Linked(st, s) && Updated(st, s, c, k, st') && SplitOk(st, s, c, k) && Border(st, s, c, k)
    ensures Longest(st', s + [c], k.b) == (s + [c])[|s| + 1 - k.m..]
  {
    hide Linked, Updated, Border, IsSuffix, Longest;
    if k.split {
      CloneLongest(st, s, c, k, st');
      SplitBorder(st, s, c, k, st');
    } else {
      BorderIn(st, s, c, k);
      OldLongest(st, s, c, k, st', k.b);
      LongestLength(st, s, k.b);
      WholeSuffix((s + [c])[|s| + 1 - k.m..], Longest(st, s, k.b));
    }
  }

  lemma SplitBorder(st: seq<State>, s: string, c: char, k: Choice, st': seq<State>)
    requires Updated(st, s, c, k, st') && k.split
    ensures k.b == |st| + 1
  {
  }

  lemma WholeSuffix(u: string, w: string)
    requires IsSuffix(u, w) && |u| == |w|
    ensures u == w
  {
    assert w[0..] == w;
  }

  /** A string of an old state stays, unless it goes to the clone. */
  lemma MembersAfter(st: seq<State>, s: string, c: char, k: Choice, st': seq<State>, w: string, r: int)
    requires Linked(st, s) && Updated(st, s, c, k, st') && SplitOk(st, s, c, k) && Border(st, s, c, k) && 0 <= r < |st|
    ensures In(st', s + [c], w, r) <==> In(st, s, w, r) && !(k.split && r == k.q && |w| <= k.m)
  {
    OldLongest(st, s, c, k, st', r);
    if r > 0 { assert StateOk(st, s, r); }
  }

  lemma MembersOfClone(st: seq<State>, s: string, c: char, k: Choice, st': seq<State>, w: string)
    requires Linked(st, s) && Updated(st, s, c, k, st') && SplitOk(st, s, c, k) && Border(st, s, c, k) && k.split
    ensures In(st', s + [c], w, |st| + 1) <==> In(st, s, w, k.q) && |w| <= k.m
  {
    CloneLongest(st, s, c, k, st');
    hide Linked, Longest, Factor;
    var border := (s + [c])[|s| + 1 - k.m..];
    assert st'[|st| + 1].link == st[k.q].link && st'[st[k.q].link].length == st[st[k.q].link].length;
    if IsSuffix(w, border) { SuffixTransitive(w, border, Longest(st, s, k.q)); }
    if IsSuffix(w, Longest(st, s, k.q)) && |w| <= k.m { SuffixesNest(w, border, Longest(st, s, k.q)); }
  }

  lemma MembersOfNew(st: seq<State>, s: string, c: char, k: Choice, st': seq<State>, w: string)
    requires Linked(st, s) && Updated(st, s, c, k, st') && SplitOk(st, s, c, k) && Border(st, s, c, k)
    ensures In(st', s + [c], w, |st|) <==> IsSuffix(w, s + [c]) && k.m < |w|
  {
    hide Linked, Longest, IsSuffix, Border, Updated;
    LinkedRoot(st, s);
    NewLongest(st, s, c, k, st');
    NewFields(st, s, c, k, st');
  }

  lemma LinkedRoot(st: seq<State>, s: string)
    requires Linked(st, s)
    ensures |st| > 0
  {
  }

  /** The new state links to the state of the border. */
  lemma NewFields(st: seq<State>, s: string, c: char, k: Choice, st': seq<State>)
    requires Updated(st, s, c, k, st') && SplitOk(st, s, c, k)
    ensures |st'| > |st| && st'[|st|].link == k.b && 0 <= k.b < |st'| && st'[k.b].length == k.m
  {
  }

  /** Where a string of an old state is after the step. */
  ghost function Home(st: seq<State>, k: Choice, w: string, r: int): int {
    if k.split && r == k.q && |w| <= k.m then |st| + 1 else r
  }

  lemma MemberHome(st: seq<State>, s: string, c: char, k: Choice, st': seq<State>, w: string, r: int)
    requires Stepped(st, s, c, k, st') && In(st, s, w, r)
    ensures In(st', s + [c], w, Home(st, k, w, r))
  {
    if k.split && r == k.q && |w| <= k.m {
      MembersOfClone(st, s, c, k, st', w);
    } else {
      MembersAfter(st, s, c, k, st', w, r);
    }
  }

  /** The old state whose string an old or cloned state holds. */
  ghost function Origin(st: seq<State>, k: Choice, r: int): int {
    if r == |st| + 1 then k.q else r
  }

  lemma MemberOrigin(st: seq<State>, s: string, c: char, k: Choice, st': seq<State>, w: string, r: int)
    requires Stepped(st, s, c, k, st') && In(st', s + [c], w, r) && r != |st|
    ensures In(st, s, w, Origin(st, k, r)) && r == Home(st, k, w, Origin(st, k, r))
  {
    hide Inv, Border, AddedOk, RedirectedOk, IsSuffix, Longest;
    SteppedLinked(st, s, c, k, st');
    if r == |st| + 1 {
      MembersOfClone(st, s, c, k, st', w);
    } else {
      MembersAfter(st, s, c, k, st', w, r);
    }
  }

  lemma SteppedLinked(st: seq<State>, s: string, c: char, k: Choice, st': seq<State>)
    requires Stepped(st, s, c, k, st')
    ensures Linked(st, s)
  {
  }

  // ---------------------------------------------------------------- the parts of the invariant

  lemma StepLinked(st: seq<State>, s: string, c: char, k: Choice, st': seq<State>)
    requires Stepped(st, s, c, k, st')
    ensures Linked(st', s + [c])
  {
    hide StateOk, Inv, Border, AddedOk, RedirectedOk;
    StepRootOk(st, s, c, k, st');
    forall q | 0 < q < |st'| ensures StateOk(st', s + [c], q) {
      if q < |st| {
        StepStateOk(st, s, c, k, st', q);
      } else if q == |st| {
        StepNewOk(st, s, c, k, st');
      } else {
        StepCloneOk(st, s, c, k, st');
      }
    }
  }

  lemma StepRootOk(st: seq<State>, s: string, c: char, k: Choice, st': seq<State>)
    requires Stepped(st, s, c, k, st')
    ensures |st'| > 0 && RootOk(st'[0])
  {
  }

  lemma StepNewOk(st: seq<State>, s: string, c: char, k: Choice, st': seq<State>)
    requires Stepped(st, s, c, k, st')
    ensures StateOk(st', s + [c], |st|)
  {
    hide Border, IsSuffix, Inv, AddedOk, RedirectedOk;
    SteppedLinked(st, s, c, k, st');
    BorderIn(st, s, c, k);
    NewLongest(st, s, c, k, st');
    BorderLongest(st, s, c, k, st');
  }

  lemma StepStateOk(st: seq<State>, s: string, c: char, k: Choice, st': seq<State>, q: int)
    requires Stepped(st, s, c, k, st') && 0 < q < |st|
    ensures StateOk(st', s + [c], q)
  {
    hide Inv, Border, AddedOk, RedirectedOk, IsSuffix, Longest, Updated;
    SteppedLinked(st, s, c, k, st');
    OldState(st, s, q);
    OldLongest(st, s, c, k, st', q);
    OldFields(st, s, c, k, st', q);
    if k.split && q == k.q {
      CloneLongest(st, s, c, k, st');
      CloneFields(st, s, c, k, st');
      BorderIn(st, s, c, k);
    } else {
      OldLongest(st, s, c, k, st', st[q].link);
      OldFields(st, s, c, k, st', st[q].link);
    }
  }

  lemma StepCloneOk(st: seq<State>, s: string, c: char, k: Choice, st': seq<State>)
    requires Stepped(st, s, c, k, st') && k.split
    ensures StateOk(st', s + [c], |st| + 1)
  {
    hide Inv, Border, AddedOk, RedirectedOk, IsSuffix, Longest, Updated;
    SteppedLinked(st, s, c, k, st');
    CloneFields(st, s, c, k, st');
    BorderIn(st, s, c, k);
    var l := st[k.q].link;
    OldState(st, s, k.q);
    CloneLongest(st, s, c, k, st');
    OldLongest(st, s, c, k, st', l);
    OldFields(st, s, c, k, st', l);
    LongestLength(st, s, l);
    SuffixesNest(Longest(st, s, l), (s + [c])[|s| + 1 - k.m..], Longest(st, s, k.q));
  }

  lemma StepTotal(st: seq<State>, s: string, c: char, k: Choice, st': seq<State>)
    requires Stepped(st, s, c, k, st')
    ensures Total(st', s + [c])
  {
    var t := s + [c];
    forall w | Factor(t, w) ensures HasState(st', t, w) {
      if Factor(s, w) {
        assert HasState(st, s, w);
        var r :| In(st, s, w, r);
        MemberHome(st, s, c, k, st', w, r);
      } else {
        var e :| Occurs(t, w, e);
        OccursExtended(s, c, w, e);
        MembersOfNew(st, s, c, k, st', w);
        assert In(st', t, w, |st|);
      }
    }
  }

  lemma StepUnique(st: seq<State>, s: string, c: char, k: Choice, st': seq<State>)
    requires Stepped(st, s, c, k, st')
    ensures Unique(st', s + [c])
  {
    var t, n := s + [c], |st|;
    forall w, q, r | In(st', t, w, q) && In(st', t, w, r) ensures q == r {
      MembersOfNew(st, s, c, k, st', w);
      if q != n {
        MemberOrigin(st, s, c, k, st', w, q);
        MemberOccurs(st, s, w, Origin(st, k, q));
      }
      if r != n {
        MemberOrigin(st, s, c, k, st', w, r);
        MemberOccurs(st, s, w, Origin(st, k, r));
      }
    }
  }

  /** A string of an old state that ends the new text takes its whole state along. */
  lemma BorderMembers(st: seq<State>, s: string, c: char, k: Choice, st': seq<State>, w: string, r: int)
    requires Stepped(st, s, c, k, st') && In(st', s + [c], w, r) && r != |st| && IsSuffix(w, s + [c])
    ensures IsSuffix(Longest(st', s + [c], r), s + [c])
  {
    hide Inv, Border, AddedOk, RedirectedOk, IsSuffix, Longest, In, Updated;
    SteppedLinked(st, s, c, k, st');
    SteppedUnique(st, s, c, k, st');
    BorderIn(st, s, c, k);
    var t, o, b := s + [c], Origin(st, k, r), Base(k);
    var border := t[|s| + 1 - k.m..];
    MemberOrigin(st, s, c, k, st', w, r);
    MemberOccurs(st, s, w, o);
    BorderFactor(st, s, c, k, w);
    SuffixesNest(w, border, t);
    OldRange(st, s, w, o);
    if o == b {
      BorderLongest(st, s, c, k, st');
      BaseHome(st, s, c, k, st', w, r);
    } else {
      OldLongest(st, s, c, k, st', o);
      BorderSuffixes(st, s, w, b, o, border, t);
    }
  }

  lemma SteppedUnique(st: seq<State>, s: string, c: char, k: Choice, st': seq<State>)
    requires Stepped(st, s, c, k, st')
    ensures Unique(st, s)
  {
  }

  lemma BorderFactor(st: seq<State>, s: string, c: char, k: Choice, w: string)
    requires Border(st, s, c, k) && IsSuffix(w, s + [c])
    ensures Factor(s, w) <==> |w| <= k.m
  {
  }

  lemma OldRange(st: seq<State>, s: string, w: string, q: int)
    requires In(st, s, w, q)
    ensures 0 <= q < |st|
  {
  }

  /** A short string of the base state is now at home in the state of the border. */
  lemma BaseHome(st: seq<State>, s: string, c: char, k: Choice, st': seq<State>, w: string, r: int)
    requires Updated(st, s, c, k, st') && |w| <= k.m && r == Home(st, k, w, Base(k))
    ensures r == k.b
  {
  }

  lemma BorderSuffixes(st: seq<State>, s: string, w: string, b: int, o: int, border: string, t: string)
    requires Linked(st, s) && Unique(st, s) && In(st, s, border, b) && In(st, s, w, o) && o != b
    requires IsSuffix(w, border) && IsSuffix(border, t)
    ensures IsSuffix(Longest(st, s, o), t)
  {
    SuffixTransitive(w, border, Longest(st, s, b));
    SuffixState(st, s, w, b, o);
    LongestLength(st, s, o);
    SuffixesNest(Longest(st, s, o), border, Longest(st, s, b));
    SuffixTransitive(Longest(st, s, o), border, t);
  }

  lemma StepUniform(st: seq<State>, s: string, c: char, k: Choice, st': seq<State>)
    requires Stepped(st, s, c, k, st') && Linked(st', s + [c])
    ensures Uniform(st', s + [c])
  {
    hide Linked, Longest, In, IsSuffix, Stepped, SameEnds;
    forall w, r | In(st', s + [c], w, r) ensures SameEnds(s + [c], w, Longest(st', s + [c], r)) {
      if r == |st| { NewUniform(st, s, c, k, st', w); } else { OldUniform(st, s, c, k, st', w, r); }
    }
  }

  /** The strings of the new state end only where the text ends. */
  lemma NewUniform(st: seq<State>, s: string, c: char, k: Choice, st': seq<State>, w: string)
    requires Stepped(st, s, c, k, st') && Linked(st', s + [c]) && In(st', s + [c], w, |st|)
    ensures SameEnds(s + [c], w, Longest(st', s + [c], |st|))
  {
    hide Linked, Longest, In, IsSuffix, Occurs, Inv, Border, AddedOk, RedirectedOk, Updated, SplitOk;
    var t := s + [c];
    var l := Longest(st', t, |st|);
    SteppedLinked(st, s, c, k, st');
    SteppedSizes(st, s, c, k, st');
    LongestLength(st', t, |st|);
    MembersOfNew(st, s, c, k, st', w);
    MembersOfNew(st, s, c, k, st', l);
    BorderFactor(st, s, c, k, w);
    BorderFactor(st, s, c, k, l);
    forall e ensures Occurs(t, w, e) <==> Occurs(t, l, e) {
      OccursExtended(s, c, w, e);
      OccursExtended(s, c, l, e);
      NoOccurrence(s, w, e);
      NoOccurrence(s, l, e);
    }
  }

  lemma NoOccurrence(s: string, w: string, e: int)
    requires !Factor(s, w)
    ensures !Occurs(s, w, e)
  {
  }

  lemma SteppedSizes(st: seq<State>, s: string, c: char, k: Choice, st': seq<State>)
    requires Stepped(st, s, c, k, st')
    ensures 0 < |st| < |st'|
  {
  }

  lemma SteppedUniform(st: seq<State>, s: string, c: char, k: Choice, st': seq<State>, w: string, q: int)
    requires Stepped(st, s, c, k, st') && In(st, s, w, q)
    ensures SameEnds(s, w, Longest(st, s, q))
  {
  }

  /** The strings of an old state or of the clone gain the end of the text together. */
  lemma OldUniform(st: seq<State>, s: string, c: char, k: Choice, st': seq<State>, w: string, r: int)
    requires Stepped(st, s, c, k, st') && Linked(st', s + [c]) && In(st', s + [c], w, r) && r != |st|
    ensures SameEnds(s + [c], w, Longest(st', s + [c], r))
  {
    var t := s + [c];
    var l := Longest(st', t, r);
    MemberSuffix(st', t, w, r);
    hide Linked, Longest, In, IsSuffix, Occurs, Stepped;
    LongestLength(st', t, r);
    MemberOrigin(st, s, c, k, st', w, r);
    MemberOrigin(st, s, c, k, st', l, r);
    SteppedUniform(st, s, c, k, st', w, Origin(st, k, r));
    SteppedUniform(st, s, c, k, st', l, Origin(st, k, r));
    forall e ensures Occurs(t, w, e) <==> Occurs(t, l, e) {
      OccursExtended(s, c, w, e);
      OccursExtended(s, c, l, e);
      if IsSuffix(w, t) { BorderMembers(st, s, c, k, st', w, r); }
      if IsSuffix(l, t) { SuffixTransitive(w, l, t); }
    }
  }

  lemma MemberSuffix(st: seq<State>, s: string, w: string, r: int)
    requires In(st, s, w, r)
    ensures 0 <= r < |st| && IsSuffix(w, Longest(st, s, r))
  {
  }

  lemma StepFirst(st: seq<State>, s: string, c: char, k: Choice, st': seq<State>)
    requires Stepped(st, s, c, k, st') && Linked(st', s + [c])
    ensures FirstOk(st', s + [c])
  {
    var t, n := s + [c], |st|;
    forall r, e | 0 < r < |st'| && Occurs(t, Longest(st', t, r), e) ensures st'[r].first + 1 <= e {
      var l := Longest(st', t, r);
      LongestLength(st', t, r);
      OccursExtended(s, c, l, e);
      if r == n {
        NewLongest(st, s, c, k, st');
      } else {
        MemberOrigin(st, s, c, k, st', l, r);
        var o := Origin(st, k, r);
        assert SameEnds(s, l, Longest(st, s, o));
        assert StateOk(st, s, o);
      }
    }
  }

  lemma NewStateStops(st: seq<State>, s: string, c: char, k: Choice, st': seq<State>, w: string, d: char)
    requires Stepped(st, s, c, k, st') && In(st', s + [c], w, |st|)
    ensures Moves(st', s + [c], w, |st|, d)
  {
    hide Inv, AddedOk, RedirectedOk, IsSuffix, Longest, In, Occurs, Border;
    var t := s + [c];
    SteppedLinked(st, s, c, k, st');
    MembersOfNew(st, s, c, k, st', w);
    BorderFactor(st, s, c, k, w);
    if Factor(t, w + [d]) {
      var e :| Occurs(t, w + [d], e);
      OccursSymbol(t, w, d, e);
      OccursExtended(s, c, w, e - 1);
      EndsWithin(t, w + [d], e);
    }
  }

  lemma EndsWithin(t: string, w: string, e: int)
    requires Occurs(t, w, e)
    ensures e <= |t|
  {
  }

  /** The transitions of an old state or of the clone. */
  lemma OldTransitions(st: seq<State>, s: string, c: char, k: Choice, st': seq<State>, r: int)
    requires Updated(st, s, c, k, st') && 0 <= r < |st'| && r != |st|
    ensures 0 <= Origin(st, k, r) < |st| && st'[r].transitions == NewTransitions(st, c, k, Origin(st, k, r))
  {
  }

  /** An existing transition leads where the longer string went. */
  lemma OldTransitionRight(st: seq<State>, s: string, c: char, k: Choice, w: string, o: int, d: char)
    requires In(st, s, w, o) && d in st[o].transitions && !(o in k.added && d == c)
    requires RedirectedOk(st, s, c, k) && (!k.split ==> k.redirected == {})
    ensures d in NewTransitions(st, c, k, o)
    ensures NewTransitions(st, c, k, o)[d] == Home(st, k, w + [d], st[o].transitions[d])
  {
    assert LeadsTo(st, s, o, d, w, st[o].transitions[d]);
    hide In, LeadsTo;
    if o in k.redirected && d == c {
      assert st[o].transitions[d] == k.q && |w| + 1 <= k.m;
    } else {
      assert NewTransitions(st, c, k, o)[d] == st[o].transitions[d];
    }
  }

  lemma OldStateMoves(st: seq<State>, s: string, c: char, k: Choice, st': seq<State>, w: string, r: int, d: char)
    requires Stepped(st, s, c, k, st') && In(st', s + [c], w, r) && r != |st|
    ensures Moves(st', s + [c], w, r, d)
  {
    var t, o := s + [c], Origin(st, k, r);
    MemberOrigin(st, s, c, k, st', w, r);
    OldTransitions(st, s, c, k, st', r);
    assert Moves(st, s, w, o, d);
    if o in k.added && d == c {
      SuffixTransitive(w, Longest(st, s, o), s);
      SuffixSymbol(w, s, c, d);
      MembersOfNew(st, s, c, k, st', w + [d]);
    } else if d in st[o].transitions {
      OldTransitionRight(st, s, c, k, w, o, d);
      MemberHome(st, s, c, k, st', w + [d], st[o].transitions[d]);
    } else {
      if Factor(t, w + [d]) {
        var e :| Occurs(t, w + [d], e);
        OccursExtended(s, c, w + [d], e);
        SuffixSymbol(w, s, c, d);
        HolderIsAdded(st, s, c, k, w, o);
      }
    }
  }

  lemma HolderIsAdded(st: seq<State>, s: string, c: char, k: Choice, w: string, o: int)
    requires AddedOk(st, s, c, k) && Unique(st, s) && In(st, s, w, o) && IsSuffix(w, s) && !Factor(s, w + [c])
    ensures o in k.added
  {
    assert HeldByAdded(st, s, k, w);
  }

  /** The construction step keeps the invariant, clone or not. */
  lemma StepKeepsInv(st: seq<State>, s: string, c: char, k: Choice, st': seq<State>)
    requires Stepped(st, s, c, k, st')
    ensures Inv(st', s + [c])
  {
    hide Stepped, Linked, Uniform, Total, Unique, FirstOk, In, Moves;
    StepLinked(st, s, c, k, st');
    StepUniform(st, s, c, k, st');
    StepTotal(st, s, c, k, st');
    StepUnique(st, s, c, k, st');
    StepFirst(st, s, c, k, st');
    forall w, r, d | In(st', s + [c], w, r) ensures Moves(st', s + [c], w, r, d) {
      if r == |st| {
        NewStateStops(st, s, c, k, st', w, d);
      } else {
        OldStateMoves(st, s, c, k, st', w, r, d);
      }
    }
  }
}
