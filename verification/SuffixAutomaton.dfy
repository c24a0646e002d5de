/** The class suffix_automaton: construction and queries. */
module SuffixAutomaton {
  import opened Common
  import opened SuffixTheory
  import opened SuffixStep

  // ---------------------------------------------------------------- climbing the links

  ghost predicate HeldBy(st: seq<State>, s: string, a: set<int>, w: string) {
    exists r :: r in a && In(st, s, w, r)
  }

  /** While climbing from `last`: the states of `a` hold the suffixes longer than those of `linked`,
      and none of them could read `c`. */
  ghost predicate Climbing(st: seq<State>, s: string, c: char, a: set<int>, linked: int) {
    && 0 <= linked < |st| && linked !in a && IsSuffix(Longest(st, s, linked), s)
    && Passed(st, s, c, a) && HoldLonger(st, s, a, st[linked].length) && HoldAll(st, s, a, st[linked].length)
  }

  /** The states passed end the text and cannot read `c`. */
  ghost predicate Passed(st: seq<State>, s: string, c: char, a: set<int>) {
    forall r :: r in a ==> 0 <= r < |st| && c !in st[r].transitions && IsSuffix(Longest(st, s, r), s)
  }

  ghost predicate HoldLonger(st: seq<State>, s: string, a: set<int>, n: int) {
    forall r, w :: r in a && In(st, s, w, r) ==> n < |w|
  }

  ghost predicate HoldAll(st: seq<State>, s: string, a: set<int>, n: int) {
    forall w :: IsSuffix(w, s) && n < |w| ==> HeldBy(st, s, a, w)
  }

  ghost predicate Climbed(st: seq<State>, s: string, c: char, a: set<int>, now: seq<State>) {
    && |now| == |st| + 1
    && (forall r :: 0 <= r < |st| ==> now[r] == if r in a then st[r].(transitions := st[r].transitions[c := |st|]) else st[r])
    && now[|st|] == State(|s| + 1, now[|st|].link, |s|, |st|, [], map[])
  }

  lemma ClimbStarts(st: seq<State>, s: string, c: char, last: int)
    requires Linked(st, s) && 0 <= last < |st| && Longest(st, s, last) == s
    ensures Climbing(st, s, c, {}, last)
  {
    LongestLength(st, s, last);
  }

  /** A suffix not longer than the strings of `linked` but longer than those of its link is in it. */
  lemma ClimbCovers(st: seq<State>, s: string, linked: int, w: string)
    requires Linked(st, s) && 0 <= linked < |st| && IsSuffix(Longest(st, s, linked), s) && IsSuffix(w, s)
    requires |w| <= st[linked].length && (linked > 0 ==> 0 <= st[linked].link < |st| && st[st[linked].link].length < |w|)
    ensures In(st, s, w, linked)
  {
    LongestLength(st, s, linked);
    SuffixesNest(w, Longest(st, s, linked), s);
  }

  lemma ClimbStep(st: seq<State>, s: string, c: char, a: set<int>, linked: int)
    requires Linked(st, s) && Climbing(st, s, c, a, linked) && c !in st[linked].transitions && linked > 0
    ensures 0 <= st[linked].link < |st| && st[st[linked].link].length < st[linked].length
    ensures Climbing(st, s, c, a + {linked}, st[linked].link)
  {
    hide Linked, Longest, In, IsSuffix, HoldLonger, HoldAll, Passed;
    OldState(st, s, linked);
    PassedStep(st, s, c, a, linked);
    var l, a' := st[linked].link, a + {linked};
    SuffixTransitive(Longest(st, s, l), Longest(st, s, linked), s);
    NotPassed(st, s, a, st[linked].length, l);
    LongerStep(st, s, a, linked);
    AllStep(st, s, a, linked);
  }

  lemma PassedStep(st: seq<State>, s: string, c: char, a: set<int>, linked: int)
    requires Passed(st, s, c, a) && 0 <= linked < |st| && c !in st[linked].transitions && IsSuffix(Longest(st, s, linked), s)
    ensures Passed(st, s, c, a + {linked})
  {
  }

  lemma NotPassed(st: seq<State>, s: string, a: set<int>, n: int, l: int)
    requires Linked(st, s) && HoldLonger(st, s, a, n) && 0 <= l < |st| && st[l].length < n
    ensures l !in a
  {
    LongestLength(st, s, l);
  }

  lemma LongerStep(st: seq<State>, s: string, a: set<int>, linked: int)
    requires 0 < linked < |st| && 0 <= st[linked].link < |st| && st[st[linked].link].length < st[linked].length
    requires HoldLonger(st, s, a, st[linked].length)
    ensures HoldLonger(st, s, a + {linked}, st[st[linked].link].length)
  {
    hide Longest, IsSuffix;
  }

  lemma AllStep(st: seq<State>, s: string, a: set<int>, linked: int)
    requires Linked(st, s) && 0 < linked < |st| && IsSuffix(Longest(st, s, linked), s)
    requires 0 <= st[linked].link < |st| && HoldAll(st, s, a, st[linked].length)
    ensures HoldAll(st, s, a + {linked}, st[st[linked].link].length)
  {
    hide Linked, Longest, IsSuffix, In, HeldBy;
    forall w | IsSuffix(w, s) && st[st[linked].link].length < |w| ensures HeldBy(st, s, a + {linked}, w) {
      HeldByMore(st, s, a, linked, w);
    }
  }

  lemma HeldByMore(st: seq<State>, s: string, a: set<int>, linked: int, w: string)
    requires Linked(st, s) && 0 < linked < |st| && IsSuffix(Longest(st, s, linked), s) && IsSuffix(w, s)
    requires st[linked].length < |w| ==> HeldBy(st, s, a, w)
    requires 0 <= st[linked].link < |st| && st[st[linked].link].length < |w|
    ensures HeldBy(st, s, a + {linked}, w)
  {
    if st[linked].length < |w| {
      var r :| r in a && In(st, s, w, r);
      assert r in a + {linked};
    } else {
      ClimbCovers(st, s, linked, w);
      assert linked in a + {linked};
    }
  }

  lemma ClimbEnds(st: seq<State>, s: string, c: char, a: set<int>, w: string)
    requires Inv(st, s) && Climbing(st, s, c, a, 0) && IsSuffix(w, s)
    ensures HeldBy(st, s, a + {0}, w)
  {
    hide Inv, Linked, In, Longest, IsSuffix, Passed, HoldLonger;
    StateLinked(st, s);
    RootLength(st, s);
    if |w| > 0 {
      assert HeldBy(st, s, a, w);
      var r :| r in a && In(st, s, w, r);
      assert r in a + {0};
    } else {
      ClimbCovers(st, s, 0, w);
      assert 0 in a + {0};
    }
  }

  lemma RootLength(st: seq<State>, s: string)
    requires Linked(st, s)
    ensures |st| > 0 && st[0].length == 0
  {
  }

  /** A suffix held by a state that cannot read `c` is not followed by `c` in the text. */
  lemma HeldStops(st: seq<State>, s: string, c: char, a: set<int>, w: string)
    requires Inv(st, s) && HeldBy(st, s, a, w)
    requires forall r :: r in a ==> 0 <= r < |st| && c !in st[r].transitions
    ensures !Factor(s, w + [c])
  {
    var r :| r in a && In(st, s, w, r);
    assert Moves(st, s, w, r, c);
  }

  lemma LastSymbol(w: string, t: string) returns (u: string)
    requires IsSuffix(w, t) && w != []
    ensures w == u + [t[|t| - 1]] && IsSuffix(u, t[..|t| - 1])
  {
    u := w[..|w| - 1];
    assert w == t[|t| - |w|..];
    assert w[|w| - 1] == t[|t| - 1];
    assert t[..|t| - 1][|t| - 1 - |u|..] == u;
  }

  lemma EmptyOccurs(s: string)
    ensures Factor(s, [])
  {
    assert Occurs(s, [], 0);
  }

  // ---------------------------------------------------------------- the three ways a step ends

  /** No suffix could read `c`: the new state hangs off the root. */
  lemma RootCase(st: seq<State>, s: string, c: char, a: set<int>, st': seq<State>)
    requires Inv(st, s) && Climbing(st, s, c, a, 0) && c !in st[0].transitions
    requires Climbed(st, s, c, a + {0}, st') && st'[|st|].link == 0
    ensures Stepped(st, s, c, Choice(0, 0, 0, false, a + {0}, {}), st')
  {
    var k := Choice(0, 0, 0, false, a + {0}, {});
    hide Inv, Climbing, Border, AddedOk;
    RootBorder(st, s, c, a, k);
    RootAdded(st, s, c, a, k);
    hide Climbed, Updated, SplitOk, RedirectedOk;
    RootUpdated(st, s, c, a, k, st');
  }

  lemma RootUpdated(st: seq<State>, s: string, c: char, a: set<int>, k: Choice, st': seq<State>)
    requires Inv(st, s) && k == Choice(0, 0, 0, false, a + {0}, {})
    requires Climbed(st, s, c, a + {0}, st') && st'[|st|].link == 0
    ensures Updated(st, s, c, k, st') && SplitOk(st, s, c, k) && RedirectedOk(st, s, c, k)
  {
    StateLinked(st, s);
    hide Inv;
  }

  lemma RootBorder(st: seq<State>, s: string, c: char, a: set<int>, k: Choice)
    requires Inv(st, s) && Climbing(st, s, c, a, 0) && c !in st[0].transitions && k == Choice(0, 0, 0, false, a + {0}, {})
    ensures Border(st, s, c, k)
  {
    hide Inv, Factor;
    StateLinked(st, s);
    RootHoldsEmpty(st, s);
    hide In, Linked, IsSuffix, Longest;
    var t := s + [c];
    forall w | IsSuffix(w, t) ensures Factor(s, w) <==> |w| <= 0 {
      if w == [] { EmptyOccurs(s); } else { RootReach(st, s, c, a, w); }
    }
    assert t[|s| + 1..] == [];
  }

  lemma RootReach(st: seq<State>, s: string, c: char, a: set<int>, w: string)
    requires Inv(st, s) && Climbing(st, s, c, a, 0) && c !in st[0].transitions && IsSuffix(w, s + [c]) && w != []
    ensures !Factor(s, w)
  {
    hide Inv, Factor, IsSuffix, In, Longest;
    var t := s + [c];
    var u := LastSymbol(w, t);
    assert t[..|t| - 1] == s;
    ClimbEnds(st, s, c, a, u);
    HeldStops(st, s, c, a + {0}, u);
  }

  lemma RootAdded(st: seq<State>, s: string, c: char, a: set<int>, k: Choice)
    requires Inv(st, s) && Climbing(st, s, c, a, 0) && c !in st[0].transitions && k == Choice(0, 0, 0, false, a + {0}, {})
    ensures AddedOk(st, s, c, k)
  {
    hide Inv, Factor;
    forall w | IsSuffix(w, s) && !Factor(s, w + [c]) ensures HeldByAdded(st, s, k, w) { ClimbEnds(st, s, c, a, w); }
  }

  /** `p` can read `c`: the strings that continue are those not longer than its own. */
  lemma BorderAt(st: seq<State>, s: string, c: char, a: set<int>, p: int, k: Choice)
    requires Inv(st, s) && Climbing(st, s, c, a, p) && c in st[p].transitions
    requires k.m == st[p].length + 1 && k.added == a && Base(k) == st[p].transitions[c]
    ensures Border(st, s, c, k) && AddedOk(st, s, c, k)
    ensures In(st, s, Longest(st, s, p) + [c], Base(k)) && (s + [c])[|s| + 1 - k.m..] == Longest(st, s, p) + [c]
  {
    hide Inv, Longest, In, Climbing, Factor, IsSuffix, AddedOk;
    ClimbingAt(st, s, c, a, p);
    ReadsOn(st, s, c, p);
    LastSlice(Longest(st, s, p), s, c);
    BorderAdded(st, s, c, a, p, k);
    forall w | IsSuffix(w, s + [c]) ensures Factor(s, w) <==> |w| <= k.m { BorderReach(st, s, c, a, p, w); }
  }

  lemma LastSlice(l: string, s: string, c: char)
    requires IsSuffix(l, s)
    ensures |l| <= |s| && (s + [c])[|s| - |l|..] == l + [c]
  {
  }

  lemma ClimbingAt(st: seq<State>, s: string, c: char, a: set<int>, p: int)
    requires Climbing(st, s, c, a, p)
    ensures 0 <= p < |st| && IsSuffix(Longest(st, s, p), s)
  {
  }

  lemma ReadsOn(st: seq<State>, s: string, c: char, p: int)
    requires Inv(st, s) && 0 <= p < |st| && c in st[p].transitions
    ensures In(st, s, Longest(st, s, p) + [c], st[p].transitions[c]) && Factor(s, Longest(st, s, p) + [c])
    ensures |Longest(st, s, p)| == st[p].length < |s|
  {
    LongestLength(st, s, p);
    assert Moves(st, s, Longest(st, s, p), p, c);
    MemberOccurs(st, s, Longest(st, s, p) + [c], st[p].transitions[c]);
  }

  /** A suffix not longer than the strings of `p` is followed by `c` somewhere. */
  lemma ShortReads(s: string, c: char, l: string, u: string)
    requires IsSuffix(l, s) && Factor(s, l + [c]) && IsSuffix(u, s) && |u| <= |l|
    ensures Factor(s, u + [c])
  {
    var e :| Occurs(s, l + [c], e);
    SuffixesNest(u, l, s);
    SuffixSymbol(u, l, c, c);
    SuffixOccurs(s, u + [c], l + [c], e);
  }

  lemma LongStops(st: seq<State>, s: string, c: char, a: set<int>, p: int, u: string)
    requires Inv(st, s) && Climbing(st, s, c, a, p) && IsSuffix(u, s) && st[p].length < |u|
    ensures !Factor(s, u + [c]) && HeldBy(st, s, a, u)
  {
    hide Inv;
    HeldStops(st, s, c, a, u);
  }

  lemma BorderReach(st: seq<State>, s: string, c: char, a: set<int>, p: int, w: string)
    requires Inv(st, s) && Climbing(st, s, c, a, p) && c in st[p].transitions && IsSuffix(w, s + [c])
    ensures Factor(s, w) <==> |w| <= st[p].length + 1
  {
    hide Inv, Climbing, Factor, Longest;
    ClimbingAt(st, s, c, a, p);
    ReadsOn(st, s, c, p);
    var t := s + [c];
    if w == [] {
      EmptyOccurs(s);
    } else {
      var u := LastSymbol(w, t);
      assert t[..|t| - 1] == s;
      if |u| <= st[p].length { ShortReads(s, c, Longest(st, s, p), u); } else { LongStops(st, s, c, a, p, u); }
    }
  }

  lemma BorderAdded(st: seq<State>, s: string, c: char, a: set<int>, p: int, k: Choice)
    requires Inv(st, s) && Climbing(st, s, c, a, p) && c in st[p].transitions && k.m == st[p].length + 1 && k.added == a
    ensures AddedOk(st, s, c, k)
  {
    hide Inv, Factor, Longest, In;
    ReadsOn(st, s, c, p);
    forall w | IsSuffix(w, s) && !Factor(s, w + [c]) ensures HeldByAdded(st, s, k, w) {
      if |w| <= st[p].length { ShortReads(s, c, Longest(st, s, p), w); }
      assert HeldBy(st, s, a, w);
    }
  }

  lemma LinkUpdated(st: seq<State>, s: string, c: char, a: set<int>, st': seq<State>, m: int, q: int)
    requires Climbed(st, s, c, a, st') && st'[|st|].link == q && 0 <= q < |st|
    ensures Updated(st, s, c, Choice(m, q, 0, false, a, {}), st')
  {
  }

  lemma LinkCase(st: seq<State>, s: string, c: char, a: set<int>, p: int, st': seq<State>)
    requires Inv(st, s) && Climbing(st, s, c, a, p) && c in st[p].transitions
    requires var q := st[p].transitions[c]; 0 <= q < |st| && st[q].length == st[p].length + 1
    requires Climbed(st, s, c, a, st') && st'[|st|].link == st[p].transitions[c]
    ensures Stepped(st, s, c, Choice(st[p].length + 1, st[p].transitions[c], 0, false, a, {}), st')
  {
    ClimbingAt(st, s, c, a, p);
    hide Inv, Climbing, Border, AddedOk, In, Longest, Climbed, Updated;
    LinkUpdated(st, s, c, a, st', st[p].length + 1, st[p].transitions[c]);
    BorderAt(st, s, c, a, p, Choice(st[p].length + 1, st[p].transitions[c], 0, false, a, {}));
  }

  // ---------------------------------------------------------------- redirecting to the clone

  /** While redirecting: the states of `red` hold the suffixes of the strings of `p` that are longer
      than those of `linked`, and they all read `c` into `q`. */
  ghost predicate Redirecting(st: seq<State>, s: string, c: char, p: int, q: int, red: set<int>, linked: int) {
    && 0 <= p < |st| && -1 <= linked < |st|
    && (linked >= 0 ==>
          linked !in red && st[linked].length <= st[p].length && c in st[linked].transitions
          && IsSuffix(Longest(st, s, linked), Longest(st, s, p)))
    && (forall r :: r in red ==>
          0 <= r < |st| && st[r].length <= st[p].length && c in st[r].transitions && st[r].transitions[c] == q)
    && (forall r :: r in red && linked >= 0 ==> st[linked].length < st[r].length)
    && (forall w :: IsSuffix(w, Longest(st, s, p)) && (linked >= 0 ==> st[linked].length < |w|) ==> HeldBy(st, s, red, w))
  }

  lemma SuffixReads(st: seq<State>, s: string, c: char, p: int, r: int)
    requires Inv(st, s) && 0 <= p < |st| && 0 <= r < |st| && c in st[p].transitions
    requires IsSuffix(Longest(st, s, r), Longest(st, s, p))
    ensures c in st[r].transitions
  {
    var l, u := Longest(st, s, p), Longest(st, s, r);
    LongestLength(st, s, p);
    LongestLength(st, s, r);
    assert Moves(st, s, l, p, c) && Moves(st, s, u, r, c);
    MemberOccurs(st, s, l + [c], st[p].transitions[c]);
    var e :| Occurs(s, l + [c], e);
    SuffixSymbol(u, l, c, c);
    SuffixOccurs(s, u + [c], l + [c], e);
  }

  lemma RedirectStarts(st: seq<State>, s: string, c: char, p: int, q: int)
    requires Linked(st, s) && 0 <= p < |st| && c in st[p].transitions
    ensures Redirecting(st, s, c, p, q, {}, p)
  {
    LongestLength(st, s, p);
  }

  lemma RedirectStep(st: seq<State>, s: string, c: char, p: int, q: int, red: set<int>, linked: int)
    requires Inv(st, s) && Redirecting(st, s, c, p, q, red, linked) && linked >= 0
    requires c in st[p].transitions && st[linked].transitions[c] == q
    ensures Redirecting(st, s, c, p, q, red + {linked}, st[linked].link)
    ensures -1 <= st[linked].link && (0 <= st[linked].link ==> st[st[linked].link].length < st[linked].length)
  {
    hide Uniform, Total, Unique, Deterministic, FirstOk, Longest;
    var n, red', lp := st[linked].link, red + {linked}, Longest(st, s, p);
    LongestLength(st, s, linked);
    if linked > 0 {
      assert StateOk(st, s, linked);
      LongestLength(st, s, n);
      SuffixTransitive(Longest(st, s, n), Longest(st, s, linked), lp);
      SuffixReads(st, s, c, p, n);
    }
    forall w | IsSuffix(w, lp) && (n >= 0 ==> st[n].length < |w|) ensures HeldBy(st, s, red', w) {
      if st[linked].length < |w| {
        assert HeldBy(st, s, red, w);
        var r :| r in red && In(st, s, w, r);
        assert r in red';
      } else {
        SuffixesNest(w, Longest(st, s, linked), lp);
        assert In(st, s, w, linked) && linked in red';
      }
    }
  }

  /** At the end exactly the states whose strings went to the clone were redirected. */
  lemma RedirectDone(st: seq<State>, s: string, c: char, p: int, red: set<int>, linked: int, k: Choice)
    requires Inv(st, s) && 0 <= p < |st| && c in st[p].transitions && Redirecting(st, s, c, p, k.q, red, linked)
    requires linked >= 0 ==> st[linked].transitions[c] != k.q
    requires k.split && k.q == st[p].transitions[c] && k.m == st[p].length + 1 && k.redirected == red
    requires In(st, s, Longest(st, s, p) + [c], k.q)
    ensures RedirectedOk(st, s, c, k)
  {
    forall r, w | r in red && In(st, s, w, r) ensures |w| + 1 <= k.m { MemberOccurs(st, s, w, r); }
    forall r, d, w | LeadsTo(st, s, r, d, w, k.q) && |w| + 1 <= k.m ensures d == c && r in red {
      RedirectComplete(st, s, c, p, red, linked, k, r, d, w);
    }
  }

  lemma RedirectComplete(st: seq<State>, s: string, c: char, p: int, red: set<int>, linked: int, k: Choice,
                         r: int, d: char, w: string)
    requires Inv(st, s) && 0 <= p < |st| && Redirecting(st, s, c, p, k.q, red, linked)
    requires linked >= 0 ==> st[linked].transitions[c] != k.q
    requires k.m == st[p].length + 1 && In(st, s, Longest(st, s, p) + [c], k.q)
    requires LeadsTo(st, s, r, d, w, k.q) && |w| + 1 <= k.m
    ensures d == c && r in red
  {
    var lp, lq := Longest(st, s, p), Longest(st, s, k.q);
    LongestLength(st, s, p);
    assert Moves(st, s, w, r, d);
    SuffixesNest(w + [d], lp + [c], lq);
    SuffixSymbol(w, lp, c, d);
    if linked >= 0 && |w| <= st[linked].length {
      ShorterElsewhere(st, s, c, p, linked, k, w);
    } else {
      assert HeldBy(st, s, red, w);
    }
  }

  /** Once a link reads `c` into another state, no shorter suffix reads it into `q`. */
  lemma ShorterElsewhere(st: seq<State>, s: string, c: char, p: int, linked: int, k: Choice, w: string)
    requires Inv(st, s) && 0 <= p < |st| && 0 <= linked < |st| && c in st[linked].transitions
    requires IsSuffix(Longest(st, s, linked), Longest(st, s, p)) && In(st, s, Longest(st, s, p) + [c], k.q)
    requires |w| <= st[linked].length && In(st, s, w + [c], k.q)
    ensures st[linked].transitions[c] == k.q
  {
    var lp, ll, lq := Longest(st, s, p), Longest(st, s, linked), Longest(st, s, k.q);
    LongestLength(st, s, linked);
    assert Moves(st, s, ll, linked, c);
    SuffixSymbol(ll, lp, c, c);
    SuffixTransitive(ll + [c], lp + [c], lq);
    assert In(st, s, ll + [c], k.q);
  }

  function GetTransition(st: State, c: char): (r: int) {
    if c in st.transitions then st.transitions[c] else -1
  }

  lemma TransitionInRange(st: seq<State>, s: string, r: int, c: char)
    requires Inv(st, s) && 0 <= r < |st| && c in st[r].transitions
    ensures 0 < st[r].transitions[c] < |st|
    ensures In(st, s, Longest(st, s, r) + [c], st[r].transitions[c])
  {
    LongestLength(st, s, r);
    assert Moves(st, s, Longest(st, s, r), r, c);
  }

  /** The text is empty: only the empty string occurs, and only the root holds it. */
  lemma EmptyText(w: string, e: int)
    requires Occurs([], w, e)
    ensures w == []
  {
  }

  lemma RootMembers(st: seq<State>, w: string, q: int)
    requires |st| == 1
    ensures In(st, [], w, q) <==> q == 0 && w == []
  {
  }

  lemma EmptyTotal(st: seq<State>)
    requires |st| == 1
    ensures Total(st, [])
  {
    hide In;
    forall w | Factor([], w) ensures HasState(st, [], w) {
      var e :| Occurs([], w, e);
      EmptyText(w, e);
      RootMembers(st, w, 0);
    }
  }

  lemma EmptyMoves(st: seq<State>)
    requires |st| == 1 && st[0].transitions == map[]
    ensures Deterministic(st, [])
  {
    hide In, Occurs;
    forall w, q, c | In(st, [], w, q) ensures Moves(st, [], w, q, c) {
      RootMembers(st, w, q);
      if Factor([], w + [c]) {
        var e :| Occurs([], w + [c], e);
        EmptyText(w + [c], e);
      }
    }
  }

  lemma EmptyUniform(st: seq<State>)
    requires |st| == 1
    ensures Uniform(st, []) && Unique(st, [])
  {
    hide In, Occurs;
    forall w, q | In(st, [], w, q) ensures SameEnds([], w, Longest(st, [], q)) { RootMembers(st, w, q); }
    forall w, q, r | In(st, [], w, q) && In(st, [], w, r) ensures q == r {
      RootMembers(st, w, q);
      RootMembers(st, w, r);
    }
  }

  lemma EmptyAutomaton(st: seq<State>)
    requires |st| == 1 && RootOk(st[0]) && st[0].transitions == map[]
    ensures Inv(st, [])
  {
    hide Total, Deterministic, Uniform, Unique, StateOk, Longest;
    EmptyTotal(st);
    EmptyMoves(st);
    EmptyUniform(st);
  }

  ghost predicate NoReferences(st: seq<State>) {
    forall q :: 0 <= q < |st| ==> st[q].references == []
  }

  /** After compute_suffix_references each state lists the states that link to it, in order. */
  ghost function LinkedBelow(st: seq<State>, q: int, n: nat): (r: seq<int>)
    requires n <= |st|
  {
    if n <= 1 then []
    else if st[n - 1].link == q then LinkedBelow(st, q, n - 1) + [n - 1]
    else LinkedBelow(st, q, n - 1)
  }

  lemma LinkedBelowMembers(st: seq<State>, q: int, n: nat)
    requires n <= |st|
    ensures forall i :: i in LinkedBelow(st, q, n) <==> 0 < i < n && st[i].link == q
    ensures forall i, j :: 0 <= i < j < |LinkedBelow(st, q, n)| ==> LinkedBelow(st, q, n)[i] < LinkedBelow(st, q, n)[j]
  {
    if n > 1 {
      LinkedBelowMembers(st, q, n - 1);
      var l, l' := LinkedBelow(st, q, n - 1), LinkedBelow(st, q, n);
      assert l' == l || l' == l + [n - 1];
      forall i, j | 0 <= i < j < |l'| ensures l'[i] < l'[j] { assert l'[i] == l[i] && l[i] in l; }
    }
  }

  ghost predicate ReferencesRight(st: seq<State>) {
    forall q :: 0 <= q < |st| ==> st[q].references == LinkedBelow(st, q, |st|)
  }

  lemma LinkedBelowSame(st: seq<State>, st': seq<State>, q: int, n: nat)
    requires n <= |st| == |st'| && forall i :: 0 <= i < |st| ==> st[i].link == st'[i].link
    ensures LinkedBelow(st, q, n) == LinkedBelow(st', q, n)
  {
  }

  /** The two tables differ in their references only. */
  ghost predicate SameButReferences(st: seq<State>, st': seq<State>) {
    |st| == |st'| && forall i :: 0 <= i < |st| ==> st'[i] == st[i].(references := st'[i].references)
  }

  lemma LongestSame(st: seq<State>, st': seq<State>, s: string, q: int)
    requires SameButReferences(st, st')
    ensures Longest(st, s, q) == Longest(st', s, q)
  {
  }

  lemma InSame(st: seq<State>, st': seq<State>, s: string, w: string, q: int)
    requires SameButReferences(st, st')
    ensures In(st, s, w, q) <==> In(st', s, w, q)
  {
    LongestSame(st, st', s, q);
    if 0 <= q < |st| && 0 <= st[q].link < |st| { assert st'[st[q].link].length == st[st[q].link].length; }
  }

  lemma LinkedSame(st: seq<State>, st': seq<State>, s: string)
    requires SameButReferences(st, st') && Linked(st, s)
    ensures Linked(st', s)
  {
    hide Longest, IsSuffix;
    forall q | 0 < q < |st'| ensures StateOk(st', s, q) {
      assert StateOk(st, s, q);
      LongestSame(st, st', s, q);
      LongestSame(st, st', s, st[q].link);
    }
  }

  lemma MovesSame(st: seq<State>, st': seq<State>, s: string)
    requires SameButReferences(st, st') && Deterministic(st, s)
    ensures Deterministic(st', s)
  {
    hide Longest, In;
    forall w, q, c | In(st', s, w, q) ensures Moves(st', s, w, q, c) {
      InSame(st, st', s, w, q);
      assert Moves(st, s, w, q, c);
      if c in st[q].transitions { InSame(st, st', s, w + [c], st[q].transitions[c]); }
    }
  }

  /** References do not matter to the invariant. */
  lemma InvWithReferences(st: seq<State>, st': seq<State>, s: string)
    requires Inv(st, s) && SameButReferences(st, st')
    ensures Inv(st', s)
  {
    hide Longest, In, Linked, Deterministic;
    LinkedSame(st, st', s);
    MovesSame(st, st', s);
    forall q ensures Longest(st, s, q) == Longest(st', s, q) { LongestSame(st, st', s, q); }
    forall w, q ensures In(st, s, w, q) <==> In(st', s, w, q) { InSame(st, st', s, w, q); }
    forall w | Factor(s, w) ensures HasState(st', s, w) {
      assert HasState(st, s, w);
      var q :| In(st, s, w, q);
      assert In(st', s, w, q);
    }
  }

  // ---------------------------------------------------------------- queries

  /** `w` starts at offset `i` of `s`. */
  ghost predicate StartsAt(s: string, w: string, i: int) {
    0 <= i && i + |w| <= |s| && s[i..i + |w|] == w
  }

  lemma FactorStarts(s: string, w: string)
    ensures Factor(s, w) <==> exists i :: StartsAt(s, w, i)
  {
    if Factor(s, w) {
      var e :| Occurs(s, w, e);
      assert StartsAt(s, w, e - |w|);
    }
    if i :| StartsAt(s, w, i) { assert Occurs(s, w, i + |w|); }
  }

  lemma PrefixFactor(s: string, w: string, i: nat)
    requires Factor(s, w) && i <= |w|
    ensures Factor(s, w[..i])
  {
    var e :| Occurs(s, w, e);
    var b := e - |w|;
    assert s[b..b + i] == s[b..e][..i];
    assert Occurs(s, w[..i], b + i);
  }

  /** One symbol read. */
  lemma WalkStep(st: seq<State>, s: string, w: string, i: nat, q: int)
    requires Inv(st, s) && i < |w| && q == Walk(st, w[..i]) && 0 <= q < |st|
    ensures GetTransition(st[q], w[i]) == Walk(st, w[..i + 1])
    ensures if Walk(st, w[..i + 1]) == -1 then !Factor(s, w)
            else Factor(s, w[..i + 1]) && 0 <= Walk(st, w[..i + 1]) < |st|
  {
    hide Inv, In;
    var u := w[..i + 1];
    assert u[..i] == w[..i];
    WalkFinds(st, s, u);
    if Factor(s, w) { PrefixFactor(s, w, i + 1); }
    if Factor(s, u) { WalkRange(st, s, u); }
  }

  lemma WalkRange(st: seq<State>, s: string, u: string)
    requires In(st, s, u, Walk(st, u))
    ensures 0 <= Walk(st, u) < |st|
  {
  }

  function NormalizedPosition(st: State, input: string): (r: int) {
    st.first - |input| + 1
  }

  /** A nonempty substring first occurs where its state says. */
  lemma FirstPosition(st: seq<State>, s: string, w: string, q: int)
    requires Inv(st, s) && In(st, s, w, q) && w != []
    ensures StartsAt(s, w, NormalizedPosition(st[q], w))
    ensures forall i :: StartsAt(s, w, i) ==> NormalizedPosition(st[q], w) <= i
  {
    var l := Longest(st, s, q);
    LongestLength(st, s, q);
    SuffixOccurs(s, w, l, st[q].first + 1);
    forall i | StartsAt(s, w, i) ensures NormalizedPosition(st[q], w) <= i {
      assert SameEnds(s, w, l);
      assert Occurs(s, w, i + |w|);
    }
  }

  /** The states a traversal from `q` may hold: `q` itself and states whose link is in `done`. */
  ghost predicate Under(st: seq<State>, done: set<int>, q: int, r: int) {
    0 <= q < |st| && 0 <= r < |st| && (r == q || (r > 0 && st[r].link in done && st[q].length < st[r].length))
  }

  /** The traversal of the link tree below `q`: `done` was visited, `stack` waits. */
  ghost predicate Traversing(st: seq<State>, q: int, done: set<int>, stack: seq<int>) {
    && Distinct(stack) && (q in done || q in stack)
    && (forall r :: r in done ==> Under(st, done, q, r))
    && (forall r :: r in stack ==> Under(st, done, q, r) && r !in done)
    && (forall r :: 0 < r < |st| && st[r].link in done ==> r in done || r in stack)
  }

  /** A child of a state not yet visited is itself neither visited nor waiting. */
  lemma ChildNew(st: seq<State>, s: string, q: int, done: set<int>, p: int, r: int)
    requires Linked(st, s) && Under(st, done, q, p) && p !in done && 0 < r < |st| && st[r].link == p
    ensures !Under(st, done, q, r) && Under(st, done + {p}, q, r) && r != p
  {
    OldState(st, s, r);
  }

  lemma PushChildren(stack: seq<int>, children: seq<int>)
    requires Distinct(stack) && Distinct(children) && forall r :: r in children ==> r !in stack
    ensures Distinct(stack + children)
  {
    var all := stack + children;
    forall i, j | 0 <= i < j < |all| ensures all[i] != all[j] {
      if i < |stack| <= j { assert children[j - |stack|] in children && stack[i] in stack; }
    }
  }

  lemma UnderMore(st: seq<State>, done: set<int>, q: int, p: int, r: int)
    requires Under(st, done, q, r)
    ensures Under(st, done + {p}, q, r)
  {
  }

  lemma ChildWaiting(st: seq<State>, done: set<int>, rest: seq<int>, p: int, children: seq<int>, r: int)
    requires children == LinkedBelow(st, p, |st|) && 0 < r < |st| && st[r].link in done + {p}
    requires st[r].link in done ==> r in done || r in rest + [p]
    ensures r in done + {p} || r in rest + children
  {
    if st[r].link == p { LinkedBelowMembers(st, p, |st|); }
  }

  lemma WaitingUnder(st: seq<State>, s: string, q: int, done: set<int>, stack: seq<int>, children: seq<int>, r: int)
    requires Linked(st, s) && Traversing(st, q, done, stack) && stack != []
    requires children == LinkedBelow(st, stack[|stack| - 1], |st|)
    requires r in stack[..|stack| - 1] || r in children
    ensures Under(st, done + {stack[|stack| - 1]}, q, r) && r !in done && r != stack[|stack| - 1]
    ensures r in children ==> r !in stack
  {
    hide Linked, Under;
    var p := stack[|stack| - 1];
    LinkedBelowMembers(st, p, |st|);
    assert p in stack;
    if r in children {
      ChildNew(st, s, q, done, p, r);
    } else {
      assert r in stack;
      UnderMore(st, done, q, p, r);
    }
  }

  lemma TraverseStep(st: seq<State>, s: string, q: int, done: set<int>, stack: seq<int>, children: seq<int>)
    requires Linked(st, s) && Traversing(st, q, done, stack) && stack != []
    requires children == LinkedBelow(st, stack[|stack| - 1], |st|)
    ensures Traversing(st, q, done + {stack[|stack| - 1]}, stack[..|stack| - 1] + children)
    ensures stack[|stack| - 1] !in done
  {
    hide Linked, Under;
    var p, rest := stack[|stack| - 1], stack[..|stack| - 1];
    var done', stack' := done + {p}, rest + children;
    LinkedBelowMembers(st, p, |st|);
    assert stack == rest + [p] && p in stack;
    assert Under(st, done, q, p);
    forall r | r in stack' ensures Under(st, done', q, r) && r !in done' && (r in children ==> r !in stack) {
      WaitingUnder(st, s, q, done, stack, children, r);
    }
    assert Distinct(stack') by { PushChildren(rest, children); }
    forall r | 0 < r < |st| && st[r].link in done' ensures r in done' || r in stack' {
      ChildWaiting(st, done, rest, p, children, r);
    }
    forall r | r in done' ensures Under(st, done', q, r) { UnderMore(st, done, q, p, r); }
    assert q in done' || q in stack';
  }

  /** A finished traversal holds every state whose strings end in a string of `q`. */
  lemma TraversedAll(st: seq<State>, s: string, w: string, q: int, done: set<int>, r: int)
    requires Inv(st, s) && In(st, s, w, q) && Traversing(st, q, done, []) && 0 <= r < |st| && IsSuffix(w, Longest(st, s, r))
    ensures r in done
    decreases st[r].length
  {
    if r != q {
      SuffixState(st, s, w, r, q);
      OldState(st, s, r);
      var l := st[r].link;
      SuffixTransitive(w, Longest(st, s, q), Longest(st, s, l));
      LengthNotNegative(st, s, l);
      TraversedAll(st, s, w, q, done, l);
    }
  }

  /** A visited state holds only strings ending in the strings of `q`. */
  lemma VisitedBelow(st: seq<State>, s: string, w: string, q: int, done: set<int>, r: int)
    requires Inv(st, s) && In(st, s, w, q) && Traversing(st, q, done, []) && r in done
    ensures 0 <= r < |st| && IsSuffix(w, Longest(st, s, r)) && (q > 0 ==> r > 0)
    decreases if 0 <= r < |st| then st[r].length else 0
  {
    assert Under(st, done, q, r);
    if r != q {
      OldState(st, s, r);
      LengthNotNegative(st, s, st[r].link);
      VisitedBelow(st, s, w, q, done, st[r].link);
      SuffixTransitive(w, Longest(st, s, st[r].link), Longest(st, s, r));
    }
  }

  /** The state of a prefix of the text first occurs where that prefix ends. */
  lemma PrefixState(st: seq<State>, s: string, e: int) returns (r: int)
    requires Inv(st, s) && 0 < e <= |s|
    ensures 0 < r < |st| && Longest(st, s, r) == s[..e] && st[r].first + 1 == e
  {
    var u := s[..e];
    assert s[e - |u|..e] == u;
    assert Occurs(s, u, e);
    assert Factor(s, u);
    assert HasState(st, s, u);
    r :| In(st, s, u, r);
    LongestLength(st, s, r);
    var l := Longest(st, s, r);
    assert SameEnds(s, u, l);
    assert l[0..] == l;
  }

  /** Some visited state `r` puts the pattern at offset `i`. */
  ghost predicate PlacedBy(st: seq<State>, w: string, done: set<int>, r: int, i: int) {
    r in done && 0 <= r < |st| && NormalizedPosition(st[r], w) == i
  }

  ghost predicate Gathered(st: seq<State>, w: string, done: set<int>, positions: set<int>) {
    && (forall i :: i in positions ==> exists r :: PlacedBy(st, w, done, r, i))
    && (forall r, i :: PlacedBy(st, w, done, r, i) ==> i in positions)
  }

  lemma GatherStep(st: seq<State>, w: string, done: set<int>, positions: set<int>, r: int)
    requires Gathered(st, w, done, positions) && 0 <= r < |st|
    ensures Gathered(st, w, done + {r}, positions + {NormalizedPosition(st[r], w)})
  {
    var done', positions' := done + {r}, positions + {NormalizedPosition(st[r], w)};
    forall i | i in positions' ensures exists x :: PlacedBy(st, w, done', x, i) {
      if i in positions {
        var x :| PlacedBy(st, w, done, x, i);
        assert PlacedBy(st, w, done', x, i);
      } else {
        assert PlacedBy(st, w, done', r, i);
      }
    }
    forall x, i | PlacedBy(st, w, done', x, i) ensures i in positions' {
      if x in done { assert PlacedBy(st, w, done, x, i); }
    }
  }

  lemma PrefixEnds(s: string, w: string, i: int)
    requires StartsAt(s, w, i)
    ensures IsSuffix(w, s[..i + |w|])
  {
    var e := i + |w|;
    assert s[..e][e - |w|..] == s[i..e];
  }

  lemma OffsetVisited(st: seq<State>, s: string, w: string, q: int, done: set<int>, i: int) returns (r: int)
    requires Inv(st, s) && In(st, s, w, q) && w != [] && Traversing(st, q, done, []) && StartsAt(s, w, i)
    ensures PlacedBy(st, w, done, r, i)
  {
    hide Inv, In, Traversing, Longest;
    r := PrefixState(st, s, i + |w|);
    PrefixEnds(s, w, i);
    TraversedAll(st, s, w, q, done, r);
  }

  lemma VisitedOffset(st: seq<State>, s: string, w: string, q: int, done: set<int>, r: int)
    requires Inv(st, s) && In(st, s, w, q) && w != [] && Traversing(st, q, done, []) && r in done
    ensures 0 <= r < |st| && StartsAt(s, w, NormalizedPosition(st[r], w))
  {
    hide Inv, Traversing;
    StateLinked(st, s);
    VisitedBelow(st, s, w, q, done, r);
    LongestLength(st, s, r);
    MemberNotRoot(st, s, w, q);
    SuffixOccurs(s, w, Longest(st, s, r), st[r].first + 1);
  }

  lemma MemberNotRoot(st: seq<State>, s: string, w: string, q: int)
    requires In(st, s, w, q) && w != []
    ensures q > 0
  {
  }

  /** The positions collected from a finished traversal are all the offsets where `w` starts. */
  lemma CollectedPositions(st: seq<State>, s: string, w: string, q: int, done: set<int>, positions: set<int>, i: int)
    requires Inv(st, s) && In(st, s, w, q) && w != [] && Traversing(st, q, done, []) && Gathered(st, w, done, positions)
    ensures i in positions <==> StartsAt(s, w, i)
  {
    hide Inv, In, Traversing;
    if StartsAt(s, w, i) {
      var r := OffsetVisited(st, s, w, q, done, i);
    }
    if i in positions {
      var r :| PlacedBy(st, w, done, r, i);
      VisitedOffset(st, s, w, q, done, r);
    }
  }

  function Indices(n: nat): (r: set<int>)
    ensures |r| == n && forall i :: i in r <==> 0 <= i < n
  {
    if n == 0 then {} else Indices(n - 1) + {n - 1}
  }

  lemma DoneBounded(st: seq<State>, q: int, done: set<int>, stack: seq<int>)
    requires Traversing(st, q, done, stack)
    ensures |done| <= |st|
  {
    forall r | r in done ensures r in Indices(|st|) { assert Under(st, done, q, r); }
    SubsetSize(done, Indices(|st|));
  }

  lemma SubsetSize(a: set<int>, b: set<int>)
    requires a <= b
    ensures |a| <= |b|
  {
    assert b == a + (b - a);
  }

  /** While references are being filled in: those from the states below `n` are there. */
  ghost predicate Referencing(st: seq<State>, now: seq<State>, n: nat) {
    && n <= |st| && SameButReferences(st, now)
    && forall q :: 0 <= q < |st| ==> now[q].references == LinkedBelow(st, q, n)
  }

  lemma ReferenceStep(st: seq<State>, now: seq<State>, n: nat, next: seq<State>)
    requires 0 < n < |st| && Referencing(st, now, n) && 0 <= st[n].link < |st|
    requires next == now[st[n].link := now[st[n].link].(references := now[st[n].link].references + [n])]
    ensures Referencing(st, next, n + 1)
  {
  }

  lemma ReferencesDone(st: seq<State>, now: seq<State>, s: string)
    requires Inv(st, s) && Referencing(st, now, |st|)
    ensures Inv(now, s) && ReferencesRight(now)
  {
    InvWithReferences(st, now, s);
    forall q | 0 <= q < |now| ensures now[q].references == LinkedBelow(now, q, |now|) {
      LinkedBelowSame(st, now, q, |st|);
    }
  }

  class Automaton {
    var hasReferences: bool
    var states: seq<State>
    ghost var text: string

    ghost predicate Valid()
      reads this
    {
      && Inv(states, text)
      && if hasReferences then ReferencesRight(states) else NoReferences(states)
    }

    constructor (input: string)
      ensures Valid() && text == input
      ensures |input| >= 2 ==> |states| <= 2 * |input| - 1
    {
      hasReferences := false;
      states := [];
      text := input;
      new;
      BuildAutomaton(input);
    }

    /** Whether the pattern occurs in the text. */
    method Contains(input: string) returns (found: bool)
      requires Valid()
      ensures found <==> Factor(text, input)
    {
      var q := Read(input);
      return q != -1;
    }

    /** The first offset where a nonempty pattern occurs, or -1. */
    method First(input: string) returns (r: int)
      requires Valid()
      ensures !Factor(text, input) ==> r == -1
      ensures Factor(text, input) && input != [] ==> StartsAt(text, input, r) && forall i :: StartsAt(text, input, i) ==> r <= i
    {
      var transition := Read(input);
      if transition == -1 { return -1; }
      if input != [] { FirstPosition(states, text, input, transition); }
      return NormalizedPosition(states[transition], input);
    }

    /** The loop of all three queries over the symbols of the pattern. */
    method Read(input: string) returns (transition: int)
      requires Valid()
      ensures if Factor(text, input) then In(states, text, input, transition) && transition >= 0 else transition == -1
    {
      hide Inv, In, Valid;
      ValidInv();
      transition := 0;
      assert input[..0] == [];
      EmptyOccurs(text);
      var i := 0;
      while i < |input|
        invariant 0 <= i <= |input| && 0 <= transition < |states| && transition == Walk(states, input[..i])
        invariant Factor(text, input[..i])
      {
        WalkStep(states, text, input, i, transition);
        transition := GetTransition(states[transition], input[i]);
        if transition == -1 { return; }
        i := i + 1;
      }
      assert input[..i] == input;
      WalkFinds(states, text, input);
    }

    lemma ValidInv()
      requires Valid()
      ensures Inv(states, text) && |states| > 0
    {
    }

    /** All offsets where a nonempty pattern occurs. */
    method Positions(input: string) returns (positions: set<int>)
      requires Valid()
      modifies this`states, this`hasReferences
      ensures Valid() && hasReferences && SameButReferences(old(states), states)
      ensures !Factor(text, input) ==> positions == {}
      ensures input != [] ==> forall i :: i in positions <==> StartsAt(text, input, i)
    {
      if !hasReferences { ComputeSuffixReferences(); }
      var start := Read(input);
      FactorStarts(text, input);
      if start == -1 { return {}; }
      ghost var done;
      positions, done := Traverse(input, start);
      if input != [] {
        forall i ensures i in positions <==> StartsAt(text, input, i) {
          CollectedPositions(states, text, input, start, done, positions, i);
        }
      }
    }

    /** The traversal of the link tree with an explicit stack. */
    method Traverse(input: string, start: int) returns (positions: set<int>, ghost done: set<int>)
      requires Valid() && hasReferences && 0 <= start < |states|
      ensures Traversing(states, start, done, []) && Gathered(states, input, done, positions)
    {
      hide Inv, Traversing, Gathered, ReferencesRight;
      var stack := [start];
      positions, done := {}, {};
      TraverseStarts(states, start, input);
      DoneBounded(states, start, done, stack);
      while stack != []
        invariant Traversing(states, start, done, stack) && |done| <= |states|
        invariant Gathered(states, input, done, positions)
        decreases |states| - |done|
      {
        InvLinked();
        var transition := stack[|stack| - 1];
        WaitingState(states, start, done, stack);
        assert states[transition].references == LinkedBelow(states, transition, |states|) by {
          ReferencesAt(states, transition);
        }
        TraverseStep(states, text, start, done, stack, states[transition].references);
        GatherStep(states, input, done, positions, transition);
        stack := stack[..|stack| - 1];
        positions := positions + {NormalizedPosition(states[transition], input)};
        done := done + {transition};
        var references := states[transition].references;
        ghost var popped := stack;
        for j := 0 to |references|
          invariant stack == popped + references[..j]
        {
          stack := stack + [references[j]];
        }
        assert stack == popped + references;
        DoneBounded(states, start, done, stack);
      }
    }

    lemma InvLinked()
      requires Valid()
      ensures Linked(states, text)
    {
    }

    method ComputeSuffixReferences()
      requires Valid() && !hasReferences
      modifies this`states, this`hasReferences
      ensures Valid() && hasReferences && SameButReferences(old(states), states)
    {
      ghost var st := states;
      var i := 1;
      while i < |states|
        invariant 1 <= i <= |st| && Referencing(st, states, i)
      {
        InvLinkRange(st, text, i);
        ghost var now := states;
        var l := states[i].link;
        states := states[l := states[l].(references := states[l].references + [i])];
        ReferenceStep(st, now, i, states);
        i := i + 1;
      }
      ReferencesDone(st, states, text);
      hasReferences := true;
    }

    method AddState(length: int) returns (index: int)
      requires states != []
      modifies this`states
      ensures index == old(states)[|old(states)| - 1].index + 1
      ensures |states| == |old(states)| + 1
      ensures states == old(states) + [State(length, states[|states| - 1].link, states[|states| - 1].first, index, [], map[])]
    {
      var link: int, first: int := *, *;
      index := states[|states| - 1].index + 1;
      states := states + [State(length, link, first, index, [], map[])];
    }

    method BuildAutomaton(input: string)
      requires states == []
      modifies this`states
      ensures Inv(states, input) && NoReferences(states)
      ensures |states| <= (if |input| <= 1 then |input| + 1 else 2 * |input| - 1)
    {
      var first: int := *;
      states := [State(0, -1, first, 0, [], map[])];
      var last := 0;
      EmptyAutomaton(states);
      assert input[..0] == [];
      var i := 0;
      while i < |input|
        invariant 0 <= i <= |input| && Inv(states, input[..i]) && NoReferences(states)
        invariant 0 <= last < |states| && Longest(states, input[..i], last) == input[..i]
        invariant |states| <= (if i <= 1 then i + 1 else 2 * i - 1)
      {
        hide Inv, Longest;
        assert input[..i + 1] == input[..i] + [input[i]];
        last := AddSymbol(input[i], last, input[..i]);
        i := i + 1;
      }
      assert input[..i] == input;
      hide Inv, Longest;
      LinkClimbs(states, input, last);
      var link := states[last].link;
      ghost var built := states;
      while link != -1
        invariant states == built && -1 <= link < |states| && (link >= 0 ==> 0 <= states[link].length)
        decreases if link < 0 then 0 else states[link].length + 1
      {
        LinkClimbs(states, input, link);
        var linked := link;
        link := states[linked].link;
      }
    }

    /** One round of the loop over the input. */
    method AddSymbol(symbol: char, last: int, ghost s: string) returns (last': int)
      requires Inv(states, s) && NoReferences(states)
      requires 0 <= last < |states| && Longest(states, s, last) == s
      modifies this`states
      ensures Inv(states, s + [symbol]) && NoReferences(states)
      ensures 0 <= last' < |states| && Longest(states, s + [symbol], last') == s + [symbol]
      ensures |states| <= |old(states)| + (if |s| <= 1 then 1 else 2)
    {
      hide Longest, Inv, Climbing, Stepped, Climbed;
      ghost var st := states;
      LastIndex(st, s, last);
      var current := AddState(states[last].length + 1);
      states := states[current := states[current].(first := states[last].length)];
      NewStateClimbed(st, s, symbol, states);
      StateLinked(st, s);
      ClimbStarts(st, s, symbol, last);
      var linked, transition, done, a := Climb(symbol, current, last, s, st);
      last' := current;
      if done {
        ClimbedSize(st, s, symbol, a + {0}, states);
        RootCase(st, s, symbol, a, states);
        StepDone(st, s, symbol, Choice(0, 0, 0, false, a + {0}, {}), states);
      } else {
        ClimbedFields(st, s, symbol, a, linked, states);
        if states[transition].length == states[linked].length + 1 {
          ghost var before := states;
          states := states[current := states[current].(link := states[transition].index)];
          RelinkClimbed(st, s, symbol, a, before, states, transition);
          LinkCase(st, s, symbol, a, linked, states);
          StepDone(st, s, symbol, Choice(st[linked].length + 1, transition, 0, false, a, {}), states);
        } else {
          SplitState(symbol, current, linked, transition, s, st, a);
        }
      }
    }

    /** The loop that adds transitions while climbing the links. */
    method Climb(symbol: char, current: int, last: int, ghost s: string, ghost st: seq<State>)
      returns (linked: int, transition: int, done: bool, ghost a: set<int>)
      requires Inv(st, s) && current == |st| && 0 <= last < |st|
      requires Climbed(st, s, symbol, {}, states) && Climbing(st, s, symbol, {}, last)
      modifies this`states
      ensures Climbing(st, s, symbol, a, linked) && 0 <= linked < |st|
      ensures if done then linked == 0 && symbol !in st[0].transitions
                           && Climbed(st, s, symbol, a + {0}, states) && states[current].link == 0
              else symbol in st[linked].transitions && transition == st[linked].transitions[symbol]
                   && Climbed(st, s, symbol, a, states)
    {
      hide Longest, Climbing, Uniform, Total, Unique, Deterministic, FirstOk;
      a, linked, done := {}, last, false;
      transition := GetTransition(states[linked], symbol);
      LengthNotNegative(st, s, linked);
      while transition == -1
        invariant Climbing(st, s, symbol, a, linked) && Climbed(st, s, symbol, a, states)
        invariant 0 <= linked < |st| && linked !in a && transition == GetTransition(st[linked], symbol)
        invariant 0 <= st[linked].length
        decreases st[linked].length
      {
        ClimbedLinks(st, s, symbol, linked, transition);
        states := states[linked := states[linked].(transitions := states[linked].transitions[symbol := states[current].index])];
        if states[linked].link != -1 {
          ClimbStep(st, s, symbol, a, linked);
          a := a + {linked};
          linked := states[linked].link;
          NotHeldYet(st, s, symbol, a, linked);
          LengthNotNegative(st, s, linked);
          transition := GetTransition(states[linked], symbol);
        } else {
          states := states[current := states[current].(link := 0)];
          done := true;
          break;
        }
      }
      if !done { ClimbedLinks(st, s, symbol, linked, transition); }
    }

    /** The clone: it takes over the shorter strings of `state2`. */
    method SplitState(symbol: char, current: int, state1: int, state2: int, ghost s: string, ghost st: seq<State>, ghost a: set<int>)
      requires Inv(st, s) && NoReferences(st) && current == |st| && Climbing(st, s, symbol, a, state1) && Climbed(st, s, symbol, a, states)
      requires 0 <= state1 < |st| && symbol in st[state1].transitions && state2 == st[state1].transitions[symbol]
      requires 0 < state2 < |st| && st[state2].length != st[state1].length + 1
      modifies this`states
      ensures Inv(states, s + [symbol]) && NoReferences(states) && |states| == |st| + 2 && |s| > 1
      ensures Longest(states, s + [symbol], current) == s + [symbol]
    {
      hide Longest, Inv, Climbing, Stepped, In, Redirecting;
      SplitRoom(st, s, symbol, state1);
      var clone := AddState(states[state1].length + 1);
      states := states[clone := states[clone].(link := states[state2].link)];
      states := states[clone := states[clone].(transitions := states[state2].transitions)];
      states := states[clone := states[clone].(first := states[state2].first)];
      states := states[current := states[current].(link := states[clone].index)];
      states := states[state2 := states[state2].(link := states[clone].index)];
      ghost var k := Choice(st[state1].length + 1, clone, state2, true, a, {});
      AddedCannotRead(st, s, symbol, a, state1);
      assert Updated(st, s, symbol, k, states);
      k := Redirect(symbol, clone, state1, state2, s, st, k);
      StepDone(st, s, symbol, k, states);
      SteppedSize(st, s, symbol, k, states);
    }

    /** The loop that redirects transitions from `state2` to the clone while climbing the links. */
    method Redirect(symbol: char, clone: int, state1: int, state2: int, ghost s: string, ghost st: seq<State>, ghost k: Choice)
      returns (ghost k': Choice)
      requires Inv(st, s) && clone == |st| + 1 && Climbing(st, s, symbol, k.added, state1)
      requires 0 <= state1 < |st| && symbol in st[state1].transitions && state2 == st[state1].transitions[symbol]
      requires 0 < state2 < |st| && SplitOk(st, s, symbol, k) && Updated(st, s, symbol, k, states)
      requires k == Choice(st[state1].length + 1, clone, state2, true, k.added, {}) && |states| == |st| + 2
      modifies this`states
      ensures k'.split && Stepped(st, s, symbol, k', states)
    {
      hide Longest, Inv, Climbing, Stepped, In, Redirecting, Linked, Updated;
      var linked, transition := state1, state2;
      ghost var red: set<int> := {};
      StateLinked(st, s);
      RedirectStarts(st, s, symbol, state1, state2);
      LengthNotNegative(st, s, state1);
      AddedCannotRead(st, s, symbol, k.added, state1);
      assert k.(redirected := red) == k;
      while transition == state2 && linked != -1
        invariant Redirecting(st, s, symbol, state1, state2, red, linked) && -1 <= linked < |st|
        invariant Updated(st, s, symbol, k.(redirected := red), states) && |states| == |st| + 2
        invariant linked >= 0 ==> symbol in st[linked].transitions && transition == st[linked].transitions[symbol]
        invariant linked >= 0 ==> 0 <= st[linked].length
        decreases if linked < 0 then 0 else st[linked].length + 1
      {
        RedirectStep(st, s, symbol, state1, state2, red, linked);
        RedirectFields(st, s, symbol, state1, state2, red, linked, k.added);
        ghost var before := states;
        states := states[linked := states[linked].(transitions := states[linked].transitions[symbol := clone])];
        RedirectOne(st, s, symbol, k.(redirected := red), before, states, linked);
        red := red + {linked};
        linked := states[linked].link;
        if linked != -1 {
          RedirectNext(st, s, symbol, state1, state2, red, linked);
          LengthNotNegative(st, s, linked);
          ReadsAsBefore(st, s, symbol, k.(redirected := red), states, linked);
          transition := GetTransition(states[linked], symbol);
        }
      }
      k' := k.(redirected := red);
      SplitCase(st, s, symbol, k.added, state1, red, linked, k', states);
    }
  }

  lemma TraverseStarts(st: seq<State>, start: int, w: string)
    requires 0 <= start < |st|
    ensures Traversing(st, start, {}, [start]) && Gathered(st, w, {}, {})
  {
  }

  lemma WaitingState(st: seq<State>, start: int, done: set<int>, stack: seq<int>)
    requires Traversing(st, start, done, stack) && stack != []
    ensures 0 <= stack[|stack| - 1] < |st|
  {
    assert stack[|stack| - 1] in stack;
  }

  lemma ReferencesAt(st: seq<State>, q: int)
    requires ReferencesRight(st) && 0 <= q < |st|
    ensures st[q].references == LinkedBelow(st, q, |st|)
  {
  }

  lemma InvLinkRange(st: seq<State>, s: string, i: int)
    requires Inv(st, s) && 0 < i < |st|
    ensures 0 <= st[i].link < |st|
  {
    OldState(st, s, i);
  }

  /** Links lead to strictly shorter states, or out of the root. */
  lemma LinkClimbs(st: seq<State>, s: string, q: int)
    requires Inv(st, s) && 0 <= q < |st|
    ensures -1 <= st[q].link < |st|
    ensures st[q].link >= 0 ==> 0 <= st[st[q].link].length < st[q].length
  {
    if q > 0 {
      OldState(st, s, q);
      LengthNotNegative(st, s, st[q].link);
    }
  }

  lemma LastIndex(st: seq<State>, s: string, last: int)
    requires Inv(st, s) && 0 <= last < |st| && Longest(st, s, last) == s
    ensures st[|st| - 1].index == |st| - 1 && st[last].length == |s|
  {
    LongestLength(st, s, last);
    if |st| > 1 { OldState(st, s, |st| - 1); }
  }

  lemma NewStateClimbed(st: seq<State>, s: string, c: char, now: seq<State>)
    requires |now| == |st| + 1 && now[..|st|] == st
    requires now[|st|] == State(|s| + 1, now[|st|].link, |s|, |st|, [], map[])
    ensures Climbed(st, s, c, {}, now)
  {
    forall r | 0 <= r < |st| ensures now[r] == st[r] { assert now[..|st|][r] == st[r]; }
  }

  lemma RelinkClimbed(st: seq<State>, s: string, c: char, a: set<int>, before: seq<State>, now: seq<State>, link: int)
    requires |before| == |st| + 1 && Climbed(st, s, c, a, before)
    requires now == before[|st| := before[|st|].(link := link)]
    ensures |now| == |st| + 1 && Climbed(st, s, c, a, now) && now[|st|].link == link
  {
  }

  lemma ClimbedSize(st: seq<State>, s: string, c: char, a: set<int>, now: seq<State>)
    requires Climbed(st, s, c, a, now)
    ensures |now| == |st| + 1
  {
  }

  /** What is known of the state where the climb stopped. */
  lemma ClimbedFields(st: seq<State>, s: string, c: char, a: set<int>, linked: int, now: seq<State>)
    requires Inv(st, s) && Climbed(st, s, c, a, now) && 0 <= linked < |st| && c in st[linked].transitions
    ensures |now| == |st| + 1 && now[linked].length == st[linked].length
    ensures var q := st[linked].transitions[c]; 0 < q < |st| && now[q].length == st[q].length && now[q].index == q
  {
    TransitionInRange(st, s, linked, c);
    OldState(st, s, st[linked].transitions[c]);
  }

  lemma ClimbedLinks(st: seq<State>, s: string, c: char, linked: int, transition: int)
    requires Inv(st, s) && 0 <= linked < |st| && transition == GetTransition(st[linked], c)
    ensures transition == -1 <==> c !in st[linked].transitions
    ensures st[linked].link == -1 <==> linked == 0
  {
    if c in st[linked].transitions { TransitionInRange(st, s, linked, c); }
    if linked > 0 { OldState(st, s, linked); }
  }

  lemma StateLinked(st: seq<State>, s: string)
    requires Inv(st, s)
    ensures Linked(st, s)
  {
  }

  lemma LengthNotNegative(st: seq<State>, s: string, q: int)
    requires Linked(st, s) && 0 <= q < |st|
    ensures 0 <= st[q].length
  {
    if q > 0 { OldState(st, s, q); }
  }

  lemma NotHeldYet(st: seq<State>, s: string, c: char, a: set<int>, linked: int)
    requires Climbing(st, s, c, a, linked)
    ensures linked !in a && 0 <= linked < |st|
  {
  }

  lemma AddedCannotRead(st: seq<State>, s: string, c: char, a: set<int>, linked: int)
    requires Climbing(st, s, c, a, linked)
    ensures forall r :: r in a ==> 0 <= r < |st| && c !in st[r].transitions
  {
  }

  /** Splitting needs a state with longer strings, so it cannot happen in the first two rounds. */
  lemma SplitRoom(st: seq<State>, s: string, c: char, p: int)
    requires Inv(st, s) && 0 <= p < |st| && c in st[p].transitions
    requires var q := st[p].transitions[c]; 0 < q < |st| && st[q].length != st[p].length + 1
    ensures var q := st[p].transitions[c];
            0 <= st[q].link < |st| && st[st[q].link].length < st[p].length + 1 < st[q].length && |s| > 1
  {
    var q := st[p].transitions[c];
    TransitionInRange(st, s, p, c);
    LongestLength(st, s, p);
    MemberOccurs(st, s, Longest(st, s, p) + [c], q);
    OldState(st, s, q);
  }

  lemma RedirectFields(st: seq<State>, s: string, c: char, p: int, q: int, red: set<int>, linked: int, a: set<int>)
    requires Redirecting(st, s, c, p, q, red, linked) && linked >= 0 && 0 <= q < |st| && st[p].length < st[q].length
    requires forall r :: r in a ==> 0 <= r < |st| && c !in st[r].transitions
    ensures linked != q && linked !in red && linked !in a
  {
  }

  /** One more state redirected. */
  lemma RedirectOne(st: seq<State>, s: string, c: char, k: Choice, before: seq<State>, now: seq<State>, linked: int)
    requires Updated(st, s, c, k, before) && k.split && 0 <= linked < |st|
    requires linked != k.q && linked !in k.added && linked !in k.redirected && c in st[linked].transitions
    requires now == before[linked := before[linked].(transitions := before[linked].transitions[c := |st| + 1])]
    ensures Updated(st, s, c, k.(redirected := k.redirected + {linked}), now)
    ensures |now| == |st| + 2 && now[linked].link == st[linked].link
  {
    var k' := k.(redirected := k.redirected + {linked});
    assert NewTransitions(st, c, k', k.q) == NewTransitions(st, c, k, k.q);
    forall r | 0 <= r < |st| && r != linked ensures NewTransitions(st, c, k', r) == NewTransitions(st, c, k, r) {}
  }

  lemma ReadsAsBefore(st: seq<State>, s: string, c: char, k: Choice, now: seq<State>, r: int)
    requires Updated(st, s, c, k, now) && 0 <= r < |st| && r !in k.added && r !in k.redirected
    ensures |now| > r && now[r].transitions == st[r].transitions
  {
  }

  lemma RedirectNext(st: seq<State>, s: string, c: char, p: int, q: int, red: set<int>, linked: int)
    requires Redirecting(st, s, c, p, q, red, linked) && linked >= 0
    ensures linked < |st| && c in st[linked].transitions && linked !in red
  {
  }

  lemma SplitCase(st: seq<State>, s: string, c: char, a: set<int>, p: int, red: set<int>, linked: int, k: Choice, st': seq<State>)
    requires Inv(st, s) && Climbing(st, s, c, a, p) && 0 <= p < |st| && c in st[p].transitions
    requires Redirecting(st, s, c, p, st[p].transitions[c], red, linked) && -1 <= linked < |st|
    requires linked >= 0 ==> c in st[linked].transitions && st[linked].transitions[c] != st[p].transitions[c]
    requires k == Choice(st[p].length + 1, |st| + 1, st[p].transitions[c], true, a, red)
    requires Updated(st, s, c, k, st') && SplitOk(st, s, c, k)
    ensures Stepped(st, s, c, k, st')
  {
    hide Inv, Climbing, Redirecting, Updated, SplitOk, Border, AddedOk, RedirectedOk, In;
    BorderAt(st, s, c, a, p, k);
    RedirectDone(st, s, c, p, red, linked, k);
  }

  lemma SteppedUpdated(st: seq<State>, s: string, c: char, k: Choice, st': seq<State>)
    requires Stepped(st, s, c, k, st')
    ensures Updated(st, s, c, k, st') && |st| > 0 && |st'| > |st|
  {
  }

  lemma SteppedSize(st: seq<State>, s: string, c: char, k: Choice, st': seq<State>)
    requires Stepped(st, s, c, k, st') && k.split
    ensures |st'| == |st| + 2
  {
  }

  lemma StillNoReferences(st: seq<State>, s: string, c: char, k: Choice, st': seq<State>)
    requires Updated(st, s, c, k, st') && NoReferences(st)
    ensures NoReferences(st')
  {
  }

  lemma StepDone(st: seq<State>, s: string, c: char, k: Choice, st': seq<State>)
    requires Stepped(st, s, c, k, st') && NoReferences(st)
    ensures Inv(st', s + [c]) && NoReferences(st') && Longest(st', s + [c], |st|) == s + [c]
  {
    hide Stepped, Inv, NoReferences, Longest, Updated, Linked;
    StepKeepsInv(st, s, c, k, st');
    SteppedUpdated(st, s, c, k, st');
    NewLongest(st, s, c, k, st');
    StillNoReferences(st, s, c, k, st');
  }
}
