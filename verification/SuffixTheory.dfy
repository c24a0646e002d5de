/** Suffix automata: the invariant that ties states to substrings, and why one more symbol keeps it.
    Strings are located by the position where an occurrence ends. */
module SuffixTheory {

  /** One state. For the root `first` is never set. */
  datatype State = State(length: int, link: int, first: int, index: int, references: seq<int>, transitions: map<char, int>)

  // ---------------------------------------------------------------- substrings

  /** `w` ends at position `e` of `s`. */
  ghost predicate Occurs(s: string, w: string, e: int) {
    |w| <= e <= |s| && s[e - |w|..e] == w
  }

  ghost predicate Factor(s: string, w: string) {
    exists e :: Occurs(s, w, e)
  }

  ghost predicate IsSuffix(u: string, w: string) {
    |u| <= |w| && w[|w| - |u|..] == u
  }

  /** The two strings end at the same positions. */
  ghost predicate SameEnds(s: string, u: string, w: string) {
    forall e :: Occurs(s, u, e) <==> Occurs(s, w, e)
  }

  lemma SuffixTransitive(u: string, v: string, w: string)
    requires IsSuffix(u, v) && IsSuffix(v, w)
    ensures IsSuffix(u, w)
  {
    assert w[|w| - |u|..] == w[|w| - |v|..][|v| - |u|..];
  }

  /** Of two suffixes of a string the shorter is a suffix of the longer. */
  lemma SuffixesNest(u: string, v: string, w: string)
    requires IsSuffix(u, w) && IsSuffix(v, w) && |u| <= |v|
    ensures IsSuffix(u, v)
  {
    assert v[|v| - |u|..] == w[|w| - |v|..][|v| - |u|..] == w[|w| - |u|..];
  }

  lemma SuffixOccurs(s: string, u: string, w: string, e: int)
    requires IsSuffix(u, w) && Occurs(s, w, e)
    ensures Occurs(s, u, e)
  {
    assert s[e - |u|..e] == s[e - |w|..e][|w| - |u|..];
  }

  lemma SuffixSymbol(u: string, w: string, c: char, d: char)
    ensures IsSuffix(u + [d], w + [c]) <==> d == c && IsSuffix(u, w)
  {
    var a, b := u + [d], w + [c];
    if |u| <= |w| {
      assert b[|b| - |a|..] == w[|w| - |u|..] + [c];
      if IsSuffix(a, b) {
        assert b[|b| - |a|..][|u|] == a[|u|];
        assert w[|w| - |u|..] == b[|b| - |a|..][..|u|] == a[..|u|] == u;
      }
    }
  }

  /** Occurrences of a longer string come from occurrences of the shorter one. */
  lemma OccursSymbol(s: string, u: string, c: char, e: int)
    ensures Occurs(s, u + [c], e) <==> 0 < e <= |s| && Occurs(s, u, e - 1) && s[e - 1] == c
  {
    if |u| < e <= |s| {
      assert s[e - |u| - 1..e] == s[e - |u| - 1..e - 1] + [s[e - 1]];
      if Occurs(s, u + [c], e) {
        assert (s[e - |u| - 1..e - 1] + [s[e - 1]])[..|u|] == (u + [c])[..|u|];
      }
    }
  }

  /** Adding a symbol to the text only adds occurrences at its end. */
  lemma OccursExtended(s: string, c: char, w: string, e: int)
    ensures Occurs(s + [c], w, e) <==> Occurs(s, w, e) || (e == |s| + 1 && IsSuffix(w, s + [c]))
  {
    if |w| <= e <= |s| { assert (s + [c])[e - |w|..e] == s[e - |w|..e]; }
    if e == |s| + 1 && |w| <= e { assert (s + [c])[e - |w|..e] == (s + [c])[e - |w|..]; }
  }

  // ---------------------------------------------------------------- the invariant

  /** The longest string of a state: `length` symbols, ending where it first occurs. */
  ghost function Longest(st: seq<State>, s: string, q: int): (w: string) {
    if 0 < q < |st| && 0 <= st[q].length <= st[q].first + 1 <= |s|
    then s[st[q].first + 1 - st[q].length..st[q].first + 1] else []
  }

  /** `w` belongs to state `q`: a suffix of its longest string that is longer than all of its link's. */
  ghost predicate In(st: seq<State>, s: string, w: string, q: int) {
    && 0 <= q < |st| && IsSuffix(w, Longest(st, s, q))
    && (q > 0 ==> 0 <= st[q].link < |st| && st[st[q].link].length < |w|)
  }

  ghost predicate RootOk(r: State) {
    r.length == 0 && r.link == -1 && r.index == 0
  }

  ghost predicate StateOk(st: seq<State>, s: string, q: int) {
    && 0 < q < |st| && st[q].index == q
    && 0 <= st[q].link < |st| && st[st[q].link].length < st[q].length
    && 0 < st[q].length <= st[q].first + 1 <= |s|
    && IsSuffix(Longest(st, s, st[q].link), Longest(st, s, q))
  }

  ghost predicate Linked(st: seq<State>, s: string) {
    |st| > 0 && RootOk(st[0]) && forall q :: 0 < q < |st| ==> StateOk(st, s, q)
  }

  ghost predicate Uniform(st: seq<State>, s: string) {
    forall w, q :: In(st, s, w, q) ==> SameEnds(s, w, Longest(st, s, q))
  }

  ghost predicate HasState(st: seq<State>, s: string, w: string) {
    exists q :: In(st, s, w, q)
  }

  ghost predicate Total(st: seq<State>, s: string) {
    forall w :: Factor(s, w) ==> HasState(st, s, w)
  }

  ghost predicate Unique(st: seq<State>, s: string) {
    forall w, q, r :: In(st, s, w, q) && In(st, s, w, r) ==> q == r
  }

  /** Reading `c` in a state of `w` leads to the state of `w + [c]`. */
  ghost predicate Moves(st: seq<State>, s: string, w: string, q: int, c: char) {
    && 0 <= q < |st|
    && if c in st[q].transitions then In(st, s, w + [c], st[q].transitions[c]) else !Factor(s, w + [c])
  }

  ghost predicate Deterministic(st: seq<State>, s: string) {
    forall w, q, c :: In(st, s, w, q) ==> Moves(st, s, w, q, c)
  }

  ghost predicate FirstOk(st: seq<State>, s: string) {
    forall q, e :: 0 < q < |st| && Occurs(s, Longest(st, s, q), e) ==> st[q].first + 1 <= e
  }

  /** The automaton of the text `s`. */
  ghost predicate Inv(st: seq<State>, s: string) {
    && Linked(st, s) && Uniform(st, s) && Total(st, s) && Unique(st, s) && Deterministic(st, s) && FirstOk(st, s)
  }

  lemma LongestLength(st: seq<State>, s: string, q: int)
    requires Linked(st, s) && 0 <= q < |st|
    ensures |Longest(st, s, q)| == st[q].length && In(st, s, Longest(st, s, q), q)
    ensures q > 0 ==> Occurs(s, Longest(st, s, q), st[q].first + 1)
  {
    if q > 0 { assert StateOk(st, s, q); }
  }

  lemma MemberOccurs(st: seq<State>, s: string, w: string, q: int)
    requires Linked(st, s) && In(st, s, w, q)
    ensures Factor(s, w) && |w| <= st[q].length
  {
    LongestLength(st, s, q);
    if q == 0 {
      assert Occurs(s, w, 0);
    } else {
      SuffixOccurs(s, w, Longest(st, s, q), st[q].first + 1);
    }
  }

  /** The states of the suffixes of a state's strings lie on its link path. */
  lemma SuffixState(st: seq<State>, s: string, w: string, b: int, r: int)
    requires Linked(st, s) && Unique(st, s) && 0 <= b < |st|
    requires IsSuffix(w, Longest(st, s, b)) && In(st, s, w, r)
    ensures IsSuffix(Longest(st, s, r), Longest(st, s, b)) && st[r].length <= st[b].length
    ensures r != b ==> b > 0 && 0 <= st[b].link < |st| && IsSuffix(Longest(st, s, r), Longest(st, s, st[b].link)) && st[r].length <= st[st[b].link].length
    decreases st[b].length
  {
    LongestLength(st, s, b);
    if In(st, s, w, b) {
      assert r == b;
    } else {
      assert StateOk(st, s, b);
      var l := st[b].link;
      LongestLength(st, s, l);
      SuffixesNest(w, Longest(st, s, l), Longest(st, s, b));
      if l > 0 { assert StateOk(st, s, l); }
      SuffixState(st, s, w, l, r);
      SuffixTransitive(Longest(st, s, r), Longest(st, s, l), Longest(st, s, b));
    }
  }

  // ---------------------------------------------------------------- reading a pattern

  /** The state reached from the root by reading `w`, or -1. */
  function Walk(st: seq<State>, w: string): (q: int) {
    if w == [] then 0
    else
      var q := Walk(st, w[..|w| - 1]);
      if 0 <= q < |st| && w[|w| - 1] in st[q].transitions then st[q].transitions[w[|w| - 1]] else -1
  }

  lemma RootHoldsEmpty(st: seq<State>, s: string)
    requires Linked(st, s)
    ensures In(st, s, [], 0)
  {
  }

  /** Reading a pattern ends in its state exactly when it is a substring. */
  lemma WalkFinds(st: seq<State>, s: string, w: string)
    requires Inv(st, s)
    ensures if Factor(s, w) then In(st, s, w, Walk(st, w)) else Walk(st, w) == -1
    decreases |w|
  {
    hide Longest, Linked, Uniform, Total, Unique, FirstOk, IsSuffix;
    if w == [] {
      RootHoldsEmpty(st, s);
      assert Occurs(s, w, 0);
    } else {
      var u, c := w[..|w| - 1], w[|w| - 1];
      assert w == u + [c];
      WalkFinds(st, s, u);
      if Factor(s, w) {
        var e :| Occurs(s, w, e);
        OccursSymbol(s, u, c, e);
      }
      if Factor(s, u) {
        var q := Walk(st, u);
        assert Moves(st, s, u, q, c);
        if c in st[q].transitions { MemberOccurs(st, s, w, st[q].transitions[c]); }
      }
    }
  }
}
