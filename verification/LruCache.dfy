/** The page cache: a list of nodes, most recent first, and an index from pages to their nodes. */
module LruCache {
  import opened Common

  /** A list node; an iterator is its identity. */
  datatype Node<T> = Node(id: nat, page: T)

  // ---------------------------------------------------------------- recency

  function Drop<T(==)>(s: seq<T>, x: T): (r: seq<T>)
    ensures |r| <= |s|
  {
    if s == [] then [] else (if s[0] == x then [] else [s[0]]) + Drop(s[1..], x)
  }

  /** The pages of a history of accesses, each once, the most recently accessed first. */
  function Recent<T(==)>(history: seq<T>): (r: seq<T>) {
    if history == [] then []
    else [history[|history| - 1]] + Drop(Recent(history[..|history| - 1]), history[|history| - 1])
  }

  function Cut<T>(s: seq<T>, k: nat): (r: seq<T>)
    ensures |r| == if |s| <= k then |s| else k
  {
    if |s| <= k then s else s[..k]
  }

  lemma {:induction false} DropMembers<T>(s: seq<T>, x: T, y: T)
    ensures y in Drop(s, x) <==> y in s && y != x
  {
    if s != [] { DropMembers(s[1..], x, y); }
  }

  lemma {:induction false} DropDistinct<T>(s: seq<T>, x: T)
    requires Distinct(s)
    ensures Distinct(Drop(s, x)) && (x !in s ==> Drop(s, x) == s) && (x in s ==> |Drop(s, x)| == |s| - 1)
  {
    if s != [] {
      DropDistinct(s[1..], x);
      DropMembers(s[1..], x, s[0]);
      assert s[0] !in s[1..];
      var d := Drop(s[1..], x);
      forall i, j | 0 <= i < j < |Drop(s, x)| ensures Drop(s, x)[i] != Drop(s, x)[j] {
        if s[0] != x && i == 0 { assert d[j - 1] in d; }
      }
    }
  }

  lemma {:induction false} RecentMembers<T>(history: seq<T>, x: T)
    ensures x in Recent(history) <==> x in history
  {
    if history != [] {
      var n := |history| - 1;
      RecentMembers(history[..n], x);
      DropMembers(Recent(history[..n]), history[n], x);
      assert history == history[..n] + [history[n]];
    }
  }

  lemma {:induction false} RecentDistinct<T>(history: seq<T>)
    ensures Distinct(Recent(history))
  {
    if history != [] {
      var n := |history| - 1;
      RecentDistinct(history[..n]);
      DropDistinct(Recent(history[..n]), history[n]);
      DropMembers(Recent(history[..n]), history[n], history[n]);
      var r, d := Recent(history), Drop(Recent(history[..n]), history[n]);
      forall i, j | 0 <= i < j < |r| ensures r[i] != r[j] {
        if i == 0 { assert r[j] == d[j - 1] && d[j - 1] in d; }
      }
    }
  }

  /** `i` is the last position where `x` was accessed. */
  ghost predicate LastAccess<T>(history: seq<T>, x: T, i: int) {
    0 <= i < |history| && history[i] == x && forall j :: i < j < |history| ==> history[j] != x
  }

  /** Earlier in the order means accessed later. */
  lemma {:induction false} RecentOrder<T>(history: seq<T>, a: int, b: int) returns (i: int, j: int)
    requires 0 <= a < b < |Recent(history)|
    ensures j < i && LastAccess(history, Recent(history)[a], i) && LastAccess(history, Recent(history)[b], j)
  {
    var n := |history| - 1;
    var x, before := history[n], Recent(history[..n]);
    var d := Drop(before, x);
    assert Recent(history) == [x] + d;
    hide Recent, Drop, LastAccess;
    assert Recent(history)[b] == d[b - 1] && d[b - 1] in d;
    DropMembers(before, x, d[b - 1]);
    if a == 0 {
      i := LastNow(history);
      j := LastOf(history[..n], d[b - 1]);
      j := LastStays(history, d[b - 1], j);
    } else {
      assert Recent(history)[a] == d[a - 1] && d[a - 1] in d;
      DropMembers(before, x, d[a - 1]);
      var a', b' := DropOrder(before, x, a - 1, b - 1);
      i, j := RecentOrder(history[..n], a', b');
      i := LastStays(history, d[a - 1], i);
      j := LastStays(history, d[b - 1], j);
    }
  }

  lemma LastNow<T>(history: seq<T>) returns (i: int)
    requires history != []
    ensures i == |history| - 1 && LastAccess(history, history[i], i)
  {
    i := |history| - 1;
  }

  /** An access to another page leaves the last access where it was. */
  lemma LastStays<T>(history: seq<T>, x: T, i: int) returns (i': int)
    requires history != [] && history[|history| - 1] != x && LastAccess(history[..|history| - 1], x, i)
    ensures i' == i < |history| - 1 && LastAccess(history, x, i)
  {
    i' := i;
  }

  lemma {:induction false} DropOrder<T>(s: seq<T>, x: T, a: int, b: int) returns (a': int, b': int)
    requires 0 <= a < b < |Drop(s, x)|
    ensures 0 <= a' < b' < |s| && s[a'] == Drop(s, x)[a] && s[b'] == Drop(s, x)[b]
  {
    if s[0] == x {
      a', b' := DropOrder(s[1..], x, a, b);
      a', b' := a' + 1, b' + 1;
    } else if a > 0 {
      a', b' := DropOrder(s[1..], x, a - 1, b - 1);
      a', b' := a' + 1, b' + 1;
    } else {
      a' := 0;
      var d := Drop(s[1..], x);
      assert d[b - 1] in d;
      DropMembers(s[1..], x, d[b - 1]);
      var c :| 0 <= c < |s[1..]| && s[1..][c] == d[b - 1];
      b' := c + 1;
    }
  }

  lemma {:induction false} LastOf<T>(history: seq<T>, x: T) returns (i: int)
    requires x in Recent(history)
    ensures LastAccess(history, x, i)
  {
    RecentMembers(history, x);
    var n := |history| - 1;
    if history[n] == x {
      i := n;
    } else {
      assert history == history[..n] + [history[n]];
      RecentMembers(history[..n], x);
      i := LastOf(history[..n], x);
    }
  }

  // ---------------------------------------------------------------- cutting the recency order

  /** An access to a page that is within the cut moves it to the front. */
  lemma CutHit<T>(s: seq<T>, k: nat, x: T)
    requires Distinct(s) && x in Cut(s, k)
    ensures Cut([x] + Drop(s, x), k) == [x] + Drop(Cut(s, k), x)
  {
    DropDistinct(s, x);
    DropDistinct(Cut(s, k), x);
    if |s| > k {
      assert s == s[..k] + s[k..];
      DropConcat(s[..k], s[k..], x);
      assert x !in s[k..];
      DropDistinct(s[k..], x);
      assert ([x] + Drop(s, x))[..k] == [x] + Drop(s[..k], x);
    }
  }

  lemma {:induction false} DropConcat<T>(s: seq<T>, t: seq<T>, x: T)
    ensures Drop(s + t, x) == Drop(s, x) + Drop(t, x)
  {
    if s == [] {
      assert s + t == t;
    } else {
      assert (s + t)[1..] == s[1..] + t;
      DropConcat(s[1..], t, x);
    }
  }

  /** An access to a page beyond the cut pushes the last page out if there is no room. */
  lemma CutMiss<T>(s: seq<T>, k: nat, x: T)
    requires Distinct(s) && x !in Cut(s, k) && k > 0
    ensures Cut([x] + Drop(s, x), k) == [x] + (if |Cut(s, k)| == k then Cut(s, k)[..k - 1] else Cut(s, k))
  {
    hide Drop;
    DropDistinct(s, x);
    if |s| > k {
      assert s == s[..k] + s[k..];
      DropConcat(s[..k], s[k..], x);
      DropDistinct(s[..k], x);
      assert ([x] + Drop(s, x))[..k] == [x] + s[..k - 1];
    } else if |s| == k {
      assert ([x] + s)[..k] == [x] + s[..k - 1];
    }
  }

  // ---------------------------------------------------------------- faults and capacity

  /** The page faults of a run of refers alone with capacity `k`. */
  function Faults<T(==)>(refers: seq<T>, k: nat): (n: nat)
    ensures n <= |refers|
  {
    if refers == [] then 0
    else Faults(refers[..|refers| - 1], k)
         + if refers[|refers| - 1] in Cut(Recent(refers[..|refers| - 1]), k) then 0 else 1
  }

  lemma CutPrefix<T>(s: seq<T>, k: nat, k': nat)
    requires k <= k'
    ensures Cut(s, k) <= Cut(s, k')
  {
  }

  /** A larger cache never has more faults. */
  lemma {:induction false} FaultsFall<T>(refers: seq<T>, k: nat, k': nat)
    requires k <= k'
    ensures Faults(refers, k') <= Faults(refers, k)
  {
    if refers != [] {
      FaultsFall(refers[..|refers| - 1], k, k');
      CutPrefix(Recent(refers[..|refers| - 1]), k, k');
    }
  }

  // ---------------------------------------------------------------- the list of nodes

  function Erase<T>(cache: seq<Node<T>>, id: nat): (r: seq<Node<T>>) {
    if cache == [] then []
    else if cache[0].id == id then cache[1..] else [cache[0]] + Erase(cache[1..], id)
  }

  ghost function Pages<T>(cache: seq<Node<T>>): (r: seq<T>)
    ensures |r| == |cache| && forall i :: 0 <= i < |r| ==> r[i] == cache[i].page
  {
    seq(|cache|, i requires 0 <= i < |cache| => cache[i].page)
  }

  /** Identities are distinct, and the index maps exactly the pages of the list to their own nodes. */
  ghost predicate Indexed<T>(cache: seq<Node<T>>, pageMap: map<T, nat>, nextId: nat) {
    && NodesApart(cache) && (forall i :: 0 <= i < |cache| ==> OwnNode(cache[i], pageMap, nextId))
    && (forall p :: p in pageMap ==> p in Pages(cache))
  }

  ghost predicate NodesApart<T>(cache: seq<Node<T>>) {
    forall i, j :: 0 <= i < j < |cache| ==> cache[i].id != cache[j].id && cache[i].page != cache[j].page
  }

  ghost predicate OwnNode<T>(n: Node<T>, pageMap: map<T, nat>, nextId: nat) {
    n.id < nextId && n.page in pageMap && pageMap[n.page] == n.id
  }

  lemma {:induction false} EraseCuts<T>(cache: seq<Node<T>>, i: int)
    requires 0 <= i < |cache| && forall a, b :: 0 <= a < b < |cache| ==> cache[a].id != cache[b].id
    ensures Erase(cache, cache[i].id) == cache[..i] + cache[i + 1..]
  {
    if i > 0 { EraseCuts(cache[1..], i - 1); }
  }

  lemma {:induction false} DropCuts<T>(s: seq<T>, i: int)
    requires 0 <= i < |s| && Distinct(s)
    ensures Drop(s, s[i]) == s[..i] + s[i + 1..]
  {
    if i == 0 {
      assert s[0] !in s[1..];
      DropDistinct(s[1..], s[0]);
    } else {
      DropCuts(s[1..], i - 1);
    }
  }

  lemma ErasePages<T>(cache: seq<Node<T>>, i: int)
    requires 0 <= i < |cache| && Distinct(Pages(cache)) && forall a, b :: 0 <= a < b < |cache| ==> cache[a].id != cache[b].id
    ensures Erase(cache, cache[i].id) == cache[..i] + cache[i + 1..]
    ensures Pages(Erase(cache, cache[i].id)) == Drop(Pages(cache), cache[i].page)
  {
    hide Erase, Drop, Distinct, Pages;
    EraseCuts(cache, i);
    DropCuts(Pages(cache), i);
    PagesCut(cache, i);
  }

  lemma PagesCut<T>(cache: seq<Node<T>>, i: int)
    requires 0 <= i < |cache|
    ensures Pages(cache[..i] + cache[i + 1..]) == Pages(cache)[..i] + Pages(cache)[i + 1..]
  {
    var c, p := cache[..i] + cache[i + 1..], Pages(cache)[..i] + Pages(cache)[i + 1..];
    forall a | 0 <= a < |c| ensures Pages(c)[a] == p[a] {
      assert c[a] == cache[if a < i then a else a + 1];
    }
    assert Pages(c) == p;
  }

  lemma IndexedDistinct<T>(cache: seq<Node<T>>, pageMap: map<T, nat>, nextId: nat)
    requires Indexed(cache, pageMap, nextId)
    ensures Distinct(Pages(cache)) && forall p :: p in pageMap <==> p in Pages(cache)
  {
    forall p | p in Pages(cache) ensures p in pageMap {
      var i :| 0 <= i < |cache| && Pages(cache)[i] == p;
    }
  }

  /** Removing the last page. */
  lemma EvictIndexed<T>(cache: seq<Node<T>>, pageMap: map<T, nat>, nextId: nat)
    requires Indexed(cache, pageMap, nextId) && cache != []
    ensures Indexed(cache[..|cache| - 1], pageMap - {cache[|cache| - 1].page}, nextId)
    ensures Pages(cache[..|cache| - 1]) == Pages(cache)[..|cache| - 1]
  {
    var n := |cache| - 1;
    forall p | p in pageMap && p != cache[n].page ensures p in Pages(cache[..n]) {
      var i :| 0 <= i < |cache| && Pages(cache)[i] == p;
      assert Pages(cache[..n])[i] == p;
    }
  }

  /** A page that is not in the list goes to the front, under a node that is not in the list. */
  lemma PushIndexed<T>(cache: seq<Node<T>>, pageMap: map<T, nat>, nextId: nat, id: nat, page: T, bound: nat)
    requires Indexed(cache, pageMap, nextId) && page !in pageMap && id < bound && nextId <= bound
    requires forall i :: 0 <= i < |cache| ==> cache[i].id != id
    ensures Indexed([Node(id, page)] + cache, pageMap[page := id], bound)
    ensures Pages([Node(id, page)] + cache) == [page] + Pages(cache)
  {
    var c := [Node(id, page)] + cache;
    assert Pages(c) == [page] + Pages(cache);
    forall p | p in pageMap[page := id] ensures p in Pages(c) {
      if p != page { assert p in Pages(cache); }
    }
  }

  /** A page of the list: its node is found by the index. */
  lemma FindNode<T>(cache: seq<Node<T>>, pageMap: map<T, nat>, nextId: nat, page: T) returns (i: int)
    requires Indexed(cache, pageMap, nextId) && page in pageMap
    ensures 0 <= i < |cache| && cache[i] == Node(pageMap[page], page)
  {
    i :| 0 <= i < |cache| && Pages(cache)[i] == page;
  }

  /** Removing the node of a page, which then is not in the list any more. */
  lemma EraseIndexed<T>(cache: seq<Node<T>>, pageMap: map<T, nat>, nextId: nat, page: T)
    requires Indexed(cache, pageMap, nextId) && page in pageMap
    ensures Indexed(Erase(cache, pageMap[page]), pageMap - {page}, nextId)
    ensures Pages(Erase(cache, pageMap[page])) == Drop(Pages(cache), page)
    ensures forall j :: 0 <= j < |Erase(cache, pageMap[page])| ==> Erase(cache, pageMap[page])[j].id != pageMap[page]
  {
    hide Erase, Drop, Indexed;
    var i := FindNode(cache, pageMap, nextId, page);
    IndexedDistinct(cache, pageMap, nextId);
    IdsDistinct(cache, pageMap, nextId);
    ErasePages(cache, i);
    forall p | p in pageMap && p != page ensures p in Drop(Pages(cache), page) { DropMembers(Pages(cache), page, p); }
    RemoveIndexed(cache, pageMap, nextId, i, cache[..i] + cache[i + 1..]);
  }

  lemma IdsDistinct<T>(cache: seq<Node<T>>, pageMap: map<T, nat>, nextId: nat)
    requires Indexed(cache, pageMap, nextId)
    ensures forall a, b :: 0 <= a < b < |cache| ==> cache[a].id != cache[b].id
  {
  }

  lemma RemoveIndexed<T>(cache: seq<Node<T>>, pageMap: map<T, nat>, nextId: nat, i: int, c: seq<Node<T>>)
    requires Indexed(cache, pageMap, nextId) && 0 <= i < |cache| && c == cache[..i] + cache[i + 1..]
    requires forall p :: p in pageMap && p != cache[i].page ==> p in Pages(c)
    ensures Indexed(c, pageMap - {cache[i].page}, nextId) && forall j :: 0 <= j < |c| ==> c[j].id != cache[i].id
  {
    RemoveApart(cache, i, c);
    hide NodesApart;
    forall a | 0 <= a < |c| ensures OwnNode(c[a], pageMap - {cache[i].page}, nextId) {
      assert c[a] == cache[if a < i then a else a + 1];
    }
  }

  lemma RemoveApart<T>(cache: seq<Node<T>>, i: int, c: seq<Node<T>>)
    requires NodesApart(cache) && 0 <= i < |cache| && c == cache[..i] + cache[i + 1..]
    ensures NodesApart(c) && forall j :: 0 <= j < |c| ==> c[j].id != cache[i].id && c[j].page != cache[i].page
  {
    forall a | 0 <= a < |c| ensures c[a] == cache[if a < i then a else a + 1] {}
  }

  // ---------------------------------------------------------------- the class

  class Cache<T(==)> {
    const cacheSize: nat
    var pageMap: map<T, nat>
    var cache: seq<Node<T>>
    var hits: nat
    var pageFaults: nat
    var nextId: nat

    ghost var history: seq<T>
    ghost var refersOnly: bool

    /** The list is the recency order cut to the capacity. */
    ghost predicate Valid()
      reads this
    {
      && Indexed(cache, pageMap, nextId) && Pages(cache) == Cut(Recent(history), cacheSize)
      && (refersOnly ==> pageFaults == Faults(history, cacheSize) && hits + pageFaults == |history|)
    }

    constructor (cacheSize: nat)
      ensures Valid() && history == [] && refersOnly && this.cacheSize == cacheSize && hits == 0 && pageFaults == 0
    {
      this.cacheSize := cacheSize;
      pageMap, cache, hits, pageFaults, nextId := map[], [], 0, 0, 0;
      history, refersOnly := [], true;
    }

    /** A cache without room has no last page to take out. */
    method Refer(page: T)
      requires Valid() && cacheSize > 0
      modifies this
      ensures Valid() && history == old(history) + [page] && refersOnly == old(refersOnly)
      ensures if page in Cut(Recent(old(history)), cacheSize) then hits == old(hits) + 1 && pageFaults == old(pageFaults)
              else hits == old(hits) && pageFaults == old(pageFaults) + 1
    {
      hide Indexed, Recent, Cut, Pages, Drop;
      IndexedDistinct(cache, pageMap, nextId);
      RecentDistinct(history);
      Accessed(history, page);
      ghost var rest := pageMap - {page};
      if page !in pageMap {
        pageFaults := pageFaults + 1;
        CutMiss(Recent(history), cacheSize, page);
        if |cache| == cacheSize {
          EvictIndexed(cache, pageMap, nextId);
          var lastPage := cache[|cache| - 1].page;
          cache := cache[..|cache| - 1];
          pageMap := pageMap - {lastPage};
        }
        rest := pageMap;
      } else {
        hits := hits + 1;
        CutHit(Recent(history), cacheSize, page);
        EraseIndexed(cache, pageMap, nextId, page);
        cache := Erase(cache, pageMap[page]);
      }
      IdsBelow(cache, rest, nextId);
      PushIndexed(cache, rest, nextId, nextId, page, nextId + 1);
      assert pageMap[page := nextId] == rest[page := nextId];
      cache := [Node(nextId, page)] + cache;
      pageMap := pageMap[page := nextId];
      nextId := nextId + 1;
      history := history + [page];
    }

    method Exists(value: T) returns (r: bool)
      requires Valid()
      ensures r <==> value in Cut(Recent(history), cacheSize)
    {
      IndexedDistinct(cache, pageMap, nextId);
      r := value in pageMap;
    }

    /** The page, moved to the front; `None` where the source throws. */
    method Get(value: T) returns (r: Option<T>)
      requires Valid()
      modifies this
      ensures Valid()
      ensures if value in Cut(Recent(old(history)), cacheSize)
              then r == Some(value) && history == old(history) + [value] && !refersOnly
              else r == None && history == old(history) && refersOnly == old(refersOnly)
      ensures hits == old(hits) && pageFaults == old(pageFaults)
    {
      hide Indexed, Recent, Cut, Pages, Drop;
      IndexedDistinct(cache, pageMap, nextId);
      if value !in pageMap { return None; }
      RecentDistinct(history);
      Accessed(history, value);
      CutHit(Recent(history), cacheSize, value);
      SpliceIndexed(cache, pageMap, nextId, value);
      var id := pageMap[value];
      cache := [Node(id, value)] + Erase(cache, id);
      history := history + [value];
      refersOnly := false;
      return Some(value);
    }
  }

  /** What an access makes of a recency order. */
  ghost predicate Moves(before: seq<nat>, page: nat, after: seq<nat>) {
    after == [page] + if page in before then Drop(before, page) else before
  }

  lemma MovesFrom(a: seq<nat>, page: nat, b: seq<nat>)
    requires page !in a && page !in b
    ensures Moves(a + [page] + b, page, [page] + a + b)
  {
    hide Drop;
    DropConcat(a + [page], b, page);
    DropConcat(a, [page], page);
    DropOther(a, page);
    DropOther(b, page);
    assert Drop([page], page) == [] by { DropOnly(page); }
    assert a + [] + b == a + b && [page] + (a + b) == [page] + a + b;
  }

  lemma DropOnly(page: nat)
    ensures Drop([page], page) == []
  {
  }

  lemma {:induction false} DropOther(s: seq<nat>, page: nat)
    requires page !in s
    ensures Drop(s, page) == s
  {
    if s != [] {
      DropOther(s[1..], page);
      assert s == [s[0]] + s[1..];
    }
  }

  lemma NewPagesMove()
    ensures Moves([], 1, [1]) && Moves([1], 2, [2, 1]) && Moves([2, 1], 5, [5, 2, 1]) && Moves([1, 5, 2], 4, [4, 1, 5, 2])
  {
    hide Drop;
  }

  lemma PageMoves5211()
    ensures Moves([5, 2, 1], 1, [1, 5, 2])
  {
    MovesFrom([5, 2], 1, []);
    hide Drop;
    assert [5, 2] + [1] + [] == [5, 2, 1] && [1] + [5, 2] + [] == [1, 5, 2];
  }

  lemma PageMoves41525()
    ensures Moves([4, 1, 5, 2], 5, [5, 4, 1, 2])
  {
    MovesFrom([4, 1], 5, [2]);
    hide Drop;
    assert [4, 1] + [5] + [2] == [4, 1, 5, 2] && [5] + [4, 1] + [2] == [5, 4, 1, 2];
  }

  lemma PageMoves54125()
    ensures Moves([5, 4, 1, 2], 5, [5, 4, 1, 2])
  {
    MovesFrom([], 5, [4, 1, 2]);
    hide Drop;
    assert [] + [5] + [4, 1, 2] == [5, 4, 1, 2] && [5] + [] + [4, 1, 2] == [5, 4, 1, 2];
  }

  lemma PageMoves54124()
    ensures Moves([5, 4, 1, 2], 4, [4, 5, 1, 2])
  {
    MovesFrom([5], 4, [1, 2]);
    hide Drop;
    assert [5] + [4] + [1, 2] == [5, 4, 1, 2] && [4] + [5] + [1, 2] == [4, 5, 1, 2];
  }

  lemma PageMoves45121()
    ensures Moves([4, 5, 1, 2], 1, [1, 4, 5, 2])
  {
    MovesFrom([4, 5], 1, [2]);
    hide Drop;
    assert [4, 5] + [1] + [2] == [4, 5, 1, 2] && [1] + [4, 5] + [2] == [1, 4, 5, 2];
  }

  /** A cache of four pages with this order and these counters. */
  ghost predicate Shows(cache: Cache<nat>, order: seq<nat>, hits: nat, faults: nat)
    reads cache
  {
    && cache.Valid() && cache.cacheSize == 4 && Recent(cache.history) == order && |order| <= 4
    && cache.hits == hits && cache.pageFaults == faults
  }

  method ReferTo(cache: Cache<nat>, page: nat, ghost before: seq<nat>, ghost after: seq<nat>, ghost hits: nat, ghost faults: nat)
    requires Shows(cache, before, hits, faults) && Moves(before, page, after) && |after| <= 4
    modifies cache
    ensures Shows(cache, after, if page in before then hits + 1 else hits, if page in before then faults else faults + 1)
  {
    hide Recent, Drop;
    RecentDistinct(cache.history);
    DropDistinct(before, page);
    Accessed(cache.history, page);
    cache.Refer(page);
  }

  method GetFrom(cache: Cache<nat>, page: nat, ghost before: seq<nat>, ghost after: seq<nat>, ghost hits: nat, ghost faults: nat)
      returns (r: Option<nat>)
    requires Shows(cache, before, hits, faults) && (page in before ==> Moves(before, page, after) && |after| <= 4)
    modifies cache
    ensures r == (if page in before then Some(page) else None)
    ensures Shows(cache, if page in before then after else before, hits, faults)
  {
    hide Recent, Drop;
    Accessed(cache.history, page);
    r := cache.Get(page);
  }

  /** What the program checks itself on: six references, three reads of pages that are there, and one of a
      page that is not. */
  method RunChecks() returns (found: seq<Option<nat>>, hits: nat, faults: nat, five: bool, six: bool)
    ensures found == [Some(5), Some(4), Some(1), None] && hits == 2 && faults == 4 && five && !six
  {
    hide Moves, Shows, Recent, Drop, Cut;
    var cache := new Cache<nat>(4);
    StartShown(cache);
    NewPagesMove();
    PageMoves5211();
    PageMoves41525();
    PageMoves54125();
    PageMoves54124();
    PageMoves45121();
    ReferTo(cache, 1, [], [1], 0, 0);
    ReferTo(cache, 2, [1], [2, 1], 0, 1);
    ReferTo(cache, 5, [2, 1], [5, 2, 1], 0, 2);
    ReferTo(cache, 1, [5, 2, 1], [1, 5, 2], 0, 3);
    ReferTo(cache, 4, [1, 5, 2], [4, 1, 5, 2], 1, 3);
    ReferTo(cache, 5, [4, 1, 5, 2], [5, 4, 1, 2], 1, 4);
    var first := GetFrom(cache, 5, [5, 4, 1, 2], [5, 4, 1, 2], 2, 4);
    var second := GetFrom(cache, 4, [5, 4, 1, 2], [4, 5, 1, 2], 2, 4);
    var third := GetFrom(cache, 1, [4, 5, 1, 2], [1, 4, 5, 2], 2, 4);
    var fourth := GetFrom(cache, 123, [1, 4, 5, 2], [], 2, 4);
    found := [first, second, third, fourth];
    OrderShown(cache, [1, 4, 5, 2]);
    hits, faults := cache.hits, cache.pageFaults;
    five := cache.Exists(5);
    six := cache.Exists(6);
  }

  lemma StartShown(cache: Cache<nat>)
    requires cache.Valid() && cache.history == [] && cache.cacheSize == 4 && cache.hits == 0 && cache.pageFaults == 0
    ensures Shows(cache, [], 0, 0)
  {
  }

  lemma OrderShown(cache: Cache<nat>, order: seq<nat>)
    requires Shows(cache, order, 2, 4)
    ensures cache.Valid() && Cut(Recent(cache.history), cache.cacheSize) == order && cache.hits == 2 && cache.pageFaults == 4
  {
  }

  /** With the same accesses a smaller cache holds a prefix of a larger one, and has at least its faults. */
  lemma SmallerIsPrefix<T>(small: Cache<T>, large: Cache<T>)
    requires small.Valid() && large.Valid() && small.history == large.history && small.cacheSize <= large.cacheSize
    ensures Pages(small.cache) <= Pages(large.cache)
    ensures small.refersOnly && large.refersOnly ==> large.pageFaults <= small.pageFaults && small.hits <= large.hits
  {
    CutPrefix(Recent(small.history), small.cacheSize, large.cacheSize);
    FaultsFall(small.history, small.cacheSize, large.cacheSize);
  }

  lemma Accessed<T>(history: seq<T>, page: T)
    ensures Recent(history + [page]) == [page] + Drop(Recent(history), page)
  {
    assert (history + [page])[..|history|] == history;
  }

  /** Moving a node to the front keeps the index. */
  lemma SpliceIndexed<T>(cache: seq<Node<T>>, pageMap: map<T, nat>, nextId: nat, page: T)
    requires Indexed(cache, pageMap, nextId) && page in pageMap
    ensures Indexed([Node(pageMap[page], page)] + Erase(cache, pageMap[page]), pageMap, nextId)
    ensures Pages([Node(pageMap[page], page)] + Erase(cache, pageMap[page])) == [page] + Drop(Pages(cache), page)
  {
    hide Erase, Drop, Indexed;
    var id := pageMap[page];
    EraseIndexed(cache, pageMap, nextId, page);
    IdBelow(cache, pageMap, nextId, page);
    PushIndexed(Erase(cache, id), pageMap - {page}, nextId, id, page, nextId);
    assert (pageMap - {page})[page := id] == pageMap;
  }

  lemma IdBelow<T>(cache: seq<Node<T>>, pageMap: map<T, nat>, nextId: nat, page: T)
    requires Indexed(cache, pageMap, nextId) && page in pageMap
    ensures pageMap[page] < nextId
  {
    var i := FindNode(cache, pageMap, nextId, page);
  }

  lemma IdsBelow<T>(cache: seq<Node<T>>, pageMap: map<T, nat>, nextId: nat)
    requires Indexed(cache, pageMap, nextId)
    ensures forall i :: 0 <= i < |cache| ==> cache[i].id != nextId
  {
  }
}
