/** Small notions that several models share. */
module Common {

  datatype Option<+T> = None | Some(value: T)

  /** No element occurs twice. */
  ghost predicate Distinct<T>(s: seq<T>) {
    forall i, j :: 0 <= i < j < |s| ==> s[i] != s[j]
  }

  predicate PowerOfTwo(n: nat) {
    n == 1 || (n > 0 && n % 2 == 0 && PowerOfTwo(n / 2))
  }

  // ---------------------------------------------------------------- remainders

  lemma AddMultiple(a: int, b: int, m: int)
    requires m > 0 && b % m == 0
    ensures (a + b) % m == a % m
  {
    var k := b / m;
    assert b == m * k;
    MultiplesVanish(a, k, m);
  }

  lemma MultiplesVanish(a: int, k: int, m: int)
    requires m > 0
    ensures (a + m * k) % m == a % m
    decreases if k < 0 then -k else k
  {
    if k > 0 {
      MultiplesVanish(a, k - 1, m);
      assert a + m * k == (a + m * (k - 1)) + m;
      OneMultiple(a + m * (k - 1), m);
    } else if k < 0 {
      MultiplesVanish(a, k + 1, m);
      assert a + m * (k + 1) == (a + m * k) + m;
      OneMultiple(a + m * k, m);
    }
  }

  lemma OneMultiple(a: int, m: int)
    requires m > 0
    ensures (a + m) % m == a % m
  {
    var q, r := a / m, a % m;
    assert a + m == m * (q + 1) + r;
    SameRemainder(a + m, m, q + 1, r);
  }

  lemma SameRemainder(x: int, m: int, q: int, r: int)
    requires m > 0 && x == m * q + r && 0 <= r < m
    ensures x % m == r
  {
    var q', r' := x / m, x % m;
    assert x == m * q' + r';
    assert m * q' - m * q == m * (q' - q) == -(m * (q - q'));
    if q' > q { AtLeastOnce(m, q' - q); }
    if q' < q { AtLeastOnce(m, q - q'); }
  }

  lemma AtLeastOnce(m: int, k: int)
    requires m > 0 && k >= 1
    ensures m * k >= m
  {
    if k > 1 {
      AtLeastOnce(m, k - 1);
      assert m * k == m * (k - 1) + m;
    }
  }
}
