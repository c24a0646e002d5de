/** Where the constants of SHA-2 come from: the binary digits after the point of roots of the first primes. */
module Roots {
  import opened Common

  ghost predicate Prime(n: nat) {
    n >= 2 && forall d :: 2 <= d < n ==> n % d != 0
  }

  /** No smaller prime up to 19 divides `n`. */
  predicate Trial(n: nat) {
    && n >= 2 && (n == 2 || n % 2 != 0) && (n == 3 || n % 3 != 0) && (n == 5 || n % 5 != 0) && (n == 7 || n % 7 != 0)
    && (n == 11 || n % 11 != 0) && (n == 13 || n % 13 != 0) && (n == 17 || n % 17 != 0) && (n == 19 || n % 19 != 0)
  }

  /** The next number from the odd number `n` on, in steps of two, that no small prime divides. */
  function Next(n: nat): (r: nat)
    decreases 529 - n
  {
    if n >= 529 || Trial(n) then n else Next(n + 2)
  }

  /** The primes in order, from number 0; `FirstPrimesInOrder` says how far. */
  function NthPrime(i: nat): (p: nat) {
    if i == 0 then 2 else if i == 1 then 3 else Next(NthPrime(i - 1) + 2)
  }

  lemma {:induction false} NextMeans(n: nat, m: nat)
    requires n % 2 == 1 && n > 2
    ensures Next(n) >= n && Next(n) % 2 == 1 && (Next(n) < 529 ==> Trial(Next(n)))
    ensures n <= m < Next(n) ==> !Trial(m)
    decreases 529 - n
  {
    hide Trial;
    if n < 529 && !Trial(n) {
      NextMeans(n + 2, m);
      EvenFails(n + 1);
    }
  }

  lemma EvenFails(m: nat)
    requires m % 2 == 0 && m > 2
    ensures !Trial(m)
  {
  }

  lemma DividesThrough(n: nat, m: nat, q: nat)
    requires m > 0 && q > 0 && n % m == 0 && m % q == 0
    ensures n % q == 0
  {
    assert n == m * (n / m) && m == q * (m / q);
    assert n == q * ((m / q) * (n / m));
    MultiplesVanish(0, (m / q) * (n / m), q);
  }

  /** Of two factors of a number below 23 * 23 one is below 23. */
  lemma SmallFactor(n: nat, d: nat)
    requires n < 529 && 2 <= d < n && n % d == 0
    ensures exists m :: 2 <= m < 23 && m < n && n % m == 0
  {
    var e := n / d;
    assert n == d * e;
    if d >= 23 {
      if e >= 23 { AtLeast(d, e); }
      MultiplesVanish(0, d, e);
      assert n % e == 0;
    }
  }

  lemma AtLeast(d: nat, e: nat)
    requires d >= 23 && e >= 23
    ensures d * e >= 529
  {
  }

  lemma FactorFound(n: nat, m: nat)
    requires 2 <= m < 23 && m < n && n % m == 0
    ensures !Trial(n)
  {
    SmallPrimeFactor(m);
    var q :| q in [2, 3, 5, 7, 11, 13, 17, 19] && q <= m && m % q == 0;
    DividesThrough(n, m, q);
  }

  lemma SmallPrimeFactor(m: nat)
    requires 2 <= m < 23
    ensures exists q :: q in [2, 3, 5, 7, 11, 13, 17, 19] && q <= m && m % q == 0
  {
    var q := if m % 2 == 0 then 2 else if m % 3 == 0 then 3 else if m % 5 == 0 then 5 else if m % 7 == 0 then 7 else m;
    assert q in [2, 3, 5, 7, 11, 13, 17, 19];
  }

  lemma TrialDecides(n: nat)
    requires n < 529
    ensures Prime(n) <==> Trial(n)
  {
    if Trial(n) && !Prime(n) {
      var d :| 2 <= d < n && n % d == 0;
      SmallFactor(n, d);
      var m :| 2 <= m < 23 && m < n && n % m == 0;
      FactorFound(n, m);
    }
  }

  lemma {:induction false} NthPrimeOdd(i: nat)
    requires i >= 1
    ensures NthPrime(i) % 2 == 1 && NthPrime(i) > 2
  {
    if i > 1 {
      NthPrimeOdd(i - 1);
      NextMeans(NthPrime(i - 1) + 2, 0);
    }
  }

  /** The numbers are those of the first primes, without a gap. */
  lemma FirstPrimesInOrder(i: nat, n: nat)
    requires NthPrime(i) < 529
    ensures Prime(NthPrime(i))
    ensures (if i == 0 then 0 else NthPrime(i - 1)) < n < NthPrime(i) ==> !Prime(n)
  {
    hide Trial, Prime, Next;
    SmallTrial();
    TrialDecides(NthPrime(i));
    if n < NthPrime(i) { TrialDecides(n); }
    if i >= 2 { LaterPrime(i, n); }
  }

  lemma LaterPrime(i: nat, n: nat)
    requires i >= 2 && NthPrime(i) < 529
    ensures Trial(NthPrime(i)) && (NthPrime(i - 1) < n < NthPrime(i) ==> !Trial(n))
  {
    hide Trial, Next;
    var q := NthPrime(i - 1);
    NthPrimeOdd(i - 1);
    assert NthPrime(i) == Next(q + 2);
    hide NthPrime;
    NextMeans(q + 2, n);
    EvenFails(q + 1);
  }

  lemma SmallTrial()
    ensures !Trial(1) && Trial(2) && Trial(3)
  {
  }

  // ---------------------------------------------------------------- the first eighty

  lemma PrimeStep(i: nat, p: nat, q: nat)
    requires i >= 1 && NthPrime(i) == p && Next(p + 2) == q
    ensures NthPrime(i + 1) == q
  {
  }

  lemma Primes0()
    ensures NthPrime(0) == 2 && NthPrime(1) == 3 && NthPrime(2) == 5 && NthPrime(3) == 7 && NthPrime(4) == 11 && NthPrime(5) == 13 && NthPrime(6) == 17 && NthPrime(7) == 19
  {
    assert NthPrime(1) == 3;
    hide NthPrime;
    assert Next(5) == 5;
    assert Next(7) == 7;
    assert Next(9) == 11;
    assert Next(13) == 13;
    assert Next(15) == 17;
    assert Next(19) == 19;
    PrimeStep(1, 3, 5);
    PrimeStep(2, 5, 7);
    PrimeStep(3, 7, 11);
    PrimeStep(4, 11, 13);
    PrimeStep(5, 13, 17);
    PrimeStep(6, 17, 19);
  }

  lemma Primes8()
    ensures NthPrime(8) == 23 && NthPrime(9) == 29 && NthPrime(10) == 31 && NthPrime(11) == 37 && NthPrime(12) == 41 && NthPrime(13) == 43 && NthPrime(14) == 47 && NthPrime(15) == 53
  {
    Primes0();
    hide NthPrime;
    assert Next(21) == 23;
    assert Next(25) == 29;
    assert Next(31) == 31;
    assert Next(33) == 37;
    assert Next(39) == 41;
    assert Next(43) == 43;
    assert Next(45) == 47;
    assert Next(49) == 53;
    PrimeStep(7, 19, 23);
    PrimeStep(8, 23, 29);
    PrimeStep(9, 29, 31);
    PrimeStep(10, 31, 37);
    PrimeStep(11, 37, 41);
    PrimeStep(12, 41, 43);
    PrimeStep(13, 43, 47);
    PrimeStep(14, 47, 53);
  }

  lemma Primes16()
    ensures NthPrime(16) == 59 && NthPrime(17) == 61 && NthPrime(18) == 67 && NthPrime(19) == 71 && NthPrime(20) == 73 && NthPrime(21) == 79 && NthPrime(22) == 83 && NthPrime(23) == 89
  {
    Primes8();
    hide NthPrime;
    assert Next(55) == 59;
    assert Next(61) == 61;
    assert Next(63) == 67;
    assert Next(69) == 71;
    assert Next(73) == 73;
    assert Next(75) == 79;
    assert Next(81) == 83;
    assert Next(85) == 89;
    PrimeStep(15, 53, 59);
    PrimeStep(16, 59, 61);
    PrimeStep(17, 61, 67);
    PrimeStep(18, 67, 71);
    PrimeStep(19, 71, 73);
    PrimeStep(20, 73, 79);
    PrimeStep(21, 79, 83);
    PrimeStep(22, 83, 89);
  }

  lemma Primes24()
    ensures NthPrime(24) == 97 && NthPrime(25) == 101 && NthPrime(26) == 103 && NthPrime(27) == 107 && NthPrime(28) == 109 && NthPrime(29) == 113 && NthPrime(30) == 127 && NthPrime(31) == 131
  {
    Primes16();
    hide NthPrime;
    assert Next(91) == 97;
    assert Next(99) == 101;
    assert Next(103) == 103;
    assert Next(105) == 107;
    assert Next(109) == 109;
    assert Next(111) == 113;
    assert Next(121) == 127;
    assert Next(115) == 127;
    assert Next(129) == 131;
    PrimeStep(23, 89, 97);
    PrimeStep(24, 97, 101);
    PrimeStep(25, 101, 103);
    PrimeStep(26, 103, 107);
    PrimeStep(27, 107, 109);
    PrimeStep(28, 109, 113);
    PrimeStep(29, 113, 127);
    PrimeStep(30, 127, 131);
  }

  lemma Primes32()
    ensures NthPrime(32) == 137 && NthPrime(33) == 139 && NthPrime(34) == 149 && NthPrime(35) == 151 && NthPrime(36) == 157 && NthPrime(37) == 163 && NthPrime(38) == 167 && NthPrime(39) == 173
  {
    Primes24();
    hide NthPrime;
    assert Next(133) == 137;
    assert Next(139) == 139;
    assert Next(141) == 149;
    assert Next(151) == 151;
    assert Next(153) == 157;
    assert Next(159) == 163;
    assert Next(165) == 167;
    assert Next(169) == 173;
    PrimeStep(31, 131, 137);
    PrimeStep(32, 137, 139);
    PrimeStep(33, 139, 149);
    PrimeStep(34, 149, 151);
    PrimeStep(35, 151, 157);
    PrimeStep(36, 157, 163);
    PrimeStep(37, 163, 167);
    PrimeStep(38, 167, 173);
  }

  lemma Primes40()
    ensures NthPrime(40) == 179 && NthPrime(41) == 181 && NthPrime(42) == 191 && NthPrime(43) == 193 && NthPrime(44) == 197 && NthPrime(45) == 199 && NthPrime(46) == 211 && NthPrime(47) == 223
  {
    Primes32();
    hide NthPrime;
    assert Next(175) == 179;
    assert Next(181) == 181;
    assert Next(183) == 191;
    assert Next(193) == 193;
    assert Next(195) == 197;
    assert Next(199) == 199;
    assert Next(205) == 211;
    assert Next(201) == 211;
    assert Next(217) == 223;
    assert Next(213) == 223;
    PrimeStep(39, 173, 179);
    PrimeStep(40, 179, 181);
    PrimeStep(41, 181, 191);
    PrimeStep(42, 191, 193);
    PrimeStep(43, 193, 197);
    PrimeStep(44, 197, 199);
    PrimeStep(45, 199, 211);
    PrimeStep(46, 211, 223);
  }

  lemma Primes48()
    ensures NthPrime(48) == 227 && NthPrime(49) == 229 && NthPrime(50) == 233 && NthPrime(51) == 239 && NthPrime(52) == 241 && NthPrime(53) == 251 && NthPrime(54) == 257 && NthPrime(55) == 263
  {
    Primes40();
    hide NthPrime;
    assert Next(225) == 227;
    assert Next(229) == 229;
    assert Next(231) == 233;
    assert Next(235) == 239;
    assert Next(241) == 241;
    assert Next(243) == 251;
    assert Next(253) == 257;
    assert Next(259) == 263;
    PrimeStep(47, 223, 227);
    PrimeStep(48, 227, 229);
    PrimeStep(49, 229, 233);
    PrimeStep(50, 233, 239);
    PrimeStep(51, 239, 241);
    PrimeStep(52, 241, 251);
    PrimeStep(53, 251, 257);
    PrimeStep(54, 257, 263);
  }

  lemma Primes56()
    ensures NthPrime(56) == 269 && NthPrime(57) == 271 && NthPrime(58) == 277 && NthPrime(59) == 281 && NthPrime(60) == 283 && NthPrime(61) == 293 && NthPrime(62) == 307 && NthPrime(63) == 311
  {
    Primes48();
    hide NthPrime;
    assert Next(265) == 269;
    assert Next(271) == 271;
    assert Next(273) == 277;
    assert Next(279) == 281;
    assert Next(283) == 283;
    assert Next(285) == 293;
    assert Next(301) == 307;
    assert Next(295) == 307;
    assert Next(309) == 311;
    PrimeStep(55, 263, 269);
    PrimeStep(56, 269, 271);
    PrimeStep(57, 271, 277);
    PrimeStep(58, 277, 281);
    PrimeStep(59, 281, 283);
    PrimeStep(60, 283, 293);
    PrimeStep(61, 293, 307);
    PrimeStep(62, 307, 311);
  }

  lemma Primes64()
    ensures NthPrime(64) == 313 && NthPrime(65) == 317 && NthPrime(66) == 331 && NthPrime(67) == 337 && NthPrime(68) == 347 && NthPrime(69) == 349 && NthPrime(70) == 353 && NthPrime(71) == 359
  {
    Primes56();
    hide NthPrime;
    assert Next(313) == 313;
    assert Next(315) == 317;
    assert Next(325) == 331;
    assert Next(319) == 331;
    assert Next(333) == 337;
    assert Next(339) == 347;
    assert Next(349) == 349;
    assert Next(351) == 353;
    assert Next(355) == 359;
    PrimeStep(63, 311, 313);
    PrimeStep(64, 313, 317);
    PrimeStep(65, 317, 331);
    PrimeStep(66, 331, 337);
    PrimeStep(67, 337, 347);
    PrimeStep(68, 347, 349);
    PrimeStep(69, 349, 353);
    PrimeStep(70, 353, 359);
  }

  lemma Primes72()
    ensures NthPrime(72) == 367 && NthPrime(73) == 373 && NthPrime(74) == 379 && NthPrime(75) == 383 && NthPrime(76) == 389 && NthPrime(77) == 397 && NthPrime(78) == 401 && NthPrime(79) == 409
  {
    Primes64();
    hide NthPrime;
    assert Next(361) == 367;
    assert Next(369) == 373;
    assert Next(375) == 379;
    assert Next(381) == 383;
    assert Next(385) == 389;
    assert Next(391) == 397;
    assert Next(399) == 401;
    assert Next(403) == 409;
    PrimeStep(71, 359, 367);
    PrimeStep(72, 367, 373);
    PrimeStep(73, 373, 379);
    PrimeStep(74, 379, 383);
    PrimeStep(75, 383, 389);
    PrimeStep(76, 389, 397);
    PrimeStep(77, 397, 401);
    PrimeStep(78, 401, 409);
  }

  // ---------------------------------------------------------------- digits of roots

  const Unit: int := 0x1_0000_0000_0000_0000

  function Square(n: int): int {
    n * n
  }

  function Cube(n: int): int {
    n * n * n
  }

  /** The root lies between `whole` + `k` / 2^64 and the next such fraction. */
  ghost predicate SquareRootAt(k: bv64, p: int, whole: nat) {
    var n := whole * Unit + k as int;
    Square(n) <= p * Square(Unit) < Square(n + 1)
  }

  ghost predicate CubeRootAt(k: bv64, p: int, whole: nat) {
    var n := whole * Unit + k as int;
    Cube(n) <= p * Cube(Unit) < Cube(n + 1)
  }

  /** `k` is the first 64 binary digits after the point of the square root of `p`. */
  ghost predicate SquareRootDigits(k: bv64, p: int) {
    exists whole :: SquareRootAt(k, p, whole)
  }

  /** `k` is the first 64 binary digits after the point of the cube root of `p`. */
  ghost predicate CubeRootDigits(k: bv64, p: int) {
    exists whole :: CubeRootAt(k, p, whole)
  }
}
