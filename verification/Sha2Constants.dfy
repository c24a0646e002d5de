/** The constants and starting states of SHA-2 are digits of roots of the first primes, as sections 4.2.2, 4.2.3
    and 5.3 of FIPS 180-4 say. */
module Sha2Constants {
  import opened Roots
  import Sha256
  import Sha512

  /** Constant number `i` is the first 64 binary digits after the point of the cube root of prime number `i`. */
  ghost predicate IsCubeRoot(i: nat)
    requires i < 80
  {
    CubeRootDigits(Sha512.Constants[i], NthPrime(i)) && NthPrime(i) < 529
  }

  /** So are the square roots of the primes from number `first`. */
  ghost predicate IsSquareRoot(state: seq<bv64>, first: nat, i: nat)
    requires i < |state|
  {
    SquareRootDigits(state[i], NthPrime(first + i)) && NthPrime(first + i) < 529
  }

  lemma Cubes0()
    ensures forall i: nat :: 0 <= i < 4 ==> IsCubeRoot(i)
  {
    Primes0();
    hide NthPrime;
    assert CubeRootAt(Sha512.Constants[0], 2, 1);
    assert CubeRootAt(Sha512.Constants[1], 3, 1);
    assert CubeRootAt(Sha512.Constants[2], 5, 1);
    assert CubeRootAt(Sha512.Constants[3], 7, 1);
  }

  lemma Cubes4()
    ensures forall i: nat :: 4 <= i < 8 ==> IsCubeRoot(i)
  {
    Primes0();
    hide NthPrime;
    assert CubeRootAt(Sha512.Constants[4], 11, 2);
    assert CubeRootAt(Sha512.Constants[5], 13, 2);
    assert CubeRootAt(Sha512.Constants[6], 17, 2);
    assert CubeRootAt(Sha512.Constants[7], 19, 2);
  }

  lemma Cubes8()
    ensures forall i: nat :: 8 <= i < 12 ==> IsCubeRoot(i)
  {
    Primes8();
    hide NthPrime;
    assert CubeRootAt(Sha512.Constants[8], 23, 2);
    assert CubeRootAt(Sha512.Constants[9], 29, 3);
    assert CubeRootAt(Sha512.Constants[10], 31, 3);
    assert CubeRootAt(Sha512.Constants[11], 37, 3);
  }

  lemma Cubes12()
    ensures forall i: nat :: 12 <= i < 16 ==> IsCubeRoot(i)
  {
    Primes8();
    hide NthPrime;
    assert CubeRootAt(Sha512.Constants[12], 41, 3);
    assert CubeRootAt(Sha512.Constants[13], 43, 3);
    assert CubeRootAt(Sha512.Constants[14], 47, 3);
    assert CubeRootAt(Sha512.Constants[15], 53, 3);
  }

  lemma Cubes16()
    ensures forall i: nat :: 16 <= i < 20 ==> IsCubeRoot(i)
  {
    Primes16();
    hide NthPrime;
    assert CubeRootAt(Sha512.Constants[16], 59, 3);
    assert CubeRootAt(Sha512.Constants[17], 61, 3);
    assert CubeRootAt(Sha512.Constants[18], 67, 4);
    assert CubeRootAt(Sha512.Constants[19], 71, 4);
  }

  lemma Cubes20()
    ensures forall i: nat :: 20 <= i < 24 ==> IsCubeRoot(i)
  {
    Primes16();
    hide NthPrime;
    assert CubeRootAt(Sha512.Constants[20], 73, 4);
    assert CubeRootAt(Sha512.Constants[21], 79, 4);
    assert CubeRootAt(Sha512.Constants[22], 83, 4);
    assert CubeRootAt(Sha512.Constants[23], 89, 4);
  }

  lemma Cubes24()
    ensures forall i: nat :: 24 <= i < 28 ==> IsCubeRoot(i)
  {
    Primes24();
    hide NthPrime;
    assert CubeRootAt(Sha512.Constants[24], 97, 4);
    assert CubeRootAt(Sha512.Constants[25], 101, 4);
    assert CubeRootAt(Sha512.Constants[26], 103, 4);
    assert CubeRootAt(Sha512.Constants[27], 107, 4);
  }

  lemma Cubes28()
    ensures forall i: nat :: 28 <= i < 32 ==> IsCubeRoot(i)
  {
    Primes24();
    hide NthPrime;
    assert CubeRootAt(Sha512.Constants[28], 109, 4);
    assert CubeRootAt(Sha512.Constants[29], 113, 4);
    assert CubeRootAt(Sha512.Constants[30], 127, 5);
    assert CubeRootAt(Sha512.Constants[31], 131, 5);
  }

  lemma Cubes32()
    ensures forall i: nat :: 32 <= i < 36 ==> IsCubeRoot(i)
  {
    Primes32();
    hide NthPrime;
    assert CubeRootAt(Sha512.Constants[32], 137, 5);
    assert CubeRootAt(Sha512.Constants[33], 139, 5);
    assert CubeRootAt(Sha512.Constants[34], 149, 5);
    assert CubeRootAt(Sha512.Constants[35], 151, 5);
  }

  lemma Cubes36()
    ensures forall i: nat :: 36 <= i < 40 ==> IsCubeRoot(i)
  {
    Primes32();
    hide NthPrime;
    assert CubeRootAt(Sha512.Constants[36], 157, 5);
    assert CubeRootAt(Sha512.Constants[37], 163, 5);
    assert CubeRootAt(Sha512.Constants[38], 167, 5);
    assert CubeRootAt(Sha512.Constants[39], 173, 5);
  }

  lemma Cubes40()
    ensures forall i: nat :: 40 <= i < 44 ==> IsCubeRoot(i)
  {
    Primes40();
    hide NthPrime;
    assert CubeRootAt(Sha512.Constants[40], 179, 5);
    assert CubeRootAt(Sha512.Constants[41], 181, 5);
    assert CubeRootAt(Sha512.Constants[42], 191, 5);
    assert CubeRootAt(Sha512.Constants[43], 193, 5);
  }

  lemma Cubes44()
    ensures forall i: nat :: 44 <= i < 48 ==> IsCubeRoot(i)
  {
    Primes40();
    hide NthPrime;
    assert CubeRootAt(Sha512.Constants[44], 197, 5);
    assert CubeRootAt(Sha512.Constants[45], 199, 5);
    assert CubeRootAt(Sha512.Constants[46], 211, 5);
    assert CubeRootAt(Sha512.Constants[47], 223, 6);
  }

  lemma Cubes48()
    ensures forall i: nat :: 48 <= i < 52 ==> IsCubeRoot(i)
  {
    Primes48();
    hide NthPrime;
    assert CubeRootAt(Sha512.Constants[48], 227, 6);
    assert CubeRootAt(Sha512.Constants[49], 229, 6);
    assert CubeRootAt(Sha512.Constants[50], 233, 6);
    assert CubeRootAt(Sha512.Constants[51], 239, 6);
  }

  lemma Cubes52()
    ensures forall i: nat :: 52 <= i < 56 ==> IsCubeRoot(i)
  {
    Primes48();
    hide NthPrime;
    assert CubeRootAt(Sha512.Constants[52], 241, 6);
    assert CubeRootAt(Sha512.Constants[53], 251, 6);
    assert CubeRootAt(Sha512.Constants[54], 257, 6);
    assert CubeRootAt(Sha512.Constants[55], 263, 6);
  }

  lemma Cubes56()
    ensures forall i: nat :: 56 <= i < 60 ==> IsCubeRoot(i)
  {
    Primes56();
    hide NthPrime;
    assert CubeRootAt(Sha512.Constants[56], 269, 6);
    assert CubeRootAt(Sha512.Constants[57], 271, 6);
    assert CubeRootAt(Sha512.Constants[58], 277, 6);
    assert CubeRootAt(Sha512.Constants[59], 281, 6);
  }

  lemma Cubes60()
    ensures forall i: nat :: 60 <= i < 64 ==> IsCubeRoot(i)
  {
    Primes56();
    hide NthPrime;
    assert CubeRootAt(Sha512.Constants[60], 283, 6);
    assert CubeRootAt(Sha512.Constants[61], 293, 6);
    assert CubeRootAt(Sha512.Constants[62], 307, 6);
    assert CubeRootAt(Sha512.Constants[63], 311, 6);
  }

  lemma Cubes64()
    ensures forall i: nat :: 64 <= i < 68 ==> IsCubeRoot(i)
  {
    Primes64();
    hide NthPrime;
    assert CubeRootAt(Sha512.Constants[64], 313, 6);
    assert CubeRootAt(Sha512.Constants[65], 317, 6);
    assert CubeRootAt(Sha512.Constants[66], 331, 6);
    assert CubeRootAt(Sha512.Constants[67], 337, 6);
  }

  lemma Cubes68()
    ensures forall i: nat :: 68 <= i < 72 ==> IsCubeRoot(i)
  {
    Primes64();
    hide NthPrime;
    assert CubeRootAt(Sha512.Constants[68], 347, 7);
    assert CubeRootAt(Sha512.Constants[69], 349, 7);
    assert CubeRootAt(Sha512.Constants[70], 353, 7);
    assert CubeRootAt(Sha512.Constants[71], 359, 7);
  }

  lemma Cubes72()
    ensures forall i: nat :: 72 <= i < 76 ==> IsCubeRoot(i)
  {
    Primes72();
    hide NthPrime;
    assert CubeRootAt(Sha512.Constants[72], 367, 7);
    assert CubeRootAt(Sha512.Constants[73], 373, 7);
    assert CubeRootAt(Sha512.Constants[74], 379, 7);
    assert CubeRootAt(Sha512.Constants[75], 383, 7);
  }

  lemma Cubes76()
    ensures forall i: nat :: 76 <= i < 80 ==> IsCubeRoot(i)
  {
    Primes72();
    hide NthPrime;
    assert CubeRootAt(Sha512.Constants[76], 389, 7);
    assert CubeRootAt(Sha512.Constants[77], 397, 7);
    assert CubeRootAt(Sha512.Constants[78], 401, 7);
    assert CubeRootAt(Sha512.Constants[79], 409, 7);
  }

  /** The 80 constants: the first 64 binary digits after the point of the cube roots of the first 80 primes. */
  lemma ConstantsAreRoots(i: nat)
    requires i < 80
    ensures IsCubeRoot(i)
  {
    hide IsCubeRoot;
    Cubes0();
    Cubes4();
    Cubes8();
    Cubes12();
    Cubes16();
    Cubes20();
    Cubes24();
    Cubes28();
    Cubes32();
    Cubes36();
    Cubes40();
    Cubes44();
    Cubes48();
    Cubes52();
    Cubes56();
    Cubes60();
    Cubes64();
    Cubes68();
    Cubes72();
    Cubes76();
  }

  /** The starting state of SHA-512. */
  lemma SquaresSha512(i: nat)
    requires i < 8
    ensures IsSquareRoot(Sha512.InitialSha512, 0, i)
  {
    Primes0();
    hide NthPrime;
    assert SquareRootAt(Sha512.InitialSha512[0], 2, 1);
    assert SquareRootAt(Sha512.InitialSha512[1], 3, 1);
    assert SquareRootAt(Sha512.InitialSha512[2], 5, 2);
    assert SquareRootAt(Sha512.InitialSha512[3], 7, 2);
    assert SquareRootAt(Sha512.InitialSha512[4], 11, 3);
    assert SquareRootAt(Sha512.InitialSha512[5], 13, 3);
    assert SquareRootAt(Sha512.InitialSha512[6], 17, 4);
    assert SquareRootAt(Sha512.InitialSha512[7], 19, 4);
  }

  /** The starting state of SHA-384. */
  lemma SquaresSha384(i: nat)
    requires i < 8
    ensures IsSquareRoot(Sha512.InitialSha384, 8, i)
  {
    Primes8();
    hide NthPrime;
    assert SquareRootAt(Sha512.InitialSha384[0], 23, 4);
    assert SquareRootAt(Sha512.InitialSha384[1], 29, 5);
    assert SquareRootAt(Sha512.InitialSha384[2], 31, 5);
    assert SquareRootAt(Sha512.InitialSha384[3], 37, 6);
    assert SquareRootAt(Sha512.InitialSha384[4], 41, 6);
    assert SquareRootAt(Sha512.InitialSha384[5], 43, 6);
    assert SquareRootAt(Sha512.InitialSha384[6], 47, 6);
    assert SquareRootAt(Sha512.InitialSha384[7], 53, 7);
  }

  predicate UpperHalf(a: bv32, w: bv64) {
    a as bv64 == w >> 32
  }

  predicate LowerHalf(a: bv32, w: bv64) {
    a as bv64 == w & 0xFFFF_FFFF
  }

  predicate Shortened(i: nat)
    requires i < 64
  {
    UpperHalf(Sha256.Constants[i], Sha512.Constants[i])
  }

  lemma Shortened0()
    ensures forall i: nat :: 0 <= i < 4 ==> Shortened(i)
  {
    assert Shortened(0) && Shortened(1) && Shortened(2) && Shortened(3);
    hide Shortened;
  }

  lemma Shortened4()
    ensures forall i: nat :: 4 <= i < 8 ==> Shortened(i)
  {
    assert Shortened(4) && Shortened(5) && Shortened(6) && Shortened(7);
    hide Shortened;
  }

  lemma Shortened8()
    ensures forall i: nat :: 8 <= i < 12 ==> Shortened(i)
  {
    assert Shortened(8) && Shortened(9) && Shortened(10) && Shortened(11);
    hide Shortened;
  }

  lemma Shortened12()
    ensures forall i: nat :: 12 <= i < 16 ==> Shortened(i)
  {
    assert Shortened(12) && Shortened(13) && Shortened(14) && Shortened(15);
    hide Shortened;
  }

  lemma Shortened16()
    ensures forall i: nat :: 16 <= i < 20 ==> Shortened(i)
  {
    assert Shortened(16) && Shortened(17) && Shortened(18) && Shortened(19);
    hide Shortened;
  }

  lemma Shortened20()
    ensures forall i: nat :: 20 <= i < 24 ==> Shortened(i)
  {
    assert Shortened(20) && Shortened(21) && Shortened(22) && Shortened(23);
    hide Shortened;
  }

  lemma Shortened24()
    ensures forall i: nat :: 24 <= i < 28 ==> Shortened(i)
  {
    assert Shortened(24) && Shortened(25) && Shortened(26) && Shortened(27);
    hide Shortened;
  }

  lemma Shortened28()
    ensures forall i: nat :: 28 <= i < 32 ==> Shortened(i)
  {
    assert Shortened(28) && Shortened(29) && Shortened(30) && Shortened(31);
    hide Shortened;
  }

  lemma Shortened32()
    ensures forall i: nat :: 32 <= i < 36 ==> Shortened(i)
  {
    assert Shortened(32) && Shortened(33) && Shortened(34) && Shortened(35);
    hide Shortened;
  }

  lemma Shortened36()
    ensures forall i: nat :: 36 <= i < 40 ==> Shortened(i)
  {
    assert Shortened(36) && Shortened(37) && Shortened(38) && Shortened(39);
    hide Shortened;
  }

  lemma Shortened40()
    ensures forall i: nat :: 40 <= i < 44 ==> Shortened(i)
  {
    assert Shortened(40) && Shortened(41) && Shortened(42) && Shortened(43);
    hide Shortened;
  }

  lemma Shortened44()
    ensures forall i: nat :: 44 <= i < 48 ==> Shortened(i)
  {
    assert Shortened(44) && Shortened(45) && Shortened(46) && Shortened(47);
    hide Shortened;
  }

  lemma Shortened48()
    ensures forall i: nat :: 48 <= i < 52 ==> Shortened(i)
  {
    assert Shortened(48) && Shortened(49) && Shortened(50) && Shortened(51);
    hide Shortened;
  }

  lemma Shortened52()
    ensures forall i: nat :: 52 <= i < 56 ==> Shortened(i)
  {
    assert Shortened(52) && Shortened(53) && Shortened(54) && Shortened(55);
    hide Shortened;
  }

  lemma Shortened56()
    ensures forall i: nat :: 56 <= i < 60 ==> Shortened(i)
  {
    assert Shortened(56) && Shortened(57) && Shortened(58) && Shortened(59);
    hide Shortened;
  }

  lemma Shortened60()
    ensures forall i: nat :: 60 <= i < 64 ==> Shortened(i)
  {
    assert Shortened(60) && Shortened(61) && Shortened(62) && Shortened(63);
    hide Shortened;
  }

  /** SHA-256 takes the first 32 of those digits. */
  lemma ShorterConstants(i: nat)
    requires i < 64
    ensures Shortened(i)
  {
    hide Shortened;
    Shortened0();
    Shortened4();
    Shortened8();
    Shortened12();
    Shortened16();
    Shortened20();
    Shortened24();
    Shortened28();
    Shortened32();
    Shortened36();
    Shortened40();
    Shortened44();
    Shortened48();
    Shortened52();
    Shortened56();
    Shortened60();
  }

  predicate Halved(i: nat)
    requires i < 8
  {
    UpperHalf(Sha256.InitialSha256[i], Sha512.InitialSha512[i]) && LowerHalf(Sha256.InitialSha224[i], Sha512.InitialSha384[i])
  }

  lemma AllHalved()
    ensures Halved(0) && Halved(1) && Halved(2) && Halved(3) && Halved(4) && Halved(5) && Halved(6) && Halved(7)
  {
  }

  /** SHA-256 starts from the upper halves of what SHA-512 starts from, SHA-224 from the lower halves for SHA-384. */
  lemma ShorterStates(i: nat)
    requires i < 8
    ensures Halved(i)
  {
    hide Halved;
    AllHalved();
  }
}
