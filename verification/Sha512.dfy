/** The SHA-512 compression: the 80-word schedule and the 16-word ring compute the same state. */
module Sha512 {

  // ---------------------------------------------------------------- section 6.4.2 of FIPS 180-4

  const Constants0: seq<bv64> := [
    0x428a2f98d728ae22, 0x7137449123ef65cd, 0xb5c0fbcfec4d3b2f, 0xe9b5dba58189dbbc,
    0x3956c25bf348b538, 0x59f111f1b605d019, 0x923f82a4af194f9b, 0xab1c5ed5da6d8118
  ]

  const Constants8: seq<bv64> := [
    0xd807aa98a3030242, 0x12835b0145706fbe, 0x243185be4ee4b28c, 0x550c7dc3d5ffb4e2,
    0x72be5d74f27b896f, 0x80deb1fe3b1696b1, 0x9bdc06a725c71235, 0xc19bf174cf692694
  ]

  const Constants16: seq<bv64> := [
    0xe49b69c19ef14ad2, 0xefbe4786384f25e3, 0x0fc19dc68b8cd5b5, 0x240ca1cc77ac9c65,
    0x2de92c6f592b0275, 0x4a7484aa6ea6e483, 0x5cb0a9dcbd41fbd4, 0x76f988da831153b5
  ]

  const Constants24: seq<bv64> := [
    0x983e5152ee66dfab, 0xa831c66d2db43210, 0xb00327c898fb213f, 0xbf597fc7beef0ee4,
    0xc6e00bf33da88fc2, 0xd5a79147930aa725, 0x06ca6351e003826f, 0x142929670a0e6e70
  ]

  const Constants32: seq<bv64> := [
    0x27b70a8546d22ffc, 0x2e1b21385c26c926, 0x4d2c6dfc5ac42aed, 0x53380d139d95b3df,
    0x650a73548baf63de, 0x766a0abb3c77b2a8, 0x81c2c92e47edaee6, 0x92722c851482353b
  ]

  const Constants40: seq<bv64> := [
    0xa2bfe8a14cf10364, 0xa81a664bbc423001, 0xc24b8b70d0f89791, 0xc76c51a30654be30,
    0xd192e819d6ef5218, 0xd69906245565a910, 0xf40e35855771202a, 0x106aa07032bbd1b8
  ]

  const Constants48: seq<bv64> := [
    0x19a4c116b8d2d0c8, 0x1e376c085141ab53, 0x2748774cdf8eeb99, 0x34b0bcb5e19b48a8,
    0x391c0cb3c5c95a63, 0x4ed8aa4ae3418acb, 0x5b9cca4f7763e373, 0x682e6ff3d6b2b8a3
  ]

  const Constants56: seq<bv64> := [
    0x748f82ee5defb2fc, 0x78a5636f43172f60, 0x84c87814a1f0ab72, 0x8cc702081a6439ec,
    0x90befffa23631e28, 0xa4506cebde82bde9, 0xbef9a3f7b2c67915, 0xc67178f2e372532b
  ]

  const Constants64: seq<bv64> := [
    0xca273eceea26619c, 0xd186b8c721c0c207, 0xeada7dd6cde0eb1e, 0xf57d4f7fee6ed178,
    0x06f067aa72176fba, 0x0a637dc5a2c898a6, 0x113f9804bef90dae, 0x1b710b35131c471b
  ]

  const Constants72: seq<bv64> := [
    0x28db77f523047d84, 0x32caab7b40c72493, 0x3c9ebe0a15c9bebc, 0x431d67c49c100d4c,
    0x4cc5d4becb3e42b6, 0x597f299cfc657e2a, 0x5fcb6fab3ad6faec, 0x6c44198c4a475817
  ]

  const Constants: seq<bv64> :=
    Constants0 + Constants8 + Constants16 + Constants24 + Constants32 + Constants40 + Constants48 + Constants56 + Constants64 + Constants72

  const InitialSha512: seq<bv64> :=
    [0x6a09e667f3bcc908, 0xbb67ae8584caa73b, 0x3c6ef372fe94f82b, 0xa54ff53a5f1d36f1,
     0x510e527fade682d1, 0x9b05688c2b3e6c1f, 0x1f83d9abfb41bd6b, 0x5be0cd19137e2179]

  const InitialSha384: seq<bv64> :=
    [0xcbbb9d5dc1059ed8, 0x629a292a367cd507, 0x9159015a3070dd17, 0x152fecd8f70e5939,
     0x67332667ffc00b31, 0x8eb44a8768581511, 0xdb0c2e0d64f98fa7, 0x47b5481dbefa4fa4]

  function BigSigma0(x: bv64): bv64 {
    x.RotateRight(28) ^ x.RotateRight(34) ^ x.RotateRight(39)
  }

  function BigSigma1(x: bv64): bv64 {
    x.RotateRight(14) ^ x.RotateRight(18) ^ x.RotateRight(41)
  }

  function SmallSigma0(x: bv64): bv64 {
    x.RotateRight(1) ^ x.RotateRight(8) ^ (x >> 7)
  }

  function SmallSigma1(x: bv64): bv64 {
    x.RotateRight(19) ^ x.RotateRight(61) ^ (x >> 6)
  }

  function Ch(x: bv64, y: bv64, z: bv64): bv64 {
    (x & y) ^ (!x & z)
  }

  function Maj(x: bv64, y: bv64, z: bv64): bv64 {
    (x & y) ^ (x & z) ^ (y & z)
  }

  /** Word number `i` of a block, most significant byte first. */
  function Word(block: seq<bv8>, i: nat): bv64
    requires 8 * i + 8 <= |block|
  {
    ((block[8 * i] as bv64) << 56) | ((block[8 * i + 1] as bv64) << 48) | ((block[8 * i + 2] as bv64) << 40)
    | ((block[8 * i + 3] as bv64) << 32) | ((block[8 * i + 4] as bv64) << 24) | ((block[8 * i + 5] as bv64) << 16)
    | ((block[8 * i + 6] as bv64) << 8) | (block[8 * i + 7] as bv64)
  }

  /** Where `x` has a bit `Ch` takes that of `y`, elsewhere that of `z`. */
  lemma ChChooses(x: bv64, y: bv64, z: bv64)
    ensures Ch(x, y, z) & x == y & x && Ch(x, y, z) & !x == z & !x
  {
  }

  /** Where `x` has a bit one of the others suffices, elsewhere both are needed. */
  lemma MajAgrees(x: bv64, y: bv64, z: bv64)
    ensures Maj(x, y, z) & x == (y | z) & x && Maj(x, y, z) & !x == (y & z) & !x
  {
  }

  /** The bytes of a word, most significant first. */
  function WordBytes(w: bv64): (b: seq<bv8>) {
    [((w >> 56) & 0xFF) as bv8, ((w >> 48) & 0xFF) as bv8, ((w >> 40) & 0xFF) as bv8, ((w >> 32) & 0xFF) as bv8,
     ((w >> 24) & 0xFF) as bv8, ((w >> 16) & 0xFF) as bv8, ((w >> 8) & 0xFF) as bv8, (w & 0xFF) as bv8]
  }

  /** A word keeps its eight bytes in order. */
  lemma WordKeepsBytes(block: seq<bv8>, i: nat)
    requires 8 * i + 8 <= |block|
    ensures WordBytes(Word(block, i)) == block[8 * i..8 * i + 8]
  {
  }

  /** Addition modulo 2^64. */
  function Sum(x: bv64, y: bv64): bv64 {
    x + y
  }

  /** The sum that gives a word of the schedule. */
  function ScheduleSum(s1: bv64, w7: bv64, s0: bv64, w16: bv64): bv64 {
    s1 + w7 + s0 + w16
  }

  /** The first temporary value of a round. */
  function RoundSum(h: bv64, sigma: bv64, ch: bv64, k: bv64, w: bv64): bv64 {
    h + sigma + ch + k + w
  }

  /** Word `t` of the message schedule. */
  function Schedule(block: seq<bv8>, t: nat): (w: bv64)
    requires |block| == 128
  {
    if t < 16 then Word(block, t)
    else ScheduleSum(SmallSigma1(Schedule(block, t - 2)), Schedule(block, t - 7), SmallSigma0(Schedule(block, t - 15)), Schedule(block, t - 16))
  }

  /** The eight working variables after one round. */
  function Round(v: seq<bv64>, k: bv64, w: bv64): (r: seq<bv64>)
    requires |v| == 8
    ensures |r| == 8
  {
    var t1 := RoundSum(v[7], BigSigma1(v[4]), Ch(v[4], v[5], v[6]), k, w);
    var t2 := Sum(BigSigma0(v[0]), Maj(v[0], v[1], v[2]));
    [Sum(t1, t2), v[0], v[1], v[2], Sum(v[3], t1), v[4], v[5], v[6]]
  }

  function Rounds(state: seq<bv64>, block: seq<bv8>, t: nat): (r: seq<bv64>)
    requires |state| == 8 && |block| == 128 && t <= 80
    ensures |r| == 8
  {
    if t == 0 then state else Round(Rounds(state, block, t - 1), Constants[t - 1], Schedule(block, t - 1))
  }

  function AddStates(a: seq<bv64>, b: seq<bv64>): (r: seq<bv64>)
    requires |a| == 8 && |b| == 8
    ensures |r| == 8
  {
    seq(8, i requires 0 <= i < 8 => Sum(a[i], b[i]))
  }

  /** The state after a block. */
  function Compress(state: seq<bv64>, block: seq<bv8>): (r: seq<bv64>)
    requires |state| == 8 && |block| == 128
    ensures |r| == 8
  {
    AddStates(state, Rounds(state, block, 80))
  }

  // ---------------------------------------------------------------- the order of the additions

  /** The ring adds the other three words to the one it replaces. */
  function RingSum(w16: bv64, s0: bv64, s1: bv64, w7: bv64): bv64 {
    w16 + (s0 + s1 + w7)
  }

  lemma RingOrder(w16: bv64, s0: bv64, s1: bv64, w7: bv64)
    ensures RingSum(w16, s0, s1, w7) == ScheduleSum(s1, w7, s0, w16)
  {
  }

  /** The full schedule adds in another order. */
  function FullSum(w16: bv64, s0: bv64, w7: bv64, s1: bv64): bv64 {
    w16 + s0 + w7 + s1
  }

  lemma FullOrder(w16: bv64, s0: bv64, w7: bv64, s1: bv64)
    ensures FullSum(w16, s0, w7, s1) == ScheduleSum(s1, w7, s0, w16)
  {
  }

  /** The ring's loop adds the word before the other terms of a round. */
  function WordFirstSum(w: bv64, h: bv64, sigma: bv64, ch: bv64, k: bv64): bv64 {
    w + (h + sigma + ch + k)
  }

  lemma RoundOrder(w: bv64, h: bv64, sigma: bv64, ch: bv64, k: bv64)
    ensures WordFirstSum(w, h, sigma, ch, k) == RoundSum(h, sigma, ch, k, w)
  {
  }

  // ---------------------------------------------------------------- the working variables

  /** The shift of the working variables at the end of a round. */
  method Rotate(vars: array<bv64>, t1: bv64, t2: bv64)
    requires vars.Length == 8
    modifies vars
    ensures vars[0] == Sum(t1, t2) && vars[1] == old(vars[0]) && vars[2] == old(vars[1]) && vars[3] == old(vars[2])
    ensures vars[4] == Sum(old(vars[3]), t1) && vars[5] == old(vars[4]) && vars[6] == old(vars[5]) && vars[7] == old(vars[6])
  {
    hide Sum;
    vars[7] := vars[6];
    vars[6] := vars[5];
    vars[5] := vars[4];
    vars[4] := Sum(vars[3], t1);
    vars[3] := vars[2];
    vars[2] := vars[1];
    vars[1] := vars[0];
    vars[0] := Sum(t1, t2);
  }

  /** One round of either loop, once the word is known. */
  method RunRound(vars: array<bv64>, k: bv64, w: bv64, wordFirst: bool)
    requires vars.Length == 8
    modifies vars
    ensures vars[..] == Round(old(vars[..]), k, w)
  {
    hide Sum, BigSigma0, BigSigma1, Ch, Maj, RoundSum, WordFirstSum, Round;
    var h, sigma, ch := vars[7], BigSigma1(vars[4]), Ch(vars[4], vars[5], vars[6]);
    RoundOrder(w, h, sigma, ch, k);
    var t1 := if wordFirst then WordFirstSum(w, h, sigma, ch, k) else RoundSum(h, sigma, ch, k, w);
    var t2 := Sum(BigSigma0(vars[0]), Maj(vars[0], vars[1], vars[2]));
    ghost var before := vars[..];
    Rotate(vars, t1, t2);
    RoundParts(before, k, w);
    SameEight(vars[..], Round(before, k, w));
  }

  lemma RoundParts(v: seq<bv64>, k: bv64, w: bv64)
    requires |v| == 8
    ensures var r, t1 := Round(v, k, w), RoundSum(v[7], BigSigma1(v[4]), Ch(v[4], v[5], v[6]), k, w);
            && r[0] == Sum(t1, Sum(BigSigma0(v[0]), Maj(v[0], v[1], v[2]))) && r[1] == v[0] && r[2] == v[1] && r[3] == v[2]
            && r[4] == Sum(v[3], t1) && r[5] == v[4] && r[6] == v[5] && r[7] == v[6]
  {
    hide Sum, BigSigma0, BigSigma1, Ch, Maj, RoundSum;
  }

  lemma SameEight(a: seq<bv64>, b: seq<bv64>)
    requires |a| == 8 && |b| == 8 && a[0] == b[0] && a[1] == b[1] && a[2] == b[2] && a[3] == b[3]
    requires a[4] == b[4] && a[5] == b[5] && a[6] == b[6] && a[7] == b[7]
    ensures a == b
  {
  }

  /** The loops that copy the state in and add the variables out. */
  method AddInto(state: array<bv64>, vars: array<bv64>)
    requires state.Length == 8 && vars.Length == 8 && state != vars
    modifies state
    ensures state[..] == AddStates(old(state[..]), vars[..])
  {
    hide Sum;
    for i := 0 to 8
      invariant forall j :: 0 <= j < 8 ==> state[j] == if j < i then Sum(old(state[j]), vars[j]) else old(state[j])
    {
      state[i] := Sum(state[i], vars[i]);
    }
  }

  method CopyState(state: array<bv64>) returns (vars: array<bv64>)
    requires state.Length == 8
    ensures fresh(vars) && vars.Length == 8 && vars[..] == state[..]
  {
    vars := new bv64[8];
    for i := 0 to 8
      invariant forall j :: 0 <= j < i ==> vars[j] == state[j]
      modifies vars
    {
      vars[i] := state[i];
    }
  }

  // ---------------------------------------------------------------- sha384_512_transform

  /** The full schedule. */
  method FillSchedule(buffer: seq<bv8>) returns (chunk: array<bv64>)
    requires |buffer| == 128
    ensures fresh(chunk) && chunk.Length == 80 && forall t: nat :: t < 80 ==> chunk[t] == Schedule(buffer, t)
  {
    hide Word, FullSum, ScheduleSum, SmallSigma0, SmallSigma1;
    chunk := new bv64[80];
    for i := 0 to 16
      invariant forall t: nat :: t < i ==> chunk[t] == Schedule(buffer, t)
      modifies chunk
    {
      chunk[i] := Word(buffer, i);
    }
    for i := 16 to 80
      invariant forall t: nat :: t < i ==> chunk[t] == Schedule(buffer, t)
      modifies chunk
    {
      var sigma0 := SmallSigma0(chunk[i - 15]);
      var sigma1 := SmallSigma1(chunk[i - 2]);
      FullOrder(chunk[i - 16], sigma0, chunk[i - 7], sigma1);
      chunk[i] := FullSum(chunk[i - 16], sigma0, chunk[i - 7], sigma1);
    }
  }

  method TransformFull(state: array<bv64>, buffer: seq<bv8>)
    requires state.Length == 8 && |buffer| == 128
    modifies state
    ensures state[..] == Compress(old(state[..]), buffer)
  {
    hide Schedule, Round, AddStates;
    ghost var start := state[..];
    var vars := CopyState(state);
    var chunk := FillSchedule(buffer);
    for i := 0 to 80
      invariant vars[..] == Rounds(start, buffer, i)
      modifies vars
    {
      RunRound(vars, Constants[i], chunk[i], false);
    }
    assert state[..] == start;
    ghost var last := vars[..];
    AddInto(state, vars);
    assert vars[..] == last;
  }

  // ---------------------------------------------------------------- sha512_transform

  /** The ring holds the last sixteen words before `t`, each at its number modulo 16. */
  ghost predicate RingHolds(ring: seq<bv64>, block: seq<bv8>, t: int)
    requires |block| == 128
  {
    |ring| == 16 && forall j: nat :: t - 16 <= j < t ==> ring[j % 16] == Schedule(block, j)
  }

  lemma RingNext(ring: seq<bv64>, block: seq<bv8>, t: nat, w: bv64)
    requires |block| == 128 && RingHolds(ring, block, t) && w == Schedule(block, t)
    ensures RingHolds(ring[t % 16 := w], block, t + 1)
  {
    hide Schedule;
    forall j: nat | t + 1 - 16 <= j < t + 1 ensures ring[t % 16 := w][j % 16] == Schedule(block, j) {
      if j < t { assert j % 16 != t % 16; }
    }
  }

  /** The word that replaces the oldest one in the ring. */
  lemma RingWord(ring: seq<bv64>, block: seq<bv8>, t: nat)
    requires |block| == 128 && RingHolds(ring, block, t) && t >= 16
    ensures RingSum(ring[t % 16], SmallSigma0(ring[(t + 1) % 16]), SmallSigma1(ring[(t + 14) % 16]), ring[(t + 9) % 16])
         == Schedule(block, t)
  {
    hide RingSum, ScheduleSum, SmallSigma0, SmallSigma1;
    RingAt(ring, block, t, t - 16);
    RingAt(ring, block, t, t - 15);
    RingAt(ring, block, t, t - 7);
    RingAt(ring, block, t, t - 2);
    RingOrder(ring[t % 16], SmallSigma0(ring[(t + 1) % 16]), SmallSigma1(ring[(t + 14) % 16]), ring[(t + 9) % 16]);
  }

  lemma RingAt(ring: seq<bv64>, block: seq<bv8>, t: nat, j: nat)
    requires |block| == 128 && RingHolds(ring, block, t) && t - 16 <= j < t
    ensures ring[j % 16] == Schedule(block, j) && (j + 16) % 16 == j % 16
  {
  }

  /** The rolling form: sixteen words, each overwritten when it is no longer needed. */
  method TransformRolling(state: array<bv64>, data: seq<bv8>)
    requires state.Length == 8 && |data| == 128
    modifies state
    ensures state[..] == Compress(old(state[..]), data)
  {
    hide Schedule, Round, AddStates, RingHolds;
    ghost var start := state[..];
    var vars := CopyState(state);
    var ring := new bv64[16];
    RingStarts(ring[..], data);
    for i := 0 to 16
      invariant vars[..] == Rounds(start, data, i) && RingHolds(ring[..], data, i)
      modifies vars, ring
    {
      LoadWord(ring, data, i);
      RunRound(vars, Constants[i], ring[i], false);
    }
    for i := 16 to 80
      invariant vars[..] == Rounds(start, data, i) && RingHolds(ring[..], data, i)
      modifies vars, ring
    {
      var w := NextWord(ring, data, i);
      RunRound(vars, Constants[i], w, true);
    }
    assert state[..] == start;
    ghost var last := vars[..];
    AddInto(state, vars);
    assert vars[..] == last;
  }

  lemma RingStarts(ring: seq<bv64>, block: seq<bv8>)
    requires |ring| == 16 && |block| == 128
    ensures RingHolds(ring, block, 0)
  {
  }

  method LoadWord(ring: array<bv64>, data: seq<bv8>, i: nat)
    requires ring.Length == 16 && |data| == 128 && i < 16 && RingHolds(ring[..], data, i)
    modifies ring
    ensures RingHolds(ring[..], data, i + 1) && ring[i] == Schedule(data, i)
  {
    hide Word;
    assert Word(data, i) == Schedule(data, i);
    RingNext(ring[..], data, i, Word(data, i));
    ghost var before := ring[..];
    ring[i] := Word(data, i);
    assert ring[..] == before[i % 16 := Word(data, i)];
  }

  method NextWord(ring: array<bv64>, ghost data: seq<bv8>, i: nat) returns (w: bv64)
    requires ring.Length == 16 && |data| == 128 && i >= 16 && RingHolds(ring[..], data, i)
    modifies ring
    ensures RingHolds(ring[..], data, i + 1) && w == Schedule(data, i)
  {
    hide RingSum, SmallSigma0, SmallSigma1, RingHolds, Schedule;
    RingWord(ring[..], data, i);
    var s0 := SmallSigma0(ring[(i + 1) % 16]);
    var s1 := SmallSigma1(ring[(i + 14) % 16]);
    w := RingSum(ring[i % 16], s0, s1, ring[(i + 9) % 16]);
    RingNext(ring[..], data, i, w);
    ghost var before := ring[..];
    ring[i % 16] := w;
    assert ring[..] == before[i % 16 := w];
  }
}
