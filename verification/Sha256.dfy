/** SHA-224 and SHA-256: the compression, and the stream of bytes that feeds it. */
module Sha256 {

  // ---------------------------------------------------------------- section 6.2.2 of FIPS 180-4

  const Constants0: seq<bv32> := [
    0x428a2f98, 0x71374491, 0xb5c0fbcf, 0xe9b5dba5, 0x3956c25b, 0x59f111f1, 0x923f82a4, 0xab1c5ed5
  ]

  const Constants8: seq<bv32> := [
    0xd807aa98, 0x12835b01, 0x243185be, 0x550c7dc3, 0x72be5d74, 0x80deb1fe, 0x9bdc06a7, 0xc19bf174
  ]

  const Constants16: seq<bv32> := [
    0xe49b69c1, 0xefbe4786, 0x0fc19dc6, 0x240ca1cc, 0x2de92c6f, 0x4a7484aa, 0x5cb0a9dc, 0x76f988da
  ]

  const Constants24: seq<bv32> := [
    0x983e5152, 0xa831c66d, 0xb00327c8, 0xbf597fc7, 0xc6e00bf3, 0xd5a79147, 0x06ca6351, 0x14292967
  ]

  const Constants32: seq<bv32> := [
    0x27b70a85, 0x2e1b2138, 0x4d2c6dfc, 0x53380d13, 0x650a7354, 0x766a0abb, 0x81c2c92e, 0x92722c85
  ]

  const Constants40: seq<bv32> := [
    0xa2bfe8a1, 0xa81a664b, 0xc24b8b70, 0xc76c51a3, 0xd192e819, 0xd6990624, 0xf40e3585, 0x106aa070
  ]

  const Constants48: seq<bv32> := [
    0x19a4c116, 0x1e376c08, 0x2748774c, 0x34b0bcb5, 0x391c0cb3, 0x4ed8aa4a, 0x5b9cca4f, 0x682e6ff3
  ]

  const Constants56: seq<bv32> := [
    0x748f82ee, 0x78a5636f, 0x84c87814, 0x8cc70208, 0x90befffa, 0xa4506ceb, 0xbef9a3f7, 0xc67178f2
  ]

  const Constants: seq<bv32> :=
    Constants0 + Constants8 + Constants16 + Constants24 + Constants32 + Constants40 + Constants48 + Constants56

  const InitialSha256: Words := [
    0x6a09e667, 0xbb67ae85, 0x3c6ef372, 0xa54ff53a, 0x510e527f, 0x9b05688c, 0x1f83d9ab, 0x5be0cd19
  ]

  const InitialSha224: Words := [
    0xc1059ed8, 0x367cd507, 0x3070dd17, 0xf70e5939, 0xffc00b31, 0x68581511, 0x64f98fa7, 0xbefa4fa4
  ]

  function BigSigma0(x: bv32): bv32 {
    x.RotateRight(2) ^ x.RotateRight(13) ^ x.RotateRight(22)
  }

  function BigSigma1(x: bv32): bv32 {
    x.RotateRight(6) ^ x.RotateRight(11) ^ x.RotateRight(25)
  }

  function SmallSigma0(x: bv32): bv32 {
    x.RotateRight(7) ^ x.RotateRight(18) ^ (x >> 3)
  }

  function SmallSigma1(x: bv32): bv32 {
    x.RotateRight(17) ^ x.RotateRight(19) ^ (x >> 10)
  }

  function Ch(x: bv32, y: bv32, z: bv32): bv32 {
    (x & y) ^ (!x & z)
  }

  function Maj(x: bv32, y: bv32, z: bv32): bv32 {
    (x & y) ^ (x & z) ^ (y & z)
  }

  /** Word number `i` of a block, most significant byte first. */
  function Word(block: seq<bv8>, i: nat): bv32
    requires 4 * i + 4 <= |block|
  {
    ((block[4 * i] as bv32) << 24) | ((block[4 * i + 1] as bv32) << 16) | ((block[4 * i + 2] as bv32) << 8) | (block[4 * i + 3] as bv32)
  }

  /** Where `x` has a bit `Ch` takes that of `y`, elsewhere that of `z`. */
  lemma ChChooses(x: bv32, y: bv32, z: bv32)
    ensures Ch(x, y, z) & x == y & x && Ch(x, y, z) & !x == z & !x
  {
  }

  /** Where `x` has a bit one of the others suffices, elsewhere both are needed. */
  lemma MajAgrees(x: bv32, y: bv32, z: bv32)
    ensures Maj(x, y, z) & x == (y | z) & x && Maj(x, y, z) & !x == (y & z) & !x
  {
  }

  /** The bytes of a word, most significant first. */
  function WordBytes(w: bv32): (b: seq<bv8>)
    ensures |b| == 4
  {
    [((w >> 24) & 0xFF) as bv8, ((w >> 16) & 0xFF) as bv8, ((w >> 8) & 0xFF) as bv8, (w & 0xFF) as bv8]
  }

  /** A word keeps its four bytes in order. */
  lemma WordKeepsBytes(block: seq<bv8>, i: nat)
    requires 4 * i + 4 <= |block|
    ensures WordBytes(Word(block, i)) == block[4 * i..4 * i + 4]
  {
  }

  /** Addition modulo 2^32. */
  function Sum(x: bv32, y: bv32): bv32 {
    x + y
  }

  function ScheduleSum(s1: bv32, w7: bv32, s0: bv32, w16: bv32): bv32 {
    s1 + w7 + s0 + w16
  }

  function RoundSum(h: bv32, sigma: bv32, ch: bv32, k: bv32, w: bv32): bv32 {
    h + sigma + ch + k + w
  }

  /** The order in which the code adds. */
  function FullSum(w16: bv32, s0: bv32, w7: bv32, s1: bv32): bv32 {
    w16 + s0 + w7 + s1
  }

  lemma FullOrder(w16: bv32, s0: bv32, w7: bv32, s1: bv32)
    ensures FullSum(w16, s0, w7, s1) == ScheduleSum(s1, w7, s0, w16)
  {
  }

  type Block = b: seq<bv8> | |b| == 64 witness seq(64, i => 0)

  type Words = w: seq<bv32> | |w| == 8 witness seq(8, i => 0)

  function Schedule(block: Block, t: nat): (w: bv32) {
    if t < 16 then Word(block, t)
    else ScheduleSum(SmallSigma1(Schedule(block, t - 2)), Schedule(block, t - 7), SmallSigma0(Schedule(block, t - 15)), Schedule(block, t - 16))
  }

  function Round(v: Words, k: bv32, w: bv32): (r: Words) {
    var t1 := RoundSum(v[7], BigSigma1(v[4]), Ch(v[4], v[5], v[6]), k, w);
    var t2 := Sum(BigSigma0(v[0]), Maj(v[0], v[1], v[2]));
    [Sum(t1, t2), v[0], v[1], v[2], Sum(v[3], t1), v[4], v[5], v[6]]
  }

  function Rounds(state: Words, block: Block, t: nat): (r: Words)
    requires t <= 64
  {
    if t == 0 then state else Round(Rounds(state, block, t - 1), Constants[t - 1], Schedule(block, t - 1))
  }

  function AddStates(a: Words, b: Words): (r: Words) {
    seq(8, i requires 0 <= i < 8 => Sum(a[i], b[i]))
  }

  function Compress(state: Words, block: Block): (r: Words) {
    AddStates(state, Rounds(state, block, 64))
  }

  /** The state after a sequence of blocks. */
  function Digest(state: Words, blocks: seq<Block>): (r: Words) {
    if blocks == [] then state else Compress(Digest(state, blocks[..|blocks| - 1]), blocks[|blocks| - 1])
  }

  // ---------------------------------------------------------------- sha224_256_transform

  method Rotate(vars: array<bv32>, t1: bv32, t2: bv32)
    requires vars.Length == 8
    modifies vars
    ensures vars[0] == Sum(t1, t2) && vars[1] == old(vars[0]) && vars[2] == old(vars[1]) && vars[3] == old(vars[2])
    ensures vars[4] == Sum(old(vars[3]), t1) && vars[5] == old(vars[4]) && vars[6] == old(vars[5]) && vars[7] == old(vars[6])
  {
    hide Sum;
    vars[7] := vars[6];
    vars[6] := vars[5];
    vars[5] := vars[4];
    vars[4] := Sum(vars[3], t1);
    vars[3] := vars[2];
    vars[2] := vars[1];
    vars[1] := vars[0];
    vars[0] := Sum(t1, t2);
  }

  method RunRound(vars: array<bv32>, k: bv32, w: bv32)
    requires vars.Length == 8
    modifies vars
    ensures vars[..] == Round(old(vars[..]), k, w)
  {
    hide Sum, BigSigma0, BigSigma1, Ch, Maj, RoundSum;
    var t1 := RoundSum(vars[7], BigSigma1(vars[4]), Ch(vars[4], vars[5], vars[6]), k, w);
    var t2 := Sum(BigSigma0(vars[0]), Maj(vars[0], vars[1], vars[2]));
    ghost var before := vars[..];
    Rotate(vars, t1, t2);
    SameEight(vars[..], Round(before, k, w));
  }

  lemma SameEight(a: seq<bv32>, b: seq<bv32>)
    requires |a| == 8 && |b| == 8 && a[0] == b[0] && a[1] == b[1] && a[2] == b[2] && a[3] == b[3]
    requires a[4] == b[4] && a[5] == b[5] && a[6] == b[6] && a[7] == b[7]
    ensures a == b
  {
  }

  method FillSchedule(buffer: Block) returns (chunk: array<bv32>)
    ensures fresh(chunk) && chunk.Length == 64 && forall t: nat :: t < 64 ==> chunk[t] == Schedule(buffer, t)
  {
    hide Word, FullSum, ScheduleSum, SmallSigma0, SmallSigma1;
    chunk := new bv32[64];
    for i := 0 to 16
      invariant forall t: nat :: t < i ==> chunk[t] == Schedule(buffer, t)
      modifies chunk
    {
      chunk[i] := Word(buffer, i);
    }
    for i := 16 to 64
      invariant forall t: nat :: t < i ==> chunk[t] == Schedule(buffer, t)
      modifies chunk
    {
      var sigma0 := SmallSigma0(chunk[i - 15]);
      var sigma1 := SmallSigma1(chunk[i - 2]);
      FullOrder(chunk[i - 16], sigma0, chunk[i - 7], sigma1);
      chunk[i] := FullSum(chunk[i - 16], sigma0, chunk[i - 7], sigma1);
    }
  }

  method Transform(state: array<bv32>, buffer: Block)
    requires state.Length == 8
    modifies state
    ensures state[..] == Compress(old(state[..]), buffer)
  {
    hide Schedule, Round, Sum;
    ghost var start := state[..];
    var vars := new bv32[8];
    for i := 0 to 8
      invariant forall j :: 0 <= j < i ==> vars[j] == state[j]
      modifies vars
    {
      vars[i] := state[i];
    }
    var chunk := FillSchedule(buffer);
    assert vars[..] == start;
    for i := 0 to 64
      invariant vars[..] == Rounds(start, buffer, i)
      modifies vars
    {
      RunRound(vars, Constants[i], chunk[i]);
    }
    for i := 0 to 8
      invariant forall j :: 0 <= j < 8 ==> state[j] == if j < i then Sum(start[j], vars[j]) else start[j]
      modifies state
    {
      state[i] := Sum(state[i], vars[i]);
    }
  }
}
