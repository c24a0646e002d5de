/** Digests of known messages, from the examples of appendix B of FIPS 180-2: what no law about the parts of the
    compression says, these say about the whole. */
module Sha256Answers {
  import opened Sha256
  import opened Sha256Stream

  // ---------------------------------------------------------------- eight rounds at a time

  /** Eight words of the schedule, from number `t` on. */
  function Row(block: Block, t: nat): seq<bv32> {
    [Schedule(block, t), Schedule(block, t + 1), Schedule(block, t + 2), Schedule(block, t + 3),
     Schedule(block, t + 4), Schedule(block, t + 5), Schedule(block, t + 6), Schedule(block, t + 7)]
  }

  /** The word that comes 16 after `w16`. */
  function NextWord(w16: bv32, w15: bv32, w7: bv32, w2: bv32): bv32 {
    ScheduleSum(SmallSigma1(w2), w7, SmallSigma0(w15), w16)
  }

  /** The row after the rows `a` and `b`. */
  function NextRow(a: seq<bv32>, b: seq<bv32>): (r: seq<bv32>)
    requires |a| == 8 && |b| == 8
  {
    var w0 := NextWord(a[0], a[1], b[1], b[6]);
    var w1 := NextWord(a[1], a[2], b[2], b[7]);
    var w2 := NextWord(a[2], a[3], b[3], w0);
    var w3 := NextWord(a[3], a[4], b[4], w1);
    var w4 := NextWord(a[4], a[5], b[5], w2);
    var w5 := NextWord(a[5], a[6], b[6], w3);
    var w6 := NextWord(a[6], a[7], b[7], w4);
    [w0, w1, w2, w3, w4, w5, w6, NextWord(a[7], b[0], w0, w5)]
  }

  lemma ScheduleNext(block: Block, t: nat)
    requires t >= 16
    ensures Schedule(block, t) == NextWord(Schedule(block, t - 16), Schedule(block, t - 15), Schedule(block, t - 7), Schedule(block, t - 2))
  {
  }

  lemma RowAhead(block: Block, t: nat)
    requires t >= 16
    ensures Row(block, t) == NextRow(Row(block, t - 16), Row(block, t - 8))
  {
    hide NextWord, Schedule;
    ScheduleNext(block, t);
    ScheduleNext(block, t + 1);
    ScheduleNext(block, t + 2);
    ScheduleNext(block, t + 3);
    ScheduleNext(block, t + 4);
    ScheduleNext(block, t + 5);
    ScheduleNext(block, t + 6);
    ScheduleNext(block, t + 7);
  }

  function EightRounds(v: Words, k: seq<bv32>, w: seq<bv32>): (r: Words)
    requires |k| == 8 && |w| == 8
  {
    var v4 := Round(Round(Round(Round(v, k[0], w[0]), k[1], w[1]), k[2], w[2]), k[3], w[3]);
    Round(Round(Round(Round(v4, k[4], w[4]), k[5], w[5]), k[6], w[6]), k[7], w[7])
  }

  lemma RoundsAhead(state: Words, block: Block, t: nat)
    requires t + 8 <= 64
    ensures Rounds(state, block, t + 8) == EightRounds(Rounds(state, block, t), Constants[t..t + 8], Row(block, t))
  {
    hide Round, Schedule, Constants, Rounds;
    ConstantRows();
    RoundNext(state, block, t);
    RoundNext(state, block, t + 1);
    RoundNext(state, block, t + 2);
    RoundNext(state, block, t + 3);
    RoundNext(state, block, t + 4);
    RoundNext(state, block, t + 5);
    RoundNext(state, block, t + 6);
    RoundNext(state, block, t + 7);
  }

  lemma RoundNext(state: Words, block: Block, t: nat)
    requires t < 64
    ensures Rounds(state, block, t + 1) == Round(Rounds(state, block, t), Constants[t], Schedule(block, t))
  {
  }

  lemma ConstantRows()
    ensures |Constants| == 64 && Constants[0..8] == Constants0 && Constants[8..16] == Constants8
    ensures Constants[16..24] == Constants16 && Constants[24..32] == Constants24
    ensures Constants[32..40] == Constants32 && Constants[40..48] == Constants40
    ensures Constants[48..56] == Constants48 && Constants[56..64] == Constants56
  {
  }

  lemma RoundsStart(state: Words, block: Block)
    ensures Rounds(state, block, 0) == state
  {
  }

  // ---------------------------------------------------------------- texts

  function WordText(w: bv32): (s: string) {
    var b := WordBytes(w);
    ByteText(b[0]) + ByteText(b[1]) + ByteText(b[2]) + ByteText(b[3])
  }

  lemma WordTextIs(w: bv32)
    ensures TextOf(WordBytes(w)) == WordText(w)
  {
    hide ByteText;
    var b := WordBytes(w);
    hide WordBytes;
    assert TextOf(b[..0]) == [];
    TextMoreBytes(b, 0);
    TextMoreBytes(b, 1);
    TextMoreBytes(b, 2);
    TextMoreBytes(b, 3);
    assert b[..4] == b;
  }

  lemma TextMoreBytes(b: seq<bv8>, n: nat)
    requires n < |b|
    ensures TextOf(b[..n + 1]) == TextOf(b[..n]) + ByteText(b[n])
  {
    assert b[..n + 1][..n] == b[..n];
  }

  lemma {:induction false} TextJoin(a: seq<bv8>, b: seq<bv8>)
    ensures TextOf(a + b) == TextOf(a) + TextOf(b)
  {
    hide ByteText;
    if b == [] {
      assert a + b == a;
    } else {
      TextJoin(a, b[..|b| - 1]);
      assert (a + b)[..|a + b| - 1] == a + b[..|b| - 1];
    }
  }

  /** The text of the first `n` words. */
  function FirstText(words: seq<bv32>, n: nat): string
    requires n <= |words|
  {
    TextOf(BytesOf(words[..n]))
  }

  lemma TextMore(words: seq<bv32>, n: nat)
    requires n < |words|
    ensures FirstText(words, n + 1) == FirstText(words, n) + WordText(words[n])
  {
    hide TextOf, WordBytes, WordText;
    assert words[..n + 1][..n] == words[..n];
    TextJoin(BytesOf(words[..n]), WordBytes(words[n]));
    WordTextIs(words[n]);
  }

  lemma TextStarts(words: seq<bv32>)
    requires |words| > 0
    ensures FirstText(words, 1) == WordText(words[0])
  {
    hide WordText, WordBytes;
    assert TextOf(BytesOf(words[..0])) == [];
    TextMore(words, 0);
  }

  lemma SevenWords(words: seq<bv32>)
    requires |words| >= 7
    ensures FirstText(words, 7) == WordText(words[0]) + WordText(words[1]) + WordText(words[2]) + WordText(words[3])
              + WordText(words[4]) + WordText(words[5]) + WordText(words[6])
  {
    hide FirstText, WordText;
    TextStarts(words);
    TextMore(words, 1);
    TextMore(words, 2);
    TextMore(words, 3);
    TextMore(words, 4);
    TextMore(words, 5);
    TextMore(words, 6);
  }

  lemma EightWords(words: seq<bv32>)
    requires |words| == 8
    ensures FirstText(words, 8) == WordText(words[0]) + WordText(words[1]) + WordText(words[2]) + WordText(words[3])
              + WordText(words[4]) + WordText(words[5]) + WordText(words[6]) + WordText(words[7])
  {
    hide FirstText, WordText;
    SevenWords(words);
    TextMore(words, 7);
  }

  lemma HashTextIs(sha256: bool, message: seq<bv8>)
    ensures HashText(sha256, message) == FirstText(Digest(Start(sha256), BlocksOf(Padded(message))), if sha256 then 8 else 7)
    ensures Start(true) == InitialSha256 && Start(false) == InitialSha224
  {
  }

  lemma CompressIs(state: Words, block: Block)
    ensures Compress(state, block) == AddStates(state, Rounds(state, block, 64))
  {
  }

  // ---------------------------------------------------------------- the padded messages

  /** A message shorter than 56 bytes makes one block. */
  lemma OneBlock(state: Words, message: seq<bv8>)
    requires |message| < 56
    ensures |Padded(message)| == 64 && Digest(state, BlocksOf(Padded(message))) == Compress(state, Padded(message))
  {
    hide Compress, BigEndian;
    var p := Padded(message);
    assert p[..0] == [] && p[0..] == p;
    assert BlocksOf(p[..0]) == [];
    assert BlocksOf(p) == [p];
    DigestMore(state, [], p);
    assert [] + [p] == [p];
  }

  /** One of 56 to 63 bytes makes two. */
  lemma TwoBlocks(state: Words, message: seq<bv8>)
    requires 56 <= |message| < 64
    ensures |Padded(message)| == 128
    ensures Digest(state, BlocksOf(Padded(message))) == Compress(Compress(state, Padded(message)[..64]), Padded(message)[64..])
  {
    hide Compress, BigEndian, Digest, BlocksOf;
    var p := Padded(message);
    assert |p| == 128;
    hide Padded;
    DigestTwo(state, p);
  }

  lemma DigestTwo(state: Words, p: seq<bv8>)
    requires |p| == 128
    ensures Digest(state, BlocksOf(p)) == Compress(Compress(state, p[..64]), p[64..])
  {
    hide Compress;
    var a, b := p[..64], p[64..];
    assert BlocksOf(p) == [a, b] by {
      assert a[..0] == [] && a[0..] == a;
      assert BlocksOf(a[..0]) == [];
    }
    hide BlocksOf;
    var one: seq<Block> := [a];
    assert one + [b] == [a, b] && [] + one == one;
    DigestMore(state, one, b);
    DigestMore(state, [], a);
  }

  const Abc: seq<bv8> := [0x61, 0x62, 0x63]

  lemma SmallBytes()
    ensures LowByte(0) == 0 && LowByte(1) == 1 && LowByte(24) == 24 && LowByte(448) == 192
  {
  }

  lemma LengthBytes()
    ensures BigEndian(24) == [0, 0, 0, 0, 0, 0, 0, 24] && BigEndian(448) == [0, 0, 0, 0, 0, 0, 1, 192]
  {
    hide LowByte;
    SmallBytes();
  }

  lemma AbcPadded()
    ensures Padded(Abc) == Abc + [0x80] + Zeros(52) + [0, 0, 0, 0, 0, 0, 0, 24]
  {
    hide BigEndian;
    LengthBytes();
  }

  lemma AbcWords()
    ensures |Padded(Abc)| == 64
    ensures Row(Padded(Abc), 0) == [0x61626380, 0x00000000, 0x00000000, 0x00000000, 0x00000000, 0x00000000, 0x00000000, 0x00000000]
    ensures Row(Padded(Abc), 8) == [0x00000000, 0x00000000, 0x00000000, 0x00000000, 0x00000000, 0x00000000, 0x00000000, 0x00000018]
  {
    hide Padded;
    AbcPadded();
    var p := Padded(Abc);
    assert p[0] == 0x61 && p[1] == 0x62 && p[2] == 0x63 && p[3] == 0x80 && p[63] == 24;
    assert forall i :: 4 <= i < 63 ==> p[i] == 0;
  }

  /** The 56 letters of the second example: four from a, four from b, up to four from n. */
  const Letters: seq<bv8> :=
    [0x61, 0x62, 0x63, 0x64, 0x62, 0x63, 0x64, 0x65] +
    [0x63, 0x64, 0x65, 0x66, 0x64, 0x65, 0x66, 0x67] +
    [0x65, 0x66, 0x67, 0x68, 0x66, 0x67, 0x68, 0x69] +
    [0x67, 0x68, 0x69, 0x6a, 0x68, 0x69, 0x6a, 0x6b] +
    [0x69, 0x6a, 0x6b, 0x6c, 0x6a, 0x6b, 0x6c, 0x6d] +
    [0x6b, 0x6c, 0x6d, 0x6e, 0x6c, 0x6d, 0x6e, 0x6f] +
    [0x6d, 0x6e, 0x6f, 0x70, 0x6e, 0x6f, 0x70, 0x71]

  lemma LettersPadded()
    ensures |Padded(Letters)| == 128 && Padded(Letters)[..64] == Letters + LettersEnd
    ensures Padded(Letters)[64..] == Zeros(56) + [0, 0, 0, 0, 0, 0, 1, 192]
  {
    hide BigEndian, ZeroCount, Zeros, Letters, LettersEnd;
    LengthBytes();
    LettersZeros();
    LettersLength();
    JoinFive(Letters, [0x80], Zeros(7), Zeros(56), [0, 0, 0, 0, 0, 0, 1, 192]);
  }

  lemma LettersZeros()
    ensures ZeroCount(56) == 63 && Zeros(63) == Zeros(7) + Zeros(56) && [0x80] + Zeros(7) == LettersEnd
  {
  }

  lemma JoinFive(a: seq<bv8>, b: seq<bv8>, c: seq<bv8>, d: seq<bv8>, e: seq<bv8>)
    ensures (a + b + (c + d) + e)[..|a| + |b| + |c|] == a + (b + c)
    ensures (a + b + (c + d) + e)[|a| + |b| + |c|..] == d + e
  {
    assert a + b + (c + d) + e == a + (b + c) + (d + e);
  }

  const LettersEnd: seq<bv8> := [0x80, 0, 0, 0, 0, 0, 0, 0]

  lemma LettersFirst(block: Block)
    requires block == Letters + LettersEnd
    ensures Row(block, 0) == [0x61626364, 0x62636465, 0x63646566, 0x64656667, 0x65666768, 0x66676869, 0x6768696a, 0x68696a6b]
  {
  }

  lemma LettersSecond(block: Block)
    requires block == Letters + LettersEnd
    ensures Row(block, 8) == [0x696a6b6c, 0x6a6b6c6d, 0x6b6c6d6e, 0x6c6d6e6f, 0x6d6e6f70, 0x6e6f7071, 0x80000000, 0x00000000]
  {
  }

  lemma LettersThird(block: Block)
    requires block == Zeros(56) + [0, 0, 0, 0, 0, 0, 1, 192]
    ensures Row(block, 0) == [0x00000000, 0x00000000, 0x00000000, 0x00000000, 0x00000000, 0x00000000, 0x00000000, 0x00000000]
    ensures Row(block, 8) == [0x00000000, 0x00000000, 0x00000000, 0x00000000, 0x00000000, 0x00000000, 0x00000000, 0x000001c0]
  {
    assert block[62] == 1 && block[63] == 192;
    assert forall i :: 0 <= i < 62 ==> block[i] == 0;
  }

  lemma LettersWords()
    ensures |Padded(Letters)| == 128
    ensures Row(Padded(Letters)[..64], 0) == [0x61626364, 0x62636465, 0x63646566, 0x64656667, 0x65666768, 0x66676869, 0x6768696a, 0x68696a6b]
    ensures Row(Padded(Letters)[..64], 8) == [0x696a6b6c, 0x6a6b6c6d, 0x6b6c6d6e, 0x6c6d6e6f, 0x6d6e6f70, 0x6e6f7071, 0x80000000, 0x00000000]
    ensures Row(Padded(Letters)[64..], 0) == [0x00000000, 0x00000000, 0x00000000, 0x00000000, 0x00000000, 0x00000000, 0x00000000, 0x00000000]
    ensures Row(Padded(Letters)[64..], 8) == [0x00000000, 0x00000000, 0x00000000, 0x00000000, 0x00000000, 0x00000000, 0x00000000, 0x000001c0]
  {
    hide *;
    LettersPadded();
    LettersFirst(Padded(Letters)[..64]);
    LettersSecond(Padded(Letters)[..64]);
    LettersThird(Padded(Letters)[64..]);
  }

  // ---------------------------------------------------------------- the digests

  lemma AbcRows(block: Block)
    requires Row(block, 0) == [0x61626380, 0x00000000, 0x00000000, 0x00000000, 0x00000000, 0x00000000, 0x00000000, 0x00000000]
    requires Row(block, 8) == [0x00000000, 0x00000000, 0x00000000, 0x00000000, 0x00000000, 0x00000000, 0x00000000, 0x00000018]
    ensures Row(block, 16) == [0x61626380, 0x000f0000, 0x7da86405, 0x600003c6, 0x3e9d7b78, 0x0183fc00, 0x12dcbfdb, 0xe2e2c38e]
    ensures Row(block, 24) == [0xc8215c1a, 0xb73679a2, 0xe5bc3909, 0x32663c5b, 0x9d209d67, 0xec8726cb, 0x702138a4, 0xd3b7973b]
    ensures Row(block, 32) == [0x93f5997f, 0x3b68ba73, 0xaff4ffc1, 0xf10a5c62, 0x0a8b3996, 0x72af830a, 0x9409e33e, 0x24641522]
    ensures Row(block, 40) == [0x9f47bf94, 0xf0a64f5a, 0x3e246a79, 0x27333ba3, 0x0c4763f2, 0x840abf27, 0x7a290d5d, 0x065c43da]
    ensures Row(block, 48) == [0xfb3e89cb, 0xcc7617db, 0xb9e66c34, 0xa9993667, 0x84badedd, 0xc21462bc, 0x1487472c, 0xb20f7a99]
    ensures Row(block, 56) == [0xef57b9cd, 0xebe6b238, 0x9fe3095e, 0x78bc8d4b, 0xa43fcf15, 0x668b2ff8, 0xeeaba2cc, 0x12b1edeb]
  {
    assert NextRow([0x61626380, 0x00000000, 0x00000000, 0x00000000, 0x00000000, 0x00000000, 0x00000000, 0x00000000],
                   [0x00000000, 0x00000000, 0x00000000, 0x00000000, 0x00000000, 0x00000000, 0x00000000, 0x00000018])
        == [0x61626380, 0x000f0000, 0x7da86405, 0x600003c6, 0x3e9d7b78, 0x0183fc00, 0x12dcbfdb, 0xe2e2c38e];
    assert NextRow([0x00000000, 0x00000000, 0x00000000, 0x00000000, 0x00000000, 0x00000000, 0x00000000, 0x00000018],
                   [0x61626380, 0x000f0000, 0x7da86405, 0x600003c6, 0x3e9d7b78, 0x0183fc00, 0x12dcbfdb, 0xe2e2c38e])
        == [0xc8215c1a, 0xb73679a2, 0xe5bc3909, 0x32663c5b, 0x9d209d67, 0xec8726cb, 0x702138a4, 0xd3b7973b];
    assert NextRow([0x61626380, 0x000f0000, 0x7da86405, 0x600003c6, 0x3e9d7b78, 0x0183fc00, 0x12dcbfdb, 0xe2e2c38e],
                   [0xc8215c1a, 0xb73679a2, 0xe5bc3909, 0x32663c5b, 0x9d209d67, 0xec8726cb, 0x702138a4, 0xd3b7973b])
        == [0x93f5997f, 0x3b68ba73, 0xaff4ffc1, 0xf10a5c62, 0x0a8b3996, 0x72af830a, 0x9409e33e, 0x24641522];
    assert NextRow([0xc8215c1a, 0xb73679a2, 0xe5bc3909, 0x32663c5b, 0x9d209d67, 0xec8726cb, 0x702138a4, 0xd3b7973b],
                   [0x93f5997f, 0x3b68ba73, 0xaff4ffc1, 0xf10a5c62, 0x0a8b3996, 0x72af830a, 0x9409e33e, 0x24641522])
        == [0x9f47bf94, 0xf0a64f5a, 0x3e246a79, 0x27333ba3, 0x0c4763f2, 0x840abf27, 0x7a290d5d, 0x065c43da];
    assert NextRow([0x93f5997f, 0x3b68ba73, 0xaff4ffc1, 0xf10a5c62, 0x0a8b3996, 0x72af830a, 0x9409e33e, 0x24641522],
                   [0x9f47bf94, 0xf0a64f5a, 0x3e246a79, 0x27333ba3, 0x0c4763f2, 0x840abf27, 0x7a290d5d, 0x065c43da])
        == [0xfb3e89cb, 0xcc7617db, 0xb9e66c34, 0xa9993667, 0x84badedd, 0xc21462bc, 0x1487472c, 0xb20f7a99];
    assert NextRow([0x9f47bf94, 0xf0a64f5a, 0x3e246a79, 0x27333ba3, 0x0c4763f2, 0x840abf27, 0x7a290d5d, 0x065c43da],
                   [0xfb3e89cb, 0xcc7617db, 0xb9e66c34, 0xa9993667, 0x84badedd, 0xc21462bc, 0x1487472c, 0xb20f7a99])
        == [0xef57b9cd, 0xebe6b238, 0x9fe3095e, 0x78bc8d4b, 0xa43fcf15, 0x668b2ff8, 0xeeaba2cc, 0x12b1edeb];
    hide NextRow, Row;
    RowAhead(block, 16);
    RowAhead(block, 24);
    RowAhead(block, 32);
    RowAhead(block, 40);
    RowAhead(block, 48);
    RowAhead(block, 56);
  }

  lemma AbcRounds0()
    ensures EightRounds(InitialSha256, Constants0,
                        [0x61626380, 0x00000000, 0x00000000, 0x00000000, 0x00000000, 0x00000000, 0x00000000, 0x00000000])
         == [0x85a07b5f, 0xe5030380, 0x2b4209f5, 0x04409a6a, 0x0c657a79, 0x9b27a401, 0x714260ad, 0x43ada245]
  {
  }

  lemma AbcRounds8()
    ensures EightRounds([0x85a07b5f, 0xe5030380, 0x2b4209f5, 0x04409a6a, 0x0c657a79, 0x9b27a401, 0x714260ad, 0x43ada245], Constants8,
                        [0x00000000, 0x00000000, 0x00000000, 0x00000000, 0x00000000, 0x00000000, 0x00000000, 0x00000018])
         == [0xb0fa238e, 0xc0645fde, 0xd932eb16, 0x87912990, 0x07590dcd, 0x0b92f20c, 0x745a48de, 0x1e578218]
  {
  }

  lemma AbcRounds16()
    ensures EightRounds([0xb0fa238e, 0xc0645fde, 0xd932eb16, 0x87912990, 0x07590dcd, 0x0b92f20c, 0x745a48de, 0x1e578218], Constants16,
                        [0x61626380, 0x000f0000, 0x7da86405, 0x600003c6, 0x3e9d7b78, 0x0183fc00, 0x12dcbfdb, 0xe2e2c38e])
         == [0xc5d53d8d, 0xa7a3623f, 0xc2606d6d, 0x9dc68b63, 0xaa47c347, 0x49f5114a, 0xe1257970, 0x8ada8930]
  {
  }

  lemma AbcRounds24()
    ensures EightRounds([0xc5d53d8d, 0xa7a3623f, 0xc2606d6d, 0x9dc68b63, 0xaa47c347, 0x49f5114a, 0xe1257970, 0x8ada8930], Constants24,
                        [0xc8215c1a, 0xb73679a2, 0xe5bc3909, 0x32663c5b, 0x9d209d67, 0xec8726cb, 0x702138a4, 0xd3b7973b])
         == [0x73b33bf5, 0xea992a22, 0xa0060b30, 0x363482c9, 0xba591112, 0x0109ab3a, 0xade79437, 0x6112a3b7]
  {
  }

  lemma AbcRounds32()
    ensures EightRounds([0x73b33bf5, 0xea992a22, 0xa0060b30, 0x363482c9, 0xba591112, 0x0109ab3a, 0xade79437, 0x6112a3b7], Constants32,
                        [0x93f5997f, 0x3b68ba73, 0xaff4ffc1, 0xf10a5c62, 0x0a8b3996, 0x72af830a, 0x9409e33e, 0x24641522])
         == [0x79ea687a, 0x6dc57a8a, 0x34df1604, 0x41a65cb1, 0x1efbc0a0, 0xf0781bc8, 0xa507a53d, 0x0772a26b]
  {
  }

  lemma AbcRounds40()
    ensures EightRounds([0x79ea687a, 0x6dc57a8a, 0x34df1604, 0x41a65cb1, 0x1efbc0a0, 0xf0781bc8, 0xa507a53d, 0x0772a26b], Constants40,
                        [0x9f47bf94, 0xf0a64f5a, 0x3e246a79, 0x27333ba3, 0x0c4763f2, 0x840abf27, 0x7a290d5d, 0x065c43da])
         == [0x4172328d, 0xa14c14b0, 0x72ab4b91, 0x26628815, 0xfecf0bc6, 0xd57b94a9, 0xb7755da1, 0xa80f11f0]
  {
  }

  lemma AbcRounds48()
    ensures EightRounds([0x4172328d, 0xa14c14b0, 0x72ab4b91, 0x26628815, 0xfecf0bc6, 0xd57b94a9, 0xb7755da1, 0xa80f11f0], Constants48,
                        [0xfb3e89cb, 0xcc7617db, 0xb9e66c34, 0xa9993667, 0x84badedd, 0xc21462bc, 0x1487472c, 0xb20f7a99])
         == [0x38cc9913, 0x3ec45cdb, 0xf5702fdb, 0x101fd28f, 0x54cb266b, 0xe50e1b4f, 0x9f4787c3, 0x529e7d00]
  {
  }

  lemma AbcRounds56()
    ensures EightRounds([0x38cc9913, 0x3ec45cdb, 0xf5702fdb, 0x101fd28f, 0x54cb266b, 0xe50e1b4f, 0x9f4787c3, 0x529e7d00], Constants56,
                        [0xef57b9cd, 0xebe6b238, 0x9fe3095e, 0x78bc8d4b, 0xa43fcf15, 0x668b2ff8, 0xeeaba2cc, 0x12b1edeb])
         == [0x506e3058, 0xd39a2165, 0x04d24d6c, 0xb85e2ce9, 0x5ef50f24, 0xfb121210, 0x948d25b6, 0x961f4894]
  {
  }

  lemma AbcRounds(block: Block)
    requires Row(block, 0) == [0x61626380, 0x00000000, 0x00000000, 0x00000000, 0x00000000, 0x00000000, 0x00000000, 0x00000000]
    requires Row(block, 8) == [0x00000000, 0x00000000, 0x00000000, 0x00000000, 0x00000000, 0x00000000, 0x00000000, 0x00000018]
    ensures Rounds(InitialSha256, block, 64) == [0x506e3058, 0xd39a2165, 0x04d24d6c, 0xb85e2ce9, 0x5ef50f24, 0xfb121210, 0x948d25b6, 0x961f4894]
  {
    hide *;
    ConstantRows();
    RoundsStart(InitialSha256, block);
    AbcRows(block);
    AbcRounds0();
    RoundsAhead(InitialSha256, block, 0);
    AbcRounds8();
    RoundsAhead(InitialSha256, block, 8);
    AbcRounds16();
    RoundsAhead(InitialSha256, block, 16);
    AbcRounds24();
    RoundsAhead(InitialSha256, block, 24);
    AbcRounds32();
    RoundsAhead(InitialSha256, block, 32);
    AbcRounds40();
    RoundsAhead(InitialSha256, block, 40);
    AbcRounds48();
    RoundsAhead(InitialSha256, block, 48);
    AbcRounds56();
    RoundsAhead(InitialSha256, block, 56);
  }

  lemma AbcSum()
    ensures AddStates(InitialSha256, [0x506e3058, 0xd39a2165, 0x04d24d6c, 0xb85e2ce9, 0x5ef50f24, 0xfb121210, 0x948d25b6, 0x961f4894])
         == [0xba7816bf, 0x8f01cfea, 0x414140de, 0x5dae2223, 0xb00361a3, 0x96177a9c, 0xb410ff61, 0xf20015ad]
  {
  }

  lemma AbcText()
    ensures WordText(0xba7816bf) == "ba7816bf"
    ensures WordText(0x8f01cfea) == "8f01cfea"
    ensures WordText(0x414140de) == "414140de"
    ensures WordText(0x5dae2223) == "5dae2223"
    ensures WordText(0xb00361a3) == "b00361a3"
    ensures WordText(0x96177a9c) == "96177a9c"
    ensures WordText(0xb410ff61) == "b410ff61"
    ensures WordText(0xf20015ad) == "f20015ad"
  {
  }

  /** The first example: the three letters abc. */
  lemma AbcHash()
    ensures HashText(true, Abc) == "ba7816bf" + "8f01cfea" + "414140de" + "5dae2223" + "b00361a3" + "96177a9c" + "b410ff61" + "f20015ad"
  {
    hide *;
    AbcWords();
    LettersLength();
    OneBlock(InitialSha256, Abc);
    AbcRounds(Padded(Abc));
    AbcSum();
    AbcText();
    HashTextIs(true, Abc);
    EightWords(Compress(InitialSha256, Padded(Abc)));
    CompressIs(InitialSha256, Padded(Abc));
  }

  lemma Abc224Rounds0()
    ensures EightRounds(InitialSha224, Constants0,
                        [0x61626380, 0x00000000, 0x00000000, 0x00000000, 0x00000000, 0x00000000, 0x00000000, 0x00000000])
         == [0xf09d116d, 0x0b6b9023, 0xb2ca3a91, 0x08a0dc0c, 0x7a84120d, 0xa2e49147, 0x898dc7bb, 0x05b557db]
  {
  }

  lemma Abc224Rounds8()
    ensures EightRounds([0xf09d116d, 0x0b6b9023, 0xb2ca3a91, 0x08a0dc0c, 0x7a84120d, 0xa2e49147, 0x898dc7bb, 0x05b557db], Constants8,
                        [0x00000000, 0x00000000, 0x00000000, 0x00000000, 0x00000000, 0x00000000, 0x00000000, 0x00000018])
         == [0x9f341a45, 0x1d80d178, 0xbe316902, 0xfc4f023e, 0x6a61c411, 0x4545f53a, 0x65141125, 0x87bea51a]
  {
  }

  lemma Abc224Rounds16()
    ensures EightRounds([0x9f341a45, 0x1d80d178, 0xbe316902, 0xfc4f023e, 0x6a61c411, 0x4545f53a, 0x65141125, 0x87bea51a], Constants16,
                        [0x61626380, 0x000f0000, 0x7da86405, 0x600003c6, 0x3e9d7b78, 0x0183fc00, 0x12dcbfdb, 0xe2e2c38e])
         == [0x57206fb8, 0xe62a812e, 0xdece98a4, 0x07d55ccb, 0xc76084ea, 0x28fe0fd9, 0x293ffb5d, 0x9ba5a6ea]
  {
  }

  lemma Abc224Rounds24()
    ensures EightRounds([0x57206fb8, 0xe62a812e, 0xdece98a4, 0x07d55ccb, 0xc76084ea, 0x28fe0fd9, 0x293ffb5d, 0x9ba5a6ea], Constants24,
                        [0xc8215c1a, 0xb73679a2, 0xe5bc3909, 0x32663c5b, 0x9d209d67, 0xec8726cb, 0x702138a4, 0xd3b7973b])
         == [0xcce1951d, 0x0d7cce07, 0xfe3c8658, 0x2d1576c4, 0x4be9475c, 0xa4a4a3a4, 0xfc4b36c5, 0x01641929]
  {
  }

  lemma Abc224Rounds32()
    ensures EightRounds([0xcce1951d, 0x0d7cce07, 0xfe3c8658, 0x2d1576c4, 0x4be9475c, 0xa4a4a3a4, 0xfc4b36c5, 0x01641929], Constants32,
                        [0x93f5997f, 0x3b68ba73, 0xaff4ffc1, 0xf10a5c62, 0x0a8b3996, 0x72af830a, 0x9409e33e, 0x24641522])
         == [0xf3c80288, 0x7902369c, 0x0d275ca8, 0x2a2e32f4, 0x00e3a7bb, 0xd9f8c2e0, 0xf6c39382, 0x22e15c59]
  {
  }

  lemma Abc224Rounds40()
    ensures EightRounds([0xf3c80288, 0x7902369c, 0x0d275ca8, 0x2a2e32f4, 0x00e3a7bb, 0xd9f8c2e0, 0xf6c39382, 0x22e15c59], Constants40,
                        [0x9f47bf94, 0xf0a64f5a, 0x3e246a79, 0x27333ba3, 0x0c4763f2, 0x840abf27, 0x7a290d5d, 0x065c43da])
         == [0x847ea00e, 0xfb3777d9, 0x131d4c09, 0xa3701bd9, 0x503a7b95, 0x1d601f44, 0xecb77e1b, 0xaf1bef5f]
  {
  }

  lemma Abc224Rounds48()
    ensures EightRounds([0x847ea00e, 0xfb3777d9, 0x131d4c09, 0xa3701bd9, 0x503a7b95, 0x1d601f44, 0xecb77e1b, 0xaf1bef5f], Constants48,
                        [0xfb3e89cb, 0xcc7617db, 0xb9e66c34, 0xa9993667, 0x84badedd, 0xc21462bc, 0x1487472c, 0xb20f7a99])
         == [0x8d25bd94, 0x909cc059, 0x308b8799, 0x0df9857a, 0x1273c622, 0x6f2a444a, 0x02524f02, 0x2d864d9f]
  {
  }

  lemma Abc224Rounds56()
    ensures EightRounds([0x8d25bd94, 0x909cc059, 0x308b8799, 0x0df9857a, 0x1273c622, 0x6f2a444a, 0x02524f02, 0x2d864d9f], Constants56,
                        [0xef57b9cd, 0xebe6b238, 0x9fe3095e, 0x78bc8d4b, 0xa43fcf15, 0x668b2ff8, 0xeeaba2cc, 0x12b1edeb])
         == [0x6203de4a, 0xfd89031b, 0x55d1c760, 0xc693fc7a, 0x2aedb1b3, 0x55489ee6, 0x7e730e00, 0x13dfb889]
  {
  }

  lemma Abc224Rounds(block: Block)
    requires Row(block, 0) == [0x61626380, 0x00000000, 0x00000000, 0x00000000, 0x00000000, 0x00000000, 0x00000000, 0x00000000]
    requires Row(block, 8) == [0x00000000, 0x00000000, 0x00000000, 0x00000000, 0x00000000, 0x00000000, 0x00000000, 0x00000018]
    ensures Rounds(InitialSha224, block, 64) == [0x6203de4a, 0xfd89031b, 0x55d1c760, 0xc693fc7a, 0x2aedb1b3, 0x55489ee6, 0x7e730e00, 0x13dfb889]
  {
    hide *;
    ConstantRows();
    RoundsStart(InitialSha224, block);
    AbcRows(block);
    Abc224Rounds0();
    RoundsAhead(InitialSha224, block, 0);
    Abc224Rounds8();
    RoundsAhead(InitialSha224, block, 8);
    Abc224Rounds16();
    RoundsAhead(InitialSha224, block, 16);
    Abc224Rounds24();
    RoundsAhead(InitialSha224, block, 24);
    Abc224Rounds32();
    RoundsAhead(InitialSha224, block, 32);
    Abc224Rounds40();
    RoundsAhead(InitialSha224, block, 40);
    Abc224Rounds48();
    RoundsAhead(InitialSha224, block, 48);
    Abc224Rounds56();
    RoundsAhead(InitialSha224, block, 56);
  }

  lemma Abc224Sum()
    ensures AddStates(InitialSha224, [0x6203de4a, 0xfd89031b, 0x55d1c760, 0xc693fc7a, 0x2aedb1b3, 0x55489ee6, 0x7e730e00, 0x13dfb889])
         == [0x23097d22, 0x3405d822, 0x8642a477, 0xbda255b3, 0x2aadbce4, 0xbda0b3f7, 0xe36c9da7, 0xd2da082d]
  {
  }

  lemma Abc224Text()
    ensures WordText(0x23097d22) == "23097d22"
    ensures WordText(0x3405d822) == "3405d822"
    ensures WordText(0x8642a477) == "8642a477"
    ensures WordText(0xbda255b3) == "bda255b3"
    ensures WordText(0x2aadbce4) == "2aadbce4"
    ensures WordText(0xbda0b3f7) == "bda0b3f7"
    ensures WordText(0xe36c9da7) == "e36c9da7"
  {
  }

  lemma AbcHash224()
    ensures HashText(false, Abc) == "23097d22" + "3405d822" + "8642a477" + "bda255b3" + "2aadbce4" + "bda0b3f7" + "e36c9da7"
  {
    hide *;
    AbcWords();
    LettersLength();
    OneBlock(InitialSha224, Abc);
    Abc224Rounds(Padded(Abc));
    Abc224Sum();
    Abc224Text();
    HashTextIs(false, Abc);
    SevenWords(Compress(InitialSha224, Padded(Abc)));
    CompressIs(InitialSha224, Padded(Abc));
  }

  lemma FirstRows(block: Block)
    requires Row(block, 0) == [0x61626364, 0x62636465, 0x63646566, 0x64656667, 0x65666768, 0x66676869, 0x6768696a, 0x68696a6b]
    requires Row(block, 8) == [0x696a6b6c, 0x6a6b6c6d, 0x6b6c6d6e, 0x6c6d6e6f, 0x6d6e6f70, 0x6e6f7071, 0x80000000, 0x00000000]
    ensures Row(block, 16) == [0xeb8012ad, 0xa7c3ae92, 0x76e93ba2, 0xba42e743, 0x92a92204, 0xd847e75e, 0x9e160036, 0xb280a7cb]
    ensures Row(block, 24) == [0xddeb1516, 0xf36586f4, 0x969cd048, 0xe959d99d, 0x6accc0ec, 0xf54cb098, 0x2af1b2da, 0xee59c4c9]
    ensures Row(block, 32) == [0xa835e16a, 0x1dff4429, 0xd6e15959, 0xc397cd6e, 0x6f1801ca, 0x21574205, 0x35ff7a84, 0x9743ee78]
    ensures Row(block, 40) == [0xe44183e7, 0x0d09f00d, 0x9c89af54, 0x042d5bef, 0x71f134d0, 0x0f94f463, 0x7e49dc63, 0x6f65c997]
    ensures Row(block, 48) == [0x0b706583, 0x179312ca, 0x503054e9, 0xba125c39, 0x7e9392c9, 0xd5cbaa1e, 0x78e0585d, 0xf6e7611c]
    ensures Row(block, 56) == [0x8ac830ce, 0x8b47a303, 0xfd6e627f, 0x8c6e2c6a, 0x4001adf1, 0x1a3dd097, 0xa9df6f62, 0x6aa60a39]
  {
    assert NextRow([0x61626364, 0x62636465, 0x63646566, 0x64656667, 0x65666768, 0x66676869, 0x6768696a, 0x68696a6b],
                   [0x696a6b6c, 0x6a6b6c6d, 0x6b6c6d6e, 0x6c6d6e6f, 0x6d6e6f70, 0x6e6f7071, 0x80000000, 0x00000000])
        == [0xeb8012ad, 0xa7c3ae92, 0x76e93ba2, 0xba42e743, 0x92a92204, 0xd847e75e, 0x9e160036, 0xb280a7cb];
    assert NextRow([0x696a6b6c, 0x6a6b6c6d, 0x6b6c6d6e, 0x6c6d6e6f, 0x6d6e6f70, 0x6e6f7071, 0x80000000, 0x00000000],
                   [0xeb8012ad, 0xa7c3ae92, 0x76e93ba2, 0xba42e743, 0x92a92204, 0xd847e75e, 0x9e160036, 0xb280a7cb])
        == [0xddeb1516, 0xf36586f4, 0x969cd048, 0xe959d99d, 0x6accc0ec, 0xf54cb098, 0x2af1b2da, 0xee59c4c9];
    assert NextRow([0xeb8012ad, 0xa7c3ae92, 0x76e93ba2, 0xba42e743, 0x92a92204, 0xd847e75e, 0x9e160036, 0xb280a7cb],
                   [0xddeb1516, 0xf36586f4, 0x969cd048, 0xe959d99d, 0x6accc0ec, 0xf54cb098, 0x2af1b2da, 0xee59c4c9])
        == [0xa835e16a, 0x1dff4429, 0xd6e15959, 0xc397cd6e, 0x6f1801ca, 0x21574205, 0x35ff7a84, 0x9743ee78];
    assert NextRow([0xddeb1516, 0xf36586f4, 0x969cd048, 0xe959d99d, 0x6accc0ec, 0xf54cb098, 0x2af1b2da, 0xee59c4c9],
                   [0xa835e16a, 0x1dff4429, 0xd6e15959, 0xc397cd6e, 0x6f1801ca, 0x21574205, 0x35ff7a84, 0x9743ee78])
        == [0xe44183e7, 0x0d09f00d, 0x9c89af54, 0x042d5bef, 0x71f134d0, 0x0f94f463, 0x7e49dc63, 0x6f65c997];
    assert NextRow([0xa835e16a, 0x1dff4429, 0xd6e15959, 0xc397cd6e, 0x6f1801ca, 0x21574205, 0x35ff7a84, 0x9743ee78],
                   [0xe44183e7, 0x0d09f00d, 0x9c89af54, 0x042d5bef, 0x71f134d0, 0x0f94f463, 0x7e49dc63, 0x6f65c997])
        == [0x0b706583, 0x179312ca, 0x503054e9, 0xba125c39, 0x7e9392c9, 0xd5cbaa1e, 0x78e0585d, 0xf6e7611c];
    assert NextRow([0xe44183e7, 0x0d09f00d, 0x9c89af54, 0x042d5bef, 0x71f134d0, 0x0f94f463, 0x7e49dc63, 0x6f65c997],
                   [0x0b706583, 0x179312ca, 0x503054e9, 0xba125c39, 0x7e9392c9, 0xd5cbaa1e, 0x78e0585d, 0xf6e7611c])
        == [0x8ac830ce, 0x8b47a303, 0xfd6e627f, 0x8c6e2c6a, 0x4001adf1, 0x1a3dd097, 0xa9df6f62, 0x6aa60a39];
    hide NextRow, Row;
    RowAhead(block, 16);
    RowAhead(block, 24);
    RowAhead(block, 32);
    RowAhead(block, 40);
    RowAhead(block, 48);
    RowAhead(block, 56);
  }

  lemma FirstRounds0()
    ensures EightRounds(InitialSha256, Constants0,
                        [0x61626364, 0x62636465, 0x63646566, 0x64656667, 0x65666768, 0x66676869, 0x6768696a, 0x68696a6b])
         == [0xd237e6db, 0x485835b7, 0x55c8ef48, 0xf921c212, 0xa401d211, 0x39a5b2ca, 0x7ff91c94, 0x05c4f88a]
  {
  }

  lemma FirstRounds8()
    ensures EightRounds([0xd237e6db, 0x485835b7, 0x55c8ef48, 0xf921c212, 0xa401d211, 0x39a5b2ca, 0x7ff91c94, 0x05c4f88a], Constants8,
                        [0x696a6b6c, 0x6a6b6c6d, 0x6b6c6d6e, 0x6c6d6e6f, 0x6d6e6f70, 0x6e6f7071, 0x80000000, 0x00000000])
         == [0xc3486194, 0xdd16cbb3, 0xd68e6457, 0x101a4861, 0x1496a54f, 0x9162aded, 0x9243f8af, 0x839a0fc9]
  {
  }

  lemma FirstRounds16()
    ensures EightRounds([0xc3486194, 0xdd16cbb3, 0xd68e6457, 0x101a4861, 0x1496a54f, 0x9162aded, 0x9243f8af, 0x839a0fc9], Constants16,
                        [0xeb8012ad, 0xa7c3ae92, 0x76e93ba2, 0xba42e743, 0x92a92204, 0xd847e75e, 0x9e160036, 0xb280a7cb])
         == [0x59fce6b9, 0xae2e2d4f, 0x1b2b66b8, 0xd70ac17d, 0xa2c7d51d, 0xf074fc95, 0xd560b028, 0x7cc6b262]
  {
  }

  lemma FirstRounds24()
    ensures EightRounds([0x59fce6b9, 0xae2e2d4f, 0x1b2b66b8, 0xd70ac17d, 0xa2c7d51d, 0xf074fc95, 0xd560b028, 0x7cc6b262], Constants24,
                        [0xddeb1516, 0xf36586f4, 0x969cd048, 0xe959d99d, 0x6accc0ec, 0xf54cb098, 0x2af1b2da, 0xee59c4c9])
         == [0x5581ab07, 0xeb43f3ed, 0xdf7151a0, 0x74bcf468, 0xdf980085, 0x0635d880, 0x7629c961, 0x72abaecd]
  {
  }

  lemma FirstRounds32()
    ensures EightRounds([0x5581ab07, 0xeb43f3ed, 0xdf7151a0, 0x74bcf468, 0xdf980085, 0x0635d880, 0x7629c961, 0x72abaecd], Constants32,
                        [0xa835e16a, 0x1dff4429, 0xd6e15959, 0xc397cd6e, 0x6f1801ca, 0x21574205, 0x35ff7a84, 0x9743ee78])
         == [0x7e4d30b8, 0x91ac9d5d, 0xa985b4be, 0x2c55d3a6, 0x9f5b9b6d, 0x68d8d590, 0xf72bf353, 0xb067c1af]
  {
  }

  lemma FirstRounds40()
    ensures EightRounds([0x7e4d30b8, 0x91ac9d5d, 0xa985b4be, 0x2c55d3a6, 0x9f5b9b6d, 0x68d8d590, 0xf72bf353, 0xb067c1af], Constants40,
                        [0xe44183e7, 0x0d09f00d, 0x9c89af54, 0x042d5bef, 0x71f134d0, 0x0f94f463, 0x7e49dc63, 0x6f65c997])
         == [0x13d82741, 0x165be9cd, 0x18f0d19d, 0xde71e2f2, 0xa7802a4d, 0xa483f080, 0x6b88472c, 0xff61c636]
  {
  }

  lemma FirstRounds48()
    ensures EightRounds([0x13d82741, 0x165be9cd, 0x18f0d19d, 0xde71e2f2, 0xa7802a4d, 0xa483f080, 0x6b88472c, 0xff61c636], Constants48,
                        [0x0b706583, 0x179312ca, 0x503054e9, 0xba125c39, 0x7e9392c9, 0xd5cbaa1e, 0x78e0585d, 0xf6e7611c])
         == [0x9e57c4a0, 0xf907b313, 0x1d6de87a, 0xb8d55619, 0xeec13548, 0x61a41711, 0x3443bed4, 0x1c806a61]
  {
  }

  lemma FirstRounds56()
    ensures EightRounds([0x9e57c4a0, 0xf907b313, 0x1d6de87a, 0xb8d55619, 0xeec13548, 0x61a41711, 0x3443bed4, 0x1c806a61], Constants56,
                        [0x8ac830ce, 0x8b47a303, 0xfd6e627f, 0x8c6e2c6a, 0x4001adf1, 0x1a3dd097, 0xa9df6f62, 0x6aa60a39])
         == [0x1bdc6f6f, 0x86126910, 0xf6f443f8, 0xbcfce922, 0x25d2430a, 0x2fc08f85, 0xacc75916, 0x962d8621]
  {
  }

  lemma FirstRounds(block: Block)
    requires Row(block, 0) == [0x61626364, 0x62636465, 0x63646566, 0x64656667, 0x65666768, 0x66676869, 0x6768696a, 0x68696a6b]
    requires Row(block, 8) == [0x696a6b6c, 0x6a6b6c6d, 0x6b6c6d6e, 0x6c6d6e6f, 0x6d6e6f70, 0x6e6f7071, 0x80000000, 0x00000000]
    ensures Rounds(InitialSha256, block, 64) == [0x1bdc6f6f, 0x86126910, 0xf6f443f8, 0xbcfce922, 0x25d2430a, 0x2fc08f85, 0xacc75916, 0x962d8621]
  {
    hide *;
    ConstantRows();
    RoundsStart(InitialSha256, block);
    FirstRows(block);
    FirstRounds0();
    RoundsAhead(InitialSha256, block, 0);
    FirstRounds8();
    RoundsAhead(InitialSha256, block, 8);
    FirstRounds16();
    RoundsAhead(InitialSha256, block, 16);
    FirstRounds24();
    RoundsAhead(InitialSha256, block, 24);
    FirstRounds32();
    RoundsAhead(InitialSha256, block, 32);
    FirstRounds40();
    RoundsAhead(InitialSha256, block, 40);
    FirstRounds48();
    RoundsAhead(InitialSha256, block, 48);
    FirstRounds56();
    RoundsAhead(InitialSha256, block, 56);
  }

  /** The state between the blocks of the second example. */
  const Middle: Words := [0x85e655d6, 0x417a1795, 0x3363376a, 0x624cde5c, 0x76e09589, 0xcac5f811, 0xcc4b32c1, 0xf20e533a]

  lemma FirstSum()
    ensures AddStates(InitialSha256, [0x1bdc6f6f, 0x86126910, 0xf6f443f8, 0xbcfce922, 0x25d2430a, 0x2fc08f85, 0xacc75916, 0x962d8621])
         == Middle
  {
  }

  lemma SecondRows(block: Block)
    requires Row(block, 0) == [0x00000000, 0x00000000, 0x00000000, 0x00000000, 0x00000000, 0x00000000, 0x00000000, 0x00000000]
    requires Row(block, 8) == [0x00000000, 0x00000000, 0x00000000, 0x00000000, 0x00000000, 0x00000000, 0x00000000, 0x000001c0]
    ensures Row(block, 16) == [0x00000000, 0x00d80000, 0x00000000, 0x00003677, 0x00000000, 0x1df5600d, 0x000001c0, 0x1c00501c]
    ensures Row(block, 24) == [0x01b00000, 0x220a8d94, 0x0000a365, 0x177017e7, 0x63d38035, 0x090ab713, 0x4c7539ca, 0x0f19a8c9]
    ensures Row(block, 32) == [0x5df4b0c4, 0xe257036a, 0xc97bb6f1, 0xc5b46f4d, 0xf8253c4e, 0xa558d189, 0x78696285, 0xed07117f]
    ensures Row(block, 40) == [0x107358f6, 0x390ae496, 0x565010a2, 0xc51d7d44, 0x9e74c972, 0x6614b561, 0x30fc129d, 0x9ac684a8]
    ensures Row(block, 48) == [0x2b658dbd, 0xe290f793, 0x9eebb24c, 0x9713b5de, 0x41061ab7, 0xe022e23b, 0x0772079e, 0x7de22d9c]
    ensures Row(block, 56) == [0xc8b83778, 0x75a79849, 0xd93dbddb, 0x0a036c9d, 0xcb4f6ac6, 0x823f97e2, 0xea2f2a7a, 0xb9018b52]
  {
    assert NextRow([0x00000000, 0x00000000, 0x00000000, 0x00000000, 0x00000000, 0x00000000, 0x00000000, 0x00000000],
                   [0x00000000, 0x00000000, 0x00000000, 0x00000000, 0x00000000, 0x00000000, 0x00000000, 0x000001c0])
        == [0x00000000, 0x00d80000, 0x00000000, 0x00003677, 0x00000000, 0x1df5600d, 0x000001c0, 0x1c00501c];
    assert NextRow([0x00000000, 0x00000000, 0x00000000, 0x00000000, 0x00000000, 0x00000000, 0x00000000, 0x000001c0],
                   [0x00000000, 0x00d80000, 0x00000000, 0x00003677, 0x00000000, 0x1df5600d, 0x000001c0, 0x1c00501c])
        == [0x01b00000, 0x220a8d94, 0x0000a365, 0x177017e7, 0x63d38035, 0x090ab713, 0x4c7539ca, 0x0f19a8c9];
    assert NextRow([0x00000000, 0x00d80000, 0x00000000, 0x00003677, 0x00000000, 0x1df5600d, 0x000001c0, 0x1c00501c],
                   [0x01b00000, 0x220a8d94, 0x0000a365, 0x177017e7, 0x63d38035, 0x090ab713, 0x4c7539ca, 0x0f19a8c9])
        == [0x5df4b0c4, 0xe257036a, 0xc97bb6f1, 0xc5b46f4d, 0xf8253c4e, 0xa558d189, 0x78696285, 0xed07117f];
    assert NextRow([0x01b00000, 0x220a8d94, 0x0000a365, 0x177017e7, 0x63d38035, 0x090ab713, 0x4c7539ca, 0x0f19a8c9],
                   [0x5df4b0c4, 0xe257036a, 0xc97bb6f1, 0xc5b46f4d, 0xf8253c4e, 0xa558d189, 0x78696285, 0xed07117f])
        == [0x107358f6, 0x390ae496, 0x565010a2, 0xc51d7d44, 0x9e74c972, 0x6614b561, 0x30fc129d, 0x9ac684a8];
    assert NextRow([0x5df4b0c4, 0xe257036a, 0xc97bb6f1, 0xc5b46f4d, 0xf8253c4e, 0xa558d189, 0x78696285, 0xed07117f],
                   [0x107358f6, 0x390ae496, 0x565010a2, 0xc51d7d44, 0x9e74c972, 0x6614b561, 0x30fc129d, 0x9ac684a8])
        == [0x2b658dbd, 0xe290f793, 0x9eebb24c, 0x9713b5de, 0x41061ab7, 0xe022e23b, 0x0772079e, 0x7de22d9c];
    assert NextRow([0x107358f6, 0x390ae496, 0x565010a2, 0xc51d7d44, 0x9e74c972, 0x6614b561, 0x30fc129d, 0x9ac684a8],
                   [0x2b658dbd, 0xe290f793, 0x9eebb24c, 0x9713b5de, 0x41061ab7, 0xe022e23b, 0x0772079e, 0x7de22d9c])
        == [0xc8b83778, 0x75a79849, 0xd93dbddb, 0x0a036c9d, 0xcb4f6ac6, 0x823f97e2, 0xea2f2a7a, 0xb9018b52];
    hide NextRow, Row;
    RowAhead(block, 16);
    RowAhead(block, 24);
    RowAhead(block, 32);
    RowAhead(block, 40);
    RowAhead(block, 48);
    RowAhead(block, 56);
  }

  lemma SecondRounds0()
    ensures EightRounds(Middle, Constants0,
                        [0x00000000, 0x00000000, 0x00000000, 0x00000000, 0x00000000, 0x00000000, 0x00000000, 0x00000000])
         == [0xbf9a93a0, 0x89bba3f1, 0x3eeb6c06, 0x185a5d79, 0x059abdd1, 0x0a34df03, 0xfe20cda6, 0x8dff3001]
  {
  }

  lemma SecondRounds8()
    ensures EightRounds([0xbf9a93a0, 0x89bba3f1, 0x3eeb6c06, 0x185a5d79, 0x059abdd1, 0x0a34df03, 0xfe20cda6, 0x8dff3001], Constants8,
                        [0x00000000, 0x00000000, 0x00000000, 0x00000000, 0x00000000, 0x00000000, 0x00000000, 0x000001c0])
         == [0x16a8cc79, 0x0cea5cbc, 0xd74080fa, 0x35ee996d, 0x0fcb1f6f, 0x60356548, 0x68aa893f, 0x5c24e2a2]
  {
  }

  lemma SecondRounds16()
    ensures EightRounds([0x16a8cc79, 0x0cea5cbc, 0xd74080fa, 0x35ee996d, 0x0fcb1f6f, 0x60356548, 0x68aa893f, 0x5c24e2a2], Constants16,
                        [0x00000000, 0x00d80000, 0x00000000, 0x00003677, 0x00000000, 0x1df5600d, 0x000001c0, 0x1c00501c])
         == [0xa4195b91, 0xf13ae55b, 0xd44dc81a, 0x20aad899, 0xeddbd6ed, 0x966aa287, 0x5bace62d, 0xcc4769f2]
  {
  }

  lemma SecondRounds24()
    ensures EightRounds([0xa4195b91, 0xf13ae55b, 0xd44dc81a, 0x20aad899, 0xeddbd6ed, 0x966aa287, 0x5bace62d, 0xcc4769f2], Constants24,
                        [0x01b00000, 0x220a8d94, 0x0000a365, 0x177017e7, 0x63d38035, 0x090ab713, 0x4c7539ca, 0x0f19a8c9])
         == [0xb0eab1c5, 0x02ef3a5f, 0x1cfa5eb0, 0xd958b529, 0xf6d93952, 0x5da10665, 0x6c49db9f, 0xc2fa99b1]
  {
  }

  lemma SecondRounds32()
    ensures EightRounds([0xb0eab1c5, 0x02ef3a5f, 0x1cfa5eb0, 0xd958b529, 0xf6d93952, 0x5da10665, 0x6c49db9f, 0xc2fa99b1], Constants32,
                        [0x5df4b0c4, 0xe257036a, 0xc97bb6f1, 0xc5b46f4d, 0xf8253c4e, 0xa558d189, 0x78696285, 0xed07117f])
         == [0x221b8a5a, 0xadca7a96, 0xd949682b, 0x2f11c939, 0x0b82c5eb, 0xc6cce4ff, 0x32d99008, 0xfed4ce1d]
  {
  }

  lemma SecondRounds40()
    ensures EightRounds([0x221b8a5a, 0xadca7a96, 0xd949682b, 0x2f11c939, 0x0b82c5eb, 0xc6cce4ff, 0x32d99008, 0xfed4ce1d], Constants40,
                        [0x107358f6, 0x390ae496, 0x565010a2, 0xc51d7d44, 0x9e74c972, 0x6614b561, 0x30fc129d, 0x9ac684a8])
         == [0xd7354d5b, 0x0b3303a7, 0x104a7db4, 0x0f154e11, 0xaad55b6b, 0xbbe1c39a, 0x5348e8f6, 0x6f9517cb]
  {
  }

  lemma SecondRounds48()
    ensures EightRounds([0xd7354d5b, 0x0b3303a7, 0x104a7db4, 0x0f154e11, 0xaad55b6b, 0xbbe1c39a, 0x5348e8f6, 0x6f9517cb], Constants48,
                        [0x2b658dbd, 0xe290f793, 0x9eebb24c, 0x9713b5de, 0x41061ab7, 0xe022e23b, 0x0772079e, 0x7de22d9c])
         == [0x92952710, 0xd9f0c115, 0xec02560a, 0x4eca6fa0, 0x226806d6, 0x624150c4, 0x7151df8e, 0x989ed071]
  {
  }

  lemma SecondRounds56()
    ensures EightRounds([0x92952710, 0xd9f0c115, 0xec02560a, 0x4eca6fa0, 0x226806d6, 0x624150c4, 0x7151df8e, 0x989ed071], Constants56,
                        [0xc8b83778, 0x75a79849, 0xd93dbddb, 0x0a036c9d, 0xcb4f6ac6, 0x823f97e2, 0xea2f2a7a, 0xb9018b52])
         == [0x9ea7148b, 0x908c2123, 0xb25cef29, 0xa9f181dd, 0x2c5c4ed0, 0x9a392956, 0x2aa1bb13, 0x27ccb387]
  {
  }

  lemma SecondRounds(block: Block)
    requires Row(block, 0) == [0x00000000, 0x00000000, 0x00000000, 0x00000000, 0x00000000, 0x00000000, 0x00000000, 0x00000000]
    requires Row(block, 8) == [0x00000000, 0x00000000, 0x00000000, 0x00000000, 0x00000000, 0x00000000, 0x00000000, 0x000001c0]
    ensures Rounds(Middle, block, 64) == [0x9ea7148b, 0x908c2123, 0xb25cef29, 0xa9f181dd, 0x2c5c4ed0, 0x9a392956, 0x2aa1bb13, 0x27ccb387]
  {
    hide *;
    ConstantRows();
    RoundsStart(Middle, block);
    SecondRows(block);
    SecondRounds0();
    RoundsAhead(Middle, block, 0);
    SecondRounds8();
    RoundsAhead(Middle, block, 8);
    SecondRounds16();
    RoundsAhead(Middle, block, 16);
    SecondRounds24();
    RoundsAhead(Middle, block, 24);
    SecondRounds32();
    RoundsAhead(Middle, block, 32);
    SecondRounds40();
    RoundsAhead(Middle, block, 40);
    SecondRounds48();
    RoundsAhead(Middle, block, 48);
    SecondRounds56();
    RoundsAhead(Middle, block, 56);
  }

  lemma SecondSum()
    ensures AddStates(Middle, [0x9ea7148b, 0x908c2123, 0xb25cef29, 0xa9f181dd, 0x2c5c4ed0, 0x9a392956, 0x2aa1bb13, 0x27ccb387])
         == [0x248d6a61, 0xd20638b8, 0xe5c02693, 0x0c3e6039, 0xa33ce459, 0x64ff2167, 0xf6ecedd4, 0x19db06c1]
  {
  }

  lemma LettersText()
    ensures WordText(0x248d6a61) == "248d6a61"
    ensures WordText(0xd20638b8) == "d20638b8"
    ensures WordText(0xe5c02693) == "e5c02693"
    ensures WordText(0x0c3e6039) == "0c3e6039"
    ensures WordText(0xa33ce459) == "a33ce459"
    ensures WordText(0x64ff2167) == "64ff2167"
    ensures WordText(0xf6ecedd4) == "f6ecedd4"
    ensures WordText(0x19db06c1) == "19db06c1"
  {
  }

  lemma FirstBlock(block: Block)
    requires Row(block, 0) == [0x61626364, 0x62636465, 0x63646566, 0x64656667, 0x65666768, 0x66676869, 0x6768696a, 0x68696a6b]
    requires Row(block, 8) == [0x696a6b6c, 0x6a6b6c6d, 0x6b6c6d6e, 0x6c6d6e6f, 0x6d6e6f70, 0x6e6f7071, 0x80000000, 0x00000000]
    ensures Compress(InitialSha256, block) == Middle
  {
    hide *;
    FirstSum();
    FirstRounds(block);
    CompressIs(InitialSha256, block);
  }

  /** The second example: 56 letters, so that the padding needs a second block. */
  lemma LettersHash()
    ensures HashText(true, Letters) == "248d6a61" + "d20638b8" + "e5c02693" + "0c3e6039" + "a33ce459" + "64ff2167" + "f6ecedd4" + "19db06c1"
  {
    hide *;
    LettersWords();
    LettersLength();
    TwoBlocks(InitialSha256, Letters);
    FirstBlock(Padded(Letters)[..64]);
    SecondRounds(Padded(Letters)[64..]);
    CompressIs(Middle, Padded(Letters)[64..]);
    SecondSum();
    LettersText();
    HashTextIs(true, Letters);
    EightWords(Compress(Middle, Padded(Letters)[64..]));
  }

  lemma LettersLength()
    ensures |Letters| == 56 && |Abc| == 3
  {
  }
}
