/** The digests of the two messages that the program checks itself on. Each makes one block. */
module Sha512Answers {
  import opened Sha512

  // ---------------------------------------------------------------- eight rounds at a time

  /** Eight words of the schedule, from number `t` on. */
  function Row(block: seq<bv8>, t: nat): (r: seq<bv64>)
    requires |block| == 128
    ensures |r| == 8
  {
    [Schedule(block, t), Schedule(block, t + 1), Schedule(block, t + 2), Schedule(block, t + 3),
     Schedule(block, t + 4), Schedule(block, t + 5), Schedule(block, t + 6), Schedule(block, t + 7)]
  }

  /** The word that comes 16 after `w16`. */
  function NextWord(w16: bv64, w15: bv64, w7: bv64, w2: bv64): bv64 {
    ScheduleSum(SmallSigma1(w2), w7, SmallSigma0(w15), w16)
  }

  /** The row after the rows `a` and `b`. */
  function NextRow(a: seq<bv64>, b: seq<bv64>): (r: seq<bv64>)
    requires |a| == 8 && |b| == 8
    ensures |r| == 8
  {
    var w0 := NextWord(a[0], a[1], b[1], b[6]);
    var w1 := NextWord(a[1], a[2], b[2], b[7]);
    var w2 := NextWord(a[2], a[3], b[3], w0);
    var w3 := NextWord(a[3], a[4], b[4], w1);
    var w4 := NextWord(a[4], a[5], b[5], w2);
    var w5 := NextWord(a[5], a[6], b[6], w3);
    var w6 := NextWord(a[6], a[7], b[7], w4);
    [w0, w1, w2, w3, w4, w5, w6, NextWord(a[7], b[0], w0, w5)]
  }

  lemma ScheduleNext(block: seq<bv8>, t: nat)
    requires |block| == 128 && t >= 16
    ensures Schedule(block, t) == NextWord(Schedule(block, t - 16), Schedule(block, t - 15), Schedule(block, t - 7), Schedule(block, t - 2))
  {
  }

  lemma RowAhead(block: seq<bv8>, t: nat)
    requires |block| == 128 && t >= 16
    ensures Row(block, t) == NextRow(Row(block, t - 16), Row(block, t - 8))
  {
    hide NextWord, Schedule;
    ScheduleNext(block, t);
    ScheduleNext(block, t + 1);
    ScheduleNext(block, t + 2);
    ScheduleNext(block, t + 3);
    ScheduleNext(block, t + 4);
    ScheduleNext(block, t + 5);
    ScheduleNext(block, t + 6);
    ScheduleNext(block, t + 7);
  }

  function EightRounds(v: seq<bv64>, k: seq<bv64>, w: seq<bv64>): (r: seq<bv64>)
    requires |v| == 8 && |k| == 8 && |w| == 8
    ensures |r| == 8
  {
    var v4 := Round(Round(Round(Round(v, k[0], w[0]), k[1], w[1]), k[2], w[2]), k[3], w[3]);
    Round(Round(Round(Round(v4, k[4], w[4]), k[5], w[5]), k[6], w[6]), k[7], w[7])
  }

  lemma RoundsAhead(state: seq<bv64>, block: seq<bv8>, t: nat)
    requires |state| == 8 && |block| == 128 && t + 8 <= 80
    ensures |Constants| == 80
    ensures Rounds(state, block, t + 8) == EightRounds(Rounds(state, block, t), Constants[t..t + 8], Row(block, t))
  {
    hide Round, Schedule, Constants, Rounds;
    ConstantRows();
    RoundNext(state, block, t);
    RoundNext(state, block, t + 1);
    RoundNext(state, block, t + 2);
    RoundNext(state, block, t + 3);
    RoundNext(state, block, t + 4);
    RoundNext(state, block, t + 5);
    RoundNext(state, block, t + 6);
    RoundNext(state, block, t + 7);
  }

  lemma RoundNext(state: seq<bv64>, block: seq<bv8>, t: nat)
    requires |state| == 8 && |block| == 128 && t < 80
    ensures |Constants| == 80
    ensures Rounds(state, block, t + 1) == Round(Rounds(state, block, t), Constants[t], Schedule(block, t))
  {
  }

  lemma ConstantRows()
    ensures |Constants| == 80 && Constants[0..8] == Constants0 && Constants[8..16] == Constants8
    ensures Constants[16..24] == Constants16 && Constants[24..32] == Constants24
    ensures Constants[32..40] == Constants32 && Constants[40..48] == Constants40
    ensures Constants[48..56] == Constants48 && Constants[56..64] == Constants56
    ensures Constants[64..72] == Constants64 && Constants[72..80] == Constants72
  {
  }

  lemma RoundsStart(state: seq<bv64>, block: seq<bv8>)
    requires |state| == 8 && |block| == 128
    ensures Rounds(state, block, 0) == state
  {
  }

  lemma StartLength()
    ensures |InitialSha512| == 8 && |Letters| == 10
  {
  }

  lemma CompressIs(state: seq<bv64>, block: seq<bv8>)
    requires |state| == 8 && |block| == 128
    ensures Compress(state, block) == AddStates(state, Rounds(state, block, 80))
  {
  }

  // ---------------------------------------------------------------- messages of one block

  /** A message that fits into one block, its end mark, zeros, and its length in bits, which is below 256. */
  function OneBlock(message: seq<bv8>, bits: bv8): (b: seq<bv8>)
    requires |message| < 120
    ensures |b| == 128
  {
    message + [0x80] + seq(126 - |message|, i => 0) + [bits]
  }

  lemma EmptyWords()
    ensures Row(OneBlock([], 0), 0) == [0x8000000000000000, 0x0000000000000000, 0x0000000000000000, 0x0000000000000000,
                                         0x0000000000000000, 0x0000000000000000, 0x0000000000000000, 0x0000000000000000]
    ensures Row(OneBlock([], 0), 8) == [0x0000000000000000, 0x0000000000000000, 0x0000000000000000, 0x0000000000000000,
                                         0x0000000000000000, 0x0000000000000000, 0x0000000000000000, 0x0000000000000000]
  {
    var b := OneBlock([], 0);
    assert b[0] == 0x80;
    assert forall i :: 1 <= i < 127 ==> b[i] == 0;
    assert b[127] == 0;
    hide OneBlock;
  }

  lemma EmptyNext16()
    ensures NextRow([0x8000000000000000, 0x0000000000000000, 0x0000000000000000, 0x0000000000000000,
                     0x0000000000000000, 0x0000000000000000, 0x0000000000000000, 0x0000000000000000],
                    [0x0000000000000000, 0x0000000000000000, 0x0000000000000000, 0x0000000000000000,
                     0x0000000000000000, 0x0000000000000000, 0x0000000000000000, 0x0000000000000000])
         == [0x8000000000000000, 0x0000000000000000, 0x0200100000000004, 0x0000000000000000,
             0x1008000002000020, 0x0000000000000000, 0x8004220110080140, 0x8000000000000000]
    ensures NextRow([0x0000000000000000, 0x0000000000000000, 0x0000000000000000, 0x0000000000000000,
                     0x0000000000000000, 0x0000000000000000, 0x0000000000000000, 0x0000000000000000],
                    [0x8000000000000000, 0x0000000000000000, 0x0200100000000004, 0x0000000000000000,
                     0x1008000002000020, 0x0000000000000000, 0x8004220110080140, 0x8000000000000000])
         == [0x0209108000400800, 0x0400200000000008, 0x1140a00320114028, 0x3018000006000060,
             0xa24500b1180a2042, 0x0010880440200500, 0xd4a945c2a4270995, 0x43ad128001402810]
    ensures NextRow([0x8000000000000000, 0x0000000000000000, 0x0200100000000004, 0x0000000000000000,
                     0x1008000002000020, 0x0000000000000000, 0x8004220110080140, 0x8000000000000000],
                    [0x0209108000400800, 0x0400200000000008, 0x1140a00320114028, 0x3018000006000060,
                     0xa24500b1180a2042, 0x0010880440200500, 0xd4a945c2a4270995, 0x43ad128001402810])
         == [0xcb2a519703108414, 0x2faad072c8658034, 0x7d14cc9b14ba8338, 0x9867c5d3eb13eeff,
             0xc94dc04c92359678, 0x92aba5ae1ee4675d, 0x00b560cd2d362129, 0x682916bbbf1eb0d9]
    ensures NextRow([0x0209108000400800, 0x0400200000000008, 0x1140a00320114028, 0x3018000006000060,
                     0xa24500b1180a2042, 0x0010880440200500, 0xd4a945c2a4270995, 0x43ad128001402810],
                    [0xcb2a519703108414, 0x2faad072c8658034, 0x7d14cc9b14ba8338, 0x9867c5d3eb13eeff,
                     0xc94dc04c92359678, 0x92aba5ae1ee4675d, 0x00b560cd2d362129, 0x682916bbbf1eb0d9])
         == [0xfd4ce54fb9c1fca2, 0x389bbafedf01a2ff, 0xf80ad4187a704534, 0xfc8a6db46b916fab,
             0x0009308c4ca7d22b, 0x49437d8543e9c98c, 0x67f19b9756071662, 0x23d1b6fd5980db71]
  {
  }

  lemma EmptyNext48()
    ensures NextRow([0xcb2a519703108414, 0x2faad072c8658034, 0x7d14cc9b14ba8338, 0x9867c5d3eb13eeff,
                     0xc94dc04c92359678, 0x92aba5ae1ee4675d, 0x00b560cd2d362129, 0x682916bbbf1eb0d9],
                    [0xfd4ce54fb9c1fca2, 0x389bbafedf01a2ff, 0xf80ad4187a704534, 0xfc8a6db46b916fab,
                     0x0009308c4ca7d22b, 0x49437d8543e9c98c, 0x67f19b9756071662, 0x23d1b6fd5980db71])
         == [0x044afa0ab38edb37, 0x332fd4ee79f5c755, 0xa55aa02bebfa6ad4, 0xd7c6eb0c613c793a,
             0x0d8e6b8077ea417c, 0xd647ca451bde7ccb, 0xb69eec4d0e03246f, 0xc913f017b2ac853a]
    ensures NextRow([0xfd4ce54fb9c1fca2, 0x389bbafedf01a2ff, 0xf80ad4187a704534, 0xfc8a6db46b916fab,
                     0x0009308c4ca7d22b, 0x49437d8543e9c98c, 0x67f19b9756071662, 0x23d1b6fd5980db71],
                    [0x044afa0ab38edb37, 0x332fd4ee79f5c755, 0xa55aa02bebfa6ad4, 0xd7c6eb0c613c793a,
                     0x0d8e6b8077ea417c, 0xd647ca451bde7ccb, 0xb69eec4d0e03246f, 0xc913f017b2ac853a])
         == [0x66221af93a4225bb, 0x022066fa965f2dbf, 0x98519af83ac7c4d8, 0xa9d9b257ea80f60f,
             0xb741f8b59c416c21, 0xa3de4a86a2cdbefb, 0xa6e929fabf4b5fa6, 0xeabfcd669f8d15a1]
    ensures NextRow([0x044afa0ab38edb37, 0x332fd4ee79f5c755, 0xa55aa02bebfa6ad4, 0xd7c6eb0c613c793a,
                     0x0d8e6b8077ea417c, 0xd647ca451bde7ccb, 0xb69eec4d0e03246f, 0xc913f017b2ac853a],
                    [0x66221af93a4225bb, 0x022066fa965f2dbf, 0x98519af83ac7c4d8, 0xa9d9b257ea80f60f,
                     0xb741f8b59c416c21, 0xa3de4a86a2cdbefb, 0xa6e929fabf4b5fa6, 0xeabfcd669f8d15a1])
         == [0x31543abe8df78e7b, 0x47a4d932de3912aa, 0x1b7b74730d955557, 0x28479d455a812eb7,
             0x43e290aa2b8dfbb6, 0x9a10daa95e094e1f, 0xa29f4d3f35e6a04f, 0xfe50fb8c257b666d]
    ensures NextRow([0x66221af93a4225bb, 0x022066fa965f2dbf, 0x98519af83ac7c4d8, 0xa9d9b257ea80f60f,
                     0xb741f8b59c416c21, 0xa3de4a86a2cdbefb, 0xa6e929fabf4b5fa6, 0xeabfcd669f8d15a1],
                    [0x31543abe8df78e7b, 0x47a4d932de3912aa, 0x1b7b74730d955557, 0x28479d455a812eb7,
                     0x43e290aa2b8dfbb6, 0x9a10daa95e094e1f, 0xa29f4d3f35e6a04f, 0xfe50fb8c257b666d])
         == [0xae5728a117562e4e, 0x50cf3b85bd608790, 0x5079b89b7ec0f5d2, 0x80fe6c2f41147099,
             0x1894833281bc069b, 0xc700f022a13b0ea9, 0x3eaf74f620ad78f6, 0xd7df914dd9a9f0f1]
  {
  }

  lemma EmptyRows(block: seq<bv8>)
    requires |block| == 128
    requires Row(block, 0) == [0x8000000000000000, 0x0000000000000000, 0x0000000000000000, 0x0000000000000000,
                             0x0000000000000000, 0x0000000000000000, 0x0000000000000000, 0x0000000000000000]
    requires Row(block, 8) == [0x0000000000000000, 0x0000000000000000, 0x0000000000000000, 0x0000000000000000,
                             0x0000000000000000, 0x0000000000000000, 0x0000000000000000, 0x0000000000000000]
    ensures Row(block, 16) == [0x8000000000000000, 0x0000000000000000, 0x0200100000000004, 0x0000000000000000,
                             0x1008000002000020, 0x0000000000000000, 0x8004220110080140, 0x8000000000000000]
    ensures Row(block, 24) == [0x0209108000400800, 0x0400200000000008, 0x1140a00320114028, 0x3018000006000060,
                             0xa24500b1180a2042, 0x0010880440200500, 0xd4a945c2a4270995, 0x43ad128001402810]
    ensures Row(block, 32) == [0xcb2a519703108414, 0x2faad072c8658034, 0x7d14cc9b14ba8338, 0x9867c5d3eb13eeff,
                             0xc94dc04c92359678, 0x92aba5ae1ee4675d, 0x00b560cd2d362129, 0x682916bbbf1eb0d9]
    ensures Row(block, 40) == [0xfd4ce54fb9c1fca2, 0x389bbafedf01a2ff, 0xf80ad4187a704534, 0xfc8a6db46b916fab,
                             0x0009308c4ca7d22b, 0x49437d8543e9c98c, 0x67f19b9756071662, 0x23d1b6fd5980db71]
    ensures Row(block, 48) == [0x044afa0ab38edb37, 0x332fd4ee79f5c755, 0xa55aa02bebfa6ad4, 0xd7c6eb0c613c793a,
                             0x0d8e6b8077ea417c, 0xd647ca451bde7ccb, 0xb69eec4d0e03246f, 0xc913f017b2ac853a]
    ensures Row(block, 56) == [0x66221af93a4225bb, 0x022066fa965f2dbf, 0x98519af83ac7c4d8, 0xa9d9b257ea80f60f,
                             0xb741f8b59c416c21, 0xa3de4a86a2cdbefb, 0xa6e929fabf4b5fa6, 0xeabfcd669f8d15a1]
    ensures Row(block, 64) == [0x31543abe8df78e7b, 0x47a4d932de3912aa, 0x1b7b74730d955557, 0x28479d455a812eb7,
                             0x43e290aa2b8dfbb6, 0x9a10daa95e094e1f, 0xa29f4d3f35e6a04f, 0xfe50fb8c257b666d]
    ensures Row(block, 72) == [0xae5728a117562e4e, 0x50cf3b85bd608790, 0x5079b89b7ec0f5d2, 0x80fe6c2f41147099,
                             0x1894833281bc069b, 0xc700f022a13b0ea9, 0x3eaf74f620ad78f6, 0xd7df914dd9a9f0f1]
  {
    hide NextRow, Row;
    EmptyNext16();
    EmptyNext48();
    RowAhead(block, 16);
    RowAhead(block, 24);
    RowAhead(block, 32);
    RowAhead(block, 40);
    RowAhead(block, 48);
    RowAhead(block, 56);
    RowAhead(block, 64);
    RowAhead(block, 72);
  }

  lemma EmptyRounds0()
    ensures EightRounds(InitialSha512, Constants0,
                        [0x8000000000000000, 0x0000000000000000, 0x0000000000000000, 0x0000000000000000,
                         0x0000000000000000, 0x0000000000000000, 0x0000000000000000, 0x0000000000000000])
         == [0xb6ebe3c1a54b1646, 0x1202378991eade0b, 0x6fc0e4fa6b7a37d4, 0x7b106b2039c2a013,
             0xfad061f165f4581a, 0xfb1f7bb0107c9863, 0x0d3dba50748dd615, 0x80a32a9395b2cc58]
  {
  }

  lemma EmptyRounds8()
    ensures EightRounds([0xb6ebe3c1a54b1646, 0x1202378991eade0b, 0x6fc0e4fa6b7a37d4, 0x7b106b2039c2a013,
                         0xfad061f165f4581a, 0xfb1f7bb0107c9863, 0x0d3dba50748dd615, 0x80a32a9395b2cc58], Constants8,
                        [0x0000000000000000, 0x0000000000000000, 0x0000000000000000, 0x0000000000000000,
                         0x0000000000000000, 0x0000000000000000, 0x0000000000000000, 0x0000000000000000])
         == [0xa5f08b4a7affe8e8, 0x920495cd2d45797c, 0x2e2be4efc75663e8, 0xda1e551c529d1e69,
             0xe5160ae31a6299af, 0x7e4dcdc149fcd98c, 0xeaf933d283254d99, 0xa9f8b05d1ca3b369]
  {
  }

  lemma EmptyRounds16()
    ensures EightRounds([0xa5f08b4a7affe8e8, 0x920495cd2d45797c, 0x2e2be4efc75663e8, 0xda1e551c529d1e69,
                         0xe5160ae31a6299af, 0x7e4dcdc149fcd98c, 0xeaf933d283254d99, 0xa9f8b05d1ca3b369], Constants16,
                        [0x8000000000000000, 0x0000000000000000, 0x0200100000000004, 0x0000000000000000,
                         0x1008000002000020, 0x0000000000000000, 0x8004220110080140, 0x8000000000000000])
         == [0x9d3870832f2dce51, 0xc4c14d6ffee37f33, 0x2289df32ba57b91c, 0xc1ba63abb5ce35b6,
             0x7991f1f7c2ffc545, 0x2a87942b6f9a6aff, 0x2326397066c33509, 0x8f2dd6950955e862]
  {
  }

  lemma EmptyRounds24()
    ensures EightRounds([0x9d3870832f2dce51, 0xc4c14d6ffee37f33, 0x2289df32ba57b91c, 0xc1ba63abb5ce35b6,
                         0x7991f1f7c2ffc545, 0x2a87942b6f9a6aff, 0x2326397066c33509, 0x8f2dd6950955e862], Constants24,
                        [0x0209108000400800, 0x0400200000000008, 0x1140a00320114028, 0x3018000006000060,
                         0xa24500b1180a2042, 0x0010880440200500, 0xd4a945c2a4270995, 0x43ad128001402810])
         == [0xc1162d5e11cfafbd, 0x82b00e962d450c2b, 0xf10ec39e001ed05e, 0xac530e9ff2770564,
             0xc77a6dc35cc1eee3, 0x03ecbc02726dba71, 0x56894279d8babba4, 0x273619982546300e]
  {
  }

  lemma EmptyRounds32()
    ensures EightRounds([0xc1162d5e11cfafbd, 0x82b00e962d450c2b, 0xf10ec39e001ed05e, 0xac530e9ff2770564,
                         0xc77a6dc35cc1eee3, 0x03ecbc02726dba71, 0x56894279d8babba4, 0x273619982546300e], Constants32,
                        [0xcb2a519703108414, 0x2faad072c8658034, 0x7d14cc9b14ba8338, 0x9867c5d3eb13eeff,
                         0xc94dc04c92359678, 0x92aba5ae1ee4675d, 0x00b560cd2d362129, 0x682916bbbf1eb0d9])
         == [0xeee1192d6f7b0289, 0xb975a488793a5ae3, 0xb91c2dda3c20b18d, 0x07cfce9d590959dd,
             0x1582e10b23b64cae, 0x027a0c6eed080e1a, 0x034681389bcc5cdf, 0xdf56b7ba5e33f68a]
  {
  }

  lemma EmptyRounds40()
    ensures EightRounds([0xeee1192d6f7b0289, 0xb975a488793a5ae3, 0xb91c2dda3c20b18d, 0x07cfce9d590959dd,
                         0x1582e10b23b64cae, 0x027a0c6eed080e1a, 0x034681389bcc5cdf, 0xdf56b7ba5e33f68a], Constants40,
                        [0xfd4ce54fb9c1fca2, 0x389bbafedf01a2ff, 0xf80ad4187a704534, 0xfc8a6db46b916fab,
                         0x0009308c4ca7d22b, 0x49437d8543e9c98c, 0x67f19b9756071662, 0x23d1b6fd5980db71])
         == [0x60161066005269ed, 0x36194be3de28da53, 0x3c0fb62a570c3263, 0x7a4f4d6be6fbdbc6,
             0x4f5298e83d4f391c, 0xca4e3959811ff9a4, 0x4c816cf998e6ac0f, 0xe88378524ea091b8]
  {
  }

  lemma EmptyRounds48()
    ensures EightRounds([0x60161066005269ed, 0x36194be3de28da53, 0x3c0fb62a570c3263, 0x7a4f4d6be6fbdbc6,
                         0x4f5298e83d4f391c, 0xca4e3959811ff9a4, 0x4c816cf998e6ac0f, 0xe88378524ea091b8], Constants48,
                        [0x044afa0ab38edb37, 0x332fd4ee79f5c755, 0xa55aa02bebfa6ad4, 0xd7c6eb0c613c793a,
                         0x0d8e6b8077ea417c, 0xd647ca451bde7ccb, 0xb69eec4d0e03246f, 0xc913f017b2ac853a])
         == [0x00133382e6452733, 0xc7443e07f909e37b, 0x3b5a586f582eee77, 0xf5e3835ce50cc3fa,
             0xb2e52d673b3f4e02, 0x3de3df27d19f9f4b, 0x85b527d5d583be76, 0x86d1f823af3dc130]
  {
  }

  lemma EmptyRounds56()
    ensures EightRounds([0x00133382e6452733, 0xc7443e07f909e37b, 0x3b5a586f582eee77, 0xf5e3835ce50cc3fa,
                         0xb2e52d673b3f4e02, 0x3de3df27d19f9f4b, 0x85b527d5d583be76, 0x86d1f823af3dc130], Constants56,
                        [0x66221af93a4225bb, 0x022066fa965f2dbf, 0x98519af83ac7c4d8, 0xa9d9b257ea80f60f,
                         0xb741f8b59c416c21, 0xa3de4a86a2cdbefb, 0xa6e929fabf4b5fa6, 0xeabfcd669f8d15a1])
         == [0xe8714bfa97e042ca, 0x64a49e3eddfeb162, 0x64dabf682b24168d, 0x836ea49fef04bf7d,
             0x52f1f7d1aac02237, 0x7779f9b21cfc8a23, 0xc97ba2ca5b3ce60d, 0x750c66ad5179b45f]
  {
  }

  lemma EmptyRounds64()
    ensures EightRounds([0xe8714bfa97e042ca, 0x64a49e3eddfeb162, 0x64dabf682b24168d, 0x836ea49fef04bf7d,
                         0x52f1f7d1aac02237, 0x7779f9b21cfc8a23, 0xc97ba2ca5b3ce60d, 0x750c66ad5179b45f], Constants64,
                        [0x31543abe8df78e7b, 0x47a4d932de3912aa, 0x1b7b74730d955557, 0x28479d455a812eb7,
                         0x43e290aa2b8dfbb6, 0x9a10daa95e094e1f, 0xa29f4d3f35e6a04f, 0xfe50fb8c257b666d])
         == [0x5a45916d3b423293, 0xea5385568d13eed9, 0x2b806e9ae0909816, 0x64bbbd7b96caea1f,
             0xb03281f7eb096c01, 0x7fad7cc708e2670d, 0x4fd96b138a463c6e, 0xc2cd77a04299eabe]
  {
  }

  lemma EmptyRounds72()
    ensures EightRounds([0x5a45916d3b423293, 0xea5385568d13eed9, 0x2b806e9ae0909816, 0x64bbbd7b96caea1f,
                         0xb03281f7eb096c01, 0x7fad7cc708e2670d, 0x4fd96b138a463c6e, 0xc2cd77a04299eabe], Constants72,
                        [0xae5728a117562e4e, 0x50cf3b85bd608790, 0x5079b89b7ec0f5d2, 0x80fe6c2f41147099,
                         0x1894833281bc069b, 0xc700f022a13b0ea9, 0x3eaf74f620ad78f6, 0xd7df914dd9a9f0f1])
         == [0x6579facd8b32efb5, 0x35ec79cb51a2d8cc, 0x99b1f0920cc21db1, 0xdea4b3e7744fb2dd,
             0xf6c27ebcaf9f6fdf, 0x647db0465c408010, 0x443558114bffbd16, 0x49576561e5a9b8c5]
  {
  }

  lemma EmptySum()
    ensures AddStates(InitialSha512, [0x6579facd8b32efb5, 0x35ec79cb51a2d8cc, 0x99b1f0920cc21db1, 0xdea4b3e7744fb2dd,
                                   0xf6c27ebcaf9f6fdf, 0x647db0465c408010, 0x443558114bffbd16, 0x49576561e5a9b8c5])
         == [0xcf83e1357eefb8bd, 0xf1542850d66d8007, 0xd620e4050b5715dc, 0x83f4a921d36ce9ce,
             0x47d0d13c5d85f2b0, 0xff8318d2877eec2f, 0x63b931bd47417a81, 0xa538327af927da3e]
  {
  }

  lemma EmptyRounds(block: seq<bv8>)
    requires |block| == 128
    requires Row(block, 0) == [0x8000000000000000, 0x0000000000000000, 0x0000000000000000, 0x0000000000000000,
                             0x0000000000000000, 0x0000000000000000, 0x0000000000000000, 0x0000000000000000]
    requires Row(block, 8) == [0x0000000000000000, 0x0000000000000000, 0x0000000000000000, 0x0000000000000000,
                             0x0000000000000000, 0x0000000000000000, 0x0000000000000000, 0x0000000000000000]
    ensures |InitialSha512| == 8
    ensures Rounds(InitialSha512, block, 80) == [0x6579facd8b32efb5, 0x35ec79cb51a2d8cc, 0x99b1f0920cc21db1, 0xdea4b3e7744fb2dd,
                                              0xf6c27ebcaf9f6fdf, 0x647db0465c408010, 0x443558114bffbd16, 0x49576561e5a9b8c5]
  {
    hide *;
    ConstantRows();
    StartLength();
    RoundsStart(InitialSha512, block);
    EmptyRows(block);
    EmptyRounds0();
    RoundsAhead(InitialSha512, block, 0);
    EmptyRounds8();
    RoundsAhead(InitialSha512, block, 8);
    EmptyRounds16();
    RoundsAhead(InitialSha512, block, 16);
    EmptyRounds24();
    RoundsAhead(InitialSha512, block, 24);
    EmptyRounds32();
    RoundsAhead(InitialSha512, block, 32);
    EmptyRounds40();
    RoundsAhead(InitialSha512, block, 40);
    EmptyRounds48();
    RoundsAhead(InitialSha512, block, 48);
    EmptyRounds56();
    RoundsAhead(InitialSha512, block, 56);
    EmptyRounds64();
    RoundsAhead(InitialSha512, block, 64);
    EmptyRounds72();
    RoundsAhead(InitialSha512, block, 72);
  }

  /** The digest of the empty message. */
  lemma EmptyHash()
    ensures |InitialSha512| == 8
    ensures Compress(InitialSha512, OneBlock([], 0))
         == [0xcf83e1357eefb8bd, 0xf1542850d66d8007, 0xd620e4050b5715dc, 0x83f4a921d36ce9ce,
             0x47d0d13c5d85f2b0, 0xff8318d2877eec2f, 0x63b931bd47417a81, 0xa538327af927da3e]
  {
    hide *;
    StartLength();
    EmptyWords();
    var block := OneBlock([], 0);
    EmptyRounds(block);
    EmptySum();
    CompressIs(InitialSha512, block);
  }

  // ---------------------------------------------------------------- the other message

  const Letters: seq<bv8> := [0xd0, 0xb3, 0xd0, 0xbe, 0xd0, 0xb2, 0xd0, 0xbd, 0xd0, 0xbe]

  lemma LettersWords()
    ensures Row(OneBlock(Letters, 80), 0) == [0xd0b3d0bed0b2d0bd, 0xd0be800000000000, 0x0000000000000000, 0x0000000000000000,
                                         0x0000000000000000, 0x0000000000000000, 0x0000000000000000, 0x0000000000000000]
    ensures Row(OneBlock(Letters, 80), 8) == [0x0000000000000000, 0x0000000000000000, 0x0000000000000000, 0x0000000000000000,
                                         0x0000000000000000, 0x0000000000000000, 0x0000000000000000, 0x0000000000000050]
  {
    var b := OneBlock(Letters, 80);
    assert b[0] == 0xd0;
    assert b[1] == 0xb3;
    assert b[2] == 0xd0;
    assert b[3] == 0xbe;
    assert b[4] == 0xd0;
    assert b[5] == 0xb2;
    assert b[6] == 0xd0;
    assert b[7] == 0xbd;
    assert b[8] == 0xd0;
    assert b[9] == 0xbe;
    assert b[10] == 0x80;
    assert forall i :: 11 <= i < 127 ==> b[i] == 0;
    assert b[127] == 80;
    hide OneBlock;
  }

  lemma LettersNext16()
    ensures NextRow([0xd0b3d0bed0b2d0bd, 0xd0be800000000000, 0x0000000000000000, 0x0000000000000000,
                     0x0000000000000000, 0x0000000000000000, 0x0000000000000000, 0x0000000000000000],
                    [0x0000000000000000, 0x0000000000000000, 0x0000000000000000, 0x0000000000000000,
                     0x0000000000000000, 0x0000000000000000, 0x0000000000000000, 0x0000000000000050])
         == [0x39e2543ed0b2d0bd, 0xd0c8800000000281, 0x95e28f9a345394bd, 0x8557181910001404,
             0xdfd444539bbead34, 0x2a2d0c0207438274, 0x287be8771b11e0b5, 0x5b70a5a464342dfd]
    ensures NextRow([0x0000000000000000, 0x0000000000000000, 0x0000000000000000, 0x0000000000000000,
                     0x0000000000000000, 0x0000000000000000, 0x0000000000000000, 0x0000000000000050],
                    [0x39e2543ed0b2d0bd, 0xd0c8800000000281, 0x95e28f9a345394bd, 0x8557181910001404,
                     0xdfd444539bbead34, 0x2a2d0c0207438274, 0x287be8771b11e0b5, 0x5b70a5a464342dfd])
         == [0x5030891679eda3ca, 0xf539d475d8d8c898, 0xba14d8aa97a87be4, 0x92dd9eabc6ea4a32,
             0x075f0d76934baeb3, 0x065db9f646ae6116, 0xfaa41d0f05f2b770, 0x70c20f98006ddd2a]
    ensures NextRow([0x39e2543ed0b2d0bd, 0xd0c8800000000281, 0x95e28f9a345394bd, 0x8557181910001404,
                     0xdfd444539bbead34, 0x2a2d0c0207438274, 0x287be8771b11e0b5, 0x5b70a5a464342dfd],
                    [0x5030891679eda3ca, 0xf539d475d8d8c898, 0xba14d8aa97a87be4, 0x92dd9eabc6ea4a32,
                     0x075f0d76934baeb3, 0x065db9f646ae6116, 0xfaa41d0f05f2b770, 0x70c20f98006ddd2a])
         == [0x1755a98d39af2c80, 0x3da2f3ee6eba1b72, 0xcf44bb8feb1c68b4, 0x95cfd77d6ed7564f,
             0x3ba946d8d853dd6d, 0x8cf717239bca3f5e, 0x8f9ceff4835ac77d, 0x780f1920573ae2ee]
    ensures NextRow([0x5030891679eda3ca, 0xf539d475d8d8c898, 0xba14d8aa97a87be4, 0x92dd9eabc6ea4a32,
                     0x075f0d76934baeb3, 0x065db9f646ae6116, 0xfaa41d0f05f2b770, 0x70c20f98006ddd2a],
                    [0x1755a98d39af2c80, 0x3da2f3ee6eba1b72, 0xcf44bb8feb1c68b4, 0x95cfd77d6ed7564f,
                     0x3ba946d8d853dd6d, 0x8cf717239bca3f5e, 0x8f9ceff4835ac77d, 0x780f1920573ae2ee])
         == [0x978ddb33afd28ceb, 0x1b081baa5411ece9, 0xba6bf61e310b468f, 0xe4df2b8e7bf89dc2,
             0x62e2472ff7108f7f, 0xd92b08d1615b3813, 0x8d19d44b5521ba74, 0x4121a694ea24519f]
  {
  }

  lemma LettersNext48()
    ensures NextRow([0x1755a98d39af2c80, 0x3da2f3ee6eba1b72, 0xcf44bb8feb1c68b4, 0x95cfd77d6ed7564f,
                     0x3ba946d8d853dd6d, 0x8cf717239bca3f5e, 0x8f9ceff4835ac77d, 0x780f1920573ae2ee],
                    [0x978ddb33afd28ceb, 0x1b081baa5411ece9, 0xba6bf61e310b468f, 0xe4df2b8e7bf89dc2,
                     0x62e2472ff7108f7f, 0xd92b08d1615b3813, 0x8d19d44b5521ba74, 0x4121a694ea24519f])
         == [0xfca9b8c352801ce6, 0x4d3cd4313bd0f3dc, 0x1da1625246406667, 0x5ff452d2ec17faf6,
             0x107457023a48d1d7, 0xd6f34a5bee6a5ca4, 0x3d27bf8809334222, 0x958c5300a274634d]
    ensures NextRow([0x978ddb33afd28ceb, 0x1b081baa5411ece9, 0xba6bf61e310b468f, 0xe4df2b8e7bf89dc2,
                     0x62e2472ff7108f7f, 0xd92b08d1615b3813, 0x8d19d44b5521ba74, 0x4121a694ea24519f],
                    [0xfca9b8c352801ce6, 0x4d3cd4313bd0f3dc, 0x1da1625246406667, 0x5ff452d2ec17faf6,
                     0x107457023a48d1d7, 0xd6f34a5bee6a5ca4, 0x3d27bf8809334222, 0x958c5300a274634d])
         == [0xcb00ea795ee82247, 0xaf01e10a7073f18b, 0x2b06e6afdc092236, 0xc8ac0226d851f35c,
             0xb5b276822c762c1c, 0xc197c0debba8404a, 0xccc0c46ae5935fd9, 0xad24b97b957b765e]
    ensures NextRow([0xfca9b8c352801ce6, 0x4d3cd4313bd0f3dc, 0x1da1625246406667, 0x5ff452d2ec17faf6,
                     0x107457023a48d1d7, 0xd6f34a5bee6a5ca4, 0x3d27bf8809334222, 0x958c5300a274634d],
                    [0xcb00ea795ee82247, 0xaf01e10a7073f18b, 0x2b06e6afdc092236, 0xc8ac0226d851f35c,
                     0xb5b276822c762c1c, 0xc197c0debba8404a, 0xccc0c46ae5935fd9, 0xad24b97b957b765e])
         == [0xb4c2e311311a066e, 0x67949a0ec066372e, 0xa3715fb4b0489c86, 0x7090cfb9df6ad24e,
             0xaaa6b5898c6bf326, 0xbf96b6ad765cb42b, 0x9ac11a47836a6cf7, 0x56fb4257ca0f1046]
    ensures NextRow([0xcb00ea795ee82247, 0xaf01e10a7073f18b, 0x2b06e6afdc092236, 0xc8ac0226d851f35c,
                     0xb5b276822c762c1c, 0xc197c0debba8404a, 0xccc0c46ae5935fd9, 0xad24b97b957b765e],
                    [0xb4c2e311311a066e, 0x67949a0ec066372e, 0xa3715fb4b0489c86, 0x7090cfb9df6ad24e,
                     0xaaa6b5898c6bf326, 0xbf96b6ad765cb42b, 0x9ac11a47836a6cf7, 0x56fb4257ca0f1046])
         == [0x2a049c3b6c0e04ae, 0xcafaeea3a6375fc0, 0x64c0e269e0fb7121, 0x795f2d83d803cabb,
             0xea82c1bc9d0111fc, 0x4cd97e2337c7e93e, 0xa2a4d3eb37efbed4, 0xa7c4e9deca8bd8f7]
  {
  }

  lemma LettersRows(block: seq<bv8>)
    requires |block| == 128
    requires Row(block, 0) == [0xd0b3d0bed0b2d0bd, 0xd0be800000000000, 0x0000000000000000, 0x0000000000000000,
                             0x0000000000000000, 0x0000000000000000, 0x0000000000000000, 0x0000000000000000]
    requires Row(block, 8) == [0x0000000000000000, 0x0000000000000000, 0x0000000000000000, 0x0000000000000000,
                             0x0000000000000000, 0x0000000000000000, 0x0000000000000000, 0x0000000000000050]
    ensures Row(block, 16) == [0x39e2543ed0b2d0bd, 0xd0c8800000000281, 0x95e28f9a345394bd, 0x8557181910001404,
                             0xdfd444539bbead34, 0x2a2d0c0207438274, 0x287be8771b11e0b5, 0x5b70a5a464342dfd]
    ensures Row(block, 24) == [0x5030891679eda3ca, 0xf539d475d8d8c898, 0xba14d8aa97a87be4, 0x92dd9eabc6ea4a32,
                             0x075f0d76934baeb3, 0x065db9f646ae6116, 0xfaa41d0f05f2b770, 0x70c20f98006ddd2a]
    ensures Row(block, 32) == [0x1755a98d39af2c80, 0x3da2f3ee6eba1b72, 0xcf44bb8feb1c68b4, 0x95cfd77d6ed7564f,
                             0x3ba946d8d853dd6d, 0x8cf717239bca3f5e, 0x8f9ceff4835ac77d, 0x780f1920573ae2ee]
    ensures Row(block, 40) == [0x978ddb33afd28ceb, 0x1b081baa5411ece9, 0xba6bf61e310b468f, 0xe4df2b8e7bf89dc2,
                             0x62e2472ff7108f7f, 0xd92b08d1615b3813, 0x8d19d44b5521ba74, 0x4121a694ea24519f]
    ensures Row(block, 48) == [0xfca9b8c352801ce6, 0x4d3cd4313bd0f3dc, 0x1da1625246406667, 0x5ff452d2ec17faf6,
                             0x107457023a48d1d7, 0xd6f34a5bee6a5ca4, 0x3d27bf8809334222, 0x958c5300a274634d]
    ensures Row(block, 56) == [0xcb00ea795ee82247, 0xaf01e10a7073f18b, 0x2b06e6afdc092236, 0xc8ac0226d851f35c,
                             0xb5b276822c762c1c, 0xc197c0debba8404a, 0xccc0c46ae5935fd9, 0xad24b97b957b765e]
    ensures Row(block, 64) == [0xb4c2e311311a066e, 0x67949a0ec066372e, 0xa3715fb4b0489c86, 0x7090cfb9df6ad24e,
                             0xaaa6b5898c6bf326, 0xbf96b6ad765cb42b, 0x9ac11a47836a6cf7, 0x56fb4257ca0f1046]
    ensures Row(block, 72) == [0x2a049c3b6c0e04ae, 0xcafaeea3a6375fc0, 0x64c0e269e0fb7121, 0x795f2d83d803cabb,
                             0xea82c1bc9d0111fc, 0x4cd97e2337c7e93e, 0xa2a4d3eb37efbed4, 0xa7c4e9deca8bd8f7]
  {
    hide NextRow, Row;
    LettersNext16();
    LettersNext48();
    RowAhead(block, 16);
    RowAhead(block, 24);
    RowAhead(block, 32);
    RowAhead(block, 40);
    RowAhead(block, 48);
    RowAhead(block, 56);
    RowAhead(block, 64);
    RowAhead(block, 72);
  }

  lemma LettersRounds0()
    ensures EightRounds(InitialSha512, Constants0,
                        [0xd0b3d0bed0b2d0bd, 0xd0be800000000000, 0x0000000000000000, 0x0000000000000000,
                         0x0000000000000000, 0x0000000000000000, 0x0000000000000000, 0x0000000000000000])
         == [0x8a4e93d15e457636, 0xf47237000460511b, 0x70f116761df07929, 0xc935f9f8c8f06593,
             0x658cf6909a350432, 0x821c7b9bd8af0bac, 0x0b002da3f1f0be8b, 0x50e600147ca7996f]
  {
  }

  lemma LettersRounds8()
    ensures EightRounds([0x8a4e93d15e457636, 0xf47237000460511b, 0x70f116761df07929, 0xc935f9f8c8f06593,
                         0x658cf6909a350432, 0x821c7b9bd8af0bac, 0x0b002da3f1f0be8b, 0x50e600147ca7996f], Constants8,
                        [0x0000000000000000, 0x0000000000000000, 0x0000000000000000, 0x0000000000000000,
                         0x0000000000000000, 0x0000000000000000, 0x0000000000000000, 0x0000000000000050])
         == [0xbfc41ff5b2f33169, 0xc549c07d4d0055ec, 0x324c44c3718849b8, 0x121474f4613a81ca,
             0x4f05f25102019254, 0x0f18b87975e10c08, 0x704a51bfd692a453, 0x00a7ef0c0f065260]
  {
  }

  lemma LettersRounds16()
    ensures EightRounds([0xbfc41ff5b2f33169, 0xc549c07d4d0055ec, 0x324c44c3718849b8, 0x121474f4613a81ca,
                         0x4f05f25102019254, 0x0f18b87975e10c08, 0x704a51bfd692a453, 0x00a7ef0c0f065260], Constants16,
                        [0x39e2543ed0b2d0bd, 0xd0c8800000000281, 0x95e28f9a345394bd, 0x8557181910001404,
                         0xdfd444539bbead34, 0x2a2d0c0207438274, 0x287be8771b11e0b5, 0x5b70a5a464342dfd])
         == [0x79a82527f1cb3a9e, 0xc1e3b66778fe08da, 0x24f2e74d11220e83, 0x94ea7e87aa75b749,
             0x0e2ea78b40c87d29, 0x4c884788fef2b14f, 0xa8ea4a6780cdf40d, 0x0c2ac1ce9595afd4]
  {
  }

  lemma LettersRounds24()
    ensures EightRounds([0x79a82527f1cb3a9e, 0xc1e3b66778fe08da, 0x24f2e74d11220e83, 0x94ea7e87aa75b749,
                         0x0e2ea78b40c87d29, 0x4c884788fef2b14f, 0xa8ea4a6780cdf40d, 0x0c2ac1ce9595afd4], Constants24,
                        [0x5030891679eda3ca, 0xf539d475d8d8c898, 0xba14d8aa97a87be4, 0x92dd9eabc6ea4a32,
                         0x075f0d76934baeb3, 0x065db9f646ae6116, 0xfaa41d0f05f2b770, 0x70c20f98006ddd2a])
         == [0x84bee7595419813f, 0xdfe6b0f46eea512e, 0x58ce3628d21616bd, 0xd35a012fcfdbacb7,
             0x795c0bcd6f7890e7, 0x7e92d79d6bb4873c, 0xd181e6a7ed9a5446, 0x36d854c047455213]
  {
  }

  lemma LettersRounds32()
    ensures EightRounds([0x84bee7595419813f, 0xdfe6b0f46eea512e, 0x58ce3628d21616bd, 0xd35a012fcfdbacb7,
                         0x795c0bcd6f7890e7, 0x7e92d79d6bb4873c, 0xd181e6a7ed9a5446, 0x36d854c047455213], Constants32,
                        [0x1755a98d39af2c80, 0x3da2f3ee6eba1b72, 0xcf44bb8feb1c68b4, 0x95cfd77d6ed7564f,
                         0x3ba946d8d853dd6d, 0x8cf717239bca3f5e, 0x8f9ceff4835ac77d, 0x780f1920573ae2ee])
         == [0x7c848fe6954a71e7, 0x90fff406466cefe8, 0x936ef3b53cb37ce5, 0x252500ca0959c0cb,
             0xa3131bb7af0571eb, 0x81f58eb101f4f14a, 0x56251a7618f7bcca, 0xd3976c36b08f55f0]
  {
  }

  lemma LettersRounds40()
    ensures EightRounds([0x7c848fe6954a71e7, 0x90fff406466cefe8, 0x936ef3b53cb37ce5, 0x252500ca0959c0cb,
                         0xa3131bb7af0571eb, 0x81f58eb101f4f14a, 0x56251a7618f7bcca, 0xd3976c36b08f55f0], Constants40,
                        [0x978ddb33afd28ceb, 0x1b081baa5411ece9, 0xba6bf61e310b468f, 0xe4df2b8e7bf89dc2,
                         0x62e2472ff7108f7f, 0xd92b08d1615b3813, 0x8d19d44b5521ba74, 0x4121a694ea24519f])
         == [0x0f7547b853bac6f8, 0xde4e2b029d367da6, 0x24accb7249a3a44e, 0x7278239bc525b056,
             0xb6b316cb39f4f19d, 0xdea48846f4177210, 0xccf2a2c7eac9917a, 0xf3ba4262e114a072]
  {
  }

  lemma LettersRounds48()
    ensures EightRounds([0x0f7547b853bac6f8, 0xde4e2b029d367da6, 0x24accb7249a3a44e, 0x7278239bc525b056,
                         0xb6b316cb39f4f19d, 0xdea48846f4177210, 0xccf2a2c7eac9917a, 0xf3ba4262e114a072], Constants48,
                        [0xfca9b8c352801ce6, 0x4d3cd4313bd0f3dc, 0x1da1625246406667, 0x5ff452d2ec17faf6,
                         0x107457023a48d1d7, 0xd6f34a5bee6a5ca4, 0x3d27bf8809334222, 0x958c5300a274634d])
         == [0x3caf8bdabce4bbf3, 0x1e8b7743d1b430e3, 0x8abb707f03ea3652, 0xeaaa71ef7484a6a0,
             0xc7c1959d2c4d6bf2, 0x4df3a2a91fc18df6, 0x233ed33c44aba684, 0x467ed6c3bf9aa0e2]
  {
  }

  lemma LettersRounds56()
    ensures EightRounds([0x3caf8bdabce4bbf3, 0x1e8b7743d1b430e3, 0x8abb707f03ea3652, 0xeaaa71ef7484a6a0,
                         0xc7c1959d2c4d6bf2, 0x4df3a2a91fc18df6, 0x233ed33c44aba684, 0x467ed6c3bf9aa0e2], Constants56,
                        [0xcb00ea795ee82247, 0xaf01e10a7073f18b, 0x2b06e6afdc092236, 0xc8ac0226d851f35c,
                         0xb5b276822c762c1c, 0xc197c0debba8404a, 0xccc0c46ae5935fd9, 0xad24b97b957b765e])
         == [0xeca05933d08f2f04, 0xd4117ffa20fbc3e6, 0xe3ad621b1ad5090b, 0x61e2e6c02d182f6f,
             0xc903a53c54010511, 0x04c7aa4c3bc3aa11, 0x8193058ec6e1cf07, 0x19aea5f951694210]
  {
  }

  lemma LettersRounds64()
    ensures EightRounds([0xeca05933d08f2f04, 0xd4117ffa20fbc3e6, 0xe3ad621b1ad5090b, 0x61e2e6c02d182f6f,
                         0xc903a53c54010511, 0x04c7aa4c3bc3aa11, 0x8193058ec6e1cf07, 0x19aea5f951694210], Constants64,
                        [0xb4c2e311311a066e, 0x67949a0ec066372e, 0xa3715fb4b0489c86, 0x7090cfb9df6ad24e,
                         0xaaa6b5898c6bf326, 0xbf96b6ad765cb42b, 0x9ac11a47836a6cf7, 0x56fb4257ca0f1046])
         == [0x5758024124dd35f5, 0xeeddf71049b24e38, 0x45d5db7156bebe68, 0xd3583bcad5d52fe5,
             0xf2869be593465af6, 0x1fe73b46ec339e35, 0xad62c4820c2dcd0f, 0xd96c3979963f54df]
  {
  }

  lemma LettersRounds72()
    ensures EightRounds([0x5758024124dd35f5, 0xeeddf71049b24e38, 0x45d5db7156bebe68, 0xd3583bcad5d52fe5,
                         0xf2869be593465af6, 0x1fe73b46ec339e35, 0xad62c4820c2dcd0f, 0xd96c3979963f54df], Constants72,
                        [0x2a049c3b6c0e04ae, 0xcafaeea3a6375fc0, 0x64c0e269e0fb7121, 0x795f2d83d803cabb,
                         0xea82c1bc9d0111fc, 0x4cd97e2337c7e93e, 0xa2a4d3eb37efbed4, 0xa7c4e9deca8bd8f7])
         == [0x777309419a3deb5c, 0x9ba03cd438d1b8cf, 0xd6e9808fc8ce0bdc, 0xf21bd7034b275725,
             0x1d93128ccf601e5e, 0xc80206ab325ef31a, 0x5b69b7f4f33e6be2, 0x0723061d665089f9]
  {
  }

  lemma LettersSum()
    ensures AddStates(InitialSha512, [0x777309419a3deb5c, 0x9ba03cd438d1b8cf, 0xd6e9808fc8ce0bdc, 0xf21bd7034b275725,
                                   0x1d93128ccf601e5e, 0xc80206ab325ef31a, 0x5b69b7f4f33e6be2, 0x0723061d665089f9])
         == [0xe17cefa98dfab464, 0x5707eb59bd9c600a, 0x13587402c7630407, 0x976bcc3daa448e16,
             0x6ea1650c7d46a12f, 0x63076f375d9d5f39, 0x7aed91a0ee80294d, 0x6303d33679ceab72]
  {
  }

  lemma LettersRounds(block: seq<bv8>)
    requires |block| == 128
    requires Row(block, 0) == [0xd0b3d0bed0b2d0bd, 0xd0be800000000000, 0x0000000000000000, 0x0000000000000000,
                             0x0000000000000000, 0x0000000000000000, 0x0000000000000000, 0x0000000000000000]
    requires Row(block, 8) == [0x0000000000000000, 0x0000000000000000, 0x0000000000000000, 0x0000000000000000,
                             0x0000000000000000, 0x0000000000000000, 0x0000000000000000, 0x0000000000000050]
    ensures |InitialSha512| == 8
    ensures Rounds(InitialSha512, block, 80) == [0x777309419a3deb5c, 0x9ba03cd438d1b8cf, 0xd6e9808fc8ce0bdc, 0xf21bd7034b275725,
                                              0x1d93128ccf601e5e, 0xc80206ab325ef31a, 0x5b69b7f4f33e6be2, 0x0723061d665089f9]
  {
    hide *;
    ConstantRows();
    StartLength();
    RoundsStart(InitialSha512, block);
    LettersRows(block);
    LettersRounds0();
    RoundsAhead(InitialSha512, block, 0);
    LettersRounds8();
    RoundsAhead(InitialSha512, block, 8);
    LettersRounds16();
    RoundsAhead(InitialSha512, block, 16);
    LettersRounds24();
    RoundsAhead(InitialSha512, block, 24);
    LettersRounds32();
    RoundsAhead(InitialSha512, block, 32);
    LettersRounds40();
    RoundsAhead(InitialSha512, block, 40);
    LettersRounds48();
    RoundsAhead(InitialSha512, block, 48);
    LettersRounds56();
    RoundsAhead(InitialSha512, block, 56);
    LettersRounds64();
    RoundsAhead(InitialSha512, block, 64);
    LettersRounds72();
    RoundsAhead(InitialSha512, block, 72);
  }

  /** The digest of the other message, ten bytes long. */
  lemma LettersHash()
    ensures |InitialSha512| == 8
    ensures Compress(InitialSha512, OneBlock(Letters, 80))
         == [0xe17cefa98dfab464, 0x5707eb59bd9c600a, 0x13587402c7630407, 0x976bcc3daa448e16,
             0x6ea1650c7d46a12f, 0x63076f375d9d5f39, 0x7aed91a0ee80294d, 0x6303d33679ceab72]
  {
    hide *;
    StartLength();
    LettersWords();
    var block := OneBlock(Letters, 80);
    LettersRounds(block);
    LettersSum();
    CompressIs(InitialSha512, block);
  }
}
