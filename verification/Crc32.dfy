/** CRC-32: the generated table, the byte loop over it, and the checksum one bit at a time. */
module Crc32 {
  import opened Common

  const Polynomial: bv32 := 0xedb88320

  // ---------------------------------------------------------------- operations on the register

  function Xor(a: bv32, b: bv32): bv32 {
    a ^ b
  }

  /** One place to the right. */
  function Half(c: bv32): bv32 {
    c >> 1
  }

  function Low(c: bv32): bv32 {
    c & 1
  }

  function LowByte(c: bv32): bv32 {
    c & 0xFF
  }

  function UpperBytes(c: bv32): bv32 {
    c >> 8
  }

  /** What is mixed in when the bit that falls out is set. */
  function Feedback(bit: bv32): bv32 {
    if bit == 1 then Polynomial else 0
  }

  lemma XorLaws(a: bv32, b: bv32, c: bv32)
    ensures Xor(Xor(a, b), c) == Xor(a, Xor(b, c)) && Xor(a, b) == Xor(b, a)
    ensures Xor(a, a) == 0 && Xor(a, 0) == a && Xor(0, a) == a
  {
  }

  lemma XorCancels(p: bv32, a: bv32, b: bv32)
    requires Xor(p, a) == Xor(p, b)
    ensures a == b
  {
    assert p ^ (p ^ a) == a;
    assert p ^ (p ^ b) == b;
  }

  lemma XorShuffle(p: bv32, a: bv32, q: bv32, b: bv32)
    ensures Xor(Xor(p, a), Xor(q, b)) == Xor(Xor(p, q), Xor(a, b))
  {
    hide Xor;
    XorLaws(p, a, Xor(q, b));
    XorLaws(a, q, b);
    XorLaws(q, a, b);
    XorLaws(p, q, Xor(a, b));
  }

  lemma HalfXor(a: bv32, b: bv32)
    ensures Half(Xor(a, b)) == Xor(Half(a), Half(b))
  {
  }

  lemma LowXor(a: bv32, b: bv32)
    ensures (Low(a) == 0 || Low(a) == 1) && Low(Xor(a, Low(b))) == Low(Xor(a, b))
    ensures Low(Xor(a, b)) == if Low(a) == Low(b) then 0 else 1
  {
  }

  // ---------------------------------------------------------------- the table

  /** `repeat` shifts of one element. */
  function Generate(element: bv32, repeat: nat): (r: bv32)
    decreases repeat
  {
    if repeat == 0 then element else Generate(Shift(element), repeat - 1)
  }

  function Shift(c: bv32): bv32 {
    Xor(Feedback(Low(c)), Half(c))
  }

  function Entry(x: nat): bv32
    requires x < 0x1_0000_0000
  {
    Generate(x as bv32, 8)
  }

  /** The chain of macros: each level writes the level below twice, the second time for the arguments
      further on by half its own width. */
  function Expand(x: nat, width: nat): (t: seq<bv32>)
    requires x + width < 0x1_0000_0000
    decreases width
  {
    if width <= 1 then [Entry(x)] else Expand(x, width / 2) + Expand(x + width / 2, width / 2)
  }

  function LookupTable(): (t: seq<bv32>) {
    Expand(0, 256)
  }

  lemma {:induction false} ExpandEntries(x: nat, width: nat, i: nat)
    requires x + width < 0x1_0000_0000 && PowerOfTwo(width) && i < width
    ensures |Expand(x, width)| == width && Expand(x, width)[i] == Entry(x + i)
    decreases width
  {
    hide Entry;
    if width > 1 {
      var half := width / 2;
      ExpandEntries(x, half, if i < half then i else 0);
      ExpandEntries(x + half, half, if i < half then 0 else i - half);
    }
  }

  /** Entry number `k` of the table is the element `k` shifted eight times. */
  lemma TableEntry(c: bv32)
    ensures |LookupTable()| == 256 && 0 <= LowByte(c) as int < 256
    ensures LookupTable()[LowByte(c) as int] == Generate(LowByte(c), 8)
  {
    ByteRange(c);
    Powers();
    hide LowByte, Expand;
    ExpandEntries(0, 256, LowByte(c) as int);
  }

  lemma ByteRange(c: bv32)
    ensures 0 <= LowByte(c) as int < 256 && (LowByte(c) as int) as bv32 == LowByte(c)
  {
  }

  lemma Powers()
    ensures PowerOfTwo(256)
  {
    assert PowerOfTwo(2) && PowerOfTwo(4) && PowerOfTwo(8) && PowerOfTwo(16) && PowerOfTwo(32) && PowerOfTwo(64) && PowerOfTwo(128);
  }

  // ---------------------------------------------------------------- one bit at a time

  /** The reflected division step: the incoming bit is compared with the lowest one. */
  function Feed(crc: bv32, bit: bv32): bv32 {
    Xor(Feedback(Low(Xor(crc, bit))), Half(crc))
  }

  /** The lowest `n` bits of `x`, from the lowest on. */
  function FeedBits(crc: bv32, x: bv32, n: nat): (r: bv32)
    decreases n
  {
    if n == 0 then crc else FeedBits(Feed(crc, Low(x)), Half(x), n - 1)
  }

  function FeedBytes(crc: bv32, bytes: seq<bv8>): (r: bv32)
    decreases |bytes|
  {
    if bytes == [] then crc else FeedBits(FeedBytes(crc, bytes[..|bytes| - 1]), bytes[|bytes| - 1] as bv32, 8)
  }

  /** The checksum of section 8 of RFC 1952. */
  function Checksum(bytes: seq<bv8>): (r: bv32) {
    Xor(FeedBytes(0xFFFFFFFF, bytes), 0xFFFFFFFF)
  }

  /** Shifting with the input already mixed in is feeding its lowest bit and mixing in the rest. */
  lemma ShiftIsFeed(crc: bv32, x: bv32)
    ensures Shift(Xor(crc, x)) == Xor(Feed(crc, Low(x)), Half(x))
  {
    hide Xor, Half, Low, Feedback;
    LowXor(crc, x);
    HalfXor(crc, x);
    XorLaws(Feedback(Low(Xor(crc, x))), Half(crc), Half(x));
  }

  function Shifted(x: bv32, n: nat): bv32
    decreases n
  {
    if n == 0 then x else Shifted(Half(x), n - 1)
  }

  lemma {:induction false} GenerateFeeds(crc: bv32, x: bv32, n: nat)
    ensures Generate(Xor(crc, x), n) == Xor(FeedBits(crc, x, n), Shifted(x, n))
    decreases n
  {
    hide Shift, Feed, Xor, Half, Low;
    if n > 0 {
      ShiftIsFeed(crc, x);
      GenerateFeeds(Feed(crc, Low(x)), Half(x), n - 1);
    }
  }

  lemma EightShifts(x: bv32)
    ensures Shifted(x, 8) == UpperBytes(x)
  {
    hide Shifted, Half;
    var x1 := Half(x);
    var x2 := Half(x1);
    var x3 := Half(x2);
    var x4 := Half(x3);
    var x5 := Half(x4);
    var x6 := Half(x5);
    var x7 := Half(x6);
    OneShift(x, 8);
    OneShift(x1, 7);
    OneShift(x2, 6);
    OneShift(x3, 5);
    OneShift(x4, 4);
    OneShift(x5, 3);
    OneShift(x6, 2);
    OneShift(x7, 1);
    OneShift(Half(x7), 0);
    EightHalves(x);
  }

  lemma OneShift(x: bv32, n: nat)
    ensures Shifted(x, n) == if n == 0 then x else Shifted(Half(x), n - 1)
  {
  }

  lemma EightHalves(x: bv32)
    ensures Half(Half(Half(Half(Half(Half(Half(Half(x)))))))) == UpperBytes(x)
  {
  }

  // ---------------------------------------------------------------- eight shifts at once

  /** A shift is linear over exclusive or. */
  lemma ShiftLinear(a: bv32, b: bv32)
    ensures Shift(Xor(a, b)) == Xor(Shift(a), Shift(b))
  {
    FeedbackXor(a, b);
    hide Xor, Half, Low, Feedback;
    HalfXor(a, b);
    XorShuffle(Feedback(Low(a)), Half(a), Feedback(Low(b)), Half(b));
  }

  lemma FeedbackXor(a: bv32, b: bv32)
    ensures Feedback(Low(Xor(a, b))) == Xor(Feedback(Low(a)), Feedback(Low(b)))
  {
    hide Xor, Low;
    LowXor(a, b);
    LowXor(b, a);
    XorLaws(Polynomial, 0, 0);
    XorLaws(0, 0, 0);
  }

  lemma {:induction false} GenerateLinear(a: bv32, b: bv32, n: nat)
    ensures Generate(Xor(a, b), n) == Xor(Generate(a, n), Generate(b, n))
    decreases n
  {
    hide Shift, Xor;
    if n > 0 {
      ShiftLinear(a, b);
      GenerateLinear(Shift(a), Shift(b), n - 1);
    }
  }

  /** The lowest `n` bits are clear. */
  predicate Clear(c: bv32, n: nat)
    decreases n
  {
    n == 0 || (Low(c) == 0 && Clear(Half(c), n - 1))
  }

  /** While the lowest bits are clear shifting only moves. */
  lemma {:induction false} ClearMoves(c: bv32, n: nat)
    requires Clear(c, n)
    ensures Generate(c, n) == Shifted(c, n)
    decreases n
  {
    hide Xor, Half, Low;
    if n > 0 {
      XorLaws(Half(c), 0, 0);
      ClearMoves(Half(c), n - 1);
    }
  }

  function WithoutLowByte(c: bv32): bv32 {
    c & 0xFFFFFF00
  }

  lemma SplitByte(c: bv32)
    ensures Xor(WithoutLowByte(c), LowByte(c)) == c && UpperBytes(WithoutLowByte(c)) == UpperBytes(c)
  {
  }

  lemma UpperIsClear(c: bv32)
    ensures Clear(WithoutLowByte(c), 8)
  {
    hide Clear, Half, Low;
    var x := WithoutLowByte(c);
    var x1 := Half(x);
    var x2 := Half(x1);
    var x3 := Half(x2);
    var x4 := Half(x3);
    var x5 := Half(x4);
    var x6 := Half(x5);
    var x7 := Half(x6);
    ClearStep(Half(x7), 0);
    ClearStep(x7, 1);
    ClearStep(x6, 2);
    ClearStep(x5, 3);
    ClearStep(x4, 4);
    ClearStep(x3, 5);
    ClearStep(x2, 6);
    ClearStep(x1, 7);
    ClearStep(x, 8);
    LowBitsClear(c);
  }

  lemma ClearStep(c: bv32, n: nat)
    ensures Clear(c, n) <==> n == 0 || (Low(c) == 0 && Clear(Half(c), n - 1))
  {
  }

  lemma LowBitsClear(c: bv32)
    ensures var x := WithoutLowByte(c);
            && Low(x) == 0 && Low(Half(x)) == 0 && Low(Half(Half(x))) == 0 && Low(Half(Half(Half(x)))) == 0
            && Low(Half(Half(Half(Half(x))))) == 0 && Low(Half(Half(Half(Half(Half(x)))))) == 0
            && Low(Half(Half(Half(Half(Half(Half(x))))))) == 0 && Low(Half(Half(Half(Half(Half(Half(Half(x)))))))) == 0
  {
  }

  /** Eight shifts move the upper bytes down and replace the lowest by its table entry. */
  lemma ByteByByte(c: bv32)
    ensures Generate(c, 8) == Xor(UpperBytes(c), Generate(LowByte(c), 8))
  {
    hide Generate, Shifted, Clear, Xor, WithoutLowByte, LowByte, UpperBytes;
    SplitByte(c);
    GenerateLinear(WithoutLowByte(c), LowByte(c), 8);
    UpperIsClear(c);
    ClearMoves(WithoutLowByte(c), 8);
    EightShifts(WithoutLowByte(c));
  }

  lemma ByteDoesNotReach(crc: bv32, b: bv8)
    ensures UpperBytes(Xor(crc, b as bv32)) == UpperBytes(crc) && UpperBytes(b as bv32) == 0
  {
  }

  /** One step of the byte loop is eight steps of the bit loop. */
  lemma TableStep(crc: bv32, b: bv8)
    ensures Xor(UpperBytes(crc), Generate(LowByte(Xor(crc, b as bv32)), 8)) == FeedBits(crc, b as bv32, 8)
  {
    var x := b as bv32;
    ByteDoesNotReach(crc, b);
    hide Generate, FeedBits, Shifted, Xor, UpperBytes, LowByte;
    ByteByByte(Xor(crc, x));
    GenerateFeeds(crc, x, 8);
    EightShifts(x);
    XorLaws(FeedBits(crc, x, 8), 0, 0);
  }

  /** The table entry of the lowest byte. */
  function Lookup(c: bv32): bv32 {
    TableEntry(c);
    LookupTable()[LowByte(c) as int]
  }

  /** The body of both loops. */
  function Next(crc: bv32, b: bv8): (r: bv32) {
    Xor(UpperBytes(crc), Lookup(Xor(crc, b as bv32)))
  }

  lemma NextFeeds(crc: bv32, b: bv8)
    ensures Next(crc, b) == FeedBits(crc, b as bv32, 8)
  {
    hide Generate, FeedBits, LookupTable, Xor, LowByte, UpperBytes;
    TableEntry(Xor(crc, b as bv32));
    TableStep(crc, b);
  }

  method Crc32Bytes(buffer: seq<bv8>) returns (r: bv32)
    ensures r == Checksum(buffer)
  {
    hide FeedBits, Next, Xor;
    var crc32: bv32 := 0xFFFFFFFF;
    var i := 0;
    assert buffer[..0] == [];
    while i < |buffer|
      invariant 0 <= i <= |buffer| && crc32 == FeedBytes(0xFFFFFFFF, buffer[..i])
    {
      assert buffer[..i + 1][..i] == buffer[..i];
      NextFeeds(crc32, buffer[i]);
      crc32 := Next(crc32, buffer[i]);
      i := i + 1;
    }
    assert buffer[..i] == buffer;
    r := Xor(crc32, 0xFFFFFFFF);
  }

  /** The buffer of a string that ends in a zero byte. The first byte is taken before any is tested. */
  method Crc32String(buffer: seq<bv8>, ghost end: nat) returns (r: bv32)
    requires 0 < end < |buffer| && buffer[end] == 0 && forall i :: 0 < i < end ==> buffer[i] != 0
    ensures r == Checksum(buffer[..end])
  {
    hide FeedBits, Next, Xor;
    var crc32: bv32 := 0xFFFFFFFF;
    assert buffer[..0] == [];
    assert buffer[..1][..0] == buffer[..0];
    NextFeeds(crc32, buffer[0]);
    crc32 := Next(crc32, buffer[0]);
    var i := 1;
    while buffer[i] != 0
      invariant 1 <= i <= end && crc32 == FeedBytes(0xFFFFFFFF, buffer[..i])
      decreases end - i
    {
      assert buffer[..i + 1][..i] == buffer[..i];
      NextFeeds(crc32, buffer[i]);
      crc32 := Next(crc32, buffer[i]);
      i := i + 1;
    }
    r := Xor(crc32, 0xFFFFFFFF);
  }

  // ---------------------------------------------------------------- a known checksum

  /** The digits 1 to 9 as text. */
  const Digits: seq<bv8> := [0x31, 0x32, 0x33, 0x34, 0x35, 0x36, 0x37, 0x38, 0x39]

  lemma FeedOne(crc: bv32, x: bv32, n: nat, next: bv32, rest: bv32)
    requires n > 0 && Feed(crc, Low(x)) == next && Half(x) == rest
    ensures FeedBits(crc, x, n) == FeedBits(next, rest, n - 1)
  {
    hide Feed, Low, Half;
  }

  lemma FedAll(crc: bv32)
    ensures FeedBits(crc, 0, 0) == crc
  {
  }

  lemma DigitFed1()
    ensures FeedBits(0xffffffff, 0x31, 8) == 0x7c231048
  {
    hide FeedBits;
    FeedOne(0xffffffff, 0x31, 8, 0x7fffffff, 0x18);
    FeedOne(0x7fffffff, 0x18, 7, 0xd2477cdf, 0x0c);
    FeedOne(0xd2477cdf, 0x0c, 6, 0x849b3d4f, 0x06);
    FeedOne(0x849b3d4f, 0x06, 5, 0xaff51d87, 0x03);
    FeedOne(0xaff51d87, 0x03, 4, 0x57fa8ec3, 0x01);
    FeedOne(0x57fa8ec3, 0x01, 3, 0x2bfd4761, 0x00);
    FeedOne(0x2bfd4761, 0x00, 2, 0xf8462090, 0x00);
    FeedOne(0xf8462090, 0x00, 1, 0x7c231048, 0x00);
    FedAll(0x7c231048);
  }

  lemma DigitFed2()
    ensures FeedBits(0x7c231048, 0x32, 8) == 0xb0acbb32
  {
    hide FeedBits;
    FeedOne(0x7c231048, 0x32, 8, 0x3e118824, 0x19);
    FeedOne(0x3e118824, 0x19, 7, 0xf2b04732, 0x0c);
    FeedOne(0xf2b04732, 0x0c, 6, 0x79582399, 0x06);
    FeedOne(0x79582399, 0x06, 5, 0xd11492ec, 0x03);
    FeedOne(0xd11492ec, 0x03, 4, 0x8532ca56, 0x01);
    FeedOne(0x8532ca56, 0x01, 3, 0xaf21e60b, 0x00);
    FeedOne(0xaf21e60b, 0x00, 2, 0xba287025, 0x00);
    FeedOne(0xba287025, 0x00, 1, 0xb0acbb32, 0x00);
    FedAll(0xb0acbb32);
  }

  lemma DigitFed3()
    ensures FeedBits(0xb0acbb32, 0x33, 8) == 0x77b79c2d
  {
    hide FeedBits;
    FeedOne(0xb0acbb32, 0x33, 8, 0xb5eedeb9, 0x19);
    FeedOne(0xb5eedeb9, 0x19, 7, 0x5af76f5c, 0x0c);
    FeedOne(0x5af76f5c, 0x0c, 6, 0x2d7bb7ae, 0x06);
    FeedOne(0x2d7bb7ae, 0x06, 5, 0x16bddbd7, 0x03);
    FeedOne(0x16bddbd7, 0x03, 4, 0x0b5eedeb, 0x01);
    FeedOne(0x0b5eedeb, 0x01, 3, 0x05af76f5, 0x00);
    FeedOne(0x05af76f5, 0x00, 2, 0xef6f385a, 0x00);
    FeedOne(0xef6f385a, 0x00, 1, 0x77b79c2d, 0x00);
    FedAll(0x77b79c2d);
  }

  lemma DigitFed4()
    ensures FeedBits(0x77b79c2d, 0x34, 8) == 0x641c1f5c
  {
    hide FeedBits;
    FeedOne(0x77b79c2d, 0x34, 8, 0xd6634d36, 0x1a);
    FeedOne(0xd6634d36, 0x1a, 7, 0x6b31a69b, 0x0d);
    FeedOne(0x6b31a69b, 0x0d, 6, 0x3598d34d, 0x06);
    FeedOne(0x3598d34d, 0x06, 5, 0xf774ea86, 0x03);
    FeedOne(0xf774ea86, 0x03, 4, 0x9602f663, 0x01);
    FeedOne(0x9602f663, 0x01, 3, 0x4b017b31, 0x00);
    FeedOne(0x4b017b31, 0x00, 2, 0xc8383eb8, 0x00);
    FeedOne(0xc8383eb8, 0x00, 1, 0x641c1f5c, 0x00);
    FedAll(0x641c1f5c);
  }

  lemma DigitFed5()
    ensures FeedBits(0x641c1f5c, 0x35, 8) == 0x340ac5e3
  {
    hide FeedBits;
    FeedOne(0x641c1f5c, 0x35, 8, 0xdfb68c8e, 0x1a);
    FeedOne(0xdfb68c8e, 0x1a, 7, 0x6fdb4647, 0x0d);
    FeedOne(0x6fdb4647, 0x0d, 6, 0x37eda323, 0x06);
    FeedOne(0x37eda323, 0x06, 5, 0xf64e52b1, 0x03);
    FeedOne(0xf64e52b1, 0x03, 4, 0x7b272958, 0x01);
    FeedOne(0x7b272958, 0x01, 3, 0xd02b178c, 0x00);
    FeedOne(0xd02b178c, 0x00, 2, 0x68158bc6, 0x00);
    FeedOne(0x68158bc6, 0x00, 1, 0x340ac5e3, 0x00);
    FedAll(0x340ac5e3);
  }

  lemma DigitFed6()
    ensures FeedBits(0x340ac5e3, 0x36, 8) == 0xf68d2c9e
  {
    hide FeedBits;
    FeedOne(0x340ac5e3, 0x36, 8, 0xf7bde1d1, 0x1b);
    FeedOne(0xf7bde1d1, 0x1b, 7, 0x7bdef0e8, 0x0d);
    FeedOne(0x7bdef0e8, 0x0d, 6, 0xd057fb54, 0x06);
    FeedOne(0xd057fb54, 0x06, 5, 0x682bfdaa, 0x03);
    FeedOne(0x682bfdaa, 0x03, 4, 0xd9ad7df5, 0x01);
    FeedOne(0xd9ad7df5, 0x01, 3, 0x6cd6befa, 0x00);
    FeedOne(0x6cd6befa, 0x00, 2, 0x366b5f7d, 0x00);
    FeedOne(0x366b5f7d, 0x00, 1, 0xf68d2c9e, 0x00);
    FedAll(0xf68d2c9e);
  }

  lemma DigitFed7()
    ensures FeedBits(0xf68d2c9e, 0x37, 8) == 0xaffc9660
  {
    hide FeedBits;
    FeedOne(0xf68d2c9e, 0x37, 8, 0x96fe156f, 0x1b);
    FeedOne(0x96fe156f, 0x1b, 7, 0x4b7f0ab7, 0x0d);
    FeedOne(0x4b7f0ab7, 0x0d, 6, 0x25bf855b, 0x06);
    FeedOne(0x25bf855b, 0x06, 5, 0xff67418d, 0x03);
    FeedOne(0xff67418d, 0x03, 4, 0x7fb3a0c6, 0x01);
    FeedOne(0x7fb3a0c6, 0x01, 3, 0xd2615343, 0x00);
    FeedOne(0xd2615343, 0x00, 2, 0x84882a81, 0x00);
    FeedOne(0x84882a81, 0x00, 1, 0xaffc9660, 0x00);
    FedAll(0xaffc9660);
  }

  lemma DigitFed8()
    ensures FeedBits(0xaffc9660, 0x38, 8) == 0x651f2550
  {
    hide FeedBits;
    FeedOne(0xaffc9660, 0x38, 8, 0x57fe4b30, 0x1c);
    FeedOne(0x57fe4b30, 0x1c, 7, 0x2bff2598, 0x0e);
    FeedOne(0x2bff2598, 0x0e, 6, 0x15ff92cc, 0x07);
    FeedOne(0x15ff92cc, 0x07, 5, 0xe7474a46, 0x03);
    FeedOne(0xe7474a46, 0x03, 4, 0x9e1b2603, 0x01);
    FeedOne(0x9e1b2603, 0x01, 3, 0x4f0d9301, 0x00);
    FeedOne(0x4f0d9301, 0x00, 2, 0xca3e4aa0, 0x00);
    FeedOne(0xca3e4aa0, 0x00, 1, 0x651f2550, 0x00);
    FedAll(0x651f2550);
  }

  lemma DigitFed9()
    ensures FeedBits(0x651f2550, 0x39, 8) == 0x340bc6d9
  {
    hide FeedBits;
    FeedOne(0x651f2550, 0x39, 8, 0xdf371188, 0x1c);
    FeedOne(0xdf371188, 0x1c, 7, 0x6f9b88c4, 0x0e);
    FeedOne(0x6f9b88c4, 0x0e, 6, 0x37cdc462, 0x07);
    FeedOne(0x37cdc462, 0x07, 5, 0xf65e6111, 0x03);
    FeedOne(0xf65e6111, 0x03, 4, 0x7b2f3088, 0x01);
    FeedOne(0x7b2f3088, 0x01, 3, 0xd02f1b64, 0x00);
    FeedOne(0xd02f1b64, 0x00, 2, 0x68178db2, 0x00);
    FeedOne(0x68178db2, 0x00, 1, 0x340bc6d9, 0x00);
    FedAll(0x340bc6d9);
  }

  lemma FedMore(bytes: seq<bv8>, n: nat, crc: bv32)
    requires n < |bytes| && FeedBytes(0xFFFFFFFF, bytes[..n]) == crc
    ensures FeedBytes(0xFFFFFFFF, bytes[..n + 1]) == FeedBits(crc, bytes[n] as bv32, 8)
  {
    hide FeedBits;
    assert bytes[..n + 1][..n] == bytes[..n];
  }

  /** The check value of CRC-32. */
  lemma CheckValue()
    ensures Checksum(Digits) == 0xcbf43926
  {
    hide FeedBits;
    DigitFed1();
    DigitFed2();
    DigitFed3();
    DigitFed4();
    DigitFed5();
    DigitFed6();
    DigitFed7();
    DigitFed8();
    DigitFed9();
    assert Digits[..0] == [];
    FedMore(Digits, 0, 0xffffffff);
    FedMore(Digits, 1, 0x7c231048);
    FedMore(Digits, 2, 0xb0acbb32);
    FedMore(Digits, 3, 0x77b79c2d);
    FedMore(Digits, 4, 0x641c1f5c);
    FedMore(Digits, 5, 0x340ac5e3);
    FedMore(Digits, 6, 0xf68d2c9e);
    FedMore(Digits, 7, 0xaffc9660);
    FedMore(Digits, 8, 0x651f2550);
    assert Digits[..9] == Digits;
  }

  // ---------------------------------------------------------------- what the checksum detects

  lemma HalvesAndLow(a: bv32, b: bv32)
    requires Half(a) == Half(b) && Low(a) == Low(b)
    ensures a == b
  {
  }

  predicate TopSet(c: bv32) {
    c & 0x80000000 != 0
  }

  /** The polynomial's highest bit shows whether it was mixed in. */
  lemma FeedbackShows(bit: bv32, c: bv32)
    ensures TopSet(Xor(Feedback(bit), Half(c))) <==> bit == 1
  {
    TopOfHalf(c, Polynomial);
    TopOfHalf(c, 0);
  }

  lemma TopOfHalf(c: bv32, p: bv32)
    ensures TopSet(Xor(p, Half(c))) <==> TopSet(p)
  {
  }

  /** Feeding the same bit to different registers leaves them different. */
  lemma FeedInjective(a: bv32, b: bv32, bit: bv32)
    requires Feed(a, bit) == Feed(b, bit)
    ensures a == b
  {
    hide Xor, Half, Low, Feedback, TopSet;
    var p, q := Low(Xor(a, bit)), Low(Xor(b, bit));
    FeedbackShows(p, a);
    FeedbackShows(q, b);
    LowXor(Xor(a, bit), bit);
    LowXor(Xor(b, bit), bit);
    LowXor(a, bit);
    LowXor(b, bit);
    assert p == q;
    XorCancels(Feedback(p), Half(a), Half(b));
    LowXor(bit, bit);
    HalvesAndLow(a, b);
  }

  lemma {:induction false} FeedBitsInjective(a: bv32, b: bv32, x: bv32, n: nat)
    requires FeedBits(a, x, n) == FeedBits(b, x, n)
    ensures a == b
    decreases n
  {
    hide Feed, Half, Low;
    if n > 0 {
      FeedBitsInjective(Feed(a, Low(x)), Feed(b, Low(x)), Half(x), n - 1);
      FeedInjective(a, b, Low(x));
    }
  }

  lemma {:induction false} FeedBytesInjective(a: bv32, b: bv32, bytes: seq<bv8>)
    requires FeedBytes(a, bytes) == FeedBytes(b, bytes)
    ensures a == b
    decreases |bytes|
  {
    hide FeedBits;
    if bytes != [] {
      var n := |bytes| - 1;
      FeedBitsInjective(FeedBytes(a, bytes[..n]), FeedBytes(b, bytes[..n]), bytes[n] as bv32, 8);
      FeedBytesInjective(a, b, bytes[..n]);
    }
  }

  lemma {:induction false} FeedBytesSplit(crc: bv32, a: seq<bv8>, b: seq<bv8>)
    ensures FeedBytes(crc, a + b) == FeedBytes(FeedBytes(crc, a), b)
    decreases |b|
  {
    hide FeedBits;
    if b == [] {
      assert a + b == a;
    } else {
      var n := |b| - 1;
      assert (a + b)[..|a| + n] == a + b[..n];
      FeedBytesSplit(crc, a, b[..n]);
    }
  }

  /** Different bytes from the same register give different registers. */
  lemma ByteShows(crc: bv32, x: bv8, y: bv8)
    requires FeedBits(crc, x as bv32, 8) == FeedBits(crc, y as bv32, 8)
    ensures x == y
  {
    hide Generate, FeedBits, Xor;
    SameInput(crc, x as bv32, y as bv32, x, y);
  }

  lemma SameInput(crc: bv32, x: bv32, y: bv32, ax: bv8, ay: bv8)
    requires x == ax as bv32 && y == ay as bv32 && FeedBits(crc, x, 8) == FeedBits(crc, y, 8)
    ensures ax == ay
  {
    ByteDoesNotReach(crc, ax);
    ByteDoesNotReach(crc, ay);
    hide Generate, FeedBits, Xor, Shifted, UpperBytes;
    GenerateFeeds(crc, x, 8);
    GenerateFeeds(crc, y, 8);
    EightShifts(x);
    EightShifts(y);
    GenerateInjective(Xor(crc, x), Xor(crc, y), 8);
    XorCancels(crc, x, y);
    Widened(ax, ay);
  }

  lemma Widened(x: bv8, y: bv8)
    requires x as bv32 == y as bv32
    ensures x == y
  {
  }

  lemma {:induction false} GenerateInjective(a: bv32, b: bv32, n: nat)
    requires Generate(a, n) == Generate(b, n)
    ensures a == b
    decreases n
  {
    hide Shift;
    if n > 0 {
      GenerateInjective(Shift(a), Shift(b), n - 1);
      ShiftInjective(a, b);
    }
  }

  lemma ShiftInjective(a: bv32, b: bv32)
    requires Shift(a) == Shift(b)
    ensures a == b
  {
    hide Xor, Half, Low, Feedback, TopSet;
    FeedbackShows(Low(a), a);
    FeedbackShows(Low(b), b);
    LowXor(a, b);
    LowXor(b, a);
    XorCancels(Feedback(Low(a)), Half(a), Half(b));
    HalvesAndLow(a, b);
  }

  /** A change of one byte, wherever it is, changes the checksum. */
  lemma ByteErrorDetected(before: seq<bv8>, x: bv8, y: bv8, after: seq<bv8>)
    requires x != y
    ensures Checksum(before + [x] + after) != Checksum(before + [y] + after)
  {
    hide FeedBits, FeedBytes, Xor;
    var crc: bv32 := 0xFFFFFFFF;
    var p, q := FeedBytes(crc, before + [x] + after), FeedBytes(crc, before + [y] + after);
    if p == q {
      SameByte(crc, before, x, y, after);
    } else if Xor(p, crc) == Xor(q, crc) {
      Unmask(p, q, crc);
    }
  }

  lemma Unmask(a: bv32, b: bv32, mask: bv32)
    requires Xor(a, mask) == Xor(b, mask)
    ensures a == b
  {
    hide Xor;
    XorLaws(a, mask, 0);
    XorLaws(b, mask, 0);
    XorCancels(mask, a, b);
  }

  lemma SameByte(crc: bv32, before: seq<bv8>, x: bv8, y: bv8, after: seq<bv8>)
    requires FeedBytes(crc, before + [x] + after) == FeedBytes(crc, before + [y] + after)
    ensures x == y
  {
    FedByte(crc, before, x);
    FedByte(crc, before, y);
    hide FeedBits, FeedBytes;
    FeedBytesSplit(crc, before + [x], after);
    FeedBytesSplit(crc, before + [y], after);
    FeedBytesInjective(FeedBytes(crc, before + [x]), FeedBytes(crc, before + [y]), after);
    ByteShows(FeedBytes(crc, before), x, y);
  }

  lemma FedByte(crc: bv32, before: seq<bv8>, x: bv8)
    ensures FeedBytes(crc, before + [x]) == FeedBits(FeedBytes(crc, before), x as bv32, 8)
  {
    hide FeedBits;
    assert (before + [x])[..|before|] == before;
  }
}
