/** The stream of bytes that feeds the compression, and the padding at its end. */
module Sha256Stream {
  import opened Sha256

  const Range64: int := 0x1_0000_0000_0000_0000

  // ---------------------------------------------------------------- section 5.1.1 of FIPS 180-4

  function Zeros(n: nat): (z: seq<bv8>)
    ensures |z| == n
  {
    seq(n, i => 0)
  }

  /** The number of zero bytes that makes the padded message a whole number of blocks. */
  function ZeroCount(length: nat): (z: nat)
    ensures z < 64 && (length + 1 + z + 8) % 64 == 0
  {
    (119 - length % 64) % 64
  }

  function LowByte(n: int): (b: bv8) {
    (n % 256) as bv8
  }

  /** A 64-bit number, most significant byte first. */
  function BigEndian(n: int): (b: seq<bv8>)
    requires 0 <= n < Range64
    ensures |b| == 8
  {
    [LowByte(n / 0x100_0000_0000_0000), LowByte(n / 0x1_0000_0000_0000), LowByte(n / 0x100_0000_0000), LowByte(n / 0x1_0000_0000),
     LowByte(n / 0x100_0000), LowByte(n / 0x1_0000), LowByte(n / 0x100), LowByte(n)]
  }

  /** The number that bytes stand for, most significant first. */
  function ValueOf(b: seq<bv8>): (n: int) {
    if b == [] then 0 else 256 * ValueOf(b[..|b| - 1]) + b[|b| - 1] as int
  }

  /** The eight bytes stand for the number written. */
  lemma BigEndianValue(n: int)
    requires 0 <= n < Range64
    ensures ValueOf(BigEndian(n)) == n
  {
    hide LowByte, BigEndian;
    var b := BigEndian(n);
    BytesWritten(n);
    Quotients(n);
    assert b[..0] == [];
    ValueMore(b, 0, 0, n / 0x100_0000_0000_0000);
    ValueMore(b, 1, n / 0x100_0000_0000_0000, n / 0x1_0000_0000_0000);
    ValueMore(b, 2, n / 0x1_0000_0000_0000, n / 0x100_0000_0000);
    ValueMore(b, 3, n / 0x100_0000_0000, n / 0x1_0000_0000);
    ValueMore(b, 4, n / 0x1_0000_0000, n / 0x100_0000);
    ValueMore(b, 5, n / 0x100_0000, n / 0x1_0000);
    ValueMore(b, 6, n / 0x1_0000, n / 0x100);
    ValueMore(b, 7, n / 0x100, n);
    assert b[..8] == b;
  }

  lemma BytesWritten(n: int)
    requires 0 <= n < Range64
    ensures var b := BigEndian(n);
            && b[0] as int == n / 0x100_0000_0000_0000 % 256 && b[1] as int == n / 0x1_0000_0000_0000 % 256
            && b[2] as int == n / 0x100_0000_0000 % 256 && b[3] as int == n / 0x1_0000_0000 % 256
            && b[4] as int == n / 0x100_0000 % 256 && b[5] as int == n / 0x1_0000 % 256
            && b[6] as int == n / 0x100 % 256 && b[7] as int == n % 256
  {
    hide LowByte;
    LowByteValue(n / 0x100_0000_0000_0000);
    LowByteValue(n / 0x1_0000_0000_0000);
    LowByteValue(n / 0x100_0000_0000);
    LowByteValue(n / 0x1_0000_0000);
    LowByteValue(n / 0x100_0000);
    LowByteValue(n / 0x1_0000);
    LowByteValue(n / 0x100);
    LowByteValue(n);
  }

  lemma Quotients(n: int)
    requires 0 <= n < Range64
    ensures n / 0x100_0000_0000_0000 / 256 == 0 && n / 0x1_0000_0000_0000 / 256 == n / 0x100_0000_0000_0000
    ensures n / 0x100_0000_0000 / 256 == n / 0x1_0000_0000_0000 && n / 0x1_0000_0000 / 256 == n / 0x100_0000_0000
    ensures n / 0x100_0000 / 256 == n / 0x1_0000_0000 && n / 0x1_0000 / 256 == n / 0x100_0000
    ensures n / 0x100 / 256 == n / 0x1_0000 && n / 256 == n / 0x100
  {
  }

  lemma ValueMore(b: seq<bv8>, i: nat, before: int, after: int)
    requires i < |b| && ValueOf(b[..i]) == before && after / 256 == before && b[i] as int == after % 256
    ensures ValueOf(b[..i + 1]) == after
  {
    assert b[..i + 1][..i] == b[..i];
  }

  lemma LowByteValue(n: int)
    ensures LowByte(n) as int == n % 256
  {
    ByteValue(n % 256);
  }

  lemma ByteValue(m: int)
    requires 0 <= m < 256
    ensures (m as bv8) as int == m
  {
    assert m / 4 == m / 2 / 2 && m / 8 == m / 4 / 2 && m / 16 == m / 8 / 2 && m / 32 == m / 16 / 2;
    assert m / 64 == m / 32 / 2 && m / 128 == m / 64 / 2 && m / 256 == 0;
  }

  /** The padded message. The length in bits is written modulo 2^64; the standard allows no longer ones. */
  function Padded(message: seq<bv8>): (p: seq<bv8>)
    ensures |p| % 64 == 0
  {
    Filled(message) + BigEndian(8 * |message| % Range64)
  }

  function Joined(blocks: seq<Block>): (s: seq<bv8>)
    ensures |s| == 64 * |blocks|
  {
    if blocks == [] then [] else Joined(blocks[..|blocks| - 1]) + blocks[|blocks| - 1]
  }

  lemma JoinedMore(blocks: seq<Block>, b: Block)
    ensures Joined(blocks + [b]) == Joined(blocks) + b
  {
    assert (blocks + [b])[..|blocks|] == blocks;
  }

  lemma BitSum(blocks: nat, rest: nat)
    ensures (512 * blocks % Range64 + 8 * rest) % Range64 == 8 * (64 * blocks + rest) % Range64
  {
  }

  lemma CountBlock(n: nat)
    ensures (512 * n % Range64 + 512) % Range64 == 512 * (n + 1) % Range64
  {
  }

  lemma DigestMore(state: Words, blocks: seq<Block>, b: Block)
    ensures Digest(state, blocks + [b]) == Compress(Digest(state, blocks), b)
  {
    assert (blocks + [b])[..|blocks|] == blocks;
  }

  /** A whole number of blocks, cut apart. */
  function BlocksOf(p: seq<bv8>): (blocks: seq<Block>)
    requires |p| % 64 == 0
  {
    if p == [] then [] else BlocksOf(p[..|p| - 64]) + [p[|p| - 64..]]
  }

  lemma {:induction false} BlocksJoined(blocks: seq<Block>)
    ensures BlocksOf(Joined(blocks)) == blocks
  {
    if blocks != [] {
      var front, last, p := blocks[..|blocks| - 1], blocks[|blocks| - 1], Joined(blocks);
      BlocksJoined(front);
      assert p[..|p| - 64] == Joined(front) && p[|p| - 64..] == last;
    }
  }

  // ---------------------------------------------------------------- the last blocks

  /** The message with its end mark and zeros, up to where the length goes. */
  function Filled(message: seq<bv8>): (p: seq<bv8>) {
    message + [0x80] + Zeros(ZeroCount(|message|))
  }

  /** The end of the message leaves room for the length in its block. */
  lemma ShortEnd(whole: seq<bv8>, rest: seq<bv8>)
    requires |whole| % 64 == 0 && |rest| < 56
    ensures whole + (rest + [0x80] + Zeros(55 - |rest|)) == Filled(whole + rest)
  {
    assert ZeroCount(|whole + rest|) == 55 - |rest|;
    hide Zeros, ZeroCount;
    var z := Zeros(55 - |rest|);
    assert whole + (rest + [0x80] + z) == whole + rest + [0x80] + z;
  }

  /** The end of the message needs a block of its own before the one with the length. */
  lemma LongEnd(whole: seq<bv8>, rest: seq<bv8>)
    requires |whole| % 64 == 0 && 56 <= |rest| < 64
    ensures whole + (rest + [0x80] + Zeros(63 - |rest|)) + Zeros(56) == Filled(whole + rest)
  {
    assert ZeroCount(|whole + rest|) == 119 - |rest|;
    assert Zeros(119 - |rest|) == Zeros(63 - |rest|) + Zeros(56);
    hide Zeros, ZeroCount;
    var y, z := Zeros(63 - |rest|), Zeros(56);
    assert whole + (rest + [0x80] + y) + z == whole + rest + [0x80] + (y + z);
  }

  // ---------------------------------------------------------------- the text of a digest

  function BytesOf(words: seq<bv32>): (b: seq<bv8>)
    ensures |b| == 4 * |words|
  {
    if words == [] then [] else BytesOf(words[..|words| - 1]) + WordBytes(words[|words| - 1])
  }

  const Alphabet: string := "0123456789abcdef"

  function Digit(n: bv8): (c: char)
    requires n <= 15
  {
    SmallIndex(n);
    Alphabet[n as int]
  }

  lemma SmallIndex(n: bv8)
    requires n <= 15
    ensures n as int <= 15
  {
  }

  lemma HalvesSmall(b: bv8)
    ensures b >> 4 <= 15 && b & 15 <= 15
  {
  }

  /** Two digits for a byte, the upper half first. */
  function ByteText(b: bv8): (s: string)
    ensures |s| == 2
  {
    HalvesSmall(b);
    [Digit(b >> 4), Digit(b & 15)]
  }

  function TextOf(bytes: seq<bv8>): (s: string)
    ensures |s| == 2 * |bytes|
  {
    if bytes == [] then [] else TextOf(bytes[..|bytes| - 1]) + ByteText(bytes[|bytes| - 1])
  }

  lemma DigitsDiffer(a: bv8, b: bv8)
    requires a <= 15 && b <= 15 && Digit(a) == Digit(b)
    ensures a == b
  {
    SmallIndex(a);
    SmallIndex(b);
    var i, j := a as int, b as int;
    assert Alphabet[i] == Alphabet[j];
    assert i == j;
    SameIndex(a, b);
  }

  lemma SameIndex(a: bv8, b: bv8)
    requires a as int == b as int
    ensures a == b
  {
  }

  lemma SameHalves(a: bv8, b: bv8)
    requires a >> 4 == b >> 4 && a & 15 == b & 15
    ensures a == b
  {
  }

  lemma ByteTextDiffers(a: bv8, b: bv8)
    requires ByteText(a) == ByteText(b)
    ensures a == b
  {
    HalvesSmall(a);
    HalvesSmall(b);
    assert ByteText(a)[0] == ByteText(b)[0] && ByteText(a)[1] == ByteText(b)[1];
    hide Digit;
    DigitsDiffer(a >> 4, b >> 4);
    DigitsDiffer(a & 15, b & 15);
    SameHalves(a, b);
  }

  lemma WordBytesDiffer(v: bv32, w: bv32)
    requires WordBytes(v) == WordBytes(w)
    ensures v == w
  {
    var a, b := WordBytes(v), WordBytes(w);
    assert a[0] == b[0] && a[1] == b[1] && a[2] == b[2] && a[3] == b[3];
    SameBytes(v, w);
  }

  lemma SameBytes(v: bv32, w: bv32)
    requires ((v >> 24) & 0xFF) as bv8 == ((w >> 24) & 0xFF) as bv8 && ((v >> 16) & 0xFF) as bv8 == ((w >> 16) & 0xFF) as bv8
    requires ((v >> 8) & 0xFF) as bv8 == ((w >> 8) & 0xFF) as bv8 && (v & 0xFF) as bv8 == (w & 0xFF) as bv8
    ensures v == w
  {
  }

  /** Different bytes have different texts. */
  lemma {:induction false} TextDiffers(a: seq<bv8>, b: seq<bv8>)
    requires |a| == |b| && TextOf(a) == TextOf(b)
    ensures a == b
  {
    hide ByteText;
    if a != [] {
      var n := |a| - 1;
      var s, t := TextOf(a[..n]) + ByteText(a[n]), TextOf(b[..n]) + ByteText(b[n]);
      assert TextOf(a[..n]) == s[..2 * n] == t[..2 * n] == TextOf(b[..n]);
      assert ByteText(a[n]) == s[2 * n..] == t[2 * n..] == ByteText(b[n]);
      TextDiffers(a[..n], b[..n]);
      ByteTextDiffers(a[n], b[n]);
      assert a == a[..n] + [a[n]] && b == b[..n] + [b[n]];
    }
  }

  lemma {:induction false} BytesDiffer(v: seq<bv32>, w: seq<bv32>)
    requires |v| == |w| && BytesOf(v) == BytesOf(w)
    ensures v == w
  {
    hide WordBytes;
    if v != [] {
      var n := |v| - 1;
      var s, t := BytesOf(v[..n]) + WordBytes(v[n]), BytesOf(w[..n]) + WordBytes(w[n]);
      assert BytesOf(v[..n]) == s[..4 * n] == t[..4 * n] == BytesOf(w[..n]);
      assert WordBytes(v[n]) == s[4 * n..] == t[4 * n..] == WordBytes(w[n]);
      BytesDiffer(v[..n], w[..n]);
      WordBytesDiffer(v[n], w[n]);
      assert v == v[..n] + [v[n]] && w == w[..n] + [w[n]];
    }
  }

  /** The text of a digest shows every word that is written. */
  lemma DigestShown(v: seq<bv32>, w: seq<bv32>)
    requires |v| == |w| && TextOf(BytesOf(v)) == TextOf(BytesOf(w))
    ensures v == w
  {
    TextDiffers(BytesOf(v), BytesOf(w));
    BytesDiffer(v, w);
  }

  // ---------------------------------------------------------------- the context

  class Context {
    const data: array<bv8>
    const state: array<bv32>
    var dataLength: nat
    var bitLength: int

    const sha256: bool

    ghost const initial: Words
    ghost var blocks: seq<Block>
    ghost var message: seq<bv8>

    ghost predicate Valid()
      reads this, data, state
    {
      && data.Length == 64 && state.Length == 8 && dataLength < 64
      && message == Joined(blocks) + data[..dataLength]
      && bitLength == 512 * |blocks| % Range64
      && state[..] == Digest(initial, blocks)
    }

    /** sha256_init and sha224_init differ in the starting state. */
    constructor (sha256: bool)
      ensures Valid() && message == [] && initial == Start(sha256) && this.sha256 == sha256
      ensures fresh(data) && fresh(state)
    {
      this.sha256 := sha256;
      dataLength, bitLength := 0, 0;
      data := new bv8[64];
      var start := Start(sha256);
      state := new bv32[8](i requires 0 <= i < 8 => start[i]);
      initial := start;
      blocks, message := [], [];
    }

    /** The number of bits seen is the count of whole blocks plus that of the buffered bytes. */
    lemma BitsSeen()
      requires Valid()
      ensures (bitLength + 8 * dataLength) % Range64 == 8 * |message| % Range64
    {
      hide Digest, Joined;
      assert |message| == 64 * |blocks| + dataLength;
      BitSum(|blocks|, dataLength);
    }

    /** The buffer, now full, goes to the compression. */
    method TransformData()
      requires data.Length == 64 && state.Length == 8 && state[..] == Digest(initial, blocks)
      modifies state, this`blocks
      ensures blocks == old(blocks) + [data[..]] && state[..] == Digest(initial, blocks)
    {
      hide Compress;
      DigestMore(initial, blocks, data[..]);
      Transform(state, data[..]);
      blocks := blocks + [data[..]];
    }

    method Update(buffer: seq<bv8>)
      requires Valid() && |buffer| < 0x1_0000_0000
      modifies this`dataLength, this`bitLength, this`blocks, this`message, data, state
      ensures Valid() && message == old(message) + buffer
    {
      var i := 0;
      assert buffer[..0] == [];
      while i < |buffer|
        invariant 0 <= i <= |buffer| && Valid() && message == old(message) + buffer[..i]
      {
        assert buffer[..i + 1] == buffer[..i] + [buffer[i]];
        UpdateByte(buffer[i]);
        i := i + 1;
      }
      assert buffer[..i] == buffer;
    }

    method UpdateByte(b: bv8)
      requires Valid()
      modifies this`dataLength, this`bitLength, this`blocks, this`message, data, state
      ensures Valid() && message == old(message) + [b]
    {
      hide Digest, Joined;
      ghost var before := data[..dataLength];
      data[dataLength] := b;
      dataLength := dataLength + 1;
      message := message + [b];
      assert data[..dataLength] == before + [b];
      assert message == Joined(blocks) + data[..dataLength];
      if dataLength == 64 { FlushData(); }
    }

    /** A full buffer: compress it, count its bits and start over. */
    method FlushData()
      requires data.Length == 64 && state.Length == 8 && dataLength == 64 && message == Joined(blocks) + data[..dataLength]
      requires bitLength == 512 * |blocks| % Range64 && state[..] == Digest(initial, blocks)
      modifies this`dataLength, this`bitLength, this`blocks, state
      ensures Valid()
    {
      hide Digest, Joined;
      JoinedMore(blocks, data[..]);
      CountBlock(|blocks|);
      assert data[..64] == data[..] && data[..0] == [];
      TransformData();
      bitLength := (bitLength + 512) % Range64;
      dataLength := 0;
    }

    /** Fills `data` from `i` up to `n` with zeros. */
    method ClearFrom(i: nat, n: nat)
      requires data.Length == 64 && i <= n <= 64
      modifies data
      ensures data[..n] == old(data[..i]) + Zeros(n - i)
    {
      for j := i to n
        invariant forall k :: 0 <= k < i ==> data[k] == old(data[k])
        invariant forall k :: i <= k < j ==> data[k] == 0
      {
        data[j] := 0;
      }
    }

    /** Writes the length in bits at the end of `data`. */
    method WriteLength()
      requires data.Length == 64 && 0 <= bitLength < Range64
      modifies data
      ensures data[..] == old(data[..56]) + BigEndian(bitLength)
    {
      var bytes := BigEndian(bitLength);
      for j := 0 to 8
        invariant forall k :: 0 <= k < 56 ==> data[k] == old(data[k])
        invariant forall k :: 0 <= k < j ==> data[56 + k] == bytes[k]
      {
        data[56 + j] := bytes[j];
      }
      assert data[56..] == bytes by {
        forall k | 0 <= k < 8 ensures data[56..][k] == bytes[k] { assert data[56 + k] == bytes[k]; }
      }
    }

    /** The end mark and the zeros, up to where the length goes; a full block goes to the compression. */
    method FillData()
      requires Valid()
      modifies this`blocks, data, state
      ensures data.Length == 64 && state.Length == 8
      ensures Joined(blocks) + data[..56] == Filled(message) && state[..] == Digest(initial, blocks)
    {
      hide Digest, Joined, Filled, Zeros;
      ghost var whole, rest := Joined(blocks), data[..dataLength];
      var i := dataLength;
      data[i] := 0x80;
      i := i + 1;
      assert data[..i] == rest + [0x80];
      if dataLength < 56 {
        ClearFrom(i, 56);
        ShortEnd(whole, rest);
      } else {
        FillLong(rest);
        LongEnd(whole, rest);
      }
    }

    /** No room for the length: the block is filled up and compressed, and the next one starts with zeros. */
    method FillLong(ghost rest: seq<bv8>)
      requires data.Length == 64 && state.Length == 8 && state[..] == Digest(initial, blocks) && dataLength < 64
      requires |rest| == dataLength && data[..dataLength + 1] == rest + [0x80]
      modifies this`blocks, data, state
      ensures Joined(blocks) == old(Joined(blocks)) + (rest + [0x80] + Zeros(63 - |rest|)) && data[..56] == Zeros(56)
      ensures state[..] == Digest(initial, blocks)
    {
      hide Digest, Joined, Zeros;
      ClearFrom(dataLength + 1, 64);
      FullData(rest);
      ClearFrom(0, 56);
      assert data[..56] == Zeros(56);
    }

    method FullData(ghost rest: seq<bv8>)
      requires data.Length == 64 && state.Length == 8 && state[..] == Digest(initial, blocks)
      requires |rest| < 64 && data[..64] == rest + [0x80] + Zeros(63 - |rest|)
      modifies this`blocks, state
      ensures Joined(blocks) == old(Joined(blocks)) + (rest + [0x80] + Zeros(63 - |rest|)) && state[..] == Digest(initial, blocks)
    {
      hide Digest, Joined, Zeros;
      assert data[..64] == data[..];
      JoinedMore(blocks, data[..]);
      TransformData();
    }

    /** The last block: what is in `data`, with the length in bits at its end. */
    method LastBlock()
      requires data.Length == 64 && state.Length == 8 && state[..] == Digest(initial, blocks) && 0 <= bitLength < Range64
      modifies this`blocks, data, state
      ensures Joined(blocks) == old(Joined(blocks) + data[..56]) + BigEndian(bitLength) && state[..] == Digest(initial, blocks)
    {
      hide Digest, Joined, BigEndian;
      ghost var whole, front := Joined(blocks), data[..56];
      WriteLength();
      JoinedMore(blocks, data[..]);
      TransformData();
      assert whole + (front + BigEndian(bitLength)) == whole + front + BigEndian(bitLength);
    }

    /** The words of the state as text: eight of them, or seven for SHA-224. */
    method ToText() returns (output: string)
      requires state.Length == 8
      ensures output == TextOf(BytesOf(state[..if sha256 then 8 else 7]))
    {
      hide WordBytes, ByteText;
      var words := if sha256 then 8 else 7;
      var hash: seq<bv8> := [];
      for i := 0 to words
        invariant hash == BytesOf(state[..i])
      {
        assert state[..i + 1][..i] == state[..i];
        hash := hash + WordBytes(state[i]);
      }
      output := "";
      for i := 0 to |hash|
        invariant output == TextOf(hash[..i])
      {
        assert hash[..i + 1][..i] == hash[..i];
        output := output + ByteText(hash[i]);
      }
      assert hash[..|hash|] == hash;
    }

    /** The padding: the blocks given to the compression make up the padded message, and the text shows
        their digest. */
    method Final() returns (output: string)
      requires Valid()
      modifies this`bitLength, this`blocks, data, state
      ensures Joined(blocks) == Padded(message) && state[..] == Digest(initial, blocks) && state.Length == 8
      ensures output == TextOf(BytesOf(Digest(initial, blocks)[..if sha256 then 8 else 7]))
    {
      hide Digest, Joined, Filled, BigEndian, Valid, TextOf, BytesOf;
      BitsSeen();
      FillData();
      bitLength := (bitLength + dataLength * 8) % Range64;
      LastBlock();
      output := ToText();
      var n := if sha256 then 8 else 7;
      assert state[..n] == state[..][..n];
    }
  }

  // ---------------------------------------------------------------- whole messages

  function Start(sha256: bool): Words {
    if sha256 then InitialSha256 else InitialSha224
  }

  /** The text of the digest of a message. */
  function HashText(sha256: bool, message: seq<bv8>): string {
    TextOf(BytesOf(Digest(Start(sha256), BlocksOf(Padded(message)))[..if sha256 then 8 else 7]))
  }

  method HashBytes(sha256: bool, buffer: seq<bv8>) returns (result: string)
    requires |buffer| < 0x1_0000_0000
    ensures result == HashText(sha256, buffer)
  {
    var ctx := new Context(sha256);
    ctx.Update(buffer);
    result := ctx.Final();
    assert ctx.message == buffer;
    BlocksJoined(ctx.blocks);
  }
}
