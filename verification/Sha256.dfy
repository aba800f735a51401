/** The streaming SHA-256 of the authority verifier, proved against sections 5.1.1 and 6.2 of FIPS 180-4. */
module Sha256 {
  import opened Bytes

  type Word = bv32

  // ---------------------------------------------------------------- FIPS 180-4, section 4

  function RotateRight(x: Word, count: nat): Word
    requires 0 < count < 32
  {
    (x >> count) | (x << (32 - count))
  }

  /** Addition modulo 2^32. */
  function Sum(x: Word, y: Word): Word { x + y }

  function Sum4(w: Word, x: Word, y: Word, z: Word): Word { w + x + y + z }

  function Ch(x: Word, y: Word, z: Word): Word { (x & y) ^ (!x & z) }

  function Maj(x: Word, y: Word, z: Word): Word { (x & y) ^ (x & z) ^ (y & z) }

  function BigSigma0(x: Word): Word { RotateRight(x, 2) ^ RotateRight(x, 13) ^ RotateRight(x, 22) }

  function BigSigma1(x: Word): Word { RotateRight(x, 6) ^ RotateRight(x, 11) ^ RotateRight(x, 25) }

  function SmallSigma0(x: Word): Word { RotateRight(x, 7) ^ RotateRight(x, 18) ^ (x >> 3) }

  function SmallSigma1(x: Word): Word { RotateRight(x, 17) ^ RotateRight(x, 19) ^ (x >> 10) }

  function K(): (k: seq<Word>)
    ensures |k| == 64
  {
    [0x428a2f98, 0x71374491, 0xb5c0fbcf, 0xe9b5dba5, 0x3956c25b, 0x59f111f1, 0x923f82a4, 0xab1c5ed5,
     0xd807aa98, 0x12835b01, 0x243185be, 0x550c7dc3, 0x72be5d74, 0x80deb1fe, 0x9bdc06a7, 0xc19bf174,
     0xe49b69c1, 0xefbe4786, 0x0fc19dc6, 0x240ca1cc, 0x2de92c6f, 0x4a7484aa, 0x5cb0a9dc, 0x76f988da,
     0x983e5152, 0xa831c66d, 0xb00327c8, 0xbf597fc7, 0xc6e00bf3, 0xd5a79147, 0x06ca6351, 0x14292967,
     0x27b70a85, 0x2e1b2138, 0x4d2c6dfc, 0x53380d13, 0x650a7354, 0x766a0abb, 0x81c2c92e, 0x92722c85,
     0xa2bfe8a1, 0xa81a664b, 0xc24b8b70, 0xc76c51a3, 0xd192e819, 0xd6990624, 0xf40e3585, 0x106aa070,
     0x19a4c116, 0x1e376c08, 0x2748774c, 0x34b0bcb5, 0x391c0cb3, 0x4ed8aa4a, 0x5b9cca4f, 0x682e6ff3,
     0x748f82ee, 0x78a5636f, 0x84c87814, 0x8cc70208, 0x90befffa, 0xa4506ceb, 0xbef9a3f7, 0xc67178f2]
  }

  // ---------------------------------------------------------------- FIPS 180-4, section 6.2

  /** The number whose big-endian bytes are s. */
  function Value(s: seq<Byte>): (n: nat)
    ensures n < Power256(|s|)
  {
    if s == [] then 0 else 0x100 * Value(s[..|s| - 1]) + s[|s| - 1]
  }

  /** The low `width` bytes of n, most significant first. */
  function BigEndian(n: nat, width: nat): (s: seq<Byte>)
    ensures |s| == width
  {
    if width == 0 then [] else BigEndian(n / 0x100, width - 1) + [n % 0x100]
  }

  const WORD_LIMIT := 0x1_0000_0000

  lemma WordPower()
    ensures Power256(4) == WORD_LIMIT
  {
  }

  function WordOf(s: seq<Byte>): Word
    requires |s| == 4
  {
    WordPower();
    Value(s) as bv32
  }

  /** Word t of the message schedule. */
  function Schedule(block: seq<Byte>, t: nat): Word
    requires |block| == 64 && t < 64
  {
    if t < 16 then WordOf(block[4 * t..4 * t + 4])
    else Sum4(SmallSigma1(Schedule(block, t - 2)), Schedule(block, t - 7),
              SmallSigma0(Schedule(block, t - 15)), Schedule(block, t - 16))
  }

  datatype Working = Working(a: Word, b: Word, c: Word, d: Word, e: Word, f: Word, g: Word, h: Word)

  function Round(v: Working, k: Word, w: Word): Working {
    var t1 := Sum(Sum4(v.h, BigSigma1(v.e), Ch(v.e, v.f, v.g), k), w);
    var t2 := Sum(BigSigma0(v.a), Maj(v.a, v.b, v.c));
    Working(Sum(t1, t2), v.a, v.b, v.c, Sum(v.d, t1), v.e, v.f, v.g)
  }

  function Rounds(v: Working, block: seq<Byte>, t: nat): Working
    requires |block| == 64 && t <= 64
  {
    if t == 0 then v else Round(Rounds(v, block, t - 1), K()[t - 1], Schedule(block, t - 1))
  }

  type Chaining = s: seq<Word> | |s| == 8 witness seq(8, i => 0)

  function Start(h: Chaining): Working {
    Working(h[0], h[1], h[2], h[3], h[4], h[5], h[6], h[7])
  }

  function Added(h: Chaining, v: Working): Chaining {
    [Sum(h[0], v.a), Sum(h[1], v.b), Sum(h[2], v.c), Sum(h[3], v.d),
     Sum(h[4], v.e), Sum(h[5], v.f), Sum(h[6], v.g), Sum(h[7], v.h)]
  }

  function Compress(h: Chaining, block: seq<Byte>): Chaining
    requires |block| == 64
  {
    Added(h, Rounds(Start(h), block, |block|))
  }

  function Initial(): Chaining {
    [0x6a09e667, 0xbb67ae85, 0x3c6ef372, 0xa54ff53a, 0x510e527f, 0x9b05688c, 0x1f83d9ab, 0x5be0cd19]
  }

  /** The hash value after all blocks of m. */
  function Fold(m: seq<Byte>): Chaining
    requires |m| % 64 == 0
    decreases |m|
  {
    if |m| == 0 then Initial() else Compress(Fold(m[..|m| - 64]), m[|m| - 64..])
  }

  function Serialize(h: seq<Word>): (s: seq<Byte>)
    ensures |s| == 4 * |h|
  {
    if h == [] then [] else Serialize(h[..|h| - 1]) + BigEndian(h[|h| - 1] as int, 4)
  }

  // ---------------------------------------------------------------- FIPS 180-4, section 5.1.1

  const SIZE_LIMIT := 0x1_0000_0000_0000_0000

  function Zeros(n: nat): (s: seq<Byte>)
    ensures |s| == n
  {
    seq(n, i => 0)
  }

  /** A one bit, then the fewest zeros that leave room for the length, then the length in bits. */
  function Pad(m: seq<Byte>): (p: seq<Byte>)
    ensures |p| % 64 == 0 && |p| >= |m| + 9
  {
    m + [0x80] + Zeros((55 - |m|) % 64) + BigEndian(8 * |m|, 8)
  }

  function Hash(m: seq<Byte>): (digest: seq<Byte>)
    ensures |digest| == 32
  {
    Serialize(Fold(Pad(m)))
  }

  // ---------------------------------------------------------------- the length field and the padding

  lemma {:induction false} BigEndianValue(n: nat, width: nat)
    requires n < Power256(width)
    ensures Value(BigEndian(n, width)) == n
  {
    if width > 0 {
      BigEndianValue(n / 0x100, width - 1);
      assert BigEndian(n, width)[..width - 1] == BigEndian(n / 0x100, width - 1);
    }
  }

  /** n shifted right by k bytes. */
  function ShiftRight(n: nat, k: nat): nat {
    if k == 0 then n else ShiftRight(n / 0x100, k - 1)
  }

  lemma {:induction false} BigEndianAt(n: nat, width: nat, k: nat)
    requires k < width
    ensures BigEndian(n, width)[width - 1 - k] == ShiftRight(n, k) % 0x100
  {
    if k > 0 {
      BigEndianAt(n / 0x100, width - 1, k - 1);
    }
  }

  /** Padding loses nothing: below the length limit no two messages share a padded form. */
  lemma PadInjective(m: seq<Byte>, n: seq<Byte>)
    requires 8 * |m| < SIZE_LIMIT && 8 * |n| < SIZE_LIMIT
    requires Pad(m) == Pad(n)
    ensures m == n
  {
    var a, b := Pad(m), Pad(n);
    assert a[|a| - 8..] == BigEndian(8 * |m|, 8) && b[|b| - 8..] == BigEndian(8 * |n|, 8);
    BigEndianValue(8 * |m|, 8);
    BigEndianValue(8 * |n|, 8);
    assert Power256(8) == SIZE_LIMIT;
    assert a[..|m|] == m && b[..|n|] == n;
  }

  lemma ZerosSplit(m: nat, n: nat)
    ensures Zeros(m + n) == Zeros(m) + Zeros(n)
  {
  }

  lemma Regroup(a: seq<Byte>, b: seq<Byte>, c: seq<Byte>, d: seq<Byte>, e: seq<Byte>)
    ensures a + b + c + d + e == a + (b + c + d + e)
  {
  }

  lemma Regroup2(a: seq<Byte>, b: seq<Byte>, c: seq<Byte>, d: seq<Byte>, e: seq<Byte>, f: seq<Byte>)
    ensures a + b + c + (d + e) + f == a + (b + c + d) + (e + f)
  {
  }

  /** With at most 55 bytes after the last full block, the padding completes that block. */
  lemma PadsOneBlock(blocks: seq<Byte>, rest: seq<Byte>)
    requires |blocks| % 64 == 0 && |rest| <= 55
    ensures Pad(blocks + rest) == blocks + (rest + [0x80] + Zeros(55 - |rest|) + BigEndian(8 * |blocks + rest|, 8))
  {
    hide BigEndian, Zeros;
    assert (55 - |blocks + rest|) % 64 == 55 - |rest|;
    Regroup(blocks, rest, [0x80], Zeros(55 - |rest|), BigEndian(8 * |blocks + rest|, 8));
  }

  /** With more, it completes that block and adds another. */
  lemma PadsTwoBlocks(blocks: seq<Byte>, rest: seq<Byte>)
    requires |blocks| % 64 == 0 && 56 <= |rest| < 64
    ensures Pad(blocks + rest)
         == blocks + (rest + [0x80] + Zeros(63 - |rest|)) + (Zeros(56) + BigEndian(8 * |blocks + rest|, 8))
  {
    hide BigEndian, Zeros;
    assert (55 - |blocks + rest|) % 64 == 63 - |rest| + 56;
    ZerosSplit(63 - |rest|, 56);
    Regroup2(blocks, rest, [0x80], Zeros(63 - |rest|), Zeros(56), BigEndian(8 * |blocks + rest|, 8));
  }

  lemma FoldStep(blocks: seq<Byte>, block: seq<Byte>)
    requires |blocks| % 64 == 0 && |block| == 64
    ensures Fold(blocks + block) == Compress(Fold(blocks), block)
  {
    hide Compress;
    var m := blocks + block;
    assert m[..|m| - 64] == blocks && m[|m| - 64..] == block;
  }

  // ---------------------------------------------------------------- the implementation

  function LoadWord(s: seq<Byte>): Word
    requires |s| == 4
  {
    (0x100_0000 * s[0] as int + 0x1_0000 * s[1] as int + 0x100 * s[2] as int + s[3] as int) as bv32
  }

  lemma FourByteValue(s: seq<Byte>)
    requires |s| == 4
    ensures Value(s) == 0x100_0000 * s[0] as int + 0x1_0000 * s[1] as int + 0x100 * s[2] as int + s[3] as int
  {
    var s3, s2, s1 := s[..3], s[..2], s[..1];
    assert s3[..2] == s2 && s2[..1] == s1 && s1[..0] == [];
    assert Value(s1) == s[0] as int;
    assert Value(s2) == 0x100 * Value(s1) + s[1] as int;
    assert Value(s3) == 0x100 * Value(s2) + s[2] as int;
  }

  lemma LoadWordBigEndian(s: seq<Byte>)
    requires |s| == 4
    ensures LoadWord(s) == WordOf(s)
  {
    hide Value;
    FourByteValue(s);
  }

  function StoreWord(w: Word): (s: seq<Byte>)
    ensures |s| == 4
  {
    var n := w as int;
    [n / 0x100_0000 % 0x100, n / 0x1_0000 % 0x100, n / 0x100 % 0x100, n % 0x100]
  }

  lemma StoreWordBigEndian(w: Word)
    ensures StoreWord(w) == BigEndian(w as int, 4)
  {
    var n := w as int;
    assert BigEndian(n / 0x100_0000, 1) == [n / 0x100_0000 % 0x100];
    assert n / 0x100 / 0x100 == n / 0x1_0000 && n / 0x1_0000 / 0x100 == n / 0x100_0000;
    assert BigEndian(n / 0x1_0000, 2) == BigEndian(n / 0x100_0000, 1) + [n / 0x1_0000 % 0x100];
    assert BigEndian(n / 0x100, 3) == BigEndian(n / 0x1_0000, 2) + [n / 0x100 % 0x100];
  }

  lemma SumReordered(w: Word, x: Word, y: Word, z: Word)
    ensures Sum4(w, x, y, z) == Sum4(z, y, x, w)
  {
  }

  method ExpandBlock(block: seq<Byte>) returns (words: array<Word>)
    requires |block| == 64
    ensures fresh(words) && words.Length == 64
    ensures forall t :: 0 <= t < 64 ==> words[t] == Schedule(block, t)
  {
    hide LoadWord, WordOf, SmallSigma0, SmallSigma1, Sum4;
    words := new Word[64];
    for index := 0 to 16
      invariant forall t :: 0 <= t < index ==> words[t] == Schedule(block, t)
    {
      LoadWordBigEndian(block[4 * index..4 * index + 4]);
      words[index] := LoadWord(block[4 * index..4 * index + 4]);
    }
    for index := 16 to 64
      invariant forall t :: 0 <= t < index ==> words[t] == Schedule(block, t)
    {
      var sigma0 := SmallSigma0(words[index - 15]);
      var sigma1 := SmallSigma1(words[index - 2]);
      SumReordered(words[index - 16], sigma0, words[index - 7], sigma1);
      words[index] := Sum4(words[index - 16], sigma0, words[index - 7], sigma1);
    }
  }

  /** The hash context: a chaining value, a partly filled block and the number of message bits. */
  class Context {
    var state: Chaining
    var bitCount: nat
    var bufferUsed: nat
    const buffer: array<Byte>
    ghost var blocks: seq<Byte>

    ghost predicate Valid()
      reads this, buffer
    {
      && buffer.Length == 64 && bufferUsed < 64
      && |blocks| % 64 == 0
      && state == Fold(blocks)
    }

    /** Every byte given to Update so far. */
    ghost function Message(): seq<Byte>
      requires Valid()
      reads this, buffer
    {
      blocks + buffer[..bufferUsed]
    }

    constructor ()
      ensures Valid() && Message() == [] && bitCount == 0
      ensures fresh(buffer)
    {
      state := Initial();
      bitCount := 0;
      bufferUsed := 0;
      buffer := new Byte[64](i => 0);
      blocks := [];
    }

    method Transform(block: seq<Byte>)
      requires |block| == 64
      modifies this`state
      ensures state == Compress(old(state), block)
    {
      hide Schedule, BigSigma0, BigSigma1, Ch, Maj, K, Sum, Sum4;
      var words := ExpandBlock(block);
      var h := state;
      var v := Start(h);
      for index := 0 to 64
        invariant v == Rounds(Start(h), block, index)
      {
        var temporary1 := Sum(Sum4(v.h, BigSigma1(v.e), Ch(v.e, v.f, v.g), K()[index]), words[index]);
        var temporary2 := Sum(BigSigma0(v.a), Maj(v.a, v.b, v.c));
        v := v.(h := v.g);
        v := v.(g := v.f);
        v := v.(f := v.e);
        v := v.(e := Sum(v.d, temporary1));
        v := v.(d := v.c);
        v := v.(c := v.b);
        v := v.(b := v.a);
        v := v.(a := Sum(temporary1, temporary2));
      }
      state := Added(h, v);
    }

    /** Append bytes to the buffer, compressing it each time it fills. */
    method Update(payload: seq<Byte>) returns (ok: bool)
      requires Valid() && bitCount < SIZE_LIMIT
      modifies this, buffer
      ensures Valid() && bitCount < SIZE_LIMIT
      ensures ok <==> old(bitCount) + 8 * |payload| < SIZE_LIMIT
      ensures ok ==> Message() == old(Message()) + payload && bitCount == old(bitCount) + 8 * |payload|
      ensures !ok ==> Message() == old(Message()) && bitCount == old(bitCount)
    {
      hide Fold, Compress;
      if |payload| > (SIZE_LIMIT - 1 - bitCount) / 8 {
        return false;
      }
      bitCount := bitCount + 8 * |payload|;
      ghost var before := Message();
      var offset := 0;
      assert payload[..0] == [];
      while offset < |payload|
        invariant 0 <= offset <= |payload| && Valid()
        invariant bitCount == old(bitCount) + 8 * |payload|
        invariant Message() == before + payload[..offset]
      {
        var available := 64 - bufferUsed;
        var amount := if |payload| - offset < available then |payload| - offset else available;
        Fill(payload[offset..offset + amount]);
        assert before + payload[..offset] + payload[offset..offset + amount] == before + payload[..offset + amount];
        offset := offset + amount;
      }
      assert payload[..|payload|] == payload;
      return true;
    }

    /** One pass of the loop: the bytes fit in the buffer. */
    method Fill(bytes: seq<Byte>)
      requires Valid() && 0 < |bytes| <= 64 - bufferUsed
      modifies this`state, this`bufferUsed, this`blocks, buffer
      ensures Valid() && Message() == old(Message()) + bytes
    {
      hide Fold, Compress;
      ghost var rest := buffer[..bufferUsed];
      forall i | 0 <= i < |bytes| {
        buffer[bufferUsed + i] := bytes[i];
      }
      assert buffer[..bufferUsed + |bytes|] == rest + bytes;
      bufferUsed := bufferUsed + |bytes|;
      assert blocks + (rest + bytes) == blocks + rest + bytes;
      if bufferUsed == 64 {
        assert buffer[..] == rest + bytes;
        CompressBuffer();
      }
    }

    /** Pad, append the length, and give the final chaining value; the context is wiped. */
    method Finish() returns (digest: seq<Byte>)
      requires Valid() && bitCount == 8 * |Message()| < SIZE_LIMIT
      modifies this, buffer
      ensures digest == Hash(old(Message()))
      ensures state == seq(8, i => 0) && bitCount == 0 && bufferUsed == 0 && buffer[..] == Zeros(64)
    {
      hide Fold, Compress, Pad, BigEndian, Zeros;
      ghost var message, rest := Message(), buffer[..bufferUsed];
      var bits := bitCount;
      buffer[bufferUsed] := 0x80;
      bufferUsed := bufferUsed + 1;
      assert buffer[..bufferUsed] == rest + [0x80];
      if bufferUsed > 56 {
        PadsTwoBlocks(blocks, rest);
        ClearTo(64);
        assert buffer[..64] == buffer[..];
        CompressBuffer();
      } else {
        PadsOneBlock(blocks, rest);
      }
      ClearTo(56);
      StoreLength(bits);
      assert blocks + buffer[..] == Pad(message);
      CompressBuffer();
      digest := StoreState();
      Wipe();
    }

    method CompressBuffer()
      requires buffer.Length == 64 && |blocks| % 64 == 0 && state == Fold(blocks)
      modifies this`state, this`blocks, this`bufferUsed
      ensures blocks == old(blocks) + buffer[..] && state == Fold(blocks) && bufferUsed == 0
    {
      hide Fold, Compress;
      FoldStep(blocks, buffer[..]);
      Transform(buffer[..]);
      blocks := blocks + buffer[..];
      bufferUsed := 0;
    }

    method ClearTo(end: nat)
      requires buffer.Length == 64 && bufferUsed <= end <= 64
      modifies buffer
      ensures buffer[..end] == old(buffer[..bufferUsed]) + Zeros(end - bufferUsed)
      ensures bufferUsed == 0 ==> buffer[..end] == Zeros(end)
    {
      forall i | bufferUsed <= i < end {
        buffer[i] := 0;
      }
    }

    method StoreLength(bits: nat)
      requires buffer.Length == 64
      modifies buffer
      ensures buffer[..] == old(buffer[..56]) + BigEndian(bits, 8)
    {
      for index := 0 to 8
        invariant buffer[..56] == old(buffer[..56])
        invariant forall k :: 0 <= k < index ==> buffer[63 - k] == ShiftRight(bits, k) % 0x100
      {
        buffer[63 - index] := ShiftRight(bits, index) % 0x100;
      }
      ghost var field := BigEndian(bits, 8);
      forall k | 0 <= k < 8
        ensures buffer[56 + k] == field[k]
      {
        BigEndianAt(bits, 8, 7 - k);
        assert buffer[63 - (7 - k)] == ShiftRight(bits, 7 - k) % 0x100;
      }
    }

    method StoreState() returns (digest: seq<Byte>)
      ensures digest == Serialize(state)
    {
      hide BigEndian, StoreWord;
      digest := [];
      for index := 0 to 8
        invariant digest == Serialize(state[..index])
      {
        assert state[..index + 1][..index] == state[..index];
        StoreWordBigEndian(state[index]);
        digest := digest + StoreWord(state[index]);
      }
      assert state[..8] == state;
    }

    method Wipe()
      requires buffer.Length == 64
      modifies this, buffer
      ensures state == seq(8, i => 0) && bitCount == 0 && bufferUsed == 0 && buffer[..] == Zeros(64)
    {
      state := seq(8, i => 0);
      bitCount := 0;
      bufferUsed := 0;
      blocks := [];
      forall i | 0 <= i < 64 {
        buffer[i] := 0;
      }
    }
  }

  function Concatenated(chunks: seq<seq<Byte>>): seq<Byte> {
    if chunks == [] then [] else Concatenated(chunks[..|chunks| - 1]) + chunks[|chunks| - 1]
  }

  lemma {:induction false} ConcatenatedGrows(chunks: seq<seq<Byte>>, n: nat)
    requires n <= |chunks|
    ensures |Concatenated(chunks[..n])| <= |Concatenated(chunks)|
    decreases |chunks|
  {
    if n < |chunks| {
      ConcatenatedGrows(chunks[..|chunks| - 1], n);
      assert chunks[..|chunks| - 1][..n] == chunks[..n];
    } else {
      assert chunks[..n] == chunks;
    }
  }

  /** However a message is split into updates, the digest is that of the whole message; it is refused
      exactly when the message has 2^64 bits or more. */
  method HashChunks(chunks: seq<seq<Byte>>) returns (digest: Option<seq<Byte>>)
    ensures digest == if 8 * |Concatenated(chunks)| < SIZE_LIMIT then Some(Hash(Concatenated(chunks))) else None
  {
    hide Hash;
    var context := new Context();
    for index := 0 to |chunks|
      invariant context.Valid() && fresh(context) && fresh(context.buffer)
      invariant context.Message() == Concatenated(chunks[..index])
      invariant context.bitCount == 8 * |context.Message()| < SIZE_LIMIT
    {
      assert chunks[..index + 1][..index] == chunks[..index];
      var ok := context.Update(chunks[index]);
      if !ok {
        ConcatenatedGrows(chunks, index + 1);
        return None;
      }
    }
    assert chunks[..|chunks|] == chunks;
    var d := context.Finish();
    return Some(d);
  }

  /** The one-shot form used on every loaded file. */
  method HashOnce(payload: seq<Byte>) returns (digest: Option<seq<Byte>>)
    ensures digest == if 8 * |payload| < SIZE_LIMIT then Some(Hash(payload)) else None
  {
    hide Hash;
    var context := new Context();
    var ok := context.Update(payload);
    if !ok {
      return None;
    }
    assert [] + payload == payload;
    var d := context.Finish();
    return Some(d);
  }
}
