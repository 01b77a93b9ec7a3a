/**
  SHA-256 as FIPS 180-4 states it: pure functions, one message at a time.

  Section 3.2 gives the rotations, 4.1.2 the six logical functions, 4.2.2 the constants,
  5.1.1 the padding, 5.3.3 the initial hash value and 6.2.2 the computation.
 */
module Sha256Spec {
  import opened ByteOrder

  type word = bv32

  const BLOCK_SIZE: nat := 64
  const DIGEST_SIZE: nat := 32

  // ----- section 4.1.2

  function Ch(x: word, y: word, z: word): word {
    (x & y) ^ (!x & z)
  }

  function Maj(x: word, y: word, z: word): word {
    (x & y) ^ (x & z) ^ (y & z)
  }

  function BigSigma0(x: word): word {
    x.RotateRight(2) ^ x.RotateRight(13) ^ x.RotateRight(22)
  }

  function BigSigma1(x: word): word {
    x.RotateRight(6) ^ x.RotateRight(11) ^ x.RotateRight(25)
  }

  function SmallSigma0(x: word): word {
    x.RotateRight(7) ^ x.RotateRight(18) ^ (x >> 3)
  }

  function SmallSigma1(x: word): word {
    x.RotateRight(17) ^ x.RotateRight(19) ^ (x >> 10)
  }

  // ----- section 4.2.2

  /** The sixty-four constants, eight to a row. */
  const K: seq<seq<word>> := [
    [0x428a2f98, 0x71374491, 0xb5c0fbcf, 0xe9b5dba5, 0x3956c25b, 0x59f111f1, 0x923f82a4, 0xab1c5ed5],
    [0xd807aa98, 0x12835b01, 0x243185be, 0x550c7dc3, 0x72be5d74, 0x80deb1fe, 0x9bdc06a7, 0xc19bf174],
    [0xe49b69c1, 0xefbe4786, 0x0fc19dc6, 0x240ca1cc, 0x2de92c6f, 0x4a7484aa, 0x5cb0a9dc, 0x76f988da],
    [0x983e5152, 0xa831c66d, 0xb00327c8, 0xbf597fc7, 0xc6e00bf3, 0xd5a79147, 0x06ca6351, 0x14292967],
    [0x27b70a85, 0x2e1b2138, 0x4d2c6dfc, 0x53380d13, 0x650a7354, 0x766a0abb, 0x81c2c92e, 0x92722c85],
    [0xa2bfe8a1, 0xa81a664b, 0xc24b8b70, 0xc76c51a3, 0xd192e819, 0xd6990624, 0xf40e3585, 0x106aa070],
    [0x19a4c116, 0x1e376c08, 0x2748774c, 0x34b0bcb5, 0x391c0cb3, 0x4ed8aa4a, 0x5b9cca4f, 0x682e6ff3],
    [0x748f82ee, 0x78a5636f, 0x84c87814, 0x8cc70208, 0x90befffa, 0xa4506ceb, 0xbef9a3f7, 0xc67178f2]
  ]

  function RoundConstant(t: nat): word
    requires t < 64
  {
    K[t / 8][t % 8]
  }

  // ----- section 6.2.2

  /** The eight working variables, and equally the eight words of a hash value. */
  datatype Vars = Vars(a: word, b: word, c: word, d: word, e: word, f: word, g: word, h: word)

  /** Section 5.3.3. */
  const Initial: Vars :=
    Vars(0x6a09e667, 0xbb67ae85, 0x3c6ef372, 0xa54ff53a, 0x510e527f, 0x9b05688c, 0x1f83d9ab, 0x5be0cd19)

  /** Sums of words, modulo 2^32. */
  function Plus(x: word, y: word): word {
    x + y
  }

  function Sum4(a: word, b: word, c: word, d: word): word {
    a + b + c + d
  }

  function Sum5(a: word, b: word, c: word, d: word, e: word): word {
    a + b + c + d + e
  }

  /** Four bytes as a word, most significant first. */
  function WordOf(b0: byte, b1: byte, b2: byte, b3: byte): word {
    (((b0 as word) * 256 + (b1 as word)) * 256 + (b2 as word)) * 256 + (b3 as word)
  }

  /** Word t of the message schedule of a block. */
  function Schedule(block: bytes, t: nat): word
    requires |block| == BLOCK_SIZE && t < 64
  {
    if t < 16 then
      WordOf(block[4 * t], block[4 * t + 1], block[4 * t + 2], block[4 * t + 3])
    else
      Sum4(SmallSigma1(Schedule(block, t - 2)), Schedule(block, t - 7),
           SmallSigma0(Schedule(block, t - 15)), Schedule(block, t - 16))
  }

  /** The defining equation of the schedule, one unfolding at a time. */
  lemma ScheduleWord(block: bytes, t: nat)
    requires |block| == BLOCK_SIZE && t < 64
    ensures t < 16 ==> Schedule(block, t) == WordOf(block[4 * t], block[4 * t + 1], block[4 * t + 2], block[4 * t + 3])
    ensures t >= 16 ==>
      Schedule(block, t) == Sum4(
        SmallSigma1(Schedule(block, t - 2)), Schedule(block, t - 7),
        SmallSigma0(Schedule(block, t - 15)), Schedule(block, t - 16))
  {
    hide Sum4, SmallSigma0, SmallSigma1, WordOf;
  }

  function Round(v: Vars, k: word, w: word): Vars {
    var t1 := Sum5(v.h, BigSigma1(v.e), Ch(v.e, v.f, v.g), k, w);
    var t2 := Plus(BigSigma0(v.a), Maj(v.a, v.b, v.c));
    Vars(Plus(t1, t2), v.a, v.b, v.c, Plus(v.d, t1), v.e, v.f, v.g)
  }

  /** The working variables after `t` rounds. */
  function Rounds(v: Vars, block: bytes, t: nat): Vars
    requires |block| == BLOCK_SIZE && t <= 64
  {
    if t == 0 then v else Round(Rounds(v, block, t - 1), RoundConstant(t - 1), Schedule(block, t - 1))
  }

  function Add(x: Vars, y: Vars): Vars {
    Vars(Plus(x.a, y.a), Plus(x.b, y.b), Plus(x.c, y.c), Plus(x.d, y.d),
         Plus(x.e, y.e), Plus(x.f, y.f), Plus(x.g, y.g), Plus(x.h, y.h))
  }

  /** One step of the hash computation: fold a block into the intermediate hash value. */
  function Compress(h: Vars, block: bytes): Vars
    requires |block| == BLOCK_SIZE
  {
    Add(h, Rounds(h, block, 64))
  }

  /** The intermediate hash value after the first `n` blocks of `data` (sections 5.2.1 and 6.2.2). */
  function Absorb(h: Vars, data: bytes, n: nat): Vars
    requires BLOCK_SIZE * n <= |data|
  {
    if n == 0 then h
    else Compress(Absorb(h, data, n - 1), data[BLOCK_SIZE * (n - 1)..BLOCK_SIZE * n])
  }

  // ----- section 5.1.1

  function Zeros(n: nat): (s: bytes)
    ensures |s| == n
    ensures forall i :: 0 <= i < n ==> s[i] == 0
  {
    seq(n, _ => 0)
  }

  /** How many zero bytes separate the 0x80 byte from the length field. */
  function ZeroCount(len: nat): (z: nat)
    ensures z < 64 && len + 1 + z + 8 == BLOCK_SIZE * BlockCount(len)
  {
    BLOCK_SIZE * BlockCount(len) - 9 - len
  }

  /** The number of blocks of a padded message: the least that holds the message and nine bytes. */
  function BlockCount(len: nat): (n: nat)
    ensures BLOCK_SIZE * (n - 1) < len + 9 <= BLOCK_SIZE * n
  {
    (len + 9 + 63) / 64
  }

  /** The length field: the bit length as a 64-bit big-endian number. The standard defines it
      below 2^64 bits, that is 2^61 bytes; above that the C counter wraps, and so does this. */
  function LengthField(len: nat): (s: bytes)
    ensures |s| == 8
  {
    BigEndian((8 * len) % U64_LIMIT, 8)
  }

  function Pad(m: bytes): (p: bytes)
    ensures |p| == BLOCK_SIZE * BlockCount(|m|)
  {
    m + [0x80] + Zeros(ZeroCount(|m|)) + LengthField(|m|)
  }

  // ----- the digest

  /** The four base-256 digits of a word. */
  function BytesOfWord(w: word): (s: bytes)
    ensures |s| == 4
  {
    [(w / 0x100_0000 % 256) as byte, (w / 0x1_0000 % 256) as byte, (w / 0x100 % 256) as byte, (w % 256) as byte]
  }

  function Words(h: Vars): (s: seq<word>)
    ensures |s| == 8
  {
    [h.a, h.b, h.c, h.d, h.e, h.f, h.g, h.h]
  }

  function Serialize(ws: seq<word>): (s: bytes)
    ensures |s| == 4 * |ws|
  {
    if ws == [] then [] else Serialize(ws[..|ws| - 1]) + BytesOfWord(ws[|ws| - 1])
  }

  /** The SHA-256 digest of a message. */
  function Digest(m: bytes): (d: bytes)
    ensures |d| == DIGEST_SIZE
  {
    Serialize(Words(Absorb(Initial, Pad(m), BlockCount(|m|))))
  }

  // ----- properties of the standard's own definitions

  /** Later bytes do not disturb the blocks already folded. */
  lemma {:induction false} AbsorbPrefix(h: Vars, data: bytes, more: bytes, n: nat)
    requires BLOCK_SIZE * n <= |data|
    ensures Absorb(h, data + more, n) == Absorb(h, data, n)
  {
    hide Compress;
    if n > 0 {
      AbsorbPrefix(h, data, more, n - 1);
      assert (data + more)[BLOCK_SIZE * (n - 1)..BLOCK_SIZE * n] == data[BLOCK_SIZE * (n - 1)..BLOCK_SIZE * n];
    }
  }

  /** Padding loses nothing: messages with the same padded form are the same message. */
  lemma PadInjective(m: bytes, n: bytes)
    requires Pad(m) == Pad(n)
    ensures m == n
  {
    var p := Pad(m);
    assert p[|p| - 8..] == LengthField(|m|) == LengthField(|n|);
    U64RoundTrip((8 * |m|) % U64_LIMIT);
    U64RoundTrip((8 * |n|) % U64_LIMIT);
    assert (8 * |m|) % U64_LIMIT == (8 * |n|) % U64_LIMIT;
    SameResidue(|m|, |n|);
    assert p[..|m|] == m && p[..|n|] == n;
  }

  lemma SameResidue(x: nat, y: nat)
    requires (8 * x) % U64_LIMIT == (8 * y) % U64_LIMIT
    requires -64 < x - y < 64
    ensures x == y
  {
  }
}
