/**
  The streaming SHA-256 of c/sha256.c, proved to compute the digest of Sha256Spec for every
  message and every way of cutting it into `Update` calls.
 */
module Sha256 {
  import opened ByteOrder
  import opened Sha256Spec

  // ----- the macros of the C file, with rotations spelled out as shifts

  function BSig0(x: word): (r: word)
    ensures r == BigSigma0(x)
  {
    ((x >> 2) | (x << 30)) ^ ((x >> 13) | (x << 19)) ^ ((x >> 22) | (x << 10))
  }

  function BSig1(x: word): (r: word)
    ensures r == BigSigma1(x)
  {
    ((x >> 6) | (x << 26)) ^ ((x >> 11) | (x << 21)) ^ ((x >> 25) | (x << 7))
  }

  function SSig0(x: word): (r: word)
    ensures r == SmallSigma0(x)
  {
    ((x >> 7) | (x << 25)) ^ ((x >> 18) | (x << 14)) ^ (x >> 3)
  }

  function SSig1(x: word): (r: word)
    ensures r == SmallSigma1(x)
  {
    ((x >> 17) | (x << 15)) ^ ((x >> 19) | (x << 13)) ^ (x >> 10)
  }

  // ----- words in and out

  lemma ByteFits(b: byte)
    ensures (b as word) <= 255
  {
  }

  /** Shifting and or-ing four bytes together gives the word they stand for. */
  function LoadWord(b0: byte, b1: byte, b2: byte, b3: byte): (w: word)
    ensures w == WordOf(b0, b1, b2, b3)
  {
    ByteFits(b0);
    ByteFits(b1);
    ByteFits(b2);
    ByteFits(b3);
    ((b0 as word) << 24) | ((b1 as word) << 16) | ((b2 as word) << 8) | (b3 as word)
  }

  /** And shifting and masking gives its digits. */
  function StoreWord(w: word): (s: bytes)
    ensures s == BytesOfWord(w)
  {
    ShiftsAreDigits(w);
    [((w >> 24) & 0xFF) as byte, ((w >> 16) & 0xFF) as byte, ((w >> 8) & 0xFF) as byte, (w & 0xFF) as byte]
  }

  lemma ShiftsAreDigits(w: word)
    ensures (w >> 24) & 0xFF == w / 0x100_0000 % 256 && (w >> 16) & 0xFF == w / 0x1_0000 % 256
    ensures (w >> 8) & 0xFF == w / 0x100 % 256 && w & 0xFF == w % 256
  {
  }

  // ----- one block

  /** The sixty-four words of the message schedule, filled in place. */
  method FillSchedule(w: array<word>, block: bytes)
    requires w.Length == 64 && |block| == BLOCK_SIZE
    modifies w
    ensures forall t :: 0 <= t < 64 ==> w[t] == Schedule(block, t)
  {
    hide Sum4, SSig0, SSig1, SmallSigma0, SmallSigma1, WordOf, LoadWord, Schedule;
    for i := 0 to 16
      invariant forall t :: 0 <= t < i ==> w[t] == Schedule(block, t)
    {
      ScheduleWord(block, i);
      w[i] := LoadWord(block[i * 4], block[i * 4 + 1], block[i * 4 + 2], block[i * 4 + 3]);
    }
    for i := 16 to 64
      invariant forall t :: 0 <= t < i ==> w[t] == Schedule(block, t)
    {
      ScheduleWord(block, i);
      w[i] := Sum4(SSig1(w[i - 2]), w[i - 7], SSig0(w[i - 15]), w[i - 16]);
    }
  }

  /** The sixty-four rounds, on eight rotating locals. */
  method RunRounds(w: array<word>, start: Vars, ghost block: bytes) returns (v: Vars)
    requires w.Length == 64 && |block| == BLOCK_SIZE
    requires forall t :: 0 <= t < 64 ==> w[t] == Schedule(block, t)
    ensures v == Rounds(start, block, 64)
  {
    hide Plus, Sum5, BSig0, BSig1, BigSigma0, BigSigma1, Ch, Maj, Schedule, RoundConstant;
    var a, b, c, d := start.a, start.b, start.c, start.d;
    var e, f, g, h := start.e, start.f, start.g, start.h;
    for i := 0 to 64
      invariant Vars(a, b, c, d, e, f, g, h) == Rounds(start, block, i)
    {
      var t1 := Sum5(h, BSig1(e), Ch(e, f, g), RoundConstant(i), w[i]);
      var t2 := Plus(BSig0(a), Maj(a, b, c));
      h := g;
      g := f;
      f := e;
      e := Plus(d, t1);
      d := c;
      c := b;
      b := a;
      a := Plus(t1, t2);
    }
    v := Vars(a, b, c, d, e, f, g, h);
  }

  // ----- the context

  /** `sha256_ctx`. `absorbed` is every byte fed to `Update` so far. */
  class Context {
    const state: array<word>
    const buffer: array<byte>
    var bitCount: nat
    var buffered: nat
    ghost var absorbed: bytes
    ghost var blocks: nat

    /** The running hash covers the complete blocks, the buffer holds the rest. */
    ghost predicate Valid()
      reads this, state, buffer
    {
      && state.Length == 8 && buffer.Length == BLOCK_SIZE
      && bitCount < U64_LIMIT
      && buffered < BLOCK_SIZE
      && Buffering()
    }

    ghost predicate Buffering()
      requires state.Length == 8 && buffer.Length == BLOCK_SIZE
      reads this, state, buffer
    {
      && buffered <= BLOCK_SIZE
      && |absorbed| == BLOCK_SIZE * blocks + buffered
      && buffer[..buffered] == absorbed[BLOCK_SIZE * blocks..]
      && Hash() == Absorb(Initial, absorbed, blocks)
    }

    /** The bit counter agrees with the bytes fed: true from `init` until `final` starts padding. */
    ghost predicate Counted()
      reads this, state, buffer
    {
      Valid() && bitCount == (8 * |absorbed|) % U64_LIMIT
    }

    ghost function Hash(): Vars
      requires state.Length == 8
      reads state
    {
      Vars(state[0], state[1], state[2], state[3], state[4], state[5], state[6], state[7])
    }

    /** `sha256_init`. */
    constructor ()
      ensures Counted() && fresh(state) && fresh(buffer)
      ensures absorbed == [] && bitCount == 0
    {
      state := new word[8];
      buffer := new byte[BLOCK_SIZE];
      bitCount, buffered := 0, 0;
      absorbed, blocks := [], 0;
      new;
      state[0], state[1], state[2], state[3] := 0x6a09e667, 0xbb67ae85, 0x3c6ef372, 0xa54ff53a;
      state[4], state[5], state[6], state[7] := 0x510e527f, 0x9b05688c, 0x1f83d9ab, 0x5be0cd19;
    }

    /** `sha256_block`: section 6.2.2 for one block, in place on `state`. */
    method Block(block: bytes)
      requires state.Length == 8 && |block| == BLOCK_SIZE
      modifies state
      ensures Hash() == Compress(old(Hash()), block)
    {
      hide Add, Rounds, Schedule;
      var w := new word[64];
      FillSchedule(w, block);
      var start := Vars(state[0], state[1], state[2], state[3], state[4], state[5], state[6], state[7]);
      var v := RunRounds(w, start, block);
      AddState(v);
    }

    method AddState(v: Vars)
      requires state.Length == 8
      modifies state
      ensures Hash() == Add(old(Hash()), v)
    {
      hide Plus;
      state[0], state[1] := Plus(state[0], v.a), Plus(state[1], v.b);
      state[2], state[3] := Plus(state[2], v.c), Plus(state[3], v.d);
      state[4], state[5] := Plus(state[4], v.e), Plus(state[5], v.f);
      state[6], state[7] := Plus(state[6], v.g), Plus(state[7], v.h);
    }

    /** The `memcpy` into the buffer. */
    method Store(data: bytes)
      requires state.Length == 8 && buffer.Length == BLOCK_SIZE && Buffering()
      requires buffered + |data| <= BLOCK_SIZE
      modifies this`buffered, this`absorbed, buffer
      ensures Buffering() && absorbed == old(absorbed) + data && buffered == old(buffered) + |data|
    {
      hide Absorb;
      var at := buffered;
      forall i | 0 <= i < |data| {
        buffer[at + i] := data[i];
      }
      AbsorbPrefix(Initial, absorbed, data, blocks);
      absorbed := absorbed + data;
      buffered := at + |data|;
      assert buffer[..buffered] == old(buffer[..at]) + data;
    }

    /** `sha256_block(ctx, ctx->buffer)` on a full buffer. */
    method FlushBuffer()
      requires state.Length == 8 && buffer.Length == BLOCK_SIZE && Buffering()
      requires buffered == BLOCK_SIZE
      modifies this`buffered, this`blocks, state
      ensures Buffering() && buffered == 0
    {
      hide Compress;
      Block(buffer[..]);
      assert buffer[..] == buffer[..buffered];
      blocks := blocks + 1;
      assert absorbed[BLOCK_SIZE * (blocks - 1)..BLOCK_SIZE * blocks] == buffer[..];
      buffered := 0;
    }

    /** A block taken straight from the caller's data. */
    method TakeBlock(block: bytes)
      requires state.Length == 8 && buffer.Length == BLOCK_SIZE && Buffering()
      requires buffered == 0 && |block| == BLOCK_SIZE
      modifies this`absorbed, this`blocks, state
      ensures Buffering() && absorbed == old(absorbed) + block
    {
      hide Compress;
      Block(block);
      AbsorbPrefix(Initial, absorbed, block, blocks);
      absorbed := absorbed + block;
      blocks := blocks + 1;
      assert absorbed[BLOCK_SIZE * (blocks - 1)..BLOCK_SIZE * blocks] == block;
    }

    /** `ctx->bit_count += len * 8`, modulo 2^64. */
    method CountBits(len: nat)
      requires Valid()
      modifies this`bitCount
      ensures Valid() && bitCount == (old(bitCount) + 8 * len) % U64_LIMIT
    {
      hide Absorb;
      bitCount := (bitCount + 8 * len) % U64_LIMIT;
    }

    /** If the buffer is not empty, fills it from the front of `data`, and says how many bytes that took. */
    method TopUp(data: bytes) returns (p: nat)
      requires Valid()
      modifies this`buffered, this`absorbed, this`blocks, state, buffer
      ensures Valid() && p <= |data|
      ensures absorbed == old(absorbed) + data[..p]
      ensures buffered == 0 || p == |data|
    {
      hide Buffering;
      p := 0;
      if buffered > 0 {
        var need := BLOCK_SIZE - buffered;
        var take := if |data| < need then |data| else need;
        Store(data[..take]);
        p := take;
        if buffered == BLOCK_SIZE {
          FlushBuffer();
        }
      }
    }

    /** Processes complete blocks of `data` from position `from` on, without buffering them. */
    method TakeBlocks(data: bytes, from: nat) returns (p: nat)
      requires Valid() && from <= |data| && (buffered == 0 || from == |data|)
      modifies this`absorbed, this`blocks, state
      ensures Valid() && from <= p <= |data| && |data| - p < BLOCK_SIZE
      ensures absorbed == old(absorbed) + data[from..p]
    {
      hide Buffering;
      p := from;
      while |data| - p >= BLOCK_SIZE
        invariant from <= p <= |data| && Valid()
        invariant buffered == 0 || p == |data|
        invariant absorbed == old(absorbed) + data[from..p]
      {
        TakeBlock(data[p..p + BLOCK_SIZE]);
        assert data[from..p] + data[p..p + BLOCK_SIZE] == data[from..p + BLOCK_SIZE];
        p := p + BLOCK_SIZE;
      }
    }

    /** `sha256_update`. */
    method Update(data: bytes)
      requires Valid()
      modifies this, state, buffer
      ensures Valid()
      ensures absorbed == old(absorbed) + data
      ensures bitCount == (old(bitCount) + 8 * |data|) % U64_LIMIT
      ensures old(Counted()) ==> Counted()
    {
      hide Buffering;
      CountedBits(|absorbed|, |data|);
      CountBits(|data|);
      var taken := TopUp(data);
      var p := TakeBlocks(data, taken);
      assert data[..taken] + data[taken..p] + data[p..] == data;
      if p < |data| {
        Store(data[p..]);
      }
    }

    /** The zero loop of `sha256_final` feeds as many zeros as the standard asks for. */
    method PadZeros(ghost m: bytes, bits: u64)
      requires Valid() && absorbed == m + [0x80] && bitCount == bits
      modifies this, state, buffer
      ensures Valid() && absorbed == m + [0x80] + Zeros(ZeroCount(|m|)) && bitCount == bits
    {
      hide Absorb;
      ghost var z := 0;
      while buffered != BLOCK_SIZE - 8
        invariant Valid() && z <= ZeroCount(|m|) && bitCount == bits
        invariant absorbed == m + [0x80] + Zeros(z)
        decreases ZeroCount(|m|) - z
      {
        ZerosLeft(|m|, z, blocks, buffered);
        Update([0]);
        ResetBits(bits);
        z := z + 1;
      }
      ZerosDone(|m|, z, blocks);
    }

    /** The length field, from the counter as it was before the padding. */
    method AppendLength(ghost m: bytes, bits: u64)
      requires Valid() && absorbed == m + [0x80] + Zeros(ZeroCount(|m|))
      requires bits == (8 * |m|) % U64_LIMIT
      modifies this, state, buffer
      ensures Valid() && absorbed == Pad(m)
    {
      hide Buffering, BigEndian, BlockCount, ZeroCount;
      var lengthBytes := new byte[8];
      PutU64(lengthBytes, 0, bits);
      assert lengthBytes[..] == lengthBytes[0..8];
      Update(lengthBytes[..]);
    }

    /** All of the padding: 0x80, the zeros, and the length. */
    method AppendPadding()
      requires Counted()
      modifies this, state, buffer
      ensures Valid() && absorbed == Pad(old(absorbed))
    {
      hide Buffering, BigEndian, BlockCount, ZeroCount;
      ghost var m := absorbed;
      var bits := bitCount;
      Update([0x80]);
      ResetBits(bits);
      PadZeros(m, bits);
      AppendLength(m, bits);
    }

    /** Puts the counter back to where it was before the padding went in. */
    method ResetBits(bits: u64)
      requires Valid()
      modifies this`bitCount
      ensures Valid() && bitCount == bits
    {
      hide Absorb;
      bitCount := bits;
    }

    /** The closing loop of `sha256_final`: each word, big-endian. */
    method WriteState(digest: array<byte>)
      requires state.Length == 8 && digest.Length == DIGEST_SIZE
      modifies digest
      ensures state[..] == old(state[..])
      ensures digest[..] == Serialize(state[..])
    {
      hide BytesOfWord, StoreWord;
      ghost var ws := state[..];
      for i := 0 to 8
        invariant state[..] == ws
        invariant digest[..4 * i] == Serialize(ws[..i])
      {
        var s := StoreWord(state[i]);
        ghost var done := digest[..4 * i];
        digest[i * 4], digest[i * 4 + 1], digest[i * 4 + 2], digest[i * 4 + 3] := s[0], s[1], s[2], s[3];
        assert ws[..i + 1][..i] == ws[..i];
        assert digest[..4 * i] == done;
        assert digest[..4 * (i + 1)] == done + s;
      }
      assert ws[..8] == ws && digest[..32] == digest[..];
    }

    /** `sha256_final`: pads by feeding itself, then writes the state out. */
    method Final(digest: array<byte>)
      requires Counted() && digest.Length == DIGEST_SIZE && digest != buffer
      modifies this, state, buffer, digest
      ensures digest[..] == Digest(old(absorbed))
      ensures buffered == 0 && absorbed == Pad(old(absorbed))
    {
      hide Absorb, Serialize;
      ghost var n := BlockCount(|absorbed|);
      AppendPadding();
      assert BLOCK_SIZE * n == BLOCK_SIZE * blocks + buffered;
      assert blocks == n;
      assert state[..] == Words(Hash());
      WriteState(digest);
    }
  }

  /** Until the buffer holds 56 bytes there are zeros still to feed. */
  lemma ZerosLeft(len: nat, z: nat, blocks: nat, buffered: nat)
    requires z <= ZeroCount(len)
    requires len + 1 + z == BLOCK_SIZE * blocks + buffered && buffered < BLOCK_SIZE
    requires buffered != BLOCK_SIZE - 8
    ensures z < ZeroCount(len)
  {
  }

  /** And when it does, exactly the standard's count has been fed. */
  lemma ZerosDone(len: nat, z: nat, blocks: nat)
    requires z <= ZeroCount(len)
    requires len + 1 + z == BLOCK_SIZE * blocks + (BLOCK_SIZE - 8)
    ensures z == ZeroCount(len) && blocks + 1 == BlockCount(len)
  {
  }

  // ----- whole messages

  function Flatten(chunks: seq<bytes>): bytes {
    if chunks == [] then [] else Flatten(chunks[..|chunks| - 1]) + chunks[|chunks| - 1]
  }

  /** Init, one update per chunk, final: the digest depends only on the bytes, not on the cuts. */
  method HashChunks(chunks: seq<bytes>) returns (d: bytes)
    ensures d == Digest(Flatten(chunks))
  {
    hide Digest, Context.Valid;
    var ctx := new Context();
    for i := 0 to |chunks|
      invariant ctx.Counted() && fresh(ctx.state) && fresh(ctx.buffer)
      invariant ctx.absorbed == Flatten(chunks[..i])
    {
      assert chunks[..i + 1][..i] == chunks[..i];
      ctx.Update(chunks[i]);
    }
    assert chunks[..|chunks|] == chunks;
    var digest := new byte[DIGEST_SIZE];
    ctx.Final(digest);
    return digest[..];
  }

  lemma CountedBits(n: nat, len: nat)
    ensures ((8 * n) % U64_LIMIT + 8 * len) % U64_LIMIT == (8 * (n + len)) % U64_LIMIT
  {
  }

  const READ_SIZE: nat := 65536

  datatype FileDigest = Unreadable | Hashed(digest: bytes)

  /** `sha256_file`: `fread` delivers 1 to 65536 bytes at a time; a read error after `readable`
      bytes, if that is before the end of the file, fails the whole call. */
  method HashFile(file: bytes, readable: nat) returns (r: FileDigest)
    ensures r == if readable < |file| then Unreadable else Hashed(Digest(file))
  {
    hide Digest, Context.Valid;
    var ctx := new Context();
    var end := if readable < |file| then readable else |file|;
    var pos := 0;
    while pos < end
      invariant pos <= end && ctx.Counted() && fresh(ctx.state) && fresh(ctx.buffer)
      invariant ctx.absorbed == file[..pos]
    {
      var got :| 1 <= got <= READ_SIZE && pos + got <= end;
      ctx.Update(file[pos..pos + got]);
      assert file[..pos] + file[pos..pos + got] == file[..pos + got];
      pos := pos + got;
    }
    if readable < |file| {
      return Unreadable;
    }
    assert file[..pos] == file;
    var digest := new byte[DIGEST_SIZE];
    ctx.Final(digest);
    return Hashed(digest[..]);
  }
}
