/**
  Bytes, and the big-endian packing that every header and payload of the protocol uses.

  Two views of the same thing are related here: the positional value of a byte string
  (what `int.from_bytes(..., "big")` means) and the shift-and-mask loops of c/frame.c.
  C defines `<<` and `>>` on unsigned operands arithmetically (section 6.5.7 of C11),
  so they are modelled that way; `&` and `|` are defined bit by bit.
 */
module ByteOrder {

  type byte = x: int | 0 <= x < 256

  type bytes = seq<byte>

  const U16_LIMIT: nat := 0x1_0000
  const U64_LIMIT: nat := 0x1_0000_0000_0000_0000

  type u16 = x: int | 0 <= x < 0x1_0000
  type u64 = x: int | 0 <= x < 0x1_0000_0000_0000_0000

  // ----- the positional value

  /** The number a byte string denotes, most significant byte first. */
  function Value(s: bytes): nat {
    if s == [] then 0 else Value(s[..|s| - 1]) * 256 + s[|s| - 1]
  }

  /** The `width` low-order base-256 digits of `v`, most significant first. */
  function BigEndian(v: nat, width: nat): (s: bytes)
    ensures |s| == width
  {
    if width == 0 then [] else BigEndian(v / 256, width - 1) + [v % 256]
  }

  function Pow256(k: nat): (p: nat)
    ensures p >= 1
  {
    if k == 0 then 1 else 256 * Pow256(k - 1)
  }

  lemma {:induction false} ValueBound(s: bytes)
    ensures Value(s) < Pow256(|s|)
  {
    if s != [] {
      ValueBound(s[..|s| - 1]);
    }
  }

  /** Packing loses exactly the digits above `width`. */
  lemma {:induction false} ValueOfBigEndian(v: nat, width: nat)
    ensures Value(BigEndian(v, width)) == v % Pow256(width)
  {
    if width > 0 {
      ValueOfBigEndian(v / 256, width - 1);
      var s := BigEndian(v, width);
      assert s[..|s| - 1] == BigEndian(v / 256, width - 1);
      ModStep(v, Pow256(width - 1));
    }
  }

  lemma ModStep(v: nat, m: nat)
    requires m > 0
    ensures v % (256 * m) == ((v / 256) % m) * 256 + v % 256
  {
    var q := v / 256;
    var r := ((q % m) * 256) + v % 256;
    assert q == m * (q / m) + q % m;
    assert v == 256 * q + v % 256;
    assert v == (256 * m) * (q / m) + r by {
      assert 256 * (m * (q / m) + q % m) == 256 * (m * (q / m)) + 256 * (q % m);
      assert 256 * (m * (q / m)) == (256 * m) * (q / m);
    }
    assert 0 <= r < 256 * m;
    DivisionUnique(v, 256 * m, q / m, r);
  }

  lemma DivisionUnique(v: nat, m: nat, q: nat, r: nat)
    requires m > 0 && r < m && v == m * q + r
    ensures v / m == q && v % m == r
  {
    var d := v / m - q;
    assert m * d == r - v % m;
    assert d >= 1 ==> m * d >= m;
    assert d <= -1 ==> m * d + m <= 0;
  }

  /** Unpacking is injective: a byte string is determined by its value and its length. */
  lemma {:induction false} BigEndianOfValue(s: bytes)
    ensures BigEndian(Value(s), |s|) == s
  {
    if s != [] {
      var front, last := s[..|s| - 1], s[|s| - 1];
      BigEndianOfValue(front);
      assert Value(s) / 256 == Value(front) && Value(s) % 256 == last;
      assert s == front + [last];
    }
  }

  lemma Pow256Of2And8()
    ensures Pow256(2) == U16_LIMIT && Pow256(8) == U64_LIMIT
  {
    assert Pow256(4) == 0x1_0000_0000;
    assert Pow256(6) == 0x1_0000_0000_0000;
  }

  /** The round trips at the two widths the protocol uses. */
  lemma U64RoundTrip(v: u64)
    ensures Value(BigEndian(v, 8)) == v
  {
    ValueOfBigEndian(v, 8);
    Pow256Of2And8();
  }

  lemma U16RoundTrip(v: u16)
    ensures Value(BigEndian(v, 2)) == v
  {
    ValueOfBigEndian(v, 2);
    Pow256Of2And8();
  }

  lemma U64OfBytes(s: bytes)
    requires |s| == 8
    ensures Value(s) < U64_LIMIT && BigEndian(Value(s), 8) == s
  {
    ValueBound(s);
    Pow256Of2And8();
    BigEndianOfValue(s);
  }

  lemma U16OfBytes(s: bytes)
    requires |s| == 2
    ensures Value(s) < U16_LIMIT && BigEndian(Value(s), 2) == s
  {
    ValueBound(s);
    Pow256Of2And8();
    BigEndianOfValue(s);
  }

  // ----- the bit operators of C on unsigned values

  function Pow2(k: nat): (p: nat)
    ensures p >= 1
  {
    if k == 0 then 1 else 2 * Pow2(k - 1)
  }

  /** `x >> k`: the integral part of x / 2^k. */
  function ShiftRight(x: nat, k: nat): nat {
    QuotientIsNat(x, Pow2(k));
    x / Pow2(k)
  }

  lemma QuotientIsNat(x: nat, m: nat)
    requires m > 0
    ensures x / m >= 0
  {
    assert x == m * (x / m) + x % m;
  }

  /** `x << k` on uint64_t: x * 2^k reduced modulo 2^64. */
  function ShiftLeft64(x: nat, k: nat): (r: nat)
    ensures r < U64_LIMIT
  {
    (x * Pow2(k)) % U64_LIMIT
  }

  function BitAnd(x: nat, y: nat): nat {
    if x == 0 || y == 0 then 0
    else 2 * BitAnd(x / 2, y / 2) + (if x % 2 == 1 && y % 2 == 1 then 1 else 0)
  }

  function BitOr(x: nat, y: nat): nat
    decreases x + y
  {
    if x == 0 && y == 0 then 0
    else 2 * BitOr(x / 2, y / 2) + (if x % 2 == 1 || y % 2 == 1 then 1 else 0)
  }

  /** Masking with k one-bits keeps the remainder modulo 2^k. */
  lemma {:induction false} MaskIsRemainder(x: nat, k: nat)
    ensures BitAnd(x, Pow2(k) - 1) == x % Pow2(k)
  {
    if k > 0 {
      var m := Pow2(k - 1);
      MaskIsRemainder(x / 2, k - 1);
      AndWithOdd(x, m);
      HalfRemainder(x, m);
    }
  }

  lemma AndWithOdd(x: nat, m: nat)
    requires m >= 1
    ensures BitAnd(x, 2 * m - 1) == 2 * BitAnd(x / 2, m - 1) + x % 2
  {
    assert (2 * m - 1) / 2 == m - 1 && (2 * m - 1) % 2 == 1;
  }

  lemma HalfRemainder(x: nat, m: nat)
    requires m > 0
    ensures x % (2 * m) == 2 * ((x / 2) % m) + x % 2
  {
    var q := x / 2;
    assert q == m * (q / m) + q % m;
    assert x == (2 * m) * (q / m) + (2 * (q % m) + x % 2) by {
      assert 2 * (m * (q / m)) == (2 * m) * (q / m);
    }
    DivisionUnique(x, 2 * m, q / m, 2 * (q % m) + x % 2);
  }

  /** The lowest bit of an or whose first operand is even. */
  lemma OrStep(y: nat, b: nat)
    ensures BitOr(2 * y, b) == 2 * BitOr(y, b / 2) + b % 2
  {
    assert (2 * y) / 2 == y && (2 * y) % 2 == 0;
  }

  /** Or-ing a k-bit value under a number shifted up by k is addition. */
  lemma {:induction false} OrIsAddition(x: nat, b: nat, k: nat)
    requires b < Pow2(k)
    ensures BitOr(x * Pow2(k), b) == x * Pow2(k) + b
    decreases k
  {
    hide BitOr;
    if k == 0 {
      assert b == 0;
      OrSelfZero(x);
    } else {
      var m := Pow2(k - 1);
      OrIsAddition(x, b / 2, k - 1);
      assert x * Pow2(k) == 2 * (x * m);
      OrStep(x * m, b);
    }
  }

  lemma {:induction false} OrSelfZero(x: nat)
    ensures BitOr(x, 0) == x
  {
    if x > 0 {
      OrSelfZero(x / 2);
    }
  }

  lemma {:induction false} Pow2OfBytes(k: nat)
    ensures Pow2(8 * k) == Pow256(k)
  {
    if k > 0 {
      Pow2OfBytes(k - 1);
      var j := 8 * k - 8;
      assert Pow2(j + 2) == 4 * Pow2(j);
      assert Pow2(j + 4) == 4 * Pow2(j + 2);
      assert Pow2(j + 6) == 4 * Pow2(j + 4);
      assert Pow2(j + 8) == 4 * Pow2(j + 6);
    }
  }

  /** Digit i of the big-endian form is what the shift-and-mask expression extracts. */
  lemma {:induction false} DigitOfBigEndian(v: nat, width: nat, i: nat)
    requires i < width
    ensures BigEndian(v, width)[i] == (v / Pow256(width - 1 - i)) % 256
    decreases width
  {
    if i < width - 1 {
      DigitOfBigEndian(v / 256, width - 1, i);
      DivDiv(v, Pow256(width - 2 - i));
    }
  }

  lemma DivDiv(v: nat, m: nat)
    requires m > 0
    ensures (v / 256) / m == v / (256 * m)
  {
    var q := v / 256;
    assert q == m * (q / m) + q % m;
    var r := 256 * (q % m) + v % 256;
    assert v == (256 * m) * (q / m) + r by {
      assert 256 * (m * (q / m)) == (256 * m) * (q / m);
    }
    assert r < 256 * m;
    DivisionUnique(v, 256 * m, q / m, r);
  }

  lemma ShiftMaskIsDigit(v: u64, i: nat)
    requires i < 8
    ensures BitAnd(ShiftRight(v, 56 - 8 * i), 0xFF) == BigEndian(v, 8)[i]
  {
    DigitOfBigEndian(v, 8, i);
    Pow2OfBytes(7 - i);
    assert 8 * (7 - i) == 56 - 8 * i;
    Pow2OfBytes(1);
    assert Pow2(8) == 256;
    MaskIsRemainder(ShiftRight(v, 56 - 8 * i), 8);
  }

  // ----- the loops of c/frame.c

  /** `rtrv_put_u64`: writes the eight bytes in place and touches nothing else. */
  method PutU64(dst: array<byte>, at: nat, value: u64)
    requires at + 8 <= dst.Length
    modifies dst
    ensures dst[at..at + 8] == BigEndian(value, 8)
    ensures dst[..at] == old(dst[..at]) && dst[at + 8..] == old(dst[at + 8..])
  {
    for i := 0 to 8
      invariant forall k :: 0 <= k < i ==> dst[at + k] == BigEndian(value, 8)[k]
      invariant dst[..at] == old(dst[..at]) && dst[at + 8..] == old(dst[at + 8..])
    {
      ShiftMaskIsDigit(value, i);
      dst[at + i] := BitAnd(ShiftRight(value, 56 - 8 * i), 0xFF);
    }
  }

  /** `rtrv_put_u16`. */
  method PutU16(dst: array<byte>, at: nat, value: u16)
    requires at + 2 <= dst.Length
    modifies dst
    ensures dst[at..at + 2] == BigEndian(value, 2)
    ensures dst[..at] == old(dst[..at]) && dst[at + 2..] == old(dst[at + 2..])
  {
    Pow2OfBytes(1);
    assert Pow2(8) == 256;
    MaskIsRemainder(ShiftRight(value, 8), 8);
    MaskIsRemainder(value, 8);
    dst[at] := BitAnd(ShiftRight(value, 8), 0xFF);
    dst[at + 1] := BitAnd(value, 0xFF);
    assert BigEndian(value, 2) == BigEndian(value / 256, 1) + [value % 256];
    assert BigEndian(value / 256, 1) == BigEndian(value / 256 / 256, 0) + [(value / 256) % 256];
  }

  /** `rtrv_get_u64`: the accumulator is the value of the bytes read so far. */
  method GetU64(src: bytes) returns (value: u64)
    requires |src| >= 8
    ensures value == Value(src[..8])
  {
    value := 0;
    Pow2OfBytes(1);
    assert Pow2(8) == 256;
    for i := 0 to 8
      invariant value == Value(src[..i])
      invariant value < Pow256(i)
    {
      assert src[..i + 1][..i] == src[..i];
      ValueBound(src[..i + 1]);
      Pow256Monotone(i + 1, 8);
      Pow256Of2And8();
      OrIsAddition(value, src[i], 8);
      assert ShiftLeft64(value, 8) == value * 256;
      value := BitOr(ShiftLeft64(value, 8), src[i]);
    }
  }

  lemma {:induction false} Pow256Monotone(j: nat, k: nat)
    requires j <= k
    ensures Pow256(j) <= Pow256(k)
    decreases k
  {
    if j < k {
      Pow256Monotone(j, k - 1);
    }
  }

  /** `rtrv_get_u16`. */
  method GetU16(src: bytes) returns (value: u16)
    requires |src| >= 2
    ensures value == Value(src[..2])
  {
    Pow2OfBytes(1);
    OrIsAddition(src[0], src[1], 8);
    assert src[..2][..1] == src[..1];
    assert src[..1][..0] == [];
    assert Value(src[..1]) == src[0];
    value := BitOr(src[0] * Pow2(8), src[1]);
  }
}
