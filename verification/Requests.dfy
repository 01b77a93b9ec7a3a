/**
  The payloads of GET and PUT requests: how the clients build them and how the server takes them
  apart, including the UTF-8 decoding with replacement that stands between the two.
 */
module Requests {
  import opened ByteOrder
  import opened Names

  const HASH_SIZE: nat := 32
  const REPLACEMENT: nat := 0xFFFD

  // ----- decode("utf-8", errors="replace")

  predicate Continuation(b: byte) {
    0x80 <= b < 0xC0
  }

  /** How many bytes a sequence starting with `b` has; 0 if no sequence starts with it. */
  function SequenceLength(b: byte): nat {
    if b < 0x80 then 1
    else if 0xC2 <= b <= 0xDF then 2
    else if 0xE0 <= b <= 0xEF then 3
    else if 0xF0 <= b <= 0xF4 then 4
    else 0
  }

  /** The second byte is restricted after four of the lead bytes. */
  predicate SecondOk(lead: byte, b: byte) {
    && Continuation(b)
    && (lead == 0xE0 ==> b >= 0xA0) && (lead == 0xED ==> b < 0xA0)
    && (lead == 0xF0 ==> b >= 0x90) && (lead == 0xF4 ==> b < 0x90)
  }

  /** How many bytes from the front form a valid beginning of the sequence the first one announces. */
  function ValidPrefix(s: bytes): (k: nat)
    requires s != []
    ensures 1 <= k <= |s| && k <= 4
  {
    var n := SequenceLength(s[0]);
    if n < 2 || |s| < 2 || !SecondOk(s[0], s[1]) then 1
    else if n < 3 || |s| < 3 || !Continuation(s[2]) then 2
    else if n < 4 || |s| < 4 || !Continuation(s[3]) then 3
    else 4
  }

  /** The character a complete sequence of k bytes encodes. */
  function Character(s: bytes, k: nat): (c: nat)
    requires 1 <= k <= |s| && k == ValidPrefix(s) == SequenceLength(s[0])
    ensures k == 1 <==> c < 0x80
    ensures k == 1 ==> c == s[0]
  {
    if k == 1 then s[0]
    else if k == 2 then Combine(s[0] - 0xC0, s[1])
    else if k == 3 then Combine(Combine(s[0] - 0xE0, s[1]), s[2])
    else Combine(Combine(Combine(s[0] - 0xF0, s[1]), s[2]), s[3])
  }

  /** Six more bits from a continuation byte. */
  function Combine(high: nat, b: byte): (c: nat)
    requires Continuation(b)
    ensures c >= 64 * high
  {
    high * 64 + (b - 0x80)
  }

  /** One replacement character stands for each maximal ill-formed piece. */
  function Utf8(s: bytes): seq<nat> {
    if s == [] then []
    else
      var k := ValidPrefix(s);
      [if k == SequenceLength(s[0]) then Character(s, k) else REPLACEMENT] + Utf8(s[k..])
  }

  predicate Ascii(s: seq<nat>) {
    forall i :: 0 <= i < |s| ==> s[i] < 0x80
  }

  /** Decoding gives only ASCII characters exactly when the bytes were ASCII, and then it changes
      nothing: no ill-formed or multi-byte input can be mistaken for a plain name. */
  lemma {:induction false} AsciiOnlyFromAscii(s: bytes)
    ensures Ascii(Utf8(s)) <==> Ascii(s)
    ensures Ascii(s) ==> Utf8(s) == s
    decreases |s|
  {
    hide Character;
    if s != [] {
      var k := ValidPrefix(s);
      AsciiOnlyFromAscii(s[k..]);
      if s[0] < 0x80 {
        assert k == 1 && s == [s[0]] + s[1..];
        assert Utf8(s)[1..] == Utf8(s[1..]);
        assert Ascii(s) <==> Ascii(s[1..]);
        assert Ascii(Utf8(s)) <==> Ascii(Utf8(s[1..]));
      } else {
        assert Utf8(s)[0] >= 0x80;
      }
    }
  }

  /** A character that has an encoding: not one half of a surrogate pair. */
  predicate Scalar(c: nat) {
    c < 0x110000 && !(0xD800 <= c < 0xE000)
  }

  function EncodeCharacter(c: nat): (s: bytes)
    requires Scalar(c)
    ensures 1 <= |s| <= 4
  {
    if c < 0x80 then [c]
    else if c < 0x800 then [0xC0 + c / 64, 0x80 + c % 64]
    else if c < 0x10000 then [0xE0 + c / 4096, 0x80 + c / 64 % 64, 0x80 + c % 64]
    else [0xF0 + c / 262144, 0x80 + c / 4096 % 64, 0x80 + c / 64 % 64, 0x80 + c % 64]
  }

  /** Decoding a well-encoded character gives it back and goes on with what follows. */
  lemma DecodesCharacter(c: nat, tail: bytes)
    requires Scalar(c)
    ensures Utf8(EncodeCharacter(c) + tail) == [c] + Utf8(tail)
  {
    var e := EncodeCharacter(c);
    var s := e + tail;
    WholeSequence(c, tail);
    assert s[|e|..] == tail;
  }

  lemma WholeSequence(c: nat, tail: bytes)
    requires Scalar(c)
    ensures var e := EncodeCharacter(c); var s := e + tail;
      ValidPrefix(s) == SequenceLength(s[0]) == |e| && Character(s, |e|) == c
  {
    var e := EncodeCharacter(c);
    var s := e + tail;
    assert s[..|e|] == e && forall i :: 0 <= i < |e| ==> s[i] == e[i];
    if c < 0x80 {
    } else if c < 0x800 {
      TwoBytes(c);
    } else if c < 0x10000 {
      ThreeBytes(c);
    } else {
      FourBytes(c);
    }
  }

  lemma TwoBytes(c: nat)
    requires 0x80 <= c < 0x800
    ensures 0xC2 <= 0xC0 + c / 64 <= 0xDF && (c / 64) * 64 + c % 64 == c
  {
  }

  lemma ThreeBytes(c: nat)
    requires 0x800 <= c < 0x10000 && Scalar(c)
    ensures 0xE0 <= 0xE0 + c / 4096 <= 0xEF && SecondOk(0xE0 + c / 4096, 0x80 + c / 64 % 64)
    ensures ((c / 4096) * 64 + c / 64 % 64) * 64 + c % 64 == c
  {
    var h := c / 64;
    assert c == h * 64 + c % 64;
    assert h == (h / 64) * 64 + h % 64 && h / 64 == c / 4096;
  }

  lemma FourBytes(c: nat)
    requires 0x10000 <= c && Scalar(c)
    ensures 0xF0 <= 0xF0 + c / 262144 <= 0xF4 && SecondOk(0xF0 + c / 262144, 0x80 + c / 4096 % 64)
    ensures (((c / 262144) * 64 + c / 4096 % 64) * 64 + c / 64 % 64) * 64 + c % 64 == c
  {
    var h := c / 64;
    var g := h / 64;
    assert c == h * 64 + c % 64;
    assert h == g * 64 + h % 64 && g == c / 4096;
    assert g == (g / 64) * 64 + g % 64 && g / 64 == c / 262144;
  }

  /** A byte that starts no sequence, and a sequence broken off after k bytes, count as one ill-formed
      piece: one replacement character, and decoding goes on after it. */
  lemma ReplacesPiece(s: bytes)
    requires s != [] && ValidPrefix(s) != SequenceLength(s[0])
    ensures Utf8(s) == [0xFFFD] + Utf8(s[ValidPrefix(s)..])
  {
  }

  // ----- the two requests

  datatype Request =
    | Get(offset: nat, token: bytes, name: seq<nat>)
    | Put(size: nat, digest: bytes, name: seq<nat>)

  datatype Parsed = Ok(request: Request) | Malformed

  /** The fields common to both: an integer, `width` fixed bytes, a name length and exactly the name. */
  datatype Fields = Fields(number: nat, fixed: bytes, rawName: bytes) | Bad

  function ParseFields(payload: bytes, width: nat): Fields {
    if |payload| < 8 + width + 2 then Bad
    else
      var nameLen := Value(payload[8 + width..10 + width]);
      if |payload| != 10 + width + nameLen then Bad
      else Fields(Value(payload[..8]), payload[8..8 + width], payload[10 + width..])
  }

  function EncodeFields(number: u64, fixed: bytes, name: Name): bytes
    requires |name| < U16_LIMIT
  {
    BigEndian(number, 8) + fixed + BigEndian(|name|, 2) + name
  }

  function EncodeGet(offset: u64, token: bytes, name: Name): bytes
    requires |token| == TOKEN_SIZE && |name| < U16_LIMIT
  {
    EncodeFields(offset, token, name)
  }

  function EncodePut(size: u64, digest: bytes, name: Name): bytes
    requires |digest| == HASH_SIZE && |name| < U16_LIMIT
  {
    EncodeFields(size, digest, name)
  }

  /** `handle_get`'s reading of its payload. */
  function ParseGet(payload: bytes): (r: Parsed)
    ensures r.Ok? ==> r.request.Get? && |r.request.token| == TOKEN_SIZE
  {
    match ParseFields(payload, TOKEN_SIZE)
    case Fields(offset, token, raw) => Ok(Get(offset, token, Utf8(raw)))
    case Bad => Malformed
  }

  /** `handle_put`'s reading of its payload. */
  function ParsePut(payload: bytes): (r: Parsed)
    ensures r.Ok? ==> r.request.Put? && |r.request.digest| == HASH_SIZE
  {
    match ParseFields(payload, HASH_SIZE)
    case Fields(size, digest, raw) => Ok(Put(size, digest, Utf8(raw)))
    case Bad => Malformed
  }

  lemma FieldsRoundTrip(number: u64, fixed: bytes, name: Name)
    requires |name| < U16_LIMIT
    ensures ParseFields(EncodeFields(number, fixed, name), |fixed|) == Fields(number, fixed, name)
  {
    hide BigEndian, Value;
    U64RoundTrip(number);
    U16RoundTrip(|name|);
    var p, w := EncodeFields(number, fixed, name), |fixed|;
    assert p[..8] == BigEndian(number, 8);
    assert p[8..8 + w] == fixed;
    assert p[8 + w..10 + w] == BigEndian(|name|, 2);
    assert p[10 + w..] == name;
  }

  lemma FieldsCanonical(payload: bytes, width: nat)
    requires ParseFields(payload, width).Fields?
    ensures var f := ParseFields(payload, width);
      && f.number < U64_LIMIT && |f.fixed| == width && |f.rawName| < U16_LIMIT
      && EncodeFields(f.number, f.fixed, f.rawName) == payload
  {
    hide BigEndian, Value;
    U64OfBytes(payload[..8]);
    U16OfBytes(payload[8 + width..10 + width]);
    assert payload == payload[..8] + payload[8..8 + width] + payload[8 + width..10 + width] + payload[10 + width..];
  }

  lemma AcceptedIsAscii(raw: bytes)
    requires CheckFilename(Utf8(raw))
    ensures Utf8(raw) == raw
  {
    AsciiOnlyFromAscii(raw);
  }

  /** The server's parser inverts the client's encoder for every name the filename rules admit. */
  lemma GetRoundTrip(offset: u64, token: bytes, name: Name)
    requires |token| == TOKEN_SIZE && CheckFilename(name)
    ensures ParseGet(EncodeGet(offset, token, name)) == Ok(Get(offset, token, name))
  {
    FieldsRoundTrip(offset, token, name);
    AsciiOnlyFromAscii(name);
  }

  lemma PutRoundTrip(size: u64, digest: bytes, name: Name)
    requires |digest| == HASH_SIZE && CheckFilename(name)
    ensures ParsePut(EncodePut(size, digest, name)) == Ok(Put(size, digest, name))
  {
    FieldsRoundTrip(size, digest, name);
    AsciiOnlyFromAscii(name);
  }

  /** A payload that passes the parser and the filename rules is the one encoding of what was read,
      so two different payloads are never accepted as the same request. */
  lemma GetCanonical(payload: bytes)
    requires ParseGet(payload).Ok? && CheckFilename(ParseGet(payload).request.name)
    ensures var r := ParseGet(payload).request;
      && r.offset < U64_LIMIT && |r.token| == TOKEN_SIZE
      && exists name: Name :: name == r.name && |name| < U16_LIMIT && payload == EncodeGet(r.offset, r.token, name)
  {
    FieldsCanonical(payload, TOKEN_SIZE);
    var f := ParseFields(payload, TOKEN_SIZE);
    AcceptedIsAscii(f.rawName);
    assert payload == EncodeGet(f.number, f.fixed, f.rawName);
  }

  lemma PutCanonical(payload: bytes)
    requires ParsePut(payload).Ok? && CheckFilename(ParsePut(payload).request.name)
    ensures var r := ParsePut(payload).request;
      && r.size < U64_LIMIT && |r.digest| == HASH_SIZE
      && exists name: Name :: name == r.name && |name| < U16_LIMIT && payload == EncodePut(r.size, r.digest, name)
  {
    FieldsCanonical(payload, HASH_SIZE);
    var f := ParseFields(payload, HASH_SIZE);
    AcceptedIsAscii(f.rawName);
    assert payload == EncodePut(f.number, f.fixed, f.rawName);
  }

  /** Replacement decoding merges no two accepted requests, neither GETs nor PUTs. */
  lemma AcceptedRequestsDiffer(p: bytes, q: bytes)
    ensures ParseGet(p) == ParseGet(q) && ParseGet(p).Ok? && CheckFilename(ParseGet(p).request.name) ==> p == q
    ensures ParsePut(p) == ParsePut(q) && ParsePut(p).Ok? && CheckFilename(ParsePut(p).request.name) ==> p == q
  {
    hide ParseFields, EncodeFields, Utf8;
    SameFields(p, q, TOKEN_SIZE);
    SameFields(p, q, HASH_SIZE);
  }

  lemma SameFields(p: bytes, q: bytes, width: nat)
    ensures var f, g := ParseFields(p, width), ParseFields(q, width);
      && f.Fields? && g.Fields? && f.number == g.number && f.fixed == g.fixed
      && Utf8(f.rawName) == Utf8(g.rawName) && CheckFilename(Utf8(f.rawName))
      ==> p == q
  {
    var f, g := ParseFields(p, width), ParseFields(q, width);
    hide ParseFields, EncodeFields;
    if f.Fields? && g.Fields? && Utf8(f.rawName) == Utf8(g.rawName) && CheckFilename(Utf8(f.rawName)) {
      FieldsCanonical(p, width);
      FieldsCanonical(q, width);
      AcceptedIsAscii(f.rawName);
      AcceptedIsAscii(g.rawName);
    }
  }

  // ----- the C client's request buffer

  /** The request of `rtrv_do_get` or `rtrv_do_put`, packed in place; a name over 255 bytes is refused. */
  method PackRequest(number: u64, fixed: bytes, name: Name) returns (ok: bool, request: bytes)
    ensures ok <==> |name| <= MAX_NAME
    ensures ok ==> request == EncodeFields(number, fixed, name)
  {
    hide BigEndian;
    request := [];
    if |name| > MAX_NAME {
      return false, request;
    }
    var w := |fixed|;
    var buf := new byte[8 + w + 2 + MAX_NAME];
    PutU64(buf, 0, number);
    forall i | 0 <= i < w {
      buf[8 + i] := fixed[i];
    }
    assert buf[..8] == BigEndian(number, 8);
    assert buf[..8 + w] == BigEndian(number, 8) + fixed;
    PutU16(buf, 8 + w, |name|);
    assert buf[..10 + w] == BigEndian(number, 8) + fixed + BigEndian(|name|, 2);
    ghost var head := buf[..10 + w];
    forall i | 0 <= i < |name| {
      buf[10 + w + i] := name[i];
    }
    assert buf[..10 + w] == head;
    assert buf[..10 + w + |name|] == head + name;
    return true, buf[..10 + w + |name|];
  }
}
