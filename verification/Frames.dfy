/**
  Frames over a byte stream that arrives in arbitrary fragments.

  A receiver sees the peer's bytes through `recv`, which returns any nonempty prefix of what is
  there, and nothing once the peer has closed. What the readers return is a function of the bytes
  alone, so it does not depend on the fragments.
 */
module Frames {
  import opened ByteOrder

  // ----- constants of protocol version 3

  const MAGIC: bytes := [0x52, 0x54, 0x52, 0x56]
  const VERSION: byte := 3
  const HEADER_SIZE: nat := 14
  const PAYLOAD_CAP: nat := 65536

  const T_LIST: byte := 0x00
  const T_GET: byte := 0x01
  const T_PUT: byte := 0x02
  const T_HELLO: byte := 0x10
  const T_QUIT: byte := 0x11
  const T_OK: byte := 0x80
  const T_ERROR: byte := 0x81

  const E_BAD_NAME: byte := 1
  const E_NOT_FOUND: byte := 2
  const E_ALREADY_EXISTS: byte := 3
  const E_MALFORMED: byte := 4
  const E_UNSUPPORTED_VERSION: byte := 5
  const E_TOO_LARGE: byte := 7
  const E_CORRUPT: byte := 8

  predicate KnownType(t: byte) {
    t in {T_LIST, T_GET, T_PUT, T_HELLO, T_QUIT, T_OK, T_ERROR}
  }

  /** `PAYLOAD_CAPS`. */
  function Cap(t: byte): nat {
    if t in {T_HELLO, T_QUIT, T_LIST} then 0 else PAYLOAD_CAP
  }

  // ----- frames as bytes

  datatype Frame = Frame(kind: byte, payload: bytes)

  function Header(kind: byte, len: nat): (h: bytes)
    ensures |h| == HEADER_SIZE
  {
    MAGIC + [VERSION, kind] + BigEndian(len, 8)
  }

  function Encode(f: Frame): bytes {
    Header(f.kind, |f.payload|) + f.payload
  }

  /** A frame the Python side will accept. */
  predicate Sendable(f: Frame) {
    KnownType(f.kind) && |f.payload| <= Cap(f.kind)
  }

  datatype Decoded = Complete(frame: Frame, rest: bytes) | Violation(reason: byte, rest: bytes) | Closed

  /** What `read_frame` makes of a stream. */
  function Decode(s: bytes): Decoded {
    if |s| < HEADER_SIZE then Closed
    else
      var rest := s[HEADER_SIZE..];
      if s[..4] != MAGIC || s[4] != VERSION then Violation(E_UNSUPPORTED_VERSION, rest)
      else if !KnownType(s[5]) then Violation(E_MALFORMED, rest)
      else
        var len := Value(s[6..14]);
        if len > Cap(s[5]) then Violation(E_MALFORMED, rest)
        else if len > |rest| then Closed
        else Complete(Frame(s[5], rest[..len]), rest[len..])
  }

  /** What the C `rtrv_read_frame` makes of a stream: no check of the type, one cap for all. */
  datatype CDecoded = CFrame(frame: Frame, rest: bytes) | CFailed

  function CDecode(s: bytes): CDecoded {
    if |s| < HEADER_SIZE || s[..4] != MAGIC || s[4] != VERSION then CFailed
    else
      var len, rest := Value(s[6..14]), s[HEADER_SIZE..];
      if len > PAYLOAD_CAP || len > |rest| then CFailed
      else CFrame(Frame(s[5], rest[..len]), rest[len..])
  }

  // ----- encoding and decoding are inverses

  lemma HeaderLayout(kind: byte, len: nat, tail: bytes)
    requires len < U64_LIMIT
    ensures var s := Header(kind, len) + tail;
      && s[..4] == MAGIC && s[4] == VERSION && s[5] == kind
      && Value(s[6..14]) == len && s[HEADER_SIZE..] == tail
  {
    hide BigEndian, Value;
    U64RoundTrip(len);
    var s := Header(kind, len) + tail;
    assert s[6..14] == BigEndian(len, 8);
  }

  /** A sendable frame is read back, and what follows it is untouched. */
  lemma DecodeEncode(f: Frame, tail: bytes)
    requires Sendable(f)
    ensures Decode(Encode(f) + tail) == Complete(f, tail)
  {
    HeaderLayout(f.kind, |f.payload|, f.payload + tail);
    assert Encode(f) + tail == Header(f.kind, |f.payload|) + (f.payload + tail);
    assert (f.payload + tail)[..|f.payload|] == f.payload && (f.payload + tail)[|f.payload|..] == tail;
  }

  /** And only its own encoding is read as that frame. */
  lemma EncodeDecode(s: bytes)
    requires Decode(s).Complete?
    ensures s == Encode(Decode(s).frame) + Decode(s).rest && Sendable(Decode(s).frame)
  {
    var f := Decode(s).frame;
    U64OfBytes(s[6..14]);
    assert s == s[..4] + [s[4], s[5]] + s[6..14] + f.payload + Decode(s).rest;
  }

  /** What becomes of any fourteen bytes of header and what follows them: a wrong magic or version, an
      unknown type and a payload over the type's cap are violations, each with its reason, and take
      the header only; a payload that does not come whole is an early close. */
  lemma DecodeByHeader(magic: bytes, version: byte, kind: byte, len: u64, tail: bytes)
    requires |magic| == 4
    ensures Decode(magic + [version, kind] + BigEndian(len, 8) + tail) ==
      if magic != MAGIC || version != VERSION then Violation(E_UNSUPPORTED_VERSION, tail)
      else if kind !in {T_LIST, T_GET, T_PUT, T_HELLO, T_QUIT, T_OK, T_ERROR} then Violation(E_MALFORMED, tail)
      else if len > (if kind in {T_LIST, T_HELLO, T_QUIT} then 0 else 65536) then Violation(E_MALFORMED, tail)
      else if len > |tail| then Closed
      else Complete(Frame(kind, tail[..len]), tail[len..])
  {
    hide BigEndian, Value;
    U64RoundTrip(len);
    var s := magic + [version, kind] + BigEndian(len, 8) + tail;
    assert s[..4] == magic && s[6..14] == BigEndian(len, 8) && s[14..] == tail;
  }

  function EncodeAll(fs: seq<Frame>): bytes {
    if fs == [] then [] else Encode(fs[0]) + EncodeAll(fs[1..])
  }

  datatype Many = Frames(frames: seq<Frame>, rest: bytes) | Broken

  /** `n` frames in a row. */
  function DecodeMany(s: bytes, n: nat): Many {
    if n == 0 then Frames([], s)
    else
      match Decode(s)
      case Complete(f, rest) =>
        (match DecodeMany(rest, n - 1)
         case Frames(fs, tail) => Frames([f] + fs, tail)
         case Broken => Broken)
      case _ => Broken
  }

  lemma {:induction false} DecodeManyEncodeAll(fs: seq<Frame>, tail: bytes)
    requires forall f :: f in fs ==> Sendable(f)
    ensures DecodeMany(EncodeAll(fs) + tail, |fs|) == Frames(fs, tail)
  {
    hide Decode, Encode;
    if fs == [] {
      assert EncodeAll(fs) + tail == tail;
    } else {
      DecodeManyEncodeAll(fs[1..], tail);
      DecodeEncode(fs[0], EncodeAll(fs[1..]) + tail);
      assert EncodeAll(fs) + tail == Encode(fs[0]) + (EncodeAll(fs[1..]) + tail);
    }
  }

  // ----- the two readers

  /** Whatever Python accepts, C accepts as the same frame; and C accepts more only among frames
      of an unknown type or a type that must be empty. In particular the replies, OK and ERROR,
      are read alike by both. */
  lemma ReadersAgree(s: bytes)
    ensures Decode(s).Complete? ==> CDecode(s) == CFrame(Decode(s).frame, Decode(s).rest)
    ensures CDecode(s).CFrame? && Cap(CDecode(s).frame.kind) == PAYLOAD_CAP && KnownType(CDecode(s).frame.kind) ==>
      Decode(s) == Complete(CDecode(s).frame, CDecode(s).rest)
  {
  }

  // ----- the receiving end of a socket

  /** `pending` is what the peer has sent and will send before closing, not yet received. */
  class Wire {
    var pending: bytes

    constructor (bytesFromPeer: bytes)
      ensures pending == bytesFromPeer
    {
      pending := bytesFromPeer;
    }

    /** `recv(n)`: any nonempty prefix of at most n bytes, or nothing when the peer has closed. */
    method Recv(n: nat) returns (chunk: bytes)
      requires n > 0
      modifies this
      ensures |chunk| <= n && old(pending) == chunk + pending
      ensures chunk == [] <==> old(pending) == []
    {
      if pending == [] {
        return [];
      }
      var k: nat :| 1 <= k <= n && k <= |pending|;
      chunk := pending[..k];
      pending := pending[k..];
    }
  }

  datatype Exact = Data(data: bytes) | Eof

  function ReadSpec(s: bytes, n: nat): Exact {
    if |s| < n then Eof else Data(s[..n])
  }

  function RestSpec(s: bytes, n: nat): bytes {
    if |s| < n then [] else s[n..]
  }

  /** `read_exact_bytes`. */
  method ReadExact(wire: Wire, n: nat) returns (r: Exact)
    modifies wire
    ensures r == ReadSpec(old(wire.pending), n) && wire.pending == RestSpec(old(wire.pending), n)
  {
    var data: bytes := [];
    while |data| < n
      invariant |data| <= n && old(wire.pending) == data + wire.pending
      decreases n - |data|
    {
      var chunk := wire.Recv(n - |data|);
      if chunk == [] {
        return Eof;
      }
      data := data + chunk;
    }
    return Data(data);
  }

  /** `rtrv_read_exact`: the same into the caller's buffer, at the moving position `got`. */
  method ReadInto(wire: Wire, buf: array<byte>, n: nat) returns (ok: bool)
    requires n <= buf.Length
    modifies wire, buf
    ensures ok <==> |old(wire.pending)| >= n
    ensures wire.pending == RestSpec(old(wire.pending), n)
    ensures ok ==> buf[..n] == old(wire.pending)[..n]
    ensures buf[n..] == old(buf[n..])
  {
    var got := 0;
    while got < n
      invariant got <= n && old(wire.pending) == buf[..got] + wire.pending
      invariant buf[n..] == old(buf[n..])
    {
      var chunk := wire.Recv(n - got);
      if chunk == [] {
        return false;
      }
      ghost var before := buf[..got];
      forall i | 0 <= i < |chunk| {
        buf[got + i] := chunk[i];
      }
      assert buf[..got + |chunk|] == before + chunk;
      got := got + |chunk|;
    }
    return true;
  }

  /** `read_frame`: a frame, a violation or an early close, by the bytes alone. */
  method ReadFrame(wire: Wire) returns (r: Decoded)
    modifies wire
    ensures r == Decode(old(wire.pending))
    ensures r.Closed? ==> wire.pending == []
    ensures !r.Closed? ==> wire.pending == r.rest
  {
    hide Value;
    var head := ReadExact(wire, HEADER_SIZE);
    if head.Eof? {
      return Closed;
    }
    var header := head.data;
    ghost var s := old(wire.pending);
    assert header[..4] == s[..4] && header[6..14] == s[6..14];
    if header[..4] != MAGIC || header[4] != VERSION {
      return Violation(E_UNSUPPORTED_VERSION, wire.pending);
    }
    if !KnownType(header[5]) {
      return Violation(E_MALFORMED, wire.pending);
    }
    var len := Value(header[6..14]);
    if len > Cap(header[5]) {
      return Violation(E_MALFORMED, wire.pending);
    }
    var body := ReadExact(wire, len);
    if body.Eof? {
      return Closed;
    }
    return Complete(Frame(header[5], body.data), wire.pending);
  }

  /** Repeated reads give back the list that was sent, however it was cut up on the way. */
  method ReadFrames(wire: Wire, n: nat) returns (r: Many)
    modifies wire
    ensures r == DecodeMany(old(wire.pending), n)
    ensures r.Frames? ==> wire.pending == r.rest
    decreases n
  {
    if n == 0 {
      return Frames([], wire.pending);
    }
    var first := ReadFrame(wire);
    if !first.Complete? {
      return Broken;
    }
    var others := ReadFrames(wire, n - 1);
    if others.Broken? {
      return Broken;
    }
    return Frames([first.frame] + others.frames, others.rest);
  }

  /** `rtrv_read_frame`. */
  method CReadFrame(wire: Wire) returns (r: CDecoded)
    modifies wire
    ensures r == CDecode(old(wire.pending))
    ensures r.CFrame? ==> wire.pending == r.rest
  {
    hide Value;
    var header := new byte[HEADER_SIZE];
    var ok := ReadInto(wire, header, HEADER_SIZE);
    if !ok {
      return CFailed;
    }
    ghost var s := old(wire.pending);
    assert header[..] == s[..14];
    assert header[..4] == s[..4] && header[6..14] == s[6..14];
    if header[..4] != MAGIC || header[4] != VERSION {
      return CFailed;
    }
    var len := GetU64(header[6..14]);
    assert header[6..14][..8] == s[6..14];
    if len > PAYLOAD_CAP {
      return CFailed;
    }
    var payload := new byte[len];
    ok := ReadInto(wire, payload, len);
    if !ok {
      return CFailed;
    }
    assert payload[..] == payload[..len];
    return CFrame(Frame(header[5], payload[..]), wire.pending);
  }

  // ----- the sending end

  /** `sent` is everything the socket has accepted; `broken` is whether a send has ever failed. */
  class Sink {
    var sent: bytes
    ghost var broken: bool

    constructor ()
      ensures sent == [] && !broken
    {
      sent, broken := [], false;
    }

    /** `send`: takes at least one byte of what it is given, or fails. */
    method Send(data: bytes) returns (w: int)
      requires data != []
      modifies this
      ensures -1 <= w <= |data| && w != 0
      ensures sent == old(sent) + (if w < 0 then [] else data[..w])
      ensures broken == (old(broken) || w < 0)
    {
      w :| -1 <= w <= |data| && w != 0;
      if w > 0 {
        sent := sent + data[..w];
      } else {
        broken := true;
      }
    }
  }

  /** What was sent goes on from `before` with a proper prefix of `data`. */
  ghost predicate SentPart(before: bytes, sent: bytes, data: bytes) {
    exists k: nat :: k < |data| && sent == before + data[..k]
  }

  /** A part of one piece is a part of the whole that has the piece in it. */
  lemma PartOfMore(before: bytes, mid: bytes, sent: bytes, head: bytes, piece: bytes, tail: bytes, whole: bytes)
    requires whole == head + piece + tail && mid == before + head && SentPart(mid, sent, piece)
    ensures SentPart(before, sent, whole)
  {
    var k: nat :| k < |piece| && sent == mid + piece[..k];
    assert whole[..|head| + k] == head + piece[..k];
    assert sent == before + whole[..|head| + k];
  }

  /** `rtrv_write_all`: everything, however little each send takes; or a prefix and a failure, and that
      only if a send has failed. */
  method WriteAll(out: Sink, data: bytes) returns (ok: bool)
    modifies out
    ensures out.broken == (old(out.broken) || !ok)
    ensures ok ==> out.sent == old(out.sent) + data
    ensures !ok ==> SentPart(old(out.sent), out.sent, data)
  {
    var sent := 0;
    while sent < |data|
      invariant sent <= |data| && out.sent == old(out.sent) + data[..sent] && out.broken == old(out.broken)
    {
      var w := out.Send(data[sent..]);
      if w < 0 {
        assert data[sent..][..0] == [];
        return false;
      }
      assert data[..sent] + data[sent..][..w] == data[..sent + w];
      sent := sent + w;
    }
    assert data[..sent] == data;
    return true;
  }

  /** `rtrv_write_frame`: what reaches the wire is the encoding the readers above expect, or a proper
      prefix of it and a failure. */
  method WriteFrame(out: Sink, f: Frame) returns (ok: bool)
    requires |f.payload| < U64_LIMIT
    modifies out
    ensures ok ==> out.sent == old(out.sent) + Encode(f)
    ensures !ok ==> SentPart(old(out.sent), out.sent, Encode(f))
    ensures out.broken == (old(out.broken) || !ok)
  {
    var header := FilledHeader(f.kind, |f.payload|);
    hide Header;
    ghost var start := out.sent;
    ok := WriteAll(out, header[..]);
    if !ok {
      PartOfMore(start, start, out.sent, [], header[..], f.payload, Encode(f));
      return;
    }
    if |f.payload| > 0 {
      ghost var mid := out.sent;
      ok := WriteAll(out, f.payload);
      if !ok {
        PartOfMore(start, mid, out.sent, header[..], f.payload, [], Encode(f));
      }
    }
  }

  /** The header buffer, filled in place. */
  method FilledHeader(kind: byte, len: u64) returns (header: array<byte>)
    ensures fresh(header) && header[..] == Header(kind, len)
  {
    header := new byte[HEADER_SIZE];
    header[0], header[1], header[2], header[3] := 0x52, 0x54, 0x52, 0x56;
    header[4], header[5] := VERSION, kind;
    PutU64(header, 6, len);
    assert header[..] == header[..6] + header[6..14];
    assert header[..6] == MAGIC + [VERSION, kind];
  }
}
