/**
  One client session of the server: HELLO, any number of commands, QUIT or close.

  The stream holds frames and, after an approved PUT, a raw body whose length only the PUT and the
  server's offer determine. What the server decides about each command (refuse it, offer a resume
  offset, fail on it) depends on files and other sessions, so it is an arbitrary oracle here;
  SessionServer runs the loop with the server's own decisions.
 */
module Session {
  import opened ByteOrder
  import opened Names
  import opened Frames
  import opened Requests

  /** What the server decides about a well-formed command. */
  datatype Decision = Serve | Refuse | Offer(offset: nat) | Fatal(reason: byte)

  type Oracle = nat -> Decision

  /** One command as the server took it: the frame, and the body it read after it. */
  datatype Exchange = Exchange(frame: Frame, body: bytes)

  datatype End = Quit | PeerClosed | BodyCut(frame: Frame, received: bytes) | Violated(reason: byte)

  /** The commands handled in order, how the session ended, and the bytes it never touched. */
  datatype Transcript = Transcript(exchanges: seq<Exchange>, end: End, left: bytes)

  // ----- how much body follows a command

  /** The body of an approved PUT: exactly file_size - resume_offset bytes. */
  function BodyLength(f: Frame, d: Decision): nat {
    if f.kind != T_PUT then 0
    else
      match ParsePut(f.payload)
      case Malformed => 0
      case Ok(r) =>
        if !CheckFilename(r.name) || r.size > MAX_FILE_SIZE then 0
        else if d.Offer? && d.offset <= r.size then r.size - d.offset else 0
  }

  predicate WellFormed(f: Frame) {
    || f.kind == T_LIST
    || (f.kind == T_GET && ParseGet(f.payload).Ok?)
    || (f.kind == T_PUT && ParsePut(f.payload).Ok?)
  }

  /** A command the session survives, whatever the reply. */
  predicate Survivable(f: Frame, d: Decision) {
    WellFormed(f) && !d.Fatal?
  }

  /** The reason sent before closing, when it does not survive. */
  function FatalReason(f: Frame, d: Decision): byte {
    if WellFormed(f) && d.Fatal? then d.reason else E_MALFORMED
  }

  // ----- the session as a function of the stream

  function Prepend(x: Exchange, t: Transcript): Transcript {
    Transcript([x] + t.exchanges, t.end, t.left)
  }

  /** One command taken from the stream, or the end of the session. */
  datatype Step = More(exchange: Exchange, rest: bytes) | Stop(end: End, left: bytes)

  /** One turn of `handle_client`'s loop. */
  function Next(s: bytes, d: Decision): (r: Step)
    ensures r.More? ==> |r.rest| < |s|
  {
    match Decode(s)
    case Closed => Stop(PeerClosed, [])
    case Violation(reason, rest) => Stop(Violated(reason), rest)
    case Complete(f, rest) =>
      if f.kind == T_QUIT then Stop(Quit, rest)
      else if !Survivable(f, d) then Stop(Violated(FatalReason(f, d)), rest)
      else
        var n := BodyLength(f, d);
        if |rest| < n then Stop(BodyCut(f, rest), []) else More(Exchange(f, rest[..n]), rest[n..])
  }

  /** The command loop, from command number k on. */
  function Commands(s: bytes, oracle: Oracle, k: nat): Transcript
    decreases |s|
  {
    match Next(s, oracle(k))
    case Stop(end, left) => Transcript([], end, left)
    case More(x, rest) => Prepend(x, Commands(rest, oracle, k + 1))
  }

  function Run(s: bytes, oracle: Oracle): Transcript {
    match Decode(s)
    case Closed => Transcript([], PeerClosed, [])
    case Violation(reason, rest) => Transcript([], Violated(reason), rest)
    case Complete(f, rest) =>
      if f.kind != T_HELLO then Transcript([], Violated(E_MALFORMED), rest) else Commands(rest, oracle, 0)
  }

  // ----- a conforming client

  /** A client that waits for the reply before it sends a body, and then sends exactly that body. */
  predicate Conforms(x: Exchange, d: Decision) {
    Sendable(x.frame) && Survivable(x.frame, d) && |x.body| == BodyLength(x.frame, d)
  }

  predicate Conforming(xs: seq<Exchange>, oracle: Oracle, k: nat) {
    forall i :: 0 <= i < |xs| ==> Conforms(xs[i], oracle(k + i))
  }

  function Sent(xs: seq<Exchange>): bytes {
    if xs == [] then [] else Encode(xs[0].frame) + xs[0].body + Sent(xs[1..])
  }

  /** The upload client conforms: its PUT frame, and on an offer within the file exactly the file's
      bytes from the offer on, are what the server expects to read. */
  lemma ClientPutConforms(file: bytes, digest: bytes, name: Name, offset: nat)
    requires |file| <= MAX_FILE_SIZE && |digest| == HASH_SIZE && CheckFilename(name) && offset <= |file|
    ensures Conforms(Exchange(Frame(T_PUT, EncodePut(|file|, digest, name)), file[offset..]), Offer(offset))
    ensures Conforms(Exchange(Frame(T_PUT, EncodePut(|file|, digest, name)), []), Refuse)
  {
    hide Utf8, BigEndian, CheckFilename;
    NameFits(name);
    PutRoundTrip(|file|, digest, name);
  }

  /** And the download client's GET is a command without a body, whether it is served or refused. */
  lemma ClientGetConforms(offset: u64, token: bytes, name: Name, d: Decision)
    requires |token| == TOKEN_SIZE && CheckFilename(name) && !d.Fatal?
    ensures Conforms(Exchange(Frame(T_GET, EncodeGet(offset, token, name)), []), d)
  {
    hide Utf8, BigEndian, CheckFilename;
    NameFits(name);
    GetRoundTrip(offset, token, name);
  }

  lemma NameFits(name: Name)
    requires CheckFilename(name)
    ensures |name| <= MAX_NAME
  {
  }

  // ----- alignment

  /** A conforming exchange is what the next turn takes, and taking it leaves what follows. */
  lemma NextTakes(x: Exchange, tail: bytes, d: Decision)
    requires Conforms(x, d)
    ensures Next(Encode(x.frame) + x.body + tail, d) == More(x, tail)
  {
    hide Decode, Encode, BodyLength;
    assert Encode(x.frame) + x.body + tail == Encode(x.frame) + (x.body + tail);
    DecodeEncode(x.frame, x.body + tail);
    assert (x.body + tail)[..|x.body|] == x.body && (x.body + tail)[|x.body|..] == tail;
  }

  /** And whatever a turn takes is a conforming exchange at the front of the stream. */
  lemma NextTakesOnly(s: bytes, d: Decision)
    requires Next(s, d).More?
    ensures var r := Next(s, d); Conforms(r.exchange, d) && s == Encode(r.exchange.frame) + r.exchange.body + r.rest
  {
    hide Decode, Encode, BodyLength, Survivable;
    EncodeDecode(s);
    var r := Next(s, d);
    assert Decode(s).rest == r.exchange.body + r.rest;
  }

  /** After any conforming commands, whatever was decided about each, the server stands exactly at
      the byte after them: no body byte is ever read as a header, whatever the bodies contain. */
  lemma {:induction false} Aligned(xs: seq<Exchange>, tail: bytes, oracle: Oracle, k: nat)
    requires Conforming(xs, oracle, k)
    ensures var t := Commands(tail, oracle, k + |xs|);
      Commands(Sent(xs) + tail, oracle, k) == Transcript(xs + t.exchanges, t.end, t.left)
  {
    hide Next, Conforms, Encode;
    var t := Commands(tail, oracle, k + |xs|);
    if xs == [] {
      assert Sent(xs) + tail == tail && xs + t.exchanges == t.exchanges;
    } else {
      var x, more := xs[0], xs[1..];
      assert Conforms(xs[0], oracle(k + 0));
      assert Conforming(more, oracle, k + 1) by {
        assert forall i :: 0 <= i < |more| ==> more[i] == xs[i + 1] && k + 1 + i == k + (i + 1);
      }
      Aligned(more, tail, oracle, k + 1);
      NextTakes(x, Sent(more) + tail, oracle(k));
      assert Sent(xs) + tail == Encode(x.frame) + x.body + (Sent(more) + tail);
      assert [x] + (more + t.exchanges) == xs + t.exchanges;
    }
  }

  /** A whole polite session: every command handled, QUIT answered, later bytes untouched. */
  lemma PoliteSession(xs: seq<Exchange>, tail: bytes, oracle: Oracle)
    requires Conforming(xs, oracle, 0)
    ensures var hello, quit := Frame(T_HELLO, []), Frame(T_QUIT, []);
      Run(Encode(hello) + Sent(xs) + Encode(quit) + tail, oracle) == Transcript(xs, Quit, tail)
  {
    hide Decode, Encode, Survivable, BodyLength;
    var hello, quit := Frame(T_HELLO, []), Frame(T_QUIT, []);
    var rest := Sent(xs) + (Encode(quit) + tail);
    assert Encode(hello) + Sent(xs) + Encode(quit) + tail == Encode(hello) + rest;
    DecodeEncode(hello, rest);
    DecodeEncode(quit, tail);
    Aligned(xs, Encode(quit) + tail, oracle, 0);
    assert xs + [] == xs;
  }

  /** A session that does not begin with HELLO ends there, as malformed. */
  lemma HelloFirst(f: Frame, tail: bytes, oracle: Oracle)
    requires Sendable(f) && f.kind != T_HELLO
    ensures Run(Encode(f) + tail, oracle) == Transcript([], Violated(E_MALFORMED), tail)
  {
    hide Encode, Decode, Commands;
    DecodeEncode(f, tail);
  }

  /** And so does one in which something comes that is no command, or a command whose payload does not
      parse, whatever the server would have decided. */
  lemma MalformedEnds(f: Frame, tail: bytes, d: Decision)
    requires Sendable(f) && f.kind != T_QUIT
    requires f.kind == T_GET ==> ParseGet(f.payload).Malformed?
    requires f.kind == T_PUT ==> ParsePut(f.payload).Malformed?
    requires f.kind != T_LIST
    ensures Next(Encode(f) + tail, d) == Stop(Violated(E_MALFORMED), tail)
  {
    hide Encode, Decode, BodyLength, ParseGet, ParsePut;
    DecodeEncode(f, tail);
  }

  /** Conversely, of any stream at all, hostile or not, what the server handled is a conforming
      prefix of it, and the session ended at the first thing after that prefix that does not go on:
      a framing violation with the violation's own reason, a command the session does not survive
      with the reason sent for it. */
  lemma {:induction false} HandledIsConforming(s: bytes, oracle: Oracle, k: nat)
    ensures var t := Commands(s, oracle, k); Conforming(t.exchanges, oracle, k) && StopsAfter(s, oracle, k, t)
    decreases |s|
  {
    hide Next, Conforms, Encode;
    var t, r := Commands(s, oracle, k), Next(s, oracle(k));
    if r.Stop? {
      assert s == Sent([]) + s;
      assert k + |t.exchanges| == k;
      WhyItStops(s, oracle(k));
    } else {
      NextTakesOnly(s, oracle(k));
      HandledIsConforming(r.rest, oracle, k + 1);
      var t' := Commands(r.rest, oracle, k + 1);
      assert t.exchanges[1..] == t'.exchanges;
      forall i | 0 <= i < |t.exchanges|
        ensures Conforms(t.exchanges[i], oracle(k + i))
      {
        if i > 0 {
          assert Conforms(t'.exchanges[i - 1], oracle(k + 1 + (i - 1)));
        }
      }
      StopsLater(s, oracle, k, t, t');
    }
  }

  ghost predicate StopsAfter(s: bytes, oracle: Oracle, k: nat, t: Transcript) {
    exists r :: s == Sent(t.exchanges) + r && StopsAt(r, oracle(k + |t.exchanges|), t.end, t.left)
  }

  predicate StopsAt(r: bytes, d: Decision, end: End, left: bytes) {
    && Next(r, d) == Stop(end, left)
    && match Decode(r)
       case Closed => end == PeerClosed && left == []
       case Violation(reason, rest) => end == Violated(reason) && left == rest
       case Complete(f, rest) =>
         || (f.kind == T_QUIT && end == Quit && left == rest)
         || (f.kind != T_QUIT && !Survivable(f, d) && end == Violated(FatalReason(f, d)) && left == rest)
         || (f.kind != T_QUIT && Survivable(f, d) && |rest| < BodyLength(f, d) && end == BodyCut(f, rest) && left == [])
  }

  lemma WhyItStops(r: bytes, d: Decision)
    requires Next(r, d).Stop?
    ensures StopsAt(r, d, Next(r, d).end, Next(r, d).left)
  {
    hide Decode, Survivable, BodyLength;
  }

  lemma StopsLater(s: bytes, oracle: Oracle, k: nat, t: Transcript, t': Transcript)
    requires Next(s, oracle(k)).More? && t == Prepend(Next(s, oracle(k)).exchange, t')
    requires StopsAfter(Next(s, oracle(k)).rest, oracle, k + 1, t')
    ensures StopsAfter(s, oracle, k, t)
  {
    hide Next, Encode, StopsAt;
    var n := Next(s, oracle(k));
    NextTakesOnly(s, oracle(k));
    var r :| n.rest == Sent(t'.exchanges) + r && StopsAt(r, oracle(k + 1 + |t'.exchanges|), t'.end, t'.left);
    assert t.exchanges[1..] == t'.exchanges;
    assert s == Sent(t.exchanges) + r;
    assert k + 1 + |t'.exchanges| == k + |t.exchanges|;
  }
}
