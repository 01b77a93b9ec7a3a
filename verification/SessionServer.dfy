/**
  `handle_client` with the server behind it: the session loop reads frames, hands PUT to the upload
  code of UploadServer and GET to Serving, decides everything from the shared state, and writes the
  replies. The stream is consumed exactly as Session says, with the server's own decisions in the
  place of the oracle, and what goes out is settled command by command.
 */
module SessionServer {
  import opened ByteOrder
  import opened Names
  import opened Frames
  import opened Requests
  import opened Replies
  import opened Uploads
  import opened UploadInvariant
  import opened UploadTheorems
  import opened UploadServer
  import Serving
  import Session

  // ----- the decisions

  /** A name that passed the filename rules, as bytes. */
  function AsName(name: seq<nat>): (n: Name)
    requires CheckFilename(name)
    ensures n == name
  {
    name
  }

  /** `handle_put`'s answer to a well-formed request: refuse a bad name, a file too large, a name that
      exists and a partial in flight; otherwise offer what is kept of the partial. */
  function DecidePut(s: State, r: Request): Session.Decision
    requires r.Put? && |r.digest| == HASH_SIZE
  {
    if !CheckFilename(r.name) || r.size > MAX_FILE_SIZE then Session.Refuse
    else
      var name := AsName(r.name);
      if name == [DOT] || name in s.dir || PartialName(name, r.digest) in s.inFlight then Session.Refuse
      else Session.Offer(|Kept(Content(s, PartialName(name, r.digest)), r.size)|)
  }

  /** A file by that name is there to be read; "." is there, but it is no file. */
  predicate IsFile(s: State, name: seq<nat>) {
    CheckFilename(name) && name != [DOT] && AsName(name) in s.dir
  }

  /** `handle_get`'s: refuse a bad name and a missing file, fail on an offset past the end. */
  function DecideGet(s: State, r: Request): Session.Decision
    requires r.Get?
  {
    if !IsFile(s, r.name) then Session.Refuse
    else if r.offset > |Content(s, AsName(r.name))| then Session.Fatal(E_MALFORMED)
    else Session.Serve
  }

  function Decide(s: State, f: Frame): Session.Decision {
    if f.kind == T_PUT && ParsePut(f.payload).Ok? then DecidePut(s, ParsePut(f.payload).request)
    else if f.kind == T_GET && ParseGet(f.payload).Ok? then DecideGet(s, ParseGet(f.payload).request)
    else Session.Serve
  }

  /** The decision about a GET is the server's answer: refused exactly if there is no such file, fatal
      exactly if the answer is that the offset is past the end, and else served. */
  lemma DecideGetMeans(s: State, hash: bytes -> Digest, r: Request)
    requires r.Get?
    ensures DecideGet(s, r).Refuse? <==> !IsFile(s, r.name)
    ensures IsFile(s, r.name) ==>
      var a := Serving.Answer(hash, Content(s, AsName(r.name)), r.offset, r.token);
      && (DecideGet(s, r) == Session.Fatal(E_MALFORMED) <==> a.PastEnd?)
      && (DecideGet(s, r) == Session.Serve <==> a.Served?)
  {
  }

  // ----- what is answered

  /** How a PUT ended: the two refusals before the upload protocol, or the protocol's outcome. */
  datatype PutEnd = BadName | TooLarge | Ended(outcome: Outcome)

  /** What a PUT is answered: an error; or the offer, and then the verdict if the body came whole. */
  function PutReply(d: Session.Decision, end: PutEnd): bytes
    requires d.Offer? ==> d.offset < U64_LIMIT
  {
    match end
    case BadName => Encode(ErrorFrame(E_BAD_NAME))
    case TooLarge => Encode(ErrorFrame(E_TOO_LARGE))
    case Ended(o) =>
      if !d.Offer? then Encode(ErrorFrame(E_ALREADY_EXISTS))
      else Encode(OfferFrame(d.offset)) + if o.Dropped? then [] else Encode(VerdictFrame(o))
  }

  /** How an upload that was offered and whose body came whole must end: stored under its name if the
      kept bytes and the body have the stated hash; and otherwise corrupt, with nothing left. */
  ghost predicate PutDone(hash: bytes -> Digest, s: State, r: Request, body: bytes, s': State, end: PutEnd)
    requires r.Put? && |r.digest| == HASH_SIZE && CheckFilename(r.name)
  {
    var name := AsName(r.name);
    var partial := PartialName(name, r.digest);
    var whole := Kept(Content(s, partial), r.size) + body;
    && partial !in s'.dir
    && (hash(whole) == r.digest ==> end == Ended(Stored) && name in s'.dir && Content(s', name) == whole)
    && (hash(whole) != r.digest ==> end == Ended(Corrupt) && name !in s'.dir)
  }

  ghost predicate PutAnswered(hash: bytes -> Digest, s: State, r: Request, body: bytes, s': State,
                              end: PutEnd, reply: bytes)
    requires r.Put? && |r.digest| == HASH_SIZE
  {
    var d := DecidePut(s, r);
    && (d.Offer? ==> d.offset < U64_LIMIT && PutDone(hash, s, r, body, s', end))
    && (!d.Offer? ==>
          && s'.dir == s.dir && s'.data == s.data
          && end == (if !CheckFilename(r.name) then BadName else if r.size > MAX_FILE_SIZE then TooLarge
                     else Ended(AlreadyExists)))
    && reply == PutReply(d, end)
  }

  ghost predicate GetAnswered(hash: bytes -> Digest, s: State, r: Request, reply: bytes)
    requires r.Get?
  {
    if IsFile(s, r.name) then
      var a := Serving.Answer(hash, Content(s, AsName(r.name)), r.offset, r.token);
      a.Served? && reply == Serving.OnTheWire(a)
    else reply == Encode(ErrorFrame(if CheckFilename(r.name) then E_NOT_FOUND else E_BAD_NAME))
  }

  /** One command, its body, the state before and after it, how a PUT ended, and the reply. */
  ghost predicate Answered(hash: bytes -> Digest, s: State, x: Session.Exchange, s': State, end: PutEnd, reply: bytes) {
    var f := x.frame;
    if f.kind == T_PUT then
      ParsePut(f.payload).Ok? && PutAnswered(hash, s, ParsePut(f.payload).request, x.body, s', end, reply)
    else
      && s'.dir == s.dir && s'.data == s.data
      && if f.kind == T_GET then ParseGet(f.payload).Ok? && GetAnswered(hash, s, ParseGet(f.payload).request, reply)
         else exists listing :: reply == Encode(Frame(T_OK, listing))
  }

  /** What has been written since. */
  function Said(before: bytes, now: bytes): bytes {
    if |before| <= |now| then now[|before|..] else []
  }

  /** What the C client makes of the reply to a PUT: an error frame with the cause of the refusal; or the
      offset it was offered, and after it the verdict on its upload. */
  lemma PutReplyRead(d: Session.Decision, end: PutEnd, tail: bytes)
    requires d.Offer? ==> d.offset < U64_LIMIT && end.Ended? && (end.outcome.Stored? || end.outcome.Corrupt?)
    requires !d.Offer? && end.Ended? ==> end.outcome.AlreadyExists?
    ensures d.Offer? ==>
      var first := CDecode(PutReply(d, end) + tail);
      && first.CFrame? && first.frame.kind == T_OK && |first.frame.payload| == 8
      && Value(first.frame.payload) == d.offset
      && var second := CDecode(first.rest);
      second.CFrame? && Understood(second.frame) == end.outcome && second.rest == tail
    ensures !d.Offer? ==>
      var only := CDecode(PutReply(d, end) + tail);
      && only.CFrame? && only.frame.kind == T_ERROR && only.rest == tail
      && UnpackError(only.frame.payload) ==
         Error(if end.BadName? then E_BAD_NAME else if end.TooLarge? then E_TOO_LARGE else E_ALREADY_EXISTS, [])
  {
    hide Encode, CDecode, Value, UnpackError, PackError, BigEndian;
    if d.Offer? {
      var verdict := Encode(VerdictFrame(end.outcome));
      OfferReadBack(d.offset, verdict + tail);
      assert Encode(OfferFrame(d.offset)) + verdict + tail == Encode(OfferFrame(d.offset)) + (verdict + tail);
      assert OfferFrame(d.offset).payload[..8] == OfferFrame(d.offset).payload;
      VerdictReadBack(end.outcome, tail);
      VerdictUnderstood(end.outcome);
    } else {
      ErrorReadBack(if end.BadName? then E_BAD_NAME else if end.TooLarge? then E_TOO_LARGE else E_ALREADY_EXISTS, tail);
    }
  }

  /** And of the reply to a GET that is refused: the name is bad, or there is no such file. */
  lemma GetRefusalRead(hash: bytes -> Digest, s: State, r: Request, reply: bytes, tail: bytes)
    requires r.Get? && GetAnswered(hash, s, r, reply) && !IsFile(s, r.name)
    ensures var f := CDecode(reply + tail);
      && f.CFrame? && f.frame.kind == T_ERROR && f.rest == tail
      && (UnpackError(f.frame.payload) == Error(E_BAD_NAME, []) <==> !CheckFilename(r.name))
      && (UnpackError(f.frame.payload) == Error(E_NOT_FOUND, []) <==> CheckFilename(r.name))
  {
    hide Encode, CDecode, UnpackError, PackError, CheckFilename;
    ErrorReadBack(if CheckFilename(r.name) then E_NOT_FOUND else E_BAD_NAME, tail);
  }

  // ----- one command

  /** Every state has room for another session. */
  lemma FreshSid(s: State) returns (sid: Sid)
    ensures sid !in s.sessions
  {
    sid := Above(s.sessions.Keys);
  }

  lemma {:induction false} Above(used: set<Sid>) returns (bound: Sid)
    ensures forall i :: i in used ==> i < bound
  {
    if used == {} {
      bound := 0;
    } else {
      var i :| i in used;
      var rest := Above(used - {i});
      bound := if rest <= i then i + 1 else rest;
      assert forall j :: j in used ==> j == i || j in used - {i};
    }
  }

  /** The server runs with the filename rules as they are. */
  ghost predicate RunsCode(server: Server)
    reads server
  {
    server.Valid() && forall n :: server.accepts(n) <==> Storable(n)
  }

  /** What is left of a stream after a body of n bytes, as far as it comes. */
  function AfterBody(stream: bytes, n: nat): bytes {
    if |stream| < n then [] else stream[n..]
  }

  /** The name a PUT uploads, if it gets that far. */
  function UploadedBy(r: Request): set<Name> {
    if r.Put? && CheckFilename(r.name) then {AsName(r.name)} else {}
  }

  /** The upload itself, once name and size have passed: offer, body, verdict. */
  method RunUpload(server: Server, name: Name, digest: Digest, size: nat, wire: Wire, out: Sink)
    returns (outcome: Outcome, ok: bool)
    requires RunsCode(server) && Storable(name) && size <= MAX_FILE_SIZE && !out.broken
    modifies server, wire, out
    ensures RunsCode(server) && Within(server.Conf(), old(server.Abs()), server.Abs(), {name}) && ok == !out.broken
    ensures name in old(server.dir) || PartialName(name, digest) in old(server.inFlight) ==>
      && outcome == AlreadyExists && wire.pending == old(wire.pending)
      && server.dir == old(server.dir) && server.data == old(server.data)
      && (!out.broken ==> out.sent == old(out.sent) + Encode(ErrorFrame(E_ALREADY_EXISTS)))
    ensures !out.broken && name !in old(server.dir) && PartialName(name, digest) !in old(server.inFlight) ==>
      var kept := Kept(old(Content(server.Abs(), PartialName(name, digest))), size);
      && outcome == Judged(server.hash, kept, old(wire.pending), size, digest, false)
      && wire.pending == Unread(kept, old(wire.pending), size)
      && (outcome.Stored? ==> Content(server.Abs(), name) == Assembled(kept, old(wire.pending), size))
      && (outcome.Dropped? <==> PartialName(name, digest) in server.dir)
      && (outcome.Stored? <==> name in server.dir)
      && out.sent == old(out.sent) + Encode(OfferFrame(|kept|))
                     + if outcome.Dropped? then [] else Encode(VerdictFrame(outcome))
  {
    PartialDiffers(name, digest);
    hide PartialName, Within, Judged, Unread, Assembled, Encode, SentPart;
    ghost var c, s0 := server.Conf(), server.Abs();
    ghost var sid := FreshSid(server.Abs());
    var offer := server.StartPut(sid, name, digest, size);
    ghost var s1 := server.Abs();
    if offer.Declined? {
      ok := WriteFrame(out, ErrorFrame(E_ALREADY_EXISTS));
      return AlreadyExists, ok;
    }
    ok := WriteFrame(out, OfferFrame(offer.offset));
    if !ok {
      server.AbandonPut(sid, name, digest, size, offer.fd, offer.offset);
      WithinTrans(c, s0, s1, server.Abs(), {name});
      return Dropped, ok;
    }
    outcome := server.EndPut(sid, name, digest, size, offer.fd, offer.offset, wire);
    WithinTrans(c, s0, s1, server.Abs(), {name});
    if !outcome.Dropped? {
      ok := WriteFrame(out, VerdictFrame(outcome));
    }
  }

  lemma PartialDiffers(name: Name, digest: Digest)
    ensures name != PartialName(name, digest)
  {
  }

  /** `handle_put`, from the parsed request on: whatever it decides and however it ends, refusal,
      broken connection, CORRUPT, success, or a file that is already complete, it takes exactly the
      body its decision announced and nothing more, and answers what has come of it. */
  method HandlePutRequest(server: Server, r: Request, wire: Wire, out: Sink) returns (end: PutEnd, ok: bool)
    requires RunsCode(server) && r.Put? && |r.digest| == HASH_SIZE && !out.broken
    modifies server, wire, out
    ensures RunsCode(server) && Within(server.Conf(), old(server.Abs()), server.Abs(), UploadedBy(r))
    ensures ok == !out.broken
    ensures ok ==>
      var d, stream := DecidePut(old(server.Abs()), r), old(wire.pending);
      var n := if d.Offer? then r.size - d.offset else 0;
      && (d.Offer? || d.Refuse?) && n >= 0 && wire.pending == AfterBody(stream, n) && old(out.sent) <= out.sent
      && (end == Ended(Dropped) <==> |stream| < n)
      && (|stream| >= n ==>
            PutAnswered(server.hash, old(server.Abs()), r, stream[..n], server.Abs(), end,
                        Said(old(out.sent), out.sent)))
      && (|stream| < n ==> d.offset < U64_LIMIT && out.sent == old(out.sent) + Encode(OfferFrame(d.offset)))
  {
    hide PartialName, Within, Kept, Encode, SentPart;
    WithinRefl(server.Conf(), server.Abs(), UploadedBy(r));
    ghost var s0, stream, said := server.Abs(), wire.pending, out.sent;
    if !CheckFilename(r.name) {
      ok := WriteFrame(out, ErrorFrame(E_BAD_NAME));
      Refusal(server.hash, s0, r, server.Abs(), BadName, Encode(ErrorFrame(E_BAD_NAME)));
      return BadName, ok;
    }
    if r.size > MAX_FILE_SIZE {
      ok := WriteFrame(out, ErrorFrame(E_TOO_LARGE));
      Refusal(server.hash, s0, r, server.Abs(), TooLarge, Encode(ErrorFrame(E_TOO_LARGE)));
      return TooLarge, ok;
    }
    var name := AsName(r.name);
    if name == [DOT] {
      ok := WriteFrame(out, ErrorFrame(E_ALREADY_EXISTS));
      Refusal(server.hash, s0, r, server.Abs(), Ended(AlreadyExists), Encode(ErrorFrame(E_ALREADY_EXISTS)));
      return Ended(AlreadyExists), ok;
    }
    var outcome, sent := RunUpload(server, name, r.digest, r.size, wire, out);
    end, ok := Ended(outcome), sent;
    if ok {
      Concluded(server.hash, s0, r, stream, server.Abs(), outcome);
    }
  }

  lemma Refusal(hash: bytes -> Digest, s: State, r: Request, s': State, end: PutEnd, reply: bytes)
    requires r.Put? && |r.digest| == HASH_SIZE && DecidePut(s, r).Refuse? && s'.dir == s.dir && s'.data == s.data
    requires end == (if !CheckFilename(r.name) then BadName else if r.size > MAX_FILE_SIZE then TooLarge
                     else Ended(AlreadyExists))
    requires reply == PutReply(DecidePut(s, r), end)
    ensures forall body :: PutAnswered(hash, s, r, body, s', end, reply)
  {
  }

  /** What RunUpload says of an upload is what is asked for. */
  lemma Concluded(hash: bytes -> Digest, s: State, r: Request, stream: bytes, s': State, outcome: Outcome)
    requires r.Put? && |r.digest| == HASH_SIZE && CheckFilename(r.name) && r.size <= MAX_FILE_SIZE
    requires AsName(r.name) != [DOT]
    requires var name, p := AsName(r.name), PartialName(AsName(r.name), r.digest);
      if name in s.dir || p in s.inFlight then outcome == AlreadyExists && s'.dir == s.dir && s'.data == s.data
      else
        var kept := Kept(Content(s, p), r.size);
        && outcome == Judged(hash, kept, stream, r.size, r.digest, false)
        && (outcome.Stored? ==> Content(s', name) == Assembled(kept, stream, r.size))
        && (outcome.Dropped? <==> p in s'.dir) && (outcome.Stored? <==> name in s'.dir)
    ensures var d := DecidePut(s, r);
      && (d.Offer? || d.Refuse?) && (d.Offer? ==> d.offset <= r.size)
      && var n := if d.Offer? then r.size - d.offset else 0;
      && (outcome.Dropped? <==> |stream| < n)
      && (|stream| >= n ==>
            PutAnswered(hash, s, r, stream[..n], s', Ended(outcome), PutReply(d, Ended(outcome))))
  {
    hide PartialName, Encode;
  }

  /** `handle_get`: the reply is written, or the request raises. */
  method HandleGetRequest(server: Server, r: Request, out: Sink) returns (raised: bool, ok: bool)
    requires RunsCode(server) && r.Get? && !out.broken
    modifies out
    ensures raised <==> DecideGet(server.Abs(), r).Fatal?
    ensures raised ==> DecideGet(server.Abs(), r) == Session.Fatal(E_MALFORMED) && out.sent == old(out.sent)
    ensures ok == !out.broken && (raised ==> ok)
    ensures !raised && ok ==>
      old(out.sent) <= out.sent && GetAnswered(server.hash, server.Abs(), r, Said(old(out.sent), out.sent))
  {
    hide Encode, SentPart, Serving.OnTheWire;
    DecideGetMeans(server.Abs(), server.hash, r);
    if !CheckFilename(r.name) {
      ok := WriteFrame(out, ErrorFrame(E_BAD_NAME));
      return false, ok;
    }
    var name := AsName(r.name);
    if name == [DOT] || name !in server.dir {
      ok := WriteFrame(out, ErrorFrame(E_NOT_FOUND));
      return false, ok;
    }
    var a, sent := Serving.SendFile(out, server.hash, server.data[server.dir[name]], r.offset, r.token);
    return a.PastEnd?, sent;
  }

  /** The same from the acquired lock on, when other sessions have acted since the decision: the
      upload may lose the race for the name, and still takes from the stream what Session says for
      the offer it made. */
  method FinishPutRequest(server: Server, ghost sid: Sid, f: Frame, r: Request, wire: Wire)
    returns (outcome: Outcome, ghost offset: nat)
    requires Sendable(f) && f.kind == T_PUT && ParsePut(f.payload) == Ok(r)
    requires server.Valid() && CheckFilename(r.name) && r.size <= MAX_FILE_SIZE
    requires server.AtStage(sid, AsName(r.name), r.digest, r.size, Acquired)
    modifies server, wire
    ensures server.Valid() && server.AtStage(sid, AsName(r.name), r.digest, r.size, Done(outcome))
    ensures Within(server.Conf(), old(server.Abs()), server.Abs(), UploadedBy(r))
    ensures var kept := Kept(old(Content(server.Abs(), PartialName(AsName(r.name), r.digest))), r.size);
      && offset == |kept|
      && outcome == Judged(server.hash, kept, old(wire.pending), r.size, r.digest, AsName(r.name) in old(server.dir))
    ensures var next := Session.Next(Encode(f) + old(wire.pending), Session.Offer(offset));
      && (outcome.Dropped? <==> next.Stop?)
      && wire.pending == if next.More? then next.rest else next.left
  {
    hide PartialName, Within, Kept, Session.Next, Decode, ParsePut, CheckFilename, Server.AtStage, Server.Valid;
    offset := |Kept(Content(server.Abs(), PartialName(AsName(r.name), r.digest)), r.size)|;
    NextAfterPut(f, r, wire.pending, offset);
    outcome := server.FinishPut(sid, AsName(r.name), r.digest, r.size, wire);
  }

  lemma NextAfterPut(f: Frame, r: Request, stream: bytes, offset: nat)
    requires Sendable(f) && f.kind == T_PUT && ParsePut(f.payload) == Ok(r) && |r.digest| == HASH_SIZE && r.Put?
    requires CheckFilename(r.name) && r.size <= MAX_FILE_SIZE && offset <= r.size
    ensures var next, n := Session.Next(Encode(f) + stream, Session.Offer(offset)), r.size - offset;
      && (next.Stop? <==> |stream| < n)
      && (if next.More? then next.rest else next.left) == AfterBody(stream, n)
  {
    hide Decode, Encode, ParsePut, CheckFilename;
    DecodeEncode(f, stream);
  }

  // ----- one turn

  /** The name a command uploads, if any. */
  function UploadedIn(f: Frame): set<Name> {
    if f.kind == T_PUT && ParsePut(f.payload).Ok? then UploadedBy(ParsePut(f.payload).request) else {}
  }

  /** A command is dealt with; or it raises a violation; or its body is cut off; or a reply cannot be sent. */
  datatype FrameEnd = Handled | Raised(reason: byte) | Cut | Unsent

  /** What `handle_client` does with a command frame, for a reply that gets out. */
  ghost predicate FrameDone(hash: bytes -> Digest, s: State, f: Frame, stream: bytes, s': State, left: bytes,
                            e: FrameEnd, end: PutEnd, said: bytes)
  {
    var d := Decide(s, f);
    var n := Session.BodyLength(f, d);
    if !Session.Survivable(f, d) then e == Raised(Session.FatalReason(f, d)) && left == stream && said == []
    else if |stream| < n then
      e == Cut && left == [] && d.Offer? && d.offset < U64_LIMIT && said == Encode(OfferFrame(d.offset))
    else e == Handled && left == stream[n..] && Answered(hash, s, Session.Exchange(f, stream[..n]), s', end, said)
  }

  method HandleFrame(server: Server, f: Frame, wire: Wire, out: Sink) returns (e: FrameEnd, ghost end: PutEnd)
    requires RunsCode(server) && !out.broken
    modifies server, wire, out
    ensures RunsCode(server) && Within(server.Conf(), old(server.Abs()), server.Abs(), UploadedIn(f))
    ensures e.Unsent? <==> out.broken
    ensures e.Raised? ==> server.Abs() == old(server.Abs())
    ensures !out.broken ==> old(out.sent) <= out.sent
    ensures !out.broken ==>
      FrameDone(server.hash, old(server.Abs()), f, old(wire.pending), server.Abs(), wire.pending, e, end,
                Said(old(out.sent), out.sent))
  {
    hide Within, DecidePut, DecideGet, ParsePut, ParseGet, CheckFilename, Encode, PutAnswered, GetAnswered, SentPart;
    WithinRefl(server.Conf(), server.Abs(), UploadedIn(f));
    end := BadName;
    ghost var s, stream := server.Abs(), wire.pending;
    assert stream[0..] == stream && stream[..0] == [];
    if f.kind == T_PUT {
      var parsed := ParsePut(f.payload);
      if parsed.Malformed? {
        return Raised(E_MALFORMED), end;
      }
      PutBody(s, f);
      var ended, ok := HandlePutRequest(server, parsed.request, wire, out);
      end := ended;
      e := if !ok then Unsent else if ended == Ended(Dropped) then Cut else Handled;
    } else if f.kind == T_GET {
      var parsed := ParseGet(f.payload);
      if parsed.Malformed? {
        return Raised(E_MALFORMED), end;
      }
      var raised, ok := HandleGetRequest(server, parsed.request, out);
      e := if !ok then Unsent else if raised then Raised(E_MALFORMED) else Handled;
    } else if f.kind == T_LIST {
      var listing: bytes :| |listing| < U64_LIMIT;
      var ok := WriteFrame(out, Frame(T_OK, listing));
      assert ok ==> Said(old(out.sent), out.sent) == Encode(Frame(T_OK, listing));
      e := if ok then Handled else Unsent;
    } else {
      return Raised(E_MALFORMED), end;
    }
  }

  /** The body a PUT announces is what its decision leaves to send. */
  lemma PutBody(s: State, f: Frame)
    requires f.kind == T_PUT && ParsePut(f.payload).Ok?
    ensures var r, d := ParsePut(f.payload).request, Decide(s, f);
      && d == DecidePut(s, r) && !d.Fatal?
      && Session.BodyLength(f, d) == if d.Offer? && d.offset <= r.size then r.size - d.offset else 0
  {
    hide ParsePut, PartialName, Kept;
  }

  /** The decision about the next command of a stream, if there is one. */
  function DecideNext(s: State, stream: bytes): Session.Decision {
    match Decode(stream)
    case Complete(f, _) => Decide(s, f)
    case _ => Session.Serve
  }

  /** The name a turn uploads, also one whose body was cut off. */
  function UploadedAt(r: Session.Step): set<Name> {
    match r
    case More(x, _) => UploadedIn(x.frame)
    case Stop(BodyCut(f, _), _) => UploadedIn(f)
    case _ => {}
  }

  /** The last thing said in a session: OK to QUIT, the reason of a violation, the offer whose body was
      cut off, and nothing to a peer that has closed. */
  function Farewell(end: Session.End, d: Session.Decision): bytes {
    match end
    case Quit => Encode(Frame(T_OK, []))
    case PeerClosed => []
    case Violated(reason) => Encode(ErrorFrame(reason))
    case BodyCut(_, _) => if d.Offer? && d.offset < U64_LIMIT then Encode(OfferFrame(d.offset)) else []
  }

  /** One turn of the loop, with the decision the state makes. */
  method HandleCommand(server: Server, wire: Wire, out: Sink)
    returns (go: bool, ghost r: Session.Step, ghost end: PutEnd, ghost names: set<Name>)
    requires RunsCode(server) && !out.broken
    modifies server, wire, out
    ensures RunsCode(server) && Within(server.Conf(), old(server.Abs()), server.Abs(), names)
    ensures out.broken ==> !go
    ensures !out.broken ==>
      var d := DecideNext(old(server.Abs()), old(wire.pending));
      && r == Session.Next(old(wire.pending), d) && names == UploadedAt(r) && old(out.sent) <= out.sent
      && go == r.More? && wire.pending == (if go then r.rest else r.left)
      && (if go then
            Answered(server.hash, old(server.Abs()), r.exchange, server.Abs(), end, Said(old(out.sent), out.sent))
          else Said(old(out.sent), out.sent) == Farewell(r.end, d))
      && (r.Stop? && !r.end.BodyCut? ==> server.Abs() == old(server.Abs()))
  {
    hide Decode, Session.Survivable, Session.BodyLength, Decide, Within, UploadedIn, Encode, SentPart, Answered;
    r := Session.Next(wire.pending, DecideNext(server.Abs(), wire.pending));
    end, names := BadName, UploadedAt(r);
    WithinRefl(server.Conf(), server.Abs(), names);
    var next := ReadFrame(wire);
    match next {
      case Closed => return false, r, end, names;
      case Violation(reason, _) =>
        var ok := WriteFrame(out, ErrorFrame(reason));
        return false, r, end, names;
      case Complete(f, _) =>
        if f.kind == T_QUIT {
          var ok := WriteFrame(out, Frame(T_OK, []));
          return false, r, end, names;
        }
        var e, ended := HandleFrame(server, f, wire, out);
        end := ended;
        if e.Raised? {
          var ok := WriteFrame(out, ErrorFrame(e.reason));
          return false, r, end, names;
        }
        names := UploadedIn(f);
        return e.Handled?, r, end, names;
    }
  }

  // ----- whole sessions

  /** The decisions taken, as an oracle. */
  function Taken(ds: seq<Session.Decision>): Session.Oracle {
    (k: nat) => if k < |ds| then ds[k] else Session.Serve
  }

  /** What has been settled about the exchanges so far: the state before each and after the last, the
      decision that state made, how a PUT ended, and the reply. */
  datatype Record = Record(states: seq<State>, decisions: seq<Session.Decision>, ends: seq<PutEnd>, replies: seq<bytes>)

  ghost predicate Served(hash: bytes -> Digest, k: Record, xs: seq<Session.Exchange>) {
    && |xs| == |k.decisions| == |k.ends| == |k.replies| == |k.states| - 1
    && forall i :: 0 <= i < |xs| ==>
         && k.decisions[i] == Decide(k.states[i], xs[i].frame) && Session.Conforms(xs[i], k.decisions[i])
         && Answered(hash, k.states[i], xs[i], k.states[i + 1], k.ends[i], k.replies[i])
  }

  function Further(k: Record, s': State, d: Session.Decision, end: PutEnd, reply: bytes): Record {
    Record(k.states + [s'], k.decisions + [d], k.ends + [end], k.replies + [reply])
  }

  function Flat(replies: seq<bytes>): bytes {
    if replies == [] then [] else Flat(replies[..|replies| - 1]) + replies[|replies| - 1]
  }

  lemma Extended(hash: bytes -> Digest, k: Record, xs: seq<Session.Exchange>, x: Session.Exchange, s': State,
                 d: Session.Decision, end: PutEnd, reply: bytes)
    requires Served(hash, k, xs) && d == Decide(k.states[|xs|], x.frame) && Session.Conforms(x, d)
    requires Answered(hash, k.states[|xs|], x, s', end, reply)
    ensures Served(hash, Further(k, s', d, end, reply), xs + [x])
    ensures Flat(Further(k, s', d, end, reply).replies) == Flat(k.replies) + reply
  {
    hide Session.Conforms, Decide, Answered;
    assert (k.replies + [reply])[..|k.replies|] == k.replies;
    var k', ys := Further(k, s', d, end, reply), xs + [x];
    forall i | 0 <= i < |ys|
      ensures k'.decisions[i] == Decide(k'.states[i], ys[i].frame) && Session.Conforms(ys[i], k'.decisions[i])
      ensures Answered(hash, k'.states[i], ys[i], k'.states[i + 1], k'.ends[i], k'.replies[i])
    {
      if i < |xs| {
        assert k'.states[i] == k.states[i] && k'.states[i + 1] == k.states[i + 1];
      }
    }
  }

  lemma DecidedOn(s: State, stream: bytes)
    requires Session.Next(stream, DecideNext(s, stream)).More?
    ensures DecideNext(s, stream) == Decide(s, Session.Next(stream, DecideNext(s, stream)).exchange.frame)
  {
    hide Decode, Decide, Session.Survivable, Session.BodyLength;
  }

  lemma TakenFromStream(xs: seq<Session.Exchange>, stream: bytes, d: Session.Decision)
    requires Session.Next(stream, d).More?
    ensures var r := Session.Next(stream, d);
      Session.Conforms(r.exchange, d) && Session.Sent(xs + [r.exchange]) + r.rest == Session.Sent(xs) + stream
  {
    hide Encode, Session.Next, Session.Conforms, Session.Sent;
    var r := Session.Next(stream, d);
    Session.NextTakesOnly(stream, d);
    SentOneMore(xs, r.exchange);
    assert Session.Sent(xs) + Encode(r.exchange.frame) + r.exchange.body + r.rest
        == Session.Sent(xs) + (Encode(r.exchange.frame) + r.exchange.body + r.rest);
  }

  lemma {:induction false} SentOneMore(xs: seq<Session.Exchange>, x: Session.Exchange)
    ensures Session.Sent(xs + [x]) == Session.Sent(xs) + Encode(x.frame) + x.body
  {
    hide Encode;
    if xs == [] {
      assert [x][1..] == [] && xs + [x] == [x];
    } else {
      SentOneMore(xs[1..], x);
      assert (xs + [x])[1..] == xs[1..] + [x];
    }
  }

  /** A session that served some exchanges and then stopped is the session of Session. */
  lemma SessionOf(hash: bytes -> Digest, k: Record, xs: seq<Session.Exchange>, stream: bytes)
    requires Served(hash, k, xs) && Session.Next(stream, DecideNext(k.states[|xs|], stream)).Stop?
    ensures var d := DecideNext(k.states[|xs|], stream); var r := Session.Next(stream, d);
      Session.Commands(Session.Sent(xs) + stream, Taken(k.decisions + [d]), 0) == Session.Transcript(xs, r.end, r.left)
  {
    hide Session.Next, Session.Conforms, Decide, Answered;
    var oracle := Taken(k.decisions + [DecideNext(k.states[|xs|], stream)]);
    assert forall i :: 0 <= i < |xs| ==> oracle(0 + i) == k.decisions[i];
    Session.Aligned(xs, stream, oracle, 0);
    assert xs + [] == xs;
  }

  /** The names uploaded in a session. */
  function UploadedDuring(t: Session.Transcript): set<Name> {
    UploadedSoFar(t.exchanges) + if t.end.BodyCut? then UploadedIn(t.end.frame) else {}
  }

  function UploadedSoFar(xs: seq<Session.Exchange>): set<Name> {
    set x, n | x in xs && n in UploadedIn(x.frame) :: n
  }

  /** The loop of `handle_client`. If every reply gets out: the transcript is Session's for the decisions
      taken, each decision is the one the shared state made at that moment, and what was written is
      the replies in order and a last word. */
  method HandleCommands(server: Server, wire: Wire, out: Sink)
    returns (ghost t: Session.Transcript, ghost k: Record, ghost last: Session.Decision, ghost names: set<Name>)
    requires RunsCode(server) && !out.broken
    modifies server, wire, out
    ensures RunsCode(server) && Within(server.Conf(), old(server.Abs()), server.Abs(), names)
    ensures !out.broken ==>
      && t == Session.Commands(old(wire.pending), Taken(k.decisions + [last]), 0) && wire.pending == t.left
      && names == UploadedDuring(t) && Served(server.hash, k, t.exchanges) && k.states[0] == old(server.Abs())
      && (!t.end.BodyCut? ==> k.states[|t.exchanges|] == server.Abs())
      && out.sent == old(out.sent) + Flat(k.replies) + Farewell(t.end, last)
  {
    hide Session.Next, Decide, Within, Served, Decode, UploadedIn, UploadedSoFar, UploadedDuring, UploadedAt, Answered;
    hide Farewell, Session.Conforms, Session.Sent, Flat;
    EmptySent();
    ghost var c, start, first, said := server.Conf(), server.Abs(), wire.pending, out.sent;
    ghost var xs: seq<Session.Exchange> := [];
    t, k, last := Session.Transcript([], Session.PeerClosed, []), Record([start], [], [], []), Session.Serve;
    names := UploadedSoFar(xs);
    WithinRefl(c, start, names);
    NothingServed(server.hash, start);
    while true
      invariant RunsCode(server) && server.Conf() == c && !out.broken && names == UploadedSoFar(xs)
      invariant Within(c, start, server.Abs(), names)
      invariant Served(server.hash, k, xs) && |k.states| == |xs| + 1
      invariant k.states[0] == start && k.states[|xs|] == server.Abs()
      invariant Session.Sent(xs) + wire.pending == first && out.sent == said + Flat(k.replies)
      decreases |wire.pending|
    {
      ghost var s, stream, before := server.Abs(), wire.pending, out.sent;
      ghost var d := DecideNext(s, stream);
      var go, r, end, more := HandleCommand(server, wire, out);
      Widen(c, start, s, server.Abs(), names, more);
      names := names + more;
      if !go {
        if !out.broken {
          SessionOf(server.hash, k, xs, stream);
          t, last := Session.Transcript(xs, r.end, r.left), d;
          UploadedLast(xs, r);
        }
        return;
      }
      ghost var reply := Said(before, out.sent);
      assert out.sent == before + reply;
      DecidedOn(s, stream);
      TakenFromStream(xs, stream, d);
      Extended(server.hash, k, xs, r.exchange, server.Abs(), d, end, reply);
      UploadedNext(xs, r);
      xs, k := xs + [r.exchange], Further(k, server.Abs(), d, end, reply);
    }
  }

  /** One more turn, with one more name perhaps. */
  lemma Widen(c: Config, start: State, s: State, s': State, names: set<Name>, more: set<Name>)
    requires Within(c, start, s, names) && Within(c, s, s', more)
    ensures Within(c, start, s', names + more)
  {
    hide Within;
    WithinMore(c, start, s, names, names + more);
    WithinMore(c, s, s', more, names + more);
    WithinTrans(c, start, s, s', names + more);
  }

  lemma UploadedNext(xs: seq<Session.Exchange>, r: Session.Step)
    requires r.More?
    ensures UploadedSoFar(xs + [r.exchange]) == UploadedSoFar(xs) + UploadedAt(r)
  {
    hide UploadedIn;
    assert r.exchange in xs + [r.exchange];
  }

  lemma UploadedLast(xs: seq<Session.Exchange>, r: Session.Step)
    requires r.Stop?
    ensures UploadedDuring(Session.Transcript(xs, r.end, r.left)) == UploadedSoFar(xs) + UploadedAt(r)
  {
    hide UploadedIn;
  }

  lemma EmptySent()
    ensures Session.Sent([]) == [] && Flat([]) == []
  {
  }

  lemma NothingServed(hash: bytes -> Digest, s: State)
    ensures Served(hash, Record([s], [], [], []), [])
  {
  }

  /** A stored plain name, on a server on which none of its partials has been uploaded. */
  ghost predicate SafeAmong(c: Config, s: State, n: Name, names: set<Name>) {
    n in s.dir && c.accepts(n) && !SweepMatches(n) && Started(c, s, names) && NoPartials(names, n)
  }

  /** What is said before the commands, or instead of them. */
  function Greeting(stream: bytes): bytes {
    match Decode(stream)
    case Closed => []
    case Violation(reason, _) => Encode(ErrorFrame(reason))
    case Complete(f, _) => Encode(if f.kind == T_HELLO then Frame(T_OK, []) else ErrorFrame(E_MALFORMED))
  }

  predicate Welcome(stream: bytes) {
    Decode(stream).Complete? && Decode(stream).frame.kind == T_HELLO
  }

  /** The first reply of a session, as the C client reads it: OK to HELLO; else the reason it is over. */
  lemma GreetingRead(stream: bytes, tail: bytes)
    requires !Decode(stream).Closed?
    ensures var f := CDecode(Greeting(stream) + tail);
      && f.CFrame? && f.rest == tail
      && (Welcome(stream) ==> f.frame == Frame(T_OK, []))
      && (!Welcome(stream) ==>
            && f.frame.kind == T_ERROR
            && UnpackError(f.frame.payload) ==
               Error(if Decode(stream).Violation? then Decode(stream).reason else E_MALFORMED, []))
  {
    hide Encode, CDecode, Decode, UnpackError, PackError;
    OkReadBack(tail);
    ErrorReadBack(if Decode(stream).Violation? then Decode(stream).reason else E_MALFORMED, tail);
  }

  /** The last: OK to QUIT, and to a violation its own reason. */
  lemma FarewellRead(end: Session.End, d: Session.Decision, tail: bytes)
    requires end.Quit? || end.Violated?
    ensures var f := CDecode(Farewell(end, d) + tail);
      && f.CFrame? && f.rest == tail
      && (end.Quit? ==> f.frame == Frame(T_OK, []))
      && (end.Violated? ==> f.frame.kind == T_ERROR && UnpackError(f.frame.payload) == Error(end.reason, []))
  {
    hide Encode, CDecode, UnpackError, PackError;
    OkReadBack(tail);
    if end.Violated? {
      ErrorReadBack(end.reason, tail);
    }
  }

  /** `handle_client`: HELLO, then the commands. If every reply gets out, the stream is consumed as
      Session says for the decisions the server took, and the replies are those of each command.
      Whether or not they do, a session in which no partial of a stored plain name is uploaded
      leaves the file as it is. */
  method HandleClient(server: Server, wire: Wire, out: Sink)
    returns (ghost t: Session.Transcript, ghost k: Record, ghost last: Session.Decision, ghost names: set<Name>)
    requires RunsCode(server) && !out.broken
    modifies server, wire, out
    ensures RunsCode(server) && Within(server.Conf(), old(server.Abs()), server.Abs(), names)
    ensures !out.broken ==>
      && t == Session.Run(old(wire.pending), Taken(k.decisions + [last])) && wire.pending == t.left
      && names == UploadedDuring(t) && Served(server.hash, k, t.exchanges) && k.states[0] == old(server.Abs())
      && (!t.end.BodyCut? ==> k.states[|t.exchanges|] == server.Abs())
      && out.sent == old(out.sent) + Greeting(old(wire.pending)) + Flat(k.replies)
                     + if Welcome(old(wire.pending)) then Farewell(t.end, last) else []
    ensures forall n, others ::
      SafeAmong(server.Conf(), old(server.Abs()), n, others) && NoPartials(names, n) ==>
      SameEntry(old(server.Abs()), server.Abs(), n) && IsVerified(server.Conf(), server.Abs(), n)
  {
    hide Decode, Session.Commands, Within, Served, Encode, UploadedIn, SentPart;
    ghost var start := server.Abs();
    k, last := Record([start], [], [], []), Session.Serve;
    NothingServed(server.hash, start);
    t := Session.Run(wire.pending, Taken(k.decisions + [last]));
    names := {};
    WithinRefl(server.Conf(), start, names);
    SafeStays(server.Conf(), start, start, names);
    var first := ReadFrame(wire);
    match first {
      case Closed => return;
      case Violation(reason, _) =>
        var ok := WriteFrame(out, ErrorFrame(reason));
        return;
      case Complete(f, _) =>
        var ok := WriteFrame(out, if f.kind == T_HELLO then Frame(T_OK, []) else ErrorFrame(E_MALFORMED));
        if !ok || f.kind != T_HELLO {
          return;
        }
    }
    t, k, last, names := HandleCommands(server, wire, out);
    SafeStays(server.Conf(), start, server.Abs(), names);
  }

  lemma SafeStays(c: Config, s: State, s': State, now: set<Name>)
    requires Within(c, s, s', now)
    ensures forall n, names :: SafeAmong(c, s, n, names) && NoPartials(now, n) ==>
      SameEntry(s, s', n) && IsVerified(c, s', n)
  {
    hide Within, Started, NoPartials, SweepMatches, SameEntry, IsVerified;
    forall n, names | SafeAmong(c, s, n, names) && NoPartials(now, n)
      ensures SameEntry(s, s', n) && IsVerified(c, s', n)
    {
      KeptAcross(c, s, s', n, names, now);
    }
  }
}
