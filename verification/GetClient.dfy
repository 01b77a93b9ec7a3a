/**
  The C download client as it works: arrays filled by exact reads, a directory updated in place, and
  the streaming SHA-256 of Sha256 for the verdict. It computes the function Download.ClientGet.
 */
module GetClient {
  import opened ByteOrder
  import opened Names
  import opened Frames
  import opened Serving
  import opened Download
  import Requests
  import Sha256Spec
  import Sha256

  /** SHA-256 as the hash of the protocol. */
  function Sha(m: bytes): Digest {
    Sha256Spec.Digest(m)
  }

  /** The directory the destination lives in. */
  class LocalDir {
    var files: Local

    constructor (initial: Local)
      ensures files == initial
    {
      files := initial;
    }
  }

  /** The request: the partial's length and token if there is exactly one, zeros otherwise. */
  method PrepareGet(dir: LocalDir, base: Name, entries: seq<Name>, remote: Name)
    returns (found: Found, ok: bool, request: bytes)
    requires Listing(entries, dir.files) && forall e :: e in dir.files ==> |dir.files[e]| < U64_LIMIT
    ensures found == SolePartial(base, entries)
    ensures ok <==> |remote| <= MAX_NAME
    ensures ok ==> request == Requests.EncodeFields(HeldOffset(dir.files, found), HeldToken(found), remote)
  {
    found := FindPartial(base, entries);
    ok, request := Requests.PackRequest(HeldOffset(dir.files, found), HeldToken(found), remote);
  }

  lemma ChunkBoundary(pos: nat, len: nat)
    requires pos % CHUNK == 0 && pos <= len < pos + CHUNK
    ensures (len / CHUNK) * CHUNK == pos
  {
  }

  /** The body loop: whole reads of up to 64 KiB, appended as they complete. */
  method ReceiveBody(dir: LocalDir, partial: Name, wire: Wire, wanted: nat) returns (complete: bool)
    requires partial in dir.files
    modifies dir, wire
    ensures complete <==> |old(wire.pending)| >= wanted
    ensures dir.files == old(dir.files)[partial := old(dir.files)[partial] + Written(old(wire.pending), wanted)]
  {
    var buf := new byte[CHUNK];
    ghost var body, before := wire.pending, dir.files;
    assert before[partial] + body[..0] == before[partial];
    assert before[partial := before[partial]] == before;
    var pos := 0;
    while pos < wanted
      invariant pos <= wanted && pos <= |body| && (pos < wanted ==> pos % CHUNK == 0)
      invariant wire.pending == body[pos..]
      invariant dir.files == before[partial := before[partial] + body[..pos]]
    {
      var want := if wanted - pos < CHUNK then wanted - pos else CHUNK;
      var ok := ReadInto(wire, buf, want);
      if !ok {
        ChunkBoundary(pos, |body|);
        return false;
      }
      assert body[..pos] + body[pos..][..want] == body[..pos + want];
      assert before[partial] + body[..pos] + body[pos..][..want] == before[partial] + body[..pos + want];
      dir.files := dir.files[partial := dir.files[partial] + buf[..want]];
      pos := pos + want;
    }
    return true;
  }

  /** Hash what is on disk, then rename it into place or throw it away. */
  method VerifyAndRename(dir: LocalDir, base: Name, partial: Name, digest: Digest) returns (r: Result)
    requires partial in dir.files
    modifies dir
    ensures r == if Sha256Spec.Digest(old(dir.files)[partial]) == digest then Stored else Mismatch
    ensures r.Stored? ==> dir.files == (old(dir.files) - {partial})[base := old(dir.files)[partial]]
    ensures r.Mismatch? ==> dir.files == old(dir.files) - {partial}
  {
    var content := dir.files[partial];
    var actual := Sha256.HashFile(content, |content|);
    hide Sha256Spec.Digest;
    if actual.digest != digest {
      dir.files := dir.files - {partial};
      return Mismatch;
    }
    dir.files := (dir.files - {partial})[base := content];
    return Stored;
  }

  /** From the metadata to the end. */
  method ReceiveFile(dir: LocalDir, base: Name, found: Found, wire: Wire, total: u64, start: u64, digest: Digest)
    returns (r: Result)
    modifies dir, wire
    ensures Outcome(dir.files, r) ==
      Receive(Sha, old(dir.files), base, found, total, start, digest, old(wire.pending))
  {
    hide Sha256Spec.Digest, PartialName, Written;
    var partial := PartialName(base, digest);
    if start == 0 && found.Sole? {
      dir.files := dir.files - {found.entry};
    }
    if start == 0 || partial !in dir.files {
      dir.files := dir.files[partial := []];
    }
    assert dir.files == Opened(old(dir.files), found, partial, start);
    var wanted := (total - start) % U64_LIMIT;
    var complete := ReceiveBody(dir, partial, wire, wanted);
    if !complete {
      return Interrupted;
    }
    r := VerifyAndRename(dir, base, partial, digest);
  }

  /** `rtrv_do_get` once the request is out: the directory ends up as ClientGet says, for any reply
      stream whatever and any fragmentation of it. */
  method ReadReply(dir: LocalDir, base: Name, found: Found, wire: Wire) returns (r: Result)
    requires base !in dir.files
    modifies dir, wire
    ensures Outcome(dir.files, r) == ClientGet(Sha, old(dir.files), base, found, old(wire.pending))
  {
    hide Sha, Receive, Value;
    ghost var s := wire.pending;
    var header := new byte[HEADER_SIZE];
    var ok := ReadInto(wire, header, HEADER_SIZE);
    if !ok {
      return Interrupted;
    }
    assert header[..] == s[..14];
    assert header[..4] == s[..4];
    if header[..4] != MAGIC || header[4] != VERSION {
      return Interrupted;
    }
    if header[5] == T_ERROR {
      return Refused;
    }
    if header[5] != T_OK {
      return Interrupted;
    }
    var meta := new byte[GET_META];
    ok := ReadInto(wire, meta, GET_META);
    if !ok {
      return Interrupted;
    }
    assert s[14..][..48] == s[14..62];
    assert meta[..] == meta[..GET_META] == s[14..62];
    assert meta[..8] == s[14..22] && meta[8..16] == s[22..30] && meta[16..48] == s[30..62];
    var total := GetU64(meta[..8]);
    var start := GetU64(meta[8..16]);
    assert meta[..8][..8] == meta[..8] && meta[8..16][..8] == meta[8..16];
    r := ReceiveFile(dir, base, found, wire, total, start, meta[16..48]);
  }

  /** `rtrv_do_get`: an existing destination is left alone, the request states what is held, and once
      it is out the reply decides. A request that does not get out changes nothing. */
  method DoGet(dir: LocalDir, base: Name, entries: seq<Name>, remote: Name, out: Sink, wire: Wire)
    returns (r: Result, ghost requested: bool)
    requires Listing(entries, dir.files) && forall e :: e in dir.files ==> |dir.files[e]| < U64_LIMIT
    modifies dir, out, wire
    ensures base in old(dir.files) ==> r == Exists && !requested
    ensures |remote| > MAX_NAME ==> !requested
    ensures out.broken == (old(out.broken) || (base !in old(dir.files) && |remote| <= MAX_NAME && !requested))
    ensures !requested ==> dir.files == old(dir.files) && (r.Exists? || r.Interrupted?)
    ensures requested ==>
      var found := SolePartial(base, entries);
      && |remote| <= MAX_NAME
      && out.sent == old(out.sent) + Encode(Frame(T_GET,
           Requests.EncodeFields(HeldOffset(old(dir.files), found), HeldToken(found), remote)))
      && Outcome(dir.files, r) == ClientGet(Sha, old(dir.files), base, found, old(wire.pending))
    ensures base !in old(dir.files) ==> (base in dir.files <==> r.Stored?)
    ensures base in dir.files && base !in old(dir.files) ==>
      |old(wire.pending)| >= 62 && Sha256Spec.Digest(dir.files[base]) == old(wire.pending)[30..62]
    ensures r.Mismatch? ==>
      && |old(wire.pending)| >= 62
      && var p := PartialName(base, old(wire.pending)[30..62]);
      p !in dir.files && OthersKept(old(dir.files), dir.files, base, p, SolePartial(base, entries))
  {
    hide Sha256Spec.Digest, SolePartial, ClientGet, Encode, SentPart;
    if base in dir.files {
      return Exists, false;
    }
    var found, fits, request := PrepareGet(dir, base, entries, remote);
    if !fits {
      return Interrupted, false;
    }
    RequestFits(request, HeldOffset(dir.files, found), HeldToken(found), remote);
    var ok := WriteFrame(out, Frame(T_GET, request));
    if !ok {
      return Interrupted, false;
    }
    ghost var local, s := dir.files, wire.pending;
    r := ReadReply(dir, base, found, wire);
    requested := true;
    if Transfers(local, base, s) {
      OnlyVerifiedIsInstalled(Sha, local, base, found, s);
    } else {
      NoFileNoChange(Sha, local, base, found, s);
    }
  }

  lemma RequestFits(request: bytes, offset: u64, token: bytes, remote: Name)
    requires |remote| <= MAX_NAME && request == Requests.EncodeFields(offset, token, remote)
    ensures |request| == 10 + |token| + |remote|
  {
  }
}

/** The C upload client's side of a PUT, and a whole upload against the server. */
module PutClient {
  import opened ByteOrder
  import opened Names
  import opened Frames
  import opened Uploads
  import opened UploadServer
  import opened UploadRuns
  import opened Replies
  import Requests
  import Sha256Spec
  import Sha256

  /** `rtrv_do_put`, step 1: the size and the SHA-256 of the file, and the remote name. */
  method PreparePut(file: bytes, remote: Name) returns (ok: bool, request: bytes)
    requires |file| < U64_LIMIT
    ensures ok <==> |remote| <= MAX_NAME
    ensures ok ==> request == Requests.EncodePut(|file|, Sha256Spec.Digest(file), remote)
  {
    var d := Sha256.HashFile(file, |file|);
    hide Sha256Spec.Digest;
    ok, request := Requests.PackRequest(|file|, d.digest, remote);
  }

  /** Step 2: exactly the bytes the server is missing, in order, in pieces of up to 64 KiB. */
  method SendRest(out: Sink, file: bytes, resumeOffset: nat) returns (ok: bool)
    modifies out
    ensures resumeOffset > |file| ==> !ok && out.sent == old(out.sent)
    ensures resumeOffset <= |file| && ok ==> out.sent == old(out.sent) + file[resumeOffset..]
    ensures resumeOffset <= |file| && !ok ==> SentPart(old(out.sent), out.sent, file[resumeOffset..])
    ensures out.broken == (old(out.broken) || (resumeOffset <= |file| && !ok))
  {
    if resumeOffset > |file| {
      return false;
    }
    ghost var start := out.sent;
    var pos := resumeOffset;
    while pos < |file|
      invariant resumeOffset <= pos <= |file|
      invariant out.sent == start + file[resumeOffset..pos] && out.broken == old(out.broken)
    {
      var want := if |file| - pos < 65536 then |file| - pos else 65536;
      ghost var mid := out.sent;
      assert file[resumeOffset..pos] + file[pos..pos + want] == file[resumeOffset..pos + want];
      ok := WriteAll(out, file[pos..pos + want]);
      if !ok {
        PartOfMore(start, mid, out.sent, file[resumeOffset..pos], file[pos..pos + want], file[pos + want..],
                   file[resumeOffset..]);
        return;
      }
      pos := pos + want;
    }
    return true;
  }

  /** What was kept and the rest of the file, whatever follows them: the upload completes. */
  lemma RestCompletes(hash: bytes -> Digest, kept: bytes, file: bytes, tail: bytes)
    requires kept <= file
    ensures var stream := file[|kept|..] + tail;
      && Assembled(kept, stream, |file|) == file && Unread(kept, stream, |file|) == tail
      && Judged(hash, kept, stream, |file|, hash(file), false) == Stored
  {
    var stream := file[|kept|..] + tail;
    assert stream[..|file| - |kept|] == file[|kept|..];
    assert kept + file[|kept|..] == file;
  }

  /** Less than the rest: a longer prefix than before. */
  lemma PartProlongs(hash: bytes -> Digest, kept: bytes, file: bytes, sent: bytes, digest: Digest)
    requires kept <= file && SentPart([], sent, file[|kept|..])
    ensures Judged(hash, kept, sent, |file|, digest, false) == Dropped && kept <= kept + sent < file
  {
    var k: nat :| k < |file[|kept|..]| && sent == [] + file[|kept|..][..k];
    assert kept + sent == file[..|kept| + k];
  }

  // ----- the server's replies, as the client reads them

  /** `rtrv_do_put` reads the offer; anything but an OK frame with at least eight bytes is a failure. */
  method ReadOffer(wire: Wire) returns (ok: bool, offset: u64)
    modifies wire
    ensures var r := CDecode(old(wire.pending));
      && (ok <==> r.CFrame? && r.frame.kind == T_OK && |r.frame.payload| >= 8)
      && (ok ==> offset == Value(r.frame.payload[..8]) && wire.pending == r.rest)
  {
    hide CDecode, Value;
    var r := CReadFrame(wire);
    if r.CFailed? || r.frame.kind != T_OK || |r.frame.payload| < 8 {
      return false, 0;
    }
    offset := GetU64(r.frame.payload);
    return true, offset;
  }

  /** And the verdict, of which only the type counts. */
  method ReadVerdict(wire: Wire) returns (ok: bool)
    modifies wire
    ensures ok <==> CDecode(old(wire.pending)).CFrame? && CDecode(old(wire.pending)).frame.kind == T_OK
  {
    hide CDecode;
    var r := CReadFrame(wire);
    return r.CFrame? && r.frame.kind == T_OK;
  }

  // ----- end to end

  /** Step 2 on the wire, the server's half of `handle_put` at the other end of it, and the verdict. */
  method Deliver(server: Server, ghost sid: Sid, file: bytes, remote: Name, digest: Digest, offer: Offer,
                 wire: Wire, out: Sink)
    returns (told: bool, outcome: Outcome)
    requires server.Valid() && offer.Ready? && !out.broken && out.sent == []
    requires server.AtStage(sid, remote, digest, |file|, Receiving(offer.fd, offer.offset, []))
    requires digest == server.hash(file) && remote !in server.dir
    requires var p := PartialName(remote, digest);
      && p in server.dir && server.dir[p] == offer.fd && Content(server.Abs(), p) <= file
      && offer.offset == |Content(server.Abs(), p)|
    requires |file| <= MAX_FILE_SIZE && wire.pending == Encode(OfferFrame(offer.offset))
    modifies server, wire, out
    ensures server.Valid() && told == !out.broken
    ensures told ==> outcome == Stored && remote in server.dir && Content(server.Abs(), remote) == file
    ensures !told ==> outcome == Dropped && remote !in server.dir
    ensures !told ==>
      var p := PartialName(remote, digest); old(Content(server.Abs(), p)) <= Content(server.Abs(), p) < file
  {
    hide PartialName, Assembled, Unread, Judged, SentPart, Within, CDecode, Encode, Value, BigEndian;
    ghost var kept := Content(server.Abs(), PartialName(remote, digest));
    OfferReadBack(offer.offset, []);
    assert Encode(OfferFrame(offer.offset)) + [] == wire.pending;
    var ok, offset := ReadOffer(wire);
    var sent := SendRest(out, file, offset);
    if sent {
      assert file[offset..] + [] == out.sent;
      RestCompletes(server.hash, kept, file, []);
    } else {
      PartProlongs(server.hash, kept, file, out.sent, digest);
    }
    var body := new Wire(out.sent);
    outcome := server.EndPut(sid, remote, digest, |file|, offer.fd, offer.offset, body);
    if !sent {
      return false, outcome;
    }
    VerdictReadBack(outcome, []);
    assert Encode(VerdictFrame(outcome)) + [] == Encode(VerdictFrame(outcome));
    var verdict := new Wire(Encode(VerdictFrame(outcome)));
    told := ReadVerdict(verdict);
  }

  /** An upload end to end, from the client's file to the server's directory and back to the client's
      verdict, every number read off the wire: with a prefix of the file as the partial it resumes
      from, a client is told OK exactly if no send of the body fails, and the name then holds
      exactly its file; one that is cut off leaves a prefix at least as long. */
  method Upload(server: Server, ghost sid: Sid, file: bytes, remote: Name, out: Sink)
    returns (told: bool, outcome: Outcome)
    requires server.Valid() && sid !in server.sessions && server.accepts(remote) && CheckFilename(remote)
    requires |file| <= MAX_FILE_SIZE && forall m :: server.hash(m) == Sha256Spec.Digest(m)
    requires remote !in server.dir && PartialName(remote, server.hash(file)) !in server.inFlight
    requires Content(server.Abs(), PartialName(remote, server.hash(file))) <= file
    requires !out.broken && out.sent == []
    modifies server, out
    ensures server.Valid() && told == !out.broken
    ensures told ==> outcome == Stored && remote in server.dir && Content(server.Abs(), remote) == file
    ensures !told ==> outcome == Dropped && remote !in server.dir
    ensures !told ==>
      var p := PartialName(remote, server.hash(file)); old(Content(server.Abs(), p)) <= Content(server.Abs(), p) < file
  {
    PartialIsLonger(remote, server.hash(file));
    hide PartialName, Sha256Spec.Digest, Content, Within, Encode, BigEndian;
    var ok, request := PreparePut(file, remote);
    Requests.PutRoundTrip(|file|, server.hash(file), remote);
    var parsed := Requests.ParsePut(request).request;
    var offer := server.StartPut(sid, remote, parsed.digest, parsed.size);
    var reply := new Wire(Encode(OfferFrame(offer.offset)));
    told, outcome := Deliver(server, sid, file, remote, parsed.digest, offer, reply, out);
  }
}
