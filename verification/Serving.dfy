/**
  The server's side of a download: the resume rule of `handle_get`, the bytes it puts on the wire,
  and why a reply is consistent although it is read from a directory that uploads are changing.
 */
module Serving {
  import opened ByteOrder
  import opened Names
  import opened Frames

  const GET_META: nat := 48

  type Hash = bytes -> Digest

  /** An offset past the end of the file is a protocol violation; otherwise a start and the rest. */
  datatype Reply = PastEnd | Served(total: nat, start: nat, digest: Digest, body: bytes)

  /** The offset is honoured only if the token says the client is resuming this very file. */
  function StartFor(digest: Digest, offset: nat, token: bytes): nat {
    if offset != 0 && token == Token(digest) then offset else 0
  }

  function Answer(hash: Hash, file: bytes, offset: nat, token: bytes): Reply {
    if offset > |file| then PastEnd
    else
      var start := StartFor(hash(file), offset, token);
      Served(|file|, start, hash(file), file[start..])
  }

  function Meta(total: nat, start: nat, digest: Digest): (m: bytes)
    ensures |m| == GET_META
  {
    BigEndian(total, 8) + BigEndian(start, 8) + digest
  }

  /** An OK frame whose payload is the metadata and the body. */
  function OnTheWire(r: Reply): bytes
    requires r.Served?
  {
    Header(T_OK, GET_META + |r.body|) + Meta(r.total, r.start, r.digest) + r.body
  }

  /** A served request is self-consistent: the start is 0 or the offset asked for, and the part the
      client keeps and the body make up the file whose digest is stated. */
  lemma ReplyIsConsistent(hash: Hash, file: bytes, offset: nat, token: bytes, kept: bytes)
    requires Answer(hash, file, offset, token).Served?
    requires kept <= file && |kept| == Answer(hash, file, offset, token).start
    ensures var r := Answer(hash, file, offset, token);
      && (r.start == 0 || r.start == offset)
      && r.total == |file| && r.digest == hash(file)
      && kept + r.body == file
      && |OnTheWire(r)| == HEADER_SIZE + GET_META + |file| - r.start
  {
    assert file == file[..|kept|] + file[|kept|..];
  }

  /** The send loop: the file from `start` in pieces of any size up to 64 KiB. */
  method SendBody(out: Sink, file: bytes, start: nat) returns (ok: bool)
    requires start <= |file|
    modifies out
    ensures ok ==> out.sent == old(out.sent) + file[start..]
    ensures !ok ==> SentPart(old(out.sent), out.sent, file[start..])
    ensures out.broken == (old(out.broken) || !ok)
  {
    ghost var sent := out.sent;
    var pos := start;
    while pos < |file|
      invariant start <= pos <= |file| && out.sent == sent + file[start..pos] && out.broken == old(out.broken)
    {
      var got :| 1 <= got <= 65536 && pos + got <= |file|;
      ghost var mid := out.sent;
      assert file[start..pos] + file[pos..pos + got] == file[start..pos + got];
      ok := WriteAll(out, file[pos..pos + got]);
      if !ok {
        PartOfMore(sent, mid, out.sent, file[start..pos], file[pos..pos + got], file[pos + got..], file[start..]);
        return;
      }
      pos := pos + got;
    }
    assert file[start..pos] == file[start..];
    return true;
  }

  /** The served branch of `handle_get`: header, metadata, body. A send that fails leaves a proper
      prefix of the reply on the wire. */
  method SendFile(out: Sink, hash: Hash, file: bytes, offset: nat, token: bytes) returns (r: Reply, ok: bool)
    modifies out
    ensures r == Answer(hash, file, offset, token)
    ensures r.Served? && ok ==> out.sent == old(out.sent) + OnTheWire(r)
    ensures r.Served? && !ok ==> SentPart(old(out.sent), out.sent, OnTheWire(r))
    ensures r.PastEnd? ==> ok && out.sent == old(out.sent)
    ensures out.broken == (old(out.broken) || !ok)
  {
    r := Answer(hash, file, offset, token);
    if r.PastEnd? {
      return r, true;
    }
    var head := Header(T_OK, GET_META + |file| - r.start);
    var meta := Meta(|file|, r.start, hash(file));
    hide Header, Meta, SentPart;
    ghost var start := out.sent;
    ok := WriteAll(out, head);
    if !ok {
      PartOfMore(start, start, out.sent, [], head, meta + r.body, OnTheWire(r));
      return;
    }
    ghost var mid := out.sent;
    ok := WriteAll(out, meta);
    if !ok {
      PartOfMore(start, mid, out.sent, head, meta, r.body, OnTheWire(r));
      return;
    }
    mid := out.sent;
    ok := SendBody(out, file, r.start);
    if !ok {
      PartOfMore(start, mid, out.sent, head + meta, r.body, [], OnTheWire(r));
    }
  }
}

/** GET while uploads, crashes and restarts go on between its reads. */
module GetUnderUploads {
  import opened ByteOrder
  import opened Names
  import opened Uploads
  import opened UploadInvariant
  import opened UploadTheorems
  import Serving

  /** What other sessions do before each read, and how many bytes the read then returns at most. */
  datatype Read = Read(meanwhile: seq<Action>, count: nat)

  predicate Schedulable(c: Config, s: State, script: seq<Read>)
    decreases |script|
  {
    script == [] ||
    (Legal(c, s, script[0].meanwhile) && Schedulable(c, Exec(c, s, script[0].meanwhile), script[1..]))
  }

  /** The state when the last read is done. */
  function AfterReads(c: Config, s: State, script: seq<Read>): State
    requires Schedulable(c, s, script)
    decreases |script|
  {
    if script == [] then s else AfterReads(c, Exec(c, s, script[0].meanwhile), script[1..])
  }

  /** The read loop on an open file: each read sees the inode as it is by then. */
  function ReadLoop(c: Config, s: State, fd: Inode, pos: nat, script: seq<Read>): bytes
    requires Schedulable(c, s, script)
    decreases |script|
  {
    if script == [] then []
    else
      var s' := Exec(c, s, script[0].meanwhile);
      var here := if fd in s'.data then s'.data[fd] else [];
      var end := if pos + script[0].count <= |here| then pos + script[0].count else |here|;
      if pos >= end then [] else here[pos..end] + ReadLoop(c, s', fd, end, script[1..])
  }

  function TotalCount(script: seq<Read>): nat {
    if script == [] then 0 else script[0].count + TotalCount(script[1..])
  }

  predicate Reading(script: seq<Read>) {
    forall i :: 0 <= i < |script| ==> script[i].count > 0
  }

  /** The process does not die in between: a GET dies with it. */
  predicate StaysUp(acts: seq<Action>) {
    forall i :: 0 <= i < |acts| ==> !acts[i].Crash? && !acts[i].Restart?
  }

  ghost predicate Clear(acts: seq<Action>, n: Name) {
    StaysUp(acts) && Avoids(acts, n)
  }

  ghost predicate AllClear(script: seq<Read>, n: Name) {
    forall i :: 0 <= i < |script| ==> Clear(script[i].meanwhile, n)
  }

  lemma KeptMeanwhile(c: Config, s: State, acts: seq<Action>, n: Name)
    requires Unnested(c, n) && Inv(c, s, n) && n in s.dir && Legal(c, s, acts) && Clear(acts, n)
    ensures SameEntry(s, Exec(c, s, acts), n) && Inv(c, Exec(c, s, acts), n)
  {
    hide Inv, Unnested, Avoids;
    EntryKeptAlong(c, s, acts, n);
    RunKeeps(c, s, acts, n);
  }

  function UpTo(f: bytes, end: nat): nat {
    if end <= |f| then end else |f|
  }

  /** One read of an unchanged file, and then the others. */
  lemma ReadOnce(c: Config, s: State, fd: Inode, pos: nat, script: seq<Read>, f: bytes)
    requires Schedulable(c, s, script) && script != [] && script[0].count > 0 && pos <= |f|
    requires var s' := Exec(c, s, script[0].meanwhile); fd in s'.data && s'.data[fd] == f
    requires var s', end := Exec(c, s, script[0].meanwhile), UpTo(f, pos + script[0].count);
      ReadLoop(c, s', fd, end, script[1..]) == f[end..UpTo(f, end + TotalCount(script[1..]))]
    ensures ReadLoop(c, s, fd, pos, script) == f[pos..UpTo(f, pos + TotalCount(script))]
  {
    hide Legal, Exec;
  }

  /** Reading a name's inode piece by piece, while others act but nobody uploads a partial of the name
      as a file, gives its bytes as they were at the start, and they are still the same at the end. */
  lemma {:induction false} ReadsAreStable(c: Config, s: State, n: Name, pos: nat, script: seq<Read>)
    requires Unnested(c, n) && Inv(c, s, n) && n in s.dir && Schedulable(c, s, script) && AllClear(script, n)
    requires Reading(script) && pos <= |Content(s, n)|
    ensures ReadLoop(c, s, s.dir[n], pos, script) == Content(s, n)[pos..UpTo(Content(s, n), pos + TotalCount(script))]
    ensures SameEntry(s, AfterReads(c, s, script), n) && Inv(c, AfterReads(c, s, script), n)
    decreases |script|
  {
    hide Inv, Legal, Exec, Unnested, Clear;
    if script != [] {
      var s', f := Exec(c, s, script[0].meanwhile), Content(s, n);
      KeptMeanwhile(c, s, script[0].meanwhile, n);
      InodesAllocated(c, s', n);
      hide ReadLoop, TotalCount;
      ReadsAreStable(c, s', n, UpTo(f, pos + script[0].count), script[1..]);
      ReadOnce(c, s, s.dir[n], pos, script, f);
    }
  }

  lemma InodesAllocated(c: Config, s: State, n: Name)
    requires Inv(c, s, n)
    ensures Allocated(s)
  {
  }

  /** What happens between the moments `handle_get` looks at the directory: after the size is taken,
      before and between the reads of `sha256_file`, before the file is opened again, and between
      the reads of the body. */
  datatype Meanwhile = Meanwhile(toHash: seq<Action>, hashReads: seq<Read>, toOpen: seq<Action>, bodyReads: seq<Read>)

  predicate AllUp(script: seq<Read>) {
    forall i :: 0 <= i < |script| ==> StaysUp(script[i].meanwhile)
  }

  predicate Possible(c: Config, s: State, m: Meanwhile) {
    && Legal(c, s, m.toHash) && Schedulable(c, Exec(c, s, m.toHash), m.hashReads)
    && var hashed := AfterReads(c, Exec(c, s, m.toHash), m.hashReads);
    && Legal(c, hashed, m.toOpen) && Schedulable(c, Exec(c, hashed, m.toOpen), m.bodyReads)
    && Reading(m.hashReads) && Reading(m.bodyReads)
    && StaysUp(m.toHash) && AllUp(m.hashReads) && StaysUp(m.toOpen) && AllUp(m.bodyReads)
  }

  /** The digest `sha256_file` computes. */
  function DigestRead(c: Config, s: State, n: Name, m: Meanwhile): Digest
    requires Possible(c, s, m)
  {
    var atHash := Exec(c, s, m.toHash);
    c.hash(if n in atHash.dir then ReadLoop(c, atHash, atHash.dir[n], 0, m.hashReads) else [])
  }

  /** A name that is gone when it is to be opened raises; otherwise there is a reply. */
  datatype Got = Raised | Replied(reply: Serving.Reply)

  function HandleGet(c: Config, s: State, n: Name, offset: nat, token: bytes, m: Meanwhile): Got
    requires Possible(c, s, m)
  {
    var digest, atHash := DigestRead(c, s, n, m), Exec(c, s, m.toHash);
    var start := Serving.StartFor(digest, offset, token);
    var atOpen := Exec(c, AfterReads(c, atHash, m.hashReads), m.toOpen);
    if n !in atHash.dir || n !in atOpen.dir then Raised
    else Replied(Serving.Served(|Content(s, n)|, start, digest,
                                ReadLoop(c, atOpen, atOpen.dir[n], start, m.bodyReads)))
  }

  /** A GET of a file that is there, with an offset within it; the hash reads go past the size, and the
      body reads ask for what is announced. */
  ghost predicate RunsThrough(c: Config, s: State, n: Name, offset: nat, token: bytes, m: Meanwhile) {
    && s.serving && n in s.dir && Possible(c, s, m)
    && offset <= |Content(s, n)| <= TotalCount(m.hashReads)
    && TotalCount(m.bodyReads) == |Content(s, n)| - Serving.StartFor(DigestRead(c, s, n, m), offset, token)
  }

  ghost predicate Undisturbing(m: Meanwhile, n: Name) {
    && Clear(m.toHash, n) && AllClear(m.hashReads, n) && Clear(m.toOpen, n) && AllClear(m.bodyReads, n)
  }

  lemma GetFromInv(c: Config, s: State, n: Name, offset: nat, token: bytes, m: Meanwhile)
    requires Unnested(c, n) && Inv(c, s, n) && RunsThrough(c, s, n, offset, token, m) && Undisturbing(m, n)
    ensures HandleGet(c, s, n, offset, token, m) == Replied(Serving.Answer(c.hash, Content(s, n), offset, token))
  {
    hide Inv, Legal, Exec, Unnested, Clear, AllClear, AllUp, Reading, StaysUp;
    hide ReadLoop, AfterReads, TotalCount, Schedulable;
    var f, atHash := Content(s, n), Exec(c, s, m.toHash);
    KeptMeanwhile(c, s, m.toHash, n);
    ReadsAreStable(c, atHash, n, 0, m.hashReads);
    assert f[0..|f|] == f;
    var hashed := AfterReads(c, atHash, m.hashReads);
    KeptMeanwhile(c, hashed, m.toOpen, n);
    ReadsAreStable(c, Exec(c, hashed, m.toOpen), n, Serving.StartFor(c.hash(f), offset, token), m.bodyReads);
  }

  /** The whole of `handle_get`, in any run of any server in which nobody uploads one of the name's
      partials as a file: the size taken at one moment, the digest computed from reads at later
      ones, the file opened again and read in pieces later still, with anything at all in between.
      The reply is the answer for one and the same file. */
  lemma GetIsConsistent(c: Config, s: State, before: seq<Action>, n: Name, offset: nat, token: bytes, m: Meanwhile)
    requires Init(c, s) && Legal(c, s, before) && Unnested(c, n) && Avoids(before, n)
    requires RunsThrough(c, Exec(c, s, before), n, offset, token, m) && Undisturbing(m, n)
    ensures var f := Content(Exec(c, s, before), n);
      HandleGet(c, Exec(c, s, before), n, offset, token, m) == Replied(Serving.Answer(c.hash, f, offset, token))
  {
    hide Init, Unnested, Avoids, HandleGet, Inv, Undisturbing, Content, Possible;
    InvAlong(c, s, before, n);
    GetFromInv(c, Exec(c, s, before), n, offset, token, m);
  }
}

/** For which names the replies are consistent in the code as it is. */
module GetInCode {
  import opened ByteOrder
  import opened Names
  import opened Uploads
  import opened UploadTheorems
  import opened UploadRuns
  import opened UploadDurability
  import opened UploadCode
  import opened GetUnderUploads
  import Serving

  /** Every reply that is sent is the answer for some one file. */
  ghost predicate AlwaysConsistent(c: Config, n: Name) {
    forall s, before, offset, token, m | Sent(c, s, before, n, offset, token, m) ::
      IsAnswer(c, HandleGet(c, Exec(c, s, before), n, offset, token, m), offset, token)
  }

  ghost predicate Sent(c: Config, s: State, before: seq<Action>, n: Name, offset: nat, token: bytes, m: Meanwhile) {
    Init(c, s) && Legal(c, s, before) && RunsThrough(c, Exec(c, s, before), n, offset, token, m)
  }

  ghost predicate IsAnswer(c: Config, r: Got, offset: nat, token: bytes) {
    r.Replied? ==> exists f :: r.reply == Serving.Answer(c.hash, f, offset, token)
  }

  lemma {:induction false} IsolatedReads(c: Config, s: State, script: seq<Read>, n: Name)
    requires Isolated(c, n) && Schedulable(c, s, script) && AllUp(script)
    ensures AllClear(script, n)
    decreases |script|
  {
    hide Isolated, Legal, Avoids, StaysUp;
    if script != [] {
      IsolatedAvoids(c, s, script[0].meanwhile, n);
      assert forall i :: 0 < i < |script| ==> script[i] == script[1..][i - 1];
      IsolatedReads(c, Exec(c, s, script[0].meanwhile), script[1..], n);
    }
  }

  lemma IsolatedIsConsistent(c: Config, n: Name)
    requires Isolated(c, n)
    ensures AlwaysConsistent(c, n)
  {
    forall s, before, offset, token, m | Sent(c, s, before, n, offset, token, m)
      ensures IsAnswer(c, HandleGet(c, Exec(c, s, before), n, offset, token, m), offset, token)
    {
      hide Init, Unnested, HandleGet, Avoids, Legal, StaysUp, AllUp, AllClear, Reading, Schedulable;
      var mid := Exec(c, s, before);
      IsolatedAvoids(c, s, before, n);
      IsolatedAvoids(c, mid, m.toHash, n);
      IsolatedReads(c, Exec(c, mid, m.toHash), m.hashReads, n);
      var hashed := AfterReads(c, Exec(c, mid, m.toHash), m.hashReads);
      IsolatedAvoids(c, hashed, m.toOpen, n);
      IsolatedReads(c, Exec(c, hashed, m.toOpen), m.bodyReads, n);
      GetIsConsistent(c, s, before, n, offset, token, m);
    }
  }

  /** The others get one schedule in, between the size and the hash. */
  function Between(acts: seq<Action>): Meanwhile {
    Meanwhile(acts, [Read([], 65536), Read([], 65536)], [], [])
  }

  /** A file that is empty when its size is taken and holds a byte when it is hashed: the reply states
      the size of one file and the digest of another. */
  lemma MixedReply(c: Config, s: State, acts: seq<Action>, n: Name, b: byte, token: bytes)
    requires s.serving && n in s.dir && Content(s, n) == [] && Legal(c, s, acts) && StaysUp(acts)
    requires n in Exec(c, s, acts).dir && Content(Exec(c, s, acts), n) == [b] && c.hash([b]) != c.hash([])
    ensures RunsThrough(c, s, n, 0, token, Between(acts))
    ensures HandleGet(c, s, n, 0, token, Between(acts)) == Replied(Serving.Served(0, 0, c.hash([b]), []))
    ensures !IsAnswer(c, HandleGet(c, s, n, 0, token, Between(acts)), 0, token)
  {
    var e, m := Exec(c, s, acts), Between(acts);
    hide Apply, Enabled;
    var two := [Read([], 65536), Read([], 65536)];
    assert Legal(c, e, []) && Exec(c, e, []) == e;
    assert two[1..] == [Read([], 65536)] && two[1..][1..] == [];
    assert Schedulable(c, e, two[1..]) && AfterReads(c, e, two[1..]) == e;
    assert Schedulable(c, e, two) && AfterReads(c, e, two) == e;
    assert ReadLoop(c, e, e.dir[n], 1, two[1..]) == [];
    assert [b][0..1] + [] == [b];
    assert ReadLoop(c, e, e.dir[n], 0, two) == [b];
    assert TotalCount(two) == 131072;
    assert DigestRead(c, s, n, m) == c.hash([b]);
  }

  lemma NotConsistent(c: Config, s: State, acts: seq<Action>, n: Name, b: byte)
    requires Reaches(c, Empty, s) && s.serving && n in s.dir && Content(s, n) == []
    requires Legal(c, s, acts) && StaysUp(acts)
    requires n in Exec(c, s, acts).dir && Content(Exec(c, s, acts), n) == [b] && c.hash([b]) != c.hash([])
    ensures !AlwaysConsistent(c, n)
  {
    EmptyIsInit(c);
    MixedReply(c, s, acts, n, b, []);
    hide Init, RunsThrough, HandleGet, IsAnswer, Apply, Enabled;
    var before :| Legal(c, Empty, before) && Exec(c, Empty, before) == s;
    assert Sent(c, Empty, before, n, 0, [], Between(acts));
  }

  lemma RewrittenIsNotConsistent(c: Config, n: Name, b: byte)
    requires c.accepts(n) && c.accepts(EmptyPartial(c, n)) && c.hash([b]) != c.hash([])
    ensures !AlwaysConsistent(c, n)
  {
    hide PartialName, Reaches, Apply, Enabled, AlwaysConsistent;
    PlainNameRewritten(c, n, b);
    NotConsistent(c, Shared(c, n), Intrusion(3, EmptyPartial(c, n), c.hash([]), b), n, b);
  }

  lemma PartialIsNotConsistent(c: Config, n: Name, b: byte)
    requires c.accepts(n) && IsPartial(c, n) && c.hash([b]) != c.hash([])
    ensures !AlwaysConsistent(c, n)
  {
    var m, d := TargetOf(c, n);
    StoredOnce(c, n);
    IntrudesOnce(c, n, m, d, b);
    hide PartialName, Reaches, AlwaysConsistent, Init, Legal, Exec, Intrusion, IsPartial;
    NotConsistent(c, Once(c, n, true, map[n := 0]), Intrusion(2, m, d, b), n, b);
  }

  lemma IntrudesOnce(c: Config, n: Name, m: Name, d: Digest, b: byte)
    requires c.accepts(m) && n == PartialName(m, d)
    ensures var s, acts := Once(c, n, true, map[n := 0]), Intrusion(2, m, d, b);
      && Legal(c, s, acts) && StaysUp(acts)
      && n in Exec(c, s, acts).dir && Content(Exec(c, s, acts), n) == [b]
  {
    PartialIsLonger(m, d);
    hide PartialName, Apply, Enabled;
    Intrudes(c, Once(c, n, true, map[n := 0]), 2, m, d, b);
    hide Legal, Exec;
  }

  /** With the filename rules as they are, and a hash that tells the empty file from some file of one
      byte, the replies to GETs of a name are always consistent exactly for the names whose bytes
      never change. Ordinary names are not among these. */
  lemma CodeConsistentExactly(hash: bytes -> Digest, n: Name, b: byte)
    requires Storable(n) && hash([b]) != hash([])
    ensures AlwaysConsistent(Code(hash), n) <==> !IsPartial(Code(hash), n) && PartialsRefused(n)
  {
    assert n != [];
    hide Storable, AlwaysConsistent, IsPartial, Isolated, PartialName;
    var c := Code(hash);
    CodeIsolates(hash, n, []);
    if Isolated(c, n) {
      IsolatedIsConsistent(c, n);
    }
    if IsPartial(c, n) {
      PartialIsNotConsistent(c, n, b);
    }
    if !PartialsRefused(n) {
      RewrittenIsNotConsistent(c, n, b);
    }
  }
}
