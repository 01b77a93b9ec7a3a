/**
  Resumable download: the C client of `rtrv_do_get` against the server of Serving, over any number
  of attempts, each cut off at any byte or killed at any moment.

  The client's directory is a map from entry names to contents; `base` is the destination's last
  component, so the destination itself is the entry `base`.
 */
module Download {
  import opened ByteOrder
  import opened Names
  import opened Frames
  import opened Serving

  type Local = map<Name, bytes>

  const CHUNK: nat := 65536

  datatype Result =
    | Stored        // verified and renamed into place
    | Interrupted   // cut off, or not a usable reply
    | Refused       // the server sent an ERROR frame
    | Mismatch      // the finished file did not have the stated hash
    | Exists        // the destination was there already

  datatype Outcome = Outcome(files: Local, result: Result)

  // ----- what the client offers

  /** `readdir` returns every entry once, in some order. */
  ghost predicate Listing(entries: seq<Name>, local: Local) {
    && (forall e :: e in entries <==> e in local)
    && forall i, j :: 0 <= i < j < |entries| ==> entries[i] != entries[j]
  }

  /** The accepted entries do not depend on the order of the listing. */
  ghost predicate SoleHit(local: Local, base: Name, e: Name) {
    e in local && ScanAccepts(base, e) && forall x :: x in local && ScanAccepts(base, x) ==> x == e
  }

  lemma {:induction false} AcceptedDistinct(base: Name, entries: seq<Name>)
    requires forall i, j :: 0 <= i < j < |entries| ==> entries[i] != entries[j]
    ensures forall i, j :: 0 <= i < j < |Accepted(base, entries)| ==>
      Accepted(base, entries)[i] != Accepted(base, entries)[j]
  {
    hide ScanAccepts;
    if entries != [] {
      var front := entries[..|entries| - 1];
      AcceptedDistinct(base, front);
      AcceptedAreAccepted(base, front);
    }
  }

  /** The scan finds a sole hit exactly when there is one. */
  lemma ScanFindsSoleHit(local: Local, base: Name, entries: seq<Name>, e: Name)
    requires Listing(entries, local)
    ensures Accepted(base, entries) == [e] <==> SoleHit(local, base, e)
  {
    hide ScanAccepts, Accepted;
    var hits := Accepted(base, entries);
    AcceptedAreAccepted(base, entries);
    AcceptedDistinct(base, entries);
    assert |hits| >= 2 ==> hits[0] != hits[1];
    if SoleHit(local, base, e) {
      assert e in hits;
      forall i | 0 <= i < |hits|
        ensures hits[i] == e
      {
        assert hits[i] in hits;
      }
    }
    if hits == [e] {
      assert e in hits;
    }
  }

  /** What `rtrv_find_partial` and the two lines after it come to. */
  function HeldOffset(local: Local, found: Found): nat {
    if found.Sole? && found.entry in local then |local[found.entry]| else 0
  }

  function HeldToken(found: Found): (t: bytes)
    ensures found.NotFound? ==> t == seq(8, _ => 0)
  {
    if found.Sole? then found.token else seq(8, _ => 0)
  }

  // ----- what the client does with a reply, whatever the reply is

  /** How much of the body is written: whole 64 KiB reads, then the rest if all of it comes. */
  function Written(body: bytes, wanted: nat): bytes {
    if |body| >= wanted then body[..wanted] else body[..(|body| / CHUNK) * CHUNK]
  }

  /** The partial after opening it: appended to when resuming, truncated otherwise. */
  function Opened(local: Local, found: Found, partial: Name, start: nat): Local {
    if start > 0 then
      if partial in local then local else local[partial := []]
    else
      (if found.Sole? then local - {found.entry} else local)[partial := []]
  }

  function Finished(hash: Hash, local: Local, base: Name, partial: Name, digest: Digest): Outcome
    requires partial in local
  {
    if hash(local[partial]) != digest then Outcome(local - {partial}, Mismatch)
    else Outcome((local - {partial})[base := local[partial]], Stored)
  }

  /** From the metadata on: open, write what comes, verify, rename. The subtraction wraps as in C. */
  function Receive(hash: Hash, local: Local, base: Name, found: Found,
                   total: nat, start: nat, digest: Digest, body: bytes): Outcome
  {
    var partial := PartialName(base, digest);
    var ready := Opened(local, found, partial, start);
    var wanted := (total - start) % U64_LIMIT;
    var written := ready[partial := ready[partial] + Written(body, wanted)];
    if |body| < wanted then Outcome(written, Interrupted)
    else Finished(hash, written, base, partial, digest)
  }

  /** The reply is one that carries a file, and its metadata are all there. */
  predicate Transfers(local: Local, base: Name, s: bytes) {
    && base !in local
    && |s| >= HEADER_SIZE + GET_META && s[..4] == MAGIC && s[4] == VERSION && s[5] == T_OK
  }

  /** `rtrv_do_get`, as a function of the directory, of what the scan found and of the reply stream. */
  function ClientGet(hash: Hash, local: Local, base: Name, found: Found, s: bytes): Outcome {
    if base in local then Outcome(local, Exists)
    else if Transfers(local, base, s) then
      Receive(hash, local, base, found, Value(s[14..22]), Value(s[22..30]), s[30..62], s[62..])
    else if |s| >= HEADER_SIZE && s[..4] == MAGIC && s[4] == VERSION && s[5] == T_ERROR then Outcome(local, Refused)
    else Outcome(local, Interrupted)
  }

  /** What a client killed in the middle of a transfer leaves: the useless partial already removed and
      its own not yet opened; or its own with any part of what has come, up to the complete file. */
  ghost predicate Leaves(local: Local, base: Name, found: Found, total: nat, start: nat, digest: Digest,
                         body: bytes, after: Local) {
    || (start == 0 && found.Sole? && after == local - {found.entry})
    || exists k: nat :: k <= |body| && k <= (total - start) % U64_LIMIT
         && after == PartWritten(local, base, found, start, digest, body[..k])
  }

  function PartWritten(local: Local, base: Name, found: Found, start: nat, digest: Digest, part: bytes): Local {
    var partial := PartialName(base, digest);
    var ready := Opened(local, found, partial, start);
    ready[partial := ready[partial] + part]
  }

  /** What a client killed at any moment of `rtrv_do_get` leaves. */
  ghost predicate KilledLeaves(hash: Hash, local: Local, base: Name, found: Found, s: bytes, after: Local) {
    || after == local
    || after == ClientGet(hash, local, base, found, s).files
    || (Transfers(local, base, s)
        && Leaves(local, base, found, Value(s[14..22]), Value(s[22..30]), s[30..62], s[62..], after))
  }

  // ----- what any reply at all can do to the directory

  /** Everything but the destination, the partial of the stated digest and the partial that was found
      is left alone. */
  ghost predicate OthersKept(local: Local, after: Local, base: Name, p: Name, found: Found) {
    forall e :: e != base && e != p && !(found.Sole? && e == found.entry) ==>
      (e in after <==> e in local) && (e in local ==> after[e] == local[e])
  }

  /** A reply that carries no file changes nothing, and which of the ways it failed is in its header. */
  lemma NoFileNoChange(hash: Hash, local: Local, base: Name, found: Found, s: bytes)
    requires !Transfers(local, base, s)
    ensures var o := ClientGet(hash, local, base, found, s);
      && o.files == local
      && (o.result.Exists? <==> base in local)
      && (o.result.Refused? <==>
            base !in local && |s| >= HEADER_SIZE && s[..4] == MAGIC && s[4] == VERSION && s[5] == T_ERROR)
      && (o.result.Exists? || o.result.Refused? || o.result.Interrupted?)
  {
  }

  /** What a partial that is appended to starts from. */
  function Base(local: Local, p: Name, start: nat): bytes {
    if start > 0 && p in local then local[p] else []
  }

  /** What opening the partial does. */
  lemma OpenedMeans(local: Local, found: Found, p: Name, base: Name, start: nat)
    requires p != base && base !in local
    ensures var ready := Opened(local, found, p, start);
      && p in ready && ready[p] == Base(local, p, start)
      && base !in ready && OthersKept(local, ready, base, p, found)
      && (found.Sole? && found.entry != p ==> (found.entry in ready <==> start > 0 && found.entry in local))
  {
  }

  /** What a transfer leaves, whatever was announced and whatever came. */
  ghost predicate Installed(hash: Hash, local: Local, base: Name, found: Found, start: nat, digest: Digest,
                            wanted: nat, body: bytes, o: Outcome) {
    var p := PartialName(base, digest);
    var whole := Base(local, p, start) + if |body| >= wanted then body[..wanted] else body;
    && (base in o.files <==> o.result.Stored?) && OthersKept(local, o.files, base, p, found)
    && (o.result.Interrupted? <==> |body| < wanted)
    && (o.result.Stored? <==> |body| >= wanted && hash(whole) == digest)
    && (o.result.Mismatch? <==> |body| >= wanted && hash(whole) != digest)
    && (o.result.Stored? ==> o.files[base] == whole)
    && (o.result.Stored? || o.result.Mismatch? ==> p !in o.files)
    && (found.Sole? && found.entry != p && found.entry != base ==>
          (found.entry in o.files <==> start > 0 && found.entry in local))
  }

  lemma ReceiveInstalls(hash: Hash, local: Local, base: Name, found: Found,
                        total: nat, start: nat, digest: Digest, body: bytes)
    requires base !in local
    ensures Installed(hash, local, base, found, start, digest, (total - start) % U64_LIMIT, body,
                      Receive(hash, local, base, found, total, start, digest, body))
  {
    PartialNameDiffers(base, digest);
    hide PartialName, Opened;
    OpenedMeans(local, found, PartialName(base, digest), base, start);
  }

  /** Only verified bytes are installed, whatever the server sends and whatever the directory holds: the
      destination appears exactly if the result is Stored, and then it has the digest of the reply
      and consists of what was appended to and the body. A mismatch leaves no destination and no
      partial of that digest. */
  lemma OnlyVerifiedIsInstalled(hash: Hash, local: Local, base: Name, found: Found, s: bytes)
    requires Transfers(local, base, s)
    ensures var start := Value(s[22..30]);
      Installed(hash, local, base, found, start, s[30..62], (Value(s[14..22]) - start) % U64_LIMIT, s[62..],
                ClientGet(hash, local, base, found, s))
  {
    hide Value, Receive, Installed;
    ReceiveInstalls(hash, local, base, found, Value(s[14..22]), Value(s[22..30]), s[30..62], s[62..]);
  }

  lemma PartialNameDiffers(base: Name, digest: Digest)
    ensures PartialName(base, digest) != base
  {
  }

  // ----- one attempt against the server

  /** The reply stream when the connection carries `m` bytes of it before it breaks. An error reply
      is an ERROR frame; its text does not matter here. */
  function Stream(hash: Hash, file: bytes, offset: nat, token: bytes, m: nat): bytes {
    var r := Answer(hash, file, offset, token);
    var whole := if r.PastEnd? then Encode(Frame(T_ERROR, [E_MALFORMED, 0, 0])) else OnTheWire(r);
    if m < |whole| then whole[..m] else whole
  }

  function Attempt(hash: Hash, local: Local, base: Name, found: Found, file: bytes, m: nat): Outcome {
    ClientGet(hash, local, base, found, Stream(hash, file, HeldOffset(local, found), HeldToken(found), m))
  }

  // ----- the invariant of the client's directory

  /** Every entry the scan accepts was made by this protocol. */
  ghost predicate ProtocolMade(local: Local, base: Name) {
    forall e :: e in local && ScanAccepts(base, e) ==> IsPartialFor(base, e)
  }

  ghost predicate IsPartialFor(base: Name, e: Name) {
    exists t: bytes :: |t| == TOKEN_SIZE && e == PartialOf(base, t)
  }

  /** And the partial of the file now on the server is a prefix of it. */
  ghost predicate Sound(hash: Hash, local: Local, base: Name, file: bytes) {
    var p := PartialName(base, hash(file));
    ProtocolMade(local, base) && (p in local ==> local[p] <= file)
  }

  /** The scan's answer, in any listing order. */
  ghost predicate Scanned(local: Local, base: Name, found: Found) {
    exists entries :: Listing(entries, local) && found == SolePartial(base, entries)
  }

  /** For protocol-made entries the scan's answer is the sole hit and the token in its name. */
  lemma ScannedMeans(local: Local, base: Name, found: Found)
    requires ProtocolMade(local, base) && Scanned(local, base, found)
    ensures found.Sole? ==>
      && SoleHit(local, base, found.entry) && |found.token| == TOKEN_SIZE
      && found.entry == PartialOf(base, found.token)
    ensures found.NotFound? ==> forall e :: !SoleHit(local, base, e)
  {
    hide ScanAccepts, Accepted, PartialOf, Unhex;
    var entries :| Listing(entries, local) && found == SolePartial(base, entries);
    var hits := Accepted(base, entries);
    if |hits| == 1 {
      var e := hits[0];
      assert hits == [e];
      ScanFindsSoleHit(local, base, entries, e);
      var t: bytes :| |t| == TOKEN_SIZE && e == PartialOf(base, t);
      FindsWhatWasMade(base, t, entries);
    }
    forall e | SoleHit(local, base, e)
      ensures |hits| == 1
    {
      ScanFindsSoleHit(local, base, entries, e);
    }
  }

  // ----- the reply as the client reads it

  lemma WireLayout(r: Reply)
    requires r.Served? && r.total < U64_LIMIT && r.start < U64_LIMIT
    ensures var w := OnTheWire(r);
      && |w| == HEADER_SIZE + GET_META + |r.body|
      && w[..4] == MAGIC && w[4] == VERSION && w[5] == T_OK
      && Value(w[14..22]) == r.total && Value(w[22..30]) == r.start && w[30..62] == r.digest && w[62..] == r.body
  {
    hide BigEndian, Value;
    U64RoundTrip(r.total);
    U64RoundTrip(r.start);
    var w := OnTheWire(r);
    assert w[14..22] == BigEndian(r.total, 8);
    assert w[22..30] == BigEndian(r.start, 8);
    assert w[30..62] == r.digest;
    assert w[62..] == r.body;
  }

  function Prefix(body: bytes, n: nat): bytes {
    if n < |body| then body[..n] else body
  }

  /** What the client makes of a served reply that gets at least as far as the metadata. */
  lemma StreamFields(hash: Hash, file: bytes, offset: nat, token: bytes, m: nat)
    requires |file| < U64_LIMIT && offset <= |file| && m >= HEADER_SIZE + GET_META
    ensures var s, start := Stream(hash, file, offset, token, m), StartFor(hash(file), offset, token);
      && |s| >= HEADER_SIZE + GET_META && s[..4] == MAGIC && s[4] == VERSION && s[5] == T_OK
      && Value(s[14..22]) == |file| && Value(s[22..30]) == start && s[30..62] == hash(file)
      && s[62..] == Prefix(file[start..], m - 62)
  {
    hide Value, OnTheWire;
    var r := Answer(hash, file, offset, token);
    WireLayout(r);
    var w, s := OnTheWire(r), Stream(hash, file, offset, token, m);
    assert s[14..22] == w[14..22] && s[22..30] == w[22..30] && s[30..62] == w[30..62];
    assert s[..4] == w[..4];
    assert s[62..] == Prefix(r.body, m - 62);
  }

  /** And of one that does not, or of a refusal. */
  lemma NoTransfer(hash: Hash, file: bytes, offset: nat, token: bytes, m: nat)
    requires |file| < U64_LIMIT
    ensures var s := Stream(hash, file, offset, token, m);
      && (offset > |file| ==> |s| < HEADER_SIZE || s[5] == T_ERROR)
      && (offset <= |file| && m < HEADER_SIZE + GET_META ==>
            |s| < HEADER_SIZE + GET_META && (|s| >= HEADER_SIZE ==> s[5] == T_OK))
  {
    hide Value, OnTheWire, Encode;
    var r := Answer(hash, file, offset, token);
    if r.Served? {
      WireLayout(r);
    } else {
      ErrorStream(hash, file, offset, token, m);
    }
  }

  /** An attempt, case by case: a file already there, a refusal, a cut before the metadata, or the
      transfer itself with as much of the body as got through. */
  lemma AttemptCases(hash: Hash, local: Local, base: Name, found: Found, file: bytes, m: nat)
    requires |file| < U64_LIMIT
    ensures var o := Attempt(hash, local, base, found, file, m);
      var offset := HeldOffset(local, found);
      if base in local then o == Outcome(local, Exists)
      else if offset > |file| then o.files == local && (o.result.Refused? || o.result.Interrupted?)
      else
        var start := StartFor(hash(file), offset, HeldToken(found));
        if m < HEADER_SIZE + GET_META then o == Outcome(local, Interrupted)
        else o == Receive(hash, local, base, found, |file|, start, hash(file), Prefix(file[start..], m - 62))
  {
    hide Receive, Value, Stream, StartFor;
    var offset, token := HeldOffset(local, found), HeldToken(found);
    NoTransfer(hash, file, offset, token, m);
    if offset <= |file| && m >= HEADER_SIZE + GET_META {
      StreamFields(hash, file, offset, token, m);
    }
  }

  /** What a client killed during an attempt leaves, against this server. */
  lemma KilledCases(hash: Hash, local: Local, base: Name, found: Found, file: bytes, m: nat, after: Local)
    requires |file| < U64_LIMIT && AfterAttempt(hash, local, after, base, found, file, m)
    ensures var offset := HeldOffset(local, found);
      || after == local
      || after == Attempt(hash, local, base, found, file, m).files
      || (base !in local && offset <= |file| && m >= HEADER_SIZE + GET_META
          && var start := StartFor(hash(file), offset, HeldToken(found));
          Leaves(local, base, found, |file|, start, hash(file), Prefix(file[start..], m - 62), after))
  {
    hide ClientGet, Leaves, Value, Stream, StartFor;
    var offset, token := HeldOffset(local, found), HeldToken(found);
    NoTransfer(hash, file, offset, token, m);
    if offset <= |file| && m >= HEADER_SIZE + GET_META {
      StreamFields(hash, file, offset, token, m);
    }
  }

  lemma ErrorStream(hash: Hash, file: bytes, offset: nat, token: bytes, m: nat)
    requires Answer(hash, file, offset, token).PastEnd?
    ensures var s := Stream(hash, file, offset, token, m); |s| < HEADER_SIZE || s[5] == T_ERROR
  {
  }

  // ----- resuming appends exactly where the file left off

  /** A nonzero start is the length of the very file that is then appended to, and what is there
      after opening is the server's file up to the start. */
  lemma StartsWhereItLeftOff(hash: Hash, local: Local, base: Name, found: Found, file: bytes)
    requires Sound(hash, local, base, file) && Scanned(local, base, found)
    requires HeldOffset(local, found) <= |file|
    ensures var p := PartialName(base, hash(file));
      var start := StartFor(hash(file), HeldOffset(local, found), HeldToken(found));
      && (start > 0 ==> found == Sole(p, Token(hash(file))) && p in local && |local[p]| == start)
      && start <= |file|
      && p in Opened(local, found, p, start)
      && Opened(local, found, p, start)[p] == file[..start]
  {
    hide PartialOf, ScanAccepts;
    ScannedMeans(local, base, found);
  }

  lemma WrittenIsPrefix(body: bytes, got: bytes, wanted: nat)
    requires got <= body && wanted == |body|
    ensures Written(got, wanted) <= body
    ensures |got| >= wanted ==> Written(got, wanted) == body
  {
  }

  /** Of a body that is cut off less than one read is lost. */
  lemma WrittenGains(body: bytes, wanted: nat)
    ensures Written(body, wanted) <= body
    ensures |body| < wanted ==> |body| - CHUNK < |Written(body, wanted)| <= |body|
    ensures |body| >= wanted ==> Written(body, wanted) == body[..wanted]
  {
  }

  /** Receiving on top of a known prefix. */
  lemma ReceiveOnto(hash: Hash, local: Local, base: Name, found: Found,
                    total: nat, start: nat, digest: Digest, body: bytes, kept: bytes)
    requires start <= total < U64_LIMIT
    requires var p := PartialName(base, digest);
      p in Opened(local, found, p, start) && Opened(local, found, p, start)[p] == kept
    ensures var p, o := PartialName(base, digest), Receive(hash, local, base, found, total, start, digest, body);
      var content := kept + Written(body, total - start);
      if |body| < total - start then
        && o.result.Interrupted? && p in o.files && o.files[p] == content
        && o.files.Keys <= local.Keys + {p}
      else if hash(content) == digest then
        o.result.Stored? && base in o.files && o.files[base] == content && (p in o.files ==> p == base)
      else
        o.result.Mismatch?
  {
    hide PartialName, Written;
    assert (total - start) % U64_LIMIT == total - start;
  }

  /** The transfer: the partial is the file up to some point, or the file itself in its place. */
  lemma TransferIsExact(hash: Hash, local: Local, base: Name, found: Found, file: bytes, got: bytes)
    requires |file| < U64_LIMIT && Sound(hash, local, base, file) && Scanned(local, base, found)
    requires HeldOffset(local, found) <= |file|
    requires got <= file[StartFor(hash(file), HeldOffset(local, found), HeldToken(found))..]
    ensures var start := StartFor(hash(file), HeldOffset(local, found), HeldToken(found));
      var p := PartialName(base, hash(file));
      var o := Receive(hash, local, base, found, |file|, start, hash(file), got);
      if |got| < |file| - start then
        && o.result.Interrupted? && p in o.files && o.files.Keys <= local.Keys + {p}
        && o.files[p] == file[..start] + Written(got, |file| - start) <= file
      else
        o.result.Stored? && base in o.files && o.files[base] == file && p !in o.files
  {
    hide PartialName, Scanned, ProtocolMade, Receive, Opened;
    PartialNotBase(base, Token(hash(file)));
    StartsWhereItLeftOff(hash, local, base, found, file);
    var start := StartFor(hash(file), HeldOffset(local, found), HeldToken(found));
    ReceiveOnto(hash, local, base, found, |file|, start, hash(file), got, file[..start]);
    WrittenIsPrefix(file[start..], got, |file| - start);
    assert file[..start] + file[start..] == file;
  }

  /** Only entries the protocol makes are added. */
  lemma ReceiveKeepsNames(hash: Hash, local: Local, base: Name, found: Found,
                          total: nat, start: nat, digest: Digest, body: bytes)
    requires ProtocolMade(local, base)
    ensures ProtocolMade(Receive(hash, local, base, found, total, start, digest, body).files, base)
  {
    hide ScanAccepts, PartialOf, Written;
    assert IsPartialFor(base, PartialName(base, digest));
    assert !ScanAccepts(base, base) by {
      ScanNeedsLength(base, base);
    }
  }

  lemma ScanNeedsLength(base: Name, e: Name)
    ensures ScanAccepts(base, e) ==> |e| == |base| + 23
  {
  }

  // ----- any number of attempts

  /** One attempt, whatever the cut: the directory stays sound, the hash never fails to match, and a
      finished attempt has put exactly the server's bytes in place. */
  lemma AttemptIsExact(hash: Hash, local: Local, base: Name, found: Found, file: bytes, m: nat)
    requires |file| < U64_LIMIT && Sound(hash, local, base, file) && Scanned(local, base, found)
    ensures var o := Attempt(hash, local, base, found, file, m);
      && Sound(hash, o.files, base, file)
      && !o.result.Mismatch?
      && (o.result.Stored? ==> base in o.files && o.files[base] == file)
  {
    hide Receive, Attempt, ProtocolMade, Scanned, PartialName;
    AttemptCases(hash, local, base, found, file, m);
    var offset := HeldOffset(local, found);
    if base !in local && offset <= |file| && m >= HEADER_SIZE + GET_META {
      var start := StartFor(hash(file), offset, HeldToken(found));
      var got := Prefix(file[start..], m - 62);
      TransferIsExact(hash, local, base, found, file, got);
      ReceiveKeepsNames(hash, local, base, found, |file|, start, hash(file), got);
    }
  }

  /** The sole partial is a stale one, longer than the file the server has now: its length is the
      offset asked for, and the server refuses that before it looks at the token. */
  ghost predicate Stuck(local: Local, base: Name, file: bytes) {
    exists e :: SoleHit(local, base, e) && |local[e]| > |file|
  }

  lemma StuckMeans(local: Local, base: Name, found: Found, file: bytes)
    requires ProtocolMade(local, base) && Scanned(local, base, found)
    ensures Stuck(local, base, file) <==> HeldOffset(local, found) > |file|
  {
    hide Scanned, ProtocolMade, ScanAccepts, PartialOf;
    ScannedMeans(local, base, found);
  }

  /** An attempt that is not cut off stores the server's bytes, exactly when not stuck. */
  lemma UncutAttempt(hash: Hash, local: Local, base: Name, found: Found, file: bytes, m: nat)
    requires |file| < U64_LIMIT && Sound(hash, local, base, file) && Scanned(local, base, found) && base !in local
    requires m >= HEADER_SIZE + GET_META + |file|
    ensures var o := Attempt(hash, local, base, found, file, m);
      !Stuck(local, base, file) <==> o.result.Stored? && base in o.files && o.files[base] == file
  {
    hide Receive, Attempt, ProtocolMade, Scanned, PartialName, Stuck;
    StuckMeans(local, base, found, file);
    AttemptCases(hash, local, base, found, file, m);
    var offset := HeldOffset(local, found);
    if offset <= |file| {
      var start := StartFor(hash(file), offset, HeldToken(found));
      TransferIsExact(hash, local, base, found, file, Prefix(file[start..], m - 62));
    }
  }

  /** With its own partial the only one, an interrupted attempt only ever adds to it. */
  lemma NoProgressLost(hash: Hash, local: Local, base: Name, found: Found, file: bytes, m: nat)
    requires |file| < U64_LIMIT && Sound(hash, local, base, file) && Scanned(local, base, found) && base !in local
    requires SoleHit(local, base, PartialName(base, hash(file)))
    ensures var p, o := PartialName(base, hash(file)), Attempt(hash, local, base, found, file, m);
      o.result.Interrupted? ==> p in o.files && local[p] <= o.files[p] <= file
  {
    hide Receive, Attempt, ProtocolMade, PartialName, Scanned, ScanAccepts;
    var p := PartialName(base, hash(file));
    AttemptCases(hash, local, base, found, file, m);
    OwnPartialFound(hash, local, base, found, file);
    var start := StartFor(hash(file), HeldOffset(local, found), HeldToken(found));
    if m >= HEADER_SIZE + GET_META {
      TransferIsExact(hash, local, base, found, file, Prefix(file[start..], m - 62));
    }
  }

  /** And it gains what arrived, but for less than one read. */
  lemma InterruptedGains(hash: Hash, local: Local, base: Name, found: Found, file: bytes, m: nat)
    requires |file| < U64_LIMIT && Sound(hash, local, base, file) && Scanned(local, base, found) && base !in local
    requires SoleHit(local, base, PartialName(base, hash(file))) && m >= HEADER_SIZE + GET_META
    ensures var p, o := PartialName(base, hash(file)), Attempt(hash, local, base, found, file, m);
      o.result.Interrupted? ==> p in o.files && |o.files[p]| > |local[p]| + (m - 62) - CHUNK
  {
    hide Receive, Attempt, ProtocolMade, PartialName, Scanned, ScanAccepts, Written;
    AttemptCases(hash, local, base, found, file, m);
    OwnPartialFound(hash, local, base, found, file);
    var start := StartFor(hash(file), HeldOffset(local, found), HeldToken(found));
    var got := Prefix(file[start..], m - 62);
    TransferIsExact(hash, local, base, found, file, got);
    WrittenGains(got, |file| - start);
  }

  /** After a transfer that is cut off, if there was at most one partial before, there is one: that of
      the file now on the server. So the next attempt resumes it. */
  lemma OnePartialLeft(hash: Hash, local: Local, base: Name, found: Found, file: bytes, m: nat)
    requires |file| < U64_LIMIT && Sound(hash, local, base, file) && Scanned(local, base, found) && base !in local
    requires HeldOffset(local, found) <= |file| && m >= HEADER_SIZE + GET_META
    requires found.NotFound? ==> forall e :: e in local ==> !ScanAccepts(base, e)
    ensures var p, o := PartialName(base, hash(file)), Attempt(hash, local, base, found, file, m);
      o.result.Interrupted? ==> SoleHit(o.files, base, p)
  {
    hide Attempt, Scanned, ScanAccepts, PartialOf, Written, StartFor;
    ScannedMeans(local, base, found);
    AttemptCases(hash, local, base, found, file, m);
    PartialAccepted(base, hash(file));
    StartsWhereItLeftOff(hash, local, base, found, file);
  }

  lemma OwnPartialFound(hash: Hash, local: Local, base: Name, found: Found, file: bytes)
    requires Sound(hash, local, base, file) && Scanned(local, base, found)
    requires SoleHit(local, base, PartialName(base, hash(file)))
    ensures HeldOffset(local, found) == |local[PartialName(base, hash(file))]| <= |file|
    ensures StartFor(hash(file), HeldOffset(local, found), HeldToken(found)) == HeldOffset(local, found)
  {
    hide ScanAccepts, PartialOf, ProtocolMade;
    ScannedMeans(local, base, found);
    if found.Sole? {
      assert found.entry == PartialOf(base, Token(hash(file)));
      PartialInjective(base, found.token, base, Token(hash(file)));
    }
  }

  /** From one directory to the next: an attempt whose reply is cut anywhere, by a client that runs
      to its end or is killed at any moment. */
  ghost predicate Advances(hash: Hash, before: Local, after: Local, base: Name, file: bytes) {
    exists found, m: nat :: Scanned(before, base, found) && AfterAttempt(hash, before, after, base, found, file, m)
  }

  ghost predicate AfterAttempt(hash: Hash, before: Local, after: Local, base: Name, found: Found, file: bytes, m: nat) {
    KilledLeaves(hash, before, base, found, Stream(hash, file, HeldOffset(before, found), HeldToken(found), m), after)
  }

  /** Whether the client is stuck never changes: not by attempts, not by cuts, not by kills. */
  lemma AdvanceKeeps(hash: Hash, before: Local, after: Local, base: Name, file: bytes)
    requires |file| < U64_LIMIT && Sound(hash, before, base, file) && Advances(hash, before, after, base, file)
    ensures Sound(hash, after, base, file)
    ensures base in after ==> base in before || after[base] == file
    ensures base !in after ==> (Stuck(after, base, file) <==> Stuck(before, base, file))
  {
    hide Scanned, ScanAccepts, PartialName, Attempt, Leaves, AfterAttempt, ProtocolMade;
    var found, m: nat :| Scanned(before, base, found) && AfterAttempt(hash, before, after, base, found, file, m);
    KilledCases(hash, before, base, found, file, m, after);
    if after == Attempt(hash, before, base, found, file, m).files {
      FinishedAttemptKeeps(hash, before, base, found, file, m);
    } else if after != before {
      var start := StartFor(hash(file), HeldOffset(before, found), HeldToken(found));
      KilledAttemptKeeps(hash, before, after, base, found, file, Prefix(file[start..], m - 62));
    }
  }

  lemma FinishedAttemptKeeps(hash: Hash, before: Local, base: Name, found: Found, file: bytes, m: nat)
    requires |file| < U64_LIMIT && Sound(hash, before, base, file) && Scanned(before, base, found)
    ensures var after := Attempt(hash, before, base, found, file, m).files;
      && Sound(hash, after, base, file)
      && (base in after ==> base in before || after[base] == file)
      && (base !in after ==> (Stuck(after, base, file) <==> Stuck(before, base, file)))
  {
    hide Scanned, ScanAccepts, PartialName, Attempt;
    AttemptIsExact(hash, before, base, found, file, m);
    AttemptLeaves(hash, before, base, found, file, m);
    StuckMeans(before, base, found, file);
    PartialAccepted(base, hash(file));
  }

  /** A kill in the middle of a transfer, which only a client that is not stuck gets to. */
  lemma KilledAttemptKeeps(hash: Hash, before: Local, after: Local, base: Name, found: Found, file: bytes, got: bytes)
    requires |file| < U64_LIMIT && Sound(hash, before, base, file) && Scanned(before, base, found)
    requires base !in before && HeldOffset(before, found) <= |file|
    requires var start := StartFor(hash(file), HeldOffset(before, found), HeldToken(found));
      got <= file[start..] && Leaves(before, base, found, |file|, start, hash(file), got, after)
    ensures Sound(hash, after, base, file) && base !in after
    ensures !Stuck(before, base, file) && !Stuck(after, base, file)
  {
    hide Scanned, ScanAccepts, PartialName, PartialOf, PartWritten;
    var start := StartFor(hash(file), HeldOffset(before, found), HeldToken(found));
    StuckMeans(before, base, found, file);
    ScannedMeans(before, base, found);
    if !(start == 0 && found.Sole? && after == before - {found.entry}) {
      var k: nat :| k <= |got| && k <= (|file| - start) % U64_LIMIT
        && after == PartWritten(before, base, found, start, hash(file), got[..k]);
      PartIsPrefix(hash, before, base, found, file, got[..k]);
    }
  }

  lemma PartIsPrefix(hash: Hash, local: Local, base: Name, found: Found, file: bytes, part: bytes)
    requires Sound(hash, local, base, file) && Scanned(local, base, found)
    requires base !in local && HeldOffset(local, found) <= |file|
    requires part <= file[StartFor(hash(file), HeldOffset(local, found), HeldToken(found))..]
    ensures var start := StartFor(hash(file), HeldOffset(local, found), HeldToken(found));
      var after := PartWritten(local, base, found, start, hash(file), part);
      Sound(hash, after, base, file) && base !in after && !Stuck(after, base, file)
  {
    hide Scanned, ScanAccepts;
    var start := StartFor(hash(file), HeldOffset(local, found), HeldToken(found));
    var p := PartialName(base, hash(file));
    PartialNotBase(base, Token(hash(file)));
    PartialAccepted(base, hash(file));
    StartsWhereItLeftOff(hash, local, base, found, file);
    assert IsPartialFor(base, p);
    hide PartialName, PartialOf, StartFor;
    assert file[..start] + part == file[..start + |part|];
    var after := PartWritten(local, base, found, start, hash(file), part);
    assert after[p] == file[..start] + part;
    assert forall e :: e in after ==> e in local || e == p;
  }

  /** Among these steps is the kill between the last write and the rename: the complete file under
      its partial's name. */
  lemma KilledBeforeRename(hash: Hash, base: Name, file: bytes)
    requires |file| < U64_LIMIT
    ensures Advances(hash, map[], map[PartialName(base, hash(file)) := file], base, file)
  {
    var m := HEADER_SIZE + GET_META + |file|;
    var after: Local := map[PartialName(base, hash(file)) := file];
    WholeWritten(hash, base, file);
    StreamFields(hash, file, 0, HeldToken(NotFound), m);
    hide PartialName, Stream, Value, ClientGet, Leaves, Scanned;
    assert Scanned(map[], base, NotFound) by {
      NothingFound(base);
    }
    assert AfterAttempt(hash, map[], after, base, NotFound, file, m);
  }

  lemma NothingFound(base: Name)
    ensures Scanned(map[], base, NotFound)
  {
    assert Listing([], map[]) && NotFound == SolePartial(base, []);
  }

  lemma WholeWritten(hash: Hash, base: Name, file: bytes)
    requires |file| < U64_LIMIT
    ensures Leaves(map[], base, NotFound, |file|, 0, hash(file), file[0..], map[PartialName(base, hash(file)) := file])
  {
    hide PartialName;
    assert file[0..] == file && file[0..][..|file|] == file && [] + file == file;
    assert map[PartialName(base, hash(file)) := file]
        == PartWritten(map[], base, NotFound, 0, hash(file), file[0..][..|file|]);
  }

  /** So is the kill between the removal of a stale partial and the opening of the new one. */
  lemma KilledAfterRemove(hash: Hash, base: Name, file: bytes, token: bytes, held: bytes)
    requires |file| < U64_LIMIT && |token| == TOKEN_SIZE && token != Token(hash(file)) && |held| <= |file|
    ensures Advances(hash, map[PartialOf(base, token) := held], map[], base, file)
  {
    var e := PartialOf(base, token);
    var local: Local := map[e := held];
    PartialNotBase(base, token);
    SoleScanned(base, token, held);
    StreamFields(hash, file, |held|, token, HEADER_SIZE + GET_META);
    assert local - {e} == map[];
    hide PartialOf, Stream, Value, ClientGet, Scanned, PartWritten;
    assert AfterAttempt(hash, local, map[], base, Sole(e, token), file, HEADER_SIZE + GET_META);
  }

  lemma SoleScanned(base: Name, token: bytes, held: bytes)
    requires |token| == TOKEN_SIZE
    ensures Scanned(map[PartialOf(base, token) := held], base, Sole(PartialOf(base, token), token))
  {
    var e := PartialOf(base, token);
    ScanAcceptsOwnPartials(base, base, token);
    hide PartialOf, ScanAccepts;
    var none: seq<Name> := [];
    assert [e][..0] == none && Accepted(base, none) == none;
    assert Accepted(base, [e]) == [e];
    FindsWhatWasMade(base, token, [e]);
    assert Listing([e], map[e := held]);
  }

  /** With its own partial the only one, a kill loses no byte either. */
  lemma KillLosesNothing(hash: Hash, before: Local, after: Local, base: Name, found: Found, file: bytes, m: nat)
    requires |file| < U64_LIMIT && Sound(hash, before, base, file) && Scanned(before, base, found) && base !in before
    requires SoleHit(before, base, PartialName(base, hash(file)))
    requires AfterAttempt(hash, before, after, base, found, file, m)
    ensures var p := PartialName(base, hash(file));
      || (base in after && after[base] == file)
      || (p in after && before[p] <= after[p] <= file)
      || before[p] == []
  {
    hide Scanned, ScanAccepts, PartialName, Attempt, AfterAttempt, ProtocolMade, Receive;
    var p := PartialName(base, hash(file));
    KilledCases(hash, before, base, found, file, m, after);
    OwnPartialFound(hash, before, base, found, file);
    StartsWhereItLeftOff(hash, before, base, found, file);
    NoProgressLost(hash, before, base, found, file, m);
    AttemptCases(hash, before, base, found, file, m);
    var start := |before[p]|;
    if m >= HEADER_SIZE + GET_META {
      TransferIsExact(hash, before, base, found, file, Prefix(file[start..], m - 62));
    }
    if after != before && after != Attempt(hash, before, base, found, file, m).files && start > 0 {
      var got := Prefix(file[start..], m - 62);
      var k: nat :| k <= |got| && after == PartWritten(before, base, found, start, hash(file), got[..k]);
      assert file[..start] + got[..k] == file[..start + k];
    }
  }

  /** What an attempt leaves behind: nothing changed, or the file stored, or its partial in place. */
  lemma AttemptLeaves(hash: Hash, local: Local, base: Name, found: Found, file: bytes, m: nat)
    requires |file| < U64_LIMIT && Sound(hash, local, base, file) && Scanned(local, base, found)
    ensures var o := Attempt(hash, local, base, found, file, m);
      || o.files == local
      || (HeldOffset(local, found) <= |file| && base in o.files && o.files[base] == file)
      || (HeldOffset(local, found) <= |file| && PartialName(base, hash(file)) in o.files)
    ensures var o := Attempt(hash, local, base, found, file, m);
      base in o.files ==> base in local || o.files[base] == file
  {
    hide Receive, Attempt, ProtocolMade, Scanned, PartialName;
    AttemptCases(hash, local, base, found, file, m);
    var offset := HeldOffset(local, found);
    if base !in local && offset <= |file| && m >= HEADER_SIZE + GET_META {
      var start := StartFor(hash(file), offset, HeldToken(found));
      TransferIsExact(hash, local, base, found, file, Prefix(file[start..], m - 62));
      PartialNotBase(base, Token(hash(file)));
    }
  }

  lemma PartialAccepted(base: Name, digest: Digest)
    ensures ScanAccepts(base, PartialName(base, digest))
  {
    ScanAcceptsOwnPartials(base, base, Token(digest));
  }

  // ----- whole histories

  /** Every step is an attempt against the same file. */
  ghost predicate History(hash: Hash, dirs: seq<Local>, base: Name, file: bytes) {
    |dirs| > 0 && forall i :: 0 <= i < |dirs| - 1 ==> Advances(hash, dirs[i], dirs[i + 1], base, file)
  }

  lemma {:induction false} HistoryKeeps(hash: Hash, dirs: seq<Local>, base: Name, file: bytes)
    requires |file| < U64_LIMIT && History(hash, dirs, base, file)
    requires Sound(hash, dirs[0], base, file) && base !in dirs[0]
    ensures var last := dirs[|dirs| - 1];
      && Sound(hash, last, base, file)
      && (base in last ==> last[base] == file)
      && (base !in last ==> (Stuck(last, base, file) <==> Stuck(dirs[0], base, file)))
    decreases |dirs|
  {
    hide Sound, Stuck, Advances;
    if |dirs| > 1 {
      var n := |dirs| - 1;
      var front := dirs[..n];
      forall i | 0 <= i < |front| - 1
        ensures Advances(hash, front[i], front[i + 1], base, file)
      {
        assert Advances(hash, dirs[i], dirs[i + 1], base, file);
      }
      HistoryKeeps(hash, front, base, file);
      assert Advances(hash, dirs[n - 1], dirs[n - 1 + 1], base, file);
      AdvanceKeeps(hash, dirs[n - 1], dirs[n], base, file);
      if base in dirs[n - 1] {
        StoredStays(hash, dirs[n - 1], dirs[n], base, file);
      }
    }
  }

  /** Once the destination exists the client leaves it alone. */
  lemma StoredStays(hash: Hash, before: Local, after: Local, base: Name, file: bytes)
    requires |file| < U64_LIMIT && base in before && Advances(hash, before, after, base, file)
    ensures after == before
  {
    hide Scanned;
  }

  /** End to end. Over any history of attempts, each cut at any byte or ended by a kill at any moment, against an
      unchanged file and from a directory of protocol-made partials: the destination, if it is
      there, holds exactly the server's bytes; the partial is a prefix of them; and the next attempt
      that is not cut completes the download, exactly when the client did not start out stuck. */
  lemma DownloadIsExact(hash: Hash, dirs: seq<Local>, base: Name, file: bytes, found: Found, m: nat)
    requires |file| < U64_LIMIT && History(hash, dirs, base, file)
    requires Sound(hash, dirs[0], base, file) && base !in dirs[0]
    requires Scanned(dirs[|dirs| - 1], base, found) && m >= HEADER_SIZE + GET_META + |file|
    ensures var last, p := dirs[|dirs| - 1], PartialName(base, hash(file));
      && (p in last ==> last[p] <= file)
      && (base in last ==> last[base] == file)
      && (base !in last ==>
            var o := Attempt(hash, last, base, found, file, m);
            o.result.Stored? && base in o.files && o.files[base] == file <==> !Stuck(dirs[0], base, file))
  {
    hide Stuck, Attempt, Scanned, ProtocolMade;
    HistoryKeeps(hash, dirs, base, file);
    var last := dirs[|dirs| - 1];
    if base !in last {
      UncutAttempt(hash, last, base, found, file, m);
    }
  }

  /** Being stuck happens, and lasts: with one byte of another file against an empty one, no attempt
      stores anything, however often it is repeated and whatever the cut. */
  lemma StuckHappens(hash: Hash, base: Name, token: bytes, found: Found, m: nat)
    requires |token| == TOKEN_SIZE && token != Token(hash([]))
    ensures var local := map[PartialOf(base, token) := [0]];
      && Sound(hash, local, base, []) && base !in local && Stuck(local, base, [])
      && (Scanned(local, base, found) ==> Attempt(hash, local, base, found, [], m).files == local)
  {
    hide PartialOf, ScanAccepts, Scanned, Attempt;
    var e := PartialOf(base, token);
    var local := map[e := [0]];
    ScanAcceptsOwnPartials(base, base, token);
    assert IsPartialFor(base, e);
    if e == PartialName(base, hash([])) {
      PartialInjective(base, token, base, Token(hash([])));
    }
    assert SoleHit(local, base, e);
    PartialNotBase(base, token);
    if Scanned(local, base, found) {
      StuckMeans(local, base, found, []);
      AttemptCases(hash, local, base, found, [], m);
    }
  }

  lemma PartialNotBase(base: Name, token: bytes)
    requires |token| == TOKEN_SIZE
    ensures PartialOf(base, token) != base
  {
  }
}
