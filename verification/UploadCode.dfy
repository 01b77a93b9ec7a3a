/**
  The filename rules as they are: what the code keeps and what it does not, name by name. Besides the
  runs of UploadDurability there are runs here that spoil the resuming of uploads and runs in which a
  partial is touched by somebody who does not own it.
 */
module UploadCode {
  import opened ByteOrder
  import opened Names
  import opened Uploads
  import opened UploadInvariant
  import opened UploadTheorems
  import opened UploadResume
  import opened UploadRuns
  import opened UploadDurability

  // ----- resuming

  /** Whatever file the uploaders of the name hold, and over every history: the partial is a prefix of
      it, offers are its length, no attempt ends in CORRUPT. */
  ghost predicate ResumesExactly(c: Config, n: Name) {
    forall s, acts, f | HonestHistory(c, s, acts, n, f) :: Exact(Exec(c, s, acts), PartialName(n, c.hash(f)), f)
  }

  ghost predicate HonestHistory(c: Config, s: State, acts: seq<Action>, n: Name, f: bytes) {
    && Init(c, s) && Legal(c, s, acts)
    && Content(s, PartialName(n, c.hash(f))) <= f && HonestRun(c, s, acts, PartialName(n, c.hash(f)), f)
  }

  lemma IsolatedResumes(c: Config, n: Name)
    requires Isolated(c, n)
    ensures ResumesExactly(c, n)
  {
    hide Init, Unnested, Exact, PartialName;
    forall s, acts, f | HonestHistory(c, s, acts, n, f)
      ensures Exact(Exec(c, s, acts), PartialName(n, c.hash(f)), f)
    {
      IsolatedAvoids(c, s, acts, n);
      ResumeIsExact(c, s, acts, n, f);
    }
  }

  /** Begins honest for the partial, and only one session, of another partial, receives anything. */
  ghost predicate LeavesAlone(c: Config, acts: seq<Action>, p: Name, f: bytes, i: Sid) {
    forall k :: 0 <= k < |acts| ==> LeavesItAlone(c, acts[k], p, f, i)
  }

  predicate LeavesItAlone(c: Config, a: Action, p: Name, f: bytes, i: Sid) {
    && (a.Begin? && PartialName(a.name, a.digest) == p ==> a.size == |f| && a.digest == c.hash(f) && a.sid != i)
    && (a.Recv? ==> a.sid == i)
  }

  lemma {:induction false} HonestIfLeftAlone(c: Config, s: State, acts: seq<Action>, p: Name, f: bytes, i: Sid)
    requires Legal(c, s, acts) && LeavesAlone(c, acts, p, f, i) && (i in s.sessions ==> s.sessions[i].partial != p)
    ensures HonestRun(c, s, acts, p, f)
    decreases |acts|
  {
    hide PartialName;
    if acts != [] {
      assert LeavesItAlone(c, acts[0], p, f, i);
      assert forall k :: 0 < k < |acts| ==> acts[k] == acts[1..][k - 1];
      BystandersPartial(c, s, acts[0], p, f, i);
      hide Apply, Enabled;
      HonestIfLeftAlone(c, Apply(c, s, acts[0]), acts[1..], p, f, i);
    }
  }

  lemma BystandersPartial(c: Config, s: State, a: Action, p: Name, f: bytes, i: Sid)
    requires Enabled(c, s, a) && LeavesItAlone(c, a, p, f, i) && (i in s.sessions ==> s.sessions[i].partial != p)
    ensures i in Apply(c, s, a).sessions ==> Apply(c, s, a).sessions[i].partial != p
  {
    hide PartialName;
    SessionAfter(c, s, a, i);
    if !a.Begin? {
      hide Apply, Enabled;
    }
  }

  /** The server started in a directory with one entry. */
  function Prepared(q: Name, g: bytes): State {
    State(false, map[q := 0], map[0 := g], {}, map[], map[])
  }

  lemma StartedPrepared(c: Config, q: Name, g: bytes)
    ensures Init(c, Prepared(q, g))
    ensures var s, s' := Prepared(q, g), Prepared(q, g).(serving := true);
      Legal(c, s, [Restart({})]) && Exec(c, s, [Restart({})]) == s'
  {
    assert Step(c, Prepared(q, g), Restart({}), Prepared(q, g).(serving := true));
    OneStep(c, Prepared(q, g), Restart({}), Prepared(q, g).(serving := true));
  }

  /** A partial of the name, uploaded and published as a file of its own with other bytes than the file
      whose partial it is: the next upload of the name finds it there. */
  lemma Usurped(c: Config, n: Name, f: bytes, g: bytes)
    requires c.accepts(PartialName(n, c.hash(f))) && |g| <= MAX_FILE_SIZE
    ensures var p := PartialName(n, c.hash(f)); var q := PartialName(p, c.hash(g));
      var s, acts := Prepared(q, g), [Restart({})] + Publication(c, 1, p, g, 1);
      HonestHistory(c, s, acts, n, f) && Content(Exec(c, s, acts), p) == g
  {
    var p := PartialName(n, c.hash(f));
    var q := PartialName(p, c.hash(g));
    PartialIsLonger(n, c.hash(f));
    PartialIsLonger(p, c.hash(g));
    hide PartialName;
    var s, acts := Prepared(q, g), Publication(c, 1, p, g, 1);
    StartedPrepared(c, q, g);
    Publishes(c, s.(serving := true), 1, p, g, 1);
    assert Content(s, p) == [] && Content(HeldLinked(c, s.(serving := true), 1, p, g, 1), p) == g;
    hide Apply, Enabled, Legal, Exec, Init, Content, HeldLinked;
    ExecConcat(c, s, [Restart({})], acts);
    HonestIfLeftAlone(c, s, [Restart({})] + acts, p, f, 0);
  }

  lemma UsurpedDoesNotResume(c: Config, n: Name)
    requires c.accepts(PartialName(n, c.hash([0])))
    ensures !ResumesExactly(c, n)
  {
    hide PartialName, Init, HonestRun, Legal, Exec;
    Usurped(c, n, [0], [1]);
    var p := PartialName(n, c.hash([0]));
    var s, acts := Prepared(PartialName(p, c.hash([1])), [1]), [Restart({})] + Publication(c, 1, p, [1], 1);
    var f, g: bytes := [0], [1];
    assert g[0] != f[0];
    assert !Exact(Exec(c, s, acts), p, f);
  }

  /** The upload of a name that is a partial, linked and not yet cleaned up, is one file under both
      names: somebody's partial that an intruder can take for his own. */
  lemma BothNamesOneFile(c: Config, n: Name, m: Name, d: Digest)
    requires c.accepts(m) && n == PartialName(m, d)
    ensures var q, s := EmptyPartial(c, n), EmptyLinked(c, Empty.(serving := true), 1, n, 0);
      && s.serving && 2 !in s.sessions && m !in s.dir && 1 !in s.data && n !in s.inFlight
      && n in s.dir && q in s.dir && s.dir[n] == 0 && s.dir[q] == 0 && s.data == map[0 := []]
  {
    PartialIsLonger(m, d);
    PartialIsLonger(n, c.hash([]));
    hide PartialName;
  }

  /** While it is being cleaned up, the upload whose partial it is writes through it into the first
      one's partial. */
  lemma WrittenThroughWhileOwned(c: Config, n: Name, m: Name, d: Digest, b: byte)
    requires c.accepts(n) && c.accepts(m) && n == PartialName(m, d)
    ensures var q, s := EmptyPartial(c, n), Empty;
      var acts := [Restart({})] + Publication(c, 1, n, [], 0) + Intrusion(2, m, d, b);
      HonestHistory(c, s, acts, n, []) && Content(Exec(c, s, acts), q) == [b]
  {
    var q, s, s1 := EmptyPartial(c, n), Empty, Empty.(serving := true);
    var x, y := [Restart({})] + Publication(c, 1, n, [], 0), Intrusion(2, m, d, b);
    PartialIsLonger(n, c.hash([]));
    OthersLeaveItAlone(c, n, m, d, b);
    hide PartialName, Apply, Enabled, HeldLinked, Init, LeavesAlone;
    EmptyIsInit(c);
    FirstUpload(c, n);
    OneStep(c, s, Restart({}), s1);
    Publishes(c, s1, 1, n, [], 0);
    BothNamesOneFile(c, n, m, d);
    Intrudes(c, EmptyLinked(c, s1, 1, n, 0), 2, m, d, b);
    hide Legal, Exec, Free, EmptyLinked, Step;
    ExecConcat(c, s, [Restart({})], Publication(c, 1, n, [], 0));
    ExecConcat(c, s, x, y);
    HonestIfLeftAlone(c, s, x + y, q, [], 2);
  }

  lemma OthersLeaveItAlone(c: Config, n: Name, m: Name, d: Digest, b: byte)
    requires n == PartialName(m, d)
    ensures LeavesAlone(c, [Restart({})] + Publication(c, 1, n, [], 0) + Intrusion(2, m, d, b),
                        EmptyPartial(c, n), [], 2)
  {
    PartialIsLonger(n, c.hash([]));
    hide PartialName;
  }

  lemma PartialDoesNotResume(c: Config, n: Name)
    requires c.accepts(n) && IsPartial(c, n)
    ensures !ResumesExactly(c, n)
  {
    hide PartialName, IsPartial, Init, HonestRun, Legal, Exec;
    var m, d := TargetOf(c, n);
    WrittenThroughWhileOwned(c, n, m, d, 0);
    var acts := [Restart({})] + Publication(c, 1, n, [], 0) + Intrusion(2, m, d, 0);
    assert !Exact(Exec(c, Empty, acts), EmptyPartial(c, n), []);
  }

  // ----- bytes sent once

  /** At every verified upload of the name, over all attempts since the server started: what was there
      and the bytes accepted are the size of the file and the bytes lost. */
  ghost predicate SentOnce(c: Config, n: Name) {
    forall s, acts, sid | Init(c, s) && Legal(c, s, acts) && IsVerifiedUpload(Exec(c, s, acts), n, sid) ::
      AddsUp(c, s, acts, sid)
  }

  predicate IsVerifiedUpload(s: State, n: Name, sid: Sid) {
    sid in s.sessions && s.sessions[sid].name == n && s.sessions[sid].stage.Verified?
  }

  ghost predicate AddsUp(c: Config, s: State, acts: seq<Action>, sid: Sid)
    requires Legal(c, s, acts) && sid in Exec(c, s, acts).sessions
  {
    var ss := Exec(c, s, acts).sessions[sid];
    |Content(s, ss.partial)| + TotalGained(c, s, acts, ss.partial) == ss.size + TotalLost(c, s, acts, ss.partial)
  }

  lemma IsolatedSentOnce(c: Config, n: Name)
    requires Isolated(c, n)
    ensures SentOnce(c, n)
  {
    hide Init, IsPartial, IsPartialOf;
    forall s, acts, sid | Init(c, s) && Legal(c, s, acts) && IsVerifiedUpload(Exec(c, s, acts), n, sid)
      ensures AddsUp(c, s, acts, sid)
    {
      IsolatedAvoids(c, s, acts, n);
      NoByteSentTwice(c, s, acts, sid);
    }
  }

  /** Nothing is received into a partial that is left alone, if its own uploads receive nothing. */
  lemma {:induction false} NothingGained(c: Config, s: State, acts: seq<Action>, p: Name, f: bytes, i: Sid)
    requires Legal(c, s, acts) && LeavesAlone(c, acts, p, f, i) && (i in s.sessions ==> s.sessions[i].partial != p)
    ensures TotalGained(c, s, acts, p) == 0
    decreases |acts|
  {
    hide PartialName;
    if acts != [] {
      assert LeavesItAlone(c, acts[0], p, f, i);
      assert forall k :: 0 < k < |acts| ==> acts[k] == acts[1..][k - 1];
      BystandersPartial(c, s, acts[0], p, f, i);
      hide Apply, Enabled;
      NothingGained(c, Apply(c, s, acts[0]), acts[1..], p, f, i);
    }
  }

  /** A file uploaded as the partial of the name saves the name's upload all its bytes: it is verified
      and none was ever sent. */
  lemma NeverSent(c: Config, n: Name)
    requires c.accepts(n) && c.accepts(PartialName(n, c.hash([0])))
    ensures !SentOnce(c, n)
  {
    var g: bytes := [0];
    var p := PartialName(n, c.hash(g));
    var q := PartialName(p, c.hash(g));
    var s, s1 := Prepared(q, g), Prepared(q, g).(serving := true);
    var x, y := [Restart({})] + Publication(c, 1, p, g, 1), Verification(c, 2, n, g, 1);
    NeverSentSteps(c, n);
    hide PartialName, Apply, Enabled, HeldLinked, Init, Free;
    StartedPrepared(c, q, g);
    Publishes(c, s1, 1, p, g, 1);
    Verifies(c, HeldLinked(c, s1, 1, p, g, 1), 2, n, g, 1);
    hide Legal, Exec, Verification;
    ExecConcat(c, s, [Restart({})], Publication(c, 1, p, g, 1));
    ExecConcat(c, s, x, y);
    NothingGained(c, s, x + y, p, g, 0);
    assert !AddsUp(c, s, x + y, 2);
  }

  lemma NeverSentSteps(c: Config, n: Name)
    requires c.accepts(n) && c.accepts(PartialName(n, c.hash([0])))
    ensures var g: bytes := [0]; var p := PartialName(n, c.hash(g)); var q := PartialName(p, c.hash(g));
      var s, s1 := Prepared(q, g), Prepared(q, g).(serving := true);
      && Content(s, p) == [] && Free(c, s1, 1, p, g, 1) && Free(c, HeldLinked(c, s1, 1, p, g, 1), 2, n, g, 1)
      && LeavesAlone(c, [Restart({})] + Publication(c, 1, p, g, 1) + Verification(c, 2, n, g, 1), p, g, 0)
  {
    var g: bytes := [0];
    var p := PartialName(n, c.hash(g));
    PartialIsLonger(n, c.hash(g));
    PartialIsLonger(p, c.hash(g));
    hide PartialName;
  }

  /** The run of WrittenThroughWhileOwned goes on: the first upload cleans up and with it throws away a
      byte it never received; after a restart that sweeps the name it is uploaded once more. */
  lemma LostWithoutGain(c: Config, n: Name, m: Name, d: Digest)
    requires c.accepts(n) && c.accepts(m) && n == PartialName(m, d)
    ensures !SentOnce(c, n)
  {
    var q, s, s1 := EmptyPartial(c, n), Empty, Empty.(serving := true);
    var x := [Restart({})] + Publication(c, 1, n, [], 0) + Intrusion(2, m, d, 0);
    var y := [Unlink(1), Crash, Restart({n})] + Verification(c, 3, n, [], 1);
    assert Content(s, q) == [];
    LostSteps(c, n, m, d);
    LostLeavesAlone(c, n, m, d);
    hide PartialName, Apply, Enabled, HeldLinked, Init, LeavesAlone, Verification;
    EmptyIsInit(c);
    var e := Exec(c, s, x);
    ExecConcat(c, s, x, y);
    LostInParts(c, s, x, y, q);
    NothingGained(c, s, x + y, q, [], 2);
    assert !AddsUp(c, s, x + y, 3);
  }

  lemma LostLeavesAlone(c: Config, n: Name, m: Name, d: Digest)
    requires n == PartialName(m, d)
    ensures LeavesAlone(c, [Restart({})] + Publication(c, 1, n, [], 0) + Intrusion(2, m, d, 0)
                           + ([Unlink(1), Crash, Restart({n})] + Verification(c, 3, n, [], 1)),
                        EmptyPartial(c, n), [], 2)
  {
    PartialIsLonger(n, c.hash([]));
    hide PartialName;
  }

  /** Up to the intrusion. */
  lemma LostFirst(c: Config, n: Name, m: Name, d: Digest)
    requires c.accepts(n) && c.accepts(m) && n == PartialName(m, d)
    ensures var x := [Restart({})] + Publication(c, 1, n, [], 0) + Intrusion(2, m, d, 0);
      Legal(c, Empty, x) && Intruded(c, n, Exec(c, Empty, x))
  {
    var s, s1 := Empty, Empty.(serving := true);
    var s2 := EmptyLinked(c, s1, 1, n, 0);
    FirstUpload(c, n);
    BothNamesOneFile(c, n, m, d);
    assert s2.dir == map[EmptyPartial(c, n) := 0, n := 0] && s2.sessions == map[1 := s2.sessions[1]];
    hide PartialName, Apply, Enabled;
    OneStep(c, s, Restart({}), s1);
    Publishes(c, s1, 1, n, [], 0);
    Intrudes(c, s2, 2, m, d, 0);
    hide Legal, Exec, Free, Step;
    ExecConcat(c, s, [Restart({})], Publication(c, 1, n, [], 0));
    ExecConcat(c, s, [Restart({})] + Publication(c, 1, n, [], 0), Intrusion(2, m, d, 0));
  }

  /** Where the first upload stands when the intruder has written. */
  ghost predicate Intruded(c: Config, n: Name, e: State) {
    var q := EmptyPartial(c, n);
    && e.serving && e.dir == map[q := 0, n := 0] && e.data == map[0 := [0]] && e.sessions.Keys == {1, 2}
    && e.sessions[1] == Session(n, c.hash([]), 0, q, Linked)
  }

  function CleanedUp(c: Config, n: Name, e: State): State
    requires 1 in e.sessions
  {
    SetStage(Remove(e, EmptyPartial(c, n)), 1, Replying(Stored))
  }

  lemma LostInCleanUp(c: Config, n: Name, e: State)
    requires Intruded(c, n, e)
    ensures Step(c, e, Unlink(1), CleanedUp(c, n, e)) && Lost(c, e, Unlink(1), EmptyPartial(c, n)) == 1
    ensures CleanedUp(c, n, e).dir == map[n := 0]
  {
    PartialIsLonger(n, c.hash([]));
    hide PartialName;
  }

  lemma SweptAfterCrash(c: Config, n: Name, e: State)
    requires e.serving && e.dir == map[n := 0] && SweepMatches(n)
    ensures Step(c, e, Crash, Crashed(e))
    ensures Step(c, Crashed(e), Restart({n}), Crashed(e).(serving := true, dir := map[]))
  {
    hide SweepMatches;
  }

  /** The clean-up, the crash and the sweep leave an empty directory. */
  lemma LostMiddle(c: Config, n: Name, m: Name, d: Digest, e: State)
    requires Intruded(c, n, e) && n == PartialName(m, d) && c.accepts(n)
    ensures var y := [Unlink(1), Crash, Restart({n})];
      && Legal(c, e, y) && TotalLost(c, e, y, EmptyPartial(c, n)) >= 1
      && Free(c, Exec(c, e, y), 3, n, [], 1)
  {
    PartialsAreSwept(m, Token(d));
    var e1 := CleanedUp(c, n, e);
    var e3 := Crashed(e1).(serving := true, dir := map[]);
    LostInCleanUp(c, n, e);
    SweptAfterCrash(c, n, e1);
    assert Free(c, e3, 3, n, [], 1);
    hide PartialName, SweepMatches, Apply, Enabled, Lost, Crashed, CleanedUp, Free, Intruded;
    ThreeSteps(c, e, Unlink(1), e1, Crash, Crashed(e1), Restart({n}), e3);
  }

  lemma LostSteps(c: Config, n: Name, m: Name, d: Digest)
    requires c.accepts(n) && c.accepts(m) && n == PartialName(m, d)
    ensures var x := [Restart({})] + Publication(c, 1, n, [], 0) + Intrusion(2, m, d, 0);
      var y := [Unlink(1), Crash, Restart({n})] + Verification(c, 3, n, [], 1);
      && Legal(c, Empty, x) && Legal(c, Exec(c, Empty, x), y)
      && var e := Exec(c, Empty, x);
      && TotalLost(c, e, y, EmptyPartial(c, n)) >= 1
      && IsVerifiedUpload(Exec(c, e, y), n, 3) && Exec(c, e, y).sessions[3].partial == EmptyPartial(c, n)
      && Exec(c, e, y).sessions[3].size == 0
  {
    hide PartialName, Apply, Enabled, Legal, Exec, Intrusion, Verification;
    var x, y, z := [Restart({})] + Publication(c, 1, n, [], 0) + Intrusion(2, m, d, 0),
                   [Unlink(1), Crash, Restart({n})], Verification(c, 3, n, [], 1);
    LostFirst(c, n, m, d);
    var e := Exec(c, Empty, x);
    LostMiddle(c, n, m, d, e);
    Verifies(c, Exec(c, e, y), 3, n, [], 1);
    ExecConcat(c, e, y, z);
    LostInParts(c, e, y, z, EmptyPartial(c, n));
  }

  lemma PartialNotSentOnce(c: Config, n: Name)
    requires c.accepts(n) && IsPartial(c, n)
    ensures !SentOnce(c, n)
  {
    var m, d := TargetOf(c, n);
    LostWithoutGain(c, n, m, d);
  }

  // ----- who touches a partial

  /** In every schedule, while the server serves, the partials of the name change only by steps of the
      sessions that own them. */
  ghost predicate OwnersAlone(c: Config, n: Name) {
    forall s, acts, a, p | Init(c, s) && Legal(c, s, acts) && Enabled(c, Exec(c, s, acts), a) ::
      Exec(c, s, acts).serving && IsPartialOf(p, n) ==> OwnersStep(c, Exec(c, s, acts), a, p)
  }

  lemma IsolatedOwnersAlone(c: Config, n: Name)
    requires Isolated(c, n)
    ensures OwnersAlone(c, n)
  {
    hide Init, Unnested, OwnersStep, Enabled, Apply;
    forall s, acts, a, p | Init(c, s) && Legal(c, s, acts) && Enabled(c, Exec(c, s, acts), a)
      && Exec(c, s, acts).serving && IsPartialOf(p, n)
      ensures OwnersStep(c, Exec(c, s, acts), a, p)
    {
      IsolatedAvoids(c, s, acts, n);
      OwnersOnly(c, s, acts, a, n, p);
    }
  }

  lemma NotAlone(c: Config, n: Name, s: State, a: Action, p: Name)
    requires Reaches(c, Empty, s) && Enabled(c, s, a) && s.serving && IsPartialOf(p, n) && !OwnersStep(c, s, a, p)
    ensures !OwnersAlone(c, n)
  {
    EmptyIsInit(c);
    hide Init, OwnersStep, Enabled, Apply;
    var acts :| Legal(c, Empty, acts) && Exec(c, Empty, acts) == s;
  }

  /** An accepted partial appears when somebody links it as a name, while nobody owns it. */
  lemma CreatedByStranger(c: Config, n: Name)
    requires c.accepts(EmptyPartial(c, n))
    ensures !OwnersAlone(c, n)
  {
    var p := EmptyPartial(c, n);
    PartialIsLonger(p, c.hash([]));
    assert IsPartialOf(p, n);
    hide PartialName, IsPartialOf, Reaches, Init;
    FirstVerified(c, p);
    var s := Waiting(c, p, map[EmptyPartial(c, p) := 0], map[0 := []], Verified);
    LinkStep(c, s, 1);
    NotAlone(c, n, s, Link(1), p);
  }

  /** And the partial of a name that is itself a partial is written to by a stranger. */
  lemma PartialsOwnersNotAlone(c: Config, n: Name)
    requires c.accepts(n) && IsPartial(c, n)
    ensures !OwnersAlone(c, n)
  {
    var m, d := TargetOf(c, n);
    var q := EmptyPartial(c, n);
    assert IsPartialOf(q, n);
    PartialIsLonger(m, d);
    PartialIsLonger(n, c.hash([]));
    hide PartialName, IsPartialOf, Reaches, IsPartial;
    StrangerAtWork(c, n, m, d);
    var s := StrangersBuffer(c, n, m, d);
    NotAlone(c, n, s, Flush(2, 1), q);
  }

  function StrangersBuffer(c: Config, n: Name, m: Name, d: Digest): State {
    var s := EmptyLinked(c, Empty.(serving := true), 1, n, 0);
    OneWaiting(Entered(s, 2, Session(m, d, 1, n, Offered(0))), 2, 0)
  }

  lemma StrangerAtWork(c: Config, n: Name, m: Name, d: Digest)
    requires c.accepts(n) && c.accepts(m) && n == PartialName(m, d)
    ensures var s, q := StrangersBuffer(c, n, m, d), EmptyPartial(c, n);
      && Reaches(c, Empty, s) && Enabled(c, s, Flush(2, 1)) && s.serving
      && !OwnersStep(c, s, Flush(2, 1), q)
  {
    var q, s1 := EmptyPartial(c, n), Empty.(serving := true);
    var s2 := EmptyLinked(c, s1, 1, n, 0);
    var s3 := Entered(s2, 2, Session(m, d, 1, n, Offered(0)));
    PartialIsLonger(m, d);
    PartialIsLonger(n, c.hash([]));
    hide PartialName, Reaches;
    FirstUpload(c, n);
    Publishes(c, s1, 1, n, [], 0);
    Starts(c, s2, 2, m, d, 1);
    Appends(c, s3, 2, 0, 1);
    ReachesRefl(c, Empty);
    ReachesStep(c, Empty, Empty, Restart({}), s1);
    ReachesTrans(c, Empty, s1, s2);
    ReachesTrans(c, Empty, s2, s3);
    ReachesTrans(c, Empty, s3, OneWaiting(s3, 2, 0));
    assert Content(OneMore(s3, 2, 0), q) == [] + [0];
  }

  // ----- the filename rules as they are

  /** Names whose partials the filename rules refuse, being too long or full of dots. */
  predicate PartialsRefused(n: Name)
    requires n != []
  {
    |n| + 23 > MAX_NAME || n[0] == DOT || n[|n| - 1] == DOT
  }

  lemma CodeIsolates(hash: bytes -> Digest, n: Name, f: bytes)
    requires Storable(n)
    ensures Isolated(Code(hash), n) <==> !IsPartial(Code(hash), n) && PartialsRefused(n)
    ensures !PartialsRefused(n) <==> Code(hash).accepts(PartialName(n, hash(f)))
  {
    assert CheckFilename(n) && n != [];
    hide IsPartial, Storable, PartialOf, CheckFilename;
    PartialAcceptedIff(n, Token(hash(f)));
    forall p | IsPartialOf(p, n)
      ensures Storable(p) <==> !PartialsRefused(n)
    {
      var t: bytes :| |t| == TOKEN_SIZE && p == PartialOf(n, t);
      PartialAcceptedIff(n, t);
    }
    assert IsPartialOf(PartialOf(n, Token(hash(f))), n);
  }

  /** What the code does keep, name by name. Bytes never change while the name is there and always are
      what the publisher stated, uploads resume exactly and send each byte once, and partials change
      only by their owners' steps, exactly for names that are nobody's partial and whose own
      partials the rules refuse; files are safe for good exactly if besides the sweep does not match
      them. Ordinary names such as "a" are not among these. */
  lemma CodeExactly(hash: bytes -> Digest, n: Name)
    requires Storable(n)
    ensures var c := Code(hash); var safe := !IsPartial(c, n) && PartialsRefused(n);
      && (Immutable(c, n) <==> safe)
      && (AlwaysVerified(c, n) <==> safe)
      && (ResumesExactly(c, n) <==> safe)
      && (SentOnce(c, n) <==> safe)
      && (OwnersAlone(c, n) <==> safe)
      && (Durable(c, n) <==> !SweepMatches(n) && PartialsRefused(n))
  {
    assert n != [];
    hide Storable, Immutable, AlwaysVerified, ResumesExactly, SentOnce, OwnersAlone, Durable, IsPartial, SweepMatches;
    hide Isolated;
    var c := Code(hash);
    CodeIsolates(hash, n, [0]);
    CodeIsolates(hash, n, []);
    if Isolated(c, n) {
      IsolatedIsImmutable(c, n);
      IsolatedIsAlwaysVerified(c, n);
      IsolatedResumes(c, n);
      IsolatedSentOnce(c, n);
      IsolatedOwnersAlone(c, n);
    }
    if IsPartial(c, n) {
      PartialIsNotImmutable(c, n);
      PartialIsNotVerified(c, n);
      PartialDoesNotResume(c, n);
      PartialNotSentOnce(c, n);
      PartialsOwnersNotAlone(c, n);
    }
    if !PartialsRefused(n) {
      RewrittenIsNotImmutable(c, n);
      RewrittenIsNotVerified(c, n);
      UsurpedDoesNotResume(c, n);
      NeverSent(c, n);
      CreatedByStranger(c, n);
    }
    DurableIsBoth(c, n);
  }

  lemma DurableIsBoth(c: Config, n: Name)
    ensures Durable(c, n) <==> Immutable(c, n) && !SweepMatches(n)
    ensures !SweepMatches(n) ==> !IsPartial(c, n)
  {
    if SweepMatches(n) {
      SweptIsNotDurable(c, n);
    } else {
      PlainIsNoPartial(c, n);
      if Immutable(c, n) {
        PlainImmutableIsDurable(c, n);
      }
    }
    if Durable(c, n) {
      DurableIsImmutable(c, n);
    }
  }

  lemma DurableIsImmutable(c: Config, n: Name)
    requires Durable(c, n)
    ensures Immutable(c, n)
  {
    hide Init, SameEntry;
  }

  /** The runs above are runs of the code: every name whose partials the rules accept can be rewritten
      after its upload was told OK, also one that looks like no partial at all. */
  lemma CodeRewritesPlainNames(hash: bytes -> Digest, n: Name, b: byte)
    requires Storable(n) && !PartialsRefused(n)
    ensures var c := Code(hash); var p, s := EmptyPartial(c, n), Shared(c, n);
      && Init(c, Empty) && Reaches(c, Empty, s) && GotOk(s.sessions[2]) && s.sessions[2].name == n
      && Legal(c, s, Intrusion(3, p, hash([]), b))
      && Content(s, n) == [] && Content(Exec(c, s, Intrusion(3, p, hash([]), b)), n) == [b]
  {
    hide Storable, PartialName, Reaches, Init, Apply, Enabled;
    CodeIsolates(hash, n, []);
    PlainNameRewritten(Code(hash), n, b);
  }

  /** And the partial of every such name, stored as a file, is appended to by the name's next upload. */
  lemma CodeWritesThrough(hash: bytes -> Digest, m: Name, d: Digest, b: byte)
    requires Storable(m) && !PartialsRefused(m)
    ensures var c, n, acts := Code(hash), PartialName(m, d), Intrusion(1, m, d, b);
      && c.accepts(n) && Init(c, Holding(n)) && Legal(c, Holding(n).(serving := true), acts)
      && Content(Holding(n), n) == [] && Content(Exec(c, Holding(n).(serving := true), acts), n) == [b]
  {
    PartialAcceptedIff(m, Token(d));
    hide Storable, PartialOf, Init, Apply, Enabled;
    WrittenThrough(Code(hash), m, d, b);
  }

  const A: Name := [0x61]

  /** In the code as it is the file "a" can be rewritten after its upload was told OK, and so can the
      file that looks like its partial; one more test in the filename rules makes every file safe. */
  lemma FilenameRulesAreNotEnough(hash: bytes -> Digest)
    ensures Storable(A) && !Immutable(Code(hash), A)
    ensures var p := PartialName(A, hash([])); Storable(p) && !Immutable(Code(hash), p)
    ensures var c := Config(hash, n => Storable(n) && !SweepMatches(n)); forall n :: c.accepts(n) ==> Durable(c, n)
  {
    assert Storable(A) by {
      assert !HasDotDot(A);
    }
    CodeExactly(hash, A);
    CodeIsolates(hash, A, []);
    var p := PartialName(A, hash([]));
    assert IsPartial(Code(hash), p) by {
      assert Code(hash).accepts(A) && IsPartialOf(p, A);
    }
    hide Storable, Immutable, Durable, IsPartial, SweepMatches, PartialName;
    PartialIsNotImmutable(Code(hash), p);
    DurableIffSweepFree(Config(hash, n => Storable(n) && !SweepMatches(n)));
  }
}
