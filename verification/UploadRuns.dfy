/**
  Schedules put together from pieces, and with them the exact conditions: for each guarantee the
  names for which it holds, and a run of the protocol that breaks it for all others.
 */
module UploadRuns {
  import opened ByteOrder
  import opened Names
  import opened Uploads
  import opened UploadInvariant
  import opened UploadTheorems

  // ----- composing schedules

  /** Some legal schedule leads from one state to the other. */
  ghost predicate Reaches(c: Config, s: State, s': State) {
    exists acts :: Legal(c, s, acts) && Exec(c, s, acts) == s'
  }

  predicate Step(c: Config, s: State, a: Action, s': State) {
    Enabled(c, s, a) && Apply(c, s, a) == s'
  }

  lemma Unroll(c: Config, s: State, acts: seq<Action>)
    requires acts != [] && Enabled(c, s, acts[0]) && Legal(c, Apply(c, s, acts[0]), acts[1..])
    ensures Legal(c, s, acts) && Exec(c, s, acts) == Exec(c, Apply(c, s, acts[0]), acts[1..])
  {
  }

  /** Schedules compose. */
  lemma {:induction false} ExecConcat(c: Config, s: State, x: seq<Action>, y: seq<Action>)
    requires Legal(c, s, x) && Legal(c, Exec(c, s, x), y)
    ensures Legal(c, s, x + y) && Exec(c, s, x + y) == Exec(c, Exec(c, s, x), y)
    decreases |x|
  {
    hide Apply, Enabled;
    if x == [] {
      assert x + y == y;
    } else {
      ExecConcat(c, Apply(c, s, x[0]), x[1..], y);
      assert (x + y)[1..] == x[1..] + y;
      Unroll(c, s, x + y);
    }
  }

  lemma ReachesRefl(c: Config, s: State)
    ensures Reaches(c, s, s)
  {
    assert Legal(c, s, []) && Exec(c, s, []) == s;
  }

  lemma ReachesTrans(c: Config, s: State, mid: State, s': State)
    requires Reaches(c, s, mid) && Reaches(c, mid, s')
    ensures Reaches(c, s, s')
  {
    var x :| Legal(c, s, x) && Exec(c, s, x) == mid;
    var y :| Legal(c, mid, y) && Exec(c, mid, y) == s';
    ExecConcat(c, s, x, y);
  }

  lemma ReachesStep(c: Config, s: State, mid: State, a: Action, s': State)
    requires Reaches(c, s, mid) && Step(c, mid, a, s')
    ensures Reaches(c, s, s')
  {
    hide Apply, Enabled;
    assert Legal(c, s', []);
    Unroll(c, mid, [a]);
    assert Reaches(c, mid, s');
    hide Reaches;
    ReachesTrans(c, s, mid, s');
  }

  /** Three steps in a row. */
  lemma ThreeSteps(c: Config, s: State, x: Action, s1: State, y: Action, s2: State, z: Action, s3: State)
    requires Step(c, s, x, s1) && Step(c, s1, y, s2) && Step(c, s2, z, s3)
    ensures Legal(c, s, [x, y, z]) && Exec(c, s, [x, y, z]) == s3
    ensures Reaches(c, s, s3)
  {
    hide Apply, Enabled;
    assert Legal(c, s3, []) && [z][1..] == [] && [y, z][1..] == [z] && [x, y, z][1..] == [y, z];
    Unroll(c, s2, [z]);
    Unroll(c, s1, [y, z]);
    Unroll(c, s, [x, y, z]);
  }

  // ----- pieces of an upload

  /** The state with one more session between acquire and release. */
  function Entered(s: State, sid: Sid, ss: Session): State {
    Joined(s, sid, ss).(inFlight := s.inFlight + {ss.partial})
  }

  /** Begin, acquire, stat. */
  lemma Starts(c: Config, s: State, sid: Sid, n: Name, d: Digest, size: nat)
    requires s.serving && sid !in s.sessions && c.accepts(n) && size <= MAX_FILE_SIZE
    requires n !in s.dir && PartialName(n, d) !in s.inFlight && |Content(s, PartialName(n, d))| <= size
    ensures var p, acts := PartialName(n, d), [Begin(sid, n, d, size), Acquire(sid), Stat(sid)];
      var s' := Entered(s, sid, Session(n, d, size, p, Offered(|Content(s, p)|)));
      Legal(c, s, acts) && Exec(c, s, acts) == s' && Reaches(c, s, s')
  {
    hide PartialName, Reaches;
    var p := PartialName(n, d);
    var s1 := Joined(s, sid, Session(n, d, size, p, Checked));
    var s2 := Entered(s, sid, Session(n, d, size, p, Acquired));
    var s3 := Entered(s, sid, Session(n, d, size, p, Offered(|Content(s, p)|)));
    assert Step(c, s, Begin(sid, n, d, size), s1);
    assert Step(c, s1, Acquire(sid), s2);
    assert Step(c, s2, Stat(sid), s3);
    hide Step;
    ThreeSteps(c, s, Begin(sid, n, d, size), s1, Acquire(sid), s2, Stat(sid), s3);
  }

  /** The partial as it is after opening it. */
  function OpenedAt(s: State, sid: Sid, inode: Inode): State
    requires sid in s.sessions && s.sessions[sid].stage.Offered?
  {
    var ss := s.sessions[sid];
    if ss.partial in s.dir then SetStage(s, sid, Receiving(s.dir[ss.partial], ss.stage.offset, []))
    else SetStage(Created(s, ss.partial, inode), sid, Receiving(inode, ss.stage.offset, []))
  }

  /** The state after one byte has been received and written. */
  function OneMore(s: State, sid: Sid, b: byte): State
    requires sid in s.sessions && s.sessions[sid].stage.Offered? && s.sessions[sid].partial in s.dir
  {
    var fd := s.dir[s.sessions[sid].partial];
    SetStage(Append(s, fd, [b]), sid, Receiving(fd, s.sessions[sid].stage.offset + 1, []))
  }

  /** The state in between: received and not yet written. */
  function OneWaiting(s: State, sid: Sid, b: byte): State
    requires sid in s.sessions && s.sessions[sid].stage.Offered? && s.sessions[sid].partial in s.dir
  {
    SetStage(s, sid, Receiving(s.dir[s.sessions[sid].partial], s.sessions[sid].stage.offset + 1, [b]))
  }

  /** Open, and one byte is received and written. */
  lemma Appends(c: Config, s: State, sid: Sid, b: byte, inode: Inode)
    requires At(s, sid) && s.sessions[sid].stage.Offered? && s.sessions[sid].partial in s.dir && inode !in s.data
    requires s.dir[s.sessions[sid].partial] in s.data && s.sessions[sid].stage.offset < s.sessions[sid].size
    ensures var acts := [Open(sid, inode), Recv(sid, [b]), Flush(sid, 1)];
      Legal(c, s, acts) && Exec(c, s, acts) == OneMore(s, sid, b) && Reaches(c, s, OneMore(s, sid, b))
    ensures Reaches(c, s, OneWaiting(s, sid, b)) && Step(c, OneWaiting(s, sid, b), Flush(sid, 1), OneMore(s, sid, b))
  {
    hide Reaches;
    var fd, at := s.dir[s.sessions[sid].partial], s.sessions[sid].stage.offset;
    var s1 := SetStage(s, sid, Receiving(fd, at, []));
    var s2, s3 := OneWaiting(s, sid, b), OneMore(s, sid, b);
    assert [] + [b] == [b] && [b][..1] == [b] && [b][1..] == [];
    assert Step(c, s, Open(sid, inode), s1);
    assert Step(c, s1, Recv(sid, [b]), s2);
    assert Step(c, s2, Flush(sid, 1), s3);
    hide Step;
    ThreeSteps(c, s, Open(sid, inode), s1, Recv(sid, [b]), s2, Flush(sid, 1), s3);
    ReachesRefl(c, s);
    ReachesStep(c, s, s, Open(sid, inode), s1);
    ReachesStep(c, s, s1, Recv(sid, [b]), s2);
  }

  /** Open when all is there already, close, hash: the verdict on the partial. */
  lemma Hashes(c: Config, s: State, sid: Sid, inode: Inode)
    requires At(s, sid) && s.sessions[sid].stage.Offered? && inode !in s.data && Allocated(s)
    requires s.sessions[sid].stage.offset == s.sessions[sid].size
    ensures var ss, s1, acts := s.sessions[sid], OpenedAt(s, sid, inode), [Open(sid, inode), Close(sid), Hash(sid)];
      var s' := SetStage(s1, sid, if c.hash(Content(s1, ss.partial)) == ss.digest then Verified else Mismatch);
      Legal(c, s, acts) && Exec(c, s, acts) == s' && Reaches(c, s, s')
  {
    hide Reaches;
    var ss, s1 := s.sessions[sid], OpenedAt(s, sid, inode);
    var fd := s1.sessions[sid].stage.fd;
    var s2 := SetStage(s1, sid, Received);
    var s3 := SetStage(s1, sid, if c.hash(Content(s1, ss.partial)) == ss.digest then Verified else Mismatch);
    assert Step(c, s, Open(sid, inode), s1);
    assert s1.data[fd] + [] == s1.data[fd] && s1.data[fd := s1.data[fd]] == s1.data;
    assert Step(c, s1, Close(sid), s2);
    assert Step(c, s2, Hash(sid), s3);
    hide Step;
    ThreeSteps(c, s, Open(sid, inode), s1, Close(sid), s2, Hash(sid), s3);
  }

  /** Unlink, reply, release. */
  lemma CleansUp(c: Config, s: State, sid: Sid)
    requires At(s, sid) && s.sessions[sid].stage.Linked? && !Missing(s, sid)
    ensures Reaches(c, s, Unlocked(Remove(s, s.sessions[sid].partial), sid, Stored))
  {
    hide Reaches;
    var s1 := SetStage(Remove(s, s.sessions[sid].partial), sid, Replying(Stored));
    var s2 := SetStage(Remove(s, s.sessions[sid].partial), sid, Releasing(Stored));
    var s3 := Unlocked(Remove(s, s.sessions[sid].partial), sid, Stored);
    assert Step(c, s, Unlink(sid), s1);
    assert Step(c, s1, Reply(sid), s2);
    assert Step(c, s2, Release(sid), s3);
    hide Step;
    ThreeSteps(c, s, Unlink(sid), s1, Reply(sid), s2, Release(sid), s3);
  }

  // ----- whole uploads of a file that is all there, the empty file in particular

  function EmptyPartial(c: Config, n: Name): Name {
    PartialName(n, c.hash([]))
  }

  /** The upload of g, all of it in the partial already, up to the link. */
  function HeldLinked(c: Config, s: State, sid: Sid, n: Name, g: bytes, inode: Inode): State {
    var p := PartialName(n, c.hash(g));
    var fd := if p in s.dir then s.dir[p] else inode;
    State(true, s.dir[p := fd][n := fd], if p in s.dir then s.data else s.data[inode := []], s.inFlight + {p},
          s.sessions[sid := Session(n, c.hash(g), |g|, p, Linked)], s.published[n := sid])
  }

  function EmptyLinked(c: Config, s: State, sid: Sid, n: Name, inode: Inode): State {
    HeldLinked(c, s, sid, n, [], inode)
  }

  /** And to the end. */
  function EmptyStored(c: Config, s: State, sid: Sid, n: Name, inode: Inode): State {
    var p, s' := EmptyPartial(c, n), EmptyLinked(c, s, sid, n, inode);
    s'.(dir := s'.dir - {p}, inFlight := s'.inFlight - {p},
        sessions := s.sessions[sid := Session(n, c.hash([]), 0, p, Done(Stored))])
  }

  /** Nothing stands in the way of the upload. */
  ghost predicate Free(c: Config, s: State, sid: Sid, n: Name, g: bytes, inode: Inode) {
    && s.serving && Allocated(s) && sid !in s.sessions && inode !in s.data && |g| <= MAX_FILE_SIZE
    && c.accepts(n) && n !in s.dir
    && PartialName(n, c.hash(g)) !in s.inFlight && Content(s, PartialName(n, c.hash(g))) == g
  }

  /** Its schedule up to the verdict, and up to the link. */
  function Verification(c: Config, sid: Sid, n: Name, g: bytes, inode: Inode): seq<Action> {
    [Begin(sid, n, c.hash(g), |g|), Acquire(sid), Stat(sid)] + [Open(sid, inode), Close(sid), Hash(sid)]
  }

  function Publication(c: Config, sid: Sid, n: Name, g: bytes, inode: Inode): seq<Action> {
    Verification(c, sid, n, g, inode) + [Link(sid)]
  }

  /** The state at the offer, and at the verdict. */
  function HeldOffered(c: Config, s: State, sid: Sid, n: Name, g: bytes): State {
    Entered(s, sid, Session(n, c.hash(g), |g|, PartialName(n, c.hash(g)), Offered(|g|)))
  }

  function HeldVerified(c: Config, s: State, sid: Sid, n: Name, g: bytes, inode: Inode): State {
    SetStage(OpenedAt(HeldOffered(c, s, sid, n, g), sid, inode), sid, Verified)
  }

  lemma Verifies(c: Config, s: State, sid: Sid, n: Name, g: bytes, inode: Inode)
    requires Free(c, s, sid, n, g, inode)
    ensures var acts := Verification(c, sid, n, g, inode);
      Legal(c, s, acts) && Exec(c, s, acts) == HeldVerified(c, s, sid, n, g, inode)
    ensures HeldVerified(c, s, sid, n, g, inode).sessions[sid]
         == Session(n, c.hash(g), |g|, PartialName(n, c.hash(g)), Verified)
  {
    hide PartialName, Step, Reaches, Apply, Enabled, Legal, Exec;
    Starts(c, s, sid, n, c.hash(g), |g|);
    HeldContent(c, s, sid, n, g, inode);
    Hashes(c, HeldOffered(c, s, sid, n, g), sid, inode);
    hide Content, Free;
    ExecConcat(c, s, [Begin(sid, n, c.hash(g), |g|), Acquire(sid), Stat(sid)],
               [Open(sid, inode), Close(sid), Hash(sid)]);
  }

  lemma HeldContent(c: Config, s: State, sid: Sid, n: Name, g: bytes, inode: Inode)
    requires Free(c, s, sid, n, g, inode)
    ensures Content(OpenedAt(HeldOffered(c, s, sid, n, g), sid, inode), PartialName(n, c.hash(g))) == g
  {
    hide PartialName;
  }

  lemma Publishes(c: Config, s: State, sid: Sid, n: Name, g: bytes, inode: Inode)
    requires Free(c, s, sid, n, g, inode)
    ensures var acts := Publication(c, sid, n, g, inode);
      Legal(c, s, acts) && Exec(c, s, acts) == HeldLinked(c, s, sid, n, g, inode)
    ensures Reaches(c, s, HeldLinked(c, s, sid, n, g, inode))
  {
    hide PartialName, Step, Apply, Enabled, HeldLinked, HeldVerified, Verification, Free;
    Verifies(c, s, sid, n, g, inode);
    HeldLinks(c, s, sid, n, g, inode);
    OneStep(c, HeldVerified(c, s, sid, n, g, inode), Link(sid), HeldLinked(c, s, sid, n, g, inode));
    ExecConcat(c, s, Verification(c, sid, n, g, inode), [Link(sid)]);
  }

  lemma OneStep(c: Config, s: State, a: Action, s': State)
    requires Step(c, s, a, s')
    ensures Legal(c, s, [a]) && Exec(c, s, [a]) == s'
  {
    hide Apply, Enabled;
    assert Legal(c, s', []);
    Unroll(c, s, [a]);
  }

  lemma HeldLinks(c: Config, s: State, sid: Sid, n: Name, g: bytes, inode: Inode)
    requires Free(c, s, sid, n, g, inode)
    ensures Step(c, HeldVerified(c, s, sid, n, g, inode), Link(sid), HeldLinked(c, s, sid, n, g, inode))
  {
    HeldReady(c, s, sid, n, g, inode);
    hide PartialName, Step, Content, Free, HeldLinked, HeldVerified;
    LinkStep(c, HeldVerified(c, s, sid, n, g, inode), sid);
  }

  lemma HeldReady(c: Config, s: State, sid: Sid, n: Name, g: bytes, inode: Inode)
    requires Free(c, s, sid, n, g, inode)
    ensures var s2 := HeldVerified(c, s, sid, n, g, inode);
      && At(s2, sid) && s2.sessions[sid].stage.Verified? && !Missing(s2, sid) && s2.sessions[sid].name !in s2.dir
      && Published(s2, sid) == HeldLinked(c, s, sid, n, g, inode)
  {
    PartialIsLonger(n, c.hash(g));
    hide PartialName, Content;
  }

  lemma LinkStep(c: Config, s: State, sid: Sid)
    requires At(s, sid) && s.sessions[sid].stage.Verified? && !Missing(s, sid) && s.sessions[sid].name !in s.dir
    ensures Step(c, s, Link(sid), Published(s, sid))
  {
  }

  lemma PartialIsLonger(m: Name, digest: Digest)
    ensures |PartialName(m, digest)| == |m| + 23
  {
  }

  lemma Stores(c: Config, s: State, sid: Sid, n: Name, inode: Inode)
    requires Free(c, s, sid, n, [], inode)
    ensures Reaches(c, s, EmptyStored(c, s, sid, n, inode))
  {
    hide Reaches, PartialName, Step, Content, Legal, Exec;
    var s1 := EmptyLinked(c, s, sid, n, inode);
    Publishes(c, s, sid, n, [], inode);
    CleansUp(c, s1, sid);
    assert Unlocked(Remove(s1, EmptyPartial(c, n)), sid, Stored) == EmptyStored(c, s, sid, n, inode);
    ReachesTrans(c, s, s1, EmptyStored(c, s, sid, n, inode));
  }

  // ----- staying bound

  /** Once bound, in every schedule from every starting directory, the name keeps its inode. */
  ghost predicate StaysBound(c: Config, n: Name) {
    forall s, before, after ::
      Init(c, s) && Legal(c, s, before) && Legal(c, Exec(c, s, before), after) && n in Exec(c, s, before).dir
      ==> SameBinding(Exec(c, s, before), Exec(c, Exec(c, s, before), after), n)
  }

  function Holding(n: Name): State {
    State(false, map[n := 0], map[0 := []], {}, map[], map[])
  }

  /** The next restart may sweep the name away. */
  lemma SweptAway(c: Config, n: Name)
    requires SweepMatches(n)
    ensures var acts := [Restart({n})];
      Init(c, Holding(n)) && Legal(c, Holding(n), acts) && n !in Exec(c, Holding(n), acts).dir
  {
    var s, acts := Holding(n), [Restart({n})];
    assert Legal(c, Apply(c, s, acts[0]), []);
    Unroll(c, s, acts);
  }

  /** On any server a name stays bound exactly when it does not match the sweep's glob. */
  lemma BoundIffNotSwept(c: Config, n: Name)
    ensures StaysBound(c, n) <==> !SweepMatches(n)
  {
    hide Init, SweepMatches, SameBinding, Apply, Enabled;
    if SweepMatches(n) {
      SweptAway(c, n);
      var s := Holding(n);
      assert Legal(c, s, []) && Exec(c, s, []) == s;
      assert !SameBinding(s, Exec(c, s, [Restart({n})]), n) by {
        NotBound(s, Exec(c, s, [Restart({n})]), n);
      }
    } else {
      forall s, before, after |
        Init(c, s) && Legal(c, s, before) && Legal(c, Exec(c, s, before), after) && n in Exec(c, s, before).dir
        ensures SameBinding(Exec(c, s, before), Exec(c, Exec(c, s, before), after), n)
      {
        InitIsTidy(c, s);
        RunKeepsTidy(c, s, before);
        BindingKeptAlong(c, Exec(c, s, before), after, n);
      }
    }
  }

  lemma NotBound(s: State, s': State, n: Name)
    requires n !in s'.dir
    ensures !SameBinding(s, s', n)
  {
  }

  // ----- one winner

  ghost predicate OnlyOneWins(c: Config, n: Name) {
    forall s, acts, i, j | Init(c, s) && Legal(c, s, acts) :: TwoOks(Exec(c, s, acts), n, i, j) ==> i == j
  }

  predicate TwoOks(s: State, n: Name, i: Sid, j: Sid) {
    && i in s.sessions && s.sessions[i].name == n && GotOk(s.sessions[i])
    && j in s.sessions && s.sessions[j].name == n && GotOk(s.sessions[j])
  }

  const Empty: State := State(false, map[], map[], {}, map[], map[])

  /** The server after its first upload, crash and restart, with or without the sweep of the file. */
  function Once(c: Config, n: Name, serving: bool, dir: map<Name, Inode>): State {
    State(serving, dir, map[0 := []], {}, map[1 := Session(n, c.hash([]), 0, EmptyPartial(c, n), Done(Stored))],
          map[n := 1])
  }

  lemma FirstUpload(c: Config, n: Name)
    requires c.accepts(n)
    ensures Free(c, Empty.(serving := true), 1, n, [], 0)
    ensures EmptyStored(c, Empty.(serving := true), 1, n, 0) == Once(c, n, true, map[n := 0])
    ensures Step(c, Empty, Restart({}), Empty.(serving := true))
  {
    PartialIsLonger(n, c.hash([]));
    hide PartialName;
  }

  lemma SweepBetween(c: Config, n: Name)
    requires SweepMatches(n)
    ensures Step(c, Once(c, n, true, map[n := 0]), Crash, Once(c, n, false, map[n := 0]))
    ensures Step(c, Once(c, n, false, map[n := 0]), Restart({n}), Once(c, n, true, map[]))
  {
    hide PartialName, SweepMatches;
  }

  lemma SecondUpload(c: Config, n: Name)
    requires c.accepts(n)
    ensures Free(c, Once(c, n, true, map[]), 2, n, [], 1)
    ensures TwoOks(EmptyStored(c, Once(c, n, true, map[]), 2, n, 1), n, 1, 2)
  {
    hide PartialName;
  }

  /** PUT, a restart that sweeps the name, PUT again: both are told OK. */
  lemma TwoWinners(c: Config, n: Name)
    requires c.accepts(n) && SweepMatches(n)
    ensures Init(c, Empty) && exists e :: Reaches(c, Empty, e) && TwoOks(e, n, 1, 2)
  {
    hide Reaches, Step, EmptyStored, Free, TwoOks, SweepMatches, Once;
    var s1, s2, s3, s4 := Empty.(serving := true), Once(c, n, true, map[n := 0]), Once(c, n, false, map[n := 0]),
                          Once(c, n, true, map[]);
    FirstUpload(c, n);
    SweepBetween(c, n);
    SecondUpload(c, n);
    ReachesRefl(c, Empty);
    ReachesStep(c, Empty, Empty, Restart({}), s1);
    Stores(c, s1, 1, n, 0);
    ReachesTrans(c, Empty, s1, s2);
    ReachesStep(c, Empty, s2, Crash, s3);
    ReachesStep(c, Empty, s3, Restart({n}), s4);
    Stores(c, s4, 2, n, 1);
    ReachesTrans(c, Empty, s4, EmptyStored(c, s4, 2, n, 1));
  }

  /** On any server an accepted name has at most one winner exactly when the sweep does not match it. */
  lemma OneWinnerIff(c: Config, n: Name)
    requires c.accepts(n)
    ensures OnlyOneWins(c, n) <==> !SweepMatches(n)
  {
    hide Init, SweepMatches, Apply, Enabled;
    if SweepMatches(n) {
      TwoWinners(c, n);
      var e :| Reaches(c, Empty, e) && TwoOks(e, n, 1, 2);
      var acts :| Legal(c, Empty, acts) && Exec(c, Empty, acts) == e;
    } else {
      forall s, acts, i, j | Init(c, s) && Legal(c, s, acts) && TwoOks(Exec(c, s, acts), n, i, j)
        ensures i == j
      {
        OneWinner(c, s, acts, i, j);
      }
    }
  }

  // ----- losers

  predicate IsBeaten(s: State, sid: Sid, n: Name) {
    Beaten(s, sid) && s.sessions[sid].name == n
  }

  ghost predicate LosersLose(c: Config, n: Name) {
    forall s, before, after, i | Init(c, s) && Legal(c, s, before) && Legal(c, Exec(c, s, before), after) ::
      IsBeaten(Exec(c, s, before), i, n) ==> Beaten(Exec(c, Exec(c, s, before), after), i)
  }

  /** The uploads of a name n and of a name m whose partial is n, when the first is verified and the
      second has just opened its partial: the name n is taken, by somebody's partial. */
  function Crossing(c: Config, n: Name, m: Name, d: Digest, dir: map<Name, Inode>, stage: Stage): State {
    State(true, dir, map[0 := [], 1 := []], {EmptyPartial(c, n), n},
          map[1 := Session(n, c.hash([]), 0, EmptyPartial(c, n), Verified), 2 := Session(m, d, 0, n, stage)], map[])
  }

  function Waiting(c: Config, n: Name, dir: map<Name, Inode>, data: map<Inode, bytes>, stage: Stage): State {
    var p := EmptyPartial(c, n);
    State(true, dir, data, {p}, map[1 := Session(n, c.hash([]), 0, p, stage)], map[])
  }

  /** The first upload is verified before anyone has the name. */
  lemma FirstVerified(c: Config, n: Name)
    requires c.accepts(n)
    ensures Reaches(c, Empty, Waiting(c, n, map[EmptyPartial(c, n) := 0], map[0 := []], Verified))
  {
    hide Reaches, PartialName;
    var s0, p := Empty.(serving := true), EmptyPartial(c, n);
    var s1 := Waiting(c, n, map[], map[], Offered(0));
    ReachesRefl(c, Empty);
    ReachesStep(c, Empty, Empty, Restart({}), s0);
    Starts(c, s0, 1, n, c.hash([]), 0);
    assert Entered(s0, 1, Session(n, c.hash([]), 0, p, Offered(0))) == s1;
    Hashes(c, s1, 1, 0);
    assert SetStage(OpenedAt(s1, 1, 0), 1, Verified) == Waiting(c, n, map[p := 0], map[0 := []], Verified);
    hide Step, Apply, Enabled;
    ReachesTrans(c, Empty, s0, s1);
    ReachesTrans(c, Empty, s1, Waiting(c, n, map[p := 0], map[0 := []], Verified));
  }

  /** The second upload puts its partial under the name. */
  lemma SecondOpens(c: Config, n: Name, m: Name, d: Digest)
    requires c.accepts(m) && n == PartialName(m, d)
    ensures var p := EmptyPartial(c, n);
      Reaches(c, Waiting(c, n, map[p := 0], map[0 := []], Verified),
              Crossing(c, n, m, d, map[p := 0, n := 1], Receiving(1, 0, [])))
  {
    var p := EmptyPartial(c, n);
    PartialIsLonger(m, d);
    PartialIsLonger(n, c.hash([]));
    hide Reaches, PartialName;
    var s1 := Waiting(c, n, map[p := 0], map[0 := []], Verified);
    var s2 := Entered(s1, 2, Session(m, d, 0, n, Offered(0)));
    var s3 := Crossing(c, n, m, d, map[p := 0, n := 1], Receiving(1, 0, []));
    Starts(c, s1, 2, m, d, 0);
    assert Step(c, s2, Open(2, 1), s3);
    hide Step;
    ReachesStep(c, s1, s2, Open(2, 1), s3);
  }

  lemma SecondCloses(c: Config, n: Name, m: Name, d: Digest)
    ensures var dir := map[EmptyPartial(c, n) := 0, n := 1];
      Step(c, Crossing(c, n, m, d, dir, Receiving(1, 0, [])), Close(2), Crossing(c, n, m, d, dir, Received))
  {
    hide PartialName, Content;
  }

  lemma SecondRemoved(c: Config, n: Name, m: Name, d: Digest)
    requires d != c.hash([])
    ensures var dir := map[EmptyPartial(c, n) := 0, n := 1];
      && Step(c, Crossing(c, n, m, d, dir, Received), Hash(2), Crossing(c, n, m, d, dir, Mismatch))
      && Step(c, Crossing(c, n, m, d, dir, Mismatch), Unlink(2),
              Crossing(c, n, m, d, map[EmptyPartial(c, n) := 0], Replying(Corrupt)))
  {
    PartialIsLonger(n, c.hash([]));
    hide PartialName;
  }

  /** It is found corrupt and removed, and the name is free again. */
  lemma SecondFails(c: Config, n: Name, m: Name, d: Digest)
    requires d != c.hash([])
    ensures var p := EmptyPartial(c, n);
      Reaches(c, Crossing(c, n, m, d, map[p := 0, n := 1], Receiving(1, 0, [])),
              Crossing(c, n, m, d, map[p := 0], Replying(Corrupt)))
  {
    hide Reaches, PartialName, Step, Crossing;
    var p := EmptyPartial(c, n);
    var s1 := Crossing(c, n, m, d, map[p := 0, n := 1], Receiving(1, 0, []));
    var s2 := Crossing(c, n, m, d, map[p := 0, n := 1], Received);
    var s3 := Crossing(c, n, m, d, map[p := 0, n := 1], Mismatch);
    SecondCloses(c, n, m, d);
    SecondRemoved(c, n, m, d);
    ReachesRefl(c, s1);
    ReachesStep(c, s1, s1, Close(2), s2);
    ReachesStep(c, s1, s2, Hash(2), s3);
    ReachesStep(c, s1, s3, Unlink(2), Crossing(c, n, m, d, map[p := 0], Replying(Corrupt)));
  }

  /** So the beaten session links after all. */
  lemma LoserLinks(c: Config, n: Name, m: Name, d: Digest)
    requires n == PartialName(m, d)
    ensures var p := EmptyPartial(c, n); var s := Crossing(c, n, m, d, map[p := 0], Replying(Corrupt));
      Enabled(c, s, Link(1)) && !Beaten(Apply(c, s, Link(1)), 1)
  {
    PartialIsLonger(n, c.hash([]));
    hide PartialName;
  }

  /** A digest with a given token that is not the empty file's. */
  lemma OtherDigest(c: Config, t: bytes) returns (d: Digest)
    requires |t| == TOKEN_SIZE
    ensures Token(d) == t && d != c.hash([])
  {
    var zeros, ones := t + seq(24, _ => 0), t + seq(24, _ => 1);
    assert zeros[8] == 0 && ones[8] == 1;
    d := if zeros != c.hash([]) then zeros else ones;
  }

  lemma LoserWins(c: Config, n: Name)
    requires c.accepts(n) && IsPartial(c, n)
    ensures !LosersLose(c, n)
  {
    var m :| c.accepts(m) && IsPartialOf(n, m);
    var t: bytes :| |t| == TOKEN_SIZE && n == PartialOf(m, t);
    var d := OtherDigest(c, t);
    LoserWinsOver(c, n, m, d);
  }

  lemma LoserWinsOver(c: Config, n: Name, m: Name, d: Digest)
    requires c.accepts(n) && c.accepts(m) && n == PartialName(m, d) && d != c.hash([])
    ensures !LosersLose(c, n)
  {
    var p := EmptyPartial(c, n);
    var s1, s2 := Waiting(c, n, map[p := 0], map[0 := []], Verified),
                  Crossing(c, n, m, d, map[p := 0, n := 1], Receiving(1, 0, []));
    var s3 := Crossing(c, n, m, d, map[p := 0], Replying(Corrupt));
    assert IsBeaten(s2, 1, n);
    hide Reaches, Init, PartialName, Crossing, Waiting, Apply, Enabled, IsBeaten, Beaten, LosersLose;
    FirstVerified(c, n);
    SecondOpens(c, n, m, d);
    SecondFails(c, n, m, d);
    LoserLinks(c, n, m, d);
    ReachesTrans(c, Empty, s1, s2);
    LinkAfter(c, s2, s3);
    EmptyIsInit(c);
    NotAlways(c, n, s2, Apply(c, s3, Link(1)));
  }

  lemma LinkAfter(c: Config, s: State, s': State)
    requires Reaches(c, s, s') && Enabled(c, s', Link(1))
    ensures Reaches(c, s, Apply(c, s', Link(1)))
  {
    hide Reaches, Apply, Enabled;
    ReachesStep(c, s, s', Link(1), Apply(c, s', Link(1)));
  }

  lemma EmptyIsInit(c: Config)
    ensures Init(c, Empty)
  {
  }

  lemma NotAlways(c: Config, n: Name, mid: State, e: State)
    requires Init(c, Empty) && Reaches(c, Empty, mid) && Reaches(c, mid, e)
    requires IsBeaten(mid, 1, n) && !Beaten(e, 1)
    ensures !LosersLose(c, n)
  {
    hide Init, Beaten;
    var before :| Legal(c, Empty, before) && Exec(c, Empty, before) == mid;
    var after :| Legal(c, mid, after) && Exec(c, mid, after) == e;
  }

  /** On any server the losers of a name lose for good exactly when the name is no accepted name's partial. */
  lemma LosersLoseIff(c: Config, n: Name)
    requires c.accepts(n)
    ensures LosersLose(c, n) <==> !IsPartial(c, n)
  {
    if IsPartial(c, n) {
      LoserWins(c, n);
    } else {
      hide Init, IsPartial, Beaten;
      forall s, before, after, i |
        && Init(c, s) && Legal(c, s, before) && Legal(c, Exec(c, s, before), after)
        && IsBeaten(Exec(c, s, before), i, n)
        ensures Beaten(Exec(c, Exec(c, s, before), after), i)
      {
        InitIsTidy(c, s);
        RunKeepsTidy(c, s, before);
        LosersNeverWin(c, Exec(c, s, before), after, i);
      }
    }
  }
}
