/**
  Resuming an upload: if everyone who uploads under one partial holds the same file, the partial is
  always a prefix of that file, and every byte accepted is either held or accounted for as lost.
 */
module UploadResume {
  import opened ByteOrder
  import opened Names
  import opened Uploads
  import opened UploadInvariant
  import opened UploadTheorems

  // ----- uploaders of the same file

  /** The client of `rtrv_do_put`: states the file's size and hash, then sends the file's bytes from
      the offered offset on, in order. Clients of other partials are free to send anything. */
  predicate Honest(c: Config, s: State, a: Action, p: Name, f: bytes)
    requires Enabled(c, s, a)
  {
    match a
    case Begin(_, name, digest, size) => PartialName(name, digest) == p ==> size == |f| && digest == c.hash(f)
    case Recv(sid, chunk) =>
      s.sessions[sid].partial == p ==>
        var at := s.sessions[sid].stage.written;
        at + |chunk| <= |f| && chunk == f[at..at + |chunk|]
    case _ => true
  }

  predicate HonestRun(c: Config, s: State, acts: seq<Action>, p: Name, f: bytes)
    requires Legal(c, s, acts)
    decreases |acts|
  {
    acts == [] || (Honest(c, s, acts[0], p, f) && HonestRun(c, Apply(c, s, acts[0]), acts[1..], p, f))
  }

  /** What has arrived is the file up to the point the session has reached. */
  ghost predicate OnTrack(c: Config, s: State, sid: Sid, f: bytes) {
    && sid in s.sessions
    && var ss := s.sessions[sid];
    && ss.size == |f| && ss.digest == c.hash(f)
    && !ss.stage.Oversize? && !ss.stage.Mismatch?
    && (ss.stage.Replying? || ss.stage.Releasing? || ss.stage.Done? ==> !ss.stage.outcome.Corrupt?)
    && (ss.stage.Receiving? ==>
          ss.stage.written <= |f| && Content(s, ss.partial) + ss.stage.buf == f[..ss.stage.written])
  }

  ghost predicate Resumable(c: Config, s: State, p: Name, f: bytes) {
    && Content(s, p) <= f
    && forall sid :: sid in s.sessions && s.sessions[sid].partial == p ==> OnTrack(c, s, sid, f)
  }

  // ----- the owner's own steps

  lemma RecvOnTrack(c: Config, s: State, sid: Sid, chunk: bytes, f: bytes)
    requires sid in s.sessions && s.sessions[sid].stage.Receiving? && OnTrack(c, s, sid, f)
    requires var at := s.sessions[sid].stage.written; at + |chunk| <= |f| && chunk == f[at..at + |chunk|]
    ensures var st := s.sessions[sid].stage;
      OnTrack(c, SetStage(s, sid, Receiving(st.fd, st.written + |chunk|, st.buf + chunk)), sid, f)
  {
    var st := s.sessions[sid].stage;
    var held := Content(s, s.sessions[sid].partial);
    assert held + (st.buf + chunk) == f[..st.written] + chunk == f[..st.written + |chunk|];
  }

  lemma FlushOnTrack(c: Config, s: State, sid: Sid, count: nat, f: bytes)
    requires sid in s.sessions && s.sessions[sid].stage.Receiving? && OnTrack(c, s, sid, f)
    requires StageOk(c, s, sid) && Allocated(s) && count <= |s.sessions[sid].stage.buf|
    ensures var st, p := s.sessions[sid].stage, s.sessions[sid].partial;
      var s' := Append(s, st.fd, st.buf[..count]);
      && Content(s', p) == f[..st.written - |st.buf| + count]
      && OnTrack(c, SetStage(s', sid, Receiving(st.fd, st.written, st.buf[count..])), sid, f)
  {
    var st, p := s.sessions[sid].stage, s.sessions[sid].partial;
    var held := Content(s, p);
    assert held + st.buf[..count] + st.buf[count..] == held + st.buf == f[..st.written];
    assert held + st.buf[..count] == (held + st.buf)[..|held| + count];
  }

  /** Closing writes the whole buffer out, at the end of the file or when the connection breaks. */
  lemma CloseOnTrack(c: Config, s: State, sid: Sid, stage: Stage, f: bytes)
    requires sid in s.sessions && s.sessions[sid].stage.Receiving? && OnTrack(c, s, sid, f)
    requires StageOk(c, s, sid) && Allocated(s) && (stage == Received || stage == Releasing(Dropped))
    ensures var s' := SetStage(Append(s, s.sessions[sid].stage.fd, s.sessions[sid].stage.buf), sid, stage);
      OnTrack(c, s', sid, f) && Content(s', s.sessions[sid].partial) <= f
  {
    var st := s.sessions[sid].stage;
    FlushOnTrack(c, s, sid, |st.buf|, f);
    assert st.buf[..|st.buf|] == st.buf;
  }

  lemma RecvStepOnTrack(c: Config, s: State, a: Action, sid: Sid, f: bytes)
    requires Enabled(c, s, a) && a.Recv? && a.sid == sid && Honest(c, s, a, s.sessions[sid].partial, f)
    requires OnTrack(c, s, sid, f) && Content(s, s.sessions[sid].partial) <= f
    ensures OnTrack(c, Apply(c, s, a), sid, f) && Content(Apply(c, s, a), s.sessions[sid].partial) <= f
  {
    hide OnTrack;
    RecvOnTrack(c, s, sid, a.chunk, f);
  }

  lemma WriteStepOnTrack(c: Config, s: State, a: Action, sid: Sid, f: bytes)
    requires Enabled(c, s, a) && (a.Flush? || a.Close? || a.Abort?) && a.sid == sid && s.sessions[sid].stage.Receiving?
    requires StageOk(c, s, sid) && Allocated(s) && OnTrack(c, s, sid, f)
    ensures OnTrack(c, Apply(c, s, a), sid, f) && Content(Apply(c, s, a), s.sessions[sid].partial) <= f
  {
    hide OnTrack, StageOk;
    match a
    case Flush(_, count) => FlushOnTrack(c, s, sid, count, f);
    case Close(_) => CloseOnTrack(c, s, sid, Received, f);
    case _ => CloseOnTrack(c, s, sid, Releasing(Dropped), f);
  }

  /** Recv, Flush, Close, and Abort while receiving. */
  lemma ReceivingStepOnTrack(c: Config, s: State, a: Action, sid: Sid, f: bytes)
    requires sid in s.sessions && Inv(c, s, s.sessions[sid].name) && Enabled(c, s, a) && ActsFor(a, sid)
    requires s.sessions[sid].stage.Receiving? && Honest(c, s, a, s.sessions[sid].partial, f)
    requires OnTrack(c, s, sid, f) && Content(s, s.sessions[sid].partial) <= f
    ensures OnTrack(c, Apply(c, s, a), sid, f) && Content(Apply(c, s, a), s.sessions[sid].partial) <= f
  {
    hide Inv, Named, OnTrack, StageOk, Apply, Honest, Content;
    SessionFacts(c, s, sid);
    if a.Recv? {
      RecvStepOnTrack(c, s, a, sid, f);
    } else {
      WriteStepOnTrack(c, s, a, sid, f);
    }
  }

  /** The steps before and after receiving. */
  lemma OtherStepOnTrack(c: Config, s: State, a: Action, sid: Sid, f: bytes)
    requires sid in s.sessions && Inv(c, s, s.sessions[sid].name) && Enabled(c, s, a) && ActsFor(a, sid)
    requires !s.sessions[sid].stage.Receiving?
    requires OnTrack(c, s, sid, f) && Content(s, s.sessions[sid].partial) <= f
    ensures OnTrack(c, Apply(c, s, a), sid, f) && Content(Apply(c, s, a), s.sessions[sid].partial) <= f
  {
    hide Inv, PartialName, IsPartialOf, IsPartial, StageOk, OnTrack;
    SessionFacts(c, s, sid);
    if IsQuiet(a) {
      QuietStepOnTrack(c, s, a, sid, f);
    } else {
      FileStepOnTrack(c, s, a, sid, f);
    }
    hide Apply, Enabled;
  }

  lemma QuietStepOnTrack(c: Config, s: State, a: Action, sid: Sid, f: bytes)
    requires sid in s.sessions && Enabled(c, s, a) && ActsFor(a, sid) && IsQuiet(a) && !s.sessions[sid].stage.Receiving?
    requires StageOk(c, s, sid) && OnTrack(c, s, sid, f) && Content(s, s.sessions[sid].partial) <= f
    ensures OnTrack(c, Apply(c, s, a), sid, f) && Content(Apply(c, s, a), s.sessions[sid].partial) <= f
  {
    hide PartialName;
    var p := s.sessions[sid].partial;
    if a.Hash? {
      assert Content(s, p) == f;
    }
  }

  lemma FileStepOnTrack(c: Config, s: State, a: Action, sid: Sid, f: bytes)
    requires sid in s.sessions && Enabled(c, s, a) && ActsFor(a, sid)
    requires !IsQuiet(a) && !s.sessions[sid].stage.Receiving?
    requires StageOk(c, s, sid) && Named(c, s.sessions[sid])
    requires OnTrack(c, s, sid, f) && Content(s, s.sessions[sid].partial) <= f
    ensures OnTrack(c, Apply(c, s, a), sid, f) && Content(Apply(c, s, a), s.sessions[sid].partial) <= f
  {
    hide PartialName, IsPartialOf, IsPartial;
    var p := s.sessions[sid].partial;
    assert Content(s, p) + [] == Content(s, p) == f[..|Content(s, p)|];
  }

  lemma OwnStepOnTrack(c: Config, s: State, a: Action, sid: Sid, f: bytes)
    requires sid in s.sessions && Inv(c, s, s.sessions[sid].name) && Enabled(c, s, a) && ActsFor(a, sid)
    requires Honest(c, s, a, s.sessions[sid].partial, f) && Resumable(c, s, s.sessions[sid].partial, f)
    ensures OnTrack(c, Apply(c, s, a), sid, f) && Content(Apply(c, s, a), s.sessions[sid].partial) <= f
  {
    hide Inv, PartialName, OnTrack, Apply, Enabled;
    if s.sessions[sid].stage.Receiving? {
      ReceivingStepOnTrack(c, s, a, sid, f);
    } else {
      OtherStepOnTrack(c, s, a, sid, f);
    }
  }

  // ----- everybody's steps

  /** The sessions of a partial are sessions of the name it is the partial of. */
  lemma PartialsSession(c: Config, s: State, n: Name, p: Name, i: Sid)
    requires Inv(c, s, n) && IsPartialOf(p, n) && i in s.sessions && s.sessions[i].partial == p
    ensures s.sessions[i].name == n
  {
    hide IsPartialOf, IsPartial, PartialName, LinksOk, StagesOk, NoStaleLink, ForeignFiles, PublishedOk, LockOk;
    assert Named(c, s.sessions[i]);
  }

  /** A session of the partial that is not the one acting. */
  lemma BystanderOnTrack(c: Config, s: State, a: Action, n: Name, p: Name, i: Sid, f: bytes)
    requires Unnested(c, n) && Inv(c, s, n) && IsPartialOf(p, n) && Enabled(c, s, a)
    requires i in s.sessions && s.sessions[i].partial == p && !ActsFor(a, i) && OnTrack(c, s, i, f)
    ensures OnTrack(c, Apply(c, s, a), i, f)
  {
    hide Inv, PartialName, IsPartialOf, IsPartial, Unnested;
    if !a.Crash? {
      OthersUnmoved(c, s, a, i);
      if s.sessions[i].stage.Receiving? {
        BystanderEntryKept(c, s, a, n, p, i);
      }
      hide Apply, Enabled;
    }
  }

  lemma BystanderEntryKept(c: Config, s: State, a: Action, n: Name, p: Name, i: Sid)
    requires Unnested(c, n) && Inv(c, s, n) && IsPartialOf(p, n) && Enabled(c, s, a)
    requires i in s.sessions && s.sessions[i].partial == p && !ActsFor(a, i)
    requires s.sessions[i].stage.Receiving?
    ensures Content(Apply(c, s, a), p) == Content(s, p)
  {
    hide LinksOk, StagesOk, NoStaleLink, ForeignFiles, PublishedOk, InFlightExact, Named, Unnested, IsPartialOf;
    assert Owner(s, p, i) && s.serving;
    OnlyOwnerTouches(c, s, a, n, p);
  }

  /** The partial's bytes stay a prefix whoever acts. */
  lemma PrefixKept(c: Config, s: State, a: Action, n: Name, p: Name, f: bytes)
    requires Unnested(c, n) && Inv(c, s, n) && IsPartialOf(p, n) && Enabled(c, s, a)
    requires Resumable(c, s, p, f) && Honest(c, s, a, p, f)
    ensures Content(Apply(c, s, a), p) <= f
  {
    hide Inv, PartialName, IsPartialOf, IsPartial, OnTrack, Named, Unnested;
    if s.serving {
      OnlyOwnerTouches(c, s, a, n, p);
      if !SameEntry(s, Apply(c, s, a), p) {
        var sid :| Owner(s, p, sid) && ActsFor(a, sid);
        hide Apply, Enabled;
        PartialsSession(c, s, n, p, sid);
        OwnStepOnTrack(c, s, a, sid, f);
      }
    }
  }

  lemma NewcomerOnTrack(c: Config, s: State, a: Action, p: Name, f: bytes)
    requires Enabled(c, s, a) && Honest(c, s, a, p, f) && a.Begin? && Apply(c, s, a).sessions[a.sid].partial == p
    ensures OnTrack(c, Apply(c, s, a), a.sid, f)
  {
    hide PartialName;
  }

  lemma StepResumable(c: Config, s: State, a: Action, n: Name, p: Name, f: bytes)
    requires Unnested(c, n) && Inv(c, s, n) && IsPartialOf(p, n) && Enabled(c, s, a)
    requires Resumable(c, s, p, f) && Honest(c, s, a, p, f)
    ensures Resumable(c, Apply(c, s, a), p, f)
  {
    hide Inv, PartialName, OnTrack, Apply, Enabled, Honest, Unnested, IsPartialOf;
    var s' := Apply(c, s, a);
    PrefixKept(c, s, a, n, p, f);
    forall i | i in s'.sessions && s'.sessions[i].partial == p
      ensures OnTrack(c, s', i, f)
    {
      SessionAfter(c, s, a, i);
      if i !in s.sessions {
        NewcomerOnTrack(c, s, a, p, f);
      } else if ActsFor(a, i) {
        PartialsSession(c, s, n, p, i);
        OwnStepOnTrack(c, s, a, i, f);
      } else {
        BystanderOnTrack(c, s, a, n, p, i, f);
      }
    }
  }

  lemma {:induction false} RunResumable(c: Config, s: State, acts: seq<Action>, n: Name, p: Name, f: bytes)
    requires Unnested(c, n) && Inv(c, s, n) && IsPartialOf(p, n) && Legal(c, s, acts) && Avoids(acts, n)
    requires Resumable(c, s, p, f) && HonestRun(c, s, acts, p, f)
    ensures Resumable(c, Exec(c, s, acts), p, f)
    decreases |acts|
  {
    hide Inv, Resumable, Honest, Unnested, IsPartialOf, Allowed;
    if acts != [] {
      StepResumable(c, s, acts[0], n, p, f);
      StepKeeps(c, s, acts[0], n);
      RunResumable(c, Apply(c, s, acts[0]), acts[1..], n, p, f);
    }
  }

  /** Where the partial and its sessions stand. */
  ghost predicate Exact(e: State, p: Name, f: bytes) {
    && Content(e, p) <= f
    && forall sid :: sid in e.sessions && e.sessions[sid].partial == p ==>
         && (e.sessions[sid].stage.Offered? ==> e.sessions[sid].stage.offset == |Content(e, p)|)
         && !e.sessions[sid].stage.Mismatch?
         && e.sessions[sid].stage != Releasing(Corrupt) && e.sessions[sid].stage != Done(Corrupt)
  }

  /** Over any history of interrupted attempts by holders of the same file, and whatever everyone
      else does short of uploading the name's partials as files, the partial is a prefix of the
      file, the offered offset is its length, and no attempt ends in CORRUPT. */
  lemma ResumeIsExact(c: Config, s: State, acts: seq<Action>, n: Name, f: bytes)
    requires Init(c, s) && Legal(c, s, acts) && Unnested(c, n) && Avoids(acts, n)
    requires Content(s, PartialName(n, c.hash(f))) <= f
    requires HonestRun(c, s, acts, PartialName(n, c.hash(f)), f)
    ensures Exact(Exec(c, s, acts), PartialName(n, c.hash(f)), f)
  {
    hide Inv, Init, IsPartial, Avoids;
    var p, e := PartialName(n, c.hash(f)), Exec(c, s, acts);
    assert IsPartialOf(p, n);
    hide IsPartialOf, PartialName;
    assert Resumable(c, s, p, f) by {
      EmptyAtStart(c, s);
    }
    InitHasInv(c, s, n);
    RunResumable(c, s, acts, n, p, f);
    InvAlong(c, s, acts, n);
    forall sid | sid in e.sessions && e.sessions[sid].partial == p
      ensures StageOk(c, e, sid) && OnTrack(c, e, sid, f)
    {
      PartialsSession(c, e, n, p, sid);
      SessionFacts(c, e, sid);
    }
  }

  lemma EmptyAtStart(c: Config, s: State)
    requires Init(c, s)
    ensures s.sessions == map[]
  {
  }

  // ----- the ledger: every accepted byte is held or accounted for

  ghost predicate HoldsBuffer(s: State, p: Name, sid: Sid) {
    sid in s.sessions && s.sessions[sid].partial == p && s.sessions[sid].stage.Receiving?
  }

  /** Bytes accepted for the partial but not on disk yet. */
  ghost function Pending(s: State, p: Name): nat {
    if exists sid :: HoldsBuffer(s, p, sid) then
      var sid :| HoldsBuffer(s, p, sid);
      |s.sessions[sid].stage.buf|
    else 0
  }

  ghost function Held(s: State, p: Name): nat {
    |Content(s, p)| + Pending(s, p)
  }

  /** Bytes the action takes from the network into the partial. */
  function Gained(c: Config, s: State, a: Action, p: Name): nat
    requires Enabled(c, s, a)
  {
    if a.Recv? && s.sessions[a.sid].partial == p then |a.chunk| else 0
  }

  /** Bytes the action takes away: a crash loses what was buffered, a sweep the file; dropping an
      oversize partial, discarding a corrupt one or unlinking a published one removes its bytes. */
  ghost function Lost(c: Config, s: State, a: Action, p: Name): nat
    requires Enabled(c, s, a)
  {
    match a
    case Crash => Pending(s, p)
    case Restart(swept) => if p in swept then |Content(s, p)| else 0
    case DropOversize(sid) => if s.sessions[sid].partial == p then |Content(s, p)| else 0
    case Unlink(sid) => if s.sessions[sid].partial == p then |Content(s, p)| else 0
    case _ => 0
  }

  function TotalGained(c: Config, s: State, acts: seq<Action>, p: Name): nat
    requires Legal(c, s, acts)
    decreases |acts|
  {
    if acts == [] then 0
    else Gained(c, s, acts[0], p) + TotalGained(c, Apply(c, s, acts[0]), acts[1..], p)
  }

  ghost function TotalLost(c: Config, s: State, acts: seq<Action>, p: Name): nat
    requires Legal(c, s, acts)
    decreases |acts|
  {
    if acts == [] then 0
    else Lost(c, s, acts[0], p) + TotalLost(c, Apply(c, s, acts[0]), acts[1..], p)
  }

  /** What a schedule loses, it loses in its parts. */
  lemma {:induction false} LostInParts(c: Config, s: State, x: seq<Action>, y: seq<Action>, p: Name)
    requires Legal(c, s, x + y) && Legal(c, s, x) && Legal(c, Exec(c, s, x), y)
    ensures TotalLost(c, s, x + y, p) == TotalLost(c, s, x, p) + TotalLost(c, Exec(c, s, x), y, p)
    decreases |x|
  {
    hide Apply, Enabled, Lost;
    if x == [] {
      assert x + y == y;
    } else {
      assert (x + y)[1..] == x[1..] + y;
      LostInParts(c, Apply(c, s, x[0]), x[1..], y, p);
    }
  }

  function BufferSize(stage: Stage): nat {
    if stage.Receiving? then |stage.buf| else 0
  }

  /** With one writer per partial, the pending bytes are that writer's. */
  lemma OwnersPending(s: State, p: Name, sid: Sid)
    requires OneWriter(s) && Owner(s, p, sid)
    ensures Pending(s, p) == BufferSize(s.sessions[sid].stage)
  {
    assert s.sessions[sid].stage.Receiving? ==> HoldsBuffer(s, p, sid);
    assert forall i :: HoldsBuffer(s, p, i) ==> Owner(s, p, i);
  }

  /** Pending bytes are a matter of the partial's own receiving session. */
  lemma PendingKept(s: State, s': State, p: Name)
    requires OneWriter(s) && OneWriter(s')
    requires forall i :: HoldsBuffer(s', p, i) ==> HoldsBuffer(s, p, i)
    requires forall i :: HoldsBuffer(s, p, i) ==> i in s'.sessions && s'.sessions[i] == s.sessions[i]
    ensures Pending(s', p) == Pending(s, p)
  {
    if i :| HoldsBuffer(s, p, i) {
      assert HoldsBuffer(s', p, i) && Owner(s, p, i) && Owner(s', p, i);
      OwnersPending(s, p, i);
      OwnersPending(s', p, i);
    }
  }

  /** The step of the partial's owner: both sides of the ledger move together. */
  lemma OwnerBalances(c: Config, s: State, a: Action, p: Name, sid: Sid)
    requires Owner(s, p, sid) && Inv(c, s, s.sessions[sid].name)
    requires Enabled(c, s, a) && ActsFor(a, sid) && !a.Release?
    requires OneWriter(Apply(c, s, a))
    ensures Held(Apply(c, s, a), p) + Lost(c, s, a, p) == Held(s, p) + Gained(c, s, a, p)
  {
    hide LinksOk, StagesOk, NoStaleLink, ForeignFiles, PublishedOk, InFlightExact, StageOk, Named, Pending, AllNamed;
    hide Apply, Content, Allocated;
    SessionFacts(c, s, sid);
    OwnerCounts(c, s, a);
    SessionAfter(c, s, a, sid);
    WorkingStep(c, s, a);
    OwnersPending(s, p, sid);
    OwnersPending(Apply(c, s, a), p, sid);
  }

  /** What the owner's file and buffer hold, before and after its step. */
  lemma OwnerCounts(c: Config, s: State, a: Action)
    requires Enabled(c, s, a) && !a.Begin? && !a.Acquire? && !a.Release? && !a.Crash? && !a.Restart?
    requires StageOk(c, s, a.sid) && Allocated(s)
    ensures var s', p := Apply(c, s, a), s.sessions[a.sid].partial;
      && a.sid in s'.sessions
      && |Content(s', p)| + BufferSize(s'.sessions[a.sid].stage) + Lost(c, s, a, p)
         == |Content(s, p)| + BufferSize(s.sessions[a.sid].stage) + Gained(c, s, a, p)
  {
    hide PartialName, Pending;
  }

  lemma NothingPending(s: State, p: Name)
    requires forall i :: !HoldsBuffer(s, p, i)
    ensures Pending(s, p) == 0
  {
  }

  /** The partial's receiving session is not moved by anyone else. */
  lemma OthersPending(c: Config, s: State, a: Action, p: Name)
    requires Enabled(c, s, a) && OneWriter(s) && OneWriter(Apply(c, s, a)) && !a.Crash? && !a.Restart?
    requires a.Release? || !Owner(s, p, a.sid)
    ensures Pending(Apply(c, s, a), p) == Pending(s, p)
  {
    hide Apply, Pending, OneWriter;
    var s' := Apply(c, s, a);
    forall i
      ensures HoldsBuffer(s', p, i) ==> HoldsBuffer(s, p, i)
      ensures HoldsBuffer(s, p, i) ==> i in s'.sessions && s'.sessions[i] == s.sessions[i]
    {
      SessionAfter(c, s, a, i);
      if i in s.sessions && i != a.sid {
        OthersUnmoved(c, s, a, i);
      } else if HoldsBuffer(s', p, i) || HoldsBuffer(s, p, i) {
        BystandersHoldNothing(c, s, a, p);
      }
    }
    PendingKept(s, s', p);
  }

  lemma BystandersHoldNothing(c: Config, s: State, a: Action, p: Name)
    requires Enabled(c, s, a) && !a.Crash? && !a.Restart? && (a.Release? || !Owner(s, p, a.sid))
    ensures !HoldsBuffer(s, p, a.sid) && !HoldsBuffer(Apply(c, s, a), p, a.sid)
  {
    hide PartialName, Content, Missing;
  }

  /** Anyone else's step, a release included, leaves the partial's account as it is. */
  lemma OthersBalance(c: Config, s: State, a: Action, n: Name, p: Name)
    requires Unnested(c, n) && Inv(c, s, n) && IsPartialOf(p, n)
    requires Enabled(c, s, a) && !a.Crash? && !a.Restart?
    requires a.Release? || !Owner(s, p, a.sid)
    requires OneWriter(Apply(c, s, a))
    ensures Held(Apply(c, s, a), p) + Lost(c, s, a, p) == Held(s, p) + Gained(c, s, a, p)
  {
    hide LinksOk, StagesOk, NoStaleLink, ForeignFiles, PublishedOk, InFlightExact, Named, Pending;
    hide Unnested, IsPartialOf, Apply, AllNamed;
    var s' := Apply(c, s, a);
    assert SameEntry(s, s', p) by {
      if a.Release? {
        QuietTouchesNothing(c, s, a);
      } else {
        OnlyOwnerTouches(c, s, a, n, p);
      }
    }
    OthersPending(c, s, a, p);
  }

  lemma DownBalances(c: Config, s: State, a: Action, p: Name)
    requires LockOk(s) && Enabled(c, s, a) && (a.Crash? || a.Restart?)
    ensures Held(Apply(c, s, a), p) + Lost(c, s, a, p) == Held(s, p) + Gained(c, s, a, p)
  {
    hide InFlightExact, OneWriter, PartialName, Pending;
    var s' := Apply(c, s, a);
    if a.Crash? {
      NothingPending(s', p);
    } else {
      NothingPending(s, p);
      NothingPending(s', p);
    }
  }

  /** Conservation, one step: held before plus gained is held after plus lost. */
  lemma StepBalances(c: Config, s: State, a: Action, n: Name, p: Name)
    requires Unnested(c, n) && Inv(c, s, n) && IsPartialOf(p, n) && Enabled(c, s, a)
    ensures Held(Apply(c, s, a), p) + Lost(c, s, a, p) == Held(s, p) + Gained(c, s, a, p)
  {
    hide Apply, Enabled, Held, Lost, Gained, LinksOk, StagesOk, NoStaleLink, PublishedOk, ForeignFiles, AllNamed;
    hide Unnested, IsPartialOf, InFlightExact;
    StepKeepsTidy(c, s, a);
    if a.Crash? || a.Restart? {
      DownBalances(c, s, a, p);
    } else if a.Release? || !Owner(s, p, a.sid) {
      OthersBalance(c, s, a, n, p);
    } else {
      PartialsSession(c, s, n, p, a.sid);
      OwnerBalances(c, s, a, p, a.sid);
    }
  }

  /** Conservation over any schedule whatever, honest uploaders or not. */
  lemma {:induction false} LedgerBalances(c: Config, s: State, acts: seq<Action>, n: Name, p: Name)
    requires Unnested(c, n) && Inv(c, s, n) && IsPartialOf(p, n) && Legal(c, s, acts) && Avoids(acts, n)
    ensures Held(Exec(c, s, acts), p) + TotalLost(c, s, acts, p) == Held(s, p) + TotalGained(c, s, acts, p)
    decreases |acts|
  {
    hide Inv, Held, Lost, Gained, Unnested, IsPartialOf, Allowed;
    if acts != [] {
      StepBalances(c, s, acts[0], n, p);
      StepKeeps(c, s, acts[0], n);
      LedgerBalances(c, Apply(c, s, acts[0]), acts[1..], n, p);
    }
  }

  /** From the start of the server to a verified upload, over all attempts together, what was there
      and the bytes accepted are exactly the size of the file when none were lost, and never fewer. */
  lemma NoByteSentTwice(c: Config, s: State, acts: seq<Action>, sid: Sid)
    requires Init(c, s) && Legal(c, s, acts) && sid in Exec(c, s, acts).sessions
    requires Exec(c, s, acts).sessions[sid].stage.Verified?
    requires var n := Exec(c, s, acts).sessions[sid].name; !IsPartial(c, n) && Avoids(acts, n)
    ensures var e := Exec(c, s, acts); var p := e.sessions[sid].partial;
      |Content(s, p)| + TotalGained(c, s, acts, p) == e.sessions[sid].size + TotalLost(c, s, acts, p)
  {
    var e := Exec(c, s, acts);
    var n, p := e.sessions[sid].name, e.sessions[sid].partial;
    EmptyAtStart(c, s);
    NothingPending(s, p);
    InitIsTidy(c, s);
    hide LinksOk, StagesOk, NoStaleLink, PublishedOk, ForeignFiles, Undisturbed, InFlightExact, PartialName, Pending;
    hide Init, IsPartialOf, IsPartial, AllNamed, Avoids;
    RunKeepsTidy(c, s, acts);
    NameAccepted(c, e, sid);
    InitHasInv(c, s, n);
    InvAlong(c, s, acts, n);
    SessionFacts(c, e, sid);
    LedgerBalances(c, s, acts, n, p);
    assert Owner(e, p, sid);
    OwnersPending(e, p, sid);
  }

  lemma NameAccepted(c: Config, s: State, sid: Sid)
    requires AllNamed(c, s) && sid in s.sessions
    ensures c.accepts(s.sessions[sid].name)
  {
    assert Named(c, s.sessions[sid]);
  }
}
