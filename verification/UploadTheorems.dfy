/**
  What the upload protocol guarantees over every schedule. One writer per partial holds on any
  server; that a name stays bound and has one winner depends on that name alone; that its bytes never
  change depends on the name and on whether one of its partials is itself accepted as a name.
 */
module UploadTheorems {
  import opened ByteOrder
  import opened Names
  import opened Uploads
  import opened UploadInvariant

  // ----- one writer per partial, on any server

  /** `_in_flight` is the set of partials of the sessions between acquire and release, and no two
      of those sessions share a partial. */
  lemma OneWriterPerPartial(c: Config, s: State, acts: seq<Action>)
    requires Init(c, s) && Legal(c, s, acts)
    ensures var e := Exec(c, s, acts);
      && e.inFlight == (set i | i in e.sessions && Owns(e.sessions[i].stage) :: e.sessions[i].partial)
      && forall i, j :: i in e.sessions && j in e.sessions && i != j
           && Owns(e.sessions[i].stage) && Owns(e.sessions[j].stage)
           ==> e.sessions[i].partial != e.sessions[j].partial
  {
    hide AllNamed, Init;
    InitIsTidy(c, s);
    RunKeepsTidy(c, s, acts);
    var e := Exec(c, s, acts);
    forall i | i in e.sessions && Owns(e.sessions[i].stage)
      ensures Owner(e, e.sessions[i].partial, i)
    {
    }
  }

  /** However a session stops owning its partial, the partial leaves `_in_flight` with it. */
  lemma EveryExitReleases(c: Config, s: State, a: Action, sid: Sid)
    requires Enabled(c, s, a) && sid in s.sessions && Owns(s.sessions[sid].stage)
    ensures Owns(Apply(c, s, a).sessions[sid].stage) || s.sessions[sid].partial !in Apply(c, s, a).inFlight
  {
    hide PartialName, Content;
    if !ActsFor(a, sid) && !a.Crash? {
      hide Apply, Enabled;
      OthersUnmoved(c, s, a, sid);
    }
  }

  // ----- a name stays bound, on any server

  ghost predicate SameBinding(s: State, s': State, n: Name) {
    n in s.dir && n in s'.dir && s'.dir[n] == s.dir[n]
  }

  /** No step unbinds or rebinds a name that is nobody's partial, but for the sweep. */
  lemma BindingKept(c: Config, s: State, a: Action, n: Name)
    requires AllNamed(c, s) && Enabled(c, s, a) && n in s.dir && !IsPartial(c, n)
    requires a.Restart? ==> n !in a.swept
    ensures SameBinding(s, Apply(c, s, a), n)
  {
    hide PartialName, Content, IsPartial, IsPartialOf, AllNamed, Named;
    if !a.Begin? && !a.Crash? && !a.Restart? {
      NobodysPartial(c, s, a.sid, n);
    }
  }

  lemma NobodysPartial(c: Config, s: State, i: Sid, n: Name)
    requires AllNamed(c, s) && i in s.sessions && !IsPartial(c, n)
    ensures s.sessions[i].partial != n
  {
    hide IsPartial, IsPartialOf, PartialName;
    assert Named(c, s.sessions[i]);
  }

  lemma PlainIsNoPartial(c: Config, n: Name)
    requires !SweepMatches(n)
    ensures !IsPartial(c, n)
  {
    if IsPartial(c, n) {
      var m :| c.accepts(m) && IsPartialOf(n, m);
      var t: bytes :| |t| == TOKEN_SIZE && n == PartialOf(m, t);
      PartialsAreSwept(m, t);
    }
  }

  lemma {:induction false} BindingKeptAlong(c: Config, s: State, acts: seq<Action>, n: Name)
    requires Tidy(c, s) && Legal(c, s, acts) && n in s.dir && !SweepMatches(n)
    ensures SameBinding(s, Exec(c, s, acts), n)
    decreases |acts|
  {
    hide LockOk, OpenAllocated, SweepMatches, AllNamed, IsPartial;
    if acts != [] {
      PlainIsNoPartial(c, n);
      BindingKept(c, s, acts[0], n);
      StepKeepsTidy(c, s, acts[0]);
      BindingKeptAlong(c, Apply(c, s, acts[0]), acts[1..], n);
    }
  }

  // ----- one winner per name, on any server

  /** The session has been sent the final OK. */
  predicate GotOk(ss: Session) {
    ss.stage == Releasing(Stored) || ss.stage == Done(Stored)
  }

  /** From the link on, to the final OK. */
  predicate Won(stage: Stage) {
    stage.Linked? || ((stage.Replying? || stage.Releasing? || stage.Done?) && stage.outcome.Stored?)
  }

  ghost predicate Publisher(s: State, n: Name, sid: Sid) {
    n in s.dir && n in s.published && s.published[n] == sid
  }

  ghost predicate WinnersOk(s: State, n: Name) {
    forall i :: i in s.sessions && s.sessions[i].name == n && Won(s.sessions[i].stage) ==> Publisher(s, n, i)
  }

  /** Only the link makes a winner, and only of a name that is not there. */
  lemma WinningStep(c: Config, s: State, a: Action, i: Sid)
    requires Enabled(c, s, a) && i in s.sessions && !Won(s.sessions[i].stage)
    requires i in Apply(c, s, a).sessions && Won(Apply(c, s, a).sessions[i].stage)
    ensures a == Link(i) && s.sessions[i].name !in s.dir && Publisher(Apply(c, s, a), s.sessions[i].name, i)
  {
    if a != Link(i) {
      OnlyLinkWins(c, s, a, i);
    }
  }

  lemma OnlyLinkWins(c: Config, s: State, a: Action, i: Sid)
    requires Enabled(c, s, a) && i in s.sessions && !Won(s.sessions[i].stage) && a != Link(i)
    ensures i in Apply(c, s, a).sessions && !Won(Apply(c, s, a).sessions[i].stage)
  {
    hide PartialName, Content, Missing;
    if !ActsFor(a, i) && !a.Crash? {
      OthersUnmoved(c, s, a, i);
      hide Apply, Enabled;
    }
  }

  lemma NewcomerHasNotWon(c: Config, s: State, a: Action)
    requires Enabled(c, s, a) && a.Begin?
    ensures !Won(Apply(c, s, a).sessions[a.sid].stage)
  {
    hide PartialName;
  }

  /** Who published a name is settled while the name is there. */
  lemma PublisherKept(c: Config, s: State, a: Action, n: Name)
    requires Enabled(c, s, a) && n in s.dir && n in s.published
    ensures n in Apply(c, s, a).published && Apply(c, s, a).published[n] == s.published[n]
  {
    if !a.Link? {
      OnlyLinkPublishes(c, s, a);
      hide Apply, Enabled;
    }
  }

  lemma OnlyLinkPublishes(c: Config, s: State, a: Action)
    requires Enabled(c, s, a) && !a.Link?
    ensures Apply(c, s, a).published == s.published
  {
    hide PartialName, Content, Missing;
  }

  lemma WinnersStep(c: Config, s: State, a: Action, n: Name)
    requires Tidy(c, s) && WinnersOk(s, n) && Enabled(c, s, a) && !SweepMatches(n)
    ensures WinnersOk(Apply(c, s, a), n)
  {
    hide Apply, PartialName, LockOk, SweepMatches, Named, Won, Allocated;
    var s' := Apply(c, s, a);
    PlainIsNoPartial(c, n);
    forall i | i in s'.sessions && s'.sessions[i].name == n && Won(s'.sessions[i].stage)
      ensures Publisher(s', n, i)
    {
      SessionAfter(c, s, a, i);
      if i !in s.sessions {
        NewcomerHasNotWon(c, s, a);
      } else if Won(s.sessions[i].stage) {
        BindingKept(c, s, a, n);
        PublisherKept(c, s, a, n);
      } else {
        WinningStep(c, s, a, i);
      }
    }
  }

  lemma {:induction false} WinnersAlong(c: Config, s: State, acts: seq<Action>, n: Name)
    requires Tidy(c, s) && WinnersOk(s, n) && Legal(c, s, acts) && !SweepMatches(n)
    ensures WinnersOk(Exec(c, s, acts), n)
    decreases |acts|
  {
    hide Tidy, WinnersOk, SweepMatches;
    if acts != [] {
      WinnersStep(c, s, acts[0], n);
      StepKeepsTidy(c, s, acts[0]);
      WinnersAlong(c, Apply(c, s, acts[0]), acts[1..], n);
    }
  }

  /** At most one PUT of a name the sweep does not match ever gets the final OK, whatever else the
      server accepts. */
  lemma OneWinner(c: Config, s: State, acts: seq<Action>, i: Sid, j: Sid)
    requires Init(c, s) && Legal(c, s, acts)
    requires var e := Exec(c, s, acts);
      && i in e.sessions && j in e.sessions && GotOk(e.sessions[i]) && GotOk(e.sessions[j])
      && e.sessions[i].name == e.sessions[j].name && !SweepMatches(e.sessions[i].name)
    ensures i == j
  {
    hide Init, Tidy;
    var e := Exec(c, s, acts);
    InitIsTidy(c, s);
    NobodyYet(c, s, e.sessions[i].name);
    WinnersAlong(c, s, acts, e.sessions[i].name);
  }

  lemma NobodyYet(c: Config, s: State, n: Name)
    requires Init(c, s)
    ensures WinnersOk(s, n)
  {
  }

  /** The verdict is out, or the session has ended with it. */
  predicate Told(ss: Session, o: Outcome) {
    ss.stage == Releasing(o) || ss.stage == Done(o)
  }

  /** What a session has been told is never taken back, by no step of its own or of others and by no
      crash. */
  lemma ToldForGood(c: Config, s: State, a: Action, sid: Sid, o: Outcome)
    requires Enabled(c, s, a) && sid in s.sessions && Told(s.sessions[sid], o)
    ensures sid in Apply(c, s, a).sessions && Told(Apply(c, s, a).sessions[sid], o)
  {
    hide PartialName, Content, Missing;
    if !ActsFor(a, sid) && !a.Crash? {
      OthersUnmoved(c, s, a, sid);
      hide Apply, Enabled;
    }
  }

  // ----- losers, on any server

  /** All that can still happen to a session that uploaded and verified when its name is taken. */
  predicate Losing(stage: Stage) {
    || stage.Verified? || stage.LostRace?
    || stage == Replying(AlreadyExists)
    || stage == Releasing(AlreadyExists) || stage == Releasing(Dropped)
    || stage == Done(AlreadyExists) || stage == Done(Dropped) || stage == Done(Killed)
  }

  predicate Beaten(s: State, sid: Sid) {
    && sid in s.sessions && Losing(s.sessions[sid].stage)
    && (Live(s.sessions[sid].stage) ==> s.sessions[sid].name in s.dir)
  }

  lemma LosingStep(c: Config, s: State, a: Action, sid: Sid)
    requires Enabled(c, s, a) && Beaten(s, sid) && (ActsFor(a, sid) || a.Crash?)
    ensures sid in Apply(c, s, a).sessions && Losing(Apply(c, s, a).sessions[sid].stage)
    ensures Live(Apply(c, s, a).sessions[sid].stage) ==> Live(s.sessions[sid].stage)
  {
    hide PartialName, Content, Missing, Append, Created, Remove;
  }

  lemma BeatenStep(c: Config, s: State, a: Action, sid: Sid)
    requires Tidy(c, s) && Enabled(c, s, a) && Beaten(s, sid) && !IsPartial(c, s.sessions[sid].name)
    ensures Beaten(Apply(c, s, a), sid) && Apply(c, s, a).sessions[sid].name == s.sessions[sid].name
  {
    hide PartialName, Apply, Enabled, Losing, InFlightExact, OneWriter, Named, IsPartial;
    SessionAfter(c, s, a, sid);
    if ActsFor(a, sid) || a.Crash? {
      LosingStep(c, s, a, sid);
    } else {
      OthersUnmoved(c, s, a, sid);
    }
    if Live(s.sessions[sid].stage) {
      DownHasNone(c, s, a, sid);
      BindingKept(c, s, a, s.sessions[sid].name);
    }
  }

  lemma DownHasNone(c: Config, s: State, a: Action, sid: Sid)
    requires LockOk(s) && Enabled(c, s, a) && sid in s.sessions && Live(s.sessions[sid].stage)
    ensures !a.Restart?
  {
  }

  /** Once a verified upload finds its name taken, it is told ALREADY_EXISTS or nothing at all,
      whatever its advisory check said, in every schedule that follows. It is enough that the name
      is nobody's partial; not even the sweep can turn a loser into a winner. */
  lemma {:induction false} LosersNeverWin(c: Config, s: State, acts: seq<Action>, sid: Sid)
    requires Tidy(c, s) && Legal(c, s, acts) && Beaten(s, sid) && !IsPartial(c, s.sessions[sid].name)
    ensures Beaten(Exec(c, s, acts), sid)
    decreases |acts|
  {
    hide Tidy, Beaten, IsPartial;
    if acts != [] {
      BeatenStep(c, s, acts[0], sid);
      StepKeepsTidy(c, s, acts[0]);
      LosersNeverWin(c, Apply(c, s, acts[0]), acts[1..], sid);
    }
  }

  // ----- who may touch what

  /** A step of one of the name's own sessions leaves every name but the session's partial alone,
      and the name itself if it links it. */
  lemma OwnStepTouches(c: Config, s: State, a: Action, n: Name, q: Name)
    requires Inv(c, s, n) && Enabled(c, s, a) && Own(s, a, n) && q != s.sessions[a.sid].partial
    requires a.Link? && q !in s.dir ==> q != n
    ensures SameEntry(s, Apply(c, s, a), q)
  {
    hide Inv, Named, PartialName;
    SessionFacts(c, s, a.sid);
    if s.sessions[a.sid].stage.Receiving? {
      WriterAlone(c, s, a.sid);
    }
  }

  /** The entry is as before, or one of its owner's steps has changed it. */
  ghost predicate OwnersStep(c: Config, s: State, a: Action, p: Name)
    requires Enabled(c, s, a)
  {
    SameEntry(s, Apply(c, s, a), p) || exists sid :: Owner(s, p, sid) && ActsFor(a, sid)
  }

  /** While the server serves, a partial's binding and bytes change only by a step of its owner. */
  lemma OnlyOwnerTouches(c: Config, s: State, a: Action, n: Name, p: Name)
    requires Unnested(c, n) && Inv(c, s, n) && Enabled(c, s, a) && s.serving && IsPartialOf(p, n)
    ensures OwnersStep(c, s, a, p)
  {
    hide Inv, PartialName, SameEntry, IsPartial;
    assert p != n by {
      PartialIsNotName(p, n);
    }
    hide IsPartialOf;
    if a.Begin? || a.Crash? || a.Acquire? {
      QuietTouchesNothing(c, s, a);
      SameFilesSameEntry(s, Apply(c, s, a), p);
    } else if Foreign(s, a, n) {
      StrangersTouchNothing(c, s, a, n, p);
    } else if p != s.sessions[a.sid].partial {
      OwnStepTouches(c, s, a, n, p);
    } else {
      assert Owner(s, p, a.sid) && ActsFor(a, a.sid);
    }
  }

  /** And so it is in every run of any server in which nobody uploads a partial of the name as a file. */
  lemma OwnersOnly(c: Config, s: State, acts: seq<Action>, a: Action, n: Name, p: Name)
    requires Init(c, s) && Legal(c, s, acts) && Enabled(c, Exec(c, s, acts), a)
    requires Unnested(c, n) && Avoids(acts, n) && IsPartialOf(p, n) && Exec(c, s, acts).serving
    ensures OwnersStep(c, Exec(c, s, acts), a, p)
  {
    hide Inv, Init, Unnested, IsPartialOf, OwnersStep;
    InvAlong(c, s, acts, n);
    OnlyOwnerTouches(c, Exec(c, s, acts), a, n, p);
  }

  lemma InvAlong(c: Config, s: State, acts: seq<Action>, n: Name)
    requires Init(c, s) && Legal(c, s, acts) && Unnested(c, n) && Avoids(acts, n)
    ensures Inv(c, Exec(c, s, acts), n)
  {
    hide Inv, Init, IsPartial;
    InitHasInv(c, s, n);
    RunKeeps(c, s, acts, n);
  }

  lemma PartialIsNotName(p: Name, n: Name)
    requires IsPartialOf(p, n)
    ensures p != n
  {
  }

  lemma SameFilesSameEntry(s: State, s': State, q: Name)
    requires SameFiles(s, s')
    ensures SameEntry(s, s', q)
  {
  }

  // ----- the bytes of a name

  /** One step never unbinds, rebinds or rewrites the name, but for the sweep. */
  lemma EntryKept(c: Config, s: State, a: Action, n: Name)
    requires Unnested(c, n) && Inv(c, s, n) && Enabled(c, s, a) && n in s.dir
    requires a.Restart? ==> n !in a.swept
    ensures SameEntry(s, Apply(c, s, a), n)
  {
    hide Inv, PartialName, IsPartialOf, IsPartial, Unnested;
    if a.Begin? || a.Crash? {
      QuietTouchesNothing(c, s, a);
    } else if !a.Restart? {
      if Foreign(s, a, n) {
        StrangersTouchNothing(c, s, a, n, n);
      } else {
        SessionFacts(c, s, a.sid);
        OwnStepTouches(c, s, a, n, n);
      }
      hide Apply, Enabled;
    }
  }

  /** No restart of the schedule sweeps the name. */
  predicate Spares(acts: seq<Action>, n: Name) {
    forall i :: 0 <= i < |acts| && acts[i].Restart? ==> n !in acts[i].swept
  }

  lemma {:induction false} EntryKeptAlong(c: Config, s: State, acts: seq<Action>, n: Name)
    requires Unnested(c, n) && Inv(c, s, n) && Legal(c, s, acts) && n in s.dir
    requires Spares(acts, n) && Avoids(acts, n)
    ensures SameEntry(s, Exec(c, s, acts), n)
    decreases |acts|
  {
    hide Inv, Unnested, Allowed;
    if acts != [] {
      EntryKept(c, s, acts[0], n);
      StepKeeps(c, s, acts[0], n);
      EntryKeptAlong(c, Apply(c, s, acts[0]), acts[1..], n);
    }
  }

  lemma {:induction false} PlainIsSpared(c: Config, s: State, acts: seq<Action>, n: Name)
    requires Legal(c, s, acts) && !SweepMatches(n)
    ensures Spares(acts, n)
    decreases |acts|
  {
    hide SweepMatches;
    if acts != [] {
      PlainIsSpared(c, Apply(c, s, acts[0]), acts[1..], n);
      assert forall i :: 0 < i < |acts| ==> acts[i] == acts[1..][i - 1];
    }
  }

  /** The name, if published and there, holds bytes whose hash and length are the ones its publisher
      stated. */
  ghost predicate IsVerified(c: Config, s: State, n: Name) {
    n in s.published && n in s.dir ==>
      && s.published[n] in s.sessions
      && var ss := s.sessions[s.published[n]];
      && ss.name == n && c.hash(Content(s, n)) == ss.digest && |Content(s, n)| == ss.size
  }

  /** A stored file with a plain name keeps its inode and its bytes, on any server, in every run in
      which nobody uploads one of its partials as a file of its own. */
  lemma StoredIsKept(c: Config, s: State, before: seq<Action>, after: seq<Action>, n: Name)
    requires Init(c, s) && Legal(c, s, before) && Legal(c, Exec(c, s, before), after)
    requires c.accepts(n) && !SweepMatches(n) && n in Exec(c, s, before).dir
    requires Avoids(before, n) && Avoids(after, n)
    ensures SameEntry(Exec(c, s, before), Exec(c, Exec(c, s, before), after), n)
  {
    hide Init, SweepMatches, SameEntry, IsPartial, Inv, Avoids;
    PlainIsNoPartial(c, n);
    InvAlong(c, s, before, n);
    PlainIsSpared(c, Exec(c, s, before), after, n);
    EntryKeptAlong(c, Exec(c, s, before), after, n);
  }

  /** Only verified content is published, on any server, in every such run. */
  lemma PublishedIsVerified(c: Config, s: State, acts: seq<Action>, n: Name)
    requires Init(c, s) && Legal(c, s, acts) && Unnested(c, n) && Avoids(acts, n)
    ensures IsVerified(c, Exec(c, s, acts), n)
  {
    hide Tidy, LinksOk, StagesOk, NoStaleLink, ForeignFiles, Undisturbed, Init, Unnested, Avoids;
    InvAlong(c, s, acts, n);
  }

  /** The stored bytes are the winner's. */
  lemma WinnersBytes(c: Config, s: State, acts: seq<Action>, i: Sid)
    requires Init(c, s) && Legal(c, s, acts)
    requires i in Exec(c, s, acts).sessions && GotOk(Exec(c, s, acts).sessions[i])
    requires var n := Exec(c, s, acts).sessions[i].name; !SweepMatches(n) && Avoids(acts, n)
    ensures var e := Exec(c, s, acts); var ss := e.sessions[i];
      ss.name in e.dir && c.hash(Content(e, ss.name)) == ss.digest && |Content(e, ss.name)| == ss.size
  {
    hide Init, IsPartial, SweepMatches, Avoids;
    var e := Exec(c, s, acts);
    var n := e.sessions[i].name;
    InitIsTidy(c, s);
    RunKeepsTidy(c, s, acts);
    PlainIsNoPartial(c, n);
    assert c.accepts(n) by {
      assert Named(c, e.sessions[i]);
    }
    NobodyYet(c, s, n);
    WinnersAlong(c, s, acts, n);
    PublishedIsVerified(c, s, acts, n);
  }

  // ----- runs that stay within fewer names

  /** Every upload of the schedule is of a name the other server accepts too. */
  predicate Confined(c: Config, acts: seq<Action>) {
    forall i :: 0 <= i < |acts| && acts[i].Begin? ==> c.accepts(acts[i].name)
  }

  /** What a server accepts matters only through the names that are in fact uploaded. */
  lemma {:induction false} ConfinedRun(c: Config, d: Config, s: State, acts: seq<Action>)
    requires c.hash == d.hash && Legal(c, s, acts) && Confined(d, acts)
    ensures Legal(d, s, acts) && Exec(d, s, acts) == Exec(c, s, acts)
    decreases |acts|
  {
    if acts != [] {
      assert forall i :: 0 < i < |acts| ==> acts[i] == acts[1..][i - 1];
      ConfinedStep(c, d, s, acts[0]);
      hide Apply, Enabled;
      ConfinedRun(c, d, Apply(c, s, acts[0]), acts[1..]);
    }
  }

  lemma ConfinedStep(c: Config, d: Config, s: State, a: Action)
    requires c.hash == d.hash && Enabled(c, s, a) && (a.Begin? ==> d.accepts(a.name))
    ensures Enabled(d, s, a) && Apply(d, s, a) == Apply(c, s, a)
  {
    hide PartialName, Content;
  }

  lemma ConfinedInit(c: Config, d: Config, s: State)
    requires Init(c, s) && forall n :: d.accepts(n) ==> c.accepts(n)
    ensures Init(d, s)
  {
    forall p, q | p in s.dir && q in s.dir && p != q && s.dir[p] == s.dir[q] && IsPartial(d, p)
      ensures d.accepts(q) && IsPartialOf(p, q)
    {
      var n :| d.accepts(n) && IsPartialOf(p, n);
      assert IsPartial(c, p) && IsPartialOf(p, q);
      var t: bytes :| |t| == TOKEN_SIZE && p == PartialOf(n, t);
      var u: bytes :| |u| == TOKEN_SIZE && p == PartialOf(q, u);
      PartialInjective(n, t, q, u);
    }
  }

  /** A run in which nobody uploads a name of the shape ".*.part" is a run of the server that refuses
      such names, so everything proved of that server holds of it. */
  lemma PlainRun(c: Config, s: State, acts: seq<Action>)
    requires Init(c, s) && Legal(c, s, acts)
    requires forall i :: 0 <= i < |acts| && acts[i].Begin? ==> !SweepMatches(acts[i].name)
    ensures var d := Config(c.hash, n => c.accepts(n) && !SweepMatches(n));
      SweepFree(d) && Init(d, s) && Legal(d, s, acts) && Exec(d, s, acts) == Exec(c, s, acts)
  {
    hide SweepMatches, Init;
    var d := Config(c.hash, n => c.accepts(n) && !SweepMatches(n));
    UploadsAccepted(c, s, acts);
    ConfinedRun(c, d, s, acts);
    ConfinedInit(c, d, s);
  }

  lemma {:induction false} UploadsAccepted(c: Config, s: State, acts: seq<Action>)
    requires Legal(c, s, acts)
    ensures Confined(c, acts)
    decreases |acts|
  {
    if acts != [] {
      UploadsAccepted(c, Apply(c, s, acts[0]), acts[1..]);
      assert forall i :: 0 < i < |acts| ==> acts[i] == acts[1..][i - 1];
    }
  }

  /** Where the partials of a name are refused, every run avoids them. */
  lemma IsolatedAvoids(c: Config, s: State, acts: seq<Action>, n: Name)
    requires Isolated(c, n) && Legal(c, s, acts)
    ensures Avoids(acts, n)
  {
    hide Legal, IsPartialOf, Unnested;
    UploadsAccepted(c, s, acts);
  }
}
