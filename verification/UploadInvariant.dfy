/**
  What every step of the upload protocol keeps. The first part holds whatever names are accepted:
  the lock, and who may write. The second part is about one name at a time, which must be the partial
  of no accepted name; and it holds as long as nobody uploads a partial of it as a file.
 */
module UploadInvariant {
  import opened ByteOrder
  import opened Names
  import opened Uploads

  // ----- what a step does to the sessions

  /** The session an action belongs to, if any. */
  predicate ActsFor(a: Action, sid: Sid) {
    !a.Crash? && !a.Restart? && a.sid == sid
  }

  /** The steps that change the directory. */
  predicate Binds(a: Action) {
    a.DropOversize? || a.Open? || a.Link? || a.Unlink?
  }

  lemma OthersUnmovedBinding(c: Config, s: State, a: Action, i: Sid)
    requires Enabled(c, s, a) && i in s.sessions && !ActsFor(a, i) && Binds(a)
    ensures i in Apply(c, s, a).sessions && Apply(c, s, a).sessions[i] == s.sessions[i]
  {
    hide PartialName, Content, Missing, Append, Kill;
  }

  lemma OthersUnmovedOtherwise(c: Config, s: State, a: Action, i: Sid)
    requires Enabled(c, s, a) && i in s.sessions && !ActsFor(a, i) && !Binds(a) && !a.Crash?
    ensures i in Apply(c, s, a).sessions && Apply(c, s, a).sessions[i] == s.sessions[i]
  {
    hide PartialName, Content, Missing;
  }

  /** A step moves no session but its own. */
  lemma OthersUnmoved(c: Config, s: State, a: Action, i: Sid)
    requires Enabled(c, s, a) && i in s.sessions && !ActsFor(a, i) && !a.Crash?
    ensures i in Apply(c, s, a).sessions && Apply(c, s, a).sessions[i] == s.sessions[i]
  {
    if Binds(a) {
      OthersUnmovedBinding(c, s, a, i);
    } else {
      OthersUnmovedOtherwise(c, s, a, i);
    }
    hide Apply, Enabled;
  }

  lemma ActorAfter(c: Config, s: State, a: Action)
    requires Enabled(c, s, a) && !a.Begin? && !a.Crash? && !a.Restart?
    ensures a.sid in s.sessions && a.sid in Apply(c, s, a).sessions
    ensures Apply(c, s, a).sessions[a.sid] == s.sessions[a.sid].(stage := Apply(c, s, a).sessions[a.sid].stage)
  {
    hide PartialName, Content, Missing;
  }

  lemma NewcomerAfter(c: Config, s: State, a: Action, i: Sid)
    requires Enabled(c, s, a) && i !in s.sessions
    ensures i in Apply(c, s, a).sessions <==> a.Begin? && i == a.sid
  {
    hide PartialName, Content, Missing;
  }

  /** Sessions come only from Begin, and never change but in their stage. */
  lemma SessionAfter(c: Config, s: State, a: Action, i: Sid)
    requires Enabled(c, s, a)
    ensures i in Apply(c, s, a).sessions <==> i in s.sessions || (a.Begin? && i == a.sid)
    ensures i in s.sessions ==>
      Apply(c, s, a).sessions[i] == s.sessions[i].(stage := Apply(c, s, a).sessions[i].stage)
  {
    if i !in s.sessions {
      NewcomerAfter(c, s, a, i);
    } else if !a.Crash? {
      if ActsFor(a, i) {
        ActorAfter(c, s, a);
      } else {
        OthersUnmoved(c, s, a, i);
      }
      hide Apply, Enabled;
    }
  }

  /** The steps between acquire and release leave the lock alone. */
  lemma WorkingStep(c: Config, s: State, a: Action)
    requires Enabled(c, s, a) && !a.Begin? && !a.Acquire? && !a.Release? && !a.Crash? && !a.Restart?
    ensures Owns(s.sessions[a.sid].stage) && Owns(Apply(c, s, a).sessions[a.sid].stage)
    ensures Apply(c, s, a).inFlight == s.inFlight && Apply(c, s, a).serving
  {
    hide PartialName, Content, Missing;
  }

  // ----- the lock

  ghost predicate Owner(s: State, p: Name, sid: Sid) {
    sid in s.sessions && Owns(s.sessions[sid].stage) && s.sessions[sid].partial == p
  }

  /** `_in_flight` is exactly the set of partials of the sessions between acquire and release. */
  ghost predicate InFlightExact(s: State) {
    forall p :: p in s.inFlight <==> exists sid :: Owner(s, p, sid)
  }

  ghost predicate OneWriter(s: State) {
    forall p, i, j :: Owner(s, p, i) && Owner(s, p, j) ==> i == j
  }

  ghost predicate DownIsQuiet(s: State) {
    !s.serving ==> forall sid :: sid in s.sessions ==> s.sessions[sid].stage.Done?
  }

  ghost predicate LockOk(s: State) {
    InFlightExact(s) && OneWriter(s) && DownIsQuiet(s)
  }

  /** The owners, and so the in-flight set, are the same after a step that changes no ownership. */
  lemma OwnersKept(s: State, s': State)
    requires InFlightExact(s) && OneWriter(s)
    requires s'.inFlight == s.inFlight
    requires forall p, i :: Owner(s', p, i) <==> Owner(s, p, i)
    ensures InFlightExact(s') && OneWriter(s')
  {
  }

  lemma LockOwners(s: State, sid: Sid)
    requires InFlightExact(s) && OneWriter(s) && sid in s.sessions
    requires s.sessions[sid].stage.Checked? && s.sessions[sid].partial !in s.inFlight
    ensures InFlightExact(Locked(s, sid)) && OneWriter(Locked(s, sid))
  {
    var s', p := Locked(s, sid), s.sessions[sid].partial;
    assert forall i :: !Owner(s, p, i);
    assert Owner(s', p, sid);
    assert forall q, i :: Owner(s', q, i) <==> Owner(s, q, i) || (i == sid && q == p);
  }

  lemma UnlockOwners(s: State, sid: Sid, outcome: Outcome)
    requires InFlightExact(s) && OneWriter(s) && sid in s.sessions && Owns(s.sessions[sid].stage)
    ensures InFlightExact(Unlocked(s, sid, outcome)) && OneWriter(Unlocked(s, sid, outcome))
  {
    var s', p := Unlocked(s, sid, outcome), s.sessions[sid].partial;
    assert Owner(s, p, sid);
    assert forall q, i :: Owner(s', q, i) <==> Owner(s, q, i) && i != sid;
  }

  lemma CrashUnlocks(s: State)
    ensures LockOk(Crashed(s))
  {
    var s' := Crashed(s);
    assert forall p, i :: !Owner(s', p, i);
  }

  lemma WorkingKeepsLock(c: Config, s: State, a: Action)
    requires LockOk(s) && Enabled(c, s, a)
    requires !a.Begin? && !a.Acquire? && !a.Release? && !a.Crash? && !a.Restart?
    ensures LockOk(Apply(c, s, a))
  {
    hide Apply, Enabled, InFlightExact, OneWriter;
    var s' := Apply(c, s, a);
    WorkingStep(c, s, a);
    forall p, i
      ensures Owner(s', p, i) <==> Owner(s, p, i)
    {
      SessionAfter(c, s, a, i);
      if i in s.sessions && i != a.sid {
        OthersUnmoved(c, s, a, i);
      }
    }
    OwnersKept(s, s');
  }

  /** Every step keeps the lock right, whatever names are accepted. */
  lemma StepKeepsLock(c: Config, s: State, a: Action)
    requires LockOk(s) && Enabled(c, s, a)
    ensures LockOk(Apply(c, s, a))
  {
    hide PartialName, Content, Missing, InFlightExact, OneWriter;
    match a
    case Begin(_, _, _, _) => OwnersKept(s, Apply(c, s, a));
    case Acquire(sid) =>
      if s.sessions[sid].partial in s.inFlight {
        OwnersKept(s, Apply(c, s, a));
      } else {
        LockOwners(s, sid);
      }
    case Release(sid) => UnlockOwners(s, sid, s.sessions[sid].stage.outcome);
    case Crash => CrashUnlocks(s);
    case Restart(_) => OwnersKept(s, Apply(c, s, a));
    case _ => WorkingKeepsLock(c, s, a);
  }

  // ----- housekeeping that holds whatever names are accepted

  /** A session's partial is the partial of its own name and of no other. */
  ghost predicate Named(c: Config, ss: Session) {
    && c.accepts(ss.name)
    && ss.partial == PartialName(ss.name, ss.digest) != ss.name
    && IsPartial(c, ss.partial) && IsPartialOf(ss.partial, ss.name)
    && forall n :: IsPartialOf(ss.partial, n) ==> n == ss.name
  }

  lemma NamedFresh(c: Config, ss: Session)
    requires c.accepts(ss.name) && ss.partial == PartialName(ss.name, ss.digest)
    ensures Named(c, ss)
  {
    var t := Token(ss.digest);
    assert IsPartialOf(ss.partial, ss.name);
    forall n | IsPartialOf(ss.partial, n)
      ensures n == ss.name
    {
      var t' :| |t'| == TOKEN_SIZE && ss.partial == PartialOf(n, t');
      PartialInjective(ss.name, t, n, t');
    }
  }

  /** The file a session has open exists, under a name or not. */
  ghost predicate OpenAllocated(s: State) {
    forall i :: i in s.sessions && s.sessions[i].stage.Receiving? ==> s.sessions[i].stage.fd in s.data
  }

  ghost predicate AllNamed(c: Config, s: State) {
    forall i :: i in s.sessions ==> Named(c, s.sessions[i])
  }

  ghost predicate Tidy(c: Config, s: State) {
    Allocated(s) && OpenAllocated(s) && AllNamed(c, s) && LockOk(s)
  }

  lemma NewcomerNamed(c: Config, s: State, a: Action)
    requires a.Begin? && Enabled(c, s, a)
    ensures Named(c, Apply(c, s, a).sessions[a.sid])
    ensures !Owns(Apply(c, s, a).sessions[a.sid].stage)
  {
    NamedFresh(c, Apply(c, s, a).sessions[a.sid]);
  }

  lemma NamedStage(c: Config, ss: Session, stage: Stage)
    requires Named(c, ss)
    ensures Named(c, ss.(stage := stage))
  {
  }

  lemma StepKeepsNames(c: Config, s: State, a: Action)
    requires AllNamed(c, s) && Enabled(c, s, a)
    ensures AllNamed(c, Apply(c, s, a))
  {
    hide Apply, Enabled, Named;
    forall i | i in Apply(c, s, a).sessions
      ensures Named(c, Apply(c, s, a).sessions[i])
    {
      SessionAfter(c, s, a, i);
      if i in s.sessions {
        NamedStage(c, s.sessions[i], Apply(c, s, a).sessions[i].stage);
      } else {
        NewcomerNamed(c, s, a);
      }
    }
  }

  /** Inodes are never forgotten, and names are bound to inodes only. */
  lemma StepKeepsData(c: Config, s: State, a: Action)
    requires Allocated(s) && Enabled(c, s, a)
    ensures s.data.Keys <= Apply(c, s, a).data.Keys && Allocated(Apply(c, s, a))
  {
    hide PartialName, Content;
  }

  lemma ActorsFile(c: Config, s: State, a: Action, i: Sid)
    requires Allocated(s) && Enabled(c, s, a) && i in Apply(c, s, a).sessions && (ActsFor(a, i) || a.Crash?)
    requires i in s.sessions && s.sessions[i].stage.Receiving? ==> s.sessions[i].stage.fd in s.data
    requires Apply(c, s, a).sessions[i].stage.Receiving?
    ensures Apply(c, s, a).sessions[i].stage.fd in Apply(c, s, a).data
  {
    hide PartialName, Content;
  }

  lemma StepKeepsOpen(c: Config, s: State, a: Action)
    requires Allocated(s) && OpenAllocated(s) && Enabled(c, s, a)
    ensures OpenAllocated(Apply(c, s, a))
  {
    hide Apply, Enabled;
    var s' := Apply(c, s, a);
    StepKeepsData(c, s, a);
    forall i | i in s'.sessions && s'.sessions[i].stage.Receiving?
      ensures s'.sessions[i].stage.fd in s'.data
    {
      SessionAfter(c, s, a, i);
      if ActsFor(a, i) || a.Crash? {
        ActorsFile(c, s, a, i);
      } else {
        OthersUnmoved(c, s, a, i);
      }
    }
  }

  /** Every step keeps all of this, on any server. */
  lemma StepKeepsTidy(c: Config, s: State, a: Action)
    requires Tidy(c, s) && Enabled(c, s, a)
    ensures Tidy(c, Apply(c, s, a))
  {
    hide Apply, Enabled, LockOk, AllNamed, OpenAllocated, Allocated;
    StepKeepsLock(c, s, a);
    StepKeepsNames(c, s, a);
    StepKeepsData(c, s, a);
    StepKeepsOpen(c, s, a);
  }

  lemma InitIsTidy(c: Config, s: State)
    requires Init(c, s)
    ensures Tidy(c, s)
  {
  }

  lemma {:induction false} RunKeepsTidy(c: Config, s: State, acts: seq<Action>)
    requires Tidy(c, s) && Legal(c, s, acts)
    ensures Tidy(c, Exec(c, s, acts))
    decreases |acts|
  {
    hide Tidy;
    if acts != [] {
      StepKeepsTidy(c, s, acts[0]);
      RunKeepsTidy(c, Apply(c, s, acts[0]), acts[1..]);
    }
  }

  // ----- one name: the invariant

  /** The directory entries of a name: itself and its partials. */
  ghost predicate Family(n: Name, q: Name) {
    q == n || IsPartialOf(q, n)
  }

  ghost predicate HasAll(c: Config, s: State, ss: Session) {
    && ss.partial in s.dir
    && |Content(s, ss.partial)| == ss.size
    && c.hash(Content(s, ss.partial)) == ss.digest
  }

  ghost predicate SharesWithTarget(s: State, ss: Session) {
    ss.partial in s.dir && ss.name in s.dir && s.dir[ss.partial] == s.dir[ss.name]
  }

  /** What a session may rely on, stage by stage, whatever the others do. */
  ghost predicate StageOk(c: Config, s: State, sid: Sid)
    requires sid in s.sessions
  {
    var ss := s.sessions[sid];
    match ss.stage
    case Oversize => ss.partial in s.dir
    case Offered(offset) => offset == |Content(s, ss.partial)| <= ss.size
    case Receiving(fd, written, buf) =>
      ss.partial in s.dir && s.dir[ss.partial] == fd && |Content(s, ss.partial)| + |buf| == written <= ss.size
    case Received => ss.partial in s.dir && |Content(s, ss.partial)| == ss.size
    case Verified => HasAll(c, s, ss)
    case Mismatch => ss.partial in s.dir && c.hash(Content(s, ss.partial)) != ss.digest
    case LostRace => HasAll(c, s, ss) && ss.name in s.dir
    case Linked => HasAll(c, s, ss) && SharesWithTarget(s, ss)
    case _ => true
  }

  ghost predicate StagesOk(c: Config, s: State, n: Name) {
    forall i :: i in s.sessions && s.sessions[i].name == n ==> StageOk(c, s, i)
  }

  /** The name's partials share an inode with nothing but the name, and no other name's partial
      shares one with it. */
  ghost predicate LinksOk(c: Config, s: State, n: Name) {
    forall p, q :: p in s.dir && q in s.dir && p != q && s.dir[p] == s.dir[q] ==>
      (IsPartialOf(p, n) ==> q == n) && (q == n && IsPartial(c, p) ==> IsPartialOf(p, n))
  }

  ghost predicate LinkedOwner(s: State, p: Name, sid: Sid) {
    sid in s.sessions && s.sessions[sid].partial == p && s.sessions[sid].stage.Linked?
  }

  /** A session past the exists check sees a partial still linked to its target only while the
      session that linked it is about to unlink it. */
  ghost predicate NoStaleLink(s: State, n: Name) {
    forall i :: i in s.sessions && s.sessions[i].name == n && Live(s.sessions[i].stage)
      && SharesWithTarget(s, s.sessions[i])
      ==> exists owner :: LinkedOwner(s, s.sessions[i].partial, owner)
  }

  /** Sessions of other names have none of the name's files open. */
  ghost predicate ForeignFiles(s: State, n: Name) {
    forall i, q ::
      i in s.sessions && s.sessions[i].name != n && s.sessions[i].stage.Receiving? && q in s.dir && Family(n, q)
      ==> s.dir[q] != s.sessions[i].stage.fd
  }

  /** A published name, while it is there, holds what its publisher stated. */
  ghost predicate PublishedOk(c: Config, s: State, n: Name) {
    n in s.published ==>
      && s.published[n] in s.sessions
      && var ss := s.sessions[s.published[n]];
      && ss.name == n
      && (n in s.dir ==> |Content(s, n)| == ss.size && c.hash(Content(s, n)) == ss.digest)
  }

  /** Nobody is uploading one of the name's partials as a file of its own. */
  ghost predicate Undisturbed(s: State, n: Name) {
    forall i :: i in s.sessions ==> !IsPartialOf(s.sessions[i].name, n)
  }

  ghost predicate Inv(c: Config, s: State, n: Name) {
    && Tidy(c, s) && LinksOk(c, s, n) && StagesOk(c, s, n)
    && NoStaleLink(s, n) && ForeignFiles(s, n) && PublishedOk(c, s, n) && Undisturbed(s, n)
  }

  lemma InitHasInv(c: Config, s: State, n: Name)
    requires Init(c, s) && c.accepts(n)
    ensures Inv(c, s, n)
  {
    hide PartialName;
    forall p, q | p in s.dir && q in s.dir && p != q && s.dir[p] == s.dir[q] && IsPartialOf(p, n)
      ensures q == n
    {
      assert IsPartial(c, p) && IsPartialOf(p, q);
      var t: bytes :| |t| == TOKEN_SIZE && p == PartialOf(n, t);
      var u: bytes :| |u| == TOKEN_SIZE && p == PartialOf(q, u);
      PartialInjective(n, t, q, u);
    }
  }

  /** What the invariant says of one session of the name. */
  lemma SessionFacts(c: Config, s: State, sid: Sid)
    requires sid in s.sessions && Inv(c, s, s.sessions[sid].name)
    ensures Named(c, s.sessions[sid]) && StageOk(c, s, sid) && Allocated(s)
  {
    hide Named, StageOk, Allocated, LockOk, LinksOk;
  }

  // ----- the inode a session writes to has no other name

  /** An owning session that is not about to unlink never sees its partial under its target's name. */
  lemma NotLinkedNotShared(c: Config, s: State, sid: Sid)
    requires sid in s.sessions && Inv(c, s, s.sessions[sid].name)
    requires Owns(s.sessions[sid].stage) && !s.sessions[sid].stage.Linked?
    ensures !SharesWithTarget(s, s.sessions[sid])
  {
    hide StagesOk, LinksOk, PublishedOk, ForeignFiles, Named;
    var p := s.sessions[sid].partial;
    assert Owner(s, p, sid);
    assert forall i :: LinkedOwner(s, p, i) ==> Owner(s, p, i);
  }

  lemma WriterAlone(c: Config, s: State, sid: Sid)
    requires sid in s.sessions && s.sessions[sid].stage.Receiving? && Inv(c, s, s.sessions[sid].name)
    ensures forall q :: q in s.dir && q != s.sessions[sid].partial ==> s.dir[q] != s.sessions[sid].stage.fd
  {
    hide StagesOk, PublishedOk, LockOk, NoStaleLink, ForeignFiles, IsPartialOf, IsPartial, PartialName;
    SessionFacts(c, s, sid);
    NotLinkedNotShared(c, s, sid);
  }

  // ----- steps of other names

  ghost predicate SameEntry(s: State, s': State, q: Name) {
    && (q in s'.dir <==> q in s.dir)
    && (q in s.dir ==> s'.dir[q] == s.dir[q] && Content(s', q) == Content(s, q))
  }

  /** With the files untouched, only ownership and the new stages are left to check. */
  ghost predicate SameFiles(s: State, s': State) {
    s'.dir == s.dir && s'.data == s.data && s'.published == s.published
  }

  predicate IsQuiet(a: Action) {
    a.Begin? || a.Acquire? || a.Stat? || a.Recv? || a.Hash? || a.Reply? || a.Release? || a.Crash?
  }

  lemma QuietTouchesNothing(c: Config, s: State, a: Action)
    requires Enabled(c, s, a) && IsQuiet(a)
    ensures SameFiles(s, Apply(c, s, a))
  {
    hide PartialName, Content;
  }

  /** An action of a session of another name. */
  predicate Foreign(s: State, a: Action, n: Name) {
    !a.Restart? && !a.Crash? && !a.Begin? && a.sid in s.sessions && s.sessions[a.sid].name != n
  }

  /** The partial and the name of a session of another name are not in the family. */
  lemma StrangersOutside(c: Config, s: State, i: Sid, n: Name)
    requires Unnested(c, n) && AllNamed(c, s) && Undisturbed(s, n) && i in s.sessions && s.sessions[i].name != n
    ensures !Family(n, s.sessions[i].partial) && !Family(n, s.sessions[i].name)
  {
    hide IsPartial, IsPartialOf, PartialName;
    assert Named(c, s.sessions[i]);
  }

  /** A session of another name leaves the whole family alone, bindings and bytes. */
  lemma StrangersTouchNothing(c: Config, s: State, a: Action, n: Name, q: Name)
    requires Unnested(c, n) && Inv(c, s, n) && Enabled(c, s, a) && Foreign(s, a, n) && Family(n, q)
    ensures SameEntry(s, Apply(c, s, a), q)
  {
    hide Unnested, LinksOk, StagesOk, NoStaleLink, PublishedOk, LockOk, AllNamed, Family, PartialName;
    if IsQuiet(a) {
      QuietTouchesNothing(c, s, a);
      hide Apply, Enabled;
    } else {
      StrangersOutside(c, s, a.sid, n);
    }
  }

  /** A stranger's partial shares no inode with the family. */
  lemma StrangersPartial(c: Config, s: State, i: Sid, n: Name, q: Name)
    requires Unnested(c, n) && AllNamed(c, s) && LinksOk(c, s, n) && i in s.sessions && s.sessions[i].name != n
    requires s.sessions[i].partial in s.dir && q in s.dir && Family(n, q)
    ensures s.dir[q] != s.dir[s.sessions[i].partial]
  {
    hide IsPartial, IsPartialOf, PartialName;
    assert Named(c, s.sessions[i]);
  }

  /** The only new sharing a stranger makes is between its own partial and its own name. */
  lemma StrangersDirectory(c: Config, s: State, a: Action, n: Name)
    requires Enabled(c, s, a) && Foreign(s, a, n) && Allocated(s)
    ensures var s', ss := Apply(c, s, a), s.sessions[a.sid];
      forall q :: q in s'.dir ==>
        || (q in s.dir && s'.dir[q] == s.dir[q])
        || (q == ss.name && ss.partial in s.dir && s'.dir[q] == s.dir[ss.partial])
        || (q == ss.partial && s'.dir[q] !in s.data)
  {
    hide PartialName, Content;
  }

  lemma StrangersKeepLinks(c: Config, s: State, a: Action, n: Name)
    requires Unnested(c, n) && Inv(c, s, n) && Enabled(c, s, a) && Foreign(s, a, n)
    ensures LinksOk(c, Apply(c, s, a), n)
  {
    hide Apply, Enabled, StagesOk, NoStaleLink, PublishedOk, LockOk, ForeignFiles, IsPartial, IsPartialOf, PartialName;
    var s', ss := Apply(c, s, a), s.sessions[a.sid];
    StrangersDirectory(c, s, a, n);
    StrangersOutside(c, s, a.sid, n);
    forall q | q in s.dir && ss.partial in s.dir && Family(n, q)
      ensures s.dir[q] != s.dir[ss.partial]
    {
      StrangersPartial(c, s, a.sid, n, q);
    }
  }

  /** Where an open file comes from: it was open, or the partial was there, or it is new. */
  lemma FileOpened(c: Config, s: State, a: Action)
    requires Enabled(c, s, a) && !a.Begin? && !a.Crash? && !a.Restart? && a.sid in s.sessions
    requires a.sid in Apply(c, s, a).sessions && Apply(c, s, a).sessions[a.sid].stage.Receiving?
    ensures var ss, fd := s.sessions[a.sid], Apply(c, s, a).sessions[a.sid].stage.fd;
      || (ss.stage.Receiving? && ss.stage.fd == fd)
      || (ss.partial in s.dir && s.dir[ss.partial] == fd)
      || fd !in s.data
  {
    hide PartialName, Content, Append, Remove;
  }

  /** The file a stranger has open is outside the family, also right after opening it. */
  lemma StrangersFile(c: Config, s: State, a: Action, n: Name, q: Name)
    requires Unnested(c, n) && Inv(c, s, n) && Enabled(c, s, a) && Foreign(s, a, n) && q in s.dir && Family(n, q)
    requires a.sid in Apply(c, s, a).sessions && Apply(c, s, a).sessions[a.sid].stage.Receiving?
    ensures s.dir[q] != Apply(c, s, a).sessions[a.sid].stage.fd
  {
    hide Apply, Enabled, Unnested, LinksOk, StagesOk, NoStaleLink, PublishedOk, LockOk, AllNamed, Family, PartialName;
    FileOpened(c, s, a);
    if s.sessions[a.sid].partial in s.dir {
      StrangersPartial(c, s, a.sid, n, q);
    }
  }

  lemma StrangersKeepFiles(c: Config, s: State, a: Action, n: Name)
    requires Unnested(c, n) && Inv(c, s, n) && Enabled(c, s, a) && Foreign(s, a, n)
    ensures ForeignFiles(Apply(c, s, a), n)
  {
    hide Apply, Enabled, Unnested, LinksOk, StagesOk, NoStaleLink, PublishedOk, Tidy, Family, PartialName;
    var s' := Apply(c, s, a);
    forall i, q |
      i in s'.sessions && s'.sessions[i].name != n && s'.sessions[i].stage.Receiving? && q in s'.dir && Family(n, q)
      ensures s'.dir[q] != s'.sessions[i].stage.fd
    {
      SessionAfter(c, s, a, i);
      StrangersTouchNothing(c, s, a, n, q);
      if i == a.sid {
        StrangersFile(c, s, a, n, q);
      } else {
        OthersUnmoved(c, s, a, i);
      }
    }
  }

  /** A session's stage is about its partial and its name only. */
  lemma StageOkSame(c: Config, s: State, s': State, i: Sid)
    requires i in s.sessions && i in s'.sessions && s'.sessions[i] == s.sessions[i] && StageOk(c, s, i)
    requires SameEntry(s, s', s.sessions[i].partial) && SameEntry(s, s', s.sessions[i].name)
    ensures StageOk(c, s', i)
  {
  }

  /** The sessions of the name see nothing of it. */
  lemma StrangersUnseen(c: Config, s: State, a: Action, n: Name, i: Sid)
    requires Unnested(c, n) && Inv(c, s, n) && Enabled(c, s, a) && Foreign(s, a, n)
    requires i in Apply(c, s, a).sessions && Apply(c, s, a).sessions[i].name == n
    ensures i in s.sessions && Apply(c, s, a).sessions[i] == s.sessions[i]
    ensures StageOk(c, Apply(c, s, a), i)
    ensures SharesWithTarget(Apply(c, s, a), s.sessions[i]) <==> SharesWithTarget(s, s.sessions[i])
  {
    hide Apply, Enabled, Unnested, LinksOk, PublishedOk, LockOk, ForeignFiles, PartialName, IsPartial, IsPartialOf;
    hide StageOk, NoStaleLink;
    SessionAfter(c, s, a, i);
    OthersUnmoved(c, s, a, i);
    assert Named(c, s.sessions[i]);
    StrangersTouchNothing(c, s, a, n, n);
    StrangersTouchNothing(c, s, a, n, s.sessions[i].partial);
    StageOkSame(c, s, Apply(c, s, a), i);
  }

  lemma StrangersKeepStages(c: Config, s: State, a: Action, n: Name)
    requires Unnested(c, n) && Inv(c, s, n) && Enabled(c, s, a) && Foreign(s, a, n)
    ensures StagesOk(c, Apply(c, s, a), n) && NoStaleLink(Apply(c, s, a), n)
  {
    hide Apply, Enabled, Unnested, LinksOk, PublishedOk, LockOk, ForeignFiles, PartialName, IsPartial, IsPartialOf;
    hide StageOk, SharesWithTarget;
    var s' := Apply(c, s, a);
    forall i | i in s'.sessions && s'.sessions[i].name == n
      ensures StageOk(c, s', i)
      ensures Live(s'.sessions[i].stage) && SharesWithTarget(s', s'.sessions[i]) ==>
        exists owner :: LinkedOwner(s', s'.sessions[i].partial, owner)
    {
      StrangersUnseen(c, s, a, n, i);
      if Live(s'.sessions[i].stage) && SharesWithTarget(s', s'.sessions[i]) {
        var owner :| LinkedOwner(s, s.sessions[i].partial, owner);
        assert Named(c, s.sessions[owner]) && Named(c, s.sessions[i]);
        OthersUnmoved(c, s, a, owner);
        assert LinkedOwner(s', s'.sessions[i].partial, owner);
      }
    }
  }

  lemma StrangersKeepPublished(c: Config, s: State, a: Action, n: Name)
    requires Unnested(c, n) && Inv(c, s, n) && Enabled(c, s, a) && Foreign(s, a, n)
    ensures PublishedOk(c, Apply(c, s, a), n)
  {
    hide Unnested, LinksOk, StagesOk, NoStaleLink, Tidy, ForeignFiles, PartialName, IsPartialOf;
    StrangersTouchNothing(c, s, a, n, n);
    if n in s.published {
      SessionAfter(c, s, a, s.published[n]);
    }
    assert n in Apply(c, s, a).published <==> n in s.published;
    assert n in s.published ==> Apply(c, s, a).published[n] == s.published[n];
    hide Apply, Enabled;
  }

  lemma StillUndisturbed(c: Config, s: State, a: Action, n: Name)
    requires Undisturbed(s, n) && Enabled(c, s, a) && !a.Begin?
    ensures Undisturbed(Apply(c, s, a), n)
  {
    hide Apply, Enabled, IsPartialOf;
    forall i | i in Apply(c, s, a).sessions
      ensures !IsPartialOf(Apply(c, s, a).sessions[i].name, n)
    {
      SessionAfter(c, s, a, i);
    }
  }

  /** Whatever a session of another name does, the invariant of this name is kept. */
  lemma StrangersKeep(c: Config, s: State, a: Action, n: Name)
    requires Unnested(c, n) && Inv(c, s, n) && Enabled(c, s, a) && Foreign(s, a, n)
    ensures Inv(c, Apply(c, s, a), n)
  {
    hide Apply, Enabled, Unnested, LinksOk, StagesOk, NoStaleLink, ForeignFiles, PublishedOk, Tidy;
    StepKeepsTidy(c, s, a);
    StrangersKeepLinks(c, s, a, n);
    StrangersKeepStages(c, s, a, n);
    StrangersKeepFiles(c, s, a, n);
    StrangersKeepPublished(c, s, a, n);
    StillUndisturbed(c, s, a, n);
  }

  // ----- arrival, crash and restart

  lemma ArrivalKeeps(c: Config, s: State, a: Action, n: Name)
    requires Inv(c, s, n) && Enabled(c, s, a) && a.Begin? && Allowed(a, n)
    ensures Inv(c, Apply(c, s, a), n)
  {
    hide LinksOk, Tidy, PartialName, IsPartialOf, IsPartial, StageOk, Family;
    var s' := Apply(c, s, a);
    StepKeepsTidy(c, s, a);
    assert LinksOk(c, s', n) by {
      SameLinks(c, s, s', n);
    }
    forall i | i in s'.sessions && s'.sessions[i].name == n
      ensures StageOk(c, s', i)
    {
      if i != a.sid {
        StageOkSame(c, s, s', i);
      } else {
        NewcomerOk(c, s, a);
      }
    }
    forall i | i in s'.sessions && s'.sessions[i].name == n && Live(s'.sessions[i].stage)
      && SharesWithTarget(s', s'.sessions[i])
      ensures exists owner :: LinkedOwner(s', s'.sessions[i].partial, owner)
    {
      var owner :| LinkedOwner(s, s.sessions[i].partial, owner);
      assert LinkedOwner(s', s.sessions[i].partial, owner);
    }
  }

  lemma NewcomerOk(c: Config, s: State, a: Action)
    requires Enabled(c, s, a) && a.Begin?
    ensures StageOk(c, Apply(c, s, a), a.sid)
  {
    hide PartialName;
  }

  lemma SameLinks(c: Config, s: State, s': State, n: Name)
    requires LinksOk(c, s, n) && forall q :: q in s'.dir ==> q in s.dir && s'.dir[q] == s.dir[q]
    ensures LinksOk(c, s', n)
  {
    hide IsPartial, IsPartialOf;
  }

  lemma CrashKeeps(c: Config, s: State, n: Name)
    requires Inv(c, s, n) && s.serving
    ensures Inv(c, Crashed(s), n)
  {
    hide LinksOk, Tidy, PartialName, IsPartialOf, IsPartial, Family;
    assert Apply(c, s, Crash) == Crashed(s);
    StepKeepsTidy(c, s, Crash);
    SameLinks(c, s, Crashed(s), n);
    hide Apply, Enabled;
  }

  lemma RestartKeeps(c: Config, s: State, swept: set<Name>, n: Name)
    requires Inv(c, s, n) && Enabled(c, s, Restart(swept))
    ensures Inv(c, Apply(c, s, Restart(swept)), n)
  {
    hide LinksOk, PartialName, IsPartialOf, IsPartial, Family, AllNamed, SweepMatches;
    var s' := Apply(c, s, Restart(swept));
    StepKeepsTidy(c, s, Restart(swept));
    SameLinks(c, s, s', n);
  }

  // ----- steps of the name's own sessions

  /** A step of an owning session that leaves every name but its own partial alone. */
  ghost predicate OwnStep(s: State, s': State, sid: Sid)
    requires sid in s.sessions
  {
    && s'.sessions.Keys == s.sessions.Keys
    && s'.sessions[sid] == s.sessions[sid].(stage := s'.sessions[sid].stage)
    && (forall i :: i in s.sessions && i != sid ==> s'.sessions[i] == s.sessions[i])
    && (forall q :: q != s.sessions[sid].partial ==> SameEntry(s, s', q))
    && s'.published == s.published
    && Owns(s.sessions[sid].stage) && Owns(s'.sessions[sid].stage)
  }

  lemma OtherSessionKeeps(c: Config, s: State, s': State, sid: Sid, i: Sid)
    requires sid in s.sessions && OwnStep(s, s', sid) && OneWriter(s)
    requires i in s.sessions && i != sid && StageOk(c, s, i)
    requires s.sessions[i].name == s.sessions[sid].name != s.sessions[sid].partial
    ensures StageOk(c, s', i)
  {
    var p := s.sessions[i].partial;
    assert SameEntry(s, s', s.sessions[i].name);
    if p != s.sessions[sid].partial {
      assert SameEntry(s, s', p);
      StageOkSame(c, s, s', i);
    } else {
      assert Owner(s, p, sid) && !Owner(s, p, i);
    }
  }

  lemma OwnStepKeepsLinks(c: Config, s: State, s': State, sid: Sid)
    requires sid in s.sessions && Inv(c, s, s.sessions[sid].name) && OwnStep(s, s', sid)
    requires SharesWithTarget(s', s'.sessions[sid]) ==> s'.sessions[sid].stage.Linked?
    requires s.sessions[sid].stage.Linked? && s'.sessions[sid].partial in s'.dir ==> s'.sessions[sid].stage.Linked?
    ensures NoStaleLink(s', s.sessions[sid].name)
  {
    hide PartialName, IsPartialOf, IsPartial, StagesOk, LinksOk, LockOk, PublishedOk, ForeignFiles;
    var p, n := s.sessions[sid].partial, s.sessions[sid].name;
    forall i | i in s'.sessions && s'.sessions[i].name == n && Live(s'.sessions[i].stage)
      && SharesWithTarget(s', s'.sessions[i])
      ensures exists owner :: LinkedOwner(s', s'.sessions[i].partial, owner)
    {
      var ss := s.sessions[i];
      assert Named(c, ss) && Named(c, s.sessions[sid]);
      if ss.partial == p {
        assert LinkedOwner(s', p, sid);
      } else {
        assert SameEntry(s, s', ss.partial) && SameEntry(s, s', ss.name);
        assert SharesWithTarget(s, ss);
        var owner :| LinkedOwner(s, ss.partial, owner);
        assert LinkedOwner(s', ss.partial, owner);
      }
    }
  }

  lemma OwnStepKeeps(c: Config, s: State, s': State, sid: Sid)
    requires sid in s.sessions && Inv(c, s, s.sessions[sid].name) && OwnStep(s, s', sid)
    requires Tidy(c, s') && LinksOk(c, s', s.sessions[sid].name) && ForeignFiles(s', s.sessions[sid].name)
    requires StageOk(c, s', sid)
    requires SharesWithTarget(s', s'.sessions[sid]) ==> s'.sessions[sid].stage.Linked?
    requires s.sessions[sid].stage.Linked? && s'.sessions[sid].partial in s'.dir ==> s'.sessions[sid].stage.Linked?
    ensures Inv(c, s', s.sessions[sid].name)
  {
    hide IsPartial, IsPartialOf, PartialName, StageOk, SameEntry, LinksOk, ForeignFiles, NoStaleLink;
    var n := s.sessions[sid].name;
    OwnStepKeepsLinks(c, s, s', sid);
    assert Named(c, s.sessions[sid]);
    forall i | i in s'.sessions && s'.sessions[i].name == n
      ensures StageOk(c, s', i)
    {
      if i != sid {
        OtherSessionKeeps(c, s, s', sid, i);
      }
    }
    assert PublishedOk(c, s', n) by {
      assert SameEntry(s, s', n);
      EntryOfPublished(c, s, s', n);
    }
  }

  lemma EntryOfPublished(c: Config, s: State, s': State, n: Name)
    requires PublishedOk(c, s, n) && SameEntry(s, s', n) && s'.published == s.published
    requires forall i :: i in s.sessions ==>
      i in s'.sessions && s'.sessions[i] == s.sessions[i].(stage := s'.sessions[i].stage)
    ensures PublishedOk(c, s', n)
  {
  }

  /** Where the family's inodes come from: they were there, or are new, or the partial's. */
  lemma FamilyFiles(s: State, s': State, n: Name, p: Name)
    requires ForeignFiles(s, n) && OpenAllocated(s) && Family(n, p)
    requires forall q :: q in s'.dir && Family(n, q) ==>
      || (q in s.dir && s'.dir[q] == s.dir[q])
      || s'.dir[q] !in s.data
      || (p in s.dir && s'.dir[q] == s.dir[p])
    requires forall i :: i in s'.sessions && s'.sessions[i].name != n ==>
      i in s.sessions && s'.sessions[i] == s.sessions[i]
    ensures ForeignFiles(s', n)
  {
    hide Family;
  }

  /** The partial keeps its inode, or goes, or is created; all other bindings stay. */
  ghost predicate Rebinds(s: State, s': State, p: Name) {
    forall q :: q in s'.dir ==> (q in s.dir && s'.dir[q] == s.dir[q]) || (q == p && s'.dir[q] !in s.data)
  }

  lemma RebindKeepsLinks(c: Config, s: State, s': State, n: Name, p: Name)
    requires LinksOk(c, s, n) && Allocated(s) && Rebinds(s, s', p)
    ensures LinksOk(c, s', n)
  {
    hide IsPartial, IsPartialOf;
  }

  /** The steps of an owning session other than the link. */
  lemma OwnerKeeps(c: Config, s: State, s': State, sid: Sid)
    requires sid in s.sessions && Inv(c, s, s.sessions[sid].name) && OwnStep(s, s', sid) && Tidy(c, s')
    requires Rebinds(s, s', s.sessions[sid].partial)
    requires StageOk(c, s', sid) && !s'.sessions[sid].stage.Linked?
    requires SharesWithTarget(s', s'.sessions[sid]) ==> SharesWithTarget(s, s.sessions[sid])
    requires s.sessions[sid].stage.Linked? ==> s.sessions[sid].partial !in s'.dir
    ensures Inv(c, s', s.sessions[sid].name)
  {
    hide IsPartial, IsPartialOf, PartialName, StageOk, StagesOk, NoStaleLink, PublishedOk, LinksOk, ForeignFiles;
    hide LockOk, SameEntry;
    var p, n := s.sessions[sid].partial, s.sessions[sid].name;
    assert Named(c, s.sessions[sid]);
    if !s.sessions[sid].stage.Linked? {
      NotLinkedNotShared(c, s, sid);
    }
    RebindKeepsLinks(c, s, s', n, p);
    FamilyFiles(s, s', n, p);
    hide Tidy;
    OwnStepKeeps(c, s, s', sid);
  }

  /** Nothing but the stage. */
  lemma StageStepKeeps(c: Config, s: State, sid: Sid, stage: Stage)
    requires sid in s.sessions && Inv(c, s, s.sessions[sid].name) && Tidy(c, SetStage(s, sid, stage))
    requires Owns(s.sessions[sid].stage) && Owns(stage) && !s.sessions[sid].stage.Linked? && !stage.Linked?
    requires StageOk(c, SetStage(s, sid, stage), sid)
    ensures Inv(c, SetStage(s, sid, stage), s.sessions[sid].name)
  {
    hide Inv, Tidy, StageOk;
    OwnerKeeps(c, s, SetStage(s, sid, stage), sid);
  }

  lemma RemoveStepKeeps(c: Config, s: State, sid: Sid, stage: Stage)
    requires sid in s.sessions && Inv(c, s, s.sessions[sid].name)
    requires Owns(s.sessions[sid].stage) && Owns(stage) && !stage.Linked?
    requires var s' := SetStage(Remove(s, s.sessions[sid].partial), sid, stage); Tidy(c, s') && StageOk(c, s', sid)
    ensures Inv(c, SetStage(Remove(s, s.sessions[sid].partial), sid, stage), s.sessions[sid].name)
  {
    hide Inv, Tidy, StageOk;
    OwnerKeeps(c, s, SetStage(Remove(s, s.sessions[sid].partial), sid, stage), sid);
  }

  lemma AppendStepKeeps(c: Config, s: State, sid: Sid, more: bytes, stage: Stage)
    requires sid in s.sessions && Inv(c, s, s.sessions[sid].name)
    requires s.sessions[sid].stage.Receiving? && Owns(stage) && !stage.Linked?
    requires var s' := SetStage(Append(s, s.sessions[sid].stage.fd, more), sid, stage);
      Tidy(c, s') && StageOk(c, s', sid)
    ensures Inv(c, SetStage(Append(s, s.sessions[sid].stage.fd, more), sid, stage), s.sessions[sid].name)
  {
    hide Inv, Tidy, StageOk;
    WriterAlone(c, s, sid);
    OwnerKeeps(c, s, SetStage(Append(s, s.sessions[sid].stage.fd, more), sid, stage), sid);
  }

  lemma CreateStepKeeps(c: Config, s: State, sid: Sid, inode: Inode)
    requires sid in s.sessions && Inv(c, s, s.sessions[sid].name)
    requires s.sessions[sid].stage.Offered? && Missing(s, sid) && inode !in s.data
    requires Tidy(c, SetStage(Created(s, s.sessions[sid].partial, inode), sid, Receiving(inode, 0, [])))
    ensures Inv(c, SetStage(Created(s, s.sessions[sid].partial, inode), sid, Receiving(inode, 0, [])),
                s.sessions[sid].name)
  {
    hide Inv, Tidy, IsPartial, IsPartialOf, PartialName;
    SessionFacts(c, s, sid);
    OwnerKeeps(c, s, SetStage(Created(s, s.sessions[sid].partial, inode), sid, Receiving(inode, 0, [])), sid);
  }

  // ----- publication

  lemma LinkKeepsLinks(c: Config, s: State, sid: Sid)
    requires sid in s.sessions && Inv(c, s, s.sessions[sid].name) && Unnested(c, s.sessions[sid].name)
    requires s.sessions[sid].stage.Verified? && !Missing(s, sid) && s.sessions[sid].name !in s.dir
    ensures LinksOk(c, Published(s, sid), s.sessions[sid].name)
    ensures NoStaleLink(Published(s, sid), s.sessions[sid].name)
  {
    hide IsPartial, IsPartialOf, PartialName, StagesOk, LockOk, PublishedOk, ForeignFiles;
    var s', ss := Published(s, sid), s.sessions[sid];
    assert Named(c, ss);
    // only the partial and the target can share the inode
    assert forall q :: q in s.dir && q != ss.partial ==> s.dir[q] != s.dir[ss.partial];
    forall i | i in s'.sessions && s'.sessions[i].name == ss.name && SharesWithTarget(s', s'.sessions[i])
      ensures LinkedOwner(s', s'.sessions[i].partial, sid)
    {
      assert Named(c, s.sessions[i]);
    }
  }

  lemma LinkKeepsStages(c: Config, s: State, sid: Sid)
    requires sid in s.sessions && Inv(c, s, s.sessions[sid].name)
    requires s.sessions[sid].stage.Verified? && !Missing(s, sid) && s.sessions[sid].name !in s.dir
    ensures StagesOk(c, Published(s, sid), s.sessions[sid].name)
    ensures PublishedOk(c, Published(s, sid), s.sessions[sid].name)
  {
    hide IsPartial, IsPartialOf, PartialName, LockOk, LinksOk, ForeignFiles, NoStaleLink, StageOk;
    var s', ss := Published(s, sid), s.sessions[sid];
    assert Named(c, ss);
    forall i | i in s'.sessions && s'.sessions[i].name == ss.name
      ensures StageOk(c, s', i)
    {
      assert Named(c, s.sessions[i]) && StageOk(c, s, i);
      LinkKeepsStage(c, s, sid, i);
    }
    assert StageOk(c, s, sid);
    LinkKeepsPublished(c, s, sid);
  }

  lemma LinkKeepsStage(c: Config, s: State, sid: Sid, i: Sid)
    requires sid in s.sessions && i in s.sessions && StageOk(c, s, i) && StageOk(c, s, sid)
    requires s.sessions[sid].stage.Verified? && !Missing(s, sid) && s.sessions[sid].name !in s.dir
    requires s.sessions[i].partial != s.sessions[sid].name == s.sessions[i].name
    requires s.sessions[sid].partial != s.sessions[sid].name
    ensures StageOk(c, Published(s, sid), i)
  {
  }

  lemma LinkKeepsPublished(c: Config, s: State, sid: Sid)
    requires sid in s.sessions && StageOk(c, s, sid) && s.sessions[sid].stage.Verified?
    requires s.sessions[sid].name !in s.dir
    ensures PublishedOk(c, Published(s, sid), s.sessions[sid].name)
  {
  }

  lemma LinkKeeps(c: Config, s: State, sid: Sid)
    requires sid in s.sessions && Inv(c, s, s.sessions[sid].name) && Unnested(c, s.sessions[sid].name)
    requires s.sessions[sid].stage.Verified? && !Missing(s, sid) && s.sessions[sid].name !in s.dir
    requires Tidy(c, Published(s, sid))
    ensures Inv(c, Published(s, sid), s.sessions[sid].name)
  {
    hide IsPartial, IsPartialOf, PartialName, Unnested;
    hide LockOk, LinksOk, ForeignFiles, NoStaleLink, StagesOk, PublishedOk;
    LinkKeepsLinks(c, s, sid);
    LinkKeepsStages(c, s, sid);
    assert Named(c, s.sessions[sid]);
    FamilyFiles(s, Published(s, sid), s.sessions[sid].name, s.sessions[sid].partial);
  }

  // ----- acquiring and releasing

  /** A step of a session that owns nothing before or nothing after: only its stage is new. */
  lemma GateKeeps(c: Config, s: State, s': State, sid: Sid)
    requires sid in s.sessions && Inv(c, s, s.sessions[sid].name) && Tidy(c, s') && SameFiles(s, s')
    requires s'.sessions.Keys == s.sessions.Keys
    requires s'.sessions[sid] == s.sessions[sid].(stage := s'.sessions[sid].stage)
    requires forall i :: i in s.sessions && i != sid ==> s'.sessions[i] == s.sessions[i]
    requires StageOk(c, s', sid) && Live(s.sessions[sid].stage) && !s.sessions[sid].stage.Linked?
    ensures Inv(c, s', s.sessions[sid].name)
  {
    hide IsPartial, IsPartialOf, PartialName, LockOk, LinksOk, StageOk, Tidy;
    var n := s.sessions[sid].name;
    SameLinks(c, s, s', n);
    EntryOfPublished(c, s, s', n);
    forall i | i in s'.sessions && s'.sessions[i].name == n
      ensures StageOk(c, s', i)
      ensures Live(s'.sessions[i].stage) && SharesWithTarget(s', s'.sessions[i]) ==>
        exists owner :: LinkedOwner(s', s'.sessions[i].partial, owner)
    {
      if i != sid {
        StageOkSame(c, s, s', i);
      }
      if Live(s'.sessions[i].stage) && SharesWithTarget(s', s'.sessions[i]) {
        assert SharesWithTarget(s, s.sessions[i]);
        var owner :| LinkedOwner(s, s.sessions[i].partial, owner);
        assert LinkedOwner(s', s'.sessions[i].partial, owner);
      }
    }
  }

  // ----- every action

  predicate Own(s: State, a: Action, n: Name) {
    !a.Restart? && !a.Crash? && !a.Begin? && a.sid in s.sessions && s.sessions[a.sid].name == n
  }

  lemma RemovalKeeps(c: Config, s: State, a: Action, n: Name)
    requires Inv(c, s, n) && Enabled(c, s, a) && Own(s, a, n) && (a.DropOversize? || a.Unlink?)
    ensures Inv(c, Apply(c, s, a), n)
  {
    hide Inv, Named, Tidy;
    SessionFacts(c, s, a.sid);
    OwnTidy(c, s, a, n);
    RemoveStepKeeps(c, s, a.sid, Apply(c, s, a).sessions[a.sid].stage);
  }

  lemma AppendKeeps(c: Config, s: State, a: Action, n: Name)
    requires Inv(c, s, n) && Enabled(c, s, a) && Own(s, a, n)
    requires a.Flush? || a.Close? || (a.Abort? && s.sessions[a.sid].stage.Receiving?)
    ensures Inv(c, Apply(c, s, a), n)
  {
    hide Inv, Named, Tidy;
    SessionFacts(c, s, a.sid);
    OwnTidy(c, s, a, n);
    var buf := s.sessions[a.sid].stage.buf;
    AppendStepKeeps(c, s, a.sid, if a.Flush? then buf[..a.count] else buf, Apply(c, s, a).sessions[a.sid].stage);
  }

  lemma StageKeeps(c: Config, s: State, a: Action, n: Name)
    requires Inv(c, s, n) && Enabled(c, s, a) && Own(s, a, n)
    requires a.Stat? || a.Recv? || a.Hash? || a.Reply? || (a.Abort? && !s.sessions[a.sid].stage.Receiving?)
    ensures Inv(c, Apply(c, s, a), n)
  {
    hide Inv, Named, Tidy;
    SessionFacts(c, s, a.sid);
    OwnTidy(c, s, a, n);
    StageStepKeeps(c, s, a.sid, Apply(c, s, a).sessions[a.sid].stage);
  }

  lemma OpenKeeps(c: Config, s: State, a: Action, n: Name)
    requires Inv(c, s, n) && Enabled(c, s, a) && Own(s, a, n) && a.Open?
    ensures Inv(c, Apply(c, s, a), n)
  {
    hide Inv, Named, Tidy;
    var ss := s.sessions[a.sid];
    SessionFacts(c, s, a.sid);
    OwnTidy(c, s, a, n);
    if ss.partial in s.dir {
      StageStepKeeps(c, s, a.sid, Receiving(s.dir[ss.partial], ss.stage.offset, []));
    } else {
      CreateStepKeeps(c, s, a.sid, a.inode);
    }
  }

  lemma PublicationKeeps(c: Config, s: State, a: Action, n: Name)
    requires Unnested(c, n) && Inv(c, s, n) && Enabled(c, s, a) && Own(s, a, n) && a.Link?
    ensures Inv(c, Apply(c, s, a), n)
  {
    hide Inv, Named, Tidy, Unnested;
    SessionFacts(c, s, a.sid);
    OwnTidy(c, s, a, n);
    if n in s.dir {
      StageStepKeeps(c, s, a.sid, LostRace);
    } else {
      LinkKeeps(c, s, a.sid);
    }
  }

  lemma PassageKeeps(c: Config, s: State, a: Action, n: Name)
    requires Inv(c, s, n) && Enabled(c, s, a) && Own(s, a, n) && (a.Acquire? || a.Release?)
    ensures Inv(c, Apply(c, s, a), n)
  {
    hide Inv, Named, Tidy;
    OwnTidy(c, s, a, n);
    GateKeeps(c, s, Apply(c, s, a), a.sid);
  }

  lemma OwnTidy(c: Config, s: State, a: Action, n: Name)
    requires Inv(c, s, n) && Enabled(c, s, a)
    ensures Tidy(c, Apply(c, s, a))
  {
    hide Tidy;
    StepKeepsTidy(c, s, a);
  }

  lemma OwnKeeps(c: Config, s: State, a: Action, n: Name)
    requires Unnested(c, n) && Inv(c, s, n) && Enabled(c, s, a) && Own(s, a, n)
    ensures Inv(c, Apply(c, s, a), n)
  {
    hide Apply, Inv, Unnested;
    match a
    case Acquire(_) => PassageKeeps(c, s, a, n);
    case Release(_) => PassageKeeps(c, s, a, n);
    case Open(_, _) => OpenKeeps(c, s, a, n);
    case Link(_) => PublicationKeeps(c, s, a, n);
    case DropOversize(_) => RemovalKeeps(c, s, a, n);
    case Unlink(_) => RemovalKeeps(c, s, a, n);
    case Flush(_, _) => AppendKeeps(c, s, a, n);
    case Close(_) => AppendKeeps(c, s, a, n);
    case Abort(sid) =>
      if s.sessions[sid].stage.Receiving? {
        AppendKeeps(c, s, a, n);
      } else {
        StageKeeps(c, s, a, n);
      }
    case _ => StageKeeps(c, s, a, n);
  }

  /** Every action of every session, of this name or another, the crash and the restart keep the
      invariant of a name, as long as nobody begins to upload one of its partials as a file. */
  lemma StepKeeps(c: Config, s: State, a: Action, n: Name)
    requires Unnested(c, n) && Inv(c, s, n) && Enabled(c, s, a) && Allowed(a, n)
    ensures Inv(c, Apply(c, s, a), n)
  {
    hide Inv, Unnested;
    match a
    case Begin(_, _, _, _) => ArrivalKeeps(c, s, a, n);
    case Crash => CrashKeeps(c, s, n);
    case Restart(swept) => RestartKeeps(c, s, swept, n);
    case _ =>
      hide Apply;
      if s.sessions[a.sid].name == n {
        OwnKeeps(c, s, a, n);
      } else {
        StrangersKeep(c, s, a, n);
      }
  }

  /** The invariant holds in every state any such schedule reaches. */
  lemma {:induction false} RunKeeps(c: Config, s: State, acts: seq<Action>, n: Name)
    requires Unnested(c, n) && Inv(c, s, n) && Legal(c, s, acts) && Avoids(acts, n)
    ensures Inv(c, Exec(c, s, acts), n)
    decreases |acts|
  {
    hide Inv, Unnested;
    if acts != [] {
      StepKeeps(c, s, acts[0], n);
      RunKeeps(c, Apply(c, s, acts[0]), acts[1..], n);
    }
  }
}
