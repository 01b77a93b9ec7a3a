/**
  Which stored files are safe for good: the exact conditions on names, for any server, and the runs
  that rewrite the files of all other names.
 */
module UploadDurability {
  import opened ByteOrder
  import opened Names
  import opened Uploads
  import opened UploadInvariant
  import opened UploadTheorems
  import opened UploadRuns

  /** In every schedule from every starting directory, the name once bound keeps its inode and its
      bytes, through uploads, disconnects, crashes, restarts and sweeps. */
  ghost predicate Durable(c: Config, n: Name) {
    forall s, before, after ::
      Init(c, s) && Legal(c, s, before) && Legal(c, Exec(c, s, before), after) && n in Exec(c, s, before).dir
      ==> SameEntry(Exec(c, s, before), Exec(c, Exec(c, s, before), after), n)
  }

  /** The same for as long as no sweep takes the name away. */
  ghost predicate Immutable(c: Config, n: Name) {
    forall s, before, after ::
      Init(c, s) && Legal(c, s, before) && Legal(c, Exec(c, s, before), after) && n in Exec(c, s, before).dir
      && Spares(after, n)
      ==> SameEntry(Exec(c, s, before), Exec(c, Exec(c, s, before), after), n)
  }

  // ----- safe names

  lemma IsolatedIsImmutable(c: Config, n: Name)
    requires Isolated(c, n)
    ensures Immutable(c, n)
  {
    hide Init, Inv;
    forall s, before, after |
      Init(c, s) && Legal(c, s, before) && Legal(c, Exec(c, s, before), after) && n in Exec(c, s, before).dir
      && Spares(after, n)
      ensures SameEntry(Exec(c, s, before), Exec(c, Exec(c, s, before), after), n)
    {
      IsolatedAvoids(c, s, before, n);
      IsolatedAvoids(c, Exec(c, s, before), after, n);
      InvAlong(c, s, before, n);
      EntryKeptAlong(c, Exec(c, s, before), after, n);
    }
  }

  lemma PlainImmutableIsDurable(c: Config, n: Name)
    requires Immutable(c, n) && !SweepMatches(n)
    ensures Durable(c, n)
  {
    hide Init, SameEntry, SweepMatches, Spares;
    forall s, before, after |
      Init(c, s) && Legal(c, s, before) && Legal(c, Exec(c, s, before), after) && n in Exec(c, s, before).dir
      ensures SameEntry(Exec(c, s, before), Exec(c, Exec(c, s, before), after), n)
    {
      PlainIsSpared(c, Exec(c, s, before), after, n);
    }
  }

  // ----- names the sweep takes

  lemma SweptIsNotDurable(c: Config, n: Name)
    requires SweepMatches(n)
    ensures !Durable(c, n)
  {
    hide Init, Apply, Enabled;
    SweptAway(c, n);
    var s := Holding(n);
    assert Legal(c, s, []) && Exec(c, s, []) == s;
    assert n in s.dir && !SameEntry(s, Exec(c, s, [Restart({n})]), n);
  }

  // ----- names that are partials

  /** The schedule of an upload that appends one byte to the partial it finds. */
  function Intrusion(sid: Sid, m: Name, d: Digest, b: byte): seq<Action> {
    [Begin(sid, m, d, 1), Acquire(sid), Stat(sid)] + [Open(sid, 1), Recv(sid, [b]), Flush(sid, 1)]
  }

  /** It goes through whenever the partial is there, empty and not in flight. */
  lemma Intrudes(c: Config, s: State, sid: Sid, m: Name, d: Digest, b: byte)
    requires s.serving && sid !in s.sessions && c.accepts(m) && m !in s.dir && 1 !in s.data
    requires var p := PartialName(m, d); p !in s.inFlight && p in s.dir && s.dir[p] in s.data && Content(s, p) == []
    ensures var acts, p := Intrusion(sid, m, d, b), PartialName(m, d);
      && Legal(c, s, acts)
      && var e := Exec(c, s, acts);
      && e.serving && e.dir == s.dir && e.data == s.data[s.dir[p] := [b]] && e.published == s.published
      && e.sessions.Keys == s.sessions.Keys + {sid}
      && forall i :: i in s.sessions ==> i in e.sessions && e.sessions[i] == s.sessions[i]
  {
    hide PartialName, Reaches;
    var p := PartialName(m, d);
    var s1 := Entered(s, sid, Session(m, d, 1, p, Offered(0)));
    Starts(c, s, sid, m, d, 1);
    Appends(c, s1, sid, b, 1);
    assert [] + [b] == [b];
    ExecConcat(c, s, [Begin(sid, m, d, 1), Acquire(sid), Stat(sid)], [Open(sid, 1), Recv(sid, [b]), Flush(sid, 1)]);
  }

  /** An accepted name that is the partial of another accepted name: the other upload finds it, takes
      it for its own partial and appends to the stored file, with no crash and no sweep. */
  lemma WrittenThrough(c: Config, m: Name, d: Digest, b: byte)
    requires c.accepts(m)
    ensures var n, acts := PartialName(m, d), Intrusion(1, m, d, b);
      && Init(c, Holding(n)) && Step(c, Holding(n), Restart({}), Holding(n).(serving := true))
      && Legal(c, Holding(n).(serving := true), acts) && Spares(acts, n)
      && var e := Exec(c, Holding(n).(serving := true), acts);
      && n in e.dir && Content(Holding(n), n) == [] && Content(e, n) == [b]
  {
    PartialIsLonger(m, d);
    hide PartialName;
    Intrudes(c, Holding(PartialName(m, d)).(serving := true), 1, m, d, b);
  }

  lemma PartialIsNotImmutable(c: Config, n: Name)
    requires IsPartial(c, n)
    ensures !Immutable(c, n)
  {
    hide Init, Step, Apply, Enabled, Spares, Content;
    var m, d := TargetOf(c, n);
    WrittenThrough(c, m, d, 0);
    var s, s' := Holding(n), Holding(n).(serving := true);
    OneStep(c, s, Restart({}), s');
    assert !SameEntry(s', Exec(c, s', Intrusion(1, m, d, 0)), n) by {
      DifferentBytes(s, s', Exec(c, s', Intrusion(1, m, d, 0)), n);
    }
  }

  lemma DifferentBytes(s: State, s': State, e: State, n: Name)
    requires s'.dir == s.dir && s'.data == s.data && n in s.dir && Content(s, n) != Content(e, n)
    ensures !SameEntry(s', e, n)
  {
  }

  // ----- names with an accepted partial

  /** A crash between link and unlink left the upload of p half done: p and its partial are one file. */
  function Leftover(c: Config, p: Name, serving: bool, stage: Stage, fly: set<Name>): State {
    var pp := EmptyPartial(c, p);
    State(serving, map[pp := 0, p := 0], map[0 := []], fly, map[1 := Session(p, c.hash([]), 0, pp, stage)], map[p := 1])
  }

  /** Then the upload of n took p for its own partial and was told OK: now n and pp are one file. */
  function Shared(c: Config, n: Name): State {
    var p := EmptyPartial(c, n);
    var pp := EmptyPartial(c, p);
    State(true, map[pp := 0, n := 0], map[0 := []], {},
          map[1 := Session(p, c.hash([]), 0, pp, Done(Killed)), 2 := Session(n, c.hash([]), 0, p, Done(Stored))],
          map[p := 1, n := 2])
  }

  lemma HalfDone(c: Config, p: Name)
    requires c.accepts(p)
    ensures Reaches(c, Empty, Leftover(c, p, true, Done(Killed), {}))
  {
    hide Reaches;
    var s1, s2 := Empty.(serving := true), Leftover(c, p, true, Linked, {EmptyPartial(c, p)});
    var s3, s4 := Leftover(c, p, false, Done(Killed), {}), Leftover(c, p, true, Done(Killed), {});
    FirstUpload(c, p);
    Publishes(c, s1, 1, p, [], 0);
    HalfDoneSteps(c, p);
    hide Step, Leftover;
    ReachesRefl(c, Empty);
    ReachesStep(c, Empty, Empty, Restart({}), s1);
    ReachesTrans(c, Empty, s1, s2);
    ReachesStep(c, Empty, s2, Crash, s3);
    ReachesStep(c, Empty, s3, Restart({}), s4);
  }

  lemma HalfDoneSteps(c: Config, p: Name)
    ensures EmptyLinked(c, Empty.(serving := true), 1, p, 0) == Leftover(c, p, true, Linked, {EmptyPartial(c, p)})
    ensures Step(c, Leftover(c, p, true, Linked, {EmptyPartial(c, p)}), Crash, Leftover(c, p, false, Done(Killed), {}))
    ensures Step(c, Leftover(c, p, false, Done(Killed), {}), Restart({}), Leftover(c, p, true, Done(Killed), {}))
  {
    PartialIsLonger(p, c.hash([]));
    hide PartialName;
  }

  lemma TakenOver(c: Config, n: Name)
    requires c.accepts(n)
    ensures Reaches(c, Leftover(c, EmptyPartial(c, n), true, Done(Killed), {}), Shared(c, n))
  {
    hide Reaches;
    var p := EmptyPartial(c, n);
    PartialIsLonger(n, c.hash([]));
    PartialIsLonger(p, c.hash([]));
    hide PartialName;
    var s := Leftover(c, p, true, Done(Killed), {});
    Stores(c, s, 2, n, 1);
    assert EmptyStored(c, s, 2, n, 1) == Shared(c, n);
  }

  /** A plain name is not safe either while a partial of it is accepted as a name: PUT the partial,
      crash between link and unlink, PUT the name, and it is told OK; PUT the partial again, and the
      stored file changes under its name. */
  lemma PlainNameRewritten(c: Config, n: Name, b: byte)
    requires c.accepts(n) && c.accepts(EmptyPartial(c, n))
    ensures Init(c, Empty) && Reaches(c, Empty, Shared(c, n))
    ensures Shared(c, n).sessions[2].name == n && GotOk(Shared(c, n).sessions[2])
    ensures var s, acts := Shared(c, n), Intrusion(3, EmptyPartial(c, n), c.hash([]), b);
      && Legal(c, s, acts) && Spares(acts, n)
      && var e := Exec(c, s, acts);
      && n in s.dir && n in e.dir && e.dir[n] == s.dir[n] && Content(s, n) == [] && Content(e, n) == [b]
      && Publisher(e, n, 2) && 2 in e.sessions && e.sessions[2] == s.sessions[2]
  {
    var p := EmptyPartial(c, n);
    PartialIsLonger(n, c.hash([]));
    PartialIsLonger(p, c.hash([]));
    hide Reaches, PartialName;
    HalfDone(c, p);
    TakenOver(c, n);
    ReachesTrans(c, Empty, Leftover(c, p, true, Done(Killed), {}), Shared(c, n));
    Intrudes(c, Shared(c, n), 3, p, c.hash([]), b);
  }

  lemma RewrittenIsNotImmutable(c: Config, n: Name)
    requires c.accepts(n) && c.accepts(EmptyPartial(c, n))
    ensures !Immutable(c, n)
  {
    hide Init, Apply, Enabled, PartialName, Spares;
    PlainNameRewritten(c, n, 0);
    var mid, after := Shared(c, n), Intrusion(3, EmptyPartial(c, n), c.hash([]), 0);
    var before :| Legal(c, Empty, before) && Exec(c, Empty, before) == mid;
    assert !SameEntry(mid, Exec(c, mid, after), n);
  }

  // ----- verified content

  /** In every reachable state the name, if published and there, holds what its publisher stated. */
  ghost predicate AlwaysVerified(c: Config, n: Name) {
    forall s, acts | Init(c, s) && Legal(c, s, acts) :: IsVerified(c, Exec(c, s, acts), n)
  }

  lemma IsolatedIsAlwaysVerified(c: Config, n: Name)
    requires Isolated(c, n)
    ensures AlwaysVerified(c, n)
  {
    hide Init, Unnested, IsVerified;
    forall s, acts | Init(c, s) && Legal(c, s, acts)
      ensures IsVerified(c, Exec(c, s, acts), n)
    {
      IsolatedAvoids(c, s, acts, n);
      PublishedIsVerified(c, s, acts, n);
    }
  }

  lemma NotVerified(c: Config, mid: State, acts: seq<Action>, n: Name)
    requires Init(c, Empty) && Reaches(c, Empty, mid) && Legal(c, mid, acts) && !IsVerified(c, Exec(c, mid, acts), n)
    ensures !AlwaysVerified(c, n)
  {
    hide Init, IsVerified;
    var before :| Legal(c, Empty, before) && Exec(c, Empty, before) == mid;
    ExecConcat(c, Empty, before, acts);
  }

  lemma RewrittenIsNotVerified(c: Config, n: Name)
    requires c.accepts(n) && c.accepts(EmptyPartial(c, n))
    ensures !AlwaysVerified(c, n)
  {
    hide Init, Apply, Enabled, PartialName, Reaches;
    PlainNameRewritten(c, n, 0);
    NotVerified(c, Shared(c, n), Intrusion(3, EmptyPartial(c, n), c.hash([]), 0), n);
  }

  /** A name that is a partial, stored as the empty file. */
  lemma StoredOnce(c: Config, n: Name)
    requires c.accepts(n)
    ensures Init(c, Empty) && Reaches(c, Empty, Once(c, n, true, map[n := 0]))
  {
    hide Init, Apply, Enabled, PartialName, Reaches, Step, EmptyStored, Free;
    var s1, s2 := Empty.(serving := true), Once(c, n, true, map[n := 0]);
    FirstUpload(c, n);
    Stores(c, s1, 1, n, 0);
    ReachesRefl(c, Empty);
    ReachesStep(c, Empty, Empty, Restart({}), s1);
    ReachesTrans(c, Empty, s1, s2);
    EmptyIsInit(c);
  }

  lemma PartialIsNotVerified(c: Config, n: Name)
    requires c.accepts(n) && IsPartial(c, n)
    ensures !AlwaysVerified(c, n)
  {
    var m, d := TargetOf(c, n);
    PartialIsLonger(m, d);
    hide Init, Apply, Enabled, PartialName, Reaches;
    StoredOnce(c, n);
    Intrudes(c, Once(c, n, true, map[n := 0]), 2, m, d, 0);
    NotVerified(c, Once(c, n, true, map[n := 0]), Intrusion(2, m, d, 0), n);
  }

  /** What a partial is the partial of, with some digest of its token. */
  lemma TargetOf(c: Config, n: Name) returns (m: Name, d: Digest)
    requires IsPartial(c, n)
    ensures c.accepts(m) && n == PartialName(m, d) && d != c.hash([])
  {
    m :| c.accepts(m) && IsPartialOf(n, m);
    var t: bytes :| |t| == TOKEN_SIZE && n == PartialOf(m, t);
    d := OtherDigest(c, t);
  }

  // ----- the exact conditions

  /** On a whole server: nothing accepted is ever rewritten exactly when no accepted name is the
      partial of another. */
  lemma ImmutableIff(c: Config)
    ensures (forall n :: c.accepts(n) ==> Immutable(c, n)) <==> (forall n :: c.accepts(n) ==> !IsPartial(c, n))
  {
    hide Immutable, IsPartial;
    forall n | c.accepts(n)
      ensures IsPartial(c, n) ==> !Immutable(c, n)
    {
      if IsPartial(c, n) {
        PartialIsNotImmutable(c, n);
      }
    }
    if forall n :: c.accepts(n) ==> !IsPartial(c, n) {
      forall n | c.accepts(n)
        ensures Immutable(c, n)
      {
        NoNestingIsolates(c, n);
        IsolatedIsImmutable(c, n);
      }
    }
  }

  lemma NoNestingIsolates(c: Config, n: Name)
    requires c.accepts(n) && forall m :: c.accepts(m) ==> !IsPartial(c, m)
    ensures Isolated(c, n)
  {
    forall p | IsPartialOf(p, n)
      ensures IsPartial(c, p)
    {
    }
  }

  /** And every accepted name is durable exactly when none matches the sweep's glob. */
  lemma DurableIffSweepFree(c: Config)
    ensures (forall n :: c.accepts(n) ==> Durable(c, n)) <==> SweepFree(c)
  {
    hide Durable, SweepMatches, Immutable;
    if SweepFree(c) {
      forall n | c.accepts(n)
        ensures Durable(c, n)
      {
        forall m | c.accepts(m)
          ensures !IsPartial(c, m)
        {
          PlainIsNoPartial(c, m);
        }
        NoNestingIsolates(c, n);
        IsolatedIsImmutable(c, n);
        PlainImmutableIsDurable(c, n);
      }
    }
    forall n | c.accepts(n) && SweepMatches(n)
      ensures !Durable(c, n)
    {
      SweptIsNotDurable(c, n);
    }
  }
}
