/**
  The concurrent upload protocol of the server as a transition system.

  Any number of sessions share one directory and the `_in_flight` set. A directory maps names to
  inodes and inodes hold bytes, because publication is a hard link: for a moment the partial and
  the published name are the same file. Every step that another session, a crash or a restart can
  come between is an action of its own.
 */
module Uploads {
  import opened ByteOrder
  import opened Names

  type Inode = nat
  type Sid = nat

  const CHUNK_SIZE: nat := 65536

  /** The hash is any function with a 32-byte result, and `accepts` is the set of target names. */
  datatype Config = Config(hash: bytes -> Digest, accepts: Name -> bool)

  /** How a session ended: the final OK, one of the two refusals, a broken connection or an
      exception, or the server process dying under it. */
  datatype Outcome = Stored | Corrupt | AlreadyExists | Dropped | Killed

  /** Where a session stands in `handle_put` and `_receive_upload`. */
  datatype Stage =
    | Checked                                        // the name did not exist when asked
    | Acquired                                       // its partial is in `_in_flight`
    | Oversize                                       // the partial found is longer than the file
    | Offered(offset: nat)                           // the resume offset is decided
    | Receiving(fd: Inode, written: nat, buf: bytes) // the partial is open, `buf` is not on disk yet
    | Received                                       // all bytes are in and the partial is closed
    | Verified                                       // the hash matched
    | Mismatch                                       // the hash did not match
    | LostRace                                       // the link found the name taken
    | Linked                                         // published, the partial not yet unlinked
    | Replying(outcome: Outcome)                     // about to send the verdict
    | Releasing(outcome: Outcome)                    // about to leave `_in_flight`
    | Done(outcome: Outcome)

  datatype Session = Session(name: Name, digest: Digest, size: nat, partial: Name, stage: Stage)

  /** `published` records which session linked each name; the server itself does not keep it. */
  datatype State = State(
    serving: bool,
    dir: map<Name, Inode>,
    data: map<Inode, bytes>,
    inFlight: set<Name>,
    sessions: map<Sid, Session>,
    published: map<Name, Sid>)

  datatype Action =
    | Begin(sid: Sid, name: Name, digest: Digest, size: nat)
    | Acquire(sid: Sid)
    | Stat(sid: Sid)
    | DropOversize(sid: Sid)
    | Open(sid: Sid, inode: Inode)
    | Recv(sid: Sid, chunk: bytes)
    | Flush(sid: Sid, count: nat)
    | Close(sid: Sid)
    | Hash(sid: Sid)
    | Link(sid: Sid)
    | Unlink(sid: Sid)
    | Reply(sid: Sid)
    | Release(sid: Sid)
    | Abort(sid: Sid)
    | Crash
    | Restart(swept: set<Name>)

  // ----- small pieces

  /** A session holds its partial from the lock until the `finally` clause. */
  predicate Owns(stage: Stage) {
    !stage.Checked? && !stage.Done?
  }

  predicate Live(stage: Stage) {
    !stage.Done?
  }

  predicate At(s: State, sid: Sid) {
    s.serving && sid in s.sessions
  }

  /** The bytes under a name; empty if the name is not there. */
  function Content(s: State, p: Name): bytes {
    if p in s.dir && s.dir[p] in s.data then s.data[s.dir[p]] else []
  }

  function SetStage(s: State, sid: Sid, stage: Stage): State
    requires sid in s.sessions
  {
    s.(sessions := s.sessions[sid := s.sessions[sid].(stage := stage)])
  }

  function Remove(s: State, p: Name): State {
    s.(dir := s.dir - {p})
  }

  predicate Missing(s: State, sid: Sid)
    requires sid in s.sessions
  {
    s.sessions[sid].partial !in s.dir
  }

  /** An exception inside `_receive_upload`: nothing more is done but the release. */
  function Raise(s: State, sid: Sid): State
    requires sid in s.sessions
  {
    SetStage(s, sid, Releasing(Dropped))
  }

  /** `O_APPEND` writes go to the inode that was opened, whatever the directory says by then. */
  function Append(s: State, fd: Inode, more: bytes): State {
    s.(data := s.data[fd := (if fd in s.data then s.data[fd] else []) + more])
  }

  function Created(s: State, p: Name, inode: Inode): State {
    s.(dir := s.dir[p := inode], data := s.data[inode := []])
  }

  function Joined(s: State, sid: Sid, ss: Session): State {
    s.(sessions := s.sessions[sid := ss])
  }

  function Locked(s: State, sid: Sid): State
    requires sid in s.sessions
  {
    SetStage(s, sid, Acquired).(inFlight := s.inFlight + {s.sessions[sid].partial})
  }

  function Unlocked(s: State, sid: Sid, outcome: Outcome): State
    requires sid in s.sessions
  {
    SetStage(s, sid, Done(outcome)).(inFlight := s.inFlight - {s.sessions[sid].partial})
  }

  /** `os.link`: the target becomes a second name of the partial's inode. */
  function Published(s: State, sid: Sid): State
    requires sid in s.sessions && !Missing(s, sid)
  {
    var ss := s.sessions[sid];
    SetStage(s, sid, Linked).(dir := s.dir[ss.name := s.dir[ss.partial]], published := s.published[ss.name := sid])
  }

  function Crashed(s: State): State {
    s.(serving := false, inFlight := {}, sessions := map sid | sid in s.sessions :: Kill(s.sessions[sid]))
  }

  /** A process that dies sends nothing more; a verdict already sent stays sent. */
  function Kill(ss: Session): Session {
    match ss.stage
    case Done(_) => ss
    case Releasing(o) => ss.(stage := Done(o))
    case _ => ss.(stage := Done(Killed))
  }

  // ----- the transition relation

  predicate Enabled(c: Config, s: State, a: Action) {
    match a
    case Begin(sid, name, _, size) => s.serving && sid !in s.sessions && c.accepts(name) && size <= MAX_FILE_SIZE
    case Acquire(sid) => At(s, sid) && s.sessions[sid].stage.Checked?
    case Stat(sid) => At(s, sid) && s.sessions[sid].stage.Acquired?
    case DropOversize(sid) => At(s, sid) && s.sessions[sid].stage.Oversize?
    case Open(sid, inode) => At(s, sid) && s.sessions[sid].stage.Offered? && inode !in s.data
    case Recv(sid, chunk) =>
      && At(s, sid) && s.sessions[sid].stage.Receiving?
      && 0 < |chunk| <= CHUNK_SIZE
      && s.sessions[sid].stage.written + |chunk| <= s.sessions[sid].size
    case Flush(sid, count) =>
      At(s, sid) && s.sessions[sid].stage.Receiving? && count <= |s.sessions[sid].stage.buf|
    case Close(sid) =>
      At(s, sid) && s.sessions[sid].stage.Receiving? && s.sessions[sid].stage.written == s.sessions[sid].size
    case Hash(sid) => At(s, sid) && s.sessions[sid].stage.Received?
    case Link(sid) => At(s, sid) && s.sessions[sid].stage.Verified?
    case Unlink(sid) =>
      && At(s, sid)
      && (s.sessions[sid].stage.Linked? || s.sessions[sid].stage.LostRace? || s.sessions[sid].stage.Mismatch?)
    case Reply(sid) => At(s, sid) && s.sessions[sid].stage.Replying?
    case Release(sid) => At(s, sid) && s.sessions[sid].stage.Releasing?
    case Abort(sid) =>
      && At(s, sid) && Owns(s.sessions[sid].stage)
      && !s.sessions[sid].stage.Linked? && !s.sessions[sid].stage.Releasing?
    case Crash => s.serving
    case Restart(swept) =>
      !s.serving && forall p :: p in swept ==> p in s.dir && SweepMatches(p)
  }

  function Apply(c: Config, s: State, a: Action): State
    requires Enabled(c, s, a)
  {
    match a
    case Begin(sid, name, digest, size) =>
      var stage := if name in s.dir then Done(AlreadyExists) else Checked;
      Joined(s, sid, Session(name, digest, size, PartialName(name, digest), stage))
    case Acquire(sid) =>
      var p := s.sessions[sid].partial;
      if p in s.inFlight then SetStage(s, sid, Done(AlreadyExists)) else Locked(s, sid)
    case Stat(sid) =>
      var ss := s.sessions[sid];
      var offset := |Content(s, ss.partial)|;
      SetStage(s, sid, if offset > ss.size then Oversize else Offered(offset))
    case DropOversize(sid) =>
      if Missing(s, sid) then Raise(s, sid)
      else SetStage(Remove(s, s.sessions[sid].partial), sid, Offered(0))
    case Open(sid, inode) =>
      var ss := s.sessions[sid];
      var s' := if ss.partial in s.dir then s else Created(s, ss.partial, inode);
      SetStage(s', sid, Receiving(s'.dir[ss.partial], ss.stage.offset, []))
    case Recv(sid, chunk) =>
      var Receiving(fd, written, buf) := s.sessions[sid].stage;
      SetStage(s, sid, Receiving(fd, written + |chunk|, buf + chunk))
    case Flush(sid, count) =>
      var Receiving(fd, written, buf) := s.sessions[sid].stage;
      SetStage(Append(s, fd, buf[..count]), sid, Receiving(fd, written, buf[count..]))
    case Close(sid) =>
      var Receiving(fd, written, buf) := s.sessions[sid].stage;
      SetStage(Append(s, fd, buf), sid, Received)
    case Hash(sid) =>
      var ss := s.sessions[sid];
      if Missing(s, sid) then Raise(s, sid)
      else SetStage(s, sid, if c.hash(Content(s, ss.partial)) == ss.digest then Verified else Mismatch)
    case Link(sid) =>
      var ss := s.sessions[sid];
      if Missing(s, sid) then Raise(s, sid)
      else if ss.name in s.dir then SetStage(s, sid, LostRace)
      else Published(s, sid)
    case Unlink(sid) =>
      var ss := s.sessions[sid];
      var outcome := if ss.stage.Linked? then Stored else if ss.stage.LostRace? then AlreadyExists else Corrupt;
      if Missing(s, sid) then Raise(s, sid)
      else SetStage(Remove(s, ss.partial), sid, Replying(outcome))
    case Reply(sid) => SetStage(s, sid, Releasing(s.sessions[sid].stage.outcome))
    case Release(sid) => Unlocked(s, sid, s.sessions[sid].stage.outcome)
    case Abort(sid) =>
      var ss := s.sessions[sid];
      var s' := if ss.stage.Receiving? then Append(s, ss.stage.fd, ss.stage.buf) else s;
      SetStage(s', sid, Releasing(Dropped))
    case Crash => Crashed(s)
    case Restart(swept) => s.(serving := true, dir := s.dir - swept)
  }

  /** A schedule is a list of actions each of which is enabled when its turn comes. */
  predicate Legal(c: Config, s: State, acts: seq<Action>)
    decreases |acts|
  {
    acts == [] || (Enabled(c, s, acts[0]) && Legal(c, Apply(c, s, acts[0]), acts[1..]))
  }

  function Exec(c: Config, s: State, acts: seq<Action>): State
    requires Legal(c, s, acts)
    decreases |acts|
  {
    if acts == [] then s else Exec(c, Apply(c, s, acts[0]), acts[1..])
  }

  // ----- the directory a server is started in

  ghost predicate IsPartialOf(p: Name, n: Name) {
    exists t: bytes :: |t| == TOKEN_SIZE && p == PartialOf(n, t)
  }

  ghost predicate IsPartial(c: Config, p: Name) {
    exists n :: c.accepts(n) && IsPartialOf(p, n)
  }

  /** A partial shares its inode with no other name, except with its own target: what a crash
      between the link and the unlink leaves behind. */
  ghost predicate OwnLinksOnly(c: Config, s: State) {
    forall p, q :: p in s.dir && q in s.dir && p != q && s.dir[p] == s.dir[q] && IsPartial(c, p)
      ==> c.accepts(q) && IsPartialOf(p, q)
  }

  ghost predicate Allocated(s: State) {
    forall p :: p in s.dir ==> s.dir[p] in s.data
  }

  /** Any directory, with the leftovers of any earlier server, before the server starts. */
  ghost predicate Init(c: Config, s: State) {
    && !s.serving && s.inFlight == {} && s.sessions == map[] && s.published == map[]
    && Allocated(s) && OwnLinksOnly(c, s)
  }

  // ----- conditions on names

  /** The server as it is: PUT takes every name the filename rules admit, except that "." always exists. */
  function Code(hash: bytes -> Digest): Config {
    Config(hash, n => Storable(n))
  }

  /** An accepted name that is not the partial of an accepted name. */
  ghost predicate Unnested(c: Config, n: Name) {
    c.accepts(n) && !IsPartial(c, n)
  }

  /** And besides no partial of it is accepted as a name. */
  ghost predicate Isolated(c: Config, n: Name) {
    Unnested(c, n) && forall p :: IsPartialOf(p, n) ==> !c.accepts(p)
  }

  /** The action does not begin an upload of a partial of the name under the partial's own name. */
  ghost predicate Allowed(a: Action, n: Name) {
    a.Begin? ==> !IsPartialOf(a.name, n)
  }

  ghost predicate Avoids(acts: seq<Action>, n: Name) {
    forall i :: 0 <= i < |acts| ==> Allowed(acts[i], n)
  }

  /** No accepted target matches the sweep's glob ".*.part". */
  ghost predicate SweepFree(c: Config) {
    forall n :: c.accepts(n) ==> !SweepMatches(n)
  }
}
