/**
  `handle_put` and `_receive_upload` as they run: one session's statements on the shared directory
  and the shared `_in_flight` set. Every statement is one action of Uploads, so a session that runs
  undisturbed is one of the schedules the theorems speak of; the others interleave the same actions.
 */
module UploadServer {
  import opened ByteOrder
  import opened Names
  import opened Uploads
  import opened UploadInvariant
  import opened UploadTheorems
  import opened UploadRuns
  import Frames

  // ----- schedules, and the names uploaded in them

  predicate OnlyBegins(acts: seq<Action>, names: set<Name>) {
    forall i :: 0 <= i < |acts| && acts[i].Begin? ==> acts[i].name in names
  }

  /** Some legal schedule leads from one state to the other, and every upload begun in it is of one of
      the given names. */
  ghost predicate Within(c: Config, s: State, s': State, names: set<Name>) {
    exists acts :: Legal(c, s, acts) && Exec(c, s, acts) == s' && OnlyBegins(acts, names)
  }

  lemma WithinRefl(c: Config, s: State, names: set<Name>)
    ensures Within(c, s, s, names)
  {
    assert Legal(c, s, []) && Exec(c, s, []) == s && OnlyBegins([], names);
  }

  lemma WithinTrans(c: Config, s: State, mid: State, s': State, names: set<Name>)
    requires Within(c, s, mid, names) && Within(c, mid, s', names)
    ensures Within(c, s, s', names)
  {
    var x :| Legal(c, s, x) && Exec(c, s, x) == mid && OnlyBegins(x, names);
    var y :| Legal(c, mid, y) && Exec(c, mid, y) == s' && OnlyBegins(y, names);
    ExecConcat(c, s, x, y);
    assert OnlyBegins(x + y, names);
  }

  lemma WithinStep(c: Config, s: State, mid: State, a: Action, s': State, names: set<Name>)
    requires Within(c, s, mid, names) && Step(c, mid, a, s') && (a.Begin? ==> a.name in names)
    ensures Within(c, s, s', names)
  {
    OneStep(c, mid, a, s');
    hide Apply, Enabled;
    assert OnlyBegins([a], names);
    assert Within(c, mid, s', names);
    hide Within;
    WithinTrans(c, s, mid, s', names);
  }

  lemma WithinMore(c: Config, s: State, s': State, names: set<Name>, more: set<Name>)
    requires Within(c, s, s', names) && names <= more
    ensures Within(c, s, s', more)
  {
    var acts :| Legal(c, s, acts) && Exec(c, s, acts) == s' && OnlyBegins(acts, names);
    assert OnlyBegins(acts, more);
  }

  /** A state of a server in which only files of the given names have been uploaded since it started. */
  ghost predicate Started(c: Config, s: State, names: set<Name>) {
    exists s0 :: Init(c, s0) && Within(c, s0, s, names)
  }

  /** A server that has just started has uploaded nothing. */
  lemma StartedFresh(c: Config, s: State, swept: set<Name>)
    requires Init(c, s) && Enabled(c, s, Restart(swept))
    ensures Started(c, Apply(c, s, Restart(swept)), {})
  {
    hide Init;
    WithinRefl(c, s, {});
    WithinStep(c, s, s, Restart(swept), Apply(c, s, Restart(swept)), {});
  }

  ghost predicate NoPartials(names: set<Name>, n: Name) {
    forall m :: m in names ==> !IsPartialOf(m, n)
  }

  lemma WithinAvoids(c: Config, s: State, s': State, names: set<Name>, n: Name) returns (acts: seq<Action>)
    requires Within(c, s, s', names) && NoPartials(names, n)
    ensures Legal(c, s, acts) && Exec(c, s, acts) == s' && Avoids(acts, n)
  {
    hide IsPartialOf;
    acts :| Legal(c, s, acts) && Exec(c, s, acts) == s' && OnlyBegins(acts, names);
  }

  /** Whatever calls of the imperative server lead from one state to the other: a stored plain name is
      kept, and a published one holds what its publisher stated, if none of the names uploaded since
      the start was one of its partials. */
  lemma KeptAcross(c: Config, s: State, s': State, n: Name, before: set<Name>, now: set<Name>)
    requires Started(c, s, before) && Within(c, s, s', now) && c.accepts(n) && !SweepMatches(n)
    requires NoPartials(before, n) && NoPartials(now, n)
    ensures n in s.dir ==> SameEntry(s, s', n)
    ensures IsVerified(c, s', n) && Started(c, s', before + now)
  {
    hide Init, SweepMatches, SameEntry, IsVerified, IsPartial, Avoids;
    var s0 :| Init(c, s0) && Within(c, s0, s, before);
    var x := WithinAvoids(c, s0, s, before, n);
    var y := WithinAvoids(c, s, s', now, n);
    if n in s.dir {
      StoredIsKept(c, s0, x, y, n);
    }
    PlainIsNoPartial(c, n);
    WithinMore(c, s0, s, before, before + now);
    WithinMore(c, s, s', now, before + now);
    ExecConcat(c, s0, x, y);
    AvoidsBoth(x, y, n);
    PublishedIsVerified(c, s0, x + y, n);
    hide Within;
    WithinTrans(c, s0, s, s', before + now);
  }

  lemma AvoidsBoth(x: seq<Action>, y: seq<Action>, n: Name)
    requires Avoids(x, n) && Avoids(y, n)
    ensures Avoids(x + y, n)
  {
    hide Allowed;
  }

  lemma Slices(s: bytes, at: nat, n: nat)
    requires at + n <= |s|
    ensures s[..at] + s[at..][..n] == s[..at + n] && s[at..][n..] == s[at + n..]
  {
  }

  /** What a resumed upload builds on: the partial found, unless it is longer than the file. */
  function Kept(found: bytes, size: nat): (k: bytes)
    ensures |k| <= size
  {
    if |found| > size then [] else found
  }

  /** The complete file: what was kept, then as much of the stream as is missing. */
  function Assembled(kept: bytes, stream: bytes, size: nat): bytes
    requires |kept| <= size
  {
    if |stream| < size - |kept| then kept + stream else kept + stream[..size - |kept|]
  }

  function Unread(kept: bytes, stream: bytes, size: nat): bytes
    requires |kept| <= size
  {
    if |stream| < size - |kept| then [] else stream[size - |kept|..]
  }

  /** The verdict on an upload nobody interferes with. */
  function Judged(hash: bytes -> Digest, kept: bytes, stream: bytes, size: nat, digest: Digest, taken: bool): Outcome
    requires |kept| <= size
  {
    if |stream| < size - |kept| then Dropped
    else if hash(Assembled(kept, stream, size)) != digest then Corrupt
    else if taken then AlreadyExists else Stored
  }

  /** The answer to step 1 of a PUT. */
  datatype Offer = Declined | Ready(offset: nat, fd: Inode)

  /** The shared state of the server process, with the ghost record of its sessions. */
  class Server {
    const hash: bytes -> Digest
    ghost const accepts: Name -> bool
    var dir: map<Name, Inode>
    var data: map<Inode, bytes>
    var inFlight: set<Name>
    var nextInode: Inode
    ghost var sessions: map<Sid, Session>
    ghost var published: map<Name, Sid>

    ghost function Conf(): Config {
      Config(hash, accepts)
    }

    ghost function Abs(): State
      reads this
    {
      State(true, dir, data, inFlight, sessions, published)
    }

    /** No inode number is given out twice. */
    ghost predicate Valid()
      reads this
    {
      && (forall i :: i in data ==> i < nextInode)
      && forall p :: p in dir ==> dir[p] in data
    }

    ghost predicate AtStage(sid: Sid, name: Name, digest: Digest, size: nat, stage: Stage)
      reads this
    {
      sid in sessions && sessions[sid] == Session(name, digest, size, PartialName(name, digest), stage)
    }

    /** A server process starts, after the sweep, on the directory it finds. */
    constructor (hash: bytes -> Digest, ghost accepts: Name -> bool,
                 dir: map<Name, Inode>, data: map<Inode, bytes>, nextInode: Inode)
      requires (forall i :: i in data ==> i < nextInode) && forall p :: p in dir ==> dir[p] in data
      ensures Valid() && this.hash == hash && this.accepts == accepts
      ensures Abs() == State(true, dir, data, {}, map[], map[])
    {
      this.hash, this.accepts := hash, accepts;
      this.dir, this.data, inFlight, this.nextInode := dir, data, {}, nextInode;
      sessions, published := map[], map[];
    }

    /** The advisory check. */
    method CheckName(ghost sid: Sid, name: Name, digest: Digest, size: nat) returns (there: bool)
      requires Valid() && sid !in sessions && accepts(name) && size <= MAX_FILE_SIZE
      modifies this`sessions
      ensures Valid() && there == (name in dir)
      ensures Step(Conf(), old(Abs()), Begin(sid, name, digest, size), Abs())
      ensures AtStage(sid, name, digest, size, if there then Done(AlreadyExists) else Checked)
    {
      hide PartialName;
      there := name in dir;
      sessions := sessions[sid := Session(name, digest, size, PartialName(name, digest),
                                          if there then Done(AlreadyExists) else Checked)];
    }

    /** Lock, test and add. */
    method TryAcquire(ghost sid: Sid, name: Name, digest: Digest, ghost size: nat) returns (got: bool)
      requires Valid() && AtStage(sid, name, digest, size, Checked)
      modifies this`inFlight, this`sessions
      ensures Valid() && got == (PartialName(name, digest) !in old(inFlight))
      ensures inFlight == if got then old(inFlight) + {PartialName(name, digest)} else old(inFlight)
      ensures Step(Conf(), old(Abs()), Acquire(sid), Abs())
      ensures AtStage(sid, name, digest, size, if got then Acquired else Done(AlreadyExists))
    {
      hide PartialName;
      var partial := PartialName(name, digest);
      got := partial !in inFlight;
      if got {
        inFlight := inFlight + {partial};
      }
      sessions := sessions[sid := sessions[sid].(stage := if got then Acquired else Done(AlreadyExists))];
    }

    /** How much of the file is already here. */
    method StatPartial(ghost sid: Sid, name: Name, digest: Digest, size: nat) returns (offset: nat)
      requires Valid() && AtStage(sid, name, digest, size, Acquired)
      modifies this`sessions
      ensures Valid() && Step(Conf(), old(Abs()), Stat(sid), Abs())
      ensures offset == |Content(Abs(), PartialName(name, digest))|
      ensures AtStage(sid, name, digest, size, if offset > size then Oversize else Offered(offset))
      ensures offset > 0 ==> PartialName(name, digest) in dir
    {
      hide PartialName;
      var partial := PartialName(name, digest);
      offset := if partial in dir then |data[dir[partial]]| else 0;
      sessions := sessions[sid := sessions[sid].(stage := if offset > size then Oversize else Offered(offset))];
    }

    method DropPartial(ghost sid: Sid, name: Name, digest: Digest, ghost size: nat)
      requires Valid() && AtStage(sid, name, digest, size, Oversize) && PartialName(name, digest) in dir
      modifies this`dir, this`sessions
      ensures Valid() && Step(Conf(), old(Abs()), DropOversize(sid), Abs())
      ensures AtStage(sid, name, digest, size, Offered(0)) && dir == old(dir) - {PartialName(name, digest)}
    {
      hide PartialName;
      dir := dir - {PartialName(name, digest)};
      sessions := sessions[sid := sessions[sid].(stage := Offered(0))];
    }

    /** `open(partial, "ab")`. */
    method OpenPartial(ghost sid: Sid, name: Name, digest: Digest, ghost size: nat, ghost offset: nat)
      returns (fd: Inode)
      requires Valid() && AtStage(sid, name, digest, size, Offered(offset))
      modifies this`dir, this`data, this`nextInode, this`sessions
      ensures Valid() && Step(Conf(), old(Abs()), Open(sid, old(nextInode)), Abs())
      ensures AtStage(sid, name, digest, size, Receiving(fd, offset, []))
      ensures PartialName(name, digest) in dir && dir[PartialName(name, digest)] == fd
      ensures forall n :: n != PartialName(name, digest) ==> (n in dir <==> n in old(dir))
      ensures Content(Abs(), PartialName(name, digest)) == old(Content(Abs(), PartialName(name, digest)))
    {
      hide PartialName;
      var partial := PartialName(name, digest);
      if partial !in dir {
        dir := dir[partial := nextInode];
        data := data[nextInode := []];
        nextInode := nextInode + 1;
      }
      fd := dir[partial];
      sessions := sessions[sid := sessions[sid].(stage := Receiving(fd, offset, []))];
    }

    /** A chunk arrives and is written: it passes through the file object's buffer. */
    method WriteChunk(ghost sid: Sid, name: Name, digest: Digest, size: nat, fd: Inode, written: nat, chunk: bytes)
      requires Valid() && AtStage(sid, name, digest, size, Receiving(fd, written, [])) && fd in data
      requires 0 < |chunk| <= CHUNK_SIZE && written + |chunk| <= size
      modifies this`data, this`sessions
      ensures Valid() && fd in data && AtStage(sid, name, digest, size, Receiving(fd, written + |chunk|, []))
      ensures data[fd] == old(data[fd]) + chunk
      ensures Within(Conf(), old(Abs()), Abs(), {name})
    {
      hide PartialName;
      sessions := sessions[sid := sessions[sid].(stage := Receiving(fd, written + |chunk|, chunk))];
      assert [] + chunk == chunk && chunk[..|chunk|] == chunk && chunk[|chunk|..] == [];
      ghost var c, start, mid := Conf(), old(Abs()), Abs();
      assert Step(c, start, Recv(sid, chunk), mid);
      data := data[fd := data[fd] + chunk];
      sessions := sessions[sid := sessions[sid].(stage := Receiving(fd, written + |chunk|, []))];
      assert Step(c, mid, Flush(sid, |chunk|), Abs());
      hide Step, Within;
      WithinRefl(c, start, {name});
      WithinStep(c, start, start, Recv(sid, chunk), mid, {name});
      WithinStep(c, start, mid, Flush(sid, |chunk|), Abs(), {name});
    }

    /** One turn of the receive loop: recv, write; 0 means the peer has closed. */
    method ReceiveChunk(ghost sid: Sid, name: Name, digest: Digest, size: nat, fd: Inode, written: nat,
                        wire: Frames.Wire)
      returns (n: nat)
      requires Valid() && AtStage(sid, name, digest, size, Receiving(fd, written, [])) && fd in data && written < size
      modifies this`data, this`sessions, wire
      ensures Valid() && fd in data && written + n <= size
      ensures AtStage(sid, name, digest, size, Receiving(fd, written + n, []))
      ensures n == 0 <==> old(wire.pending) == []
      ensures n <= |old(wire.pending)| && wire.pending == old(wire.pending)[n..]
      ensures data[fd] == old(data[fd]) + old(wire.pending)[..n]
      ensures Within(Conf(), old(Abs()), Abs(), {name})
    {
      hide PartialName, Within;
      var want := if size - written < CHUNK_SIZE then size - written else CHUNK_SIZE;
      var chunk := wire.Recv(want);
      n := |chunk|;
      if n == 0 {
        WithinRefl(Conf(), Abs(), {name});
      } else {
        WriteChunk(sid, name, digest, size, fd, written, chunk);
      }
    }

    /** The receive loop: a peer that closes early ends it with what came. */
    method ReceiveAll(ghost sid: Sid, name: Name, digest: Digest, size: nat, fd: Inode, offset: nat, wire: Frames.Wire)
      returns (written: nat)
      requires Valid() && AtStage(sid, name, digest, size, Receiving(fd, offset, [])) && fd in data && offset <= size
      modifies this`data, this`sessions, wire
      ensures Valid() && fd in data && offset <= written <= size
      ensures AtStage(sid, name, digest, size, Receiving(fd, written, []))
      ensures Within(Conf(), old(Abs()), Abs(), {name})
      ensures written - offset <= |old(wire.pending)| && wire.pending == old(wire.pending)[written - offset..]
      ensures data[fd] == old(data[fd]) + old(wire.pending)[..written - offset]
      ensures written < size ==> wire.pending == []
    {
      hide PartialName, Within, Valid, AtStage;
      ghost var c, start, sent, held := Conf(), Abs(), wire.pending, data[fd];
      written := offset;
      WithinRefl(c, start, {name});
      while written < size
        invariant Valid() && fd in data && offset <= written <= size
        invariant AtStage(sid, name, digest, size, Receiving(fd, written, []))
        invariant Within(c, start, Abs(), {name})
        invariant written - offset <= |sent| && wire.pending == sent[written - offset..]
        invariant data[fd] == held + sent[..written - offset]
        decreases size - written
      {
        ghost var before, at := Abs(), written - offset;
        var n := ReceiveChunk(sid, name, digest, size, fd, written, wire);
        WithinTrans(c, start, before, Abs(), {name});
        Slices(sent, at, n);
        if n == 0 {
          return;
        }
        written := written + n;
      }
    }

    /** The file object is closed; its buffer is empty here. */
    method ClosePartial(ghost sid: Sid, name: Name, digest: Digest, ghost size: nat, ghost fd: Inode)
      requires Valid() && AtStage(sid, name, digest, size, Receiving(fd, size, [])) && fd in data
      modifies this`sessions
      ensures Valid() && Step(Conf(), old(Abs()), Close(sid), Abs())
      ensures AtStage(sid, name, digest, size, Received)
    {
      hide PartialName;
      assert data[fd] + [] == data[fd] && data[fd := data[fd]] == data;
      sessions := sessions[sid := sessions[sid].(stage := Received)];
    }

    method CheckHash(ghost sid: Sid, name: Name, digest: Digest, ghost size: nat) returns (matches: bool)
      requires Valid() && AtStage(sid, name, digest, size, Received) && PartialName(name, digest) in dir
      modifies this`sessions
      ensures Valid() && Step(Conf(), old(Abs()), Hash(sid), Abs())
      ensures matches == (hash(Content(Abs(), PartialName(name, digest))) == digest)
      ensures AtStage(sid, name, digest, size, if matches then Verified else Mismatch)
    {
      hide PartialName;
      matches := hash(data[dir[PartialName(name, digest)]]) == digest;
      sessions := sessions[sid := sessions[sid].(stage := if matches then Verified else Mismatch)];
    }

    /** `os.link`: one step, and it fails on an existing name. */
    method LinkName(ghost sid: Sid, name: Name, digest: Digest, ghost size: nat) returns (won: bool)
      requires Valid() && AtStage(sid, name, digest, size, Verified) && PartialName(name, digest) in dir
      modifies this`dir, this`sessions, this`published
      ensures Valid() && won == (name !in old(dir)) && name in dir
      ensures Step(Conf(), old(Abs()), Link(sid), Abs())
      ensures AtStage(sid, name, digest, size, if won then Linked else LostRace)
      ensures won ==> Content(Abs(), name) == old(Content(Abs(), PartialName(name, digest)))
      ensures PartialName(name, digest) in dir
    {
      hide PartialName;
      won := name !in dir;
      if won {
        dir := dir[name := dir[PartialName(name, digest)]];
        published := published[name := sid];
      }
      sessions := sessions[sid := sessions[sid].(stage := if won then Linked else LostRace)];
    }

    method UnlinkPartial(ghost sid: Sid, name: Name, digest: Digest, ghost size: nat, ghost stage: Stage)
      requires Valid() && AtStage(sid, name, digest, size, stage) && PartialName(name, digest) in dir
      requires stage == Linked || stage == LostRace || stage == Mismatch
      modifies this`dir, this`sessions
      ensures Valid() && Step(Conf(), old(Abs()), Unlink(sid), Abs())
      ensures AtStage(sid, name, digest, size, Replying(Verdict(stage))) && PartialName(name, digest) !in dir
      ensures name != PartialName(name, digest) ==>
        (name in dir <==> name in old(dir)) && Content(Abs(), name) == old(Content(Abs(), name))
    {
      hide PartialName;
      dir := dir - {PartialName(name, digest)};
      sessions := sessions[sid := sessions[sid].(stage := Replying(Verdict(stage)))];
    }

    static function Verdict(stage: Stage): Outcome {
      if stage.Linked? then Stored else if stage.LostRace? then AlreadyExists else Corrupt
    }

    method SendReply(ghost sid: Sid, ghost name: Name, ghost digest: Digest, ghost size: nat, ghost outcome: Outcome)
      requires Valid() && AtStage(sid, name, digest, size, Replying(outcome))
      modifies this`sessions
      ensures Valid() && Step(Conf(), old(Abs()), Reply(sid), Abs())
      ensures AtStage(sid, name, digest, size, Releasing(outcome))
    {
      hide PartialName;
      sessions := sessions[sid := sessions[sid].(stage := Releasing(outcome))];
    }

    /** The connection broke: what was written stays. */
    method GiveUp(ghost sid: Sid, ghost name: Name, ghost digest: Digest, ghost size: nat,
                  ghost fd: Inode, ghost written: nat)
      requires Valid() && AtStage(sid, name, digest, size, Receiving(fd, written, [])) && fd in data
      modifies this`sessions
      ensures Valid() && Step(Conf(), old(Abs()), Abort(sid), Abs())
      ensures AtStage(sid, name, digest, size, Releasing(Dropped))
    {
      hide PartialName;
      assert data[fd] + [] == data[fd] && data[fd := data[fd]] == data;
      sessions := sessions[sid := sessions[sid].(stage := Releasing(Dropped))];
    }

    /** The `finally` clause of `handle_put`. */
    method ReleasePartial(ghost sid: Sid, name: Name, digest: Digest, ghost size: nat, ghost outcome: Outcome)
      requires Valid() && AtStage(sid, name, digest, size, Releasing(outcome))
      modifies this`inFlight, this`sessions
      ensures Valid() && Step(Conf(), old(Abs()), Release(sid), Abs())
      ensures AtStage(sid, name, digest, size, Done(outcome))
      ensures inFlight == old(inFlight) - {PartialName(name, digest)}
    {
      hide PartialName;
      inFlight := inFlight - {PartialName(name, digest)};
      sessions := sessions[sid := sessions[sid].(stage := Done(outcome))];
    }

    /** Stat, perhaps drop, open: what precedes the body. */
    method OfferResume(ghost sid: Sid, name: Name, digest: Digest, size: nat) returns (offset: nat, fd: Inode)
      requires Valid() && AtStage(sid, name, digest, size, Acquired)
      modifies this`dir, this`data, this`nextInode, this`sessions
      ensures Valid() && offset <= size && AtStage(sid, name, digest, size, Receiving(fd, offset, []))
      ensures PartialName(name, digest) in dir && dir[PartialName(name, digest)] == fd
      ensures forall n :: n != PartialName(name, digest) ==> (n in dir <==> n in old(dir))
      ensures Content(Abs(), PartialName(name, digest)) == Kept(old(Content(Abs(), PartialName(name, digest))), size)
      ensures offset == |Content(Abs(), PartialName(name, digest))|
      ensures Within(Conf(), old(Abs()), Abs(), {name})
    {
      hide Step, Within, PartialName;
      ghost var c, s0 := Conf(), Abs();
      WithinRefl(c, s0, {name});
      offset := StatPartial(sid, name, digest, size);
      ghost var s1 := Abs();
      WithinStep(c, s0, s0, Stat(sid), s1, {name});
      if offset > size {
        DropPartial(sid, name, digest, size);
        WithinStep(c, s0, s1, DropOversize(sid), Abs(), {name});
        offset := 0;
      }
      ghost var s2, inode := Abs(), nextInode;
      fd := OpenPartial(sid, name, digest, size, offset);
      WithinStep(c, s0, s2, Open(sid, inode), Abs(), {name});
    }

    /** Close and hash. */
    method VerifyPartial(ghost sid: Sid, name: Name, digest: Digest, ghost size: nat, ghost fd: Inode)
      returns (matches: bool)
      requires Valid() && AtStage(sid, name, digest, size, Receiving(fd, size, [])) && fd in data
      requires PartialName(name, digest) in dir
      modifies this`sessions
      ensures Valid() && matches == (hash(Content(Abs(), PartialName(name, digest))) == digest)
      ensures AtStage(sid, name, digest, size, if matches then Verified else Mismatch)
      ensures Within(Conf(), old(Abs()), Abs(), {name})
    {
      hide Step, Within, PartialName, Content;
      ghost var c, s0 := Conf(), Abs();
      WithinRefl(c, s0, {name});
      ClosePartial(sid, name, digest, size, fd);
      ghost var s1 := Abs();
      WithinStep(c, s0, s0, Close(sid), s1, {name});
      matches := CheckHash(sid, name, digest, size);
      WithinStep(c, s0, s1, Hash(sid), Abs(), {name});
    }

    /** Link and unlink. */
    method Publish(ghost sid: Sid, name: Name, digest: Digest, ghost size: nat) returns (won: bool)
      requires Valid() && AtStage(sid, name, digest, size, Verified)
      requires PartialName(name, digest) in dir && name != PartialName(name, digest)
      modifies this`dir, this`sessions, this`published
      ensures Valid() && won == (name !in old(dir)) && name in dir
      ensures AtStage(sid, name, digest, size, Replying(if won then Stored else AlreadyExists))
      ensures PartialName(name, digest) !in dir
      ensures won ==> Content(Abs(), name) == old(Content(Abs(), PartialName(name, digest)))
      ensures Within(Conf(), old(Abs()), Abs(), {name})
    {
      hide Step, Within, PartialName, Content;
      ghost var c, s0 := Conf(), Abs();
      WithinRefl(c, s0, {name});
      won := LinkName(sid, name, digest, size);
      ghost var s1 := Abs();
      WithinStep(c, s0, s0, Link(sid), s1, {name});
      UnlinkPartial(sid, name, digest, size, if won then Linked else LostRace);
      WithinStep(c, s0, s1, Unlink(sid), Abs(), {name});
    }

    /** Close, hash, link, unlink: what follows the body. */
    method VerifyAndPublish(ghost sid: Sid, name: Name, digest: Digest, ghost size: nat, ghost fd: Inode)
      returns (outcome: Outcome)
      requires Valid() && AtStage(sid, name, digest, size, Receiving(fd, size, [])) && fd in data
      requires PartialName(name, digest) in dir && name != PartialName(name, digest)
      modifies this`dir, this`sessions, this`published
      ensures Valid() && AtStage(sid, name, digest, size, Replying(outcome)) && PartialName(name, digest) !in dir
      ensures outcome ==
        if hash(old(Content(Abs(), PartialName(name, digest)))) != digest then Corrupt
        else if name in old(dir) then AlreadyExists else Stored
      ensures outcome.Stored? ==> name in dir && Content(Abs(), name) == old(Content(Abs(), PartialName(name, digest)))
      ensures name in dir <==> name in old(dir) || outcome.Stored?
      ensures Within(Conf(), old(Abs()), Abs(), {name})
    {
      hide Step, Within, PartialName;
      ghost var c, s0 := Conf(), Abs();
      var matches := VerifyPartial(sid, name, digest, size, fd);
      ghost var s1 := Abs();
      assert Content(s1, PartialName(name, digest)) == Content(s0, PartialName(name, digest));
      if matches {
        var won := Publish(sid, name, digest, size);
        WithinTrans(c, s0, s1, Abs(), {name});
        return if won then Stored else AlreadyExists;
      } else {
        UnlinkPartial(sid, name, digest, size, Mismatch);
        WithinStep(c, s0, s1, Unlink(sid), Abs(), {name});
        return Corrupt;
      }
    }

    /** The body, as far as it comes: the partial ends as what it was plus what came. */
    method FillPartial(ghost sid: Sid, name: Name, digest: Digest, size: nat, fd: Inode, offset: nat, wire: Frames.Wire)
      returns (complete: bool)
      requires Valid() && AtStage(sid, name, digest, size, Receiving(fd, offset, [])) && offset <= size
      requires PartialName(name, digest) in dir && dir[PartialName(name, digest)] == fd
      requires offset == |Content(Abs(), PartialName(name, digest))|
      modifies this`data, this`sessions, wire
      ensures Valid() && fd in data && complete == (|old(wire.pending)| >= size - offset)
      ensures var written := if complete then size else offset + |old(wire.pending)|;
        AtStage(sid, name, digest, size, Receiving(fd, written, []))
      ensures var kept := old(Content(Abs(), PartialName(name, digest)));
        && Content(Abs(), PartialName(name, digest)) == Assembled(kept, old(wire.pending), size)
        && wire.pending == Unread(kept, old(wire.pending), size)
      ensures Within(Conf(), old(Abs()), Abs(), {name})
    {
      hide Step, Within, PartialName, AtStage;
      ghost var sent := wire.pending;
      var got := ReceiveAll(sid, name, digest, size, fd, offset, wire);
      if got < size {
        assert sent[..got - offset] == sent by {
          assert sent[got - offset..] == [];
        }
      }
      complete := got == size;
    }

    /** Everything after the offer: the body, and then the verdict or the broken connection. */
    method ReceiveRest(ghost sid: Sid, name: Name, digest: Digest, size: nat, fd: Inode, offset: nat, wire: Frames.Wire)
      returns (outcome: Outcome)
      requires Valid() && AtStage(sid, name, digest, size, Receiving(fd, offset, [])) && offset <= size
      requires PartialName(name, digest) in dir && dir[PartialName(name, digest)] == fd
      requires offset == |Content(Abs(), PartialName(name, digest))| && name != PartialName(name, digest)
      modifies this`dir, this`data, this`sessions, this`published, wire
      ensures Valid() && AtStage(sid, name, digest, size, Releasing(outcome))
      ensures var kept := old(Content(Abs(), PartialName(name, digest)));
        && outcome == Judged(hash, kept, old(wire.pending), size, digest, name in old(dir))
        && (outcome.Stored? ==> name in dir && Content(Abs(), name) == Assembled(kept, old(wire.pending), size))
        && (outcome.Dropped? ==> Content(Abs(), PartialName(name, digest)) == kept + old(wire.pending))
        && (outcome.Dropped? <==> PartialName(name, digest) in dir)
        && (name in dir <==> name in old(dir) || outcome.Stored?)
        && wire.pending == Unread(kept, old(wire.pending), size)
      ensures Within(Conf(), old(Abs()), Abs(), {name})
    {
      hide Step, Within, PartialName, Valid, AtStage;
      ghost var c, s0, got := Conf(), Abs(), |wire.pending|;
      var complete := FillPartial(sid, name, digest, size, fd, offset, wire);
      ghost var s1 := Abs();
      if !complete {
        GiveUp(sid, name, digest, size, fd, offset + got);
        WithinStep(c, s0, s1, Abort(sid), Abs(), {name});
        return Dropped;
      }
      outcome := VerifyAndPublish(sid, name, digest, size, fd);
      ghost var s2 := Abs();
      WithinTrans(c, s0, s1, s2, {name});
      SendReply(sid, name, digest, size, outcome);
      WithinStep(c, s0, s2, Reply(sid), Abs(), {name});
    }

    /** `_receive_upload`. */
    method ReceiveUpload(ghost sid: Sid, name: Name, digest: Digest, size: nat, wire: Frames.Wire)
      returns (outcome: Outcome)
      requires Valid() && AtStage(sid, name, digest, size, Acquired) && name != PartialName(name, digest)
      modifies this`dir, this`data, this`nextInode, this`sessions, this`published, wire
      ensures Valid() && AtStage(sid, name, digest, size, Releasing(outcome))
      ensures var kept := Kept(old(Content(Abs(), PartialName(name, digest))), size);
        && outcome == Judged(hash, kept, old(wire.pending), size, digest, name in old(dir))
        && (outcome.Stored? ==> name in dir && Content(Abs(), name) == Assembled(kept, old(wire.pending), size))
        && (outcome.Dropped? ==> Content(Abs(), PartialName(name, digest)) == kept + old(wire.pending))
        && (outcome.Dropped? <==> PartialName(name, digest) in dir)
        && (name in dir <==> name in old(dir) || outcome.Stored?)
        && wire.pending == Unread(kept, old(wire.pending), size)
      ensures Within(Conf(), old(Abs()), Abs(), {name})
    {
      hide Step, Within, PartialName, Valid, AtStage;
      ghost var c, s0 := Conf(), Abs();
      var offset, fd := OfferResume(sid, name, digest, size);
      ghost var s1 := Abs();
      outcome := ReceiveRest(sid, name, digest, size, fd, offset, wire);
      WithinTrans(c, s0, s1, Abs(), {name});
    }

    /** From the acquired lock to its release, in whatever state the other sessions have left the
        directory by then: if one of them has published the name, this one loses the race. */
    method FinishPut(ghost sid: Sid, name: Name, digest: Digest, size: nat, wire: Frames.Wire)
      returns (outcome: Outcome)
      requires Valid() && AtStage(sid, name, digest, size, Acquired)
      modifies this, wire
      ensures Valid() && AtStage(sid, name, digest, size, Done(outcome))
      ensures inFlight == old(inFlight) - {PartialName(name, digest)}
      ensures var kept := Kept(old(Content(Abs(), PartialName(name, digest))), size);
        && outcome == Judged(hash, kept, old(wire.pending), size, digest, name in old(dir))
        && (outcome.Stored? ==> name in dir && Content(Abs(), name) == Assembled(kept, old(wire.pending), size))
        && (outcome.Dropped? ==> Content(Abs(), PartialName(name, digest)) == kept + old(wire.pending))
        && (outcome.Dropped? <==> PartialName(name, digest) in dir)
        && (name in dir <==> name in old(dir) || outcome.Stored?)
        && wire.pending == Unread(kept, old(wire.pending), size)
      ensures Within(Conf(), old(Abs()), Abs(), {name})
    {
      PartialIsLonger(name, digest);
      hide Step, Within, PartialName;
      ghost var c, s0 := Conf(), Abs();
      outcome := ReceiveUpload(sid, name, digest, size, wire);
      ghost var s1 := Abs();
      ReleasePartial(sid, name, digest, size, outcome);
      WithinStep(c, s0, s1, Release(sid), Abs(), {name});
    }

    /** `handle_put` up to the offer: refused, or the lock taken and the partial open. */
    method StartPut(ghost sid: Sid, name: Name, digest: Digest, size: nat) returns (offer: Offer)
      requires Valid() && sid !in sessions && accepts(name) && size <= MAX_FILE_SIZE
      modifies this
      ensures Valid() && Within(Conf(), old(Abs()), Abs(), {name})
      ensures offer.Declined? <==> name in old(dir) || PartialName(name, digest) in old(inFlight)
      ensures offer.Declined? ==>
        && AtStage(sid, name, digest, size, Done(AlreadyExists))
        && dir == old(dir) && data == old(data) && inFlight == old(inFlight)
      ensures offer.Ready? ==>
        && AtStage(sid, name, digest, size, Receiving(offer.fd, offer.offset, []))
        && PartialName(name, digest) in dir && dir[PartialName(name, digest)] == offer.fd
        && Content(Abs(), PartialName(name, digest)) == Kept(old(Content(Abs(), PartialName(name, digest))), size)
        && offer.offset == |Content(Abs(), PartialName(name, digest))| <= size
        && inFlight == old(inFlight) + {PartialName(name, digest)}
        && (name != PartialName(name, digest) ==> name !in dir)
    {
      hide Step, Within, PartialName;
      ghost var c, s0 := Conf(), Abs();
      WithinRefl(c, s0, {name});
      var there := CheckName(sid, name, digest, size);
      ghost var s1 := Abs();
      WithinStep(c, s0, s0, Begin(sid, name, digest, size), s1, {name});
      if there {
        return Declined;
      }
      var got := TryAcquire(sid, name, digest, size);
      ghost var s2 := Abs();
      WithinStep(c, s0, s1, Acquire(sid), s2, {name});
      if !got {
        return Declined;
      }
      var offset, fd := OfferResume(sid, name, digest, size);
      WithinTrans(c, s0, s2, Abs(), {name});
      return Ready(offset, fd);
    }

    /** The offer cannot be sent: nothing more is done but the release. */
    method AbandonPut(ghost sid: Sid, name: Name, digest: Digest, ghost size: nat, ghost fd: Inode, ghost offset: nat)
      requires Valid() && AtStage(sid, name, digest, size, Receiving(fd, offset, [])) && fd in data
      modifies this`inFlight, this`sessions
      ensures Valid() && AtStage(sid, name, digest, size, Done(Dropped))
      ensures inFlight == old(inFlight) - {PartialName(name, digest)}
      ensures Within(Conf(), old(Abs()), Abs(), {name})
    {
      hide Step, Within, PartialName;
      ghost var c, s0 := Conf(), Abs();
      WithinRefl(c, s0, {name});
      GiveUp(sid, name, digest, size, fd, offset);
      ghost var s1 := Abs();
      WithinStep(c, s0, s0, Abort(sid), s1, {name});
      ReleasePartial(sid, name, digest, size, Dropped);
      WithinStep(c, s0, s1, Release(sid), Abs(), {name});
    }

    /** And from the offer to the release. */
    method EndPut(ghost sid: Sid, name: Name, digest: Digest, size: nat, fd: Inode, offset: nat, wire: Frames.Wire)
      returns (outcome: Outcome)
      requires Valid() && AtStage(sid, name, digest, size, Receiving(fd, offset, [])) && offset <= size
      requires PartialName(name, digest) in dir && dir[PartialName(name, digest)] == fd
      requires offset == |Content(Abs(), PartialName(name, digest))|
      modifies this, wire
      ensures Valid() && AtStage(sid, name, digest, size, Done(outcome))
      ensures inFlight == old(inFlight) - {PartialName(name, digest)}
      ensures var kept := old(Content(Abs(), PartialName(name, digest)));
        && outcome == Judged(hash, kept, old(wire.pending), size, digest, name in old(dir))
        && (outcome.Stored? ==> name in dir && Content(Abs(), name) == Assembled(kept, old(wire.pending), size))
        && (outcome.Dropped? ==> Content(Abs(), PartialName(name, digest)) == kept + old(wire.pending))
        && (outcome.Dropped? <==> PartialName(name, digest) in dir)
        && (name in dir <==> name in old(dir) || outcome.Stored?)
        && wire.pending == Unread(kept, old(wire.pending), size)
      ensures Within(Conf(), old(Abs()), Abs(), {name})
    {
      PartialIsLonger(name, digest);
      hide Step, Within, PartialName;
      ghost var c, s0 := Conf(), Abs();
      outcome := ReceiveRest(sid, name, digest, size, fd, offset, wire);
      ghost var s1 := Abs();
      ReleasePartial(sid, name, digest, size, outcome);
      WithinStep(c, s0, s1, Release(sid), Abs(), {name});
    }

    /** `handle_put` for a well-formed request that passed the name and size tests: whatever the
        client sends, the run is a legal schedule, the session is over and its partial released; the
        verdict is decided by what was kept followed by what was received, which is also what is
        stored; the stream is consumed exactly up to the end of the body; and when the connection
        breaks, every byte that arrived survives in the partial. */
    method HandlePut(ghost sid: Sid, name: Name, digest: Digest, size: nat, wire: Frames.Wire)
      returns (outcome: Outcome)
      requires Valid() && sid !in sessions && accepts(name) && size <= MAX_FILE_SIZE
      modifies this, wire
      ensures Valid() && AtStage(sid, name, digest, size, Done(outcome))
      ensures inFlight == old(inFlight)
      ensures name in old(dir) || PartialName(name, digest) in old(inFlight) ==>
        outcome == AlreadyExists && dir == old(dir) && data == old(data) && wire.pending == old(wire.pending)
      ensures name !in old(dir) && PartialName(name, digest) !in old(inFlight) ==>
        var kept := Kept(old(Content(Abs(), PartialName(name, digest))), size);
        && outcome == Judged(hash, kept, old(wire.pending), size, digest, false)
        && (outcome.Stored? ==> name in dir && Content(Abs(), name) == Assembled(kept, old(wire.pending), size))
        && (outcome.Dropped? ==> Content(Abs(), PartialName(name, digest)) == kept + old(wire.pending))
        && (outcome.Dropped? <==> PartialName(name, digest) in dir)
        && (name in dir <==> name in old(dir) || outcome.Stored?)
        && wire.pending == Unread(kept, old(wire.pending), size)
      ensures Within(Conf(), old(Abs()), Abs(), {name})
    {
      PartialIsLonger(name, digest);
      hide Step, Within, PartialName;
      ghost var c, s0 := Conf(), Abs();
      var offer := StartPut(sid, name, digest, size);
      if offer.Declined? {
        return AlreadyExists;
      }
      ghost var s1 := Abs();
      outcome := EndPut(sid, name, digest, size, offer.fd, offer.offset, wire);
      WithinTrans(c, s0, s1, Abs(), {name});
    }
  }
}
