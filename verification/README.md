# Retriever, verified

Retriever is a small file-transfer system: a threaded Python server, a Python client and a C client
that speak a framed binary protocol over TCP. Uploads and downloads can be interrupted and resumed,
every transfer is checked against a SHA-256 digest, and a published file is meant to stay as it is. This
project models its protocol, its storage discipline and its hash function in Dafny 4.11 and proves
what they promise. `dafny verify dfyconfig.toml` checks everything.

## The parts

| files | what they hold |
|---|---|
| `ByteOrder.dfy` | bytes, big-endian packing, the shift-and-mask loops of `c/frame.c` |
| `Sha256Spec.dfy`, `Sha256Constants.dfy`, `Sha256Example.dfy`, `Sha256.dfy` | FIPS 180-4 as pure functions, where its constants come from and its first example; the streaming context of `c/sha256.c` as a class |
| `Names.dfy` | filename rules, names of partial files, the two ways clients look for them |
| `Frames.dfy`, `Requests.dfy`, `Replies.dfy`, `Session.dfy` | frames over a fragmented stream, GET and PUT payloads, the server's reply frames, a session as a function of the stream |
| `Uploads.dfy` | the concurrent upload protocol as a transition system over names, inodes and sessions |
| `UploadInvariant.dfy`, `UploadTheorems.dfy`, `UploadResume.dfy` | what every step keeps, and what follows over every schedule |
| `UploadRuns.dfy`, `UploadDurability.dfy`, `UploadCode.dfy` | the runs that break each guarantee, and with them its exact condition, on any server and for the filename rules as they are |
| `UploadServer.dfy`, `SessionServer.dfy` | `handle_put` and `handle_client` as imperative code on the shared state, proved to be schedules of the transition system |
| `Serving.dfy` | the server's answer to GET, GET while uploads go on, and the names for which its replies are consistent |
| `Download.dfy`, `GetClient.dfy` | the C client's resumable download, end to end, as a function and as imperative code; the C client's upload against the server |

The main results:

* **SHA-256.** For every message and every way of cutting it into `update` calls, the streaming code
  computes the digest of FIPS 180-4 (`Sha256.HashChunks`). Padding is injective on all messages. The
  specification itself is held to the standard: its constants are the first bits of roots of primes
  (`RoundConstantsAreRoots`, `InitialWordsAreRoots`), and the digest of "abc" is the published one
  (`DigestOfAbc`).
* **One writer per partial** in every schedule of any server (`OneWriterPerPartial`).
* **Which stored files are safe, exactly.** The filename rules accept names that look like partials, and
  this is where the code falls short of "a published file is never changed". Name by name, and on any
  server whatever else it accepts:
  * a name stays bound, and has one winner, exactly when the startup sweep's glob `.*.part` does not match
    it (`BoundIffNotSwept`, `OneWinnerIff`); losers lose for good exactly when the name is not the partial
    of an accepted name (`LosersLoseIff`);
  * for the filename rules as they are, and for one and the same set of names, each of the following holds
    exactly for the names in it: the name's bytes never change, they are always the verified ones, uploads
    of it resume exactly and send every byte once, its partials are touched only by their owners
    (`CodeExactly`), and replies to GETs of it are consistent (`CodeConsistentExactly`). The set is small:
    names that are nobody's partial and whose own partials the rules refuse, which they do only for names
    of more than 232 bytes and names that begin or end with a dot. **Ordinary names are outside it**, and
    for every name outside it there is a run of the code that breaks each guarantee: a file such as `a`
    changes after its upload was told OK (`CodeRewritesPlainNames`), its upload resumes on foreign bytes
    (`Usurped`), a GET of it states the size of one file and the digest of another (`MixedReply`);
  * in every run of the code in which nobody uploads a file named like a partial of the name, all of this
    is kept for every name that is nobody's partial: `StoredIsKept`, `PublishedIsVerified`, `WinnersBytes`,
    `ResumeIsExact`, `NoByteSentTwice`, `OwnersOnly`, `GetIsConsistent`; and the imperative server keeps a
    stored plain file across every session that uploads none of its partials (`HandleClient`);
  * one more test in `check_filename`, refusing names the glob matches, makes every file safe
    (`DurableIffSweepFree`, `FilenameRulesAreNotEnough`).
* **Exact resume.** Upload: the partial is always a prefix of the file and no byte is accepted twice
  (`ResumeIsExact`, `LedgerBalances`, `NoByteSentTwice`). Download: over any history of cut attempts and of
  clients killed at any moment, the next uncut attempt stores exactly the server's bytes, **if and only
  if** the client did not start with a lone stale partial longer than the file (`Download.DownloadIsExact`).
* **Wire.** Reading is independent of fragmentation, accepted requests have exactly one encoding, and the
  session stays aligned with the stream for every conforming client, with `handle_put` and `handle_get`
  themselves deciding, consuming the bodies and writing the replies (`SessionServer.HandleClient`). The
  download client installs only what has the stated digest, whatever a server sends
  (`OnlyVerifiedIsInstalled`).

## Assumptions

* The protocol modules take the hash as an arbitrary function with a 32-byte result. `GetClient` and
  `PutClient` use the SHA-256 of `Sha256Spec`.
* Nobody but the server edits its directory, and unlinking an existing entry right after publishing it
  succeeds. Every other file operation of an upload may raise.
* The directory has no limit of its own on the length of entries. Where entries are limited to 255 bytes,
  the runs against ordinary names need a name of at most 209 bytes, and no name over 232 bytes can be
  uploaded at all.
* In the directory a server starts in (`Init`), a partial shares its inode with no name but its own
  target. This is what earlier runs leave behind, crashes included, if nobody uploaded a file named like a
  partial. The invariant `UploadInvariant.Inv` states it for one name only, and is kept for that name as
  long as nobody uploads a file named like a partial of it.
* A socket delivers any nonempty prefix of what the peer sent, or nothing once the peer has closed;
  `send` takes at least one byte or fails.
* `Config.accepts` is the set of names a PUT can store; `Code(hash)` is the code's own: the filename rules
  without ".", which they accept but which always exists.

Where the documentation and the code differ, the code is followed. `docs/PROTOCOL.md` says that a resume
cannot append onto foreign bytes because the token is part of the partial's name; `CodeWritesThrough`,
`CodeRewritesPlainNames` and `Usurped` are runs of the code in which it does, the foreign bytes being a
stored file.

## Model

| member | source | states |
|---|---|---|
| ByteOrder.ValueOfBigEndian | c/frame.c:34-40 | packing any number at any width keeps exactly its value modulo 256^width |
| ByteOrder.BigEndianOfValue | c/frame.c:47-55 | unpacking and repacking any byte string gives it back |
| ByteOrder.U64RoundTrip | c/frame.c:34-55 | get after put is the identity on every u64 |
| ByteOrder.U64OfBytes | c/frame.c:34-55 | put after get is the identity on every 8-byte string, and the value is a u64 |
| ByteOrder.MaskIsRemainder | c/frame.c:24-26 | masking with k one-bits is the remainder modulo 2^k |
| ByteOrder.OrIsAddition | c/frame.c:51-52 | or-ing a k-bit value under a number shifted up by k is addition |
| ByteOrder.ShiftMaskIsDigit | c/frame.c:36-39 | the shift-and-mask expression extracts digit i of the big-endian form |
| ByteOrder.PutU64 | c/frame.c:34-40 | the loop writes the eight digits in place and nothing else |
| ByteOrder.PutU16 | c/frame.c:28-32 | the two assignments write the two digits and nothing else |
| ByteOrder.GetU64 | c/frame.c:47-55 | the accumulator loop computes the positional value |
| ByteOrder.GetU16 | c/frame.c:42-45 | the expression computes the positional value |
| Sha256Spec.PadInjective | c/sha256.c:6-9 | two different messages never pad to the same block sequence, with no bound on length |
| Sha256Spec.AbsorbPrefix | c/sha256.c:140-145 | blocks already folded do not depend on later bytes |
| Sha256Constants.RoundConstantsAreRoots | c/sha256.c:41-61 | constant t is the first 32 bits of the fractional part of the cube root of the t-th prime |
| Sha256Constants.InitialWordsAreRoots | c/sha256.c:104-118 | initial word t is the same of the square root |
| Sha256Constants.ChChooses | c/sha256.c:34 | under any mask Ch takes the second argument where the first has ones and the third where it has zeros |
| Sha256Constants.MajAgrees | c/sha256.c:35 | under any mask Maj is what two of the three agree on |
| Sha256Example.DigestOfAbc | c/sha256.c:64-186 | the specification's digest of "abc" is the published one |
| Sha256.LoadWord | c/sha256.c:68-73 | four shifted bytes or-ed together are the word they stand for |
| Sha256.StoreWord | c/sha256.c:179-185 | shifting and masking gives the four digits of a word |
| Sha256.BSig0 | c/sha256.c:32-36 | two shifts and an or are the standard's rotations in capital sigma 0 |
| Sha256.BSig1 | c/sha256.c:32-37 | the same for capital sigma 1 |
| Sha256.SSig0 | c/sha256.c:32-38 | the same for small sigma 0, with its shift |
| Sha256.SSig1 | c/sha256.c:32-39 | the same for small sigma 1, with its shift |
| Sha256.FillSchedule | c/sha256.c:66-78 | the 64-word array fill is the recursive message schedule of section 6.2.2 |
| Sha256.RunRounds | c/sha256.c:80-96 | the eight rotating locals after each round are the recursive round function |
| Sha256.Context.constructor | c/sha256.c:104-118 | a new context is counted and has absorbed nothing |
| Sha256.Context.Block | c/sha256.c:64-102 | the in-place block routine is the compression of section 6.2.2, modulo 2^32 |
| Sha256.Context.TopUp | c/sha256.c:126-138 | a partial block is completed from the data, processed when full, and nothing is lost |
| Sha256.Context.TakeBlocks | c/sha256.c:140-145 | whole blocks are folded straight from the data until less than one is left |
| Sha256.Context.Update | c/sha256.c:120-152 | state is the fold over the complete blocks, buffer the tail, the counter the bit length modulo 2^64 |
| Sha256.Context.PadZeros | c/sha256.c:163-170 | the zero loop terminates, across a block wrap too, with the standard's count of zeros |
| Sha256.Context.AppendLength | c/sha256.c:172-177 | the length field closes the padding with the bit count before padding |
| Sha256.Context.WriteState | c/sha256.c:179-185 | the digest buffer is the eight words, big-endian |
| Sha256.Context.Final | c/sha256.c:154-186 | the digest is that of everything absorbed; the context ends with an empty buffer and the padded message |
| Sha256.HashChunks | c/sha256.c:104-186 | init, any updates, final: the digest of the concatenation, for every cut |
| Sha256.HashFile | c/sha256.c:188-211 | for every size of read the digest of the file, or failure exactly on a read error |
| Names.WriteHex | c/sha256.c:213-221 | lowercase hex and a terminating zero, in place |
| Names.UnhexHex | c/transfer.c:156-164 | the token read back from its hex text is the token |
| Names.PartialInjective | retriever/protocol.py:197-205 | a partial's name determines target and token, with or without dots in the target |
| Names.AcceptedStaysInDirectory | retriever/protocol.py:246-256 | an accepted name is a plain entry of the served directory iff it is not "."; every partial of an accepted name is one |
| Names.DotIsAccepted | retriever/protocol.py:246-256 | "." passes the filename rules and is not a plain entry |
| Names.PartialAcceptedIff | retriever/protocol.py:246-256 | the rules accept a name's partials as names iff it has at most 232 bytes and neither begins nor ends with a dot |
| Names.OneCharacter | retriever/protocol.py:246-256 | a one-character name passes exactly if the character is printable ASCII and no slash |
| Names.TwoNames | retriever/protocol.py:246-256 | two names put together pass exactly if both do, the length allows it and no two dots meet |
| Names.SweepExactly | retriever/protocol.py:236 | the sweep's glob matches a dot, anything, and ".part" |
| Names.PartialsAreSwept | retriever/protocol.py:228-236 | every partial's name matches the sweep's glob |
| Names.ScanExactly | c/transfer.c:123-137 | the scan accepts the base between two dots, sixteen characters and ".part" |
| Names.HexCaseless | c/transfer.c:156-164 | hex digits of either case are read alike, and nothing else is one |
| Names.ScanAcceptsOwnPartials | c/transfer.c:123-137 | among names the protocol made, the scan accepts exactly those of the same base name |
| Names.FindPartial | c/transfer.c:99-166 | the counting loop answers the entry and its token exactly when one entry is accepted |
| Names.FindsWhatWasMade | c/transfer.c:140-165 | a sole partial made for this base is returned with the very token it was made with |
| Names.GlobAcceptsExactly | retriever/protocol.py:220-225 | the Python glob accepts a partial iff its target is the base or extends it by a dot |
| Names.SplitRejoins | c/transfer.c:28-60 | the parts make up the path again; a path is refused exactly when a part would not fit |
| Names.FoundWhereWritten | c/transfer.c:67-91 | the path a partial is found under is the path it was written to, never truncated |
| Names.PartialBesideTarget | c/transfer.c:67-91 | its last component is the partial's name, and what is before that is the destination's own directory |
| Names.SplitInto | c/transfer.c:28-60 | within the bounds of both buffers: refuses exactly what does not fit, otherwise each holds its part and the terminator |
| Names.ScanBuffersFit | c/transfer.c:112-138 | the prefix and every entry the scan remembers fit their buffers, terminators included |
| Frames.DecodeEncode | retriever/protocol.py:79-117 | a sendable frame is read back and what follows it is untouched |
| Frames.EncodeDecode | retriever/protocol.py:85-117 | only its own encoding is read as a frame |
| Frames.DecodeByHeader | retriever/protocol.py:85-117 | any header at all: which are violations, with which reason, what they consume, and when it is an early close |
| Frames.DecodeManyEncodeAll | retriever/protocol.py:79-117 | any list of frames is read back as that list, suffix untouched |
| Frames.ReadersAgree | c/frame.c:171-222 | the C and Python readers decode the same frames, OK and ERROR in particular |
| Frames.ReadExact | retriever/protocol.py:137-146 | exactly n bytes or an early close, however the stream is fragmented |
| Frames.ReadInto | c/frame.c:59-86 | the same into the caller's buffer, within its first n bytes |
| Frames.ReadFrame | retriever/protocol.py:85-117 | the result and the rest are a function of the bytes alone |
| Frames.ReadFrames | retriever/protocol.py:104-117 | repeated reads give the list the bytes encode, whatever the fragments |
| Frames.CReadFrame | c/frame.c:171-222 | the same for the C reader |
| Frames.WriteAll | c/frame.c:88-105 | all bytes in order however little each send takes; a proper prefix and a failure exactly if a send fails |
| Frames.WriteFrame | c/frame.c:152-169 | what reaches the wire is the encoding the readers expect, or, exactly if a send fails, a proper prefix of it |
| Requests.AsciiOnlyFromAscii | retriever/server.py:98-99 | decoding with replacement yields ASCII exactly from ASCII bytes, and then changes nothing |
| Requests.DecodesCharacter | retriever/server.py:98-99 | every well-encoded character is decoded to itself |
| Requests.ReplacesPiece | retriever/server.py:98-99 | every ill-formed piece becomes one replacement character |
| Replies.UnpackPack | retriever/protocol.py:119-135 | reason and text of an error come back |
| Replies.PackUnpack | retriever/protocol.py:119-135 | and only from their own encoding |
| Replies.VerdictUnderstood | retriever/server.py:219-241 | the three verdicts on an upload are told apart by the frames sent |
| Replies.OfferReadBack | c/transfer.c:360-366 | the offset the server puts in its OK frame is the one the client takes out |
| Requests.GetRoundTrip | retriever/server.py:109-117 | the GET parser inverts the client's encoder |
| Requests.PutRoundTrip | retriever/server.py:154-163 | the PUT parser inverts the client's encoder |
| Requests.FieldsCanonical | retriever/server.py:90-99 | any payload that parses re-encodes to the same bytes |
| Requests.GetCanonical | retriever/server.py:109-119 | an accepted GET payload is the one encoding of what was read from it |
| Requests.PutCanonical | retriever/server.py:157-165 | an accepted PUT payload is the one encoding of what was read from it |
| Requests.AcceptedRequestsDiffer | retriever/protocol.py:246-256 | two different payloads are never accepted as the same request, GET or PUT |
| Requests.PackRequest | c/transfer.c:198-209 | the request buffer, packed in place, is the encoding; over-long names are refused |
| Session.ClientPutConforms | c/transfer.c:337-403 | the PUT frame and the file's bytes from the offered offset on are exactly what the server reads |
| Session.ClientGetConforms | c/transfer.c:204-214 | a GET of an accepted name is a command without a body, served or refused |
| Session.NextTakes | retriever/server.py:49-67 | a conforming exchange is what the next turn takes, and what follows is left |
| Session.NextTakesOnly | retriever/server.py:49-67 | whatever a turn takes is a conforming exchange at the front of the stream |
| Session.Aligned | retriever/server.py:40-67 | after any conforming commands and any decisions the server stands at the byte after them |
| Session.PoliteSession | retriever/server.py:40-59 | HELLO, commands, QUIT: all handled, later bytes untouched |
| Session.HelloFirst | retriever/server.py:44-46 | a session that does not begin with HELLO ends there as malformed |
| Session.MalformedEnds | retriever/server.py:66-67 | so does one in which something comes that is no command or does not parse |
| Session.HandledIsConforming | retriever/server.py:69-74 | of any stream at all, what was handled is a conforming prefix, and the session ended at the first thing after it that does not go on, with the reason of that violation |
| SessionServer.DecideGetMeans | retriever/server.py:119-130 | a GET is refused exactly if there is no such file, fatal exactly if the answer is that the offset is past the end, and else served |
| SessionServer.HandleGetRequest | retriever/server.py:109-150 | what is written is the answer on the wire or the error; it raises exactly on a fatal decision |
| SessionServer.HandlePutRequest | retriever/server.py:154-242 | refused, cut, corrupt, stored or already complete: exactly the announced body is taken; Stored exactly if kept plus body has the stated hash, and then the name holds them, else Corrupt and nothing is left; and the replies say so |
| SessionServer.PutReplyRead | c/transfer.c:349-420 | the C client reads the cause of a refusal, or the offset and then the verdict, out of the reply to its PUT |
| SessionServer.GetRefusalRead | c/transfer.c:221-236 | and out of a refused GET whether the name is bad or the file missing |
| SessionServer.FinishPutRequest | retriever/server.py:187-242 | after others have acted, the race lost or won: the stream is consumed as Session says for the offer made, and the verdict is exact |
| SessionServer.HandleCommand | retriever/server.py:49-87 | one turn of the loop takes from the stream what Session says for the decision the shared state makes, and writes the reply to it |
| SessionServer.HandleClient | retriever/server.py:40-87 | for every fragmentation the session is Session's function of the bytes for the decisions taken, with verdict and reply settled for each command; a stored plain file is kept, and verified, if neither before nor during the session a partial of it was uploaded |
| SessionServer.GreetingRead | retriever/server.py:44-47 | the client reads OK to its HELLO, or the reason why not |
| SessionServer.FarewellRead | retriever/server.py:56-74 | and OK to its QUIT, or the reason of its violation |
| UploadInvariant.StepKeepsLock | retriever/server.py:180-191 | on any server every step keeps `_in_flight` exact and partials single-owner |
| UploadInvariant.StrangersTouchNothing | retriever/server.py:194-239 | while nobody uploads a partial of the name as a file, a session of another name changes neither binding nor bytes of the name and its partials |
| UploadInvariant.StepKeeps | retriever/server.py:154-242 | every action of every session but the upload of a partial of the name, the crash and the restart keep the invariant of a name that is nobody's partial |
| UploadInvariant.WriterAlone | retriever/server.py:210-217 | the inode a session writes to has no name but its own partial |
| UploadInvariant.NotLinkedNotShared | retriever/server.py:174-191 | a session past the check never works on a partial still linked to its target, unless it linked it itself |
| UploadInvariant.RunKeeps | retriever/server.py:154-242 | the invariant holds in every state such schedules reach, on any server |
| UploadTheorems.OneWriterPerPartial | retriever/server.py:180-191 | on any server `_in_flight` is exactly the partials of sessions between acquire and release, and they are distinct |
| UploadTheorems.EveryExitReleases | retriever/server.py:187-191 | however a session stops owning its partial, the partial leaves `_in_flight` |
| UploadTheorems.BindingKeptAlong | retriever/server.py:230-239 | on any server no schedule unbinds or rebinds a name the sweep does not match |
| UploadTheorems.OneWinner | retriever/server.py:230-241 | on any server at most one PUT of such a name ever gets the final OK |
| UploadTheorems.ToldForGood | retriever/server.py:187-242 | what a session has been told is never taken back, by no step and no crash |
| UploadTheorems.LosersNeverWin | retriever/server.py:232-238 | a verified upload whose name is taken is told ALREADY_EXISTS or nothing, in every continuation, if the name is nobody's partial |
| UploadTheorems.OnlyOwnerTouches | retriever/server.py:180-191 | under the invariant, while serving, a partial's binding and bytes change only by a step of its owner |
| UploadTheorems.OwnersOnly | retriever/server.py:180-191 | and so in every run of any server in which nobody uploads a partial of the name as a file |
| UploadTheorems.EntryKeptAlong | retriever/server.py:230-239 | no such schedule that does not sweep the name unbinds, rebinds or rewrites it |
| UploadTheorems.ConfinedRun | retriever/server.py:165-168 | what a server accepts matters only through the names that are in fact uploaded |
| UploadTheorems.PlainRun | retriever/protocol.py:228-256 | a run in which nobody uploads a name the glob matches is a run of the server that refuses such names |
| UploadTheorems.StoredIsKept | retriever/server.py:230-239 | on any server a plain name keeps inode and bytes in every run in which nobody uploads a partial of it as a file |
| UploadTheorems.PublishedIsVerified | retriever/server.py:219-239 | in every state such runs reach a published name holds bytes of its publisher's stated hash and size |
| UploadTheorems.WinnersBytes | retriever/server.py:219-241 | after such a run the name of a session that was told OK is there and holds that session's bytes |
| UploadRuns.BoundIffNotSwept | retriever/protocol.py:228-243 | on any server a name stays bound over all schedules iff the sweep's glob does not match it |
| UploadRuns.OneWinnerIff | retriever/server.py:230-241 | on any server at most one PUT of an accepted name is ever told OK iff the glob does not match it |
| UploadRuns.TwoWinners | retriever/protocol.py:228-243 | the run behind the converse: PUT, a restart that sweeps the name, PUT again, two OKs |
| UploadRuns.LosersLoseIff | retriever/server.py:230-238 | losers of an accepted name lose for good iff it is not the partial of an accepted name |
| UploadDurability.ImmutableIff | retriever/server.py:194-239 | no accepted name is ever rewritten while it is there iff no accepted name is the partial of another |
| UploadDurability.DurableIffSweepFree | retriever/server.py:154-242 | every accepted name is kept over all schedules and starting directories iff none matches `.*.part` |
| UploadDurability.WrittenThrough | retriever/server.py:194-217 | an accepted name that is another's partial gets appended to, with no crash and no sweep |
| UploadDurability.PlainNameRewritten | retriever/server.py:194-239 | a name one of whose partials is accepted changes after its upload was told OK |
| UploadCode.CodeExactly | retriever/protocol.py:246-256 | with the filename rules as they are: the exact names whose bytes never change and are always verified, whose uploads resume exactly and send each byte once, whose partials only owners touch, and which are safe for good |
| UploadCode.Usurped | retriever/server.py:194-239 | the run in which an upload finds a file of other bytes published as its partial |
| UploadCode.WrittenThroughWhileOwned | retriever/server.py:194-239 | the run in which a partial that is owned is written to through another name |
| UploadCode.NeverSent | retriever/server.py:194-223 | a name one of whose partials is accepted can be verified without one byte sent |
| UploadCode.LostWithoutGain | retriever/server.py:194-239 | the upload of a name that is a partial can throw away bytes it never received |
| UploadCode.CreatedByStranger | retriever/server.py:230-233 | an accepted partial is created by a link while nobody owns it |
| UploadCode.CodeRewritesPlainNames | retriever/protocol.py:246-256 | the run that rewrites an ordinary file, for every name whose partials the rules accept |
| UploadCode.CodeWritesThrough | retriever/protocol.py:246-256 | the run that appends to a file named like a partial, under the same rules |
| UploadCode.FilenameRulesAreNotEnough | retriever/protocol.py:246-256 | "a" and its partial as a file can be rewritten; with the glob test added to the rules every file is safe |
| UploadResume.ResumeIsExact | retriever/server.py:194-223 | for holders of the same file the partial is a prefix, the offer is its length, and no attempt is CORRUPT |
| UploadResume.LedgerBalances | retriever/server.py:194-239 | for the partials of a name nobody uploads as files, held plus lost equals held before plus accepted, over any schedule |
| UploadResume.NoByteSentTwice | retriever/server.py:205-217 | over all attempts up to a verified upload, bytes there at the start plus bytes accepted are the file's size plus what was lost |
| UploadServer.KeptAcross | retriever/server.py:154-242 | whatever calls lead from one state of the imperative server to another, a plain stored name is kept and a published one verified, if no name uploaded since the start was a partial of it |
| UploadServer.Server.ReceiveAll | retriever/server.py:205-217 | the receive loop appends exactly what arrived, and is a schedule of the protocol |
| UploadServer.Server.OfferResume | retriever/server.py:194-211 | the offer is the length of what is kept; an oversize partial is dropped |
| UploadServer.Server.FillPartial | retriever/server.py:205-217 | the partial ends as what was kept plus what was received, and the stream is read exactly to the end of the body |
| UploadServer.Server.ReceiveRest | retriever/server.py:205-242 | from the offer on, the verdict is exactly decided by kept plus received, which is what is stored |
| UploadServer.Server.VerifyAndPublish | retriever/server.py:219-239 | published iff verified and the name was free, with the partial's bytes; otherwise CORRUPT or ALREADY_EXISTS |
| UploadServer.Server.ReceiveUpload | retriever/server.py:194-242 | the verdict is exactly decided by kept plus received, which is what is stored; on a broken connection every byte survives |
| UploadServer.Server.FinishPut | retriever/server.py:187-242 | the same from whatever state the others left, the lost race included, and the lock is released |
| UploadServer.Server.StartPut | retriever/server.py:174-201 | declined exactly if the name exists or the partial is in flight; otherwise the offer is the length of what is kept |
| UploadServer.Server.HandlePut | retriever/server.py:174-191 | the run is a legal schedule that uploads this name only, the verdict is exact, the partial is released on every exit, refusals change nothing |
| Serving.ReplyIsConsistent | retriever/server.py:128-150 | start is 0 or the offset, the frame length is right, and the kept part plus the body is the hashed file |
| Serving.SendFile | retriever/server.py:139-150 | what is sent is the header, the metadata and the file from start on, or, exactly if a send fails, a proper prefix of that |
| GetUnderUploads.ReadsAreStable | retriever/server.py:142-150 | reading a name piece by piece, while others act but nobody uploads a partial of it as a file, gives the bytes as they were |
| GetUnderUploads.GetIsConsistent | retriever/server.py:128-150 | on any server, in such runs: size, digest and body, taken by separate opens and reads with anything in between, are those of one file |
| GetInCode.MixedReply | retriever/server.py:128-150 | a file that grows between the size and the hash gives a reply that is the answer for no file |
| GetInCode.CodeConsistentExactly | retriever/server.py:109-150 | with the filename rules as they are: replies are always consistent exactly for the names whose bytes never change |
| Download.ScannedMeans | c/transfer.c:140-165 | in any listing order the scan's answer is the sole hit and the token in its name |
| Download.StartsWhereItLeftOff | c/transfer.c:242-264 | a nonzero start is the length of the very file then appended to |
| Download.AttemptIsExact | c/transfer.c:176-312 | any attempt, cut anywhere, keeps the partial a prefix; the hash never mismatches; stored is the server's file |
| Download.UncutAttempt | c/transfer.c:176-312 | an attempt that is not cut stores the file iff the client is not stuck |
| Download.OnlyVerifiedIsInstalled | c/transfer.c:251-307 | for any reply and any directory: the destination appears exactly if the body came whole and has the stated digest, and then consists of what was appended to and the body; a mismatch leaves neither destination nor partial; all else is left alone |
| Download.NoFileNoChange | c/transfer.c:178-246 | a reply without a file changes nothing, and its header decides which failure it is |
| Download.NoProgressLost | c/transfer.c:270-286 | with its own partial the only one, an interrupted attempt only adds to it |
| Download.InterruptedGains | c/transfer.c:270-286 | and it gains all that arrived but for less than one read |
| Download.OnePartialLeft | c/transfer.c:256-286 | after a transfer that is cut off the partial of the server's file is the only one, if there was at most one before |
| Download.KillLosesNothing | c/transfer.c:256-307 | nor does a kill at any moment take anything from it |
| Download.KilledBeforeRename | c/transfer.c:287-303 | a kill between the last write and the rename, the complete file under the partial's name, is one of the steps |
| Download.KilledAfterRemove | c/transfer.c:259-264 | so is one between the removal of a stale partial and the opening of the new one |
| Download.AdvanceKeeps | c/transfer.c:176-312 | soundness and being stuck or not survive attempts, cuts, and kills at any moment |
| Download.DownloadIsExact | c/transfer.c:176-312 | end to end over any history: exact bytes, and completion iff not stuck at the start |
| Download.StuckHappens | retriever/server.py:128-135 | with a stale partial longer than the file no attempt, cut anywhere, changes anything |
| GetClient.PrepareGet | c/transfer.c:184-209 | the request states the length and token of the sole partial, or zeros |
| GetClient.ReceiveBody | c/transfer.c:270-286 | whole reads are appended as they complete; an incomplete one is not |
| GetClient.VerifyAndRename | c/transfer.c:292-307 | renamed into place iff the SHA-256 on disk is the stated one, else removed |
| GetClient.ReadReply | c/transfer.c:216-312 | for any reply stream and fragmentation the directory ends as the client function says |
| GetClient.DoGet | c/transfer.c:176-312 | an existing destination is left alone; the request states what is held and gets out unless a send fails; then the reply decides, and the destination appears exactly if its SHA-256 is the stated one |
| PutClient.PreparePut | c/transfer.c:316-347 | the request states the size and the SHA-256 of the file |
| PutClient.SendRest | c/transfer.c:365-404 | exactly the bytes from the resume offset on, in order, or, exactly if a send fails, a proper prefix of them |
| PutClient.RestCompletes | c/transfer.c:376-404 | what was kept plus the bytes sent is the file, the verdict is OK and what follows on the stream is left |
| PutClient.ReadOffer | c/transfer.c:349-366 | an offset is taken exactly from an OK frame with at least eight bytes |
| PutClient.Upload | c/transfer.c:316-420 | end to end, offset and verdict read off the wire, with a prefix as the partial: told OK exactly if no send fails, and then the name holds the file; a cut leaves a prefix at least as long |

## Left out

- Sockets, connecting, timeouts and interrupted system calls: a stream either delivers, closes or fails.
- The contents of a LIST reply, the texts of error messages (left empty here), image sniffing and logging: no hard property.
- The session cap of `start_server` and the accept loop: sessions are unbounded in number here, which only allows more schedules.
- Command-line handling of both clients and the Python client's transfer loops: the C client is the one modelled.
- The age test of the sweep: the model's sweep removes any set of matching entries, which covers every clock.
- Names.FindPartial: an entry the scan accepts whose token text is not hexadecimal is NotFound here, where `sscanf` may still read part of it; the `stat` of the entry found is left out. The download theorems are about protocol-made entries.
- UploadServer.Server.ReceiveUpload: runs from any state but with no other session in between its own steps, and the peer's close is its only failure; interleavings and exceptions are the business of the transition system, whose actions it performs.
- UploadServer.Server.HandlePut: the same, so that the lost race shows in FinishPut only.
- SessionServer.HandleClient: what it says of stream and replies is for sessions all of whose replies get out; a verdict that cannot be written counts as sent; and the server's state changes between commands only by its own uploads, while Session.Aligned is for arbitrary decisions.
- GetClient.DoGet: failing local file operations of the C client, memory allocation and exit codes.
- The order in which a file object flushes its buffer is arbitrary in Uploads; in UploadServer each chunk is flushed at once.
- A limit on the length of directory entries: see the assumptions.
- A GET of a name that is somebody's partial, or whose partials are uploaded as files, is not consistent: see `CodeConsistentExactly`.
- Collision resistance of SHA-256: results are stated as hash equality, or as prefix facts for holders of the same file.
