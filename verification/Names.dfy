/**
  File names: which ones a server accepts, how the name of a partial file is built from a target
  name and a resume token, and how a client finds its partial again in a directory listing.

  Names are byte strings. An accepted name is printable ASCII, so its bytes and its characters
  are the same numbers.
 */
module Names {
  import opened ByteOrder

  type Name = bytes

  /** A SHA-256 digest; its first eight bytes double as the resume token. */
  type Digest = d: bytes | |d| == 32 witness seq(32, _ => 0)

  const TOKEN_SIZE: nat := 8
  const MAX_NAME: nat := 255

  /** The largest file a PUT may claim, 1 GiB. */
  const MAX_FILE_SIZE: nat := 0x4000_0000

  const DOT: byte := 0x2E
  const SLASH: byte := 0x2F
  const BACKSLASH: byte := 0x5C

  /** The suffix ".part". */
  const PART: Name := [0x2E, 0x70, 0x61, 0x72, 0x74]

  // ----- the filename rules

  /** `check_filename`, on the characters of a decoded name: 1 to 255 printable ASCII characters,
      no slash, no backslash, no two dots in a row. */
  predicate CheckFilename(name: seq<nat>) {
    && 0 < |name| <= MAX_NAME
    && SLASH !in name
    && BACKSLASH !in name
    && !HasDotDot(name)
    && forall i :: 0 <= i < |name| ==> 32 <= name[i] < 127
  }

  predicate HasDotDot(name: seq<nat>) {
    exists i {:trigger name[i]} :: 0 <= i < |name| - 1 && name[i] == DOT && name[i + 1] == DOT
  }

  /** The rules on one character: printable ASCII but for the two slashes. */
  lemma OneCharacter(c: nat)
    ensures CheckFilename([c]) <==> 32 <= c < 127 && c != SLASH && c != BACKSLASH
  {
    assert !HasDotDot([c]);
    assert [c][0] == c;
  }

  /** And on two names put together: what both pass, if it is not too long and no two dots meet. */
  lemma TwoNames(a: seq<nat>, b: seq<nat>)
    requires a != [] && b != []
    ensures CheckFilename(a + b) <==>
      && |a| + |b| <= MAX_NAME && CheckFilename(a) && CheckFilename(b)
      && !(a[|a| - 1] == DOT && b[0] == DOT)
  {
    DotsTogether(a, b);
    hide HasDotDot;
    var n := a + b;
    assert SLASH in n <==> SLASH in a || SLASH in b;
    assert BACKSLASH in n <==> BACKSLASH in a || BACKSLASH in b;
    assert forall i :: 0 <= i < |a| ==> a[i] == n[i];
    assert forall i :: 0 <= i < |b| ==> b[i] == n[|a| + i];
  }

  lemma DotsTogether(a: seq<nat>, b: seq<nat>)
    requires a != [] && b != []
    ensures HasDotDot(a + b) <==> HasDotDot(a) || HasDotDot(b) || (a[|a| - 1] == DOT && b[0] == DOT)
  {
    var n := a + b;
    if HasDotDot(a) {
      var i :| 0 <= i < |a| - 1 && a[i] == DOT && a[i + 1] == DOT;
      assert n[i] == DOT && n[i + 1] == DOT;
    }
    if HasDotDot(b) {
      var i :| 0 <= i < |b| - 1 && b[i] == DOT && b[i + 1] == DOT;
      assert n[|a| + i] == DOT && n[|a| + i + 1] == DOT;
    }
    if a[|a| - 1] == DOT && b[0] == DOT {
      assert n[|a| - 1] == DOT && n[|a| - 1 + 1] == DOT;
    }
    if HasDotDot(n) {
      var i :| 0 <= i < |n| - 1 && n[i] == DOT && n[i + 1] == DOT;
      if i + 1 < |a| {
        assert a[i] == DOT && a[i + 1] == DOT;
      } else if i >= |a| {
        assert b[i - |a|] == DOT && b[i - |a| + 1] == DOT;
      }
    }
  }

  // ----- hexadecimal

  function HexDigit(n: nat): (c: byte)
    requires n < 16
    ensures 48 <= c < 127 && c != BACKSLASH
  {
    if n < 10 then 48 + n else 87 + n
  }

  function HexValue(c: byte): (v: int)
    ensures -1 <= v < 16
  {
    if 48 <= c <= 57 then c - 48
    else if 97 <= c <= 102 then c - 87
    else if 65 <= c <= 70 then c - 55
    else -1
  }

  function Hex(s: bytes): (h: Name)
    ensures |h| == 2 * |s|
    ensures forall c :: c in h ==> 48 <= c < 127 && c != BACKSLASH
  {
    if s == [] then []
    else [HexDigit(s[0] / 16), HexDigit(s[0] % 16)] + Hex(s[1..])
  }

  datatype Option<+T> = None | Some(value: T)

  /** Reads pairs of hex digits of either case. */
  function Unhex(h: Name): (r: Option<bytes>)
    ensures r.Some? ==> 2 * |r.value| == |h|
  {
    if |h| == 0 then Some([])
    else if |h| == 1 || HexValue(h[0]) < 0 || HexValue(h[1]) < 0 then None
    else
      match Unhex(h[2..])
      case None => None
      case Some(rest) => Some([HexValue(h[0]) * 16 + HexValue(h[1])] + rest)
  }

  /** Digits of either case are read alike, and nothing else is a digit. */
  lemma HexCaseless(c: byte)
    ensures 65 <= c <= 70 ==> HexValue(c) == HexValue(c + 32) == c - 55
    ensures HexValue(c) >= 0 <==> exists n: nat :: n < 16 && (c == HexDigit(n) || (n >= 10 && c + 32 == HexDigit(n)))
  {
    var v := HexValue(c);
    assert v >= 0 ==> c == HexDigit(v) || (v >= 10 && c + 32 == HexDigit(v));
  }

  lemma {:induction false} UnhexHex(s: bytes)
    ensures Unhex(Hex(s)) == Some(s)
  {
    if s != [] {
      UnhexHex(s[1..]);
      assert Hex(s)[2..] == Hex(s[1..]);
      assert [s[0]] + s[1..] == s;
    }
  }

  lemma {:induction false} HexAt(s: bytes, i: nat)
    requires i < |s|
    ensures Hex(s)[2 * i] == HexDigit(s[i] / 16) && Hex(s)[2 * i + 1] == HexDigit(s[i] % 16)
  {
    if i > 0 {
      HexAt(s[1..], i - 1);
    }
  }

  lemma Nibbles(b: byte)
    ensures BitAnd(ShiftRight(b, 4), 0x0F) == b / 16 && BitAnd(b, 0x0F) == b % 16
  {
    assert Pow2(2) == 4 && Pow2(4) == 16;
    MaskIsRemainder(ShiftRight(b, 4), 4);
    MaskIsRemainder(b, 4);
  }

  /** `sha256_hex`: 2 * len characters and a terminating zero, written in place. */
  method WriteHex(digest: bytes, len: nat, out: array<byte>)
    requires len <= |digest| && out.Length >= 2 * len + 1
    modifies out
    ensures out[..2 * len] == Hex(digest[..len]) && out[2 * len] == 0
  {
    hide Hex, HexDigit;
    for i := 0 to len
      invariant forall k :: 0 <= k < 2 * i ==> out[k] == Hex(digest[..len])[k]
    {
      HexAt(digest[..len], i);
      Nibbles(digest[i]);
      out[i * 2] := HexDigit(BitAnd(ShiftRight(digest[i], 4), 0x0F));
      out[i * 2 + 1] := HexDigit(BitAnd(digest[i], 0x0F));
    }
    out[len * 2] := 0;
  }

  // ----- the names of partial files

  function Token(digest: bytes): (t: bytes)
    requires |digest| >= TOKEN_SIZE
    ensures |t| == TOKEN_SIZE
  {
    digest[..TOKEN_SIZE]
  }

  /** ".<name>.<16 hex digits>.part" */
  function PartialOf(name: Name, token: bytes): (p: Name)
    requires |token| == TOKEN_SIZE
    ensures |p| == |name| + 23
  {
    [DOT] + name + [DOT] + Hex(token) + PART
  }

  function PartialName(name: Name, digest: bytes): (p: Name)
    requires |digest| >= TOKEN_SIZE
    ensures |p| == |name| + 23
  {
    PartialOf(name, Token(digest))
  }

  /** Where each part of a partial's name sits. */
  lemma PartialLayout(name: Name, token: bytes)
    requires |token| == TOKEN_SIZE
    ensures var p := PartialOf(name, token);
      && p[0] == DOT
      && p[1..|name| + 1] == name
      && p[|name| + 1] == DOT
      && p[|name| + 2..|name| + 18] == Hex(token)
      && p[|name| + 18..] == PART
  {
    hide Hex;
    var p := PartialOf(name, token);
    assert p[1..|name| + 1] == name;
    assert p[|name| + 2..|name| + 18] == Hex(token);
  }

  /** A partial's name determines both the target and the token, dots in the target or not. */
  lemma PartialInjective(m: Name, s: bytes, n: Name, t: bytes)
    requires |s| == TOKEN_SIZE && |t| == TOKEN_SIZE
    requires PartialOf(m, s) == PartialOf(n, t)
    ensures m == n && s == t
  {
    PartialLayout(m, s);
    PartialLayout(n, t);
    UnhexHex(s);
    UnhexHex(t);
  }

  /** An entry of the served directory itself: not "." or "..", and no path to anywhere else. */
  predicate PlainEntry(name: Name) {
    name != [] && name != [DOT] && name != [DOT, DOT] && SLASH !in name
  }

  /** The filename rules keep requests inside the served directory, with the one exception of ".",
      which they accept and which is the directory itself. Partials are always inside. */
  lemma AcceptedStaysInDirectory(name: Name, token: bytes)
    requires CheckFilename(name) && |token| == TOKEN_SIZE
    ensures PlainEntry(name) <==> name != [DOT]
    ensures PlainEntry(PartialOf(name, token))
  {
    hide Hex;
    assert HasDotDot([DOT, DOT]) by {
      var dots := [DOT, DOT];
      assert dots[0] == DOT && dots[0 + 1] == DOT;
    }
  }

  lemma DotIsAccepted()
    ensures CheckFilename([DOT]) && !PlainEntry([DOT])
  {
    assert !HasDotDot([DOT]);
  }

  /** What a PUT can create: "." passes the filename rules, but it always exists. */
  predicate Storable(name: Name) {
    CheckFilename(name) && name != [DOT]
  }

  /** The filename rules accept the partials of most names as names of their own: of those that are
      short enough and neither begin nor end with a dot, whatever the token. */
  lemma PartialAcceptedIff(name: Name, token: bytes)
    requires CheckFilename(name) && |token| == TOKEN_SIZE
    ensures Storable(PartialOf(name, token)) <==>
      |name| + 23 <= MAX_NAME && name[0] != DOT && name[|name| - 1] != DOT
  {
    hide PartialOf, HasDotDot;
    PartialDots(name, token);
    PartialCharacters(name, token);
  }

  /** Where a partial's name has two dots in a row. */
  lemma PartialDots(name: Name, token: bytes)
    requires CheckFilename(name) && |token| == TOKEN_SIZE
    ensures HasDotDot(PartialOf(name, token)) <==> name[0] == DOT || name[|name| - 1] == DOT
  {
    hide Hex;
    var p, k := PartialOf(name, token), |name|;
    PartialLayout(name, token);
    DotsOutsideToken(name, token);
    assert p[0] == DOT && p[0 + 1] == name[0] && p[k] == name[k - 1] && p[k + 1] == DOT;
    forall i | 0 < i < |p| - 1 && i != k
      ensures p[i] != DOT || p[i + 1] != DOT
    {
      if i < k {
        assert p[i] == name[i - 1] && p[i + 1] == name[i - 1 + 1];
      } else if i >= k + 18 {
        assert p[i + 1] == PART[i + 1 - k - 18];
      }
    }
  }

  lemma PartialCharacters(name: Name, token: bytes)
    requires CheckFilename(name) && |token| == TOKEN_SIZE
    ensures var p := PartialOf(name, token);
      SLASH !in p && BACKSLASH !in p && forall i :: 0 <= i < |p| ==> 32 <= p[i] < 127
  {
    hide Hex, HasDotDot;
    var p := PartialOf(name, token);
    forall i | 0 <= i < |p|
      ensures 32 <= p[i] < 127 && p[i] != SLASH && p[i] != BACKSLASH
    {
      assert p[i] in name || p[i] in Hex(token) || p[i] in PART || p[i] == DOT;
    }
  }

  // ----- what the startup sweep looks at

  /** The glob ".*.part" of `sweep_partials`. */
  predicate SweepMatches(p: Name) {
    |p| >= 6 && p[0] == DOT && p[|p| - 5..] == PART
  }

  /** A dot, anything at all, and ".part". */
  lemma SweepExactly(p: Name)
    ensures SweepMatches(p) <==> exists rest: Name :: p == [DOT] + rest + PART
  {
    if SweepMatches(p) {
      assert p == [DOT] + p[1..|p| - 5] + PART;
    }
  }

  lemma PartialsAreSwept(name: Name, token: bytes)
    requires |token| == TOKEN_SIZE
    ensures SweepMatches(PartialOf(name, token))
  {
    PartialLayout(name, token);
  }

  // ----- finding a partial again: the scan of the C client

  /** What `rtrv_find_partial` tests of a directory entry: length, prefix, suffix. */
  predicate ScanAccepts(base: Name, entry: Name) {
    var prefix := [DOT] + base + [DOT];
    && |entry| == |prefix| + 16 + 5
    && entry[..|prefix|] == prefix
    && entry[|entry| - 5..] == PART
  }

  /** The base between two dots, sixteen characters, and ".part". */
  lemma ScanExactly(base: Name, entry: Name)
    ensures ScanAccepts(base, entry) <==>
      exists text: Name :: |text| == 16 && entry == [DOT] + base + [DOT] + text + PART
  {
    var prefix := [DOT] + base + [DOT];
    if ScanAccepts(base, entry) {
      assert entry == prefix + entry[|prefix|..|entry| - 5] + PART;
    }
    forall text: Name | |text| == 16 && entry == prefix + text + PART
      ensures ScanAccepts(base, entry)
    {
    }
  }

  /** Among names the protocol made, the scan accepts exactly those of the same base name. */
  lemma ScanAcceptsOwnPartials(base: Name, other: Name, token: bytes)
    requires |token| == TOKEN_SIZE
    ensures ScanAccepts(base, PartialOf(other, token)) <==> base == other
  {
    PartialLayout(other, token);
    var p := PartialOf(other, token);
    var prefix := [DOT] + base + [DOT];
    if ScanAccepts(base, p) {
      assert p[..|prefix|][1..|base| + 1] == base;
      assert p[..|prefix|][1..|base| + 1] == p[1..|base| + 1];
    }
    if base == other {
      assert p[..|prefix|] == prefix;
    }
  }

  function TokenText(base: Name, entry: Name): (t: Name)
    requires ScanAccepts(base, entry)
    ensures |t| == 16
  {
    entry[|entry| - 21..|entry| - 5]
  }

  /** The accepted entries of a listing, in listing order. */
  function Accepted(base: Name, entries: seq<Name>): seq<Name> {
    if entries == [] then []
    else
      var last := entries[|entries| - 1];
      Accepted(base, entries[..|entries| - 1]) + (if ScanAccepts(base, last) then [last] else [])
  }

  datatype Found = NotFound | Sole(entry: Name, token: bytes)

  /** What the scan must answer: the entry and its token when exactly one entry is accepted. */
  function SolePartial(base: Name, entries: seq<Name>): (r: Found)
    ensures r.Sole? ==> |r.token| == TOKEN_SIZE
  {
    var hits := Accepted(base, entries);
    if |hits| != 1 || !ScanAccepts(base, hits[0]) then NotFound
    else
      match Unhex(TokenText(base, hits[0]))
      case None => NotFound
      case Some(token) => Sole(hits[0], token)
  }

  lemma {:induction false} AcceptedAreAccepted(base: Name, entries: seq<Name>)
    ensures forall e :: e in Accepted(base, entries) <==> e in entries && ScanAccepts(base, e)
  {
    if entries != [] {
      AcceptedAreAccepted(base, entries[..|entries| - 1]);
      assert entries == entries[..|entries| - 1] + [entries[|entries| - 1]];
    }
  }

  /** `rtrv_find_partial`'s loop: count the hits, remember the last. */
  method FindPartial(base: Name, entries: seq<Name>) returns (r: Found)
    ensures r == SolePartial(base, entries)
  {
    var found := 0;
    var hit: Name := [];
    for i := 0 to |entries|
      invariant found == |Accepted(base, entries[..i])|
      invariant found > 0 ==> hit == Accepted(base, entries[..i])[found - 1] && ScanAccepts(base, hit)
    {
      assert entries[..i + 1][..i] == entries[..i];
      var prefix := [DOT] + base + [DOT];
      if |entries[i]| != |prefix| + TOKEN_SIZE * 2 + 5 {
        continue;
      }
      if entries[i][..|prefix|] != prefix {
        continue;
      }
      if entries[i][|entries[i]| - 5..] != PART {
        continue;
      }
      found := found + 1;
      hit := entries[i];
    }
    assert entries[..|entries|] == entries;
    if found != 1 {
      return NotFound;
    }
    var token := Unhex(hit[|hit| - 5 - TOKEN_SIZE * 2..|hit| - 5]);
    if token.None? {
      return NotFound;
    }
    return Sole(hit, token.value);
  }

  /** The round trip: a listing whose only accepted entry is a partial made for `base` gives back
      that partial and the very token it was made with. */
  lemma FindsWhatWasMade(base: Name, token: bytes, entries: seq<Name>)
    requires |token| == TOKEN_SIZE
    requires Accepted(base, entries) == [PartialOf(base, token)]
    ensures SolePartial(base, entries) == Sole(PartialOf(base, token), token)
  {
    ScanAcceptsOwnPartials(base, base, token);
    PartialLayout(base, token);
    UnhexHex(token);
    var p := PartialOf(base, token);
    assert TokenText(base, p) == p[|base| + 2..|base| + 18];
  }

  // ----- finding a partial again: the glob of the Python client

  /** `find_partial`'s glob, ".<base>.*.part": any text between the two fixed ends. */
  predicate GlobAccepts(base: Name, entry: Name) {
    var prefix := [DOT] + base + [DOT];
    && |entry| >= |prefix| + 5
    && entry[..|prefix|] == prefix
    && entry[|entry| - 5..] == PART
  }

  lemma GlobExactly(base: Name, entry: Name)
    ensures GlobAccepts(base, entry) <==> exists text: Name :: entry == [DOT] + base + [DOT] + text + PART
  {
    var prefix := [DOT] + base + [DOT];
    if GlobAccepts(base, entry) {
      assert entry == prefix + entry[|prefix|..|entry| - 5] + PART;
    }
    forall text: Name | entry == prefix + text + PART
      ensures GlobAccepts(base, entry)
    {
    }
  }

  /** The glob also takes partials of longer names: exactly those extending the base by a dot. */
  lemma GlobAcceptsExactly(base: Name, other: Name, token: bytes)
    requires |token| == TOKEN_SIZE
    ensures GlobAccepts(base, PartialOf(other, token)) <==> base == other || base + [DOT] <= other
  {
    PartialLayout(other, token);
    var p := PartialOf(other, token);
    var prefix := [DOT] + base + [DOT];
    if GlobAccepts(base, p) {
      GlobPrefix(base, other, token);
    }
    if base == other {
      assert p[..|prefix|] == prefix;
    } else if base + [DOT] <= other {
      assert other[..|base| + 1] == base + [DOT];
      assert p[..|prefix|] == prefix;
    }
  }

  lemma GlobPrefix(base: Name, other: Name, token: bytes)
    requires |token| == TOKEN_SIZE
    requires GlobAccepts(base, PartialOf(other, token))
    ensures base == other || base + [DOT] <= other
  {
    var p := PartialOf(other, token);
    PartialLayout(other, token);
    assert base == p[1..|base| + 1] && p[|base| + 1] == DOT;
    DotsOutsideToken(other, token);
    if |base| < |other| {
      assert other[..|base|] == base && other[|base|] == DOT;
    }
  }

  /** No dot falls inside the token's hex digits. */
  lemma DotsOutsideToken(name: Name, token: bytes)
    requires |token| == TOKEN_SIZE
    ensures forall k :: |name| + 2 <= k < |name| + 18 ==> PartialOf(name, token)[k] != DOT
  {
    PartialLayout(name, token);
    var p := PartialOf(name, token);
    var h := p[|name| + 2..|name| + 18];
    forall k | |name| + 2 <= k < |name| + 18
      ensures p[k] != DOT
    {
      assert h[k - (|name| + 2)] in h;
    }
  }

  // ----- whole paths on the client's side

  const DIR_MAX: nat := 512
  const PATH_MAX: nat := 1024

  /** The position just after the last slash, or 0. */
  function BaseStart(path: Name): (k: nat)
    ensures k <= |path|
    ensures k > 0 ==> path[k - 1] == SLASH
  {
    if path == [] then 0
    else if path[|path| - 1] == SLASH then |path|
    else BaseStart(path[..|path| - 1])
  }

  lemma {:induction false} NoneAfterLast(path: Name)
    ensures SLASH !in path[BaseStart(path)..]
  {
    if path != [] && path[|path| - 1] != SLASH {
      var k := BaseStart(path[..|path| - 1]);
      NoneAfterLast(path[..|path| - 1]);
      assert path[k..] == path[..|path| - 1][k..] + [path[|path| - 1]];
    }
  }

  predicate Slashed(path: Name) {
    SLASH in path
  }

  datatype Split = TooLong | Parts(dir: Name, base: Name)

  /** `rtrv_split_path` with the buffers its callers pass: refused rather than truncated. */
  function SplitPath(path: Name): (r: Split)
    ensures r.Parts? ==> |r.base| <= MAX_NAME && 0 < |r.dir| < DIR_MAX
  {
    var k := BaseStart(path);
    if |path| - k >= MAX_NAME + 1 then TooLong
    else if k == 0 then Parts([DOT], path)
    else if k == 1 then Parts([SLASH], path[1..])
    else if k - 1 >= DIR_MAX then TooLong
    else Parts(path[..k - 1], path[k..])
  }

  /** The path is the directory, a slash and the last component; in the root the two slashes are one. */
  predicate Rejoins(path: Name, dir: Name, base: Name) {
    path == dir + [SLASH] + base || (dir == [SLASH] && path == dir + base)
  }

  /** Splitting loses nothing: the parts make up the path again, and a path is refused exactly when
      one of them would not fit its buffer. */
  lemma SplitRejoins(path: Name)
    ensures var k := BaseStart(path);
      match SplitPath(path)
      case TooLong => |path| - k > MAX_NAME || k - 1 >= DIR_MAX
      case Parts(dir, base) => if !Slashed(path) then dir == [DOT] && path == base else Rejoins(path, dir, base)
  {
    hide BaseStart, Rejoins, Slashed, SplitPath;
    HasSlash(path);
    SplitCases(path);
    if BaseStart(path) > 0 {
      SplitAt(path, BaseStart(path));
    }
  }

  /** The parts, case by case. */
  lemma SplitCases(path: Name)
    ensures var k := BaseStart(path);
      SplitPath(path) ==
        if |path| - k > MAX_NAME || k - 1 >= DIR_MAX then TooLong
        else Parts(if k == 0 then [DOT] else if k == 1 then [SLASH] else path[..k - 1],
                   if k == 0 then path else path[k..])
  {
    hide BaseStart;
  }

  lemma HasSlash(path: Name)
    ensures Slashed(path) <==> BaseStart(path) > 0
    ensures BaseStart(path) > 0 ==> path[BaseStart(path) - 1] == SLASH
  {
    hide BaseStart;
    NoneAfterLast(path);
    var k := BaseStart(path);
    if k == 0 {
      assert path[k..] == path;
    } else {
      assert path[k - 1] in path;
    }
  }

  lemma SplitAt(path: Name, k: nat)
    requires 0 < k <= |path| && path[k - 1] == SLASH
    ensures Rejoins(path, path[..k - 1], path[k..])
    ensures k == 1 ==> Rejoins(path, [SLASH], path[1..])
  {
    assert path == path[..k - 1] + [SLASH] + path[k..];
    assert k == 1 ==> path == [SLASH] + path[1..];
  }

  /** `rtrv_partial_name`: where a download's partial is written. */
  function PartialPath(dest: Name, digest: bytes): (r: Option<Name>)
    requires |digest| >= TOKEN_SIZE
  {
    match SplitPath(dest)
    case TooLong => None
    case Parts(dir, base) =>
      var entry := PartialName(base, digest);
      var path := if !Slashed(dest) then entry else dir + [SLASH] + entry;
      if |path| >= PATH_MAX then None else Some(path)
  }

  /** `rtrv_find_partial`: the path of the entry it found, cut to its buffer by `snprintf`. */
  function FoundPath(dest: Name, entry: Name): Name
    requires SplitPath(dest).Parts?
  {
    var dir := SplitPath(dest).dir;
    var path := if dir == [DOT] && !Slashed(dest) then entry else dir + [SLASH] + entry;
    if |path| >= PATH_MAX then path[..PATH_MAX - 1] else path
  }

  /** The two agree: a partial is found under the path it was written to, nothing is truncated, and
      a destination that can be split never fails for its length later. */
  lemma FoundWhereWritten(dest: Name, digest: bytes)
    requires |digest| >= TOKEN_SIZE && SplitPath(dest).Parts?
    ensures var base := SplitPath(dest).base;
      PartialPath(dest, digest) == Some(FoundPath(dest, PartialName(base, digest)))
  {
    SplitRejoins(dest);
  }

  /** A slash and then no more of them: that is where the last component starts. */
  lemma {:induction false} StartsAfterSlash(front: Name, last: Name)
    requires SLASH !in last
    ensures BaseStart(front + [SLASH] + last) == |front| + 1 && BaseStart(last) == 0
    decreases |last|
  {
    var path := front + [SLASH] + last;
    if last != [] {
      var shorter := last[..|last| - 1];
      StartsAfterSlash(front, shorter);
      assert path[..|path| - 1] == front + [SLASH] + shorter;
      assert last[|last| - 1] in last;
    }
  }

  /** The partial is written next to the destination: its last component is the partial's name, and what
      is before that is the destination's own directory. */
  lemma PartialBesideTarget(dest: Name, digest: bytes)
    requires |digest| >= TOKEN_SIZE && PartialPath(dest, digest).Some?
    ensures var path, parts := PartialPath(dest, digest).value, SplitPath(dest);
      var k := BaseStart(path);
      && parts.Parts? && path[k..] == PartialName(parts.base, digest)
      && (Slashed(dest) ==> k > 0 && path[..k - 1] == parts.dir)
      && (!Slashed(dest) ==> k == 0)
  {
    hide BaseStart;
    var parts := SplitPath(dest);
    var entry := PartialName(parts.base, digest);
    NoneAfterLast(dest);
    assert dest[0..] == dest;
    NoSlashInPartial(parts.base, Token(digest));
    StartsAfterSlash(parts.dir, entry);
  }

  lemma NoSlashInPartial(name: Name, token: bytes)
    requires |token| == TOKEN_SIZE && SLASH !in name
    ensures SLASH !in PartialOf(name, token)
  {
    hide Hex;
  }

  // ----- the same in the C code's fixed buffers

  /** The buffer holds the string and its terminator, within its bounds. */
  predicate Holds(buf: seq<byte>, s: Name) {
    |s| < |buf| && buf[..|s|] == s && buf[|s|] == 0
  }

  /** `memcpy` and the terminator. */
  method CopyString(buf: array<byte>, s: Name)
    requires |s| < buf.Length
    modifies buf
    ensures Holds(buf[..], s)
  {
    forall i | 0 <= i < |s| {
      buf[i] := s[i];
    }
    buf[|s|] := 0;
    assert buf[..|s|] == s;
  }

  /** `strrchr`, and one past it. */
  method LastSlash(path: Name) returns (k: nat)
    ensures k == BaseStart(path)
  {
    k := |path|;
    assert path[..k] == path;
    while k > 0 && path[k - 1] != SLASH
      invariant k <= |path| && BaseStart(path[..k]) == BaseStart(path)
    {
      assert path[..k][..k - 1] == path[..k - 1];
      k := k - 1;
    }
  }

  /** `rtrv_split_path`: refuses what does not fit, and otherwise fills both buffers. */
  method SplitInto(path: Name, dir: array<byte>, base: array<byte>) returns (ok: bool)
    requires dir.Length == DIR_MAX && base.Length == MAX_NAME + 1 && dir != base
    modifies dir, base
    ensures ok <==> SplitPath(path).Parts?
    ensures ok ==> Holds(dir[..], SplitPath(path).dir) && Holds(base[..], SplitPath(path).base)
  {
    hide BaseStart;
    var k := LastSlash(path);
    if |path| - k >= base.Length {
      return false;
    }
    CopyString(base, path[k..]);
    if k == 0 {
      CopyString(dir, [DOT]);
      assert path[0..] == path;
      return true;
    }
    var dirLen := if k - 1 == 0 then 1 else k - 1;
    if dirLen >= dir.Length {
      return false;
    }
    CopyString(dir, path[..dirLen]);
    assert k == 1 ==> path[..1] == [SLASH];
    return true;
  }

  /** The prefix the scan compares with, its terminator included, fits the buffer made for it, and so
      does every entry the scan remembers. */
  lemma ScanBuffersFit(dest: Name, entry: Name)
    requires SplitPath(dest).Parts?
    ensures var base := SplitPath(dest).base;
      && |[DOT] + base + [DOT]| + 1 <= MAX_NAME + 8
      && (ScanAccepts(base, entry) ==> |entry| + 1 <= PATH_MAX)
  {
  }
}
