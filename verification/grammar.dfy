/** The three regular expressions of parse.go:13-18, each hand-coded for
    inputs without whitespace (where RE2's `\S` and `.` match any character).
    A capture function returns the groups RE2 reports: RE2 picks, among all
    ways the pattern can match, the one a backtracking matcher meets first
    (leftmost-first), and each capture function is proved to pick exactly
    that one among all decompositions of the input. */
module Grammar {
  import opened Wrappers
  import opened Strings
  import Uri

  /** RE2's `\s`: tab, newline, form feed, carriage return and space. */
  predicate IsSpace(c: char) {
    c == ' ' || c == '\t' || c == '\n' || c == '\r' || c as int == 12
  }

  predicate NoSpace(s: string) {
    forall i :: 0 <= i < |s| ==> !IsSpace(s[i])
  }

  lemma NoSpaceJoin(a: string, b: string)
    requires NoSpace(a) && NoSpace(b)
    ensures NoSpace(a + b)
  {
    forall i | |a| <= i < |a + b|
      ensures !IsSpace((a + b)[i])
    {
      assert (a + b)[i] == b[i - |a|];
    }
  }

  /** The last position `i` with `lo <= i < hi` and `s[i] == c`. */
  function LastCharBetween(s: string, c: char, lo: nat, hi: int): (r: Option<nat>)
    requires hi <= |s|
    ensures r.Some? ==> lo <= r.value < hi && s[r.value] == c
    ensures r.Some? ==> forall j :: r.value < j < hi ==> s[j] != c
    ensures r.None? ==> forall j :: lo <= j < hi ==> s[j] != c
    decreases hi
  {
    if hi <= lo then None
    else if s[hi - 1] == c then Some(hi - 1)
    else LastCharBetween(s, c, lo, hi - 1)
  }

  // ---------------------------------------------------------------------
  // transportRegex  ^(ssh|git|http(s|)|ftp(s|))://
  // ---------------------------------------------------------------------

  predicate TransportMatches(s: string) {
    || "ssh://" <= s || "git://" <= s
    || "http://" <= s || "https://" <= s
    || "ftp://" <= s || "ftps://" <= s
  }

  // ---------------------------------------------------------------------
  // gitURIRegex  (?P<user>\S+)@(?P<host>[\S\.]+):(?P<path>\S+)
  // ---------------------------------------------------------------------

  datatype ScpCapture = ScpCapture(user: string, host: string, path: string)

  /** `c` spells all of `s` as user@host:path with every group non-empty. */
  predicate IsScpDecomposition(s: string, c: ScpCapture) {
    c.user != [] && c.host != [] && c.path != [] && s == c.user + "@" + c.host + ":" + c.path
  }

  /** MatchString: some '@' and, at least one character later, some ':'
      that is not the last character.  Without whitespace an unanchored match
      can always be widened to start at 0, so this is the whole condition. */
  predicate ScpMatches(s: string) {
    exists a, b :: 1 <= a && a + 2 <= b < |s| - 1 && s[a] == '@' && s[b] == ':'
  }

  lemma ScpDecompositionPositions(s: string, c: ScpCapture)
    requires IsScpDecomposition(s, c)
    ensures |c.user| + 1 + |c.host| < |s| - 1
    ensures s[|c.user|] == '@' && s[|c.user| + 1 + |c.host|] == ':'
  {
    var b := |c.user| + 1 + |c.host|;
    var head := c.user + "@" + c.host;
    assert s == head + (":" + c.path);
    assert |head| == b;
    assert s[b] == (":" + c.path)[0];
    assert s[|c.user|] == head[|c.user|];
  }

  lemma ScpSpells(s: string, a: nat, b: nat)
    requires 1 <= a && a + 2 <= b < |s| - 1 && s[a] == '@' && s[b] == ':'
    ensures IsScpDecomposition(s, ScpCapture(s[..a], s[a + 1..b], s[b + 1..]))
  {
    assert s[a..] == "@" + s[a + 1..];
    assert s[a + 1..] == s[a + 1..b] + s[b..];
    assert s[b..] == ":" + s[b + 1..];
    assert s == s[..a] + s[a..];
  }

  /** FindStringSubmatch: the leftmost match starts at 0 and the greedy
      `path` runs to the end, so RE2 takes the longest user and then the
      longest host that still leave a match. */
  function ScpCaptureOf(s: string): (c: ScpCapture)
    requires ScpMatches(s)
    ensures IsScpDecomposition(s, c)
    ensures forall d :: IsScpDecomposition(s, d) ==>
              |d.user| < |c.user| || (|d.user| == |c.user| && |d.host| <= |c.host|)
  {
    var (a, b) := ScpCuts(s);
    ScpSpells(s, a, b);
    var c := ScpCapture(s[..a], s[a + 1..b], s[b + 1..]);
    forall d | IsScpDecomposition(s, d)
      ensures |d.user| < |c.user| || (|d.user| == |c.user| && |d.host| <= |c.host|)
    {
      ScpGreedy(s, a, b, d);
    }
    c
  }

  /** The last ':' that leaves a path, and the last '@' before it that
      leaves a host. */
  function ScpCuts(s: string): (r: (nat, nat))
    requires ScpMatches(s)
    ensures 1 <= r.0 && r.0 + 2 <= r.1 < |s| - 1 && s[r.0] == '@' && s[r.1] == ':'
    ensures forall j :: r.1 < j < |s| - 1 ==> s[j] != ':'
    ensures forall j :: r.0 < j < r.1 - 1 ==> s[j] != '@'
  {
    var a0, b0 :| 1 <= a0 && a0 + 2 <= b0 < |s| - 1 && s[a0] == '@' && s[b0] == ':';
    var b := LastCharBetween(s, ':', 0, |s| - 1).value;
    var a := LastCharBetween(s, '@', 1, b - 1).value;
    (a, b)
  }

  /** Every decomposition ends its user at or before the last '@' that
      leaves a host, and its host at or before the last ':' that leaves a
      path. */
  lemma ScpGreedy(s: string, a: nat, b: nat, d: ScpCapture)
    requires IsScpDecomposition(s, d)
    requires 1 <= a && a + 2 <= b < |s| - 1 && s[a] == '@' && s[b] == ':'
    requires forall j :: b < j < |s| - 1 ==> s[j] != ':'
    requires forall j :: a < j < b - 1 ==> s[j] != '@'
    ensures |d.user| < a || (|d.user| == a && |d.host| <= b - a - 1)
  {
    ScpDecompositionPositions(s, d);
  }

  // ---------------------------------------------------------------------
  // tildeUserRegex
  // ^((?P<scheme>ssh|git)://|)((?P<user>\S+)@|)(?P<host>\S+)(:(?P<port>\d+)|)[/:]~(?P<pathuser>[^/]+)/(?P<path>.*)
  // ---------------------------------------------------------------------

  /** The six named groups, plus the `[/:]` character between host and '~'.
      An empty `scheme`, `user` or `port` means its optional group took the
      empty alternative. */
  datatype TildeCapture = TildeCapture(
    scheme: string, user: string, host: string, port: string,
    sep: char, pathUser: string, path: string)

  function SchemePart(c: TildeCapture): string {
    if c.scheme == "" then "" else c.scheme + "://"
  }

  function UserPart(c: TildeCapture): string {
    if c.user == "" then "" else c.user + "@"
  }

  function PortPart(c: TildeCapture): string {
    if c.port == "" then "" else ":" + c.port
  }

  /** The text before the `[/:]` character. */
  function Head(c: TildeCapture): string {
    SchemePart(c) + UserPart(c) + c.host + PortPart(c)
  }

  /** The text from the `[/:]` character on. */
  function Tail(c: TildeCapture): string {
    [c.sep] + "~" + c.pathUser + "/" + c.path
  }

  /** The text the groups spell, in pattern order. */
  function Spell(c: TildeCapture): string {
    Head(c) + Tail(c)
  }

  predicate IsTildeDecomposition(s: string, c: TildeCapture) {
    && (c.scheme == "" || c.scheme == "ssh" || c.scheme == "git")
    && c.host != ""
    && Uri.AllDigits(c.port)
    && (c.sep == '/' || c.sep == ':')
    && c.pathUser != "" && '/' !in c.pathUser
    && s == Spell(c)
  }

  /** Position of the `[/:]` character. */
  function SepPos(c: TildeCapture): nat {
    |Head(c)|
  }

  /** `k` can end a host: "/~" or ":~", then a non-empty run without '/'
      that is closed by a '/'. */
  predicate ValidSep(s: string, k: int) {
    && 0 <= k && k + 2 < |s|
    && (s[k] == '/' || s[k] == ':') && s[k + 1] == '~'
    && s[k + 2] != '/' && '/' in s[k + 3..]
  }

  /** MatchString: the host may swallow any optional prefix, so a match
      needs only a separator with at least one character before it. */
  predicate TildeMatches(s: string) {
    exists k :: 1 <= k < |s| && ValidSep(s, k)
  }

  function Flag(b: bool): int {
    if b then 1 else 0
  }

  /** RE2 would choose `c` over `d`, or they make the same choices: compare
      the choice points in the order a backtracking matcher meets them
      (scheme alternative, user alternative, user length, host length, port
      alternative, port length, pathuser length; `path` takes the rest). */
  predicate PreferredOrEqual(c: TildeCapture, d: TildeCapture) {
    if Flag(c.scheme != "") != Flag(d.scheme != "") then c.scheme != ""
    else if Flag(c.user != "") != Flag(d.user != "") then c.user != ""
    else if |c.user| != |d.user| then |c.user| > |d.user|
    else if |c.host| != |d.host| then |c.host| > |d.host|
    else if Flag(c.port != "") != Flag(d.port != "") then c.port != ""
    else if |c.port| != |d.port| then |c.port| > |d.port|
    else |c.pathUser| >= |d.pathUser|
  }

  lemma HeadPositions(c: TildeCapture)
    ensures var h, st := Head(c), |SchemePart(c)| + |UserPart(c)|;
      && |h| == st + |c.host| + |PortPart(c)|
      && h[..|SchemePart(c)|] == SchemePart(c)
      && (c.user != "" ==> h[|SchemePart(c)| + |c.user|] == '@')
      && h[st..st + |c.host|] == c.host
      && (c.port != "" ==> h[st + |c.host|] == ':')
  {
    var sp, up, pp := SchemePart(c), UserPart(c), PortPart(c);
    var st := |sp| + |up|;
    var h := Head(c);
    assert h == (sp + up) + (c.host + pp);
    assert h[..|sp|] == sp;
    if c.user != "" {
      assert h[|sp| + |c.user|] == up[|c.user|];
    }
    assert h[st..st + |c.host|] == c.host;
    if c.port != "" {
      assert h[st + |c.host|] == pp[0];
    }
  }

  lemma TailPositions(c: TildeCapture)
    ensures var t := Tail(c);
      && |t| == 3 + |c.pathUser| + |c.path|
      && t[0] == c.sep && t[1] == '~'
      && t[2..2 + |c.pathUser|] == c.pathUser
      && t[2 + |c.pathUser|] == '/'
      && t[3 + |c.pathUser|..] == c.path
  {
    var t := Tail(c);
    assert t == ([c.sep] + "~") + (c.pathUser + ("/" + c.path));
  }

  /** Where the groups before the separator sit in the input. */
  lemma TildeHeadPositions(s: string, c: TildeCapture)
    requires s == Spell(c)
    ensures var st := |SchemePart(c)| + |UserPart(c)|;
      && SepPos(c) == st + |c.host| + |PortPart(c)|
      && s[..|SchemePart(c)|] == SchemePart(c)
      && (c.user != "" ==> s[|SchemePart(c)| + |c.user|] == '@')
      && s[st..st + |c.host|] == c.host
      && (c.port != "" ==> s[st + |c.host|] == ':')
  {
    HeadPositions(c);
    var h := Head(c);
    assert s[..|h|] == h;
    var st := |SchemePart(c)| + |UserPart(c)|;
    assert s[..|SchemePart(c)|] == h[..|SchemePart(c)|];
    assert s[st..st + |c.host|] == h[st..st + |c.host|];
  }

  /** Where the groups from the separator on sit in the input. */
  lemma TildeTailPositions(s: string, c: TildeCapture)
    requires s == Spell(c)
    ensures var k := SepPos(c);
      && k + 3 + |c.pathUser| <= |s|
      && s[k] == c.sep && s[k + 1] == '~'
      && s[k + 2..k + 2 + |c.pathUser|] == c.pathUser
      && s[k + 2 + |c.pathUser|] == '/'
      && s[k + 3 + |c.pathUser|..] == c.path
  {
    TailPositions(c);
    var t, k := Tail(c), SepPos(c);
    assert s[k..] == t;
    assert s[k + 2..k + 2 + |c.pathUser|] == t[2..2 + |c.pathUser|];
    assert s[k + 3 + |c.pathUser|..] == t[3 + |c.pathUser|..];
  }

  /** The separator of a decomposition is a valid one. */
  lemma TildeSepValid(s: string, c: TildeCapture)
    requires IsTildeDecomposition(s, c)
    ensures 1 <= SepPos(c) && ValidSep(s, SepPos(c))
  {
    TildeHeadPositions(s, c);
    TildeTailPositions(s, c);
    var k := SepPos(c);
    assert s[k + 2] == c.pathUser[0];
    assert s[k + 3..][|c.pathUser| - 1] == '/';
  }

  /** The largest separator position in `1..k`. */
  function LastSepUpTo(s: string, k: nat): (r: Option<nat>)
    ensures r.Some? ==> 1 <= r.value <= k && ValidSep(s, r.value)
    ensures r.Some? ==> forall j :: r.value < j <= k ==> !ValidSep(s, j)
    ensures r.None? ==> forall j :: 1 <= j <= k ==> !ValidSep(s, j)
  {
    if k == 0 then None
    else if ValidSep(s, k) then Some(k)
    else LastSepUpTo(s, k - 1)
  }

  /** The end of the non-empty run after "~" that starts at `k + 2`. */
  function PathUserEnd(s: string, k: nat): (f: nat)
    requires ValidSep(s, k)
    ensures k + 3 <= f < |s| && s[f] == '/'
    ensures '/' !in s[k + 2..f]
  {
    k + 2 + IndexOf(s[k + 2..], '/').value
  }

  /** `m` is the last separator with a character before it. */
  ghost predicate IsLastSep(s: string, m: nat) {
    1 <= m && ValidSep(s, m) && forall j :: m < j ==> !ValidSep(s, j)
  }

  lemma LastSepFound(s: string)
    requires TildeMatches(s)
    ensures LastSepUpTo(s, |s|).Some? && IsLastSep(s, LastSepUpTo(s, |s|).value)
  {
    var k0 :| 1 <= k0 < |s| && ValidSep(s, k0);
  }

  /** Whether the scheme group takes "ssh" or "git": only when a host can
      still follow the "://". */
  predicate SchemeTaken(s: string, m: nat) {
    ("ssh://" <= s || "git://" <= s) && 7 <= m
  }

  function SchemeEnd(s: string, m: nat): nat {
    if SchemeTaken(s, m) then 6 else 0
  }

  /** The '@' closing the user group: the last one that leaves a host. */
  function UserAt(s: string, m: nat): Option<nat>
    requires m <= |s|
  {
    LastCharBetween(s, '@', SchemeEnd(s, m) + 1, m - 1)
  }

  function HostStart(s: string, m: nat): nat
    requires m <= |s|
  {
    if UserAt(s, m).Some? then UserAt(s, m).value + 1 else SchemeEnd(s, m)
  }

  /** The groups RE2 reports once the host is known to end at `m`. */
  function CaptureAt(s: string, m: nat): TildeCapture
    requires 1 <= m && ValidSep(s, m)
  {
    var st0 := SchemeEnd(s, m);
    var at := UserAt(s, m);
    var f := PathUserEnd(s, m);
    TildeCapture(
      if SchemeTaken(s, m) then s[..3] else "",
      if at.Some? then s[st0..at.value] else "",
      s[HostStart(s, m)..m], "", s[m], s[m + 2..f], s[f + 1..])
  }

  lemma CaptureAtSpells(s: string, m: nat)
    requires IsLastSep(s, m)
    ensures IsTildeDecomposition(s, CaptureAt(s, m))
  {
    CaptureAtPrefix(s, m);
    TildeCaptureSpells(s, CaptureAt(s, m), SchemeEnd(s, m), HostStart(s, m), m, PathUserEnd(s, m));
  }

  /** The scheme and user groups of the capture at `m` spell the input up
      to the host. */
  lemma CaptureAtPrefix(s: string, m: nat)
    requires 1 <= m && ValidSep(s, m)
    ensures var c, st0, st := CaptureAt(s, m), SchemeEnd(s, m), HostStart(s, m);
      && st0 == |SchemePart(c)| <= st < m && s[..st0] == SchemePart(c)
      && st == st0 + |UserPart(c)| && s[st0..st] == UserPart(c)
  {
    CaptureAtScheme(s, m);
    CaptureAtUser(s, m);
  }

  lemma CaptureAtScheme(s: string, m: nat)
    requires 1 <= m && ValidSep(s, m)
    ensures SchemeEnd(s, m) == |SchemePart(CaptureAt(s, m))| < m
    ensures s[..SchemeEnd(s, m)] == SchemePart(CaptureAt(s, m))
  {
    if SchemeTaken(s, m) {
      assert CaptureAt(s, m).scheme == s[..3];
      assert s[..6] == s[..3] + "://";
    }
  }

  lemma CaptureAtUser(s: string, m: nat)
    requires 1 <= m && ValidSep(s, m)
    ensures var st0, st := SchemeEnd(s, m), HostStart(s, m);
      && st0 <= st < m && st == st0 + |UserPart(CaptureAt(s, m))|
      && s[st0..st] == UserPart(CaptureAt(s, m))
  {
    var st0, at := SchemeEnd(s, m), UserAt(s, m);
    var c := CaptureAt(s, m);
    assert c.user == if at.Some? then s[st0..at.value] else "";
    if at.Some? {
      var v := at.value;
      assert st0 + 1 <= v < m - 1 && s[v] == '@';
      assert HostStart(s, m) == v + 1;
      assert c.user == s[st0..v] && |c.user| == v - st0 > 0;
      assert UserPart(c) == s[st0..v] + "@";
      assert s[st0..v + 1] == s[st0..v] + [s[v]];
    } else {
      assert HostStart(s, m) == st0 && UserPart(c) == "";
    }
  }

  lemma SchemeChoice(s: string, m: nat, d: TildeCapture)
    requires IsLastSep(s, m) && IsTildeDecomposition(s, d) && d.scheme != ""
    ensures SchemeTaken(s, m) && |SchemePart(d)| == 6
  {
    TildeHeadPositions(s, d);
    TildeSepValid(s, d);
    assert s[..6] == d.scheme + "://";
  }

  lemma UserChoice(s: string, m: nat, d: TildeCapture)
    requires IsLastSep(s, m) && IsTildeDecomposition(s, d) && d.user != ""
    requires |SchemePart(d)| == SchemeEnd(s, m)
    ensures UserAt(s, m).Some? && SchemeEnd(s, m) + |d.user| <= UserAt(s, m).value
  {
    TildeHeadPositions(s, d);
    TildeSepValid(s, d);
    assert s[SchemeEnd(s, m) + |d.user|] == '@';
  }

  lemma HostChoice(s: string, m: nat, d: TildeCapture)
    requires IsLastSep(s, m) && IsTildeDecomposition(s, d)
    requires |SchemePart(d)| + |UserPart(d)| == HostStart(s, m)
    ensures |d.host| <= m - HostStart(s, m)
    ensures |d.host| == m - HostStart(s, m) ==> d.port == "" && SepPos(d) == m
  {
    TildeHeadPositions(s, d);
    TildeSepValid(s, d);
  }

  lemma PathUserChoice(s: string, m: nat, d: TildeCapture)
    requires IsLastSep(s, m) && IsTildeDecomposition(s, d) && SepPos(d) == m
    ensures d.pathUser == CaptureAt(s, m).pathUser
  {
    TailGroupsAt(s, d);
  }

  /** Two runs without '/' that start together and are each closed by a '/'
      end together. */
  lemma FirstSlashUnique(s: string, a: nat, e1: nat, e2: nat)
    requires a <= e1 < |s| && a <= e2 < |s|
    requires s[e1] == '/' && s[e2] == '/'
    requires '/' !in s[a..e1] && '/' !in s[a..e2]
    ensures e1 == e2
  {
  }

  /** No decomposition is preferred to the one at the last separator. */
  lemma CaptureAtGreedy(s: string, m: nat, d: TildeCapture)
    requires IsLastSep(s, m) && IsTildeDecomposition(s, d)
    ensures PreferredOrEqual(CaptureAt(s, m), d)
  {
    var c := CaptureAt(s, m);
    if d.scheme != "" {
      SchemeChoice(s, m, d);
    }
    if (c.scheme != "") == (d.scheme != "") {
      assert |SchemePart(d)| == SchemeEnd(s, m);
      if d.user != "" {
        UserChoice(s, m, d);
      }
      if (c.user != "") == (d.user != "") && |c.user| == |d.user| {
        HostChoice(s, m, d);
        if |c.host| == |d.host| {
          PathUserChoice(s, m, d);
        }
      }
    }
  }

  /** FindStringSubmatch for the tilde pattern.  The greedy host runs to the
      LAST separator; the user group takes the last '@' that leaves a host;
      the scheme group is taken when the input starts with "ssh://" or
      "git://" and a host fits after it. */
  function TildeCaptureOf(s: string): (c: TildeCapture)
    requires TildeMatches(s)
    ensures IsTildeDecomposition(s, c)
    ensures forall d :: IsTildeDecomposition(s, d) ==> PreferredOrEqual(c, d)
    ensures c.port == ""
  {
    LastSepFound(s);
    var m := LastSepUpTo(s, |s|).value;
    CaptureAtSpells(s, m);
    forall d | IsTildeDecomposition(s, d)
      ensures PreferredOrEqual(CaptureAt(s, m), d)
    {
      CaptureAtGreedy(s, m, d);
    }
    CaptureAt(s, m)
  }

  /** The port group never takes part in the reported match: moving a
      ":port" into the greedy host gives a decomposition RE2 prefers. */
  lemma PortGroupLoses(s: string, c: TildeCapture)
    requires IsTildeDecomposition(s, c) && c.port != ""
    ensures var d := c.(host := c.host + ":" + c.port, port := "");
      IsTildeDecomposition(s, d) && !PreferredOrEqual(c, d)
  {
    var d := c.(host := c.host + ":" + c.port, port := "");
    assert SchemePart(d) == SchemePart(c) && UserPart(d) == UserPart(c);
    assert PortPart(c) == ":" + c.port && PortPart(d) == "";
    assert Head(d) == SchemePart(c) + UserPart(c) + c.host + (":" + c.port);
    assert Head(d) == Head(c);
    assert |d.host| > |c.host|;
  }

  lemma TildeCaptureSpells(s: string, c: TildeCapture, st0: nat, st: nat, m: nat, f: nat)
    requires ValidSep(s, m) && st < m && m + 3 <= f < |s| && s[f] == '/'
    requires '/' !in s[m + 2..f]
    requires c.scheme == "" || c.scheme == "ssh" || c.scheme == "git"
    requires st0 == |SchemePart(c)| <= st && s[..st0] == SchemePart(c)
    requires st == st0 + |UserPart(c)| && s[st0..st] == UserPart(c)
    requires c.host == s[st..m] && c.port == "" && c.sep == s[m]
    requires c.pathUser == s[m + 2..f] && c.path == s[f + 1..]
    ensures IsTildeDecomposition(s, c)
  {
    HeadSpells(s, c, st0, st, m);
    TailSpells(s, c, m, f);
    assert s == s[..m] + s[m..];
    assert c.pathUser[0] == s[m + 2];
  }

  lemma HeadSpells(s: string, c: TildeCapture, st0: nat, st: nat, m: nat)
    requires st0 == |SchemePart(c)| <= st <= m <= |s| && s[..st0] == SchemePart(c)
    requires st == st0 + |UserPart(c)| && s[st0..st] == UserPart(c)
    requires c.host == s[st..m] && c.port == ""
    ensures Head(c) == s[..m]
  {
    assert PortPart(c) == "";
    assert Head(c) == SchemePart(c) + UserPart(c) + c.host;
    assert s[..m] == s[..st0] + s[st0..st] + s[st..m];
  }

  lemma TailSpells(s: string, c: TildeCapture, m: nat, f: nat)
    requires m + 3 <= f < |s| && s[f] == '/' && s[m + 1] == '~'
    requires c.sep == s[m] && c.pathUser == s[m + 2..f] && c.path == s[f + 1..]
    ensures Tail(c) == s[m..]
  {
    assert s[m..] == [s[m]] + [s[m + 1]] + s[m + 2..f] + [s[f]] + s[f + 1..];
  }

  // ---------------------------------------------------------------------
  // Reading back the groups of a spelled capture
  // ---------------------------------------------------------------------

  /** Where the three groups of a decomposition sit in the input. */
  lemma ScpPartsAt(s: string, c: ScpCapture)
    requires IsScpDecomposition(s, c)
    ensures var a, b := |c.user|, |c.user| + 1 + |c.host|;
      b < |s| && s[..a] == c.user && s[a + 1..b] == c.host && s[b + 1..] == c.path
  {
    var a, b := |c.user|, |c.user| + 1 + |c.host|;
    assert s == (c.user + "@") + c.host + (":" + c.path);
    assert s[..a] == (c.user + "@")[..a];
  }

  /** Two decompositions that cut the input at the same places are equal. */
  lemma ScpSameCuts(s: string, c: ScpCapture, d: ScpCapture)
    requires IsScpDecomposition(s, c) && IsScpDecomposition(s, d)
    requires |c.user| == |d.user| && |c.host| == |d.host|
    ensures c == d
  {
    ScpPartsAt(s, c);
    ScpPartsAt(s, d);
  }

  /** A decomposition whose host holds no '@' and whose path holds no ':'
      is the one RE2 reports. */
  lemma ScpCaptureIs(s: string, c: ScpCapture)
    requires IsScpDecomposition(s, c) && '@' !in c.host && ':' !in c.path
    ensures ScpMatches(s) && ScpCaptureOf(s) == c
  {
    ScpDecompositionPositions(s, c);
    ScpPartsAt(s, c);
    var a, b := |c.user|, |c.user| + 1 + |c.host|;
    assert 1 <= a && a + 2 <= b < |s| - 1 && s[a] == '@' && s[b] == ':';
    forall j | b < j < |s| - 1
      ensures s[j] != ':'
    {
      assert s[j] == s[b + 1..][j - b - 1];
    }
    forall j | a < j < b - 1
      ensures s[j] != '@'
    {
      assert s[j] == s[a + 1..b][j - a - 1];
    }
    var d := ScpCaptureOf(s);
    ScpGreedy(s, a, b, d);
    ScpSameCuts(s, c, d);
  }

  /** With no '~' after the pathuser's, the separator of a decomposition is
      the last one. */
  lemma SepIsLast(s: string, c: TildeCapture)
    requires IsTildeDecomposition(s, c) && '~' !in c.pathUser && '~' !in c.path
    ensures TildeMatches(s) && IsLastSep(s, SepPos(c))
  {
    TildeSepValid(s, c);
    TildeTailPositions(s, c);
    var m, e := SepPos(c), SepPos(c) + 2 + |c.pathUser|;
    forall j | m < j
      ensures !ValidSep(s, j)
    {
      if j + 1 < e {
        assert s[j + 1] == s[m + 2..e][j - 1 - m];
      } else if e < j + 1 < |s| {
        assert s[j + 1] == s[e + 1..][j - e];
      }
    }
  }

  lemma LastSepUnique(s: string, m: nat, m': nat)
    requires IsLastSep(s, m) && IsLastSep(s, m')
    ensures m == m'
  {
  }

  /** The scheme group of a decomposition is taken exactly when the input
      allows it. */
  lemma SchemeTakenSpell(s: string, c: TildeCapture)
    requires IsTildeDecomposition(s, c)
    requires c.scheme == "" ==> !("ssh://" <= s) && !("git://" <= s)
    ensures SchemeTaken(s, SepPos(c)) <==> c.scheme != ""
    ensures SchemeEnd(s, SepPos(c)) == |SchemePart(c)|
    ensures c.scheme != "" ==> s[..3] == c.scheme
    ensures 1 <= SepPos(c) && ValidSep(s, SepPos(c)) && CaptureAt(s, SepPos(c)).scheme == c.scheme
  {
    TildeSepValid(s, c);
    TildeHeadPositions(s, c);
    if c.scheme != "" {
      assert s[..6] == c.scheme + "://";
      assert s[..3] == s[..6][..3];
    }
  }

  /** The user group ends at the last '@' before the host. */
  lemma UserAtFrom(s: string, m: nat, st0: nat, ulen: nat, st: nat)
    requires m <= |s| && SchemeEnd(s, m) == st0
    requires st == (if ulen == 0 then st0 else st0 + ulen + 1) && st < m
    requires ulen != 0 ==> s[st0 + ulen] == '@'
    requires forall j :: st <= j < m ==> s[j] != '@'
    ensures UserAt(s, m) == if ulen == 0 then None else Some(st0 + ulen)
    ensures HostStart(s, m) == st
  {
  }

  /** A decomposition's host holds no '@' when its text has none. */
  lemma HostHasNoAt(s: string, c: TildeCapture)
    requires IsTildeDecomposition(s, c) && c.port == "" && '@' !in c.host
    ensures var st := |SchemePart(c)| + |UserPart(c)|;
      st < SepPos(c) && forall j :: st <= j < SepPos(c) ==> s[j] != '@'
  {
    TildeHeadPositions(s, c);
    var st := |SchemePart(c)| + |UserPart(c)|;
    forall j | st <= j < SepPos(c)
      ensures s[j] != '@'
    {
      assert s[j] == s[st..st + |c.host|][j - st];
    }
  }

  /** The user group of a decomposition sits between the scheme and the '@'. */
  lemma UserSpell(s: string, c: TildeCapture)
    requires s == Spell(c) && c.user != ""
    ensures s[|SchemePart(c)|..|SchemePart(c)| + |c.user|] == c.user
  {
    var sp, up := SchemePart(c), UserPart(c);
    assert s == sp + (c.user + "@") + (c.host + PortPart(c) + Tail(c));
    assert s[|sp|..|sp| + |c.user|] == (sp + (c.user + "@"))[|sp|..|sp| + |c.user|];
  }

  /** The capture at the last separator of a spelled decomposition gives its
      groups back, when its scheme group was taken exactly when the input
      allows it and its host holds no '@'. */
  lemma CaptureAtSpell(s: string, c: TildeCapture)
    requires IsTildeDecomposition(s, c) && c.port == "" && '@' !in c.host
    requires c.scheme == "" ==> !("ssh://" <= s) && !("git://" <= s)
    requires 1 <= SepPos(c) && ValidSep(s, SepPos(c))
    ensures CaptureAt(s, SepPos(c)) == c
  {
    SchemeTakenSpell(s, c);
    HeadGroupsAt(s, c);
    TailGroupsAt(s, c);
  }

  /** The user and host groups of a decomposition, as the capture at its
      separator finds them. */
  lemma HeadGroupsAt(s: string, c: TildeCapture)
    requires IsTildeDecomposition(s, c) && c.port == "" && '@' !in c.host
    requires SchemeEnd(s, SepPos(c)) == |SchemePart(c)|
    ensures UserAt(s, SepPos(c)) == if c.user == "" then None else Some(SchemeEnd(s, SepPos(c)) + |c.user|)
    ensures c.user != "" ==> s[SchemeEnd(s, SepPos(c))..SchemeEnd(s, SepPos(c)) + |c.user|] == c.user
    ensures HostStart(s, SepPos(c)) + |c.host| == SepPos(c) && s[HostStart(s, SepPos(c))..SepPos(c)] == c.host
    ensures 1 <= SepPos(c) && ValidSep(s, SepPos(c))
    ensures CaptureAt(s, SepPos(c)).user == c.user && CaptureAt(s, SepPos(c)).host == c.host
  {
    TildeSepValid(s, c);
    HostHasNoAt(s, c);
    TildeHeadPositions(s, c);
    UserAtFrom(s, SepPos(c), |SchemePart(c)|, |c.user|, |SchemePart(c)| + |UserPart(c)|);
    if c.user != "" {
      UserSpell(s, c);
    }
  }

  /** The separator, pathuser and path groups of the capture at `m`. */
  lemma TailFieldsAt(s: string, m: nat, sep: char, pathUser: string, path: string)
    requires 1 <= m && ValidSep(s, m) && s[m] == sep
    requires PathUserEnd(s, m) == m + 2 + |pathUser|
    requires s[m + 2..m + 2 + |pathUser|] == pathUser && s[m + 3 + |pathUser|..] == path
    ensures CaptureAt(s, m).sep == sep && CaptureAt(s, m).pathUser == pathUser
    ensures CaptureAt(s, m).path == path
  {
  }

  /** The separator, pathuser and path groups of a decomposition, as the
      capture at its separator finds them. */
  lemma TailGroupsAt(s: string, c: TildeCapture)
    requires IsTildeDecomposition(s, c)
    ensures 1 <= SepPos(c) && ValidSep(s, SepPos(c))
    ensures CaptureAt(s, SepPos(c)).sep == c.sep && CaptureAt(s, SepPos(c)).pathUser == c.pathUser
    ensures CaptureAt(s, SepPos(c)).path == c.path
  {
    TildeSepValid(s, c);
    assert s[SepPos(c)..] == Tail(c);
    TailAt(s, SepPos(c), c);
  }

  /** Where the text from a valid separator `k` on is the tail of `c`, the
      capture at `k` finds the tail groups of `c`. */
  lemma TailAt(s: string, k: nat, c: TildeCapture)
    requires 1 <= k <= |s| && ValidSep(s, k) && s[k..] == Tail(c)
    requires c.pathUser != "" && '/' !in c.pathUser
    ensures CaptureAt(s, k).sep == c.sep && CaptureAt(s, k).pathUser == c.pathUser
    ensures CaptureAt(s, k).path == c.path
  {
    TailPositions(c);
    var t, e := Tail(c), k + 2 + |c.pathUser|;
    assert s[k] == t[0];
    assert s[k + 2..e] == t[2..2 + |c.pathUser|];
    assert s[e] == t[2 + |c.pathUser|];
    assert s[e + 1..] == t[3 + |c.pathUser|..];
    FirstSlashUnique(s, k + 2, e, PathUserEnd(s, k));
    TailFieldsAt(s, k, c.sep, c.pathUser, c.path);
  }

  /** The tilde pattern reads a spelled decomposition back, under the
      conditions of `CaptureAtSpell` and `SepIsLast`. */
  lemma TildeCaptureIs(s: string, c: TildeCapture)
    requires IsTildeDecomposition(s, c) && c.port == "" && '@' !in c.host
    requires '~' !in c.pathUser && '~' !in c.path
    requires c.scheme == "" ==> !("ssh://" <= s) && !("git://" <= s)
    ensures TildeMatches(s) && TildeCaptureOf(s) == c
  {
    SepIsLast(s, c);
    LastSepFound(s);
    LastSepUnique(s, SepPos(c), LastSepUpTo(s, |s|).value);
    TildeSepValid(s, c);
    CaptureAtSpell(s, c);
  }
}
