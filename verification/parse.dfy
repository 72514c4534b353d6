/** parse.go: the classifier `Parse` and its per-family extractors. */
module GitParse {
  import opened Wrappers
  import opened Strings
  import opened Grammar
  import Uri
  import opened GitUrl

  datatype ParseError =
    | UnknownSyntax                      // ErrUnknownSyntax
    | MalformedUri(cause: Uri.UriError)  // an error of url.Parse, handed back as is
    | IndexOutOfRange                    // the runtime panic of `sp[1]` at parse.go:86

  /** The grammar families, in the order Parse tries them. */
  datatype Family = TildeUser | Transport | ScpLike | LocalPath | Unknown

  /** The first grammar that matches wins. */
  function Classify(raw: string): (f: Family)
    ensures f == TildeUser <==> TildeMatches(raw)
    ensures f == Transport <==> !TildeMatches(raw) && TransportMatches(raw)
    ensures f == ScpLike <==> !TildeMatches(raw) && !TransportMatches(raw) && ScpMatches(raw)
    ensures f == LocalPath <==> !TildeMatches(raw) && !TransportMatches(raw) && !ScpMatches(raw)
                                 && ("/" <= raw || "file://" <= raw)
  {
    if TildeMatches(raw) then TildeUser
    else if TransportMatches(raw) then Transport
    else if ScpMatches(raw) then ScpLike
    else if "/" <= raw || "file://" <= raw then LocalPath
    else Unknown
  }

  /** Parse.  Inputs hold no whitespace, so that the regular expressions
      read as the grammar predicates.  `malformed` stands for the
      character-level checks of url.Parse. */
  function Parse(raw: string, malformed: string -> bool): (r: Result<Url, ParseError>)
    requires NoSpace(raw)
    ensures r == Failure(UnknownSyntax) <==> Classify(raw) == Unknown
    ensures r.Failure? && r.error.MalformedUri? ==> Classify(raw) == Transport || Classify(raw) == LocalPath
    ensures r == Failure(IndexOutOfRange) ==> Classify(raw) == TildeUser
  {
    match Classify(raw)
    case TildeUser => ParseTilde(raw, malformed)
    case Transport => ParseUri(raw, malformed)
    case ScpLike => ParseGitUri(raw)
    case LocalPath => ParseUri(raw, malformed)
    case Unknown => Failure(UnknownSyntax)
  }

  /** parseURI: the fields of url.Parse, no tilde user, and the whole path
      as the relative path; a url.Parse error goes back to the caller. */
  function ParseUri(raw: string, malformed: string -> bool): (r: Result<Url, ParseError>)
    ensures r.Failure? <==> Uri.Parse(raw, malformed).Failure?
    ensures r.Failure? ==> r.error == MalformedUri(Uri.Parse(raw, malformed).error)
    ensures r.Success? ==> r.value.pathUser == "" && r.value.pathRelative == r.value.path
    ensures r.Success? ==> var u := Uri.Parse(raw, malformed).value;
      r.value.scheme == u.scheme && r.value.user == u.user && r.value.host == u.host
      && r.value.path == u.path
  {
    match Uri.Parse(raw, malformed)
    case Failure(e) => Failure(MalformedUri(e))
    case Success(u) => Success(Url(u.scheme, u.user, u.host, u.path, "", u.path))
  }

  /** parseGitURI: the SCP-like form user@host:path under the scheme
      "git+ssh"; the path is also the relative path. */
  function ParseGitUri(raw: string): (r: Result<Url, ParseError>)
    requires NoSpace(raw)
    ensures r.Success? <==> ScpMatches(raw)
    ensures r.Failure? ==> r.error == UnknownSyntax
    ensures r.Success? ==>
      && r.value.scheme == "git+ssh" && r.value.pathUser == "" && r.value.pathRelative == r.value.path
      && IsScpDecomposition(raw, ScpCapture(r.value.user, r.value.host, r.value.path))
    // RE2 leftmost-first with greedy groups: the longest user, then the longest host
    ensures r.Success? ==> forall d :: IsScpDecomposition(raw, d) ==>
      |d.user| < |r.value.user| || (|d.user| == |r.value.user| && |d.host| <= |r.value.host|)
  {
    if ScpMatches(raw) then
      var c := ScpCaptureOf(raw);
      Success(Url("git+ssh", c.user, c.host, c.path, "", c.path))
    else
      Failure(UnknownSyntax)
  }

  /** Strategy A succeeds on this url.Parse result: it has a host. */
  predicate HasHost(u: Result<Uri.Uri, Uri.UriError>) {
    u.Success? && u.value.host != ""
  }

  /** The path without one leading '/', where a "~user" segment would start. */
  function UserPath(u: Uri.Uri): string {
    TrimPrefix(u.path, "/")
  }

  /** A "~user" segment opens the path but no '/' closes it: indexing the
      second half of the split panics. */
  predicate Panics(u: Uri.Uri) {
    "~" <= UserPath(u) && '/' !in UserPath(u)[1..]
  }

  /** Split "~user/rest" into user and rest; None when the "~user" segment
      is not closed by a '/'. */
  function SplitUser(p: string): (r: Option<(string, string)>)
    requires "~" <= p
    ensures r.None? <==> '/' !in p[1..]
    ensures r.Some? ==> p == "~" + r.value.0 + "/" + r.value.1 && '/' !in r.value.0
  {
    var rest := p[1..];
    var sp := SplitTwo(rest, '/');
    if |sp| < 2 then None
    else
      assert p == "~" + rest;
      assert rest == sp[0] + "/" + sp[1];
      Some((sp[0], sp[1]))
  }

  /** Strategy A on one url.Parse result that has a host. */
  function SplitTildePath(u: Uri.Uri): (r: Result<Url, ParseError>)
    ensures r.Failure? <==> Panics(u)
    ensures r.Failure? ==> r.error == IndexOutOfRange
    ensures r.Success? ==>
      r.value.scheme == u.scheme && r.value.user == u.user && r.value.host == u.host && r.value.path == u.path
    ensures r.Success? && "~" <= UserPath(u) ==>
      UserPath(u) == "~" + r.value.pathUser + "/" + r.value.pathRelative && '/' !in r.value.pathUser
    ensures r.Success? && !("~" <= UserPath(u)) ==> r.value.pathUser == "" && r.value.pathRelative == u.path
  {
    var userPath := UserPath(u);
    if "~" <= userPath then
      match SplitUser(userPath)
      case None => Failure(IndexOutOfRange)
      case Some((pathUser, rel)) => Success(Url(u.scheme, u.user, u.host, u.path, pathUser, rel))
    else
      Success(Url(u.scheme, u.user, u.host, u.path, "", u.path))
  }

  /** parseTildeURIBase (Strategy A): url.Parse, then split a leading
      "~user/" off the path.  It declines (an error other than the panic)
      when url.Parse fails or finds no host. */
  function ParseTildeBase(raw: string, malformed: string -> bool): (r: Result<Url, ParseError>)
    ensures var u := Uri.Parse(raw, malformed);
      r.Failure? && r.error != IndexOutOfRange <==> !HasHost(u)
    ensures var u := Uri.Parse(raw, malformed);
      HasHost(u) ==> r == SplitTildePath(u.value)
  {
    match Uri.Parse(raw, malformed)
    case Failure(e) => Failure(MalformedUri(e))
    case Success(u) =>
      if u.host == "" then Failure(UnknownSyntax)
      else SplitTildePath(u)
  }

  /** The named groups of tildeUserRegex as SubexpNames lists them, index
      1 to 9: unnamed groups carry the name "". */
  function Groups(c: TildeCapture): seq<(string, string)> {
    [ ("", SchemePart(c)), ("scheme", c.scheme), ("", UserPart(c)), ("user", c.user),
      ("host", c.host), ("", PortPart(c)), ("port", c.port),
      ("pathuser", c.pathUser), ("path", c.path) ]
  }

  /** One pass of the loop body at parse.go:104-137. */
  function Visit(u: Url, name: string, value: string): Url {
    if value == "" then u
    else if name == "scheme" then u.(scheme := value)
    else if name == "pathuser" then
      if u.path != "" then u.(pathUser := value, path := "~" + value + "/" + u.path)
      else u.(pathUser := value)
    else if name == "user" then u.(user := value)
    else if name == "path" then
      if u.pathUser != "" then u.(pathRelative := value, path := "~" + u.pathUser + "/" + value)
      else u.(pathRelative := value, path := value)
    else if name == "host" then
      if |u.host| > 0 then u.(host := value + u.host) else u.(host := value)
    else if name == "port" then u.(host := u.host + ":" + value)
    else u
  }

  /** The record after the first `n` groups. */
  function VisitFirst(groups: seq<(string, string)>, n: nat): Url
    requires n <= |groups|
  {
    if n == 0 then Url("", "", "", "", "", "")
    else Visit(VisitFirst(groups, n - 1), groups[n - 1].0, groups[n - 1].1)
  }

  /** The loop of parse.go:103-138 over the captures of the input.  The
      host group comes before the pathuser group, so the host is never
      prepended to and the pathuser case never rewrites a path; an empty
      path group is skipped and leaves the path empty. */
  function FillFromCaptures(c: TildeCapture): (u: Url)
    requires c.host != "" && c.pathUser != ""
    ensures u.scheme == c.scheme && u.user == c.user && u.host == c.host + PortPart(c)
    ensures u.pathUser == c.pathUser && u.pathRelative == c.path
    ensures u.path == if c.path == "" then "" else "~" + c.pathUser + "/" + c.path
  {
    VisitTrace(c, |Groups(c)|);
    VisitFirst(Groups(c), |Groups(c)|)
  }

  /** The record after the first `n` groups, in closed form. */
  function Expected(c: TildeCapture, n: nat): Url {
    Url(
      if n >= 2 then c.scheme else "",
      if n >= 4 then c.user else "",
      if n < 5 then "" else if n < 7 then c.host else c.host + PortPart(c),
      if n >= 9 && c.path != "" then "~" + c.pathUser + "/" + c.path else "",
      if n >= 8 then c.pathUser else "",
      if n >= 9 then c.path else "")
  }

  /** One group moves the record from one closed form to the next. */
  lemma VisitStep(c: TildeCapture, n: nat)
    requires c.host != "" && c.pathUser != "" && n < |Groups(c)|
    ensures Visit(Expected(c, n), Groups(c)[n].0, Groups(c)[n].1) == Expected(c, n + 1)
  {
    var g := Groups(c);
    if n == 0 {
      assert g[0].0 == "";
    } else if n == 1 {
      assert g[1] == ("scheme", c.scheme);
    } else if n == 2 {
      assert g[2].0 == "";
    } else if n == 3 {
      assert g[3] == ("user", c.user);
    } else if n == 4 {
      assert g[4] == ("host", c.host);
    } else if n == 5 {
      assert g[5].0 == "";
    } else if n == 6 {
      assert g[6] == ("port", c.port);
    } else if n == 7 {
      assert g[7] == ("pathuser", c.pathUser);
    } else {
      assert g[8] == ("path", c.path);
    }
  }

  lemma {:induction false} VisitTrace(c: TildeCapture, n: nat)
    requires c.host != "" && c.pathUser != "" && n <= |Groups(c)|
    ensures VisitFirst(Groups(c), n) == Expected(c, n)
  {
    if n > 0 {
      VisitTrace(c, n - 1);
      VisitStep(c, n - 1);
    }
  }

  /** The host branch that prepends (parse.go:129-132) and the path rewrite
      in the pathuser branch (parse.go:115-117) are never taken: the host is
      still empty when the host group is visited, and the path is still
      empty when the pathuser group is visited. */
  lemma {:induction false} DeadBranches(c: TildeCapture)
    ensures VisitFirst(Groups(c), 4).host == ""
    ensures VisitFirst(Groups(c), 7).path == ""
  {
    var g := Groups(c);
    assert VisitFirst(g, 4).host == VisitFirst(g, 3).host == VisitFirst(g, 2).host == VisitFirst(g, 1).host == "";
    assert VisitFirst(g, 7).path == VisitFirst(g, 6).path == VisitFirst(g, 5).path == VisitFirst(g, 4).path;
    assert VisitFirst(g, 4).path == VisitFirst(g, 3).path == VisitFirst(g, 2).path == VisitFirst(g, 1).path == "";
  }

  /** parseTildeURI: Strategy A, and Strategy B (the capture loop) when A
      declines.  It never returns an error; only A's panic escapes. */
  function ParseTilde(raw: string, malformed: string -> bool): (r: Result<Url, ParseError>)
    requires NoSpace(raw) && TildeMatches(raw)
    ensures r.Failure? ==> r.error == IndexOutOfRange
    ensures r == Failure(IndexOutOfRange) <==> ParseTildeBase(raw, malformed) == Failure(IndexOutOfRange)
    ensures ParseTildeBase(raw, malformed).Success? ==> r == ParseTildeBase(raw, malformed)
    ensures ParseTildeBase(raw, malformed).Failure? && r.Success? ==>
      var c := TildeCaptureOf(raw);
      && r.value.scheme == c.scheme && r.value.user == c.user && r.value.host == c.host
      && r.value.pathUser == c.pathUser && r.value.pathRelative == c.path
      && r.value.path == if c.path == "" then "" else "~" + c.pathUser + "/" + c.path
  {
    match ParseTildeBase(raw, malformed)
    case Success(u) => Success(u)
    case Failure(IndexOutOfRange) => Failure(IndexOutOfRange)
    case Failure(_) => Success(FillFromCaptures(TildeCaptureOf(raw)))
  }
}
