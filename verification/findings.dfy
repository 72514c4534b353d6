/** Two places where parse.go does not do what its own design promises,
    each as written (with inputs that show it) and corrected (with the
    promise proved).

    1. parseTildeURIBase indexes the second half of the "~user/rest" split
       (parse.go:83-86) although nothing guarantees a '/' after "~user" in
       the path url.Parse returns: tildeUserRegex can find its '/' in a
       fragment that url.Parse cuts off.  The index panics.
    2. The capture loop skips empty groups (parse.go:107-109), so when
       nothing follows "~user/" the path case never runs and the path stays
       empty instead of "~user/" (parse.go:120-124). */
module GitFindings {
  import opened Wrappers
  import opened Strings
  import opened Grammar
  import Uri
  import opened GitUrl
  import opened GitParse
  import opened GitProperties

  /** The promise both corrections keep: a record with a tilde user holds
      the path "~user/rest" (or "~user" alone), rest being the relative path. */
  predicate PathAgrees(u: Url) {
    u.pathUser != "" ==>
      var p := TrimPrefix(u.path, "/");
      p == "~" + u.pathUser + "/" + u.pathRelative || (p == "~" + u.pathUser && u.pathRelative == "")
  }

  /** An empty path never holds a tilde user. */
  lemma EmptyPathNotAgrees(u: Url)
    requires u.path == "" && u.pathUser != ""
    ensures !PathAgrees(u)
  {
    assert TrimPrefix(u.path, "/") == "";
    assert |"~" + u.pathUser| > 0;
  }

  // ---------------------------------------------------------------------
  // As written
  // ---------------------------------------------------------------------

  /** The separator before "~pathuser#fragment" is valid when the fragment
      holds a '/'. */
  lemma FragmentSep(s: string, k: nat, pathUser: string, frag: string)
    requires 1 <= k <= |s| && s[k..] == "/~" + pathUser + "#" + frag
    requires pathUser != "" && '/' !in pathUser && '/' in frag
    ensures ValidSep(s, k) && TildeMatches(s)
  {
    var t := s[k..];
    assert t[3..] == pathUser[1..] + "#" + frag;
    assert s[k + 2] == t[2] == pathUser[0];
    assert s[k + 3..] == t[3..];
    var j :| 0 <= j < |frag| && frag[j] == '/';
    assert t[3..][|pathUser| + j] == '/';
    assert 1 <= k < |s| && ValidSep(s, k);
  }

  /** url.Parse drops the fragment before it reads anything else. */
  lemma FragmentIgnored(a: string, frag: string, malformed: string -> bool, malformedBefore: string -> bool)
    requires '#' !in a && !malformed(a + "#" + frag) && !malformedBefore(a)
    ensures Uri.Parse(a + "#" + frag, malformed) == Uri.Parse(a, malformedBefore)
  {
    BeforeJoin(a, '#', frag);
    assert Before(a, '#') == a;
    assert Uri.SplitScheme(a + "#" + frag) == Uri.SplitScheme(a);
  }

  /** "/~pathuser" is a plain whitespace-free path. */
  lemma TildeStemPlain(pathUser: string)
    requires '?' !in pathUser && '#' !in pathUser && '%' !in pathUser && NoSpace(pathUser)
    ensures Uri.PlainPath("/~" + pathUser) && NoSpace("/~" + pathUser)
  {
    NoSpaceJoin("/~", pathUser);
    NotInJoin('?', "/~", pathUser);
    NotInJoin('#', "/~", pathUser);
    NotInJoin('%', "/~", pathUser);
  }

  /** A lower-case scheme and its ':' hold no '#'. */
  lemma SchemeNoHash(scheme: string)
    requires Uri.LowerScheme(scheme)
    ensures '#' !in scheme + ":"
  {
    forall i | 0 <= i < |scheme + ":"|
      ensures (scheme + ":")[i] != '#'
    {
      if i < |scheme| {
        assert Uri.IsSchemeChar(scheme[i]);
      }
    }
  }

  /** A URL text is its scheme, ':' and the "//authority/path" rest. */
  lemma UrlTextSplit(scheme: string, user: string, hostname: string, port: string, path: string)
    ensures UrlText(scheme, user, hostname, port, path)
         == scheme + ":" + ("//" + (Uri.UserPrefix(user) + Uri.JoinHostPort(hostname, port)) + path)
  {
  }

  /** A URL text built from plain parts holds no '#'. */
  lemma UrlTextNoHash(scheme: string, user: string, hostname: string, port: string, path: string)
    requires Uri.LowerScheme(scheme) && Uri.PlainUser(user) && Uri.PlainHostname(hostname)
    requires Uri.AllDigits(port) && Uri.PlainPath(path)
    ensures '#' !in UrlText(scheme, user, hostname, port, path)
  {
    var authority := Uri.UserPrefix(user) + Uri.JoinHostPort(hostname, port);
    Uri.AuthorityChars(user, hostname, port);
    Uri.RestChars(authority, path);
    SchemeNoHash(scheme);
    UrlTextSplit(scheme, user, hostname, port, path);
    NotInJoin('#', scheme + ":", "//" + authority + path);
  }

  /** "scheme://[user@]host[:port]/~pathuser#frag" */
  function FragmentText(scheme: string, user: string, hostname: string, port: string,
                        pathUser: string, frag: string): string {
    UrlText(scheme, user, hostname, port, "/~" + pathUser) + "#" + frag
  }

  /** The fragment text is whitespace-free and the tilde pattern matches it. */
  lemma FragmentTextMatches(scheme: string, user: string, hostname: string, port: string,
                            pathUser: string, frag: string)
    requires TransportScheme(scheme)
    requires Uri.AllDigits(port) && pathUser != "" && '/' !in pathUser && '/' in frag
    requires NoSpace(user) && NoSpace(hostname) && NoSpace(pathUser) && NoSpace(frag)
    ensures var raw := FragmentText(scheme, user, hostname, port, pathUser, frag);
      NoSpace(raw) && TildeMatches(raw)
  {
    var path := "/~" + pathUser;
    var a := UrlText(scheme, user, hostname, port, path);
    var raw := a + "#" + frag;
    TransportSchemeIsLower(scheme);
    NoSpaceJoin("/~", pathUser);
    UrlTextNoSpace(scheme, user, hostname, port, path);
    NoSpaceJoin(a, "#");
    NoSpaceJoin(a + "#", frag);
    UrlTextPath(scheme, user, hostname, port, path);
    var k := |UrlText(scheme, user, hostname, port, "")|;
    assert raw[k..] == a[k..] + "#" + frag;
    FragmentSep(raw, k, pathUser, frag);
  }

  /** url.Parse reads the fragment text as the URL before the '#'. */
  lemma FragmentTextParse(scheme: string, user: string, hostname: string, port: string,
                          pathUser: string, frag: string, malformed: string -> bool)
    requires TransportScheme(scheme)
    requires Uri.PlainUser(user) && Uri.PlainHostname(hostname) && Uri.AllDigits(port)
    requires '?' !in pathUser && '#' !in pathUser && '%' !in pathUser && NoSpace(pathUser)
    requires !malformed(FragmentText(scheme, user, hostname, port, pathUser, frag))
    ensures Uri.Parse(FragmentText(scheme, user, hostname, port, pathUser, frag), malformed)
         == Success(Uri.Uri(scheme, "", user, Uri.JoinHostPort(hostname, port), "/~" + pathUser))
  {
    var path := "/~" + pathUser;
    var a := UrlText(scheme, user, hostname, port, path);
    TransportSchemeIsLower(scheme);
    TildeStemPlain(pathUser);
    UrlTextNoHash(scheme, user, hostname, port, path);
    var cut := (t: string) => malformed(t + "#" + frag);
    FragmentIgnored(a, frag, malformed, cut);
    UrlTextParse(scheme, user, hostname, port, path, cut);
  }

  /** The first strategy panics on the path "/~pathuser". */
  lemma StemPanics(u: Uri.Uri, pathUser: string)
    requires u.path == "/~" + pathUser && '/' !in pathUser
    ensures Panics(u) && SplitTildePath(u) == Failure(IndexOutOfRange)
  {
    assert "/" <= u.path;
    assert UserPath(u) == "~" + pathUser;
    assert UserPath(u)[1..] == pathUser;
  }

  /** A "/~user" path with no further '/', followed by a fragment that holds
      one: the tilde pattern matches through the fragment, url.Parse keeps
      only "/~user", and splitting it panics. */
  lemma FragmentPanics(scheme: string, user: string, hostname: string, port: string,
                       pathUser: string, frag: string, malformed: string -> bool)
    requires TransportScheme(scheme)
    requires Uri.PlainUser(user) && Uri.PlainHostname(hostname) && hostname != "" && Uri.AllDigits(port)
    requires pathUser != "" && '/' !in pathUser && '?' !in pathUser && '#' !in pathUser && '%' !in pathUser
    requires '/' in frag
    requires NoSpace(user) && NoSpace(hostname) && NoSpace(pathUser) && NoSpace(frag)
    requires !malformed(FragmentText(scheme, user, hostname, port, pathUser, frag))
    ensures var raw := FragmentText(scheme, user, hostname, port, pathUser, frag);
      && NoSpace(raw) && Classify(raw) == TildeUser
      && Parse(raw, malformed) == Failure(IndexOutOfRange)
  {
    var raw := FragmentText(scheme, user, hostname, port, pathUser, frag);
    FragmentTextMatches(scheme, user, hostname, port, pathUser, frag);
    FragmentTextParse(scheme, user, hostname, port, pathUser, frag, malformed);
    var u := Uri.Uri(scheme, "", user, Uri.JoinHostPort(hostname, port), "/~" + pathUser);
    StemPanics(u, pathUser);
    assert ParseTildeBase(raw, malformed) == Failure(IndexOutOfRange);
  }

  /** ssh://h/~a#/~b/c panics. */
  lemma PanicExample(raw: string, malformed: string -> bool)
    requires raw == FragmentText("ssh", "", "h", "", "a", "/~b/c") && !malformed(raw)
    ensures NoSpace(raw) && Parse(raw, malformed) == Failure(IndexOutOfRange)
  {
    assert "/~b/c"[0] == '/';
    assert Uri.PlainHostname("h") && NoSpace("h") && NoSpace("a") && NoSpace("/~b/c");
    FragmentPanics("ssh", "", "h", "", "a", "/~b/c", malformed);
  }

  /** A tilde user in SCP-like form with nothing after "~user/": the parse
      succeeds but the path is empty, so it does not hold the tilde user. */
  lemma EmptyPathDisagrees(user: string, host: string, pathUser: string, malformed: string -> bool)
    requires Uri.PlainUser(user) && '~' !in user
    requires host != "" && ':' !in host && '/' !in host && '@' !in host && '~' !in host
    requires pathUser != "" && '/' !in pathUser && '~' !in pathUser
    requires NoSpace(user) && NoSpace(host) && NoSpace(pathUser)
    ensures var raw := ScpTildeText(user, host, pathUser, "");
      && NoSpace(raw) && Parse(raw, malformed).Success?
      && Parse(raw, malformed).value.path == ""
      && !PathAgrees(Parse(raw, malformed).value)
  {
    TildeScpRoundTrip(user, host, pathUser, "", malformed);
    EmptyPathNotAgrees(Parse(ScpTildeText(user, host, pathUser, ""), malformed).value);
  }

  // ---------------------------------------------------------------------
  // Corrected
  // ---------------------------------------------------------------------

  /** Strategy A without the panic: a "~user" segment with no '/' after it
      is the tilde user, with nothing relative to it. */
  function SplitTildePathFixed(u: Uri.Uri): (r: Url)
    ensures r.scheme == u.scheme && r.user == u.user && r.host == u.host && r.path == u.path
    ensures "~" <= UserPath(u) ==>
      && '/' !in r.pathUser
      && (UserPath(u) == "~" + r.pathUser + "/" + r.pathRelative
          || (UserPath(u) == "~" + r.pathUser && r.pathRelative == ""))
    ensures !("~" <= UserPath(u)) ==> r.pathUser == "" && r.pathRelative == u.path
    ensures PathAgrees(r)
    ensures !Panics(u) ==> SplitTildePath(u) == Success(r)
  {
    var userPath := UserPath(u);
    if "~" <= userPath then
      match SplitUser(userPath)
      case None =>
        assert userPath == "~" + userPath[1..];
        Url(u.scheme, u.user, u.host, u.path, userPath[1..], "")
      case Some((pathUser, rel)) => Url(u.scheme, u.user, u.host, u.path, pathUser, rel)
    else
      Url(u.scheme, u.user, u.host, u.path, "", u.path)
  }

  /** parseTildeURIBase with the corrected split. */
  function ParseTildeBaseFixed(raw: string, malformed: string -> bool): (r: Result<Url, ParseError>)
    ensures r.Failure? <==> !HasHost(Uri.Parse(raw, malformed))
    ensures r.Failure? ==> r.error != IndexOutOfRange
    ensures r.Success? ==> PathAgrees(r.value)
    ensures ParseTildeBase(raw, malformed) != Failure(IndexOutOfRange) ==> r == ParseTildeBase(raw, malformed)
  {
    match Uri.Parse(raw, malformed)
    case Failure(e) => Failure(MalformedUri(e))
    case Success(u) =>
      if u.host == "" then Failure(UnknownSyntax)
      else Success(SplitTildePathFixed(u))
  }

  /** The capture loop with the path case taken for an empty path group too:
      the path always holds "~pathuser/". */
  function FillFixed(c: TildeCapture): (u: Url)
    requires c.host != "" && c.pathUser != ""
    ensures u.scheme == c.scheme && u.user == c.user && u.host == c.host + PortPart(c)
    ensures u.pathUser == c.pathUser && u.pathRelative == c.path
    ensures PathAgrees(u)
    ensures c.path != "" ==> u == FillFromCaptures(c)
  {
    var u := FillFromCaptures(c);
    assert TrimPrefix("~" + c.pathUser + "/" + c.path, "/") == "~" + c.pathUser + "/" + c.path by {
      assert ("~" + c.pathUser + "/" + c.path)[0] == '~';
    }
    u.(path := "~" + c.pathUser + "/" + c.path)
  }

  /** parseTildeURI with both corrections: it never fails. */
  function ParseTildeFixed(raw: string, malformed: string -> bool): (r: Url)
    requires NoSpace(raw) && TildeMatches(raw)
    ensures PathAgrees(r)
  {
    match ParseTildeBaseFixed(raw, malformed)
    case Success(u) => u
    case Failure(_) => FillFixed(TildeCaptureOf(raw))
  }

  /** Where parseTildeURI already keeps the tilde user in the path, the
      corrected version gives the same record. */
  lemma ParseTildeFixedAgrees(raw: string, malformed: string -> bool)
    requires NoSpace(raw) && TildeMatches(raw)
    ensures ParseTilde(raw, malformed).Success? && PathAgrees(ParseTilde(raw, malformed).value)
            ==> ParseTilde(raw, malformed) == Success(ParseTildeFixed(raw, malformed))
  {
    var base := ParseTildeBase(raw, malformed);
    if base.Success? {
      // Strategy A succeeds: the corrected split gives the same record.
      assert ParseTilde(raw, malformed) == Success(ParseTildeFixed(raw, malformed)) by {
        var u := Uri.Parse(raw, malformed).value;
        assert HasHost(Uri.Parse(raw, malformed));
        assert ParseTildeBaseFixed(raw, malformed) == Success(SplitTildePathFixed(u));
      }
    } else if base.error == IndexOutOfRange {
      assert ParseTilde(raw, malformed).Failure?;
    } else if TildeCaptureOf(raw).path != "" {
      // The capture loop fills the path: the corrected loop agrees.
      assert ParseTilde(raw, malformed) == Success(ParseTildeFixed(raw, malformed)) by {
        var c := TildeCaptureOf(raw);
        assert ParseTildeBaseFixed(raw, malformed).Failure?;
        assert ParseTilde(raw, malformed) == Success(FillFromCaptures(c));
      }
    } else {
      // The path group is empty: the record has lost its tilde user.
      assert !PathAgrees(ParseTilde(raw, malformed).value) by {
        var filled := FillFromCaptures(TildeCaptureOf(raw));
        assert ParseTilde(raw, malformed) == Success(filled);
        EmptyPathNotAgrees(filled);
      }
    }
  }

  /** Parse with both corrections.  It fails exactly where Parse fails for
      a reason other than the panic, its records keep the tilde user in the
      path, and it agrees with Parse wherever Parse already does. */
  function ParseFixed(raw: string, malformed: string -> bool): (r: Result<Url, ParseError>)
    requires NoSpace(raw)
    ensures r.Failure? <==> Parse(raw, malformed).Failure? && Parse(raw, malformed) != Failure(IndexOutOfRange)
    ensures r.Failure? ==> r == Parse(raw, malformed)
    ensures r.Success? ==> PathAgrees(r.value)
    ensures Parse(raw, malformed).Success? && PathAgrees(Parse(raw, malformed).value) ==> r == Parse(raw, malformed)
  {
    match Classify(raw)
    case TildeUser =>
      ParseTildeFixedAgrees(raw, malformed);
      Success(ParseTildeFixed(raw, malformed))
    case Transport => ParseUri(raw, malformed)
    case ScpLike => ParseGitUri(raw)
    case LocalPath => ParseUri(raw, malformed)
    case Unknown => Failure(UnknownSyntax)
  }
}
