/** What Parse promises for each syntax family: writing the parts of a
    repository address in that family's form and parsing the text gives the
    parts back. */
module GitProperties {
  import opened Wrappers
  import opened Strings
  import opened Grammar
  import Uri
  import opened GitUrl
  import opened GitParse

  // ---------------------------------------------------------------------
  // Which family a text belongs to
  // ---------------------------------------------------------------------

  /** The tilde pattern needs a '~' right after a separator. */
  lemma NoTildeNoMatch(s: string)
    requires '~' !in s
    ensures !TildeMatches(s)
  {
    forall k | 1 <= k < |s|
      ensures !ValidSep(s, k)
    {
      if k + 1 < |s| {
        assert s[k + 1] != '~';
      }
    }
  }

  /** A text that reaches an '@' before any ':' carries no transport prefix:
      every prefix is a word and a ':' with no '@'. */
  lemma AtBeforeColonNoTransport(s: string, k: nat)
    requires k < |s| && s[k] == '@' && ':' !in s[..k]
    ensures !TransportMatches(s)
  {
    forall j | 0 <= j < k
      ensures s[j] != ':'
    {
      assert s[..k][j] == s[j];
    }
    if 5 < k {
      assert s[3] != ':' && s[4] != ':' && s[5] != ':';
    }
  }

  /** A transport URL or a local path takes the fields url.Parse gives it. */
  lemma ParseAsUri(raw: string, malformed: string -> bool, u: Uri.Uri)
    requires NoSpace(raw) && !TildeMatches(raw)
    requires TransportMatches(raw) || (!ScpMatches(raw) && ("/" <= raw || "file://" <= raw))
    requires Uri.Parse(raw, malformed) == Success(u)
    ensures Classify(raw) == (if TransportMatches(raw) then Transport else LocalPath)
    ensures Parse(raw, malformed) == Success(Url(u.scheme, u.user, u.host, u.path, "", u.path))
  {
  }

  lemma NotInJoin(c: char, a: string, b: string)
    requires c !in a && c !in b
    ensures c !in a + b
  {
  }

  /** Without a ':' the SCP-like pattern cannot match. */
  lemma NoColonNoScp(s: string)
    requires ':' !in s
    ensures !ScpMatches(s)
  {
  }

  /** Nor without an '@'. */
  lemma NoAtNoScp(s: string)
    requires '@' !in s
    ensures !ScpMatches(s)
  {
  }

  // ---------------------------------------------------------------------
  // Transport URLs: ssh, git, http(s) and ftp(s)
  // ---------------------------------------------------------------------

  predicate TransportScheme(scheme: string) {
    scheme == "ssh" || scheme == "git" || scheme == "http" || scheme == "https"
    || scheme == "ftp" || scheme == "ftps"
  }

  /** "scheme://[user@]hostname[:port]path" */
  function UrlText(scheme: string, user: string, hostname: string, port: string, path: string): string {
    scheme + "://" + Uri.UserPrefix(user) + Uri.JoinHostPort(hostname, port) + path
  }

  /** url.Parse reads a URL text back into its parts. */
  lemma UrlTextParse(scheme: string, user: string, hostname: string, port: string, path: string,
                     malformed: string -> bool)
    requires Uri.LowerScheme(scheme) && Uri.PlainUser(user) && Uri.PlainHostname(hostname)
    requires Uri.AllDigits(port) && Uri.PlainPath(path)
    requires !malformed(UrlText(scheme, user, hostname, port, path))
    ensures Uri.Parse(UrlText(scheme, user, hostname, port, path), malformed)
         == Success(Uri.Uri(scheme, "", user, Uri.JoinHostPort(hostname, port), path))
  {
    Uri.AuthorityForm(scheme, user, hostname, port, path, malformed);
  }

  lemma TransportSchemeIsLower(scheme: string)
    requires TransportScheme(scheme)
    ensures Uri.LowerScheme(scheme) && NoSpace(scheme)
  {
  }

  /** A URL text built from whitespace-free parts is whitespace-free. */
  lemma UrlTextNoSpace(scheme: string, user: string, hostname: string, port: string, path: string)
    requires NoSpace(scheme) && NoSpace(user) && NoSpace(hostname) && Uri.AllDigits(port) && NoSpace(path)
    ensures NoSpace(UrlText(scheme, user, hostname, port, path))
  {
    NoSpaceJoin(scheme, "://");
    NoSpaceJoin(user, "@");
    NoSpaceJoin(hostname, ":");
    NoSpaceJoin(hostname + ":", port);
    var up, hp := Uri.UserPrefix(user), Uri.JoinHostPort(hostname, port);
    assert NoSpace(up) && NoSpace(hp);
    NoSpaceJoin(scheme + "://", up);
    NoSpaceJoin(scheme + "://" + up, hp);
    NoSpaceJoin(scheme + "://" + up + hp, path);
  }

  /** A transport URL built from tilde-free parts has the transport prefix
      and no '~'. */
  lemma TransportText(scheme: string, user: string, hostname: string, port: string, path: string)
    requires TransportScheme(scheme)
    ensures TransportMatches(UrlText(scheme, user, hostname, port, path))
  {
    assert scheme + "://" <= UrlText(scheme, user, hostname, port, path);
  }

  /** A URL text built from tilde-free parts holds no '~', so the tilde
      pattern does not match it. */
  lemma UrlTextTildeFree(scheme: string, user: string, hostname: string, port: string, path: string)
    requires TransportScheme(scheme) && Uri.AllDigits(port)
    requires '~' !in user && '~' !in hostname && '~' !in path
    ensures '~' !in UrlText(scheme, user, hostname, port, path)
    ensures !TildeMatches(UrlText(scheme, user, hostname, port, path))
  {
    var hp := Uri.JoinHostPort(hostname, port);
    assert '~' !in hp by {
      if port != "" {
        assert hp == hostname + ":" + port;
        assert forall i :: 0 <= i < |port| ==> port[i] != '~';
      }
    }
    assert '~' !in Uri.UserPrefix(user);
    NoTildeNoMatch(UrlText(scheme, user, hostname, port, path));
  }

  /** A transport URL that the tilde pattern does not match is handed to
      url.Parse, and its user, host, port and path come back as written; the
      relative path is the whole path and there is no tilde user.  The path
      may hold a '~' anywhere the pattern cannot use it ("/a~b", "/~u",
      "/~/x"). */
  lemma TransportRoundTrip(scheme: string, user: string, hostname: string, port: string, path: string,
                           malformed: string -> bool)
    requires TransportScheme(scheme) && Uri.PlainUser(user) && Uri.PlainHostname(hostname)
    requires Uri.AllDigits(port) && Uri.PlainPath(path)
    requires !TildeMatches(UrlText(scheme, user, hostname, port, path))
    requires NoSpace(user) && NoSpace(hostname) && NoSpace(path)
    requires !malformed(UrlText(scheme, user, hostname, port, path))
    ensures var raw := UrlText(scheme, user, hostname, port, path);
      && NoSpace(raw) && Classify(raw) == Transport
      && Parse(raw, malformed) == Success(Url(scheme, user, Uri.JoinHostPort(hostname, port), path, "", path))
      && Hostname(Parse(raw, malformed).value) == hostname && Port(Parse(raw, malformed).value) == port
  {
    var raw := UrlText(scheme, user, hostname, port, path);
    var u := Url(scheme, user, Uri.JoinHostPort(hostname, port), path, "", path);
    HostPortRoundTrip(u, hostname, port);
    TransportSchemeIsLower(scheme);
    UrlTextNoSpace(scheme, user, hostname, port, path);
    TransportText(scheme, user, hostname, port, path);
    UrlTextParse(scheme, user, hostname, port, path, malformed);
    ParseAsUri(raw, malformed, Uri.Uri(scheme, "", user, Uri.JoinHostPort(hostname, port), path));
  }

  // ---------------------------------------------------------------------
  // Tilde users in URL form: ssh://[user@]host[:port]/~pathuser/path
  // ---------------------------------------------------------------------

  /** Splitting "~user/rest" gives back the user and the rest. */
  lemma SplitUserOf(pathUser: string, rest: string)
    requires '/' !in pathUser
    ensures SplitUser("~" + pathUser + "/" + rest) == Some((pathUser, rest))
  {
    var p := "~" + pathUser + "/" + rest;
    assert p[1..] == pathUser + ['/'] + rest;
    var r := SplitUser(p).value;
    assert p[1..] == r.0 + ['/'] + r.1;
    BeforeJoin(pathUser, '/', rest);
    BeforeJoin(r.0, '/', r.1);
  }

  /** The separator before "~pathuser/" is a valid one. */
  lemma TildeSepAt(s: string, k: nat, pathUser: string, rest: string)
    requires 1 <= k && k + 2 <= |s| && s[k..] == "/~" + pathUser + "/" + rest
    requires pathUser != "" && '/' !in pathUser
    ensures ValidSep(s, k) && TildeMatches(s)
  {
    var t := s[k..];
    assert t[3..] == pathUser[1..] + "/" + rest;
    assert s[k + 2] == t[2] == pathUser[0];
    assert s[k + 3..] == t[3..];
    assert t[3..][|pathUser| - 1] == '/';
    assert 1 <= k < |s| && ValidSep(s, k);
  }

  lemma TildePathPlain(pathUser: string, rest: string)
    requires '?' !in pathUser && '#' !in pathUser && '%' !in pathUser
    requires '?' !in rest && '#' !in rest && '%' !in rest
    requires NoSpace(pathUser) && NoSpace(rest)
    ensures Uri.PlainPath("/~" + pathUser + "/" + rest) && NoSpace("/~" + pathUser + "/" + rest)
  {
    NoSpaceJoin("/~", pathUser);
    NoSpaceJoin("/~" + pathUser, "/");
    NoSpaceJoin("/~" + pathUser + "/", rest);
    var path := "/~" + pathUser + "/" + rest;
    forall i | 0 <= i < |path|
      ensures path[i] != '?' && path[i] != '#' && path[i] != '%'
    {
      if 2 <= i < 2 + |pathUser| {
        assert path[i] == pathUser[i - 2];
      } else if 3 + |pathUser| <= i {
        assert path[i] == rest[i - 3 - |pathUser|];
      }
    }
  }

  /** The path of a URL text starts after its authority. */
  lemma UrlTextPath(scheme: string, user: string, hostname: string, port: string, path: string)
    requires scheme != ""
    ensures var raw, k := UrlText(scheme, user, hostname, port, path), |UrlText(scheme, user, hostname, port, "")|;
      1 <= k <= |raw| && raw[k..] == path
  {
    var head := UrlText(scheme, user, hostname, port, "");
    assert UrlText(scheme, user, hostname, port, path) == head + path;
  }

  /** The first strategy splits "/~pathuser/rest" into its two parts. */
  lemma TildeSplitOf(u: Uri.Uri, pathUser: string, rest: string)
    requires u.path == "/~" + pathUser + "/" + rest && '/' !in pathUser
    ensures SplitTildePath(u) == Success(Url(u.scheme, u.user, u.host, u.path, pathUser, rest))
  {
    assert "/" <= u.path;
    assert UserPath(u) == "~" + pathUser + "/" + rest;
    SplitUserOf(pathUser, rest);
  }

  /** A tilde path read by url.Parse: the first strategy splits off the tilde user. */
  lemma ParseTildeAsUri(raw: string, malformed: string -> bool, u: Uri.Uri, pathUser: string, rest: string)
    requires NoSpace(raw) && TildeMatches(raw) && Uri.Parse(raw, malformed) == Success(u) && u.host != ""
    requires u.path == "/~" + pathUser + "/" + rest && '/' !in pathUser
    ensures Classify(raw) == TildeUser
    ensures Parse(raw, malformed) == Success(Url(u.scheme, u.user, u.host, u.path, pathUser, rest))
  {
    TildeSplitOf(u, pathUser, rest);
    assert ParseTildeBase(raw, malformed) == SplitTildePath(u);
    assert Parse(raw, malformed) == ParseTilde(raw, malformed);
  }

  /** A tilde-user URL is read by url.Parse (the first strategy): the path
      keeps its "/~pathuser/" and the relative path is what follows it. */
  lemma TildeUriRoundTrip(scheme: string, user: string, hostname: string, port: string,
                          pathUser: string, rest: string, malformed: string -> bool)
    requires TransportScheme(scheme)
    requires Uri.PlainUser(user) && Uri.PlainHostname(hostname) && hostname != "" && Uri.AllDigits(port)
    requires pathUser != "" && '/' !in pathUser && '?' !in pathUser && '#' !in pathUser && '%' !in pathUser
    requires '?' !in rest && '#' !in rest && '%' !in rest
    requires NoSpace(user) && NoSpace(hostname) && NoSpace(pathUser) && NoSpace(rest)
    requires !malformed(UrlText(scheme, user, hostname, port, "/~" + pathUser + "/" + rest))
    ensures var raw := UrlText(scheme, user, hostname, port, "/~" + pathUser + "/" + rest);
      && NoSpace(raw) && Classify(raw) == TildeUser
      && Parse(raw, malformed)
         == Success(Url(scheme, user, Uri.JoinHostPort(hostname, port), "/~" + pathUser + "/" + rest, pathUser, rest))
  {
    var path := "/~" + pathUser + "/" + rest;
    var raw := UrlText(scheme, user, hostname, port, path);
    TransportSchemeIsLower(scheme);
    TildePathPlain(pathUser, rest);
    UrlTextNoSpace(scheme, user, hostname, port, path);
    UrlTextParse(scheme, user, hostname, port, path, malformed);
    UrlTextPath(scheme, user, hostname, port, path);
    TildeSepAt(raw, |UrlText(scheme, user, hostname, port, "")|, pathUser, rest);
    ParseTildeAsUri(raw, malformed, Uri.Uri(scheme, "", user, Uri.JoinHostPort(hostname, port), path), pathUser, rest);
  }

  /** A transport URL whose path does not open with "/~" gives the plain
      transport record whether or not the tilde pattern matches.  When it
      matches further on ("https://h/g/~u/r"), the first strategy finds no
      tilde user at the head of the path and keeps the whole path as the
      relative path, as url.Parse alone would. */
  lemma TransportAnyTilde(scheme: string, user: string, hostname: string, port: string, path: string,
                          malformed: string -> bool)
    requires TransportScheme(scheme) && Uri.PlainUser(user) && Uri.PlainHostname(hostname) && hostname != ""
    requires Uri.AllDigits(port) && Uri.PlainPath(path) && !("/~" <= path)
    requires NoSpace(user) && NoSpace(hostname) && NoSpace(path)
    requires !malformed(UrlText(scheme, user, hostname, port, path))
    ensures var raw := UrlText(scheme, user, hostname, port, path);
      && NoSpace(raw) && Classify(raw) == (if TildeMatches(raw) then TildeUser else Transport)
      && Parse(raw, malformed) == Success(Url(scheme, user, Uri.JoinHostPort(hostname, port), path, "", path))
      && Hostname(Parse(raw, malformed).value) == hostname && Port(Parse(raw, malformed).value) == port
  {
    if !TildeMatches(UrlText(scheme, user, hostname, port, path)) {
      TransportRoundTrip(scheme, user, hostname, port, path, malformed);
    } else {
      TransportTildeLater(scheme, user, hostname, port, path, malformed);
    }
  }

  /** The case of TransportAnyTilde where the tilde pattern matches. */
  lemma TransportTildeLater(scheme: string, user: string, hostname: string, port: string, path: string,
                            malformed: string -> bool)
    requires TransportScheme(scheme) && Uri.PlainUser(user) && Uri.PlainHostname(hostname) && hostname != ""
    requires Uri.AllDigits(port) && Uri.PlainPath(path) && !("/~" <= path)
    requires NoSpace(user) && NoSpace(hostname) && NoSpace(path)
    requires !malformed(UrlText(scheme, user, hostname, port, path))
    requires TildeMatches(UrlText(scheme, user, hostname, port, path))
    ensures var raw := UrlText(scheme, user, hostname, port, path);
      && NoSpace(raw) && Classify(raw) == TildeUser
      && Parse(raw, malformed) == Success(Url(scheme, user, Uri.JoinHostPort(hostname, port), path, "", path))
      && Hostname(Parse(raw, malformed).value) == hostname && Port(Parse(raw, malformed).value) == port
  {
    var raw := UrlText(scheme, user, hostname, port, path);
    var hp := Uri.JoinHostPort(hostname, port);
    HostPortRoundTrip(Url(scheme, user, hp, path, "", path), hostname, port);
    TransportSchemeIsLower(scheme);
    UrlTextNoSpace(scheme, user, hostname, port, path);
    UrlTextParse(scheme, user, hostname, port, path, malformed);
    assert hp != "";
    ParseTildeNoHead(raw, malformed, Uri.Uri(scheme, "", user, hp, path));
  }

  /** The first strategy on a url.Parse result whose path does not open
      with "/~": no tilde user, and the whole path is relative. */
  lemma ParseTildeNoHead(raw: string, malformed: string -> bool, u: Uri.Uri)
    requires NoSpace(raw) && TildeMatches(raw) && Uri.Parse(raw, malformed) == Success(u) && u.host != ""
    requires (u.path == "" || u.path[0] == '/') && !("/~" <= u.path)
    ensures Classify(raw) == TildeUser
    ensures Parse(raw, malformed) == Success(Url(u.scheme, u.user, u.host, u.path, "", u.path))
  {
    NoTildeHead(u);
    assert ParseTildeBase(raw, malformed) == SplitTildePath(u);
    assert Parse(raw, malformed) == ParseTilde(raw, malformed);
  }

  /** A path that does not open with "/~" leaves the first strategy nothing to split. */
  lemma NoTildeHead(u: Uri.Uri)
    requires (u.path == "" || u.path[0] == '/') && !("/~" <= u.path)
    ensures SplitTildePath(u) == Success(Url(u.scheme, u.user, u.host, u.path, "", u.path))
  {
    assert !("~" <= TrimPrefix(u.path, "/"));
  }

  // ---------------------------------------------------------------------
  // Tilde users in SCP-like form: [user@]host:~pathuser/path
  // ---------------------------------------------------------------------

  /** "[user@]host:~pathuser/path" */
  function ScpTildeText(user: string, host: string, pathUser: string, path: string): string {
    Uri.UserPrefix(user) + host + ":~" + pathUser + "/" + path
  }

  /** No scheme's ':' is followed by "//" when the first ':' is followed by '~'. */
  lemma ColonTildeNoAuthority(s: string, h: nat)
    requires 0 < h && h + 1 < |s| && s[0] != '/' && s[h] == ':' && s[h + 1] == '~'
    requires forall j :: 0 <= j < h ==> s[j] != ':'
    ensures !Uri.AuthorityMarked(s)
  {
    forall i | 0 < i < |s| && Uri.SchemeAt(s, i)
      ensures i == h
    {
      assert !Uri.IsSchemeChar(s[h]);
    }
  }

  /** Neither "ssh://" nor "git://" starts a text whose first ':' is
      followed by '~'. */
  lemma ColonTildeNoSchemeGroup(s: string, h: nat)
    requires h + 1 < |s| && s[h] == ':' && s[h + 1] == '~'
    requires forall j :: 0 <= j < h ==> s[j] != ':'
    ensures !("ssh://" <= s) && !("git://" <= s)
  {
    if 3 < h {
      assert s[3] != ':';
    }
  }

  lemma ScpTildeNoSpace(user: string, host: string, pathUser: string, path: string)
    requires NoSpace(user) && NoSpace(host) && NoSpace(pathUser) && NoSpace(path)
    ensures NoSpace(ScpTildeText(user, host, pathUser, path))
  {
    NoSpaceJoin(user, "@");
    var up := Uri.UserPrefix(user);
    assert NoSpace(up);
    NoSpaceJoin(up, host);
    NoSpaceJoin(up + host, ":~");
    NoSpaceJoin(up + host + ":~", pathUser);
    NoSpaceJoin(up + host + ":~" + pathUser, "/");
    NoSpaceJoin(up + host + ":~" + pathUser + "/", path);
  }

  /** Where the parts of an SCP-like tilde text sit. */
  lemma ScpTildeSpells(user: string, host: string, pathUser: string, path: string)
    ensures var s, h := ScpTildeText(user, host, pathUser, path), |Uri.UserPrefix(user)| + |host|;
      && s == Spell(TildeCapture("", user, host, "", ':', pathUser, path))
      && h + 1 < |s| && s[h] == ':' && s[h + 1] == '~'
      && s[..h] == Uri.UserPrefix(user) + host
  {
    var c := TildeCapture("", user, host, "", ':', pathUser, path);
    var s := ScpTildeText(user, host, pathUser, path);
    assert UserPart(c) == Uri.UserPrefix(user);
    assert Head(c) == Uri.UserPrefix(user) + host;
    assert s == Head(c) + Tail(c);
  }

  /** The first ':' of an SCP-like tilde text is the one before '~'. */
  lemma ScpTildeFirstColon(user: string, host: string, pathUser: string, path: string)
    requires Uri.PlainUser(user) && host != "" && ':' !in host && '/' !in host
    ensures var s, h := ScpTildeText(user, host, pathUser, path), |Uri.UserPrefix(user)| + |host|;
      && 0 < h && h + 1 < |s| && s[0] != '/' && s[h] == ':' && s[h + 1] == '~'
      && forall j :: 0 <= j < h ==> s[j] != ':'
  {
    var s := ScpTildeText(user, host, pathUser, path);
    var h := |Uri.UserPrefix(user)| + |host|;
    ScpTildeSpells(user, host, pathUser, path);
    var front := Uri.UserPrefix(user) + host;
    assert ':' !in front && '/' !in front;
    forall j | 0 <= j < h
      ensures s[j] != ':'
    {
      assert s[j] == front[j];
    }
    assert s[0] == front[0];
  }

  /** A tilde text url.Parse finds no host in is filled by the capture loop. */
  lemma ParseTildeByCaptures(raw: string, malformed: string -> bool)
    requires NoSpace(raw) && TildeMatches(raw) && !Uri.AuthorityMarked(raw)
    ensures var c := TildeCaptureOf(raw);
      && Classify(raw) == TildeUser
      && Parse(raw, malformed) == Success(Url(c.scheme, c.user, c.host,
           if c.path == "" then "" else "~" + c.pathUser + "/" + c.path, c.pathUser, c.path))
  {
    var base := ParseTildeBase(raw, malformed);
    assert !HasHost(Uri.Parse(raw, malformed));
    assert base.Failure? && base.error != IndexOutOfRange;
    var r := ParseTilde(raw, malformed);
    assert r.Success?;
    assert Parse(raw, malformed) == r;
  }

  /** An SCP-like tilde text defeats url.Parse (it finds no host), so the
      capture loop (the second strategy) fills the record: no scheme, the
      path rebuilt as "~pathuser/path" (left EMPTY when the path after
      "~pathuser/" is empty) and the relative path as written. */
  lemma TildeScpRoundTrip(user: string, host: string, pathUser: string, path: string,
                          malformed: string -> bool)
    requires Uri.PlainUser(user) && '~' !in user
    requires host != "" && ':' !in host && '/' !in host && '@' !in host && '~' !in host
    requires pathUser != "" && '/' !in pathUser && '~' !in pathUser && '~' !in path
    requires NoSpace(user) && NoSpace(host) && NoSpace(pathUser) && NoSpace(path)
    ensures var raw := ScpTildeText(user, host, pathUser, path);
      && NoSpace(raw) && Classify(raw) == TildeUser
      && Parse(raw, malformed) == Success(Url("", user, host,
           if path == "" then "" else "~" + pathUser + "/" + path, pathUser, path))
  {
    var s := ScpTildeText(user, host, pathUser, path);
    var h := |Uri.UserPrefix(user)| + |host|;
    ScpTildeNoSpace(user, host, pathUser, path);
    ScpTildeSpells(user, host, pathUser, path);
    ScpTildeFirstColon(user, host, pathUser, path);
    ColonTildeNoSchemeGroup(s, h);
    TildeCaptureIs(s, TildeCapture("", user, host, "", ':', pathUser, path));
    ColonTildeNoAuthority(s, h);
    ParseTildeByCaptures(s, malformed);
  }

  // ---------------------------------------------------------------------
  // SCP-like addresses: user@host:path
  // ---------------------------------------------------------------------

  /** An SCP-like address is split at its '@' and its last ':' under the
      scheme "git+ssh"; the path is also the relative path. */
  lemma ScpRoundTrip(user: string, host: string, path: string, malformed: string -> bool)
    requires user != "" && host != "" && path != ""
    requires ':' !in user && '@' !in host && ':' !in path
    requires '~' !in user && '~' !in host && '~' !in path
    requires NoSpace(user) && NoSpace(host) && NoSpace(path)
    ensures var raw := user + "@" + host + ":" + path;
      && NoSpace(raw) && Classify(raw) == ScpLike
      && Parse(raw, malformed) == Success(Url("git+ssh", user, host, path, "", path))
  {
    var raw := user + "@" + host + ":" + path;
    NoSpaceJoin(user, "@");
    NoSpaceJoin(user + "@", host);
    NoSpaceJoin(user + "@" + host, ":");
    NoSpaceJoin(user + "@" + host + ":", path);
    assert '~' !in raw;
    NoTildeNoMatch(raw);
    assert raw[|user|] == '@' && raw[..|user|] == user;
    AtBeforeColonNoTransport(raw, |user|);
    ScpCaptureIs(raw, ScpCapture(user, host, path));
  }

  // ---------------------------------------------------------------------
  // Local paths
  // ---------------------------------------------------------------------

  /** An absolute local path is read by url.Parse as a bare path; a ':'
      in it is harmless, as the colon rule only applies to a relative
      first segment. */
  lemma LocalPathRoundTrip(path: string, malformed: string -> bool)
    requires Uri.PlainPath(path) && path != "" && !("//" <= path)
    requires ('@' !in path || ':' !in path) && !TildeMatches(path) && NoSpace(path) && !malformed(path)
    ensures Classify(path) == LocalPath
    ensures Parse(path, malformed) == Success(Url("", "", "", path, "", path))
  {
    if '@' in path {
      NoColonNoScp(path);
    } else {
      NoAtNoScp(path);
    }
    Uri.PathForm(path, malformed);
    ParseAsUri(path, malformed, Uri.Uri("", "", "", "", path));
  }

  /** "file://" holds no '@', and the path no ':' or no '@'. */
  lemma FileNotScp(path: string)
    requires ':' !in path || '@' !in path
    ensures !ScpMatches("file://" + path)
  {
    var raw := "file://" + path;
    if '@' !in path {
      assert forall j :: 0 <= j < 7 ==> raw[j] != '@';
      NotInJoin('@', "file://", path);
      NoAtNoScp(raw);
    } else {
      FileNotScpColon(path);
    }
  }

  lemma FileNotScpColon(path: string)
    requires ':' !in path
    ensures !ScpMatches("file://" + path)
  {
    var raw := "file://" + path;
    forall j | 7 <= j < |raw|
      ensures raw[j] != ':'
    {
      assert raw[j] == path[j - 7];
    }
    assert forall j :: 0 <= j < 7 ==> raw[j] != '@';
  }

  /** No transport scheme starts with "fi". */
  lemma FileNotTransport(path: string)
    ensures !TransportMatches("file://" + path)
  {
    var raw := "file://" + path;
    assert raw[0] == 'f' && raw[1] == 'i';
  }

  /** A file URL gives the scheme "file", no host, and the path. */
  lemma FileRoundTrip(path: string, malformed: string -> bool)
    requires Uri.PlainPath(path) && path != ""
    requires ('@' !in path || ':' !in path) && !TildeMatches("file://" + path)
    requires NoSpace(path) && !malformed("file://" + path)
    ensures NoSpace("file://" + path) && Classify("file://" + path) == LocalPath
    ensures Parse("file://" + path, malformed) == Success(Url("file", "", "", path, "", path))
  {
    var raw := "file://" + path;
    NoSpaceJoin("file://", path);
    FileNotScp(path);
    FileNotTransport(path);
    Uri.FileForm(path, malformed);
    ParseAsUri(raw, malformed, Uri.Uri("file", "", "", "", path));
  }
}
