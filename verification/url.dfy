/** The record the parser returns (url.go) and what is derived from it:
    the slug and url.URL's Hostname and Port accessors. */
module GitUrl {
  import opened Strings
  import Uri

  /** url.go's URL: the embedded url.URL reduced to the fields the package
      reads, plus the tilde-user fields.  `user` is User.Username() and
      `pathUser` is PathUser.Username() ("" for an empty Userinfo); `host`
      is url.URL.Host, "hostname[:port]". */
  datatype Url = Url(
    scheme: string, user: string, host: string, path: string,
    pathUser: string, pathRelative: string)

  /** Slug: drop one trailing "/", then one ".git" suffix, then one leading "/".
      It reads pathRelative only; the result is a slice of it that lost at
      most one character in front and at most five behind. */
  function Slug(u: Url): (r: string)
    ensures exists i, j :: 0 <= i <= 1 && i <= j <= |u.pathRelative| && |u.pathRelative| - j <= 5
                           && r == u.pathRelative[i..j]
  {
    var p := u.pathRelative;
    var noSlash := TrimSuffix(p, "/");
    var noGit := TrimSuffix(noSlash, ".git");
    var r := TrimPrefix(noGit, "/");
    assert noSlash == p[..|noSlash|];
    assert noGit == p[..|noGit|];
    assert r == p[|noGit| - |r|..|noGit|];
    r
  }

  /** A path with none of the affixes Slug removes. */
  predicate Plain(p: string) {
    !("/" <= p) && !HasSuffix(p, "/") && !HasSuffix(p, ".git")
  }

  /** `p` with an optional leading "/", ".git" suffix and trailing "/". */
  function Decorate(p: string, lead: bool, git: bool, trail: bool): string {
    (if lead then "/" else "") + p + (if git then ".git" else "") + (if trail then "/" else "")
  }

  /** Slug undoes every decoration of a plain path, one affix each. */
  lemma SlugUndecorates(u: Url, p: string, lead: bool, git: bool, trail: bool)
    requires Plain(p) && u.pathRelative == Decorate(p, lead, git, trail)
    ensures Slug(u) == p
  {
    if p == "" {
      SlugOfAffixesAlone(u, lead, git, trail);
    } else {
      DropTrailingSlash(p, lead, git, trail);
      DropGit(p, lead, git);
      DropLeadingSlash(p, lead);
    }
  }

  lemma SlugOfAffixesAlone(u: Url, lead: bool, git: bool, trail: bool)
    requires u.pathRelative == Decorate("", lead, git, trail)
    ensures Slug(u) == ""
  {
    var d := Decorate("", lead, git, trail);
    if lead && git && trail {
      assert d == "/.git/";
    } else if lead && git {
      assert d == "/.git";
    } else if lead && trail {
      assert d == "//";
    } else if git && trail {
      assert d == ".git/";
    } else if git {
      assert d == ".git";
    } else if lead || trail {
      assert d == "/";
    } else {
      assert d == "";
    }
  }

  lemma DropTrailingSlash(p: string, lead: bool, git: bool, trail: bool)
    requires Plain(p) && p != ""
    ensures TrimSuffix(Decorate(p, lead, git, trail), "/") == Decorate(p, lead, git, false)
  {
    assert Decorate(p, lead, git, trail) == Decorate(p, lead, git, false) + (if trail then "/" else "");
  }

  lemma DropGit(p: string, lead: bool, git: bool)
    requires Plain(p) && p != ""
    ensures TrimSuffix(Decorate(p, lead, git, false), ".git") == Decorate(p, lead, false, false)
  {
    var d := Decorate(p, lead, false, false);
    assert Decorate(p, lead, git, false) == d + (if git then ".git" else "");
    assert 4 <= |p| ==> d[|d| - 4..] == p[|p| - 4..];
    assert |p| < 4 && 4 <= |d| ==> d[|d| - 4..][0] == d[0];
  }

  lemma DropLeadingSlash(p: string, lead: bool)
    requires Plain(p)
    ensures TrimPrefix(Decorate(p, lead, false, false), "/") == p
  {
    assert Decorate(p, lead, false, false) == (if lead then "/" else "") + p;
  }

  /** `p` is `q` decorated, and each flag says exactly whether that affix
      ends the text at the step Slug looks for it: a trailing "/" of `p`,
      then ".git", then a leading "/".  `q` itself may begin with "/" or end
      with "/" or ".git"; those are kept. */
  predicate Peels(p: string, q: string, lead: bool, git: bool, trail: bool) {
    && p == Decorate(q, lead, git, trail)
    && (!trail ==> !HasSuffix(Decorate(q, lead, git, false), "/"))
    && (!git ==> !HasSuffix(Decorate(q, lead, false, false), ".git"))
    && (!lead ==> !("/" <= q))
  }

  /** Slug removes each affix once, whatever the rest of the path holds:
      "//x" gives "/x", "a.git.git" gives "a.git", "x//" gives "x/". */
  lemma SlugStripsOnce(u: Url, q: string, lead: bool, git: bool, trail: bool)
    requires Peels(u.pathRelative, q, lead, git, trail)
    ensures Slug(u) == q
  {
    var p1 := Decorate(q, lead, git, false);
    var p2 := Decorate(q, lead, false, false);
    DecorateSteps(q, lead, git, trail);
    TrimOptionalSuffix(p1, "/", trail);
    assert TrimSuffix(u.pathRelative, "/") == p1;
    TrimOptionalSuffix(p2, ".git", git);
    assert TrimSuffix(p1, ".git") == p2;
    TrimOptionalPrefix(q, "/", lead);
  }

  /** TrimPrefix removes a prefix that was prepended, and nothing when the
      text does not start with it. */
  lemma TrimOptionalPrefix(x: string, prefix: string, prepended: bool)
    requires !prepended ==> !(prefix <= x)
    ensures TrimPrefix((if prepended then prefix else "") + x, prefix) == x
  {
    var y := (if prepended then prefix else "") + x;
    if prepended {
      assert y[..|prefix|] == prefix;
      assert y[|prefix|..] == x;
    } else {
      assert y == x;
    }
  }

  /** TrimSuffix removes a suffix that was appended, and nothing when the
      text does not end with it. */
  lemma TrimOptionalSuffix(x: string, suffix: string, appended: bool)
    requires !appended ==> !HasSuffix(x, suffix)
    ensures TrimSuffix(x + (if appended then suffix else ""), suffix) == x
  {
    var y := x + (if appended then suffix else "");
    if appended {
      assert y[|y| - |suffix|..] == suffix;
      assert y[..|y| - |suffix|] == x;
    } else {
      assert y == x;
    }
  }

  /** Decorate adds its affixes one after the other. */
  lemma DecorateSteps(q: string, lead: bool, git: bool, trail: bool)
    ensures Decorate(q, lead, false, false) == (if lead then "/" else "") + q
    ensures Decorate(q, lead, git, false) == Decorate(q, lead, false, false) + (if git then ".git" else "")
    ensures Decorate(q, lead, git, trail) == Decorate(q, lead, git, false) + (if trail then "/" else "")
  {
  }

  /** TrimSuffix leaves what, with the suffix put back when it was there,
      rebuilds the text. */
  lemma SplitOptionalSuffix(x: string, suffix: string)
    ensures x == TrimSuffix(x, suffix) + (if HasSuffix(x, suffix) then suffix else "")
    ensures !HasSuffix(x, suffix) ==> !HasSuffix(TrimSuffix(x, suffix), suffix)
  {
  }

  /** Every relative path peels into some core and flags, so SlugStripsOnce
      settles Slug on all inputs. */
  lemma PeelsExist(p: string)
    ensures exists q, lead, git, trail :: Peels(p, q, lead, git, trail)
  {
    var trail := HasSuffix(p, "/");
    var p1 := TrimSuffix(p, "/");
    SplitOptionalSuffix(p, "/");
    var git := HasSuffix(p1, ".git");
    var p2 := TrimSuffix(p1, ".git");
    SplitOptionalSuffix(p1, ".git");
    var lead := "/" <= p2;
    var q := TrimPrefix(p2, "/");
    assert p2 == (if lead then "/" else "") + q;
    DecorateSteps(q, lead, git, trail);
    assert Decorate(q, lead, false, false) == p2;
    assert Decorate(q, lead, git, false) == p1;
    assert Peels(p, q, lead, git, trail);
  }

  /** splitHostPort: a trailing ":digits" is the port, and one pair of
      brackets around the hostname is dropped. */
  function SplitHostPort(hostPort: string): (r: (string, string))
    ensures r.1 != "" ==> HasSuffix(hostPort, ":" + r.1) && Uri.AllDigits(r.1)
    ensures r.1 == "" ==> |r.0| <= |hostPort|
  {
    var colon := LastIndexOf(hostPort, ':');
    var (h, p) :=
      if colon.Some? && Uri.ValidOptionalPort(hostPort[colon.value..])
      then (hostPort[..colon.value], hostPort[colon.value + 1..])
      else (hostPort, "");
    assert p != "" ==> hostPort[colon.value..] == ":" + p;
    if "[" <= h && HasSuffix(h, "]") && 2 <= |h| then (h[1..|h| - 1], p) else (h, p)
  }

  /** url.URL.Hostname() */
  function Hostname(u: Url): string {
    SplitHostPort(u.host).0
  }

  /** url.URL.Port() */
  function Port(u: Url): string {
    SplitHostPort(u.host).1
  }

  /** Writing a hostname and a port as "hostname:port" and reading them
      back gives both; without a port the hostname is the whole host. */
  lemma HostPortRoundTrip(u: Url, hostname: string, port: string)
    requires ':' !in hostname && !("[" <= hostname) && Uri.AllDigits(port)
    requires u.host == hostname + (if port == "" then "" else ":" + port)
    ensures Hostname(u) == hostname && Port(u) == port
  {
    if port != "" {
      assert u.host == hostname + [':'] + port;
      SplitHostWithPort(hostname, port);
    } else {
      assert u.host == hostname;
      SplitHostAlone(hostname);
    }
  }

  lemma SplitHostAlone(hostname: string)
    requires ':' !in hostname && !("[" <= hostname)
    ensures SplitHostPort(hostname) == (hostname, "")
  {
    assert LastIndexOf(hostname, ':').None?;
  }

  lemma SplitHostWithPort(hostname: string, port: string)
    requires ':' !in hostname && !("[" <= hostname) && Uri.AllDigits(port) && port != ""
    ensures SplitHostPort(hostname + [':'] + port) == (hostname, port)
  {
    var h := hostname + [':'] + port;
    LastIndexOfJoin(hostname, ':', port);
    assert h[|hostname|..] == ":" + port;
    assert (":" + port)[1..] == port;
    assert h[..|hostname|] == hostname && h[|hostname| + 1..] == port;
    assert Uri.ValidOptionalPort(h[|hostname|..]);
    assert !("[" <= hostname);
  }
}
