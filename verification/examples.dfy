/** Rows of the package's test table and its documented example, each
    obtained from the round-trip lemmas, plus texts no grammar accepts.
    Each text is given as the builder applied to its parts; the doc
    comment spells it out. */
module GitExamples {
  import opened Wrappers
  import opened Grammar
  import Uri
  import opened GitUrl
  import opened GitParse
  import opened GitProperties

  /** A path is plain when its ends rule the affixes out. */
  lemma PlainByEnds(p: string)
    requires 0 < |p| && p[0] != '/' && p[|p| - 1] != '/' && p[|p| - 1] != 't'
    ensures Plain(p)
  {
    assert "/"[0] == '/';
    assert 4 <= |p| ==> p[|p| - 4..][3] == p[|p| - 1];
  }

  // Helpers: character facts about the literal parts of the rows below.
  // They discharge the rows' preconditions and state nothing about the parser.

  /** Letters, digits, '/', '-' and '.': the characters of the parts used below. */
  predicate TameChar(c: char) {
    'a' <= c <= 'z' || '0' <= c <= '9' || c == '/' || c == '-' || c == '.'
  }

  predicate Tame(s: string) {
    forall i :: 0 <= i < |s| ==> TameChar(s[i])
  }

  lemma TameFacts(s: string)
    requires Tame(s)
    ensures ':' !in s && '@' !in s && '?' !in s && '#' !in s && '%' !in s && '~' !in s && NoSpace(s)
  {
  }

  lemma HostFacts()
    ensures Uri.PlainHostname("githost.example") && '~' !in "githost.example" && NoSpace("githost.example")
  {
    assert Tame("githost.example") && '/' !in "githost.example";
    TameFacts("githost.example");
    assert "githost.example"[0] == 'g';
  }

  lemma GithubFacts()
    ensures Uri.PlainHostname("github.com") && '~' !in "github.com" && NoSpace("github.com")
    ensures ':' !in "github.com" && '/' !in "github.com" && '@' !in "github.com"
  {
    assert Tame("github.com") && '/' !in "github.com";
    TameFacts("github.com");
    assert "github.com"[0] == 'g';
  }

  lemma UserFacts()
    ensures Uri.PlainUser("foo") && '~' !in "foo" && '%' !in "foo" && NoSpace("foo") && '/' !in "foo"
  {
  }

  lemma RepoFacts()
    ensures '?' !in "dosquad/go-giturl.git" && '#' !in "dosquad/go-giturl.git" && '%' !in "dosquad/go-giturl.git"
    ensures '~' !in "dosquad/go-giturl.git" && ':' !in "dosquad/go-giturl.git"
    ensures NoSpace("dosquad/go-giturl.git")
  {
    assert Tame("dosquad/go-giturl.git");
    TameFacts("dosquad/go-giturl.git");
  }

  lemma RepoPathFacts()
    ensures Uri.PlainPath("/path/to/git/repo") && '~' !in "/path/to/git/repo" && NoSpace("/path/to/git/repo")
  {
    assert Tame("/path/to/git/repo");
    TameFacts("/path/to/git/repo");
  }

  lemma LocalPathFacts()
    ensures Uri.PlainPath("/path/to/repo.git/") && !("//" <= "/path/to/repo.git/")
    ensures ':' !in "/path/to/repo.git/" && '~' !in "/path/to/repo.git/" && NoSpace("/path/to/repo.git/")
  {
    assert Tame("/path/to/repo.git/");
    TameFacts("/path/to/repo.git/");
    assert "/path/to/repo.git/"[1] == 'p';
  }

  /** ssh://foo@githost.example:1234/path/to/git/repo */
  lemma SshUserPort(raw: string, malformed: string -> bool)
    requires raw == UrlText("ssh", "foo", "githost.example", "1234", "/path/to/git/repo") && !malformed(raw)
    ensures NoSpace(raw)
    ensures Parse(raw, malformed)
         == Success(Url("ssh", "foo", Uri.JoinHostPort("githost.example", "1234"), "/path/to/git/repo", "",
                     "/path/to/git/repo"))
    ensures Hostname(Parse(raw, malformed).value) == "githost.example"
    ensures Port(Parse(raw, malformed).value) == "1234"
  {
    HostFacts();
    UserFacts();
    RepoPathFacts();
    assert Uri.AllDigits("1234");
    UrlTextTildeFree("ssh", "foo", "githost.example", "1234", "/path/to/git/repo");
    TransportRoundTrip("ssh", "foo", "githost.example", "1234", "/path/to/git/repo", malformed);
  }

  /** https://githost.example/path/to/git/repo */
  lemma HttpsNoPort(raw: string, malformed: string -> bool)
    requires raw == UrlText("https", "", "githost.example", "", "/path/to/git/repo") && !malformed(raw)
    ensures NoSpace(raw)
    ensures Parse(raw, malformed)
         == Success(Url("https", "", "githost.example", "/path/to/git/repo", "", "/path/to/git/repo"))
    ensures Port(Parse(raw, malformed).value) == ""
  {
    HostFacts();
    RepoPathFacts();
    UrlTextTildeFree("https", "", "githost.example", "", "/path/to/git/repo");
    TransportRoundTrip("https", "", "githost.example", "", "/path/to/git/repo", malformed);
  }

  /** https://h/~u: a '~' the tilde pattern cannot use, since no '/' closes
      the user, leaves the text a transport URL with "/~u" as its path. */
  lemma HttpsUnclosedTilde(raw: string, malformed: string -> bool)
    requires raw == UrlText("https", "", "h", "", "/~u") && !malformed(raw)
    ensures NoSpace(raw)
    ensures Parse(raw, malformed) == Success(Url("https", "", "h", "/~u", "", "/~u"))
  {
    assert raw == "https://h/~u";
    forall k | 1 <= k < |raw|
      ensures !ValidSep(raw, k)
    {
      if k + 2 < |raw| && raw[k + 1] == '~' {
        assert k == 9 && raw[k + 3..] == "";
      }
    }
    assert "h"[0] == 'h';
    assert Uri.PlainHostname("h") && Uri.PlainPath("/~u") && Uri.PlainUser("");
    TransportRoundTrip("https", "", "h", "", "/~u", malformed);
  }

  /** https://h/g/~u/r: the tilde pattern matches "/~u/", but the path does
      not open with "/~", so the record is the plain transport one. */
  lemma HttpsTildeLater(raw: string, malformed: string -> bool)
    requires raw == UrlText("https", "", "h", "", "/g/~u/r") && !malformed(raw)
    ensures NoSpace(raw) && Classify(raw) == TildeUser
    ensures Parse(raw, malformed) == Success(Url("https", "", "h", "/g/~u/r", "", "/g/~u/r"))
  {
    assert raw == "https://h/g/~u/r";
    assert ValidSep(raw, 11) by {
      assert raw[14..] == "/r";
    }
    assert "h"[0] == 'h' && "/g/~u/r"[1] == 'g';
    assert Uri.PlainHostname("h") && Uri.PlainPath("/g/~u/r") && Uri.PlainUser("");
    TransportAnyTilde("https", "", "h", "", "/g/~u/r", malformed);
  }

  /** git@github.com:dosquad/go-giturl.git, the documented example. */
  lemma ScpExample(raw: string, malformed: string -> bool)
    requires raw == "git" + "@" + "github.com" + ":" + "dosquad/go-giturl.git"
    ensures NoSpace(raw)
    ensures Parse(raw, malformed)
         == Success(Url("git+ssh", "git", "github.com", "dosquad/go-giturl.git", "", "dosquad/go-giturl.git"))
    ensures Hostname(Parse(raw, malformed).value) == "github.com" && Port(Parse(raw, malformed).value) == ""
  {
    GithubFacts();
    RepoFacts();
    assert ':' !in "git" && '~' !in "git" && NoSpace("git");
    ScpRoundTrip("git", "github.com", "dosquad/go-giturl.git", malformed);
    HostPortRoundTrip(Parse(raw, malformed).value, "github.com", "");
  }

  /** ssh://github.com:1111/~foo/dosquad/go-giturl.git */
  lemma SshTildeUser(raw: string, malformed: string -> bool)
    requires raw == UrlText("ssh", "", "github.com", "1111", "/~" + "foo" + "/" + "dosquad/go-giturl.git")
    requires !malformed(raw)
    ensures NoSpace(raw)
    ensures Parse(raw, malformed)
         == Success(Url("ssh", "", Uri.JoinHostPort("github.com", "1111"), "/~" + "foo" + "/" + "dosquad/go-giturl.git",
                     "foo", "dosquad/go-giturl.git"))
  {
    GithubFacts();
    UserFacts();
    RepoFacts();
    assert Uri.AllDigits("1111");
    TildeUriRoundTrip("ssh", "", "github.com", "1111", "foo", "dosquad/go-giturl.git", malformed);
  }

  /** bar@github.com:~foo/dosquad/go-giturl.git: the capture loop leaves
      the scheme empty (the table's scheme column is not compared). */
  lemma ScpTildeUser(raw: string, malformed: string -> bool)
    requires raw == ScpTildeText("bar", "github.com", "foo", "dosquad/go-giturl.git")
    ensures NoSpace(raw)
    ensures Parse(raw, malformed)
         == Success(Url("", "bar", "github.com", "~" + "foo" + "/" + "dosquad/go-giturl.git", "foo",
                     "dosquad/go-giturl.git"))
  {
    GithubFacts();
    UserFacts();
    RepoFacts();
    assert Uri.PlainUser("bar") && '~' !in "bar" && NoSpace("bar");
    TildeScpRoundTrip("bar", "github.com", "foo", "dosquad/go-giturl.git", malformed);
  }

  /** github.com:~foo/ : nothing follows "~foo/", and the capture loop
      leaves the path empty. */
  lemma ScpTildeEmptyPath(raw: string, malformed: string -> bool)
    requires raw == ScpTildeText("", "github.com", "foo", "")
    ensures NoSpace(raw)
    ensures Parse(raw, malformed) == Success(Url("", "", "github.com", "", "foo", ""))
  {
    TildeScpRoundTrip("", "github.com", "foo", "", malformed);
  }

  /** /path/to/repo.git/: a local path has no scheme (the table's "file"
      is not compared). */
  lemma LocalPathExample(raw: string, malformed: string -> bool)
    requires raw == "/path/to/repo.git/" && !malformed(raw)
    ensures NoSpace(raw)
    ensures Parse(raw, malformed) == Success(Url("", "", "", "/path/to/repo.git/", "", "/path/to/repo.git/"))
  {
    LocalPathFacts();
    NoTildeNoMatch(raw);
    LocalPathRoundTrip(raw, malformed);
  }

  /** file:///path/to/repo.git/ */
  lemma FileExample(raw: string, malformed: string -> bool)
    requires raw == "file://" + "/path/to/repo.git/" && !malformed(raw)
    ensures NoSpace(raw)
    ensures Parse(raw, malformed) == Success(Url("file", "", "", "/path/to/repo.git/", "", "/path/to/repo.git/"))
  {
    LocalPathFacts();
    NotInJoin('~', "file://", "/path/to/repo.git/");
    NoTildeNoMatch("file://" + "/path/to/repo.git/");
    FileRoundTrip("/path/to/repo.git/", malformed);
  }

  /** The slugs of the table: one leading "/" and one ".git" and one
      trailing "/" go. */
  lemma SlugOfRepoPath(u: Url)
    requires u.pathRelative == "/path/to/git/repo"
    ensures Slug(u) == "path/to/git/repo"
  {
    PlainByEnds("path/to/git/repo");
    SlugUndecorates(u, "path/to/git/repo", true, false, false);
  }

  lemma SlugOfGitPath(u: Url)
    requires u.pathRelative == "dosquad/go-giturl.git"
    ensures Slug(u) == "dosquad/go-giturl"
  {
    PlainByEnds("dosquad/go-giturl");
    SlugUndecorates(u, "dosquad/go-giturl", false, true, false);
  }

  lemma SlugOfLocalPath(u: Url)
    requires u.pathRelative == "/path/to/repo.git/"
    ensures Slug(u) == "path/to/repo"
  {
    PlainByEnds("path/to/repo");
    SlugUndecorates(u, "path/to/repo", true, true, true);
  }

  /** Affixes beyond the first of each kind stay in the slug. */
  lemma SlugKeepsSecondLead(u: Url)
    requires u.pathRelative == "//x"
    ensures Slug(u) == "/x"
  {
    assert Decorate("/x", true, false, false) == "//x";
    SlugStripsOnce(u, "/x", true, false, false);
  }

  lemma SlugKeepsSecondGit(u: Url)
    requires u.pathRelative == "a.git.git"
    ensures Slug(u) == "a.git"
  {
    assert Decorate("a.git", false, true, false) == "a.git.git";
    SlugStripsOnce(u, "a.git", false, true, false);
  }

  lemma SlugKeepsSecondTrail(u: Url)
    requires u.pathRelative == "x//"
    ensures Slug(u) == "x/"
  {
    assert Decorate("x/", false, false, true) == "x//";
    assert Decorate("x/", false, false, false) == "x/";
    assert "x/"[0] == 'x';
    SlugStripsOnce(u, "x/", false, false, true);
  }

  /** The empty text belongs to no family. */
  lemma UnknownEmpty(malformed: string -> bool)
    ensures Parse("", malformed) == Failure(UnknownSyntax)
  {
    NoTildeNoMatch("");
  }

  /** Nor does a bare word. */
  lemma UnknownWord(raw: string, malformed: string -> bool)
    requires raw == "notaurl"
    ensures NoSpace(raw)
    ensures Parse(raw, malformed) == Failure(UnknownSyntax)
  {
    assert Tame(raw);
    TameFacts(raw);
    assert raw[0] == 'n';
    NoTildeNoMatch(raw);
    NoColonNoScp(raw);
  }
}
