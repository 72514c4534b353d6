/** A model of the part of Go's `net/url.Parse` that decides the fields the
    repository parser reads: the fragment and query cuts, `getScheme`, the
    opaque form, the relative-reference colon rule, the authority split at the
    last '@' and the port check of `parseHost`.  The character-level checks
    (control bytes, percent-escapes, characters allowed in a userinfo or a
    host) are not spelled out: the caller supplies them as `malformed`.
    Percent-decoding is not modelled; every field is the raw text. */
module Uri {
  import opened Wrappers
  import opened Strings

  datatype UriError =
    | MissingScheme        // the input starts with ':'
    | ColonInFirstSegment  // a relative reference whose first segment holds ':'
    | MissingBracket       // a host "[..." without a closing ']'
    | InvalidPort          // the ":port" after the host is not all digits
    | Rejected             // one of the character-level checks `malformed` stands for

  /** The fields of a parsed `url.URL` the parser reads; `user` is
      `Userinfo.Username()`, "" when there is no userinfo. */
  datatype Uri = Uri(scheme: string, opaqueText: string, user: string, host: string, path: string)

  predicate IsLetter(c: char) {
    'a' <= c <= 'z' || 'A' <= c <= 'Z'
  }

  predicate IsDigit(c: char) {
    '0' <= c <= '9'
  }

  predicate IsSchemeChar(c: char) {
    IsLetter(c) || IsDigit(c) || c == '+' || c == '-' || c == '.'
  }

  predicate AllDigits(s: string) {
    forall i :: 0 <= i < |s| ==> IsDigit(s[i])
  }

  /** `s[..i]` is a URI scheme: a letter, then scheme characters, ended by the ':' at `i`. */
  predicate SchemeAt(s: string, i: int) {
    0 < i < |s| && s[i] == ':' && IsLetter(s[0]) && forall j :: 0 < j < i ==> IsSchemeChar(s[j])
  }

  /** A string holds at most one scheme: ':' is not a scheme character. */
  lemma SchemeAtUnique(s: string, i: int, j: int)
    requires SchemeAt(s, i) && SchemeAt(s, j)
    ensures i == j
  {
  }

  function ScanScheme(s: string, i: nat): (r: Result<Option<nat>, UriError>)
    requires i <= |s|
    requires 0 < i ==> IsLetter(s[0])
    requires forall j :: 0 < j < i ==> IsSchemeChar(s[j])
    ensures r.Failure? <==> i == 0 && 0 < |s| && s[0] == ':'
    ensures r.Failure? ==> r.error == MissingScheme
    ensures r.Success? && r.value.Some? ==> SchemeAt(s, r.value.value)
    ensures r.Success? && r.value.None? ==> forall k :: i <= k ==> !SchemeAt(s, k)
    decreases |s| - i
  {
    if i == |s| then Success(None)
    else if IsLetter(s[i]) then ScanScheme(s, i + 1)
    else if IsDigit(s[i]) || s[i] == '+' || s[i] == '-' || s[i] == '.' then
      if i == 0 then Success(None) else ScanScheme(s, i + 1)
    else if s[i] == ':' then
      if i == 0 then Failure(MissingScheme) else Success(Some(i))
    else Success(None)
  }

  /** getScheme: the position of the ':' that ends a leading scheme, if any.
      A leading ':' is the "missing protocol scheme" error. */
  function GetScheme(s: string): (r: Result<Option<nat>, UriError>)
    ensures r.Failure? <==> 0 < |s| && s[0] == ':'
    ensures r.Failure? ==> r.error == MissingScheme
    ensures r.Success? && r.value.Some? ==> SchemeAt(s, r.value.value)
    ensures r.Success? && r.value.None? ==> forall k :: !SchemeAt(s, k)
  {
    ScanScheme(s, 0)
  }

  function LowerChar(c: char): char {
    if 'A' <= c <= 'Z' then (c as int + 32) as char else c
  }

  /** strings.ToLower restricted to ASCII, which is all a scheme can hold. */
  function Lower(s: string): (r: string)
    ensures |r| == |s|
    ensures forall i :: 0 <= i < |s| ==> r[i] == LowerChar(s[i])
  {
    seq(|s|, i requires 0 <= i < |s| => LowerChar(s[i]))
  }

  /** validOptionalPort */
  predicate ValidOptionalPort(p: string) {
    p == "" || (p[0] == ':' && AllDigits(p[1..]))
  }

  /** The port check of parseHost; the host text itself is kept as written. */
  function CheckHost(host: string): (r: Result<string, UriError>)
    ensures r.Success? ==> r.value == host
    ensures r.Failure? ==> r.error == MissingBracket || r.error == InvalidPort
    ensures !("[" <= host) && ':' !in host ==> r.Success?
  {
    if "[" <= host then
      match LastIndexOf(host, ']')
      case None => Failure(MissingBracket)
      case Some(i) => if ValidOptionalPort(host[i + 1..]) then Success(host) else Failure(InvalidPort)
    else
      match LastIndexOf(host, ':')
      case None => Success(host)
      case Some(i) => if ValidOptionalPort(host[i..]) then Success(host) else Failure(InvalidPort)
  }

  /** Userinfo.Username(): the userinfo up to its first ':' (the rest is the password). */
  function Username(userinfo: string): (r: string)
    ensures r <= userinfo && ':' !in r
  {
    Before(userinfo, ':')
  }

  /** parseAuthority: the userinfo is everything before the LAST '@'. */
  function ParseAuthority(authority: string): (r: Result<(string, string), UriError>)
    ensures r.Success? ==> '@' !in r.value.1 && HasSuffix(authority, r.value.1)
    ensures r.Success? && '@' !in authority ==> r.value == ("", authority)
  {
    match LastIndexOf(authority, '@')
    case None =>
      var host :- CheckHost(authority);
      Success(("", host))
    case Some(i) =>
      var host :- CheckHost(authority[i + 1..]);
      Success((Username(authority[..i]), host))
  }

  /** The input announces an authority: it starts with "//", or its scheme's
      ':' is followed by "//". */
  predicate AuthorityMarked(raw: string) {
    "//" <= raw || exists i :: 0 < i < |raw| && SchemeAt(raw, i) && "//" <= raw[i + 1..]
  }

  /** The part of url.Parse after the scheme: `rest` has already lost its
      fragment and query. */
  function ParseReference(scheme: string, rest: string): (r: Result<Uri, UriError>)
    requires '#' !in rest && '?' !in rest
    ensures r.Failure? ==> r.error != Rejected && r.error != MissingScheme
    ensures r.Success? ==> r.value.scheme == scheme
    ensures r.Success? ==> '#' !in r.value.path && '?' !in r.value.path
    ensures r.Success? ==> '/' !in r.value.host && '@' !in r.value.host
    ensures r.Success? && r.value.host != "" ==> "//" <= rest
  {
    if !("/" <= rest) && scheme != "" then
      Success(Uri(scheme, rest, "", "", ""))
    else if !("/" <= rest) && ':' in Before(rest, '/') then
      Failure(ColonInFirstSegment)
    else if (scheme != "" || !("///" <= rest)) && "//" <= rest then
      AuthorityReference(scheme, rest)
    else
      Success(Uri(scheme, "", "", "", rest))
  }

  /** The authority runs from after the "//" to the next '/'; the path is
      what follows it. */
  function AuthorityReference(scheme: string, rest: string): (r: Result<Uri, UriError>)
    requires "//" <= rest && '#' !in rest && '?' !in rest
    ensures r.Failure? ==> r.error == MissingBracket || r.error == InvalidPort
    ensures r.Success? ==> r.value.scheme == scheme
    ensures r.Success? ==> '#' !in r.value.path && '?' !in r.value.path
    ensures r.Success? ==> '/' !in r.value.host && '@' !in r.value.host
  {
    var authority := Before(rest[2..], '/');
    var ui :- ParseAuthority(authority);
    Success(Uri(scheme, "", ui.0, ui.1, rest[2 + |authority|..]))
  }

  /** The scheme and the text after it, once the fragment and the query
      are cut off. */
  function SplitScheme(raw: string): (r: Result<(string, string), UriError>)
    ensures r.Failure? <==> 0 < |raw| && raw[0] == ':'
    ensures r.Failure? ==> r.error == MissingScheme
    ensures r.Success? ==> '#' !in r.value.1 && '?' !in r.value.1
    ensures r.Success? && "//" <= r.value.1 ==> AuthorityMarked(raw)
  {
    var u := Before(raw, '#');
    match GetScheme(u)
    case Failure(e) => Failure(e)
    case Success(None) =>
      Success(("", Before(u, '?')))
    case Success(Some(i)) =>
      var rest := Before(u[i + 1..], '?');
      assert "//" <= rest ==> AuthorityMarked(raw) by {
        assert SchemeAt(raw, i);
        assert u[i + 1..] <= raw[i + 1..];
      }
      Success((Lower(u[..i]), rest))
  }

  /** url.Parse.  `malformed` stands for the character-level checks this
      model does not spell out. */
  function Parse(raw: string, malformed: string -> bool): (r: Result<Uri, UriError>)
    ensures r == Failure(Rejected) <==> malformed(raw)
    ensures r == Failure(MissingScheme) <==> !malformed(raw) && 0 < |raw| && raw[0] == ':'
    ensures r.Success? ==> '#' !in r.value.path && '?' !in r.value.path
    ensures r.Success? ==> '/' !in r.value.host && '@' !in r.value.host
    ensures r.Success? && r.value.host != "" ==> AuthorityMarked(raw)
  {
    if malformed(raw) then Failure(Rejected)
    else
      match SplitScheme(raw)
      case Failure(e) => Failure(e)
      case Success((scheme, rest)) => ParseReference(scheme, rest)
  }

  /** "hostname" or "hostname:port", as the host field holds them. */
  function JoinHostPort(hostname: string, port: string): string {
    if port == "" then hostname else hostname + ":" + port
  }

  /** "user@" or nothing. */
  function UserPrefix(user: string): string {
    if user == "" then "" else user + "@"
  }

  /** A scheme written in lower case: `Lower` leaves it as it is. */
  predicate LowerScheme(scheme: string) {
    && 0 < |scheme| && 'a' <= scheme[0] <= 'z'
    && forall j :: 0 <= j < |scheme| ==> IsSchemeChar(scheme[j]) && !('A' <= scheme[j] <= 'Z')
  }

  /** A hostname the port check and the authority split leave whole, and
      with no '%', so that decoding leaves it as written too. */
  predicate PlainHostname(h: string) {
    ':' !in h && '/' !in h && '@' !in h && '?' !in h && '#' !in h && '%' !in h && !("[" <= h)
  }

  /** A user name the authority split and Username() leave whole, and with
      no '%' to decode. */
  predicate PlainUser(user: string) {
    ':' !in user && '/' !in user && '@' !in user && '?' !in user && '#' !in user && '%' !in user
  }

  /** An absolute path (or nothing) holding no query, no fragment and no
      '%' to decode. */
  predicate PlainPath(path: string) {
    (path == "" || path[0] == '/') && '?' !in path && '#' !in path && '%' !in path
  }

  lemma CheckHostJoin(hostname: string, port: string)
    requires PlainHostname(hostname) && AllDigits(port)
    ensures CheckHost(JoinHostPort(hostname, port)) == Success(JoinHostPort(hostname, port))
  {
    if port != "" {
      var hp := JoinHostPort(hostname, port);
      assert hp == hostname + [':'] + port;
      LastIndexOfJoin(hostname, ':', port);
      assert hp[|hostname|..] == ":" + port;
    }
  }

  lemma ParseAuthorityJoin(user: string, hostname: string, port: string)
    requires PlainUser(user) && PlainHostname(hostname) && AllDigits(port)
    ensures ParseAuthority(UserPrefix(user) + JoinHostPort(hostname, port))
         == Success((user, JoinHostPort(hostname, port)))
  {
    var hp := JoinHostPort(hostname, port);
    CheckHostJoin(hostname, port);
    assert '@' !in hp;
    if user == "" {
      assert UserPrefix(user) + hp == hp;
    } else {
      var a := UserPrefix(user) + hp;
      assert a == user + ['@'] + hp;
      LastIndexOfJoin(user, '@', hp);
      assert a[..|user|] == user && a[|user| + 1..] == hp;
      assert Username(user) == user;
    }
  }

  lemma LowerSchemeIdentity(scheme: string)
    requires LowerScheme(scheme)
    ensures Lower(scheme) == scheme
  {
  }

  /** A lower-case scheme and the text after its ':' come apart unchanged. */
  lemma SplitSchemeForm(scheme: string, rest: string)
    requires LowerScheme(scheme) && '#' !in rest && '?' !in rest
    ensures SplitScheme(scheme + ":" + rest) == Success((scheme, rest))
  {
    var raw := scheme + ":" + rest;
    assert '#' !in raw;
    assert Before(raw, '#') == raw;
    assert SchemeAt(raw, |scheme|);
    match GetScheme(raw)
    case Success(Some(i)) =>
      SchemeAtUnique(raw, i, |scheme|);
    assert raw[|scheme| + 1..] == rest && raw[..|scheme|] == scheme;
    assert Before(rest, '?') == rest;
    LowerSchemeIdentity(scheme);
  }

  /** The authority ends at the first '/' after the "//". */
  lemma AuthorityEnds(authority: string, path: string)
    requires '/' !in authority && PlainPath(path)
    ensures Before(("//" + authority + path)[2..], '/') == authority
    ensures ("//" + authority + path)[2 + |authority|..] == path
  {
    var rest := "//" + authority + path;
    assert rest[2..] == authority + path;
    if path == "" {
      assert Before(rest[2..], '/') == authority;
    } else {
      assert authority + path == authority + ['/'] + path[1..];
      BeforeJoin(authority, '/', path[1..]);
    }
  }

  /** After a scheme, "//authority/path" reads as that authority and that path. */
  lemma ReferenceAuthority(scheme: string, authority: string, path: string)
    requires scheme != "" && '/' !in authority && '#' !in authority && '?' !in authority
    requires PlainPath(path) && ParseAuthority(authority).Success?
    ensures var ui := ParseAuthority(authority).value;
      ParseReference(scheme, "//" + authority + path) == Success(Uri(scheme, "", ui.0, ui.1, path))
  {
    var rest := "//" + authority + path;
    assert rest[..2] == "//";
    assert ParseReference(scheme, rest) == AuthorityReference(scheme, rest);
    AuthorityEnds(authority, path);
  }

  /** url.Parse is the reference parse of what SplitScheme leaves. */
  lemma ParseThrough(raw: string, malformed: string -> bool)
    requires !malformed(raw) && SplitScheme(raw).Success?
    ensures Parse(raw, malformed) == ParseReference(SplitScheme(raw).value.0, SplitScheme(raw).value.1)
  {
  }

  /** An authority built from plain parts holds no '/', '#' or '?'. */
  lemma AuthorityChars(user: string, hostname: string, port: string)
    requires PlainUser(user) && PlainHostname(hostname) && AllDigits(port)
    ensures var a := UserPrefix(user) + JoinHostPort(hostname, port);
      '/' !in a && '#' !in a && '?' !in a
  {
    var up, hp := UserPrefix(user), JoinHostPort(hostname, port);
    assert '/' !in up && '#' !in up && '?' !in up;
    assert '/' !in hp && '#' !in hp && '?' !in hp by {
      if port != "" {
        assert hp == hostname + ":" + port;
        assert forall i :: 0 <= i < |port| ==> IsDigit(port[i]);
      }
    }
  }

  lemma RestChars(authority: string, path: string)
    requires '#' !in authority && '?' !in authority && PlainPath(path)
    ensures '#' !in "//" + authority + path && '?' !in "//" + authority + path
  {
  }

  /** url.Parse on "scheme://[user@]hostname[:port]/path" gives back each part. */
  lemma AuthorityForm(scheme: string, user: string, hostname: string, port: string, path: string,
                      malformed: string -> bool)
    requires LowerScheme(scheme) && PlainUser(user) && PlainHostname(hostname) && AllDigits(port)
    requires PlainPath(path)
    requires !malformed(scheme + "://" + UserPrefix(user) + JoinHostPort(hostname, port) + path)
    ensures Parse(scheme + "://" + UserPrefix(user) + JoinHostPort(hostname, port) + path, malformed)
         == Success(Uri(scheme, "", user, JoinHostPort(hostname, port), path))
  {
    var up, hp := UserPrefix(user), JoinHostPort(hostname, port);
    var authority := up + hp;
    var rest := "//" + authority + path;
    var raw := scheme + "://" + up + hp + path;
    AuthorityChars(user, hostname, port);
    RestChars(authority, path);
    SchemeRestShape(scheme, up, hp, path);
    SplitSchemeForm(scheme, rest);
    ParseThrough(raw, malformed);
    assert Parse(raw, malformed) == ParseReference(scheme, rest);
    ParseAuthorityJoin(user, hostname, port);
    ReferenceAuthority(scheme, authority, path);
  }

  /** "scheme://" + authority + path is the scheme, ':' and the rest. */
  lemma SchemeRestShape(scheme: string, up: string, hp: string, path: string)
    ensures scheme + "://" + up + hp + path == scheme + ":" + ("//" + (up + hp) + path)
  {
    assert "://" == ":" + "//";
  }

  /** url.Parse on an absolute path without an authority: the path alone. */
  lemma PathForm(path: string, malformed: string -> bool)
    requires PlainPath(path) && path != "" && !("//" <= path) && !malformed(path)
    ensures Parse(path, malformed) == Success(Uri("", "", "", "", path))
  {
    assert Before(path, '#') == path && Before(path, '?') == path;
    assert !IsLetter(path[0]);
  }

  /** url.Parse on "file://" and an absolute path: an empty authority. */
  lemma FileForm(path: string, malformed: string -> bool)
    requires PlainPath(path) && path != "" && !malformed("file://" + path)
    ensures Parse("file://" + path, malformed) == Success(Uri("file", "", "", "", path))
  {
    var up, hp := UserPrefix(""), JoinHostPort("", "");
    assert up == "" && hp == "";
    assert "file" + "://" + up + hp + path == "file://" + path by {
      assert "file" + "://" == "file://";
    }
    assert LowerScheme("file") && PlainHostname("");
    AuthorityForm("file", "", "", "", path, malformed);
  }
}
