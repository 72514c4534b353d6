# go-giturl in Dafny

A model of the parser of the Go package `giturl`. `Parse` reads a git
remote address in any of four families and returns a `URL` record:

- **Tilde user**: `ssh://host/~user/repo` or `host:~user/repo`.
- **Transport URL**: `ssh://`, `git://`, `http(s)://` or `ftp(s)://`.
- **SCP-like**: `user@host:path`.
- **Local path**: `/path` or `file:///path`.

The record holds the fields of `net/url.URL` that the package reads:

- scheme;
- user name;
- host, with its port;
- path.

It adds two fields of its own:

- the tilde user (`PathUser`);
- the path relative to that user (`PathRelative`).

`Slug` derives a repository name from the relative path.

The project is split into these modules:

- `Wrappers` (wrappers.dfy): `Option` and `Result`.
- `Strings` (strings.dfy): the `strings` functions the parser calls, specified by what they return. These are `TrimPrefix`, `TrimSuffix`, `SplitN` with n = 2, and searches for a character.
- `Uri` (uri.dfy): the part of `net/url.Parse` whose results the parser reads. This covers:
  - cutting off the fragment and the query;
  - `getScheme`, including the "missing protocol scheme" error;
  - the opaque form;
  - the colon rule for a first path segment;
  - splitting the authority at its last '@';
  - `Userinfo.Username`;
  - the port check of `parseHost`.
- `Grammar` (grammar.dfy): the three regular expressions as predicates on the input text. Each capture is given in closed form. A proof shows it is the one RE2 chooses: among all ways the pattern can split the input, it is the leftmost-first (preferred) one.
- `GitUrl` (url.go → url.dfy): the `URL` record, `Slug`, and the `Hostname`/`Port` methods the record inherits from `url.URL`.
- `GitParse` (parse.go → parse.dfy):
  - `Parse`, `parseURI`, `parseGitURI`, `parseTildeURIBase` and `parseTildeURI`;
  - the loop over capture groups, written as a fold with a closed form proved by induction.
- `GitProperties` (properties.dfy): round trips for each family. Building an address from its parts and parsing it returns those parts, in the fields the test table lists.
- `GitExamples` (examples.dfy): rows of the package's test table and its documented example, derived from the round trips.
- `GitFindings` (findings.dfy): two defects of `parseTildeURI`, each written as the source does it and as corrected (see Findings).

The model makes these choices:

- **Inputs hold no whitespace.** The predicate is `Grammar.NoSpace`. On such inputs `\S` and `.` match any character, so each pattern is an exact predicate.
- **Character checks are a parameter.** The checks `url.Parse` makes on single characters are the predicate `malformed`. These cover control bytes, percent-escapes and the characters a host or userinfo may hold. Every result is stated for any such predicate. Where a lemma needs the input to pass these checks, it asks for `!malformed(raw)`.
- **The panic is an error.** The index out of range at parse.go:86 is the error `IndexOutOfRange`.

## Model

| member | source | states |
|---|---|---|
| GitUrl.Slug | url.go:15-23 | The slug is a slice of the relative path: at most one character is dropped at the front and at most five at the end. |
| GitUrl.SlugUndecorates | url.go:15-23 | Take a path that has no affixes of its own. Add any combination of a leading "/", a ".git" and a trailing "/". The slug of the result is the original path. |
| GitUrl.SlugOfAffixesAlone | url.go:15-23 | When the relative path consists of affixes only, the slug is empty. |
| GitUrl.SlugStripsOnce | url.go:15-23 | Each trim removes at most one affix, and only the one that ends the text at that step. Further affixes of the same kind stay: "//x" gives "/x", "a.git.git" gives "a.git" and "x//" gives "x/". |
| GitUrl.PeelsExist | url.go:15-23 | Every relative path has such a core and such flags, so `SlugStripsOnce` gives the slug of any path. |
| GitUrl.TrimOptionalSuffix | url.go:17-18 | `strings.TrimSuffix` removes a suffix that was appended. It leaves a text unchanged when the text does not end with the suffix. |
| GitUrl.TrimOptionalPrefix | url.go:16-21 | `strings.TrimPrefix` removes a prefix that was prepended. It leaves a text unchanged when the text does not start with the prefix. |
| GitUrl.DropTrailingSlash | url.go:18 | The inner trim removes exactly the trailing "/" that was added. |
| GitUrl.DropGit | url.go:17-19 | The middle trim removes exactly the ".git" that was added. |
| GitUrl.DropLeadingSlash | url.go:16-21 | The outer trim removes exactly the leading "/" that was added. |
| GitUrl.HostPortRoundTrip | parse_test.go:80-95 | Take a host field built as hostname, optionally followed by ":port". `Hostname` returns the hostname and `Port` returns the port. |
| GitParse.Classify | parse.go:21-39 | The patterns are tried in the source's order. The family is tilde user exactly when the tilde pattern matches. It is transport exactly when that pattern fails and the transport prefix matches, and SCP-like likewise. It is local path exactly when all three fail and the text starts with "/" or "file://". |
| GitParse.Parse | parse.go:21-39 | The result is `ErrUnknownSyntax` exactly when no family applies. A `url.Parse` error comes only from the transport and local-path families. The index panic comes only from the tilde-user family. |
| GitParse.ParseUri | parse.go:41-52 | The call fails exactly when `url.Parse` fails, with that error. Otherwise it returns url.Parse's scheme, user, host and path, with no tilde user. The whole path is the relative path. |
| GitParse.ParseGitUri | parse.go:54-69 | The call succeeds exactly when the SCP pattern matches. The scheme is "git+ssh". User, host and path are the split RE2 reports: among all splits the pattern allows, the one with the longest user, then the longest host. The relative path equals the path. |
| GitParse.SplitUser | parse.go:82-86 | The result is none exactly when no '/' follows the "~". Otherwise "~" + user + "/" + rest rebuilds the input, and the user holds no '/'. |
| GitParse.SplitTildePath | parse.go:81-89 | The call fails with `IndexOutOfRange` exactly when a "~user" segment opens the path and no '/' closes it. Otherwise it keeps the url.Parse fields. "~" + pathUser + "/" + pathRelative rebuilds the path without its leading "/". With no "~", the whole path is relative. |
| GitParse.ParseTildeBase | parse.go:71-90 | The call declines with an ordinary error exactly when `url.Parse` fails or finds no host. Otherwise it returns the tilde split. |
| GitParse.FillFromCaptures | parse.go:98-138 | For the tilde user and the path, the loop over the named groups yields the closed form. The host includes the port group. The path is "~pathuser/path", or empty when the path group is empty. |
| GitParse.VisitTrace | parse.go:103-138 | After the first n groups, the record equals the closed form for n. The proof is by induction over the loop. |
| GitParse.DeadBranches | parse.go:113-134 | The host is still empty when the host group is visited, so it is never prepended to. The path is still empty when the pathuser group is visited, so it is never rewritten. |
| GitParse.ParseTilde | parse.go:92-141 | The first strategy's result is returned when it succeeds, and its panic escapes. Any other error falls back to the capture loop, which always succeeds. |
| Grammar.ScpCaptureOf | parse.go:13 | The SCP capture splits the input as the pattern allows. Among all such splits, it has the longest user and then the longest host (greedy, leftmost-first). |
| Grammar.ScpCaptureIs | parse.go:13 | When the host holds no '@' and the path no ':', the capture is exactly the parts the text was built from. |
| Grammar.TildeCaptureOf | parse.go:16-18 | The tilde capture splits the input as the pattern allows. It is preferred over every other split. Its port group is empty. |
| Grammar.CaptureAtGreedy | parse.go:17 | The capture at the last valid separator is preferred over every other split of the input. |
| Grammar.PortGroupLoses | parse.go:17 | Any split with a non-empty port loses to the split whose host swallows ":port". |
| Grammar.TildeCaptureIs | parse.go:17 | For a text built from a tilde-free path, a host without '@' and no port, the capture is exactly the parts it was built from. |
| Uri.GetScheme | parse.go:42 | A leading ':' is the "missing protocol scheme" error. Otherwise the result is the position of the ':' ending a leading scheme, or none when there is none. |
| Uri.CheckHost | parse.go:42 | The host text is kept as written. It fails only on a bad bracket or port. A host with no ':' and no '[' always passes. |
| Uri.Parse | parse.go:42 | It is rejected exactly when the character checks fail. It reports a missing scheme exactly for a leading ':'. A returned path holds no '?' or '#'. A returned host holds no '/' or '@'. A host comes only from an input that announces an authority. |
| Uri.AuthorityForm | parse.go:41-52 | `url.Parse` on "scheme://[user@]host[:port]/path" returns each part. |
| Uri.PathForm | parse.go:34-35 | `url.Parse` on an absolute path with no authority returns the path alone. |
| Uri.FileForm | parse.go:34-35 | `url.Parse` on "file://" + path returns scheme "file", no host, and the path. |
| GitProperties.TransportRoundTrip | parse.go:26-27 | Take a transport URL built from plain parts, on which the tilde pattern does not match. The parts may hold a '~' the pattern cannot use, as in "/a~b" or "/~u". The family is transport. `Parse` returns each part, with an empty tilde user and the path as the relative path. `Hostname` and `Port` recover the hostname and port. |
| GitProperties.UrlTextTildeFree | parse.go:16-18 | A transport URL built from parts with no '~' is a text the tilde pattern does not match. |
| GitProperties.TransportAnyTilde | parse.go:71-90 | A transport URL whose path does not open with "/~" gives the plain transport record, whether or not the tilde pattern matches further on. An example is https://h/g/~u/r. `Parse` returns each part, with an empty tilde user and the whole path as the relative path. |
| GitProperties.TildeUriRoundTrip | parse.go:71-90 | For "scheme://[user@]host[:port]/~pathuser/rest", with any transport scheme, the family is tilde user. The first strategy keeps the path and splits off the tilde user and the rest. |
| GitProperties.TildeScpRoundTrip | parse.go:92-141 | For "[user@]host:~pathuser/path", the family is tilde user. `url.Parse` finds no host, so the capture loop gives the user and host. The path is "~pathuser/path", or empty when the path is empty. The tilde user and the relative path are also returned. |
| GitProperties.ScpRoundTrip | parse.go:54-69 | For "user@host:path", the family is SCP-like. `Parse` returns scheme "git+ssh" and the three parts. |
| GitProperties.LocalPathRoundTrip | parse.go:34-35 | An absolute path is a local path when neither the SCP nor the tilde pattern matches it. A ':' is allowed when the path holds no '@'. `Parse` returns it as both the path and the relative path, with no scheme. |
| GitProperties.FileRoundTrip | parse.go:34-35 | For "file://" + path, on which neither the SCP nor the tilde pattern matches, the family is local path. `Parse` returns scheme "file" and the path. |
| GitExamples.SshUserPort | parse_test.go:18 | The table row for ssh://foo@githost.example:1234/path/to/git/repo. |
| GitExamples.HttpsNoPort | parse_test.go:31 | The table row for https://githost.example/path/to/git/repo, whose port is empty. |
| GitExamples.HttpsUnclosedTilde | parse.go:26-27 | https://h/~u is a transport URL. Its '~' opens no user, because no '/' follows "~u". |
| GitExamples.HttpsTildeLater | parse.go:71-90 | https://h/g/~u/r matches the tilde pattern. It is still read as the plain transport record, with an empty tilde user. |
| GitExamples.ScpExample | example_test.go:10 | git@github.com:dosquad/go-giturl.git is read as user "git", host "github.com" and path "dosquad/go-giturl.git". The hostname is "github.com" and the port is empty. |
| GitExamples.SshTildeUser | parse_test.go:43 | The table row for ssh://github.com:1111/~foo/dosquad/go-giturl.git. |
| GitExamples.ScpTildeUser | parse_test.go:53 | The table row for bar@github.com:~foo/dosquad/go-giturl.git. |
| GitExamples.ScpTildeEmptyPath | parse.go:107-109 | Parsing github.com:~foo/ gives an empty path. |
| GitExamples.LocalPathExample | parse_test.go:56 | The table row for /path/to/repo.git/. |
| GitExamples.FileExample | parse_test.go:59 | The table row for file:///path/to/repo.git/. |
| GitExamples.SlugOfRepoPath | parse_test.go:18 | The slug of /path/to/git/repo is path/to/git/repo. |
| GitExamples.SlugOfGitPath | example_test.go:15-16 | The slug of dosquad/go-giturl.git is dosquad/go-giturl. |
| GitExamples.SlugOfLocalPath | parse_test.go:56 | The slug of /path/to/repo.git/ is path/to/repo. |
| GitExamples.SlugKeepsSecondLead | url.go:21 | The slug of //x is /x. |
| GitExamples.SlugKeepsSecondGit | url.go:19 | The slug of a.git.git is a.git. |
| GitExamples.SlugKeepsSecondTrail | url.go:18 | The slug of x// is x/. |
| GitExamples.UnknownEmpty | parse.go:38 | The empty text belongs to no family. |
| GitExamples.UnknownWord | parse.go:38 | A bare word belongs to no family. |
| GitFindings.FragmentPanics | parse.go:83-86 | Take a transport URL whose path is "/~user" with no further '/' and no '%'. Follow it with a fragment holding a '/'. The text matches the tilde pattern. `Parse` on it panics. |
| GitFindings.PanicExample | parse.go:86 | ssh://h/~a#/~b/c panics. |
| GitFindings.EmptyPathDisagrees | parse.go:107-124 | For "[user@]host:~pathuser/", the parse succeeds with an empty path, which does not hold the tilde user. |
| GitFindings.SplitTildePathFixed | parse.go:81-89 | The corrected split never fails. It agrees with the original wherever the original does not panic. An unclosed "~user" becomes the tilde user with an empty relative path. |
| GitFindings.ParseTildeBaseFixed | parse.go:71-90 | The corrected first strategy declines exactly when `url.Parse` fails or finds no host. It never panics, and it agrees with the original wherever the original does not panic. |
| GitFindings.FillFixed | parse.go:120-124 | The corrected capture loop always puts "~pathuser/" in the path. It agrees with the original loop whenever the path group is non-empty. |
| GitFindings.ParseTildeFixedAgrees | parse.go:92-141 | Wherever `parseTildeURI` already keeps the tilde user in its path, the corrected version returns the same record. |
| GitFindings.ParseFixed | parse.go:21-39 | The corrected parse fails exactly where `Parse` fails for a reason other than the panic, and with the same error. Every record it returns keeps the tilde user in its path. Where `Parse` already does so, the records are equal. |

## Left out

- `URL.String` (url.go:25-44): printing a record back to text is not modelled.
- `url.Parse`'s checks on single characters are not spelled out: control bytes, percent-escapes, and the characters allowed in a userinfo or a host. They are the `malformed` parameter.
- Percent-decoding is not modelled. Every field is the text as written. So the round trips and `GitFindings.FragmentPanics` ask for no '%' in the parts they return. There, the text as written and the decoded text agree.
- Passwords, queries, fragments and the raw-path fields of `url.URL` are not modelled. The parser never reads them.
- `parseURI` returns a partial record alongside a `url.Parse` error. The model returns the error alone.
- The concrete error values and messages of `url.Parse` are reduced to the `Uri.UriError` kinds.
- Inputs holding whitespace are outside the model (`Parse` requires `NoSpace`). On those inputs `\S` and `.` differ from "any character".
- IPv6 hosts in brackets are only checked for the port, as `parseHost` does. Zone identifiers are not modelled.
- The tilde pattern is tried first, and some texts on which it matches have no round trip. Transport URLs are covered when the path opens with "/~user/" (`GitProperties.TildeUriRoundTrip`) and when it does not open with "/~" at all (`GitProperties.TransportAnyTilde`). The panic is covered for the fragment route (`GitFindings.FragmentPanics`). Texts with no round trip:
  - transport URLs with an empty host;
  - local paths, `file://` texts and SCP-like texts that hold "/~x/" or ":~x/" further on, such as `/a/~x/b`, `git@h:a/~x/b` or `h:~u/a/~x/b`. `url.Parse` fails on these or finds no host, so the capture loop reads them, and its greedy host swallows everything before the last separator. `GitParse.FillFromCaptures` and `Grammar.TildeCaptureOf` still state what the loop returns for them.
- GitUrl.Slug: its own contract bounds the slice only loosely. `GitUrl.SlugStripsOnce` states the exact result for every path, and `GitUrl.PeelsExist` shows that it applies to every path.
- The test table expects scheme "git" for `host:~user/...` and scheme "file" for a bare local path. The test loop never compares that column, and the code gives "" in both cases, so the model follows the code.
- The capture loop visits the groups in the order `SubexpNames` lists them, so the host group comes before the pathuser group. The prepend branch for the host and the path rewrite in the pathuser case are therefore never taken (`GitParse.DeadBranches`). The model keeps both branches in `GitParse.Visit`.

## Findings

| source | as written | input that shows it | evidently intended | confidence | as-written member | corrected member |
|---|---|---|---|---|---|---|
| parse.go:83-86 | `sp[1]` is read even when "~user" is not followed by '/'. The tilde pattern may have matched its '/' inside a fragment that `url.Parse` has already cut off, so the index panics. A query (`ssh://h/~a?x/`) or a password that starts with '~' (`ssh://x:~p@h/~x`) lets the pattern match in the same way. The witness covers the fragment route. The corrected parse is stated for every input, so it covers all three. | `ssh://h/~a#/~b/c` | An unclosed "~user" is the tilde user, with an empty relative path; no panic. | medium (not executed) | GitFindings.FragmentPanics | GitFindings.ParseFixed |
| parse.go:107-124 | An empty path group is skipped, so the path case never writes "~pathuser/". The record has a tilde user but an empty path. | `github.com:~foo/` | Path "~foo/", the same form as when a path follows. | medium (not executed) | GitFindings.EmptyPathDisagrees | GitFindings.FillFixed |
