/** The handful of Go `strings` operations the parser relies on, over
    `string` (= `seq<char>`, one char per rune). */
module Strings {
  import opened Wrappers

  /** strings.HasSuffix(s, suffix) */
  predicate HasSuffix(s: string, suffix: string) {
    |suffix| <= |s| && s[|s| - |suffix|..] == suffix
  }

  /** strings.TrimPrefix: removes ONE leading occurrence of `prefix`, if present. */
  function TrimPrefix(s: string, prefix: string): (r: string)
    ensures prefix <= s ==> prefix + r == s
    ensures !(prefix <= s) ==> r == s
  {
    if prefix <= s then s[|prefix|..] else s
  }

  /** strings.TrimSuffix: removes ONE trailing occurrence of `suffix`, if present. */
  function TrimSuffix(s: string, suffix: string): (r: string)
    ensures HasSuffix(s, suffix) ==> r + suffix == s
    ensures !HasSuffix(s, suffix) ==> r == s
  {
    if HasSuffix(s, suffix) then s[..|s| - |suffix|] else s
  }

  /** strings.IndexByte: the first position of `c`, if any. */
  function IndexOf(s: string, c: char): (r: Option<nat>)
    ensures r.None? <==> c !in s
    ensures r.Some? ==> r.value < |s| && s[r.value] == c && c !in s[..r.value]
  {
    if |s| == 0 then None
    else if s[0] == c then Some(0)
    else match IndexOf(s[1..], c)
      case None => None
      case Some(i) =>
        assert s[..i + 1] == [s[0]] + s[1..][..i];
        Some(i + 1)
  }

  /** strings.LastIndexByte: the last position of `c`, if any. */
  function LastIndexOf(s: string, c: char): (r: Option<nat>)
    ensures r.None? <==> c !in s
    ensures r.Some? ==> r.value < |s| && s[r.value] == c && c !in s[r.value + 1..]
  {
    if |s| == 0 then None
    else if s[|s| - 1] == c then Some(|s| - 1)
    else
      var r := LastIndexOf(s[..|s| - 1], c);
      assert r.Some? ==> s[r.value + 1..] == s[..|s| - 1][r.value + 1..] + [s[|s| - 1]];
      assert r.None? ==> s == s[..|s| - 1] + [s[|s| - 1]];
      r
  }

  /** The part of `s` before the first `c` (all of `s` when there is none):
      the first result of strings.Cut(s, string(c)). */
  function Before(s: string, c: char): (r: string)
    ensures r <= s
    ensures c !in r
    ensures |r| < |s| <==> c in s
    ensures |r| < |s| ==> s[|r|] == c
  {
    match IndexOf(s, c)
    case None => s
    case Some(i) => s[..i]
  }

  /** strings.SplitN(s, string(c), 2): one piece when `c` does not occur,
      otherwise the pieces before and after its first occurrence. */
  function SplitTwo(s: string, c: char): (r: seq<string>)
    ensures |r| == 1 || |r| == 2
    ensures |r| == 1 <==> c !in s
    ensures |r| == 1 ==> r[0] == s
    ensures |r| == 2 ==> r[0] + [c] + r[1] == s && c !in r[0]
  {
    match IndexOf(s, c)
    case None => [s]
    case Some(i) =>
      assert s[..i] + [c] + s[i + 1..] == s;
      [s[..i], s[i + 1..]]
  }

  /** The last `c` of `a + [c] + b` is the one between them when `b` has none. */
  lemma LastIndexOfJoin(a: string, c: char, b: string)
    requires c !in b
    ensures LastIndexOf(a + [c] + b, c) == Some(|a|)
  {
    var s := a + [c] + b;
    var r := LastIndexOf(s, c);
    assert s[|a|] == c;
    assert s[|a| + 1..] == b;
  }

  /** The text before the first `c` of `a + [c] + b` is `a` when `a` has none. */
  lemma BeforeJoin(a: string, c: char, b: string)
    requires c !in a
    ensures Before(a + [c] + b, c) == a
  {
    var s := a + [c] + b;
    var r := Before(s, c);
    assert s[|a|] == c;
  }
}
