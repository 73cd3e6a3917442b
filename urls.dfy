/**
 * The parts of Python's standard library that the exporter uses on URLs and
 * paths: `urllib.parse.urlparse` (scheme, netloc and path only) and
 * `os.path.join` / `os.path.basename` for POSIX paths.
 */
module Urls {
  import opened Wrappers
  import opened Strings

  /** The three fields of a parsed URL the exporter reads. */
  datatype UrlParts = UrlParts(scheme: string, netloc: string, path: string)

  predicate IsAsciiAlpha(c: char) {
    'a' <= c <= 'z' || 'A' <= c <= 'Z'
  }

  /** Characters `urlsplit` accepts in a scheme. */
  predicate IsSchemeChar(c: char) {
    IsAsciiAlpha(c) || IsDigit(c) || c == '+' || c == '-' || c == '.'
  }

  /** The first index at or after `k` holding one of the characters in `cs`. */
  function FindAny(s: string, cs: set<char>, k: nat): (r: Option<nat>)
    decreases |s| - k
    ensures r.Some? ==> k <= r.value < |s| && s[r.value] in cs
    ensures forall j :: k <= j < |s| && (r.None? || j < r.value) ==> s[j] !in cs
  {
    if k >= |s| then None
    else if s[k] in cs then Some(k)
    else FindAny(s, cs, k + 1)
  }

  /**
   * The scheme (lower-cased) and the rest: a scheme is present when the text
   * before the first `:` is non-empty, starts with a letter and is made of
   * scheme characters.
   */
  function SplitScheme(url: string): (r: (string, string))
  {
    match FindChar(url, ':', 0)
    case Some(i) =>
      if i > 0 && IsAsciiAlpha(url[0]) && forall k :: 0 <= k < i ==> IsSchemeChar(url[k])
      then (Lower(url[..i]), url[i + 1..])
      else ("", url)
    case None => ("", url)
  }

  /**
   * `netloc` is what follows the `//` at the head of `rest`, up to the end
   * of `rest` or to a `/`, `?` or `#`.
   */
  predicate NetlocAt(rest: string, netloc: string) {
    && 2 + |netloc| <= |rest| && rest[2..2 + |netloc|] == netloc
    && (2 + |netloc| == |rest| || rest[2 + |netloc|] in {'/', '?', '#'})
  }

  /**
   * `urlparse(url)`, restricted to scheme, netloc and path: after the scheme,
   * a `//` introduces a netloc that runs to the first `/`, `?` or `#`; the
   * fragment (from `#`) and then the query (from `?`) are cut off the rest,
   * and what remains is the path.
   */
  function SplitUrl(url: string): (u: UrlParts)
    ensures '?' !in u.path && '#' !in u.path
    ensures '/' !in u.netloc && '?' !in u.netloc && '#' !in u.netloc
    ensures StartsWith(SplitScheme(url).1, "//") ==> NetlocAt(SplitScheme(url).1, u.netloc)
    ensures !StartsWith(SplitScheme(url).1, "//") ==> u.netloc == []
  {
    var (scheme, rest) := SplitScheme(url);
    var (netloc, tail) :=
      if StartsWith(rest, "//") then
        var e := FindAny(rest, {'/', '?', '#'}, 2).GetOr(|rest|);
        (rest[2..e], rest[e..])
      else ("", rest);
    UrlParts(scheme, netloc, Before(Before(tail, '#'), '?'))
  }

  /** `os.path.join(a, b)` on POSIX paths. */
  function JoinPath(a: string, b: string): (r: string)
    ensures StartsWith(b, "/") ==> r == b
    ensures !StartsWith(b, "/") && a != [] && !EndsWith(a, "/") ==> r == a + "/" + b
    ensures EndsWith(r, b)
  {
    if StartsWith(b, "/") then b
    else if a == [] || EndsWith(a, "/") then a + b
    else a + "/" + b
  }

  /** `os.path.basename(p)`: the text after the last `/`, or all of `p` when it has none. */
  function Basename(p: string): (r: string)
    ensures '/' !in r
    ensures EndsWith(p, r) && (r == p || p[|p| - |r| - 1] == '/')
  {
    LastPartIsSuffix(p, '/');
    LastPart(p, '/')
  }

  /** A character absent from a path is absent from its basename. */
  lemma {:induction false} BasenameOmits(p: string, c: char)
    requires c !in p
    ensures c !in Basename(p)
  {
    var r := Basename(p);
    forall i | 0 <= i < |r| ensures r[i] != c {
      assert r[i] == p[|p| - |r| + i];
    }
  }
}
