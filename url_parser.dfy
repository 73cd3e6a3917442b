/**
 * `parse_confluence_url` and `extract_domain`: the site and the page id of a
 * Confluence page URL. Three shapes are recognised, tried in this order:
 * a `pageId=` query parameter, a Confluence Cloud path
 * `/wiki/spaces/<space>/pages/<id>/...`, and a path whose last segment is
 * all digits.
 */
module UrlParser {
  import opened Wrappers
  import opened Strings
  import opened Urls

  const PageIdKey: string := "pageId="
  const ErrorPrefix: string := "Could not extract pageId from URL: "

  /** The page id and the site it lives on. */
  datatype PageRef = PageRef(site: string, pageId: string)

  /** `f"{scheme}://{netloc}"`. */
  function SiteOf(parts: UrlParts): string {
    parts.scheme + "://" + parts.netloc
  }

  /** `s.split(key)[0]`: the text before the first `key`, or all of `s`. */
  function UpToKey(s: string, key: string): (seg: string)
    ensures StartsWith(s, seg)
    ensures seg == s || OccursAt(s, |seg|, key)
    ensures forall x: nat :: x < |seg| ==> !OccursAt(s, x, key)
  {
    match Find(s, key, 0)
    case None => s
    case Some(j) => assert s[..j][..j] == s[..j]; s[..j]
  }

  /** The text from `start` up to the next `key` or `&`, whichever comes first. */
  function FieldFrom(s: string, key: string, start: nat): (v: string)
    requires start <= |s|
    ensures '&' !in v && OccursAt(s, start, v)
  {
    var tail := s[start..];
    var segment := UpToKey(tail, key);
    var v := Before(segment, '&');
    assert tail[..|segment|] == segment;
    assert segment[..|v|] == v;
    v
  }

  /**
   * `s.split(key)[1].split("&")[0]` for an `s` that contains `key`: the text
   * after the first `key`, up to the next `key` or `&`, whichever comes first.
   */
  function FieldAfter(s: string, key: string): (v: string)
    requires Contains(s, key)
    ensures '&' !in v
    ensures OccursAt(s, Find(s, key, 0).value, key + v)
  {
    OccursConcat(s, Find(s, key, 0).value, key, FieldFrom(s, key, KeyEnd(s, key)));
    FieldFrom(s, key, KeyEnd(s, key))
  }

  /** Where the first `key` in `s` ends. */
  function KeyEnd(s: string, key: string): (e: nat)
    requires Contains(s, key)
    ensures e <= |s|
  {
    Find(s, key, 0).value + |key|
  }

  /**
   * The field runs up to the end of the text, an `&` or the next `key`, and
   * no `key` starts inside it.
   */
  lemma {:induction false} FieldAfterDelimited(s: string, key: string)
    requires Contains(s, key)
    ensures KeyEnd(s, key) + |FieldAfter(s, key)| == |s|
      || s[KeyEnd(s, key) + |FieldAfter(s, key)|] == '&'
      || OccursAt(s, KeyEnd(s, key) + |FieldAfter(s, key)|, key)
    ensures forall x :: KeyEnd(s, key) <= x < KeyEnd(s, key) + |FieldAfter(s, key)| ==> !OccursAt(s, x, key)
  {
    FieldEnds(s, key, KeyEnd(s, key));
  }

  /** Where a field that starts at `start` ends. */
  lemma {:induction false} FieldEnds(s: string, key: string, start: nat)
    requires start <= |s|
    ensures var e := start + |FieldFrom(s, key, start)|;
      e == |s| || s[e] == '&' || OccursAt(s, e, key)
    ensures forall x :: start <= x < start + |FieldFrom(s, key, start)| ==> !OccursAt(s, x, key)
  {
    var v := FieldFrom(s, key, start);
    var tail := s[start..];
    var segment := UpToKey(tail, key);
    assert v == Before(segment, '&');
    if |v| < |segment| {
      assert s[start + |v|] == tail[|v|] == segment[|v|];
    } else if segment != tail {
      OccursSuffix(s, start, |segment|, key);
    }
    forall x | start <= x < start + |v| ensures !OccursAt(s, x, key) {
      OccursSuffix(s, start, x - start, key);
    }
  }

  /** The page id of a `pageId=` URL. */
  function QueryPageId(url: string): (id: string)
    requires Contains(url, PageIdKey)
    ensures '&' !in id && OccursAt(url, Find(url, PageIdKey, 0).value, PageIdKey + id)
  {
    FieldAfter(url, PageIdKey)
  }

  /** `parsed.path.lstrip("/").rstrip("/").split("/")`. */
  function PathParts(path: string): (parts: seq<string>)
    ensures |parts| >= 1
  {
    Split(Trim(path, IsSlash), '/')
  }

  /** The Confluence Cloud shape: `wiki/spaces/<space>/pages/<digits>/...`. */
  predicate IsCloudPath(parts: seq<string>) {
    |parts| >= 5 && parts[0] == "wiki" && parts[1] == "spaces" && parts[3] == "pages" && IsDigits(parts[4])
  }

  /**
   * The page id the path gives: segment 4 of a Cloud-shape path, or else an
   * all-digit last segment, or nothing.
   */
  function PathPageId(path: string): (r: Option<string>)
    ensures r.Some? ==> IsDigits(r.value) && r.value in PathParts(path)
    ensures IsCloudPath(PathParts(path)) ==> r == Some(PathParts(path)[4])
    ensures !IsCloudPath(PathParts(path)) && IsDigits(PathParts(path)[|PathParts(path)| - 1])
      ==> r == Some(PathParts(path)[|PathParts(path)| - 1])
    ensures r.None? <==> !IsCloudPath(PathParts(path)) && !IsDigits(PathParts(path)[|PathParts(path)| - 1])
  {
    var parts := PathParts(path);
    if IsCloudPath(parts) then Some(parts[4])
    else if IsDigits(parts[|parts| - 1]) then Some(parts[|parts| - 1])
    else None
  }

  /** `parse_confluence_url` once `urlparse` has split the URL into `parts`. */
  function ParseWith(url: string, parts: UrlParts): (r: Result<PageRef, string>)
    ensures r.Ok? ==> r.value.site == SiteOf(parts)
    ensures Contains(url, PageIdKey) ==> r == Ok(PageRef(SiteOf(parts), QueryPageId(url)))
    ensures !Contains(url, PageIdKey) && r.Ok? ==> IsDigits(r.value.pageId) && r.value.pageId in PathParts(parts.path)
    ensures !Contains(url, PageIdKey) && PathPageId(parts.path).Some?
      ==> r == Ok(PageRef(SiteOf(parts), PathPageId(parts.path).value))
    ensures r.Err? <==> !Contains(url, PageIdKey) && PathPageId(parts.path).None?
    ensures r.Err? ==> r.error == ErrorPrefix + url
  {
    if Contains(url, PageIdKey) then Ok(PageRef(SiteOf(parts), QueryPageId(url)))
    else match PathPageId(parts.path)
      case Some(id) => Ok(PageRef(SiteOf(parts), id))
      case None => Err(ErrorPrefix + url)
  }

  /** `parse_confluence_url(url)`; the `ValueError` is the `Err` case. */
  function ParseConfluenceUrl(url: string): (r: Result<PageRef, string>)
    ensures r.Ok? ==> r.value.site == SplitUrl(url).scheme + "://" + ExtractDomain(url)
  {
    ParseWith(url, SplitUrl(url))
  }

  /**
   * `extract_domain(url)`: the network location of the URL, the text after
   * the `//` that follows the scheme, up to the first `/`, `?` or `#`; empty
   * when no `//` follows the scheme.
   */
  function ExtractDomain(url: string): (d: string)
    ensures '/' !in d && '?' !in d && '#' !in d
    ensures StartsWith(SplitScheme(url).1, "//") ==> NetlocAt(SplitScheme(url).1, d)
    ensures !StartsWith(SplitScheme(url).1, "//") ==> d == []
  {
    SplitUrl(url).netloc
  }

  /** Extra slashes at either end of the path do not change the page id it gives. */
  lemma {:induction false} PathIgnoresOuterSlashes(path: string)
    ensures PathPageId("/" + path) == PathPageId(path)
    ensures PathPageId(path + "/") == PathPageId(path)
  {
    PartsIgnoreOuterSlashes(path);
    SamePartsSameId("/" + path, path);
    SamePartsSameId(path + "/", path);
  }

  lemma {:induction false} PartsIgnoreOuterSlashes(path: string)
    ensures PathParts("/" + path) == PathParts(path)
    ensures PathParts(path + "/") == PathParts(path)
  {
    TrimIgnoresEnds(path, '/', IsSlash);
    assert "/" + path == ['/'] + path;
    assert path + "/" == path + ['/'];
  }

  lemma {:induction false} SamePartsSameId(p: string, q: string)
    requires PathParts(p) == PathParts(q)
    ensures PathPageId(p) == PathPageId(q)
  {
  }

  /**
   * A Confluence Cloud page path `/wiki/spaces/<space>/pages/<id>/...`, its
   * segments joined by `/`, gives `<id>` whatever the space key and the
   * segments after the id.
   */
  lemma {:induction false} CloudPathGivesId(segments: seq<string>)
    requires |segments| >= 5
    requires segments[0] == "wiki" && segments[1] == "spaces" && segments[3] == "pages"
    requires IsDigits(segments[4])
    requires forall i :: 0 <= i < |segments| ==> '/' !in segments[i]
    requires segments[|segments| - 1] != []
    ensures PathPageId("/" + Join(segments, '/')) == Some(segments[4])
  {
    var j := Join(segments, '/');
    JoinFirst(segments, '/');
    JoinLast(segments, '/');
    assert TrimStart("/" + j, IsSlash) == j by {
      assert ("/" + j)[1..] == j;
    }
    SplitJoin(segments, '/');
  }
}
