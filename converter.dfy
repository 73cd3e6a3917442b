/**
 * The storage-format rewriter of `converter.py`.
 *
 * Confluence page bodies use vendor markup: `<ac:image>` blocks holding an
 * `<ri:attachment ri:filename="...">` reference, and `<ac:structured-macro
 * ac:name="drawio">` blocks naming a diagram. The rewriter finds the
 * referenced attachment names, turns both kinds of block into plain
 * `<img src=... alt=... />` tags, and hands the result to an HTML-to-Markdown
 * converter. Each regular expression of the source is modelled by a scanner
 * that follows Python's `re` semantics: greedy `[^>]*` backs off from the
 * first `>`, lazy `.*?` stops at the first closing tag, and a scan resumes
 * just after the previous match.
 */
module Converter {
  import opened Wrappers
  import opened Strings

  const AttachmentOpen: string := "<ri:attachment"
  const FilenameKey: string := "ri:filename=\""
  const AltKey: string := "ac:alt=\""
  const Quote: string := "\""
  const ImageOpen: string := "<ac:image"
  const ImageClose: string := "</ac:image>"
  const MacroOpen: string := "<ac:structured-macro"
  const DrawioMarker: string := "ac:name=\"drawio\""
  const MacroClose: string := "</ac:structured-macro>"
  const DiagramNameOpen: string := "<ac:parameter ac:name=\"diagramName\">"
  const ParameterClose: string := "</ac:parameter>"

  // ---------------------------------------------------------------------------
  // Captured values: `key([^c]+)close` where `close` starts with `c`
  // ---------------------------------------------------------------------------

  /**
   * The group `([^stop]+)` followed by `close` at index `j`: the maximal run of
   * characters other than `stop`, when it is non-empty and `close` follows it.
   */
  function ValueAt(t: string, j: nat, stop: char, close: string): (r: Option<string>)
    ensures r.Some? ==> |r.value| > 0 && stop !in r.value && OccursAt(t, j, r.value + close)
  {
    match FindChar(t, stop, j)
    case None => None
    case Some(q) =>
      if q > j && OccursAt(t, q, close) then
        OccursConcat(t, j, t[j..q], close);
        Some(t[j..q])
      else None
  }

  predicate MatchesAt(t: string, p: nat, key: string, stop: char, close: string) {
    OccursAt(t, p, key) && ValueAt(t, p + |key|, stop, close).Some?
  }

  /** The pattern matches at `p` and at no earlier index. */
  predicate LeftmostMatch(t: string, p: nat, key: string, stop: char, close: string) {
    MatchesAt(t, p, key, stop, close) && forall q: nat :: q < p ==> !MatchesAt(t, q, key, stop, close)
  }

  /** The first index at or after `k` where `key([^stop]+)close` matches. */
  function FirstMatch(t: string, key: string, stop: char, close: string, k: nat): (r: Option<nat>)
    decreases |t| - k
    ensures r.Some? ==> k <= r.value && MatchesAt(t, r.value, key, stop, close)
    ensures forall p: nat :: k <= p && (r.None? || p < r.value) ==> !MatchesAt(t, p, key, stop, close)
  {
    if k + |key| > |t| then None
    else if MatchesAt(t, k, key, stop, close) then Some(k)
    else FirstMatch(t, key, stop, close, k + 1)
  }

  /**
   * `re.search(key + "([^stop]+)" + close, t).group(1)`: the value captured
   * at the leftmost position where the whole pattern matches, and nothing
   * when it matches nowhere.
   */
  function Search(t: string, key: string, stop: char, close: string): (r: Option<string>)
    ensures r.Some? ==> |r.value| > 0 && stop !in r.value && Occurs(t, key + r.value + close)
    ensures r.None? ==> forall p: nat :: !MatchesAt(t, p, key, stop, close)
    ensures forall p: nat :: LeftmostMatch(t, p, key, stop, close) ==> r == ValueAt(t, p + |key|, stop, close)
  {
    match FirstMatch(t, key, stop, close, 0)
    case None => None
    case Some(p) =>
      var v := ValueAt(t, p + |key|, stop, close);
      OccursConcat(t, p, key, v.value + close);
      assert key + (v.value + close) == key + v.value + close;
      v
  }

  /** The first non-empty `ri:filename="..."` value of a block. */
  function FilenameOf(block: string): Option<string> {
    Search(block, FilenameKey, '"', Quote)
  }

  /** The first non-empty `ac:alt="..."` value of a block, or the empty string. */
  function AltOf(block: string): string {
    Search(block, AltKey, '"', Quote).GetOr("")
  }

  /** The first non-empty `diagramName` parameter of a macro. */
  function DiagramNameOf(block: string): Option<string> {
    Search(block, DiagramNameOpen, '<', ParameterClose)
  }

  // ---------------------------------------------------------------------------
  // extract_confluence_images
  // ---------------------------------------------------------------------------

  /** `ri:filename="name"` at index `j` inside the tag that `<ri:attachment` opens at `i`. */
  ghost predicate AttachmentRefAt(s: string, i: nat, j: nat, name: string) {
    && OccursAt(s, i, AttachmentOpen)
    && i + |AttachmentOpen| <= j
    && OccursAt(s, j, FilenameKey + name + Quote)
    && (forall x :: i + |AttachmentOpen| <= x < j ==> s[x] != '>')
  }

  /** `name` is referenced by some attachment tag of `s`. */
  ghost predicate Referenced(s: string, name: string) {
    exists i: nat, j: nat :: AttachmentRefAt(s, i, j, name)
  }

  /** A match of the attachment pattern: the captured name, where its key starts, and where the match ends. */
  datatype AttachmentHit = AttachmentHit(name: string, keyAt: nat, end: nat)

  /**
   * The tail `ri:filename="([^"]+)"`, then `[^>]*`, an optional `/` and `>`, matched at index `j`: the name,
   * and the index just past the first `>` after its closing quote.
   */
  function FilenameAt(s: string, j: nat): (r: Option<AttachmentHit>)
    ensures r.Some? ==> r.value.keyAt == j && j < r.value.end <= |s|
    ensures r.Some? ==> |r.value.name| > 0 && '"' !in r.value.name
    ensures r.Some? ==> OccursAt(s, j, FilenameKey + r.value.name + Quote)
  {
    if !OccursAt(s, j, FilenameKey) then None
    else match ValueAt(s, j + |FilenameKey|, '"', Quote)
      case None => None
      case Some(name) =>
        match FindChar(s, '>', j + |FilenameKey| + |name| + 1)
        case None => None
        case Some(g) =>
          OccursConcat(s, j, FilenameKey, name + Quote);
          assert FilenameKey + (name + Quote) == FilenameKey + name + Quote;
          Some(AttachmentHit(name, j, g + 1))
  }

  /** Greedy `[^>]*` backing off: the largest index in `[lo, j]` at which the tail matches. */
  function LastFilenameIndex(s: string, lo: nat, j: nat): (r: Option<nat>)
    requires lo <= j
    decreases j - lo
    ensures r.Some? ==> lo <= r.value <= j && FilenameAt(s, r.value).Some?
  {
    if FilenameAt(s, j).Some? then Some(j)
    else if j == lo then None
    else LastFilenameIndex(s, lo, j - 1)
  }

  /** The index found is the last one: the tail matches at no later index in `[lo, j]`, and at none when nothing is found. */
  lemma {:induction false} LastFilenameIndexIsLast(s: string, lo: nat, j: nat, x: nat)
    requires lo <= x <= j
    requires LastFilenameIndex(s, lo, j).None? || LastFilenameIndex(s, lo, j).value < x
    ensures FilenameAt(s, x).None?
    decreases j - lo
  {
    if FilenameAt(s, j).None? && x < j {
      LastFilenameIndexIsLast(s, lo, j - 1, x);
    }
  }

  /** One match of `<ri:attachment[^>]*ri:filename="([^"]+)"` (then `[^>]*`, an optional `/` and `>`) at the start of `s`. */
  function AttachmentMatch(s: string): (r: Option<AttachmentHit>)
    ensures r.Some? ==> 0 < r.value.end <= |s| && |r.value.name| > 0 && '"' !in r.value.name
    ensures r.Some? ==> AttachmentRefAt(s, 0, r.value.keyAt, r.value.name)
  {
    if !StartsWith(s, AttachmentOpen) then None
    else
      var lim := FindChar(s, '>', |AttachmentOpen|).GetOr(|s|);
      match LastFilenameIndex(s, |AttachmentOpen|, lim)
      case None => None
      case Some(j) => FilenameAt(s, j)
  }

  /** `re.findall` of the attachment pattern: every captured name, left to right. */
  function FindAllFilenames(s: string): (names: seq<string>)
    decreases |s|
    ensures forall k :: 0 <= k < |names| ==> |names[k]| > 0 && '"' !in names[k]
  {
    if s == [] then []
    else match AttachmentMatch(s)
      case Some(hit) => [hit.name] + FindAllFilenames(s[hit.end..])
      case None => FindAllFilenames(s[1..])
  }

  /** A reference inside `s[e..]` is a reference inside `s`, `e` places further on. */
  lemma {:induction false} ReferencedShift(s: string, e: nat, name: string)
    requires e <= |s| && Referenced(s[e..], name)
    ensures Referenced(s, name)
  {
    var i: nat, j: nat :| AttachmentRefAt(s[e..], i, j, name);
    var t := s[e..];
    assert s[e + i..e + i + |AttachmentOpen|] == t[i..i + |AttachmentOpen|];
    var w := FilenameKey + name + Quote;
    assert s[e + j..e + j + |w|] == t[j..j + |w|];
    assert AttachmentRefAt(s, e + i, e + j, name);
  }

  /** Every name in `names` is referenced by an attachment tag of `s`. */
  ghost predicate AllReferenced(s: string, names: seq<string>) {
    forall k :: 0 <= k < |names| ==> Referenced(s, names[k])
  }

  lemma {:induction false} AllReferencedShift(s: string, e: nat, names: seq<string>)
    requires e <= |s| && AllReferenced(s[e..], names)
    ensures AllReferenced(s, names)
  {
    forall k | 0 <= k < |names| ensures Referenced(s, names[k]) {
      ReferencedShift(s, e, names[k]);
    }
  }

  lemma {:induction false} AllReferencedCons(s: string, name: string, names: seq<string>)
    requires Referenced(s, name) && AllReferenced(s, names)
    ensures AllReferenced(s, [name] + names)
  {
    forall k | 0 <= k < |[name] + names| ensures Referenced(s, ([name] + names)[k]) {
      if k > 0 {
        assert ([name] + names)[k] == names[k - 1];
      }
    }
  }

  /** Every name the scan captures is referenced by an attachment tag of the input. */
  lemma {:induction false} FoundNamesAreReferenced(s: string)
    ensures AllReferenced(s, FindAllFilenames(s))
    decreases |s|
  {
    if s != [] {
      match AttachmentMatch(s)
      case Some(hit) =>
        var rest := s[hit.end..];
        FoundNamesAreReferenced(rest);
        AllReferencedShift(s, hit.end, FindAllFilenames(rest));
        assert AttachmentRefAt(s, 0, hit.keyAt, hit.name);
        AllReferencedCons(s, hit.name, FindAllFilenames(rest));
      case None =>
        FoundNamesAreReferenced(s[1..]);
        AllReferencedShift(s, 1, FindAllFilenames(s[1..]));
    }
  }

  /**
   * `extract_confluence_images`: the attachment names the body references,
   * without duplicates (the source returns `list(set(...))`, whose order is
   * unspecified, so the model returns the set).
   */
  function ExtractConfluenceImages(html: string): (names: set<string>)
    ensures forall n :: n in names ==> |n| > 0 && '"' !in n
  {
    set k | 0 <= k < |FindAllFilenames(html)| :: FindAllFilenames(html)[k]
  }

  /** Every extracted name appears as `ri:filename="name"` inside a tag opened by `<ri:attachment`. */
  lemma {:induction false} ExtractedNamesAreReferenced(html: string)
    ensures forall n :: n in ExtractConfluenceImages(html) ==> Referenced(html, n)
  {
    FoundNamesAreReferenced(html);
  }

  /** A body without `<ri:attachment` references no attachment. */
  lemma {:induction false} NoAttachmentTagNoNames(html: string)
    requires !Occurs(html, AttachmentOpen)
    ensures ExtractConfluenceImages(html) == {}
  {
    ExtractedNamesAreReferenced(html);
  }

  /**
   * Greedy `[^>]*` backing off finds `j` when the tail matches there and
   * nowhere later in `[j, hi]`.
   */
  lemma {:induction false} LastFilenameIndexAt(s: string, lo: nat, j: nat, hi: nat)
    requires lo <= j <= hi && FilenameAt(s, j).Some?
    requires forall x :: j < x <= hi ==> !OccursAt(s, x, FilenameKey)
    ensures LastFilenameIndex(s, lo, hi) == Some(j)
    decreases hi - j
  {
    if hi > j {
      assert FilenameAt(s, hi).None?;
      LastFilenameIndexAt(s, lo, j, hi - 1);
    }
  }

  /**
   * The attachment pattern matches at the head of `s` with the tail at `j`
   * when `j` lies inside the opening tag and no later `ri:filename="` does.
   */
  lemma {:induction false} AttachmentMatchAt(s: string, j: nat, lim: nat)
    requires StartsWith(s, AttachmentOpen) && FindChar(s, '>', |AttachmentOpen|) == Some(lim)
    requires |AttachmentOpen| <= j <= lim && FilenameAt(s, j).Some?
    requires forall x :: j < x < lim ==> !OccursAt(s, x, FilenameKey)
    ensures AttachmentMatch(s) == FilenameAt(s, j)
  {
    assert !OccursAt(s, lim, FilenameKey) by {
      if lim + |FilenameKey| <= |s| {
        assert s[lim..lim + |FilenameKey|][0] == s[lim];
      }
    }
    LastFilenameIndexAt(s, |AttachmentOpen|, j, lim);
  }

  /**
   * Where the parts of `<ri:attachment a ri:filename="n" b>` lie in `s`: the
   * key starts at `j`, the closing quote is at `q` and the `>` at `lim`.
   */
  ghost predicate TagLayout(s: string, a: string, n: string, b: string, j: nat, q: nat, lim: nat) {
    && j == |AttachmentOpen| + |a| && q == j + |FilenameKey| + |n| && lim == q + 1 + |b| && lim < |s|
    && StartsWith(s, AttachmentOpen)
    && (forall x :: |AttachmentOpen| <= x < j ==> s[x] == a[x - |AttachmentOpen|])
    && OccursAt(s, j, FilenameKey)
    && (forall x :: j + |FilenameKey| <= x < q ==> s[x] == n[x - j - |FilenameKey|])
    && s[q] == '"'
    && (forall x :: q < x < lim ==> s[x] == b[x - q - 1])
    && s[lim] == '>'
  }

  lemma {:induction false} AttachmentTagLayout(s: string, a: string, n: string, b: string, t: string)
    requires s == AttachmentOpen + a + FilenameKey + n + Quote + b + ">" + t
    ensures var j := |AttachmentOpen| + |a|;
      var q := j + |FilenameKey| + |n|;
      TagLayout(s, a, n, b, j, q, q + 1 + |b|)
  {
    var j := |AttachmentOpen| + |a|;
    assert s[..|AttachmentOpen|] == AttachmentOpen;
    assert s[j..j + |FilenameKey|] == FilenameKey;
  }

  /** The opening tag ends at the `>` after `b`. */
  lemma {:induction false} TagEndFromLayout(s: string, a: string, n: string, b: string, j: nat, q: nat, lim: nat)
    requires TagLayout(s, a, n, b, j, q, lim)
    requires '>' !in a && '>' !in n && '>' !in b
    ensures FindChar(s, '>', |AttachmentOpen|) == Some(lim)
    ensures FindChar(s, '>', q + 1) == Some(lim)
  {
    var v := j + |FilenameKey|;
    forall x | |AttachmentOpen| <= x < lim ensures s[x] != '>' {
      if x < j {
        assert s[x] == a[x - |AttachmentOpen|];
      } else if x < v {
        assert s[x] == s[j..v][x - j] == FilenameKey[x - j];
      } else if x < q {
        assert s[x] == n[x - v];
      } else if x > q {
        assert s[x] == b[x - q - 1];
      }
    }
  }

  /** The quoted value after the key is `n`. */
  lemma {:induction false} TagValueFromLayout(s: string, a: string, n: string, b: string, j: nat, q: nat, lim: nat)
    requires TagLayout(s, a, n, b, j, q, lim)
    requires n != [] && '"' !in n
    ensures ValueAt(s, j + |FilenameKey|, '"', Quote) == Some(n)
  {
    var v := j + |FilenameKey|;
    forall x | v <= x < q ensures s[x] != '"' {
      assert s[x] == n[x - v];
    }
    assert FindChar(s, '"', v) == Some(q);
    assert s[v..q] == n;
    assert OccursAt(s, q, Quote) by {
      assert s[q..q + 1][0] == s[q];
    }
  }

  /** The attachment pattern matches the tag the layout describes and captures `n`. */
  lemma {:induction false} TagMatchFromLayout(s: string, a: string, n: string, b: string, j: nat, q: nat, lim: nat)
    requires TagLayout(s, a, n, b, j, q, lim)
    requires '>' !in a && '>' !in n && '>' !in b
    requires n != [] && '"' !in n
    requires forall x :: j < x < lim ==> !OccursAt(s, x, FilenameKey)
    ensures AttachmentMatch(s) == Some(AttachmentHit(n, j, lim + 1))
  {
    TagEndFromLayout(s, a, n, b, j, q, lim);
    TagValueFromLayout(s, a, n, b, j, q, lim);
    assert FilenameAt(s, j) == Some(AttachmentHit(n, j, lim + 1));
    AttachmentMatchAt(s, j, lim);
  }

  /**
   * The opening tag `<ri:attachment a ri:filename="n" b>`, followed by `t`, is
   * one the pattern captures `n` from: no `>` before its end, `n` non-empty
   * and quote-free, and no later `ri:filename="` inside it (the greedy
   * `[^>]*` would back off to that one instead).
   */
  ghost predicate TagFits(a: string, n: string, b: string, t: string) {
    && '>' !in a && '>' !in n && '>' !in b
    && n != [] && '"' !in n
    && var s := AttachmentOpen + a + FilenameKey + n + Quote + b + ">" + t;
      forall x :: |AttachmentOpen| + |a| < x < |AttachmentOpen| + |a| + |FilenameKey| + |n| + 1 + |b|
        ==> !OccursAt(s, x, FilenameKey)
  }

  /**
   * `re.findall` resumes after each match: a fitting tag at the head of the
   * body gives `n` first, then the names of the text after its `>`.
   */
  lemma {:induction false} TagThenRest(a: string, n: string, b: string, t: string)
    requires TagFits(a, n, b, t)
    ensures FindAllFilenames(AttachmentOpen + a + FilenameKey + n + Quote + b + ">" + t) == [n] + FindAllFilenames(t)
  {
    var s := AttachmentOpen + a + FilenameKey + n + Quote + b + ">" + t;
    var j := |AttachmentOpen| + |a|;
    var q := j + |FilenameKey| + |n|;
    var lim := q + 1 + |b|;
    AttachmentTagLayout(s, a, n, b, t);
    TagMatchFromLayout(s, a, n, b, j, q, lim);
    assert s[lim + 1..] == t;
  }

  /** Every name an attachment tag references is extracted: a fitting tag at the head of the body yields `n`. */
  lemma {:induction false} ReferencedNameExtracted(a: string, n: string, b: string, t: string)
    requires TagFits(a, n, b, t)
    ensures n in ExtractConfluenceImages(AttachmentOpen + a + FilenameKey + n + Quote + b + ">" + t)
  {
    TagThenRest(a, n, b, t);
    assert FindAllFilenames(AttachmentOpen + a + FilenameKey + n + Quote + b + ">" + t)[0] == n;
  }

  /** Text in which no attachment tag opens contributes no names: the scan passes over it. */
  lemma {:induction false} NamesAfterPlainPrefix(p: string, t: string)
    requires forall x :: 0 <= x < |p| ==> !OccursAt(p + t, x, AttachmentOpen)
    ensures FindAllFilenames(p + t) == FindAllFilenames(t)
    decreases |p|
  {
    if p != [] {
      PlainPrefixStep(p, t, AttachmentOpen);
      NamesAfterPlainPrefix(p[1..], t);
    } else {
      assert p + t == t;
    }
  }

  /** After text in which no attachment tag opens, a fitting tag's name `n` is extracted. */
  lemma {:induction false} ReferencedNameExtractedAfter(p: string, a: string, n: string, b: string, t: string)
    requires forall x :: 0 <= x < |p| ==> !OccursAt(p + (AttachmentOpen + a + FilenameKey + n + Quote + b + ">" + t), x, AttachmentOpen)
    requires TagFits(a, n, b, t)
    ensures n in ExtractConfluenceImages(p + (AttachmentOpen + a + FilenameKey + n + Quote + b + ">" + t))
  {
    var tag := AttachmentOpen + a + FilenameKey + n + Quote + b + ">" + t;
    NamesAfterPlainPrefix(p, tag);
    ReferencedNameExtracted(a, n, b, t);
  }

  /** A storage-format body read as a sequence of plain text and attachment tags. */
  datatype BodyPiece = Plain(text: string) | AttachmentTag(before: string, name: string, after: string)

  /** The text of a body given as pieces; a tag is `<ri:attachment before ri:filename="name" after>`. */
  function Render(pieces: seq<BodyPiece>): string
    decreases |pieces|
  {
    if pieces == [] then []
    else match pieces[0]
      case Plain(p) => p + Render(pieces[1..])
      case AttachmentTag(a, n, b) => AttachmentOpen + a + FilenameKey + n + Quote + b + ">" + Render(pieces[1..])
  }

  /** The names the tags reference, left to right. */
  function TagNames(pieces: seq<BodyPiece>): seq<string>
    decreases |pieces|
  {
    if pieces == [] then []
    else match pieces[0]
      case Plain(_) => TagNames(pieces[1..])
      case AttachmentTag(_, n, _) => [n] + TagNames(pieces[1..])
  }

  /** No attachment tag opens inside plain text, and every tag fits. */
  ghost predicate WellFormedPieces(pieces: seq<BodyPiece>)
    decreases |pieces|
  {
    pieces != [] ==>
      && match pieces[0] {
        case Plain(p) => forall x :: 0 <= x < |p| ==> !OccursAt(p + Render(pieces[1..]), x, AttachmentOpen)
        case AttachmentTag(a, n, b) => TagFits(a, n, b, Render(pieces[1..]))
      }
      && WellFormedPieces(pieces[1..])
  }

  /**
   * The converse of `FoundNamesAreReferenced` for a whole body: the scan
   * captures exactly the names its tags reference, every one of them, in order.
   */
  lemma {:induction false} PiecesNames(pieces: seq<BodyPiece>)
    requires WellFormedPieces(pieces)
    ensures FindAllFilenames(Render(pieces)) == TagNames(pieces)
    decreases |pieces|
  {
    if pieces != [] {
      var rest := pieces[1..];
      PiecesNames(rest);
      match pieces[0]
      case Plain(p) =>
        NamesAfterPlainPrefix(p, Render(rest));
      case AttachmentTag(a, n, b) =>
        TagThenRest(a, n, b, Render(rest));
    }
  }

  /** `extract_confluence_images` of such a body is exactly the set of names its tags reference. */
  lemma {:induction false} EveryReferencedNameExtracted(pieces: seq<BodyPiece>)
    requires WellFormedPieces(pieces)
    ensures ExtractConfluenceImages(Render(pieces)) == set k | 0 <= k < |TagNames(pieces)| :: TagNames(pieces)[k]
  {
    PiecesNames(pieces);
  }

  /** A tag with no `r` in its name or in the attributes after it has no second key to back off to. */
  lemma {:induction false} TagFitsWithoutR(a: string, n: string, b: string, t: string)
    requires '>' !in a && '>' !in n && '>' !in b
    requires n != [] && '"' !in n
    requires 'r' !in n && 'r' !in b
    ensures TagFits(a, n, b, t)
  {
    var s := AttachmentOpen + a + FilenameKey + n + Quote + b + ">" + t;
    var j := |AttachmentOpen| + |a|;
    var q := j + |FilenameKey| + |n|;
    var lim := q + 1 + |b|;
    AttachmentTagLayout(s, a, n, b, t);
    forall x | j < x < lim ensures s[x] != 'r' {
      if x < j + |FilenameKey| {
        assert s[x] == s[j..j + |FilenameKey|][x - j] == FilenameKey[x - j];
      } else if x < q {
        assert s[x] == n[x - j - |FilenameKey|];
      } else if x > q {
        assert s[x] == b[x - q - 1];
      }
    }
    forall x | j < x < lim ensures !OccursAt(s, x, FilenameKey) {
      if x + |FilenameKey| <= |s| {
        assert s[x..x + |FilenameKey|][0] == s[x];
      }
    }
  }

  /** Two self-closing tags in a row: `re.findall` captures both names, the first and then the second. */
  lemma {:induction false} TwoTagsBothExtracted()
    ensures FindAllFilenames("<ri:attachment ri:filename=\"a\"/>" + "<ri:attachment ri:filename=\"b\"/>") == ["a", "b"]
  {
    var tagA, tagB := "<ri:attachment ri:filename=\"a\"/>", "<ri:attachment ri:filename=\"b\"/>";
    assert AttachmentOpen + " " + FilenameKey + "b" + Quote + "/" + ">" + [] == tagB;
    assert AttachmentOpen + " " + FilenameKey + "a" + Quote + "/" + ">" + tagB == tagA + tagB;
    TagFitsWithoutR(" ", "b", "/", []);
    TagThenRest(" ", "b", "/", []);
    TagFitsWithoutR(" ", "a", "/", tagB);
    TagThenRest(" ", "a", "/", tagB);
    assert FindAllFilenames([]) == [];
  }

  // ---------------------------------------------------------------------------
  // Replacement tags
  // ---------------------------------------------------------------------------

  /** The `src` for an attachment name: its image-map entry, else `images/<name>`. */
  function ImageSrc(imageMap: map<string, string>, filename: string): string {
    if filename in imageMap then imageMap[filename] else "images/" + filename
  }

  function ImgTag(src: string, alt: string): string {
    "<img src=\"" + src + "\" alt=\"" + alt + "\" />"
  }

  /** What `replace_ac_image` returns for a matched `<ac:image>` block. */
  function ImageReplacement(block: string, imageMap: map<string, string>): string {
    match FilenameOf(block)
    case Some(f) => ImgTag(ImageSrc(imageMap, f), AltOf(block))
    case None => ""
  }

  /** What `replace_drawio` returns for a matched drawio macro. */
  function DrawioReplacement(block: string, imageMap: map<string, string>): string {
    match DiagramNameOf(block)
    case Some(n) => ImgTag(ImageSrc(imageMap, n + ".png"), n)
    case None => ""
  }

  // ---------------------------------------------------------------------------
  // Blocks: `open[^>]*>.*?close` (DOTALL), optionally with a marker in the opening tag
  // ---------------------------------------------------------------------------

  /** Where the opening tag that `open` starts at the head of `s` ends: its first `>`. */
  function OpeningTagEndOf(s: string, open: string): (r: Option<nat>)
    ensures r.Some? ==> |open| <= r.value < |s|
  {
    if !StartsWith(s, open) then None else FindChar(s, '>', |open|)
  }

  /**
   * `open[^>]*>.*?close` at the head of `s`: the length of the block. The
   * greedy `[^>]*` can only end at the first `>`, and the lazy `.*?` ends
   * at the first `close` after it.
   */
  function BlockEnd(s: string, open: string, close: string): (r: Option<nat>)
    ensures r.Some? ==> 0 < r.value <= |s|
  {
    match OpeningTagEndOf(s, open)
    case None => None
    case Some(g) =>
      match Find(s, close, g + 1)
      case None => None
      case Some(c) => Some(c + |close|)
  }

  /** `open[^>]*marker[^>]*>` at the head of `s`: the marker lies inside the opening tag. */
  predicate MarkerInTag(s: string, open: string, marker: string) {
    match OpeningTagEndOf(s, open)
    case None => false
    case Some(g) =>
      match Find(s, marker, |open|)
      case None => false
      case Some(p) => p + |marker| <= g
  }

  /**
   * In `open + attrs + ">" + body + close + t`, with no `>` in `attrs` and
   * `close` first found at the end of `body + close`, the block is
   * `open + attrs + ">" + body + close`.
   */
  lemma {:induction false} BlockEndAt(open: string, attrs: string, body: string, close: string, t: string)
    requires '>' !in attrs
    requires Find(body + close, close, 0) == Some(|body|)
    ensures BlockEnd(open + attrs + ">" + body + close + t, open, close)
      == Some(|open| + |attrs| + 1 + |body| + |close|)
  {
    var s := open + attrs + ">" + body + close + t;
    var g := |open| + |attrs|;
    var c := g + 1 + |body|;
    BlockParts(s, open, attrs, body, close, t, g, c);
    BlockEndFrom(s, open, close, g, c);
    assert c + |close| == |open| + |attrs| + 1 + |body| + |close|;
  }

  /** Where the opening tag and the first `close` after it lie in `open + attrs + ">" + body + close + t`. */
  lemma {:induction false} BlockParts(s: string, open: string, attrs: string, body: string, close: string, t: string,
                                      g: nat, c: nat)
    requires '>' !in attrs
    requires Find(body + close, close, 0) == Some(|body|)
    requires s == open + attrs + ">" + body + close + t
    requires g == |open| + |attrs| && c == g + 1 + |body|
    ensures StartsWith(s, open) && FindChar(s, '>', |open|) == Some(g)
    ensures Find(s, close, g + 1) == Some(c)
  {
    TagStart(open, attrs, body, close, t);
    TagOpeningEnd(open, attrs, body, close, t);
    TagClose(open, attrs, body, close, t);
  }

  /** The block ends after the first `close` past the first `>` of the opening tag. */
  lemma {:induction false} BlockEndFrom(s: string, open: string, close: string, g: nat, c: nat)
    requires StartsWith(s, open) && FindChar(s, '>', |open|) == Some(g)
    requires Find(s, close, g + 1) == Some(c)
    ensures BlockEnd(s, open, close) == Some(c + |close|)
  {
  }

  /** A marker inside `attrs` is inside the opening tag. */
  lemma {:induction false} MarkerFound(open: string, attrs: string, body: string, close: string, t: string, marker: string, x: nat)
    requires '>' !in attrs && OccursAt(attrs, x, marker)
    ensures MarkerInTag(open + attrs + ">" + body + close + t, open, marker)
  {
    var rest := body + close + t;
    var s := open + attrs + ">" + rest;
    assert open + attrs + ">" + body + close + t == s;
    assert StartsWith(s, open) by {
      assert s[..|open|] == open;
    }
    OpeningTagEnd(open, attrs, rest);
    MarkerInOpeningTag(open, attrs, rest, marker, x);
  }

  /** A marker that does not occur in `attrs` is not inside the opening tag. */
  lemma {:induction false} MarkerMissing(open: string, attrs: string, rest: string, marker: string)
    requires '>' !in attrs && !Occurs(attrs, marker)
    ensures !MarkerInTag(open + attrs + ">" + rest, open, marker)
  {
    var s := open + attrs + ">" + rest;
    var g := |open| + |attrs|;
    if StartsWith(s, open) {
      OpeningTagEnd(open, attrs, rest);
      var p := Find(s, marker, |open|);
      if p.Some? && p.value + |marker| <= g {
        assert s == open + attrs + (">" + rest);
        OccursInside(open, attrs, ">" + rest, p.value - |open|, marker);
        assert false;
      }
    }
  }

  /** The first `>` at or after `|open|` in `open + attrs + ">" + rest` ends the opening tag. */
  lemma {:induction false} OpeningTagEnd(open: string, attrs: string, rest: string)
    requires '>' !in attrs
    ensures FindChar(open + attrs + ">" + rest, '>', |open|) == Some(|open| + |attrs|)
  {
    var s := open + attrs + ">" + rest;
    var g := |open| + |attrs|;
    assert s[g] == '>';
    forall x | |open| <= x < g ensures s[x] != '>' {
      assert s[x] == attrs[x - |open|];
    }
  }

  /**
   * Lazy `.*?`: when `close` first occurs in `body + close` at its end, the
   * first `close` after `pre` in `pre + body + close + t` is the appended one.
   */
  lemma {:induction false} FirstClose(pre: string, body: string, close: string, t: string)
    requires Find(body + close, close, 0) == Some(|body|)
    ensures Find(pre + body + close + t, close, |pre|) == Some(|pre| + |body|)
  {
    FindAppend(body + close, t, close, 0, |body|);
    FindAfterPrefix(pre, body + close + t, close, |body|);
    Regroup(pre, body, close, t);
  }

  lemma {:induction false} FindAfterPrefix(pre: string, u: string, p: string, j: nat)
    requires Find(u, p, 0) == Some(j)
    ensures Find(pre + u, p, |pre|) == Some(|pre| + j)
  {
    FindPrepend(pre, u, p, 0);
  }

  lemma {:induction false} Regroup(a: string, b: string, c: string, d: string)
    ensures a + b + c + d == a + (b + c + d)
  {
  }

  lemma {:induction false} TagClose(open: string, attrs: string, body: string, close: string, t: string)
    requires Find(body + close, close, 0) == Some(|body|)
    ensures Find(open + attrs + ">" + body + close + t, close, |open| + |attrs| + 1) == Some(|open| + |attrs| + 1 + |body|)
  {
    var pre := open + attrs + ">";
    FirstClose(pre, body, close, t);
    assert |pre| == |open| + |attrs| + 1;
  }

  lemma {:induction false} TagStart(open: string, attrs: string, body: string, close: string, t: string)
    ensures StartsWith(open + attrs + ">" + body + close + t, open)
  {
    var s := open + attrs + ">" + body + close + t;
    assert s[..|open|] == open;
  }

  lemma {:induction false} TagOpeningEnd(open: string, attrs: string, body: string, close: string, t: string)
    requires '>' !in attrs
    ensures FindChar(open + attrs + ">" + body + close + t, '>', |open|) == Some(|open| + |attrs|)
  {
    var rest := body + close + t;
    assert open + attrs + ">" + body + close + t == open + attrs + ">" + rest;
    OpeningTagEnd(open, attrs, rest);
  }

  /** A marker inside the attributes is found before the end of the opening tag. */
  lemma {:induction false} MarkerInOpeningTag(open: string, attrs: string, rest: string, marker: string, x: nat)
    requires OccursAt(attrs, x, marker)
    ensures var p := Find(open + attrs + ">" + rest, marker, |open|);
      p.Some? && p.value + |marker| <= |open| + |attrs|
  {
    var s := open + attrs + ">" + rest;
    assert s == open + attrs + (">" + rest);
    OccursInside(open, attrs, ">" + rest, x, marker);
    var p := Find(s, marker, |open|);
    assert p.Some? && p.value <= |open| + x;
  }

  // ---------------------------------------------------------------------------
  // convert_confluence_images
  // ---------------------------------------------------------------------------

  /** `<ac:image[^>]*>.*?</ac:image>` (DOTALL) at the start of `s`: the length of the block. */
  function ImageBlockEnd(s: string): (r: Option<nat>)
    ensures r.Some? ==> 0 < r.value <= |s|
  {
    BlockEnd(s, ImageOpen, ImageClose)
  }

  /** `convert_confluence_images`: `re.sub` of the image pattern with `replace_ac_image`. */
  function ConvertConfluenceImages(html: string, imageMap: map<string, string>): string
    decreases |html|
  {
    if html == [] then []
    else match ImageBlockEnd(html)
      case Some(e) => ImageReplacement(html[..e], imageMap) + ConvertConfluenceImages(html[e..], imageMap)
      case None => [html[0]] + ConvertConfluenceImages(html[1..], imageMap)
  }

  /** The scan never matches at a position a closing tag cannot follow. */
  lemma {:induction false} NoCloseAfterShift(s: string, close: string)
    requires s != [] && !Occurs(s, close)
    ensures !Occurs(s[1..], close)
  {
    if j: nat :| OccursAt(s[1..], j, close) {
      OccursShift(s, j, close);
    }
  }

  /** A body with no `</ac:image>` passes through the image pass unchanged. */
  lemma {:induction false} ImagesWithoutCloseUnchanged(html: string, imageMap: map<string, string>)
    requires !Occurs(html, ImageClose)
    ensures ConvertConfluenceImages(html, imageMap) == html
    decreases |html|
  {
    if html != [] {
      assert ImageBlockEnd(html).None? by {
        forall k: nat ensures Find(html, ImageClose, k).None? {
          NotFoundWhenAbsent(html, ImageClose, k);
        }
      }
      NoCloseAfterShift(html, ImageClose);
      ImagesWithoutCloseUnchanged(html[1..], imageMap);
      assert html == [html[0]] + html[1..];
    }
  }

  /** A text whose first character differs from the pattern's does not start with it. */
  lemma {:induction false} HeadDiffers(s: string, p: string)
    requires s != [] && p != [] && s[0] != p[0]
    ensures !StartsWith(s, p)
  {
    if |p| <= |s| {
      assert s[..|p|][0] != p[0];
    }
  }

  /** Dropping the first character of `p + t` leaves `p[1..] + t`, in which `open` still opens nowhere before `t`. */
  lemma {:induction false} PlainPrefixStep(p: string, t: string, open: string)
    requires p != []
    requires forall x :: 0 <= x < |p| ==> !OccursAt(p + t, x, open)
    ensures !StartsWith(p + t, open) && (p + t)[1..] == p[1..] + t && (p + t)[0] == p[0]
    ensures forall x :: 0 <= x < |p[1..]| ==> !OccursAt(p[1..] + t, x, open)
  {
    var s := p + t;
    assert s[1..] == p[1..] + t;
    forall x | 0 <= x < |p[1..]| ensures !OccursAt(p[1..] + t, x, open) {
      if OccursAt(p[1..] + t, x, open) {
        OccursShift(s, x, open);
      }
    }
  }

  /** Copying the head of `p` and then the rest of it is copying `p`. */
  lemma {:induction false} HeadThenRest(p: string, t: string, r: string)
    requires p != []
    ensures [(p + t)[0]] + (p[1..] + r) == p + r
  {
    assert p == [p[0]] + p[1..];
  }

  /** Text in which no `<ac:image` opens is copied unchanged by the image pass. */
  lemma {:induction false} ImagesCopyPlainPrefix(p: string, t: string, imageMap: map<string, string>)
    requires forall x :: 0 <= x < |p| ==> !OccursAt(p + t, x, ImageOpen)
    ensures ConvertConfluenceImages(p + t, imageMap) == p + ConvertConfluenceImages(t, imageMap)
    decreases |p|
  {
    if p != [] {
      var s := p + t;
      PlainPrefixStep(p, t, ImageOpen);
      ImagesCopyPlainPrefix(p[1..], t, imageMap);
      assert ImageBlockEnd(s).None?;
      HeadThenRest(p, t, ConvertConfluenceImages(t, imageMap));
    } else {
      assert p + t == t;
    }
  }

  /**
   * An `<ac:image>` block at the head of the text becomes exactly one `<img>`
   * tag: its `src` is the image-map entry for the block's first filename, or
   * `images/<filename>` when the map has none, and its `alt` is the first
   * non-empty `ac:alt` value, or empty. A block without a filename is dropped.
   * Matching stops at the first `</ac:image>`; the rest is scanned afresh.
   */
  lemma {:induction false} ImageBlockReplaced(attrs: string, body: string, t: string, imageMap: map<string, string>)
    requires '>' !in attrs
    requires Find(body + ImageClose, ImageClose, 0) == Some(|body|)
    ensures var block := ImageOpen + attrs + ">" + body + ImageClose;
      && (FilenameOf(block).Some? && FilenameOf(block).value in imageMap ==>
           ConvertConfluenceImages(block + t, imageMap)
             == ImgTag(imageMap[FilenameOf(block).value], AltOf(block)) + ConvertConfluenceImages(t, imageMap))
      && (FilenameOf(block).Some? && FilenameOf(block).value !in imageMap ==>
           ConvertConfluenceImages(block + t, imageMap)
             == ImgTag("images/" + FilenameOf(block).value, AltOf(block)) + ConvertConfluenceImages(t, imageMap))
      && (FilenameOf(block).None? ==>
           ConvertConfluenceImages(block + t, imageMap) == ConvertConfluenceImages(t, imageMap))
  {
    var block := ImageOpen + attrs + ">" + body + ImageClose;
    ImageBlockMatched(attrs, body, t, imageMap);
    ImageCases(block, t, imageMap);
  }

  /** The three outcomes of `replace_ac_image` for a block the pattern matched. */
  lemma {:induction false} ImageCases(block: string, t: string, imageMap: map<string, string>)
    requires ConvertConfluenceImages(block + t, imageMap) == ImageReplacement(block, imageMap) + ConvertConfluenceImages(t, imageMap)
    ensures && (FilenameOf(block).Some? && FilenameOf(block).value in imageMap ==>
           ConvertConfluenceImages(block + t, imageMap)
             == ImgTag(imageMap[FilenameOf(block).value], AltOf(block)) + ConvertConfluenceImages(t, imageMap))
      && (FilenameOf(block).Some? && FilenameOf(block).value !in imageMap ==>
           ConvertConfluenceImages(block + t, imageMap)
             == ImgTag("images/" + FilenameOf(block).value, AltOf(block)) + ConvertConfluenceImages(t, imageMap))
      && (FilenameOf(block).None? ==>
           ConvertConfluenceImages(block + t, imageMap) == ConvertConfluenceImages(t, imageMap))
  {
  }

  /** The image pattern matches the whole block and nothing more. */
  lemma {:induction false} ImageBlockMatched(attrs: string, body: string, t: string, imageMap: map<string, string>)
    requires '>' !in attrs
    requires Find(body + ImageClose, ImageClose, 0) == Some(|body|)
    ensures var block := ImageOpen + attrs + ">" + body + ImageClose;
      ConvertConfluenceImages(block + t, imageMap) == ImageReplacement(block, imageMap) + ConvertConfluenceImages(t, imageMap)
  {
    var block := ImageOpen + attrs + ">" + body + ImageClose;
    var s := block + t;
    BlockEndAt(ImageOpen, attrs, body, ImageClose, t);
    assert ImageBlockEnd(s) == Some(|block|);
    assert s[..|block|] == block && s[|block|..] == t;
  }

  // ---------------------------------------------------------------------------
  // convert_drawio_macros
  // ---------------------------------------------------------------------------

  /**
   * `<ac:structured-macro[^>]*ac:name="drawio"[^>]*>.*?</ac:structured-macro>`
   * (DOTALL) at the start of `s`: the length of the block. The marker must
   * lie inside the opening tag, before its first `>`.
   */
  function DrawioBlockEnd(s: string): (r: Option<nat>)
    ensures r.Some? ==> 0 < r.value <= |s|
  {
    if MarkerInTag(s, MacroOpen, DrawioMarker) then BlockEnd(s, MacroOpen, MacroClose) else None
  }

  /** `convert_drawio_macros`: `re.sub` of the drawio pattern with `replace_drawio`. */
  function ConvertDrawioMacros(html: string, imageMap: map<string, string>): string
    decreases |html|
  {
    if html == [] then []
    else match DrawioBlockEnd(html)
      case Some(e) => DrawioReplacement(html[..e], imageMap) + ConvertDrawioMacros(html[e..], imageMap)
      case None => [html[0]] + ConvertDrawioMacros(html[1..], imageMap)
  }

  /** A body that never says `ac:name="drawio"` passes through the drawio pass unchanged. */
  lemma {:induction false} DrawioWithoutMarkerUnchanged(html: string, imageMap: map<string, string>)
    requires !Occurs(html, DrawioMarker)
    ensures ConvertDrawioMacros(html, imageMap) == html
    decreases |html|
  {
    if html != [] {
      assert DrawioBlockEnd(html).None? by {
        NotFoundWhenAbsent(html, DrawioMarker, |MacroOpen|);
      }
      NoCloseAfterShift(html, DrawioMarker);
      DrawioWithoutMarkerUnchanged(html[1..], imageMap);
      assert html == [html[0]] + html[1..];
    }
  }

  /** Text in which no `<ac:structured-macro` opens is copied unchanged by the drawio pass. */
  lemma {:induction false} DrawioCopyPlainPrefix(p: string, t: string, imageMap: map<string, string>)
    requires forall x :: 0 <= x < |p| ==> !OccursAt(p + t, x, MacroOpen)
    ensures ConvertDrawioMacros(p + t, imageMap) == p + ConvertDrawioMacros(t, imageMap)
    decreases |p|
  {
    if p != [] {
      var s := p + t;
      PlainPrefixStep(p, t, MacroOpen);
      DrawioCopyPlainPrefix(p[1..], t, imageMap);
      assert DrawioBlockEnd(s).None?;
      HeadThenRest(p, t, ConvertDrawioMacros(t, imageMap));
    } else {
      assert p + t == t;
    }
  }

  /**
   * A structured macro whose opening tag lacks `ac:name="drawio"` is not
   * matched: its first character is copied and the scan moves on by one.
   */
  lemma {:induction false} OtherMacroNotMatched(attrs: string, rest: string, imageMap: map<string, string>)
    requires '>' !in attrs && !Occurs(attrs, DrawioMarker)
    ensures var s := MacroOpen + attrs + ">" + rest;
      ConvertDrawioMacros(s, imageMap) == [s[0]] + ConvertDrawioMacros(s[1..], imageMap)
  {
    var s := MacroOpen + attrs + ">" + rest;
    MarkerMissing(MacroOpen, attrs, rest, DrawioMarker);
    assert DrawioBlockEnd(s).None?;
  }

  /**
   * A drawio macro at the head of the text becomes exactly one `<img>` tag:
   * for diagram name `n` its `src` is the image-map entry for `n.png`, or
   * `images/n.png`, and its `alt` is `n`. A macro without a name is dropped.
   * Matching stops at the first `</ac:structured-macro>`.
   */
  lemma {:induction false} DrawioBlockReplaced(attrs: string, body: string, t: string, imageMap: map<string, string>)
    requires '>' !in attrs && Occurs(attrs, DrawioMarker)
    requires Find(body + MacroClose, MacroClose, 0) == Some(|body|)
    ensures var block := MacroOpen + attrs + ">" + body + MacroClose;
      && (DiagramNameOf(block).Some? && DiagramNameOf(block).value + ".png" in imageMap ==>
           ConvertDrawioMacros(block + t, imageMap)
             == ImgTag(imageMap[DiagramNameOf(block).value + ".png"], DiagramNameOf(block).value)
                + ConvertDrawioMacros(t, imageMap))
      && (DiagramNameOf(block).Some? && DiagramNameOf(block).value + ".png" !in imageMap ==>
           ConvertDrawioMacros(block + t, imageMap)
             == ImgTag("images/" + (DiagramNameOf(block).value + ".png"), DiagramNameOf(block).value)
                + ConvertDrawioMacros(t, imageMap))
      && (DiagramNameOf(block).None? ==>
           ConvertDrawioMacros(block + t, imageMap) == ConvertDrawioMacros(t, imageMap))
  {
    var block := MacroOpen + attrs + ">" + body + MacroClose;
    DrawioBlockMatched(attrs, body, t, imageMap);
    DrawioCases(block, t, imageMap);
  }

  /** The three outcomes of `replace_drawio` for a block the pattern matched. */
  lemma {:induction false} DrawioCases(block: string, t: string, imageMap: map<string, string>)
    requires ConvertDrawioMacros(block + t, imageMap) == DrawioReplacement(block, imageMap) + ConvertDrawioMacros(t, imageMap)
    ensures && (DiagramNameOf(block).Some? && DiagramNameOf(block).value + ".png" in imageMap ==>
           ConvertDrawioMacros(block + t, imageMap)
             == ImgTag(imageMap[DiagramNameOf(block).value + ".png"], DiagramNameOf(block).value)
                + ConvertDrawioMacros(t, imageMap))
      && (DiagramNameOf(block).Some? && DiagramNameOf(block).value + ".png" !in imageMap ==>
           ConvertDrawioMacros(block + t, imageMap)
             == ImgTag("images/" + (DiagramNameOf(block).value + ".png"), DiagramNameOf(block).value)
                + ConvertDrawioMacros(t, imageMap))
      && (DiagramNameOf(block).None? ==>
           ConvertDrawioMacros(block + t, imageMap) == ConvertDrawioMacros(t, imageMap))
  {
  }

  /** The drawio pattern matches the whole macro and nothing more. */
  lemma {:induction false} DrawioBlockMatched(attrs: string, body: string, t: string, imageMap: map<string, string>)
    requires '>' !in attrs && Occurs(attrs, DrawioMarker)
    requires Find(body + MacroClose, MacroClose, 0) == Some(|body|)
    ensures var block := MacroOpen + attrs + ">" + body + MacroClose;
      ConvertDrawioMacros(block + t, imageMap) == DrawioReplacement(block, imageMap) + ConvertDrawioMacros(t, imageMap)
  {
    var block := MacroOpen + attrs + ">" + body + MacroClose;
    var s := block + t;
    var x: nat :| OccursAt(attrs, x, DrawioMarker);
    MarkerFound(MacroOpen, attrs, body, MacroClose, t, DrawioMarker, x);
    BlockEndAt(MacroOpen, attrs, body, MacroClose, t);
    assert DrawioBlockEnd(s) == Some(|block|);
    assert s[..|block|] == block && s[|block|..] == t;
  }

  // ---------------------------------------------------------------------------
  // html_to_markdown
  // ---------------------------------------------------------------------------

  /** The HTML handed to the Markdown converter: the image pass, then the drawio pass. */
  function StandardHtml(html: string, imageMap: map<string, string>): string {
    ConvertDrawioMacros(ConvertConfluenceImages(html, imageMap), imageMap)
  }

  /**
   * `html_to_markdown`: the referenced names come from the original body,
   * before any rewrite; a missing image map means the empty map; the
   * Markdown converter is a parameter.
   */
  function HtmlToMarkdown(html: string, imageMap: Option<map<string, string>>, markdownify: string -> string)
    : (r: (string, set<string>))
    ensures imageMap.Some? ==> r.0 == markdownify(ConvertDrawioMacros(ConvertConfluenceImages(html, imageMap.value), imageMap.value))
    ensures imageMap.None? ==> r.0 == markdownify(ConvertDrawioMacros(ConvertConfluenceImages(html, map[]), map[]))
    ensures r.1 == ExtractConfluenceImages(html)
  {
    var m := imageMap.GetOr(map[]);
    (markdownify(StandardHtml(html, m)), ExtractConfluenceImages(html))
  }

  /** The referenced names do not depend on the image map or on the Markdown converter. */
  lemma {:induction false} NamesIgnoreImageMap(html: string, m1: Option<map<string, string>>, m2: Option<map<string, string>>,
                            md1: string -> string, md2: string -> string)
    ensures HtmlToMarkdown(html, m1, md1).1 == HtmlToMarkdown(html, m2, md2).1
  {
  }

  /** A body with no `</ac:image>` and no drawio marker reaches the Markdown converter as it is. */
  lemma {:induction false} PlainBodyReachesMarkdownUnchanged(html: string, imageMap: map<string, string>)
    requires !Occurs(html, ImageClose) && !Occurs(html, DrawioMarker)
    ensures StandardHtml(html, imageMap) == html
  {
    ImagesWithoutCloseUnchanged(html, imageMap);
    DrawioWithoutMarkerUnchanged(html, imageMap);
  }

  // ---------------------------------------------------------------------------
  // rewrite_image_links
  // ---------------------------------------------------------------------------

  /** The dictionary's entries in order, each applied with `str.replace`. */
  function ReplaceEach(s: string, entries: seq<(string, string)>): string
    decreases |entries|
  {
    if entries == [] then s
    else ReplaceEach(ReplaceAll(s, entries[0].0, entries[0].1), entries[1..])
  }

  /** `rewrite_image_links`: `result = result.replace(url, path)` for each entry, in order. */
  method RewriteImageLinks(markdown: string, entries: seq<(string, string)>) returns (result: string)
    ensures result == ReplaceEach(markdown, entries)
    ensures entries == [] ==> result == markdown
  {
    result := markdown;
    var i := 0;
    while i < |entries|
      invariant 0 <= i <= |entries|
      invariant ReplaceEach(result, entries[i..]) == ReplaceEach(markdown, entries)
    {
      assert entries[i..][1..] == entries[i + 1..];
      result := ReplaceAll(result, entries[i].0, entries[i].1);
      i := i + 1;
    }
  }

  /** An entry whose URL does not occur in the text at its turn changes nothing. */
  lemma {:induction false} AbsentEntrySkipped(s: string, url: string, path: string, rest: seq<(string, string)>)
    requires !Occurs(s, url)
    ensures ReplaceEach(s, [(url, path)] + rest) == ReplaceEach(s, rest)
  {
    ReplaceAbsent(s, url, path);
    assert ([(url, path)] + rest)[1..] == rest;
  }

}
