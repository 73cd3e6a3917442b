/**
 * `sanitize_filename`: a page title turned into a directory name. Characters
 * of a fixed class are removed, every run of whitespace becomes one space,
 * the ends are stripped, and an empty result becomes `Untitled`.
 *
 * The class is written `<>:"|?*\/\x00-\x1f` but goes through `re.escape`,
 * which escapes the backslashes and the hyphen, so the character class the
 * regular expression sees is the literal set below rather than a range of
 * control characters. `SanitizeFilename` models that class;
 * `SanitizeFilenameIntended` removes the reserved characters and the control
 * characters U+0000 to U+001F, which is what the function's own comment says
 * it does. Both are instances of one `Sanitize` whose properties are proved
 * once.
 */
module Filenames {
  import opened Strings

  /** The characters the regular expression removes, as written. */
  const InvalidAsWritten: set<char> :=
    {'<', '>', ':', '"', '|', '?', '*', '\\', '/', 'x', '0', '-', '1', 'f'}

  /** The reserved characters and the control characters U+0000 to U+001F. */
  const InvalidIntended: set<char> :=
    {'<', '>', ':', '"', '|', '?', '*', '\\', '/'} + set c: char | '\0' <= c <= '\U{1f}'

  const Fallback: string := "Untitled"

  /** Every whitespace character is a plain space and no two are adjacent. */
  predicate Normalized(s: string) {
    && (forall i :: 0 <= i < |s| && IsSpace(s[i]) ==> s[i] == ' ')
    && (forall i :: 0 <= i < |s| - 1 ==> !(IsSpace(s[i]) && IsSpace(s[i + 1])))
  }

  /** No whitespace at either end. */
  predicate Trimmed(s: string) {
    s == [] || (!IsSpace(s[0]) && !IsSpace(s[|s| - 1]))
  }

  /** No character of `s` is in `invalid`. */
  predicate Clean(s: string, invalid: set<char>) {
    forall i :: 0 <= i < |s| ==> s[i] !in invalid
  }

  /** `re.sub("[...]", "", s)`: the characters of `s` outside `invalid`, in order. */
  function RemoveChars(s: string, invalid: set<char>): (r: string)
    ensures Clean(r, invalid)
    ensures |r| <= |s|
    decreases |s|
  {
    if s == [] then []
    else if s[0] in invalid then RemoveChars(s[1..], invalid)
    else [s[0]] + RemoveChars(s[1..], invalid)
  }

  /** Removal leaves a clean string as it is. */
  lemma {:induction false} RemoveCharsClean(s: string, invalid: set<char>)
    requires Clean(s, invalid)
    ensures RemoveChars(s, invalid) == s
    decreases |s|
  {
    if s != [] {
      RemoveCharsClean(s[1..], invalid);
      assert s == [s[0]] + s[1..];
    }
  }

  /** A character survives removal exactly when it occurs in `s` and is not in `invalid`. */
  lemma {:induction false} RemoveCharsKeeps(s: string, invalid: set<char>, c: char)
    ensures c in RemoveChars(s, invalid) <==> c in s && c !in invalid
    decreases |s|
  {
    if s != [] {
      RemoveCharsKeeps(s[1..], invalid, c);
      assert s == [s[0]] + s[1..];
    }
  }

  /** `re.sub(r"\s+", " ", s)`: every maximal run of whitespace becomes one space. */
  function Collapse(s: string): (r: string)
    ensures Normalized(r)
    ensures r == [] <==> s == []
    ensures r != [] ==> (IsSpace(r[0]) <==> IsSpace(s[0]))
    decreases |s|
  {
    if s == [] then []
    else if IsSpace(s[0]) then " " + Collapse(TrimStart(s, IsSpace))
    else [s[0]] + Collapse(s[1..])
  }

  /** Collapsing adds no character but a space. */
  lemma {:induction false} CollapseClean(s: string, invalid: set<char>)
    requires Clean(s, invalid) && ' ' !in invalid
    ensures Clean(Collapse(s), invalid)
    decreases |s|
  {
    if s != [] {
      if IsSpace(s[0]) {
        var t := TrimStart(s, IsSpace);
        assert t == s[|s| - |t|..];
        assert Clean(t, invalid) by {
          forall k | 0 <= k < |t| ensures t[k] !in invalid {
            assert t[k] == s[|s| - |t| + k];
          }
        }
        CollapseClean(t, invalid);
      } else {
        CollapseClean(s[1..], invalid);
      }
    }
  }

  /** The characters of `s` that are not whitespace, in order. */
  function NonSpace(s: string): string
    decreases |s|
  {
    if s == [] then [] else (if IsSpace(s[0]) then [] else [s[0]]) + NonSpace(s[1..])
  }

  /** Leading whitespace carries no text. */
  lemma {:induction false} TrimStartKeepsText(s: string)
    ensures NonSpace(TrimStart(s, IsSpace)) == NonSpace(s)
    decreases |s|
  {
    if s != [] && IsSpace(s[0]) {
      TrimStartKeepsText(s[1..]);
    }
  }

  /** Collapsing whitespace changes only whitespace: the other characters stay, in order. */
  lemma {:induction false} CollapseKeepsText(s: string)
    ensures NonSpace(Collapse(s)) == NonSpace(s)
    decreases |s|
  {
    if s != [] {
      if IsSpace(s[0]) {
        var t := TrimStart(s, IsSpace);
        assert t == TrimStart(s[1..], IsSpace);
        CollapseKeepsText(t);
        TrimStartKeepsText(s);
        assert (" " + Collapse(t))[1..] == Collapse(t);
      } else {
        CollapseKeepsText(s[1..]);
        assert ([s[0]] + Collapse(s[1..]))[1..] == Collapse(s[1..]);
      }
    }
  }

  lemma {:induction false} NonSpaceConcat(a: string, b: string)
    ensures NonSpace(a + b) == NonSpace(a) + NonSpace(b)
    decreases |a|
  {
    if a != [] {
      assert (a + b)[1..] == a[1..] + b;
      NonSpaceConcat(a[1..], b);
    } else {
      assert a + b == b;
    }
  }

  lemma {:induction false} NonSpaceAllSpace(s: string)
    requires forall i :: 0 <= i < |s| ==> IsSpace(s[i])
    ensures NonSpace(s) == []
    decreases |s|
  {
    if s != [] {
      NonSpaceAllSpace(s[1..]);
    }
  }

  /** Trailing whitespace carries no text. */
  lemma {:induction false} TrimEndKeepsText(t: string)
    ensures NonSpace(TrimEnd(t, IsSpace)) == NonSpace(t)
  {
    var r := TrimEnd(t, IsSpace);
    var u := t[|r|..];
    assert t == r + u;
    forall i | 0 <= i < |u| ensures IsSpace(u[i]) {
      assert u[i] == t[|r| + i];
    }
    NonSpaceConcat(r, u);
    NonSpaceAllSpace(u);
  }

  /** Stripping removes whitespace only. */
  lemma {:induction false} TrimKeepsText(s: string)
    ensures NonSpace(Trim(s, IsSpace)) == NonSpace(s)
  {
    TrimStartKeepsText(s);
    TrimEndKeepsText(TrimStart(s, IsSpace));
  }

  /** What survives removal, collapsing and stripping. */
  function Cleaned(name: string, invalid: set<char>): string {
    Trim(Collapse(RemoveChars(name, invalid)), IsSpace)
  }

  /** `sanitize_filename` for a given character class. */
  function Sanitize(name: string, invalid: set<char>): (r: string)
    ensures r != []
    ensures Cleaned(name, invalid) == [] ==> r == Fallback
    ensures Cleaned(name, invalid) != [] ==> r == Cleaned(name, invalid)
  {
    var s := Cleaned(name, invalid);
    if s == [] then Fallback else s
  }

  /** `sanitize_filename` as written. */
  function SanitizeFilename(name: string): (r: string)
    ensures r != [] && Clean(r, InvalidAsWritten)
    ensures Normalized(r) && Trimmed(r)
  {
    SanitizeShape(name, InvalidAsWritten);
    Sanitize(name, InvalidAsWritten)
  }

  /** `sanitize_filename` with the character class its comment describes. */
  function SanitizeFilenameIntended(name: string): (r: string)
    ensures r != [] && Clean(r, InvalidIntended)
    ensures Normalized(r) && Trimmed(r)
  {
    SanitizeShape(name, InvalidIntended);
    Sanitize(name, InvalidIntended)
  }

  // ---------------------------------------------------------------------------
  // Properties
  // ---------------------------------------------------------------------------

  lemma {:induction false} NormalizedSlice(s: string, i: nat, j: nat)
    requires i <= j <= |s| && Normalized(s)
    ensures Normalized(s[i..j])
  {
    var t := s[i..j];
    forall k | 0 <= k < |t| - 1 ensures !(IsSpace(t[k]) && IsSpace(t[k + 1])) {
      assert t[k] == s[i + k] && t[k + 1] == s[i + k + 1];
    }
  }

  /** Stripping keeps the whitespace normalised and leaves no whitespace at the ends. */
  lemma {:induction false} TrimNormalized(s: string)
    requires Normalized(s)
    ensures Normalized(Trim(s, IsSpace)) && Trimmed(Trim(s, IsSpace))
  {
    var t := TrimStart(s, IsSpace);
    NormalizedSlice(s, |s| - |t|, |s|);
    var r := TrimEnd(t, IsSpace);
    NormalizedSlice(t, 0, |r|);
  }

  /** Stripping keeps a clean string clean. */
  lemma {:induction false} TrimClean(s: string, invalid: set<char>)
    requires Clean(s, invalid)
    ensures Clean(Trim(s, IsSpace), invalid)
  {
    var t := TrimStart(s, IsSpace);
    var r := TrimEnd(t, IsSpace);
    forall i | 0 <= i < |r| ensures r[i] !in invalid {
      assert r[i] == t[i] == s[|s| - |t| + i];
    }
  }

  /** The result of any sanitizer is clean, normalised and stripped, given that a space and `Untitled` are clean. */
  lemma {:induction false} SanitizeShape(name: string, invalid: set<char>)
    requires ' ' !in invalid && Clean(Fallback, invalid)
    ensures var r := Sanitize(name, invalid);
      Clean(r, invalid) && Normalized(r) && Trimmed(r)
  {
    var removed := RemoveChars(name, invalid);
    var collapsed := Collapse(removed);
    TrimNormalized(collapsed);
    CollapseClean(removed, invalid);
    TrimClean(collapsed, invalid);
    FallbackShape();
  }

  lemma {:induction false} FallbackShape()
    ensures Normalized(Fallback) && Trimmed(Fallback)
  {
    assert forall i :: 0 <= i < |Fallback| ==> !IsSpace(Fallback[i]);
  }

  /**
   * A maximal run of whitespace between two pieces of text becomes exactly
   * one space, whatever its length and whichever whitespace characters it holds.
   */
  lemma {:induction false} CollapseRun(a: string, w: string, b: string)
    requires w != [] && forall i :: 0 <= i < |w| ==> IsSpace(w[i])
    requires a == [] || !IsSpace(a[|a| - 1])
    requires b == [] || !IsSpace(b[0])
    ensures Collapse(a + w + b) == Collapse(a) + " " + Collapse(b)
    decreases |a|, 1
  {
    if a == [] {
      CollapseRunAlone(a, w, b);
    } else if IsSpace(a[0]) {
      CollapseRunSpaceCase(a, w, b);
    } else {
      CollapseRunTextCase(a, w, b);
    }
  }

  lemma {:induction false} SpaceHeadShape(a: string)
    requires a != [] && IsSpace(a[0]) && !IsSpace(a[|a| - 1])
    ensures var a2 := TrimStart(a, IsSpace);
      a2 != [] && |a2| < |a| && !IsSpace(a2[|a2| - 1])
  {
    TrimStartRunLast(a);
  }

  lemma {:induction false} TextHeadShape(a: string)
    requires a != [] && !IsSpace(a[|a| - 1])
    ensures a[1..] == [] || !IsSpace(a[1..][|a[1..]| - 1])
  {
    if a[1..] != [] {
      assert a[1..][|a[1..]| - 1] == a[|a| - 1];
    }
  }

  /** `CollapseRun` when `a` starts with whitespace: the scan resumes at its first non-space character. */
  lemma {:induction false} CollapseRunSpaceCase(a: string, w: string, b: string)
    requires w != [] && forall i :: 0 <= i < |w| ==> IsSpace(w[i])
    requires a != [] && IsSpace(a[0]) && !IsSpace(a[|a| - 1])
    requires b == [] || !IsSpace(b[0])
    ensures Collapse(a + w + b) == Collapse(a) + " " + Collapse(b)
    decreases |a|, 0
  {
    var a2 := TrimStart(a, IsSpace);
    SpaceHeadShape(a);
    CollapseRun(a2, w, b);
    CollapseRunSpaceHead(a, w, b);
    Chain(" ", Collapse(a + w + b), Collapse(a2 + w + b), Collapse(a), Collapse(a2), Collapse(b));
  }

  /** `CollapseRun` when `a` starts with a non-space character: it is copied. */
  lemma {:induction false} CollapseRunTextCase(a: string, w: string, b: string)
    requires w != [] && forall i :: 0 <= i < |w| ==> IsSpace(w[i])
    requires a != [] && !IsSpace(a[0]) && !IsSpace(a[|a| - 1])
    requires b == [] || !IsSpace(b[0])
    ensures Collapse(a + w + b) == Collapse(a) + " " + Collapse(b)
    decreases |a|, 0
  {
    TextHeadShape(a);
    CollapseRun(a[1..], w, b);
    CollapseRunTextHead(a, w, b);
    Chain([a[0]], Collapse(a + w + b), Collapse(a[1..] + w + b), Collapse(a), Collapse(a[1..]), Collapse(b));
  }

  /** The step of `CollapseRun`: the same head before both sides. */
  lemma {:induction false} Chain(h: string, whole: string, rest: string, left: string, left2: string, right: string)
    requires whole == h + rest && left == h + left2 && rest == left2 + " " + right
    ensures whole == left + " " + right
  {
  }

  /** A run at the head of the text becomes one space. */
  lemma {:induction false} CollapseRunAlone(a: string, w: string, b: string)
    requires a == []
    requires w != [] && forall i :: 0 <= i < |w| ==> IsSpace(w[i])
    requires b == [] || !IsSpace(b[0])
    ensures Collapse(a + w + b) == Collapse(a) + " " + Collapse(b)
  {
    assert a + w + b == w + b;
    assert (w + b)[0] == w[0];
    TrimStartRun(w, b, IsSpace);
  }

  /** A head of whitespace in `a`: the rest of the scan starts at the first non-space character of `a`. */
  lemma {:induction false} CollapseRunSpaceHead(a: string, w: string, b: string)
    requires a != [] && IsSpace(a[0]) && !IsSpace(a[|a| - 1])
    ensures var a2 := TrimStart(a, IsSpace);
      && Collapse(a + w + b) == " " + Collapse(a2 + w + b)
      && Collapse(a) == " " + Collapse(a2)
  {
    var a2 := TrimStart(a, IsSpace);
    TrimStartRunLast(a);
    TrimStartAppendText(a, w + b, IsSpace);
    assert a + w + b == a + (w + b);
    assert a2 + (w + b) == a2 + w + b;
  }

  /** A non-space head of `a` is copied. */
  lemma {:induction false} CollapseRunTextHead(a: string, w: string, b: string)
    requires a != [] && !IsSpace(a[0])
    ensures Collapse(a + w + b) == [a[0]] + Collapse(a[1..] + w + b)
    ensures Collapse(a) == [a[0]] + Collapse(a[1..])
  {
    assert (a + w + b)[1..] == a[1..] + w + b;
  }

  /** A string ending in a non-space character keeps that character through `lstrip`. */
  lemma {:induction false} TrimStartRunLast(a: string)
    requires a != [] && !IsSpace(a[|a| - 1])
    ensures TrimStart(a, IsSpace) != []
  {
  }

  /**
   * Sanitizing two clean, single-spaced, stripped pieces of text joined by a
   * run of whitespace that survives removal gives the two pieces joined by
   * one space: `My  Page` and `My\tPage` become `My Page` when the class
   * keeps the run.
   */
  lemma {:induction false} SanitizeCollapsesRun(x: string, w: string, y: string, invalid: set<char>)
    requires x != [] && Clean(x, invalid) && Normalized(x) && Trimmed(x)
    requires y != [] && Clean(y, invalid) && Normalized(y) && Trimmed(y)
    requires w != [] && Clean(w, invalid) && forall i :: 0 <= i < |w| ==> IsSpace(w[i])
    ensures Sanitize(x + w + y, invalid) == x + " " + y
  {
    var s := x + w + y;
    CleanConcat(x, w, y, invalid);
    RemoveCharsClean(s, invalid);
    CollapseRun(x, w, y);
    CollapseNormalized(x);
    CollapseNormalized(y);
    JoinedTrimmed(x, y);
  }

  /** `SanitizeCollapsesRun` for the class as written. */
  lemma {:induction false} SanitizeFilenameCollapsesRun(x: string, w: string, y: string)
    requires x != [] && Clean(x, InvalidAsWritten) && Normalized(x) && Trimmed(x)
    requires y != [] && Clean(y, InvalidAsWritten) && Normalized(y) && Trimmed(y)
    requires w != [] && Clean(w, InvalidAsWritten) && forall i :: 0 <= i < |w| ==> IsSpace(w[i])
    ensures SanitizeFilename(x + w + y) == x + " " + y
  {
    SanitizeCollapsesRun(x, w, y, InvalidAsWritten);
  }

  /** `SanitizeCollapsesRun` for the corrected class, which also removes tabs and newlines before collapsing. */
  lemma {:induction false} SanitizeFilenameIntendedCollapsesRun(x: string, w: string, y: string)
    requires x != [] && Clean(x, InvalidIntended) && Normalized(x) && Trimmed(x)
    requires y != [] && Clean(y, InvalidIntended) && Normalized(y) && Trimmed(y)
    requires w != [] && Clean(w, InvalidIntended) && forall i :: 0 <= i < |w| ==> IsSpace(w[i])
    ensures SanitizeFilenameIntended(x + w + y) == x + " " + y
  {
    SanitizeCollapsesRun(x, w, y, InvalidIntended);
  }

  lemma {:induction false} CleanConcat(x: string, w: string, y: string, invalid: set<char>)
    requires Clean(x, invalid) && Clean(w, invalid) && Clean(y, invalid)
    ensures Clean(x + w + y, invalid)
  {
    var s := x + w + y;
    forall i | 0 <= i < |s| ensures s[i] !in invalid {
      if i < |x| {
        assert s[i] == x[i];
      } else if i < |x| + |w| {
        assert s[i] == w[i - |x|];
      } else {
        assert s[i] == y[i - |x| - |w|];
      }
    }
  }

  /** Two stripped, non-empty pieces joined by a space are stripped. */
  lemma {:induction false} JoinedTrimmed(x: string, y: string)
    requires x != [] && Trimmed(x) && y != [] && Trimmed(y)
    ensures Trim(x + " " + y, IsSpace) == x + " " + y
  {
    var r := x + " " + y;
    assert r[0] == x[0] && r[|r| - 1] == y[|y| - 1];
    TrimTrimmed(r);
  }

  /** Collapsing already-normalised whitespace changes nothing. */
  lemma {:induction false} CollapseNormalized(s: string)
    requires Normalized(s)
    ensures Collapse(s) == s
    decreases |s|
  {
    if s != [] {
      NormalizedSlice(s, 1, |s|);
      CollapseNormalized(s[1..]);
      if IsSpace(s[0]) {
        assert TrimStart(s, IsSpace) == s[1..] by {
          assert s[1..] == [] || !IsSpace(s[1..][0]);
        }
      }
      assert s == [s[0]] + s[1..];
    }
  }

  /** Stripping a string with no whitespace at its ends changes nothing. */
  lemma {:induction false} TrimTrimmed(s: string)
    requires Trimmed(s)
    ensures Trim(s, IsSpace) == s
  {
  }

  /** Sanitizing twice is sanitizing once. */
  lemma {:induction false} SanitizeIdempotent(name: string, invalid: set<char>)
    requires ' ' !in invalid && Clean(Fallback, invalid)
    ensures Sanitize(Sanitize(name, invalid), invalid) == Sanitize(name, invalid)
  {
    var r := Sanitize(name, invalid);
    SanitizeShape(name, invalid);
    SanitizeKeepsCleanName(r, invalid);
  }

  /** A name that is already clean, normalised, stripped and non-empty is kept as it is. */
  lemma {:induction false} SanitizeKeepsCleanName(name: string, invalid: set<char>)
    requires name != [] && Clean(name, invalid) && Normalized(name) && Trimmed(name)
    ensures Sanitize(name, invalid) == name
  {
    RemoveCharsClean(name, invalid);
    CollapseNormalized(name);
    TrimTrimmed(name);
  }

  lemma {:induction false} SanitizeFilenameIdempotent(name: string)
    ensures SanitizeFilename(SanitizeFilename(name)) == SanitizeFilename(name)
  {
    SanitizeIdempotent(name, InvalidAsWritten);
  }

  lemma {:induction false} SanitizeFilenameIntendedIdempotent(name: string)
    ensures SanitizeFilenameIntended(SanitizeFilenameIntended(name)) == SanitizeFilenameIntended(name)
  {
    SanitizeIdempotent(name, InvalidIntended);
  }

  /** Sanitizing depends only on the characters that survive removal. */
  lemma {:induction false} SanitizeAfterRemoval(name: string, invalid: set<char>)
    ensures Sanitize(name, invalid) == Sanitize(RemoveChars(name, invalid), invalid)
  {
    RemoveCharsClean(RemoveChars(name, invalid), invalid);
  }

  /**
   * Apart from whitespace, the sanitized name is exactly the characters of
   * `name` outside `invalid`, in order; when there are none, it is `Untitled`.
   */
  lemma {:induction false} SanitizeKeepsText(name: string, invalid: set<char>)
    requires ' ' !in invalid && Clean(Fallback, invalid)
    ensures NonSpace(RemoveChars(name, invalid)) != [] ==>
      NonSpace(Sanitize(name, invalid)) == NonSpace(RemoveChars(name, invalid))
    ensures NonSpace(RemoveChars(name, invalid)) == [] ==> Sanitize(name, invalid) == Fallback
  {
    var removed := RemoveChars(name, invalid);
    var collapsed := Collapse(removed);
    CollapseKeepsText(removed);
    TrimKeepsText(collapsed);
    TrimNormalized(collapsed);
    var c := Cleaned(name, invalid);
    if c != [] {
      assert !IsSpace(c[0]);
      assert NonSpace(c) != [];
    }
  }

  /** As written, the class also removes `f`, `x`, `0`, `1` and `-`: `file-01` becomes `ile`. */
  lemma {:induction false} AsWrittenMangles()
    ensures SanitizeFilename("file-01") == "ile"
  {
    AsWrittenRemoves();
    SanitizeAfterRemoval("file-01", InvalidAsWritten);
    AsWrittenKeepsRest();
  }

  lemma {:induction false} AsWrittenKeepsRest()
    ensures Sanitize("ile", InvalidAsWritten) == "ile"
  {
    var rest := "ile";
    assert Clean(rest, InvalidAsWritten) && Normalized(rest) && Trimmed(rest);
    SanitizeKeepsCleanName(rest, InvalidAsWritten);
  }

  lemma {:induction false} AsWrittenRemoves()
    ensures RemoveChars("file-01", InvalidAsWritten) == "ile"
  {
  }

  /** The intended name has no `/`, so it is one path component. */
  lemma {:induction false} IntendedHasNoSlash(name: string)
    ensures '/' !in SanitizeFilenameIntended(name)
    ensures !StartsWith(SanitizeFilenameIntended(name), "/")
  {
    assert '/' in InvalidIntended;
    CleanOmits(SanitizeFilenameIntended(name), InvalidIntended, '/');
  }

  /** A clean string contains no removed character, and so does not start with one. */
  lemma {:induction false} CleanOmits(s: string, invalid: set<char>, c: char)
    requires Clean(s, invalid) && c in invalid
    ensures c !in s && !StartsWith(s, [c])
  {
    if s != [] {
      assert s[..1][0] == s[0];
    }
  }

  /** With the intended class, `file-01` is kept. */
  lemma {:induction false} IntendedKeeps()
    ensures SanitizeFilenameIntended("file-01") == "file-01"
  {
    SanitizeKeepsCleanName("file-01", InvalidIntended);
  }

  /** With the intended class, an ordinary title (clean, single-spaced, stripped) is its own directory name. */
  lemma {:induction false} IntendedKeepsOrdinaryTitles(name: string)
    requires name != [] && Clean(name, InvalidIntended) && Normalized(name) && Trimmed(name)
    ensures SanitizeFilenameIntended(name) == name
  {
    SanitizeKeepsCleanName(name, InvalidIntended);
  }
}
