/**
 * The string operations of Python's `str` that the exporter relies on:
 * searching, `split`/`join` on one character, `strip`, `replace`, `isdigit`,
 * `isspace`, `lower` and `str(int)`.
 */
module Strings {
  import opened Wrappers

  /** `p` occurs in `s` starting at index `i`. */
  predicate OccursAt(s: string, i: nat, p: string) {
    i + |p| <= |s| && s[i..i + |p|] == p
  }

  predicate StartsWith(s: string, p: string) {
    OccursAt(s, 0, p)
  }

  predicate EndsWith(s: string, p: string) {
    |p| <= |s| && s[|s| - |p|..] == p
  }

  /** `p` occurs somewhere in `s` (Python's `p in s`). */
  ghost predicate Occurs(s: string, p: string) {
    exists j: nat :: OccursAt(s, j, p)
  }

  /** The first index at or after `k` where `p` occurs in `s` (Python's `s.find(p, k)`). */
  function Find(s: string, p: string, k: nat): (r: Option<nat>)
    decreases |s| - k
    ensures r.Some? ==> k <= r.value && OccursAt(s, r.value, p)
    ensures forall j: nat :: k <= j && (r.None? || j < r.value) ==> !OccursAt(s, j, p)
  {
    if k + |p| > |s| then None
    else if OccursAt(s, k, p) then Some(k)
    else Find(s, p, k + 1)
  }

  /** A window of `pre + u + post` that lies inside `u` is a window of `u`. */
  lemma {:induction false} OccursInside(pre: string, u: string, post: string, x: nat, p: string)
    requires x + |p| <= |u|
    ensures OccursAt(pre + u + post, |pre| + x, p) <==> OccursAt(u, x, p)
  {
    var t := pre + u + post;
    assert t[|pre| + x..|pre| + x + |p|] == u[x..x + |p|];
  }

  /** Two adjacent occurrences make an occurrence of the concatenation. */
  lemma {:induction false} OccursConcat(t: string, i: nat, a: string, b: string)
    requires OccursAt(t, i, a) && OccursAt(t, i + |a|, b)
    ensures OccursAt(t, i, a + b)
  {
    assert t[i..i + |a| + |b|] == t[i..i + |a|] + t[i + |a|..i + |a| + |b|];
  }

  /** `Find` returns the occurrence it is shown to be the first one. */
  lemma {:induction false} FindFirst(s: string, p: string, k: nat, j: nat)
    requires k <= j && OccursAt(s, j, p)
    requires forall x :: k <= x < j ==> !OccursAt(s, x, p)
    ensures Find(s, p, k) == Some(j)
  {
    var r := Find(s, p, k);
    assert r.Some? && r.value <= j;
  }

  /** Text appended after the first occurrence does not change where it is found. */
  lemma {:induction false} FindAppend(a: string, b: string, p: string, k: nat, j: nat)
    requires Find(a, p, k) == Some(j)
    ensures Find(a + b, p, k) == Some(j)
    decreases |a| - k
  {
    var s := a + b;
    assert s[k..k + |p|] == a[k..k + |p|];
    if !OccursAt(a, k, p) {
      FindAppend(a, b, p, k + 1, j);
    }
  }

  /** Searching after a prefix is searching the rest, shifted by the prefix's length. */
  lemma {:induction false} FindPrepend(pre: string, u: string, p: string, k: nat)
    ensures Find(pre + u, p, |pre| + k) ==
      match Find(u, p, k) case None => None case Some(j) => Some(|pre| + j)
    decreases |u| - k
  {
    if k + |p| <= |u| {
      var s := pre + u;
      assert s[|pre| + k..|pre| + k + |p|] == u[k..k + |p|];
      if !OccursAt(u, k, p) {
        FindPrepend(pre, u, p, k + 1);
      }
    }
  }

  /** `Find` finds nothing when there is nothing to find. */
  lemma {:induction false} NotFoundWhenAbsent(s: string, p: string, k: nat)
    requires !Occurs(s, p)
    ensures Find(s, p, k).None?
  {
  }

  /** Python's `p in s`. */
  predicate Contains(s: string, p: string) {
    Find(s, p, 0).Some?
  }

  lemma {:induction false} ContainsIff(s: string, p: string)
    ensures Contains(s, p) <==> Occurs(s, p)
  {
    if Contains(s, p) {
      assert OccursAt(s, Find(s, p, 0).value, p);
    }
  }

  /** A string without `c` does not start with it. */
  lemma {:induction false} NoLeadingChar(s: string, c: char)
    requires c !in s
    ensures !StartsWith(s, [c])
  {
    if s != [] {
      assert s[..1][0] == s[0];
    }
  }

  /** The first index at or after `k` holding the character `c`. */
  function FindChar(s: string, c: char, k: nat): (r: Option<nat>)
    decreases |s| - k
    ensures r.Some? ==> k <= r.value < |s| && s[r.value] == c
    ensures forall j :: k <= j < |s| && (r.None? || j < r.value) ==> s[j] != c
  {
    if k >= |s| then None
    else if s[k] == c then Some(k)
    else FindChar(s, c, k + 1)
  }

  /** The prefix of `s` before the first `c`, or all of `s` (Python's `s.split(c)[0]`). */
  function Before(s: string, c: char): (r: string)
    ensures c !in r
    ensures StartsWith(s, r)
    ensures |r| < |s| ==> s[|r|] == c
    ensures c !in s ==> r == s
  {
    match FindChar(s, c, 0)
    case None => s
    case Some(i) => s[..i]
  }

  /** Python's `s.split(c)` for a one-character separator. */
  function Split(s: string, c: char): (parts: seq<string>)
    decreases |s|
    ensures |parts| >= 1
    ensures forall i :: 0 <= i < |parts| ==> c !in parts[i]
  {
    match FindChar(s, c, 0)
    case None => [s]
    case Some(i) => [s[..i]] + Split(s[i + 1..], c)
  }

  /** Without the separator there is one part, the whole string. */
  lemma {:induction false} SplitNoSeparator(s: string, c: char)
    requires c !in s
    ensures Split(s, c) == [s]
  {
    assert FindChar(s, c, 0).None?;
  }

  /** A separator-free segment followed by the separator is split off as the first part. */
  lemma {:induction false} SplitSegment(a: string, c: char, b: string)
    requires c !in a
    ensures Split(a + [c] + b, c) == [a] + Split(b, c)
  {
    var s := a + [c] + b;
    assert s[|a|] == c;
    assert FindChar(s, c, 0) == Some(|a|);
    assert s[..|a|] == a && s[|a| + 1..] == b;
  }

  /** Python's `c.join(parts)`. */
  function Join(parts: seq<string>, c: char): string
  {
    if |parts| == 0 then ""
    else if |parts| == 1 then parts[0]
    else parts[0] + [c] + Join(parts[1..], c)
  }

  /** Splitting on a character and joining back on it gives the original string. */
  lemma {:induction false} JoinSplit(s: string, c: char)
    ensures Join(Split(s, c), c) == s
    decreases |s|
  {
    match FindChar(s, c, 0)
    case None =>
    case Some(i) =>
      var rest := Split(s[i + 1..], c);
      assert Split(s, c) == [s[..i]] + rest;
      JoinCons(s[..i], rest, c);
      JoinSplit(s[i + 1..], c);
      assert s == s[..i] + [c] + s[i + 1..];
  }

  /** Joining a part in front of at least one more puts the separator between them. */
  lemma {:induction false} JoinCons(a: string, rest: seq<string>, c: char)
    requires |rest| >= 1
    ensures Join([a] + rest, c) == a + [c] + Join(rest, c)
  {
    assert ([a] + rest)[1..] == rest;
  }

  /** Joining separator-free parts and splitting again gives the parts back. */
  lemma {:induction false} SplitJoin(parts: seq<string>, c: char)
    requires |parts| >= 1
    requires forall i :: 0 <= i < |parts| ==> c !in parts[i]
    ensures Split(Join(parts, c), c) == parts
    decreases |parts|
  {
    if |parts| == 1 {
      SplitNoSeparator(parts[0], c);
    } else {
      SplitJoin(parts[1..], c);
      SplitSegment(parts[0], c, Join(parts[1..], c));
      assert parts == [parts[0]] + parts[1..];
    }
  }

  /** A join starts with the first character of its first part. */
  lemma {:induction false} JoinFirst(parts: seq<string>, c: char)
    requires |parts| >= 1 && parts[0] != []
    ensures Join(parts, c) != [] && Join(parts, c)[0] == parts[0][0]
  {
  }
  /** A join ends with the last character of its last part. */
  lemma {:induction false} JoinLast(parts: seq<string>, c: char)
    requires |parts| >= 1 && parts[|parts| - 1] != []
    ensures var j := Join(parts, c); var l := parts[|parts| - 1];
      j != [] && j[|j| - 1] == l[|l| - 1]
    decreases |parts|
  {
    if |parts| > 1 {
      JoinLast(parts[1..], c);
    }
  }

  /** Python's `s.split(c)[-1]`: the text after the last `c`. */
  function LastPart(s: string, c: char): (r: string)
    ensures c !in r
  {
    var parts := Split(s, c);
    parts[|parts| - 1]
  }

  /** The last part is the whole string, or the suffix after a separator. */
  lemma {:induction false} LastPartIsSuffix(s: string, c: char)
    ensures var r := LastPart(s, c);
      EndsWith(s, r) && (|r| == |s| || s[|s| - |r| - 1] == c)
    decreases |s|
  {
    match FindChar(s, c, 0)
    case None =>
    case Some(i) =>
      var t := s[i + 1..];
      LastPartIsSuffix(t, c);
      LastPartAfter(s, c, i);
      SuffixAfterSeparator(s, c, i, LastPart(t, c));
  }

  /** The last part of `s` is the last part of what follows its first separator. */
  lemma {:induction false} LastPartAfter(s: string, c: char, i: nat)
    requires FindChar(s, c, 0) == Some(i)
    ensures LastPart(s, c) == LastPart(s[i + 1..], c)
  {
    var a := [s[..i]];
    var b := Split(s[i + 1..], c);
    assert Split(s, c) == a + b;
    assert (a + b)[|a + b| - 1] == b[|b| - 1];
  }

  /** A suffix of `s[i + 1..]` that starts it or follows a `c` does the same in `s`, when `s[i]` is `c`. */
  lemma {:induction false} SuffixAfterSeparator(s: string, c: char, i: nat, r: string)
    requires i < |s| && s[i] == c
    requires EndsWith(s[i + 1..], r) && (|r| == |s[i + 1..]| || s[i + 1..][|s[i + 1..]| - |r| - 1] == c)
    ensures EndsWith(s, r) && (|r| == |s| || s[|s| - |r| - 1] == c)
  {
    var t := s[i + 1..];
    assert s[|s| - |r|..] == t[|t| - |r|..];
    if |r| == |t| {
      assert s[|s| - |r| - 1] == s[i];
    } else {
      assert s[|s| - |r| - 1] == t[|t| - |r| - 1];
    }
  }

  /** A window of a suffix of `s` is the window of `s` shifted by where the suffix starts. */
  lemma {:induction false} OccursSuffix(s: string, k: nat, x: nat, p: string)
    requires k <= |s|
    ensures OccursAt(s[k..], x, p) <==> OccursAt(s, k + x, p)
  {
    if k + x + |p| <= |s| {
      assert s[k..][x..x + |p|] == s[k + x..k + x + |p|];
    }
  }

  /** The character `strip("/")` and its variants remove. */
  predicate IsSlash(c: char) {
    c == '/'
  }

  /** Removes every leading character for which `drop` holds (Python's `lstrip`). */
  function TrimStart(s: string, drop: char -> bool): (r: string)
    ensures |r| <= |s| && r == s[|s| - |r|..]
    ensures r != [] ==> !drop(r[0])
    ensures forall i :: 0 <= i < |s| - |r| ==> drop(s[i])
    decreases |s|
  {
    if s != [] && drop(s[0]) then
      var r := TrimStart(s[1..], drop);
      assert s[1..][|s| - 1 - |r|..] == s[|s| - |r|..];
      assert forall i :: 1 <= i < |s| - |r| ==> s[1..][i - 1] == s[i];
      r
    else s
  }

  /** Removes every trailing character for which `drop` holds (Python's `rstrip`). */
  function TrimEnd(s: string, drop: char -> bool): (r: string)
    ensures |r| <= |s| && r == s[..|r|]
    ensures r != [] ==> !drop(r[|r| - 1])
    ensures forall i :: |r| <= i < |s| ==> drop(s[i])
    decreases |s|
  {
    if s != [] && drop(s[|s| - 1]) then TrimEnd(s[..|s| - 1], drop) else s
  }

  /** Both ends (Python's `strip`). */
  function Trim(s: string, drop: char -> bool): string {
    TrimEnd(TrimStart(s, drop), drop)
  }

  /** A trailing droppable character does not change what `TrimEnd` keeps. */
  lemma {:induction false} TrimEndAppend(s: string, c: char, drop: char -> bool)
    requires drop(c)
    ensures TrimEnd(s + [c], drop) == TrimEnd(s, drop)
  {
    assert (s + [c])[..|s|] == s;
  }

  /** Trimming the front of `s + [c]`: `c` is kept unless all of `s` was dropped. */
  lemma {:induction false} TrimStartAppend(s: string, c: char, drop: char -> bool)
    ensures TrimStart(s + [c], drop) ==
      if TrimStart(s, drop) == [] then (if drop(c) then [] else [c]) else TrimStart(s, drop) + [c]
    decreases |s|
  {
    if s != [] && drop(s[0]) {
      assert (s + [c])[1..] == s[1..] + [c];
      TrimStartAppend(s[1..], c, drop);
    }
  }

  /** A run of droppable characters before a kept character (or the end) is all that `TrimStart` removes. */
  lemma {:induction false} TrimStartRun(w: string, b: string, drop: char -> bool)
    requires forall i :: 0 <= i < |w| ==> drop(w[i])
    requires b == [] || !drop(b[0])
    ensures TrimStart(w + b, drop) == b
  {
    var s := w + b;
    assert s[|w|..] == b;
  }

  /** Once `a` holds a kept character, text after it does not change what `TrimStart` keeps of it. */
  lemma {:induction false} TrimStartAppendText(a: string, x: string, drop: char -> bool)
    requires TrimStart(a, drop) != []
    ensures TrimStart(a + x, drop) == TrimStart(a, drop) + x
    decreases |a|
  {
    var s := a + x;
    assert s[0] == a[0];
    if drop(a[0]) {
      assert s[1..] == a[1..] + x;
      TrimStartAppendText(a[1..], x, drop);
    }
  }

  /** A droppable character added at either end does not change what `Trim` keeps. */
  lemma {:induction false} TrimIgnoresEnds(s: string, c: char, drop: char -> bool)
    requires drop(c)
    ensures Trim([c] + s, drop) == Trim(s, drop)
    ensures Trim(s + [c], drop) == Trim(s, drop)
  {
    TrimIgnoresFront(s, c, drop);
    TrimIgnoresBack(s, c, drop);
  }

  lemma {:induction false} TrimIgnoresFront(s: string, c: char, drop: char -> bool)
    requires drop(c)
    ensures TrimStart([c] + s, drop) == TrimStart(s, drop)
  {
    assert ([c] + s)[1..] == s;
  }

  lemma {:induction false} TrimIgnoresBack(s: string, c: char, drop: char -> bool)
    requires drop(c)
    ensures TrimEnd(TrimStart(s + [c], drop), drop) == TrimEnd(TrimStart(s, drop), drop)
  {
    var u := TrimStart(s, drop);
    TrimStartAppend(s, c, drop);
    if u != [] {
      TrimEndAppend(u, c, drop);
    }
  }

  /** Python's `str.isspace()` for one character: the characters `\s` matches in a `str` pattern. */
  predicate IsSpace(c: char) {
    || c == ' '
    || '\t' <= c <= '\r'
    || '\U{1c}' <= c <= '\U{1f}'
    || c == '\U{85}' || c == '\U{a0}' || c == '\U{1680}'
    || '\U{2000}' <= c <= '\U{200a}'
    || c == '\U{2028}' || c == '\U{2029}' || c == '\U{202f}' || c == '\U{205f}' || c == '\U{3000}'
  }

  predicate IsDigit(c: char) {
    '0' <= c <= '9'
  }

  /** Python's `s.isdigit()` on ASCII: non-empty and every character a digit. */
  predicate IsDigits(s: string) {
    |s| > 0 && forall i :: 0 <= i < |s| ==> IsDigit(s[i])
  }

  function LowerChar(c: char): (d: char)
    ensures 'A' <= c <= 'Z' ==> d as int == c as int + 32
    ensures !('A' <= c <= 'Z') ==> d == c
  {
    if 'A' <= c <= 'Z' then (c as int + 32) as char else c
  }

  /** Python's `s.lower()` on ASCII letters. */
  function Lower(s: string): (r: string)
    ensures |r| == |s|
    ensures forall i :: 0 <= i < |s| ==> r[i] == LowerChar(s[i])
  {
    seq(|s|, i requires 0 <= i < |s| => LowerChar(s[i]))
  }

  /** Python's `s.replace("", r)`: `r` before every character and at the end. */
  function InsertEverywhere(s: string, r: string): string
  {
    if s == [] then r else r + [s[0]] + InsertEverywhere(s[1..], r)
  }

  /**
   * Python's `s.replace(target, r)`: every non-overlapping occurrence of
   * `target`, scanned left to right, becomes `r`.
   */
  function ReplaceAll(s: string, target: string, r: string): string
    decreases |s|
  {
    if target == [] then InsertEverywhere(s, r)
    else if |s| < |target| then s
    else if OccursAt(s, 0, target) then r + ReplaceAll(s[|target|..], target, r)
    else [s[0]] + ReplaceAll(s[1..], target, r)
  }

  /** Python's `s.count(target)`: non-overlapping occurrences, `|s| + 1` for the empty target. */
  function Count(s: string, target: string): nat
    decreases |s|
  {
    if target == [] then |s| + 1
    else if |s| < |target| then 0
    else if OccursAt(s, 0, target) then 1 + Count(s[|target|..], target)
    else Count(s[1..], target)
  }

  /** Each replaced occurrence changes the length by `|r| - |target|`. */
  lemma {:induction false} ReplaceAllLength(s: string, target: string, r: string)
    ensures |ReplaceAll(s, target, r)| == |s| + Count(s, target) * (|r| - |target|)
    decreases |s|
  {
    if target == [] {
      InsertEverywhereLength(s, r);
    } else if |s| < |target| {
    } else if OccursAt(s, 0, target) {
      var rest := s[|target|..];
      ReplaceAllLength(rest, target, r);
      var c, d := Count(rest, target), |r| - |target|;
      assert ReplaceAll(s, target, r) == r + ReplaceAll(rest, target, r);
      assert Count(s, target) == 1 + c;
      MulSucc(c, d);
    } else {
      ReplaceAllLength(s[1..], target, r);
    }
  }

  lemma {:induction false} MulSucc(c: int, d: int)
    ensures (1 + c) * d == c * d + d
  {
  }

  lemma {:induction false} InsertEverywhereLength(s: string, r: string)
    ensures |InsertEverywhere(s, r)| == |s| + (|s| + 1) * |r|
    decreases |s|
  {
    if s != [] {
      InsertEverywhereLength(s[1..], r);
      assert (|s| + 1) * |r| == |s| * |r| + |r|;
      assert |s[1..]| + 1 == |s|;
    }
  }

  /** An occurrence in `s[1..]` is an occurrence in `s`, one place further on. */
  lemma {:induction false} OccursShift(s: string, j: nat, p: string)
    requires s != []
    requires OccursAt(s[1..], j, p)
    ensures OccursAt(s, j + 1, p)
  {
    assert s[j + 1..j + 1 + |p|] == s[1..][j..j + |p|];
  }

  /** Replacing a string that does not occur leaves the text unchanged. */
  lemma {:induction false} ReplaceAbsent(s: string, target: string, r: string)
    requires !Occurs(s, target)
    ensures ReplaceAll(s, target, r) == s
    decreases |s|
  {
    if target == [] {
      assert false;
    } else if |s| < |target| {
    } else {
      assert !OccursAt(s, 0, target);
      forall j: nat | OccursAt(s[1..], j, target) ensures false {
        OccursShift(s, j, target);
      }
      ReplaceAbsent(s[1..], target, r);
    }
  }

  function DigitChar(d: nat): (c: char)
    requires d < 10
    ensures IsDigit(c)
  {
    ('0' as int + d) as char
  }

  /** The decimal digits of `n`, most significant first. */
  function NatToString(n: nat): (r: string)
    ensures IsDigits(r)
  {
    if n < 10 then [DigitChar(n)] else NatToString(n / 10) + [DigitChar(n % 10)]
  }

  /** Python's `str(n)` for an int: a minus sign for negative numbers, then the digits. */
  function IntToString(n: int): (r: string)
    ensures forall i :: 0 <= i < |r| ==> IsDigit(r[i]) || r[i] == '-'
    ensures |r| > 0
  {
    if n < 0 then "-" + NatToString(-n) else NatToString(n)
  }
}
