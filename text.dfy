/**
 * The parts of Kotlin's String API that the plugin relies on, written out:
 * prefix and substring tests, `replace` (leftmost, non-overlapping), `trim`
 * with Kotlin's notion of whitespace, `split("\n")`, `lines()`, `joinToString`,
 * `take`, `repeat`, case-insensitive comparison and decimal rendering of numbers.
 */
module Text {
  import opened Wrappers

  predicate StartsWith(s: string, p: string) {
    |p| <= |s| && s[..|p|] == p
  }

  predicate EndsWith(s: string, p: string) {
    |p| <= |s| && s[|s| - |p|..] == p
  }

  /** `s.contains(p)`: some suffix of `s` starts with `p`. */
  predicate Contains(s: string, p: string)
    decreases |s|
  {
    StartsWith(s, p) || (|s| > 0 && Contains(s[1..], p))
  }

  /** Concatenation is associative; the solver needs it spelled out on long chains. */
  lemma ConcatAssoc(a: string, b: string, c: string)
    ensures a + b + c == a + (b + c)
  {
  }

  /** An occurrence at a known position is an occurrence. */
  lemma {:induction false} ContainsAt(s: string, i: nat, p: string)
    requires i <= |s| && StartsWith(s[i..], p)
    ensures Contains(s, p)
    decreases i
  {
    if i > 0 {
      assert s[1..][i - 1..] == s[i..];
      ContainsAt(s[1..], i - 1, p);
    }
  }

  /** Every occurrence has a position. */
  lemma {:induction false} ContainsWitness(s: string, p: string) returns (i: nat)
    requires Contains(s, p)
    ensures i <= |s| && StartsWith(s[i..], p)
    decreases |s|
  {
    if StartsWith(s, p) {
      i := 0;
    } else {
      var j := ContainsWitness(s[1..], p);
      assert s[1..][j..] == s[j + 1..];
      i := j + 1;
    }
  }

  /** A string inside a slice of `s` is inside `s`. */
  lemma ContainsInSlice(s: string, a: nat, b: nat, p: string)
    requires a <= b <= |s| && Contains(s[a..b], p)
    ensures Contains(s, p)
  {
    var i := ContainsWitness(s[a..b], p);
    assert s[a..b][i..][..|p|] == s[a + i..][..|p|];
    ContainsAt(s, a + i, p);
  }

  /** A string inside the left or right part of a concatenation is inside the whole. */
  lemma ContainsInConcat(a: string, b: string, p: string)
    ensures Contains(a, p) ==> Contains(a + b, p)
    ensures Contains(b, p) ==> Contains(a + b, p)
  {
    if Contains(a, p) {
      var i := ContainsWitness(a, p);
      assert (a + b)[i..][..|p|] == a[i..][..|p|];
      ContainsAt(a + b, i, p);
    }
    if Contains(b, p) {
      assert (a + b)[|a|..|a + b|] == b;
      ContainsInSlice(a + b, |a|, |a + b|, p);
    }
  }

  /** The same as `ContainsAt`, stated as an implication so that callers can use it either way. */
  lemma OccurrenceContained(s: string, i: nat, p: string)
    ensures i <= |s| && StartsWith(s[i..], p) ==> Contains(s, p)
  {
    if i <= |s| && StartsWith(s[i..], p) {
      ContainsAt(s, i, p);
    }
  }

  /** The same as `ContainsInSlice`, stated as an implication. */
  lemma SliceContained(s: string, a: nat, b: nat, p: string)
    ensures a <= b <= |s| && Contains(s[a..b], p) ==> Contains(s, p)
  {
    if a <= b <= |s| && Contains(s[a..b], p) {
      ContainsInSlice(s, a, b, p);
    }
  }

  /** An occurrence inside an occurrence is an occurrence. */
  lemma ContainsTrans(s: string, t: string, p: string)
    requires Contains(s, t) && Contains(t, p)
    ensures Contains(s, p)
  {
    var i := ContainsWitness(s, t);
    var k := ContainsWitness(t, p);
    assert s[i..][..|t|] == t && t[k..][..|p|] == p;
    forall m | 0 <= m < |p|
      ensures s[i + k + m] == p[m]
    {
      assert s[i + k + m] == s[i..][..|t|][k + m];
      assert p[m] == t[k..][..|p|][m];
    }
    assert s[i + k..][..|p|] == p;
    ContainsAt(s, i + k, p);
  }

  /** A text shorter than `p` does not contain it. */
  lemma {:induction false} ShortNotContained(s: string, p: string)
    requires |s| < |p|
    ensures !Contains(s, p)
    decreases |s|
  {
    if |s| > 0 {
      ShortNotContained(s[1..], p);
    }
  }

  /**
   * When the first character of `p` is missing from `a` and `b` is shorter
   * than `p`, `p` does not occur in `a + b`.
   */
  lemma {:induction false} HeadMissingNotContained(a: string, b: string, p: string)
    requires |b| < |p| && p[0] !in a
    ensures !Contains(a + b, p)
    decreases |a|
  {
    if |a| == 0 {
      assert a + b == b;
      ShortNotContained(b, p);
    } else {
      assert (a + b)[0] == a[0];
      assert (a + b)[1..] == a[1..] + b;
      HeadMissingNotContained(a[1..], b, p);
    }
  }

  /** A string holding a character that `s` lacks does not occur in `s`. */
  lemma {:induction false} MissingCharNotContained(s: string, p: string, k: nat)
    requires k < |p| && p[k] !in s
    ensures !Contains(s, p)
    decreases |s|
  {
    assert k < |p| <= |s| ==> s[k] != p[k];
    if |s| > 0 {
      MissingCharNotContained(s[1..], p, k);
    }
  }

  /** `s.indexOf(p)` from the start: the first position where `p` occurs. */
  function IndexOf(s: string, p: string): (r: Option<nat>)
    ensures r.Some? ==> r.value <= |s| && StartsWith(s[r.value..], p)
    ensures r.Some? ==> forall j :: 0 <= j < r.value ==> !StartsWith(s[j..], p)
    ensures r.None? <==> !Contains(s, p)
    decreases |s|
  {
    if StartsWith(s, p) then Some(0)
    else if |s| == 0 then None
    else
      match IndexOf(s[1..], p)
      case None => None
      case Some(k) =>
        assert forall j :: 1 <= j <= |s| ==> s[j..] == s[1..][j - 1..];
        Some(k + 1)
  }

  /**
   * When the first character of `p` does not recur in `p` and `p` does not
   * occur in `a`, the first occurrence of `p` in `a + p + b` is the one after `a`.
   */
  lemma FirstOccurrence(a: string, p: string, b: string)
    requires |p| > 0 && forall k :: 1 <= k < |p| ==> p[k] != p[0]
    requires !Contains(a, p)
    ensures IndexOf(a + p + b, p) == Some(|a|)
  {
    var v := a + p + b;
    assert v[..|a|] == a;
    assert v[|a|..] == p + b;
    OccurrenceContained(v, |a|, p);
    forall j | 0 <= j < |a|
      ensures !StartsWith(v[j..], p)
    {
      if j + |p| <= |a| {
        OccurrenceContained(a, j, p);
        assert v[j..][..|p|] == v[..|a|][j..][..|p|];
      } else {
        assert v[j..][|a| - j] == v[|a|];
      }
    }
  }

  /** `s.lastIndexOf(p)`: the last position where `p` occurs. */
  function LastIndexOf(s: string, p: string): (r: Option<nat>)
    ensures r.Some? ==> r.value <= |s| && StartsWith(s[r.value..], p)
    decreases |s|
  {
    if |s| == 0 then (if StartsWith(s, p) then Some(0) else None)
    else
      match LastIndexOf(s[1..], p)
      case Some(k) => assert s[k + 1..] == s[1..][k..]; Some(k + 1)
      case None => if StartsWith(s, p) then Some(0) else None
  }

  /** Text that contains `p` has a last occurrence of it. */
  lemma LastIndexOfFound(s: string, p: string)
    requires Contains(s, p)
    ensures LastIndexOf(s, p).Some?
  {
    var k := ContainsWitness(s, p);
    LastIndexOfMeans(s, p);
  }

  /** `lastIndexOf` finds the last occurrence, and `None` means there is none. */
  lemma {:induction false} LastIndexOfMeans(s: string, p: string)
    ensures var r := LastIndexOf(s, p);
      (r.Some? ==> forall j :: r.value < j <= |s| ==> !StartsWith(s[j..], p))
      && (r.None? ==> forall j :: 0 <= j <= |s| ==> !StartsWith(s[j..], p))
    decreases |s|
  {
    if |s| > 0 {
      LastIndexOfMeans(s[1..], p);
      assert forall j :: 1 <= j <= |s| ==> s[j..] == s[1..][j - 1..];
    }
  }

  /**
   * Kotlin's `replace(old, new)` for a non-empty `old`: scanning from the
   * left, every occurrence not overlapping an earlier replaced one becomes `new`.
   */
  function ReplaceAll(s: string, pat: string, rep: string): string
    requires |pat| > 0
    decreases |s|
  {
    if |s| == 0 then ""
    else if StartsWith(s, pat) then rep + ReplaceAll(s[|pat|..], pat, rep)
    else [s[0]] + ReplaceAll(s[1..], pat, rep)
  }

  /** Replacing a pattern that does not occur changes nothing. */
  lemma {:induction false} ReplaceAllAbsent(s: string, pat: string, rep: string)
    requires |pat| > 0 && !Contains(s, pat)
    ensures ReplaceAll(s, pat, rep) == s
    decreases |s|
  {
    if |s| > 0 {
      ReplaceAllAbsent(s[1..], pat, rep);
    }
  }

  /** A character absent from the input and from the replacement is absent from the output. */
  lemma {:induction false} ReplaceAllKeepsOut(s: string, pat: string, rep: string, c: char)
    requires |pat| > 0 && c !in s && c !in rep
    ensures c !in ReplaceAll(s, pat, rep)
    decreases |s|
  {
    if |s| > 0 {
      if StartsWith(s, pat) {
        assert c !in s[|pat|..];
        ReplaceAllKeepsOut(s[|pat|..], pat, rep, c);
      } else {
        ReplaceAllKeepsOut(s[1..], pat, rep, c);
      }
    }
  }

  /** Replacing a one-character pattern by something without it removes that character. */
  lemma {:induction false} ReplaceCharRemoves(s: string, c: char, rep: string)
    requires c !in rep
    ensures c !in ReplaceAll(s, [c], rep)
    decreases |s|
  {
    if |s| > 0 {
      ReplaceCharRemoves(s[1..], c, rep);
    }
  }

  /** A one-character replacement works on the two halves of a concatenation independently. */
  lemma {:induction false} ReplaceCharConcat(a: string, b: string, c: char, rep: string)
    ensures ReplaceAll(a + b, [c], rep) == ReplaceAll(a, [c], rep) + ReplaceAll(b, [c], rep)
    decreases |a|
  {
    if |a| > 0 {
      assert (a + b)[1..] == a[1..] + b;
      ReplaceCharConcat(a[1..], b, c, rep);
    } else {
      assert a + b == b;
    }
  }

  /** A prefix in which no occurrence of `pat` starts is copied by `replace`. */
  lemma {:induction false} ReplaceAllSkip(x: string, y: string, pat: string, rep: string)
    requires |pat| > 0
    requires forall j :: 0 <= j < |x| ==> !StartsWith((x + y)[j..], pat)
    ensures ReplaceAll(x + y, pat, rep) == x + ReplaceAll(y, pat, rep)
    decreases |x|
  {
    if |x| == 0 {
      assert x + y == y;
    } else {
      var s := x + y;
      assert s[0..] == s;
      assert s[1..] == x[1..] + y;
      forall j | 0 <= j < |x| - 1
        ensures !StartsWith((x[1..] + y)[j..], pat)
      {
        assert (x[1..] + y)[j..] == s[j + 1..];
      }
      ReplaceAllSkip(x[1..], y, pat, rep);
      assert [x[0]] + (x[1..] + ReplaceAll(y, pat, rep)) == x + ReplaceAll(y, pat, rep);
    }
  }

  // ---------------------------------------------------------------- whitespace

  /** Kotlin's `Char.isWhitespace()` (Java `isWhitespace` or `isSpaceChar`). */
  predicate IsWhitespace(c: char) {
    c == ' ' || c == '\t' || c == '\n' || c == '\r' || c == '\U{000B}' || c == '\U{000C}'
    || ('\U{001C}' <= c <= '\U{001F}') || c == '\U{00A0}' || c == '\U{1680}'
    || ('\U{2000}' <= c <= '\U{200A}') || c == '\U{2028}' || c == '\U{2029}'
    || c == '\U{202F}' || c == '\U{205F}' || c == '\U{3000}'
  }

  /** `isBlank()`: empty or whitespace only. */
  predicate IsBlank(s: string) {
    forall i :: 0 <= i < |s| ==> IsWhitespace(s[i])
  }

  /** The first index at or after `i` that holds no whitespace, or `|s|`: the forward scan of `trim`. */
  function SkipSpace(s: string, i: nat): (j: nat)
    requires i <= |s|
    ensures i <= j <= |s|
    ensures forall k :: i <= k < j ==> IsWhitespace(s[k])
    ensures j < |s| ==> !IsWhitespace(s[j])
    decreases |s| - i
  {
    if i < |s| && IsWhitespace(s[i]) then SkipSpace(s, i + 1) else i
  }

  /** Moving the end `j` back over whitespace, but not below `lo`: the backward scan of `trim`. */
  function BackSpace(s: string, lo: nat, j: nat): (e: nat)
    requires lo <= j <= |s|
    ensures lo <= e <= j
    ensures forall k :: e <= k < j ==> IsWhitespace(s[k])
    ensures e > lo ==> !IsWhitespace(s[e - 1])
    decreases j
  {
    if j > lo && IsWhitespace(s[j - 1]) then BackSpace(s, lo, j - 1) else j
  }

  /** `trimStart()` */
  function TrimStart(s: string): (r: string)
    ensures |r| <= |s| && r == s[|s| - |r|..]
    ensures |r| > 0 ==> !IsWhitespace(r[0])
    ensures forall i :: 0 <= i < |s| - |r| ==> IsWhitespace(s[i])
  {
    s[SkipSpace(s, 0)..]
  }

  /** `trimEnd()` */
  function TrimEnd(s: string): (r: string)
    ensures |r| <= |s| && r == s[..|r|]
    ensures |r| > 0 ==> !IsWhitespace(r[|r| - 1])
    ensures forall i :: |r| <= i < |s| ==> IsWhitespace(s[i])
  {
    s[..BackSpace(s, 0, |s|)]
  }

  /** `trimEnd()` drops a final line break after text that does not end in whitespace. */
  lemma TrimEndDropsBreak(x: string)
    requires |x| > 0 && !IsWhitespace(x[|x| - 1])
    ensures TrimEnd(x + "\n") == x
  {
    var s := x + "\n";
    assert s[|x| - 1] == x[|x| - 1];
    assert BackSpace(s, 0, |s|) == BackSpace(s, 0, |x|) == |x|;
    assert s[..|x|] == x;
  }

  /** How many leading characters `trim()` drops. */
  function TrimOffset(s: string): nat
  {
    SkipSpace(s, 0)
  }

  /** `trim()`: the slice left after dropping leading and trailing whitespace. */
  function Trim(s: string): (r: string)
    ensures TrimOffset(s) + |r| <= |s| && r == s[TrimOffset(s)..TrimOffset(s) + |r|]
    ensures |r| > 0 ==> !IsWhitespace(r[0]) && !IsWhitespace(r[|r| - 1])
    ensures r == "" <==> IsBlank(s)
  {
    var a := SkipSpace(s, 0);
    var e := BackSpace(s, a, |s|);
    assert a < |s| ==> e > a;
    s[a..e]
  }

  /** Trimming text that neither starts nor ends with whitespace returns it unchanged. */
  lemma TrimNoOp(s: string)
    requires |s| > 0 ==> !IsWhitespace(s[0]) && !IsWhitespace(s[|s| - 1])
    ensures Trim(s) == s
  {
  }

  // ---------------------------------------------------------------- case folding

  /** Lower-casing of ASCII letters only (`XmlProcessor.LowercaseIs` says where that is exact). */
  function LowerAscii(c: char): (r: char)
    ensures 'A' <= c <= 'Z' ==> 'a' <= r <= 'z'
    ensures !('A' <= c <= 'Z') ==> r == c
  {
    if 'A' <= c <= 'Z' then (c as int + 32) as char else c
  }

  /**
   * The character that case-insensitive comparison on the JVM compares,
   * `toLowerCase(toUpperCase(c))`, both for a regular expression compiled
   * with Kotlin's IGNORE_CASE (which turns on Unicode case) and for
   * `contains(.., ignoreCase = true)`. It is written out for every
   * character whose key is an ASCII letter: the ASCII letters, the long s
   * (upper case `S`), the Kelvin sign (lower case `k`), and the dotted and
   * dotless i. Any other character is its own key here, which makes the
   * comparison exact whenever one side is ASCII, as every pattern and word
   * compared in this model is.
   */
  function CaseKey(c: char): (r: char)
    ensures 'A' <= c <= 'Z' ==> r == (c as int + 32) as char
    ensures c < '\U{0080}' && !('A' <= c <= 'Z') ==> r == c
  {
    if 'A' <= c <= 'Z' then (c as int + 32) as char
    else if c == '\U{017F}' then 's'
    else if c == '\U{212A}' then 'k'
    else if c == '\U{0130}' || c == '\U{0131}' then 'i'
    else c
  }

  /** `s` starts with `p` when case is ignored. */
  predicate StartsWithIgnoreCase(s: string, p: string) {
    |p| <= |s| && forall i :: 0 <= i < |p| ==> CaseKey(s[i]) == CaseKey(p[i])
  }

  /** `s.contains(p, ignoreCase = true)`. */
  predicate ContainsIgnoreCase(s: string, p: string)
    decreases |s|
  {
    StartsWithIgnoreCase(s, p) || (|s| > 0 && ContainsIgnoreCase(s[1..], p))
  }

  /** A case-insensitive occurrence at a known position is an occurrence. */
  lemma {:induction false} ContainsIgnoreCaseAt(s: string, i: nat, p: string)
    requires i <= |s| && StartsWithIgnoreCase(s[i..], p)
    ensures ContainsIgnoreCase(s, p)
    decreases i
  {
    if i > 0 {
      assert s[1..][i - 1..] == s[i..];
      ContainsIgnoreCaseAt(s[1..], i - 1, p);
    }
  }

  // ---------------------------------------------------------------- splitting and joining

  /** `s.split(sep)` for a one-character separator: pieces between separators, blanks kept. */
  function Split(s: string, sep: char): (r: seq<string>)
    ensures |r| >= 1
    ensures forall k :: 0 <= k < |r| ==> sep !in r[k]
    decreases |s|
  {
    if |s| == 0 then [""]
    else
      var rest := Split(s[1..], sep);
      if s[0] == sep then [""] + rest else [[s[0]] + rest[0]] + rest[1..]
  }

  /** Lines, each followed by a line break, as `appendLine` writes them. */
  function Terminated(ls: seq<string>): string
    decreases |ls|
  {
    if |ls| == 0 then "" else ls[0] + "\n" + Terminated(ls[1..])
  }

  /** `joinToString(sep)`. */
  function Join(ls: seq<string>, sep: string): string
  {
    if |ls| == 0 then ""
    else if |ls| == 1 then ls[0]
    else ls[0] + sep + Join(ls[1..], sep)
  }

  /** Splitting a joined list gives the list back when no piece holds the separator. */
  lemma {:induction false} SplitJoin(ls: seq<string>, sep: char)
    requires |ls| >= 1
    requires forall k :: 0 <= k < |ls| ==> sep !in ls[k]
    ensures Split(Join(ls, [sep]), sep) == ls
    decreases |ls|
  {
    if |ls| == 1 {
      SplitNoSep(ls[0], sep);
    } else {
      SplitJoin(ls[1..], sep);
      SplitConcat(ls[0], Join(ls[1..], [sep]), sep);
    }
  }

  /** A string without the separator splits into itself. */
  lemma {:induction false} SplitNoSep(s: string, sep: char)
    requires sep !in s
    ensures Split(s, sep) == [s]
    decreases |s|
  {
    if |s| > 0 {
      SplitNoSep(s[1..], sep);
      assert [s[0]] + s[1..] == s;
    }
  }

  /** A separator-free head followed by a separator contributes exactly one piece. */
  lemma {:induction false} SplitConcat(a: string, b: string, sep: char)
    requires sep !in a
    ensures Split(a + [sep] + b, sep) == [a] + Split(b, sep)
    decreases |a|
  {
    if |a| == 0 {
      assert (a + [sep] + b)[1..] == b;
    } else {
      assert (a + [sep] + b)[1..] == a[1..] + [sep] + b;
      SplitConcat(a[1..], b, sep);
      assert [a[0]] + a[1..] == a;
    }
  }

  predicate IsLineBreak(c: char) { c == '\n' || c == '\r' }

  /** Kotlin's `lines()`: split at "\r\n", "\n" or "\r", trailing empty line kept. */
  function Lines(s: string): (r: seq<string>)
    ensures |r| >= 1
    ensures forall k :: 0 <= k < |r| ==> '\n' !in r[k] && '\r' !in r[k]
    decreases |s|
  {
    if |s| == 0 then [""]
    else if IsLineBreak(s[0]) then
      [""] + Lines(if s[0] == '\r' && |s| > 1 && s[1] == '\n' then s[2..] else s[1..])
    else
      var rest := Lines(s[1..]);
      [[s[0]] + rest[0]] + rest[1..]
  }

  /** Lines joined by "\n" come back as the same lines when none holds a line break. */
  lemma {:induction false} LinesJoin(ls: seq<string>)
    requires |ls| >= 1
    requires forall k :: 0 <= k < |ls| ==> '\n' !in ls[k] && '\r' !in ls[k]
    ensures Lines(Join(ls, "\n")) == ls
    decreases |ls|
  {
    if |ls| == 1 {
      LinesNoBreak(ls[0]);
    } else {
      LinesJoin(ls[1..]);
      LinesConcat(ls[0], Join(ls[1..], "\n"));
    }
  }

  lemma {:induction false} LinesNoBreak(s: string)
    requires '\n' !in s && '\r' !in s
    ensures Lines(s) == [s]
    decreases |s|
  {
    if |s| > 0 {
      LinesNoBreak(s[1..]);
      assert [s[0]] + s[1..] == s;
    }
  }

  lemma {:induction false} LinesConcat(a: string, b: string)
    requires '\n' !in a && '\r' !in a
    ensures Lines(a + "\n" + b) == [a] + Lines(b)
    decreases |a|
  {
    if |a| == 0 {
      assert (a + "\n" + b)[1..] == b;
    } else {
      assert (a + "\n" + b)[1..] == a[1..] + "\n" + b;
      LinesConcat(a[1..], b);
      assert [a[0]] + a[1..] == a;
    }
  }

  // ---------------------------------------------------------------- small builders

  /** `take(n)`: the first `n` characters, or all of them. */
  function Take(s: string, n: nat): (r: string)
    ensures |r| == if |s| < n then |s| else n
    ensures StartsWith(s, r)
  {
    if |s| <= n then s else s[..n]
  }

  /** `c.toString().repeat(n)`. */
  function Repeat(c: char, n: nat): (r: string)
    ensures |r| == n && forall i :: 0 <= i < n ==> r[i] == c
  {
    if n == 0 then "" else [c] + Repeat(c, n - 1)
  }

  function Digit(d: nat): char
    requires d < 10
  {
    "0123456789"[d]
  }

  /** Decimal rendering of a natural number, as string templates print it. */
  function NatToString(n: nat): (r: string)
    ensures |r| >= 1
    ensures forall i :: 0 <= i < |r| ==> '0' <= r[i] <= '9'
  {
    if n < 10 then [Digit(n)] else NatToString(n / 10) + [Digit(n % 10)]
  }

  /** Decimal rendering of any integer, with a leading '-' when negative. */
  function IntToString(n: int): string
  {
    if n < 0 then "-" + NatToString(-n) else NatToString(n)
  }
}
