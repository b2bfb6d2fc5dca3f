/**
 * The qualifier filter of StringFilter.kt (TranslationService.kt carries an
 * identical copy of the table and of the three functions).
 *
 * Each table entry is a regular-expression fragment `f`; a name is matched against
 * `name.matches(".*f.*", IGNORE_CASE)`. The fragments are literals or a literal,
 * `\d+` and a literal, so matching is written out by hand: Unicode-aware
 * case folding (Kotlin's IGNORE_CASE sets both CASE_INSENSITIVE and
 * UNICODE_CASE; see `Text.CaseKey`), `\d` = '0'..'9', and `.` does not
 * match a line terminator, so a name holding one never matches.
 */
module StringFilter {
  import opened Wrappers
  import opened Text
  import opened Sorting

  /** A table fragment: `head`, then (when `digits`) one or more digits and `tail`. */
  datatype Pattern = Pattern(head: string, digits: bool, tail: string)

  function Lit(s: string): Pattern { Pattern(s, false, "") }
  function Num(head: string, tail: string): Pattern { Pattern(head, true, tail) }

  /** The fragment as it is written in the table (and printed by the diagnostic). */
  function Source(p: Pattern): string {
    if p.digits then p.head + "\\d+" + p.tail else p.head
  }

  /** Version qualifiers. */
  const VersionPatterns: seq<Pattern> := [Num("-v", ""), Num("value-v", "")]

  /** Night-mode qualifiers. */
  const NightPatterns: seq<Pattern> :=
    [Lit("-night"), Lit("-notnight"), Lit("value-night"), Lit("value-notnight")]

  /** Orientation qualifiers. */
  const OrientationPatterns: seq<Pattern> :=
    [Lit("-land"), Lit("-port"), Lit("value-land"), Lit("value-port")]

  /** Screen-size qualifiers. */
  const SizePatterns: seq<Pattern> :=
    [Lit("-small"), Lit("-normal"), Lit("-large"), Lit("-xlarge"),
     Lit("value-small"), Lit("value-normal"), Lit("value-large"), Lit("value-xlarge")]

  /** Screen-density qualifiers. */
  const DensityPatterns: seq<Pattern> :=
    [Lit("-ldpi"), Lit("-mdpi"), Lit("-hdpi"), Lit("-xhdpi"), Lit("-xxhdpi"), Lit("-xxxhdpi"), Lit("-nodpi"), Lit("-tvdpi"),
     Lit("value-ldpi"), Lit("value-mdpi"), Lit("value-hdpi"), Lit("value-xhdpi"), Lit("value-xxhdpi"), Lit("value-xxxhdpi")]

  /** Smallest-width, width and height qualifiers. */
  const DimensionPatterns: seq<Pattern> :=
    [Num("-sw", "dp"), Num("-w", "dp"), Num("-h", "dp"),
     Num("value-sw", "dp"), Num("value-w", "dp"), Num("value-h", "dp")]

  /** UI-mode qualifiers. */
  const UiModePatterns: seq<Pattern> :=
    [Lit("-car"), Lit("-desk"), Lit("-television"), Lit("-appliance"), Lit("-watch"), Lit("-vrheadset"),
     Lit("value-car"), Lit("value-desk"), Lit("value-television"), Lit("value-appliance"), Lit("value-watch"), Lit("value-vrheadset")]

  /** Keyboard and input qualifiers. */
  const InputPatterns: seq<Pattern> :=
    [Lit("-keysexposed"), Lit("-keyshidden"), Lit("-keyssoft"),
     Lit("-notouch"), Lit("-stylus"), Lit("-finger"),
     Lit("-trackball"), Lit("-wheel"), Lit("-dpad")]

  /** Navigation qualifiers (three of them repeat input qualifiers). */
  const NavigationPatterns: seq<Pattern> :=
    [Lit("-navexposed"), Lit("-navhidden"), Lit("-nonav"), Lit("-dpad"), Lit("-trackball"), Lit("-wheel")]

  /** Round-screen qualifiers. */
  const RoundPatterns: seq<Pattern> := [Lit("-round"), Lit("-notround")]

  /** `excludePatterns`, in table order (StringFilter.kt:15-55). */
  const ExcludePatterns: seq<Pattern> :=
    VersionPatterns + NightPatterns + OrientationPatterns + SizePatterns + DensityPatterns
    + DimensionPatterns + UiModePatterns + InputPatterns + NavigationPatterns + RoundPatterns

  predicate IsDigit(c: char) { '0' <= c <= '9' }

  /** Java's line terminators, which `.` does not match. */
  predicate IsLineTerminator(c: char) {
    c == '\n' || c == '\r' || c == '\U{0085}' || c == '\U{2028}' || c == '\U{2029}'
  }

  predicate NoLineTerminator(s: string) {
    forall i :: 0 <= i < |s| ==> !IsLineTerminator(s[i])
  }

  // ---------------------------------------------------------------- the scanner

  /** `t` starts with one or more digits followed by `tail` (case ignored). */
  predicate DigitsThen(t: string, tail: string)
    decreases |t|
  {
    |t| > 0 && IsDigit(t[0]) && (StartsWithIgnoreCase(t[1..], tail) || DigitsThen(t[1..], tail))
  }

  /** The fragment matches a prefix of `t`. */
  predicate MatchesHere(t: string, p: Pattern) {
    StartsWithIgnoreCase(t, p.head) && (!p.digits || DigitsThen(t[|p.head|..], p.tail))
  }

  /** The fragment matches somewhere in `s`. */
  predicate Occurs(s: string, p: Pattern)
    decreases |s|
  {
    MatchesHere(s, p) || (|s| > 0 && Occurs(s[1..], p))
  }

  /** `name.matches(".*f.*".toRegex(IGNORE_CASE))`. */
  predicate RegexMatches(name: string, p: Pattern) {
    NoLineTerminator(name) && Occurs(name, p)
  }

  /** `ps.any { name.matches(...) }`. */
  predicate AnyMatches(name: string, ps: seq<Pattern>)
    decreases |ps|
  {
    |ps| > 0 && (RegexMatches(name, ps[0]) || AnyMatches(name, ps[1..]))
  }

  // ---------------------------------------------------------------- reference meaning

  predicate AllDigits(t: string) {
    forall i :: 0 <= i < |t| ==> IsDigit(t[i])
  }

  predicate EqualIgnoreCase(a: string, b: string) {
    |a| == |b| && StartsWithIgnoreCase(a, b)
  }

  /** The whole of `t` is one string of the fragment's language. */
  predicate WholeMatch(t: string, p: Pattern) {
    if p.digits then
      |p.head| + |p.tail| < |t|
      && EqualIgnoreCase(t[..|p.head|], p.head)
      && AllDigits(t[|p.head|..|t| - |p.tail|])
      && EqualIgnoreCase(t[|t| - |p.tail|..], p.tail)
    else EqualIgnoreCase(t, p.head)
  }

  /** The digit run and tail the scanner found, as a length `n` of the run. */
  lemma {:induction false} DigitsThenSound(t: string, tail: string) returns (n: nat)
    requires DigitsThen(t, tail)
    ensures 0 < n && n + |tail| <= |t| && AllDigits(t[..n]) && StartsWithIgnoreCase(t[n..], tail)
    decreases |t|
  {
    if StartsWithIgnoreCase(t[1..], tail) {
      n := 1;
      assert t[..1] == [t[0]];
    } else {
      var m := DigitsThenSound(t[1..], tail);
      n := m + 1;
      assert t[1..][m..] == t[n..];
      var u, v := t[..n], t[1..][..m];
      forall i | 0 <= i < |u| ensures IsDigit(u[i]) {
        if i > 0 { assert u[i] == v[i - 1]; }
      }
    }
  }

  /** A digit run of length `n` followed by the tail is found by the scanner. */
  lemma {:induction false} DigitsThenComplete(t: string, tail: string, n: nat)
    requires 0 < n && n + |tail| <= |t| && AllDigits(t[..n]) && StartsWithIgnoreCase(t[n..], tail)
    ensures DigitsThen(t, tail)
    decreases n
  {
    assert IsDigit(t[..n][0]);
    if n > 1 {
      assert t[1..][n - 1..] == t[n..];
      var u, v := t[1..][..n - 1], t[..n];
      forall i | 0 <= i < |u| ensures IsDigit(u[i]) {
        assert u[i] == v[i + 1];
      }
      DigitsThenComplete(t[1..], tail, n - 1);
    } else {
      assert t[1..] == t[n..];
    }
  }

  /** Digits-then-tail at the front of `t` is exactly a digit run followed by the tail. */
  lemma DigitsThenMeans(t: string, tail: string)
    ensures DigitsThen(t, tail) <==>
      exists n :: 0 < n && n + |tail| <= |t| && AllDigits(t[..n]) && StartsWithIgnoreCase(t[n..], tail)
  {
    if DigitsThen(t, tail) {
      var n := DigitsThenSound(t, tail);
    }
    if exists n :: 0 < n && n + |tail| <= |t| && AllDigits(t[..n]) && StartsWithIgnoreCase(t[n..], tail) {
      var n :| 0 < n && n + |tail| <= |t| && AllDigits(t[..n]) && StartsWithIgnoreCase(t[n..], tail);
      DigitsThenComplete(t, tail, n);
    }
  }

  /** The scanner at the front of `t` finds exactly the prefixes of `t` that wholly match. */
  lemma MatchesHereMeans(t: string, p: Pattern)
    ensures MatchesHere(t, p) <==> exists j :: 0 <= j <= |t| && WholeMatch(t[..j], p)
  {
    if MatchesHere(t, p) {
      var j := MatchesHereSound(t, p);
    }
    if exists j :: 0 <= j <= |t| && WholeMatch(t[..j], p) {
      var j :| 0 <= j <= |t| && WholeMatch(t[..j], p);
      MatchesHereComplete(t, p, j);
    }
  }

  /** A match found by the scanner at the front of `t` is a prefix that wholly matches. */
  lemma MatchesHereSound(t: string, p: Pattern) returns (j: nat)
    requires MatchesHere(t, p)
    ensures j <= |t| && WholeMatch(t[..j], p)
  {
    var h := |p.head|;
    if p.digits {
      DigitsThenMeans(t[h..], p.tail);
      var n :| 0 < n && n + |p.tail| <= |t[h..]| && AllDigits(t[h..][..n]) && StartsWithIgnoreCase(t[h..][n..], p.tail);
      j := h + n + |p.tail|;
      var w := t[..j];
      assert w[..h] == t[..h];
      assert w[h..|w| - |p.tail|] == t[h..][..n];
      assert w[|w| - |p.tail|..] == t[h..][n..][..|p.tail|];
    } else {
      j := h;
    }
  }

  /** A prefix of `t` that wholly matches is found by the scanner. */
  lemma MatchesHereComplete(t: string, p: Pattern, j: nat)
    requires j <= |t| && WholeMatch(t[..j], p)
    ensures MatchesHere(t, p)
  {
    var h := |p.head|;
    var w := t[..j];
    if p.digits {
      var n := j - h - |p.tail|;
      assert t[h..][..n] == w[h..|w| - |p.tail|];
      assert forall i :: 0 <= i < |p.tail| ==> t[h..][n..][i] == w[|w| - |p.tail|..][i];
      DigitsThenMeans(t[h..], p.tail);
    }
  }

  /** An occurrence found by the scanner is a slice that wholly matches. */
  lemma {:induction false} OccursSound(s: string, p: Pattern)
    requires Occurs(s, p)
    ensures exists i, j :: 0 <= i <= j <= |s| && WholeMatch(s[i..j], p)
    decreases |s|
  {
    if MatchesHere(s, p) {
      MatchesHereMeans(s, p);
      var j :| 0 <= j <= |s| && WholeMatch(s[..j], p);
      assert s[0..j] == s[..j];
    } else {
      OccursSound(s[1..], p);
      var i, j :| 0 <= i <= j <= |s[1..]| && WholeMatch(s[1..][i..j], p);
      assert s[1..][i..j] == s[i + 1..j + 1];
    }
  }

  /** A slice that wholly matches is found by the scanner. */
  lemma {:induction false} OccursComplete(s: string, p: Pattern, i: nat, j: nat)
    requires i <= j <= |s| && WholeMatch(s[i..j], p)
    ensures Occurs(s, p)
    decreases i
  {
    if i == 0 {
      assert s[..j] == s[i..j];
      MatchesHereMeans(s, p);
    } else {
      assert s[1..][i - 1..j - 1] == s[i..j];
      OccursComplete(s[1..], p, i - 1, j - 1);
    }
  }

  /** The hand-written matcher agrees with the regex: the fragment occurs iff some slice wholly matches it. */
  lemma OccursMeans(s: string, p: Pattern)
    ensures Occurs(s, p) <==> exists i, j :: 0 <= i <= j <= |s| && WholeMatch(s[i..j], p)
  {
    if Occurs(s, p) {
      OccursSound(s, p);
    }
    if exists i, j :: 0 <= i <= j <= |s| && WholeMatch(s[i..j], p) {
      var i, j :| 0 <= i <= j <= |s| && WholeMatch(s[i..j], p);
      OccursComplete(s, p, i, j);
    }
  }

  /** `any` over the table is some entry of the table matching. */
  lemma {:induction false} AnyMatchesMeans(name: string, ps: seq<Pattern>)
    ensures AnyMatches(name, ps) <==> exists k :: 0 <= k < |ps| && RegexMatches(name, ps[k])
    decreases |ps|
  {
    if |ps| > 0 {
      AnyMatchesMeans(name, ps[1..]);
      if exists k :: 0 <= k < |ps| && RegexMatches(name, ps[k]) {
        var k :| 0 <= k < |ps| && RegexMatches(name, ps[k]);
        if k > 0 { assert ps[1..][k - 1] == ps[k]; }
      }
    }
  }

  // ---------------------------------------------------------------- the service

  /** The folder test against a table: only `values…` folders other than `values` can be excluded. */
  predicate FolderExcludedBy(folderName: string, ps: seq<Pattern>) {
    if !StartsWith(folderName, "values") then false
    else if folderName == "values" then false
    else AnyMatches(folderName, ps)
  }

  /** `shouldExcludeString`: some table fragment matches the name (StringFilter.kt:126-131). */
  function ShouldExcludeString(stringName: string): bool
  {
    AnyMatches(stringName, ExcludePatterns)
  }

  /** `shouldExcludeValuesFolder` (StringFilter.kt:137-152). */
  function ShouldExcludeValuesFolder(folderName: string): (r: bool)
    ensures !StartsWith(folderName, "values") ==> !r
    ensures folderName == "values" ==> !r
    ensures StartsWith(folderName, "values") && folderName != "values" ==> r == ShouldExcludeString(folderName)
  {
    FolderExcludedBy(folderName, ExcludePatterns)
  }

  /** Whether some table entry matches, stated through slices that wholly match. */
  lemma AnyMatchesMeansWhole(name: string, ps: seq<Pattern>)
    ensures AnyMatches(name, ps) <==>
      NoLineTerminator(name) &&
      exists k, i, j :: 0 <= k < |ps| && 0 <= i <= j <= |name| && WholeMatch(name[i..j], ps[k])
  {
    AnyMatchesMeans(name, ps);
    if AnyMatches(name, ps) {
      var k :| 0 <= k < |ps| && RegexMatches(name, ps[k]);
      OccursMeans(name, ps[k]);
    }
    if NoLineTerminator(name) &&
      exists k, i, j :: 0 <= k < |ps| && 0 <= i <= j <= |name| && WholeMatch(name[i..j], ps[k]) {
      var k, i, j :| 0 <= k < |ps| && 0 <= i <= j <= |name| && WholeMatch(name[i..j], ps[k]);
      OccursMeans(name, ps[k]);
    }
  }

  /**
   * A string name is excluded iff it has no line terminator and some table
   * fragment wholly matches one of its slices.
   */
  lemma ExcludedStringMeans(name: string)
    ensures ShouldExcludeString(name) <==>
      NoLineTerminator(name) &&
      exists k, i, j :: 0 <= k < |ExcludePatterns| && 0 <= i <= j <= |name| && WholeMatch(name[i..j], ExcludePatterns[k])
  {
    AnyMatchesMeansWhole(name, ExcludePatterns);
  }

  /** A case-sensitive prefix is a case-insensitive one. */
  lemma StartsWithIgnoringCase(s: string, p: string)
    requires StartsWith(s, p)
    ensures StartsWithIgnoreCase(s, p)
  {
    assert forall i :: 0 <= i < |p| ==> s[i] == p[i];
  }

  /** A match of the fragment at a known position is an occurrence. */
  lemma {:induction false} OccursAt(s: string, i: nat, p: Pattern)
    requires i <= |s| && MatchesHere(s[i..], p)
    ensures Occurs(s, p)
    decreases i
  {
    if i > 0 {
      assert s[1..][i - 1..] == s[i..];
      OccursAt(s[1..], i - 1, p);
    }
  }

  /** `values-v21` is excluded: `-v\d+` matches `-v21`. */
  lemma VersionFolderExcluded()
    ensures ShouldExcludeValuesFolder("values-v21")
  {
    var s := "values-v21";
    VersionMatches();
    assert ExcludePatterns[0] == Num("-v", "");
    assert StartsWith(s, "values");
  }

  /** `-v\d+` matches the folder name `values-v21`. */
  lemma VersionMatches()
    ensures RegexMatches("values-v21", Num("-v", ""))
  {
    var s := "values-v21";
    VersionTagMatches(s[6..]);
    OccursAt(s, 6, Num("-v", ""));
    PrintableOneLine(s);
  }

  /** Printable ASCII characters only. */
  predicate Printable(s: string)
    decreases |s|
  {
    |s| == 0 || (' ' <= s[0] <= '~' && Printable(s[1..]))
  }

  /** Text of printable ASCII characters holds no line terminator. */
  lemma {:induction false} PrintableOneLine(s: string)
    requires Printable(s)
    ensures NoLineTerminator(s)
    decreases |s|
  {
    if |s| > 0 {
      PrintableOneLine(s[1..]);
      assert forall i :: 1 <= i < |s| ==> s[i] == s[1..][i - 1];
    }
  }

  /** `-v` and a digit at the front of `t` match `-v\d+`. */
  lemma VersionTagMatches(t: string)
    requires |t| >= 3 && t[0] == '-' && t[1] == 'v' && IsDigit(t[2])
    ensures MatchesHere(t, Num("-v", ""))
  {
    var p := Num("-v", "");
    assert StartsWithIgnoreCase(t, p.head);
    assert t[2..][0] == t[2];
    assert DigitsThen(t[2..], "");
  }

  /**
   * Case is compared the Unicode way: `values-nıght`, with a dotless i, is
   * excluded by `-night`.
   */
  lemma DotlessIExcluded(name: string)
    requires name == "values-n\U{0131}ght"
    ensures ShouldExcludeValuesFolder(name)
  {
    var w := "-n\U{0131}ght";
    assert name == "values" + w;
    assert StartsWithIgnoreCase(w, "-night");
    TableEntry(2, Lit("-night"));
    ExcludedByWord("values", w, 2, "-night");
  }

  /** `values-ſmall`, with a long s, is excluded by `-small`. */
  lemma LongSExcluded(name: string)
    requires name == "values-\U{017F}mall"
    ensures ShouldExcludeValuesFolder(name)
  {
    var w := "-\U{017F}mall";
    assert name == "values" + w;
    assert StartsWithIgnoreCase(w, "-small");
    TableEntry(10, Lit("-small"));
    ExcludedByWord("values", w, 10, "-small");
  }

  /** A `values` folder in which a literal table entry is found, case ignored, is excluded. */
  lemma ExcludedByWord(pre: string, w: string, k: nat, lit: string)
    requires StartsWith(pre, "values") && |w| > 0 && NoLineTerminator(pre) && NoLineTerminator(w)
    requires k < |ExcludePatterns| && ExcludePatterns[k] == Lit(lit)
    requires StartsWithIgnoreCase(w, lit)
    ensures ShouldExcludeValuesFolder(pre + w)
  {
    var name := pre + w;
    assert name[|pre|..] == w;
    assert name[..6] == pre[..6];
    forall i | 0 <= i < |name| ensures !IsLineTerminator(name[i]) {
      if i >= |pre| { assert name[i] == w[i - |pre|]; }
    }
    OccursAt(name, |pre|, Lit(lit));
    AnyMatchesMeans(name, ExcludePatterns);
  }

  lemma TableEntry(k: nat, p: Pattern)
    requires (k == 2 && p == Lit("-night")) || (k == 10 && p == Lit("-small"))
    ensures k < |ExcludePatterns| && ExcludePatterns[k] == p
  {
    var front := VersionPatterns + NightPatterns + OrientationPatterns + SizePatterns;
    assert front[2] == Lit("-night") && front[10] == Lit("-small");
    assert ExcludePatterns == front + (DensityPatterns
      + DimensionPatterns + UiModePatterns + InputPatterns + NavigationPatterns + RoundPatterns);
  }

  /** The three shapes of table entries that the locale lemma relies on. */
  predicate Shaped(p: Pattern) {
    p.digits
    || (|p.head| >= 4 && p.head[0] == '-')
    || (|p.head| >= 6 && p.head[..6] == "value-")
  }

  predicate AllShaped(ps: seq<Pattern>) {
    forall k :: 0 <= k < |ps| ==> Shaped(ps[k])
  }

  lemma ShapedConcat(a: seq<Pattern>, b: seq<Pattern>)
    requires AllShaped(a) && AllShaped(b)
    ensures AllShaped(a + b)
  {
    forall k | 0 <= k < |a + b| ensures Shaped((a + b)[k]) {
      if k >= |a| { assert (a + b)[k] == b[k - |a|]; }
    }
  }

  /** Every entry of the table is a digit pattern, a `-` word of four or more characters, or a `value-` word. */
  lemma TableShaped()
    ensures AllShaped(ExcludePatterns)
  {
    GroupShapedVersion();
    GroupShapedNight();
    GroupShapedOrientation();
    GroupShapedSize();
    GroupShapedDensity();
    GroupShapedDimension();
    GroupShapedUiMode();
    GroupShapedInput();
    GroupShapedNavigation();
    GroupShapedRound();
    ShapedConcat(VersionPatterns, NightPatterns);
    ShapedConcat(VersionPatterns + NightPatterns, OrientationPatterns);
    ShapedConcat(VersionPatterns + NightPatterns + OrientationPatterns, SizePatterns);
    ShapedConcat(VersionPatterns + NightPatterns + OrientationPatterns + SizePatterns, DensityPatterns);
    ShapedConcat(VersionPatterns + NightPatterns + OrientationPatterns + SizePatterns
      + DensityPatterns, DimensionPatterns);
    ShapedConcat(VersionPatterns + NightPatterns + OrientationPatterns + SizePatterns
      + DensityPatterns + DimensionPatterns, UiModePatterns);
    ShapedConcat(VersionPatterns + NightPatterns + OrientationPatterns + SizePatterns
      + DensityPatterns + DimensionPatterns + UiModePatterns, InputPatterns);
    ShapedConcat(VersionPatterns + NightPatterns + OrientationPatterns + SizePatterns
      + DensityPatterns + DimensionPatterns + UiModePatterns + InputPatterns, NavigationPatterns);
    ShapedConcat(VersionPatterns + NightPatterns + OrientationPatterns + SizePatterns
      + DensityPatterns + DimensionPatterns + UiModePatterns + InputPatterns + NavigationPatterns, RoundPatterns);
  }

  lemma GroupShapedVersion() ensures AllShaped(VersionPatterns) {}
  lemma GroupShapedNight() ensures AllShaped(NightPatterns) {}
  lemma GroupShapedOrientation() ensures AllShaped(OrientationPatterns) {}
  lemma GroupShapedSize() ensures AllShaped(SizePatterns) {}
  lemma GroupShapedDensity() ensures AllShaped(DensityPatterns) {}
  lemma GroupShapedDimension() ensures AllShaped(DimensionPatterns) {}
  lemma GroupShapedUiMode() ensures AllShaped(UiModePatterns) {}
  lemma GroupShapedInput() ensures AllShaped(InputPatterns) {}
  lemma GroupShapedNavigation() ensures AllShaped(NavigationPatterns) {}
  lemma GroupShapedRound() ensures AllShaped(RoundPatterns) {}

  predicate NoDigit(s: string) {
    forall i :: 0 <= i < |s| ==> !IsDigit(s[i])
  }

  /** A name without digits matches no digit pattern. */
  lemma DigitPatternNeedsDigit(s: string, p: Pattern)
    requires p.digits && NoDigit(s)
    ensures !Occurs(s, p)
  {
    if Occurs(s, p) {
      OccursSound(s, p);
    }
  }

  /** A short two-letter locale folder is matched by no literal entry. */
  lemma LiteralMisses(code: string, p: Pattern)
    requires |code| <= 2 && !p.digits && Shaped(p)
    ensures !Occurs("values-" + code, p)
  {
    var s := "values-" + code;
    assert s[..6] == "values";
    forall i, j | 0 <= i <= j <= |s| ensures !WholeMatch(s[i..j], p) {
      if j - i == |p.head| {
        var t := s[i..j];
        if p.head[0] == '-' {
          assert t[0] == s[..6][i];
          assert CaseKey(t[0]) != CaseKey(p.head[0]);
        } else if i == 0 {
          assert p.head[..6][5] == '-';
          assert t[5] == s[..6][5];
          assert CaseKey(t[5]) != CaseKey(p.head[5]);
        } else {
          assert p.head[..6][0] == 'v';
          assert t[0] == s[..6][i];
          assert CaseKey(t[0]) != CaseKey(p.head[0]);
        }
      }
    }
    OccursMeans(s, p);
  }

  /** Two-letter language folders such as `values-vi` are never excluded. */
  lemma LanguageFolderKept(code: string)
    requires |code| <= 2 && NoDigit(code)
    ensures !ShouldExcludeValuesFolder("values-" + code)
  {
    var s := "values-" + code;
    TableShaped();
    assert NoDigit(s) by {
      forall i | 0 <= i < |s| ensures !IsDigit(s[i]) {
        if i >= 7 { assert s[i] == code[i - 7]; }
      }
    }
    forall k | 0 <= k < |ExcludePatterns| ensures !RegexMatches(s, ExcludePatterns[k]) {
      var p := ExcludePatterns[k];
      if p.digits { DigitPatternNeedsDigit(s, p); } else { LiteralMisses(code, p); }
    }
    AnyMatchesMeans(s, ExcludePatterns);
  }

  /** `values-vi` is kept. */
  lemma VietnameseFolderKept()
    ensures !ShouldExcludeValuesFolder("values-vi")
  {
    LanguageFolderKept("vi");
    assert "values-" + "vi" == "values-vi";
  }

  // ---------------------------------------------------------------- the diagnostic

  /** The "Matched: f" entries of the diagnostic, one per matching table entry, in table order. */
  function MatchReport(name: string, ps: seq<Pattern>): (r: seq<string>)
    ensures |r| <= |ps|
    decreases |ps|
  {
    if |ps| == 0 then []
    else (if RegexMatches(name, ps[0]) then ["Matched: " + Source(ps[0])] else []) + MatchReport(name, ps[1..])
  }

  lemma {:induction false} MatchReportConcat(name: string, a: seq<Pattern>, b: seq<Pattern>)
    ensures MatchReport(name, a + b) == MatchReport(name, a) + MatchReport(name, b)
    decreases |a|
  {
    if |a| > 0 {
      assert (a + b)[1..] == a[1..] + b;
      MatchReportConcat(name, a[1..], b);
    } else {
      assert a + b == b;
    }
  }

  /** The report is empty exactly when no entry matches. */
  lemma {:induction false} MatchReportEmpty(name: string, ps: seq<Pattern>)
    ensures MatchReport(name, ps) == [] <==> !AnyMatches(name, ps)
    decreases |ps|
  {
    if |ps| > 0 {
      MatchReportEmpty(name, ps[1..]);
    }
  }

  /**
   * An entry that stands twice in the table, at `i` and at `j`, is listed twice
   * for a name it matches.
   */
  lemma ListedTwice(name: string, ps: seq<Pattern>, i: nat, j: nat)
    requires i < j < |ps| && ps[i] == ps[j] && RegexMatches(name, ps[i])
    ensures exists x, y :: (0 <= x < y < |MatchReport(name, ps)|
      && MatchReport(name, ps)[x] == "Matched: " + Source(ps[i])
      && MatchReport(name, ps)[y] == "Matched: " + Source(ps[i]))
  {
    var a, b, c := ps[..i], ps[i + 1..j], ps[j + 1..];
    var e := "Matched: " + Source(ps[i]);
    assert ps == a + [ps[i]] + b + [ps[j]] + c;
    MatchReportConcat(name, a + [ps[i]] + b + [ps[j]], c);
    MatchReportConcat(name, a + [ps[i]] + b, [ps[j]]);
    MatchReportConcat(name, a + [ps[i]], b);
    MatchReportConcat(name, a, [ps[i]]);
    var ra, rb := MatchReport(name, a), MatchReport(name, b);
    var r := MatchReport(name, ps);
    assert MatchReport(name, [ps[i]]) == [e];
    assert r == ra + [e] + rb + [e] + MatchReport(name, c);
    assert r[|ra|] == e;
    assert r[|ra| + 1 + |rb|] == e;
  }

  /**
   * `-dpad` stands twice in the table (entries 58 and 62), so the reason for a
   * name it matches lists "Matched: -dpad" at two different places.
   */
  lemma DpadListedTwice(name: string)
    requires RegexMatches(name, Lit("-dpad"))
    ensures exists x, y :: (0 <= x < y < |MatchReport(name, ExcludePatterns)|
      && MatchReport(name, ExcludePatterns)[x] == "Matched: -dpad"
      && MatchReport(name, ExcludePatterns)[y] == "Matched: -dpad")
  {
    assert ExcludePatterns[58] == Lit("-dpad") && ExcludePatterns[62] == Lit("-dpad");
    ListedTwice(name, ExcludePatterns, 58, 62);
  }

  /** The text of the reason for an excluded name. */
  function ReasonText(report: seq<string>): string {
    "Matched patterns: " + Join(report, ", ")
  }

  /** The fixed reason when nothing excludes the name. */
  const NoMatchReason := "No matching exclusion patterns"

  /** The loop of `testExclusion` that collects the matching entries. */
  method CollectMatches(name: string, ps: seq<Pattern>) returns (matchingPatterns: seq<string>)
    ensures matchingPatterns == MatchReport(name, ps)
  {
    matchingPatterns := [];
    var k := 0;
    while k < |ps|
      invariant 0 <= k <= |ps|
      invariant matchingPatterns + MatchReport(name, ps[k..]) == MatchReport(name, ps)
    {
      var pattern := ps[k];
      assert ps[k..][1..] == ps[k + 1..];
      if RegexMatches(name, pattern) {
        matchingPatterns := matchingPatterns + ["Matched: " + Source(pattern)];
      }
      k := k + 1;
    }
    assert ps[k..] == [];
  }

  /**
   * `testExclusion(name, isFolder)` (StringFilter.kt:97-120): the flag of the
   * folder or string test, and a reason that lists every matching fragment.
   */
  method TestExclusion(name: string, isFolder: bool) returns (isExcluded: bool, reason: string)
    ensures isExcluded == if isFolder then ShouldExcludeValuesFolder(name) else ShouldExcludeString(name)
    ensures isExcluded ==> reason == ReasonText(MatchReport(name, ExcludePatterns))
    ensures !isExcluded ==> reason == NoMatchReason
  {
    isExcluded := if isFolder then ShouldExcludeValuesFolder(name) else ShouldExcludeString(name);
    if isExcluded {
      var matchingPatterns := CollectMatches(name, ExcludePatterns);
      reason := ReasonText(matchingPatterns);
    } else {
      reason := NoMatchReason;
    }
  }

  /** An excluded name always gets a non-empty list of matches in its reason. */
  lemma ExcludedHasMatches(name: string)
    requires ShouldExcludeString(name)
    ensures MatchReport(name, ExcludePatterns) != []
  {
    MatchReportEmpty(name, ExcludePatterns);
  }

  // ---------------------------------------------------------------- folder listing

  /** A directory entry: its name and whether it is a directory. */
  datatype Entry = Entry(name: string, isDirectory: bool)

  /** The `values…` sub-directories of a listing, in listing order. */
  function ValuesFolders(entries: seq<Entry>): (r: seq<string>)
    ensures forall x :: x in r ==> StartsWith(x, "values")
    decreases |entries|
  {
    if |entries| == 0 then []
    else
      var e := entries[0];
      (if e.isDirectory && StartsWith(e.name, "values") then [e.name] else []) + ValuesFolders(entries[1..])
  }

  /** Names the folder test keeps (`keep`) or drops (`!keep`) against a table, in order. */
  function FilterFolders(names: seq<string>, keep: bool, ps: seq<Pattern>): (r: seq<string>)
    ensures forall x :: x in r ==> x in names && FolderExcludedBy(x, ps) != keep
    decreases |names|
  {
    if |names| == 0 then []
    else
      (if FolderExcludedBy(names[0], ps) != keep then [names[0]] else []) + FilterFolders(names[1..], keep, ps)
  }

  /** Kept and dropped names together are the input list. */
  lemma {:induction false} FilterPartition(names: seq<string>, ps: seq<Pattern>)
    ensures multiset(FilterFolders(names, true, ps)) + multiset(FilterFolders(names, false, ps)) == multiset(names)
    decreases |names|
  {
    if |names| > 0 {
      var h, rest := names[0], names[1..];
      FilterPartition(rest, ps);
      assert names == [h] + rest;
      var drop := FolderExcludedBy(h, ps);
      assert FilterFolders(names, !drop, ps) == [h] + FilterFolders(rest, !drop, ps);
      assert FilterFolders(names, drop, ps) == FilterFolders(rest, drop, ps);
    }
  }

  /**
   * `getFilteredValuesFolders` (StringFilter.kt:61-84) over a listing; `None`
   * stands for a directory that does not exist or cannot be listed. The result
   * is the sorted list of kept folders; with the dropped ones it makes up every
   * `values…` directory of the listing.
   */
  function FilteredValuesFolders(listing: Option<seq<Entry>>): (r: seq<string>)
    ensures Sorted(Natural, r)
    ensures forall x :: x in r ==> StartsWith(x, "values") && !ShouldExcludeValuesFolder(x)
    ensures listing.Some? ==>
      multiset(r) + multiset(FilterFolders(ValuesFolders(listing.value), false, ExcludePatterns))
        == multiset(ValuesFolders(listing.value))
    ensures listing.None? ==> r == []
  {
    if listing.None? then []
    else
      var all := ValuesFolders(listing.value);
      SortedKept(all, ExcludePatterns);
      Sort(Natural, FilterFolders(all, true, ExcludePatterns))
  }

  /** Sorting the kept names keeps every one of them, and only them. */
  lemma SortedKept(all: seq<string>, ps: seq<Pattern>)
    ensures var r := Sort(Natural, FilterFolders(all, true, ps));
      (forall x :: x in r ==> x in all && !FolderExcludedBy(x, ps))
      && multiset(r) + multiset(FilterFolders(all, false, ps)) == multiset(all)
  {
    var kept := FilterFolders(all, true, ps);
    FilterPartition(all, ps);
    var r := Sort(Natural, kept);
    assert forall x :: x in r ==> x in multiset(kept);
  }
}
