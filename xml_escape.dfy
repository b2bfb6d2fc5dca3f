/**
 * The two `escapeXmlText` replace chains. XmlProcessor.kt:142-152 escapes bare
 * ampersands and apostrophes and turns newline, tab and carriage return into
 * the two-character sequences `\n`, `\t`, `\r`; the copy in
 * TranslationService.kt:705-712 stops after the apostrophe.
 */
module XmlEscape {
  import opened Text

  /** `[a-zA-Z0-9#]` */
  predicate IsEntityChar(c: char) {
    'a' <= c <= 'z' || 'A' <= c <= 'Z' || '0' <= c <= '9' || c == '#'
  }

  /** `[a-zA-Z0-9#]*;` matches a prefix of `t`. */
  predicate RunThenSemicolon(t: string)
    decreases |t|
  {
    |t| > 0 && (t[0] == ';' || (IsEntityChar(t[0]) && RunThenSemicolon(t[1..])))
  }

  /** The lookahead `[a-zA-Z0-9#]+;` holds at the front of `t`. */
  predicate EntityAhead(t: string) {
    |t| > 0 && IsEntityChar(t[0]) && RunThenSemicolon(t[1..])
  }

  /** A character that can neither start nor continue nor end an entity-like run. */
  predicate OutsideEntities(c: char) {
    !IsEntityChar(c) && c != ';' && c != '&'
  }

  /**
   * `replace(Regex("&(?![a-zA-Z0-9#]+;)"), "&amp;")`: every `&` not followed by
   * an entity-like run in the original text becomes `&amp;`.
   */
  function EscapeAmpersands(s: string): string
    decreases |s|
  {
    if |s| == 0 then ""
    else if s[0] == '&' && !EntityAhead(s[1..]) then "&amp;" + EscapeAmpersands(s[1..])
    else [s[0]] + EscapeAmpersands(s[1..])
  }

  /** Every `&` of `s` begins an entity-like run. */
  predicate AmpersandsEscaped(s: string)
    decreases |s|
  {
    |s| == 0 || ((s[0] == '&' ==> EntityAhead(s[1..])) && AmpersandsEscaped(s[1..]))
  }

  /** The escaping of TranslationService.kt:705-712: ampersands, then apostrophes. */
  function EscapeMinimal(text: string): string {
    ReplaceAll(EscapeAmpersands(text), "'", "&apos;")
  }

  /** The escaping of XmlProcessor.kt:142-152: the minimal chain, then the three control characters. */
  function EscapeFull(text: string): string {
    ReplaceAll(ReplaceAll(ReplaceAll(EscapeMinimal(text), "\n", "\\n"), "\t", "\\t"), "\r", "\\r")
  }

  /** Which of the two copies a caller uses. */
  datatype Escaping = Full | Minimal

  function Escape(mode: Escaping, text: string): string {
    match mode
    case Full => EscapeFull(text)
    case Minimal => EscapeMinimal(text)
  }

  /** What the full chain makes of one character outside entity-like runs. */
  function EscapedChar(c: char): string {
    if c == '\'' then "&apos;"
    else if c == '\n' then "\\n"
    else if c == '\t' then "\\t"
    else if c == '\r' then "\\r"
    else [c]
  }

  // ---------------------------------------------------------------- entity runs

  lemma {:induction false} RunExtends(t: string, u: string)
    requires RunThenSemicolon(t)
    ensures RunThenSemicolon(t + u)
    decreases |t|
  {
    if t[0] != ';' {
      assert (t + u)[1..] == t[1..] + u;
      RunExtends(t[1..], u);
    }
  }

  lemma EntityExtends(t: string, u: string)
    requires EntityAhead(t)
    ensures EntityAhead(t + u)
  {
    assert (t + u)[1..] == t[1..] + u;
    RunExtends(t[1..], u);
  }

  /** A run is made of characters the ampersand rule copies, so it survives it. */
  lemma {:induction false} RunSurvivesAmpersands(t: string)
    requires RunThenSemicolon(t)
    ensures RunThenSemicolon(EscapeAmpersands(t))
    decreases |t|
  {
    if t[0] != ';' {
      RunSurvivesAmpersands(t[1..]);
    }
  }

  /** A run survives replacing a character that cannot be part of it. */
  lemma {:induction false} RunSurvivesReplace(t: string, c: char, rep: string)
    requires RunThenSemicolon(t) && OutsideEntities(c)
    ensures RunThenSemicolon(ReplaceAll(t, [c], rep))
    decreases |t|
  {
    if t[0] != ';' {
      RunSurvivesReplace(t[1..], c, rep);
    }
  }

  lemma {:induction false} EscapedConcat(a: string, b: string)
    requires AmpersandsEscaped(a) && AmpersandsEscaped(b)
    ensures AmpersandsEscaped(a + b)
    decreases |a|
  {
    if |a| > 0 {
      assert (a + b)[1..] == a[1..] + b;
      EscapedConcat(a[1..], b);
      if a[0] == '&' {
        EntityExtends(a[1..], b);
      }
    } else {
      assert a + b == b;
    }
  }

  // ---------------------------------------------------------------- the ampersand rule

  /** After the ampersand rule every `&` begins an entity-like run. */
  lemma {:induction false} AmpersandsEscapedAfter(s: string)
    ensures AmpersandsEscaped(EscapeAmpersands(s))
    decreases |s|
  {
    if |s| > 0 {
      var rest := EscapeAmpersands(s[1..]);
      AmpersandsEscapedAfter(s[1..]);
      if s[0] == '&' && !EntityAhead(s[1..]) {
        assert AmpersandsEscaped("&amp;");
        EscapedConcat("&amp;", rest);
      } else if s[0] == '&' {
        RunSurvivesAmpersands(s[1..][1..]);
        assert EntityAhead(rest);
      }
    }
  }

  /** Text whose ampersands all begin entity-like runs is left alone: already-escaped entities stay. */
  lemma {:induction false} AmpersandsIdentity(s: string)
    requires AmpersandsEscaped(s)
    ensures EscapeAmpersands(s) == s
    decreases |s|
  {
    if |s| > 0 {
      AmpersandsIdentity(s[1..]);
    }
  }

  /** The ampersand rule works on the two sides of a character outside entity runs separately. */
  lemma {:induction false} AmpersandsSplit(a: string, c: char, b: string)
    requires OutsideEntities(c)
    ensures EscapeAmpersands(a + [c] + b) == EscapeAmpersands(a) + [c] + EscapeAmpersands(b)
    decreases |a|
  {
    if |a| > 0 {
      assert (a + [c] + b)[1..] == a[1..] + [c] + b;
      AmpersandsSplit(a[1..], c, b);
      if a[0] == '&' {
        if |a| == 1 {
          assert !EntityAhead([c] + b);
          assert a[1..] + [c] + b == [c] + b;
        } else {
          AheadSplit(a[1..], c, b);
        }
      }
    } else {
      assert a + [c] + b == [c] + b;
      assert ([c] + b)[1..] == b;
    }
  }

  /** The lookahead at a position of `a` is not affected by what follows a non-run character. */
  lemma AheadSplit(a: string, c: char, b: string)
    requires |a| > 0 && OutsideEntities(c)
    ensures EntityAhead(a + [c] + b) == EntityAhead(a)
  {
    assert (a + [c] + b)[1..] == a[1..] + [c] + b;
    RunSplit(a[1..], c, b);
  }

  lemma {:induction false} RunSplit(a: string, c: char, b: string)
    requires OutsideEntities(c)
    ensures RunThenSemicolon(a + [c] + b) == RunThenSemicolon(a)
    decreases |a|
  {
    if |a| > 0 {
      assert (a + [c] + b)[1..] == a[1..] + [c] + b;
      RunSplit(a[1..], c, b);
    } else {
      assert a + [c] + b == [c] + b;
    }
  }

  // ---------------------------------------------------------------- one-character replacements

  /** Replacing a character outside entity runs by escaped text keeps every `&` escaped. */
  lemma {:induction false} ReplaceKeepsEscaped(s: string, c: char, rep: string)
    requires AmpersandsEscaped(s) && AmpersandsEscaped(rep) && OutsideEntities(c)
    ensures AmpersandsEscaped(ReplaceAll(s, [c], rep))
    decreases |s|
  {
    if |s| > 0 {
      var rest := ReplaceAll(s[1..], [c], rep);
      ReplaceKeepsEscaped(s[1..], c, rep);
      if s[0] == c {
        EscapedConcat(rep, rest);
      } else if s[0] == '&' {
        RunSurvivesReplace(s[1..][1..], c, rep);
        assert EntityAhead(rest);
      }
    }
  }

  lemma {:induction false} AbsentCharNotContained(s: string, c: char)
    requires c !in s
    ensures !Contains(s, [c])
    decreases |s|
  {
    if |s| > 0 {
      assert s[0] in s;
      assert forall k :: 0 <= k < |s[1..]| ==> s[1..][k] in s;
      AbsentCharNotContained(s[1..], c);
    }
  }

  /** Replacing an absent character changes nothing. */
  lemma ReplaceAbsentChar(s: string, c: char, rep: string)
    requires c !in s
    ensures ReplaceAll(s, [c], rep) == s
  {
    AbsentCharNotContained(s, c);
    ReplaceAllAbsent(s, [c], rep);
  }

  // ---------------------------------------------------------------- properties of the chains

  /**
   * The full chain leaves no raw newline, tab, carriage return or apostrophe,
   * and every `&` it leaves begins an entity-like run.
   */
  lemma EscapeFullSafe(text: string)
    ensures '\n' !in EscapeFull(text) && '\t' !in EscapeFull(text) && '\r' !in EscapeFull(text)
    ensures '\'' !in EscapeFull(text)
    ensures AmpersandsEscaped(EscapeFull(text))
  {
    EscapeFullNoControls(text);
    EscapeFullAmpersands(text);
  }

  /** The full chain leaves no raw newline, tab, carriage return or apostrophe. */
  lemma EscapeFullNoControls(text: string)
    ensures '\n' !in EscapeFull(text) && '\t' !in EscapeFull(text) && '\r' !in EscapeFull(text)
    ensures '\'' !in EscapeFull(text)
  {
    var s0 := EscapeAmpersands(text);
    var s1 := ReplaceAll(s0, "'", "&apos;");
    var s2 := ReplaceAll(s1, "\n", "\\n");
    var s3 := ReplaceAll(s2, "\t", "\\t");
    assert "'" == ['\''] && "\n" == ['\n'] && "\t" == ['\t'] && "\r" == ['\r'];
    ReplaceCharRemoves(s0, '\'', "&apos;");
    ReplaceCharRemoves(s1, '\n', "\\n");
    ReplaceCharRemoves(s2, '\t', "\\t");
    ReplaceCharRemoves(s3, '\r', "\\r");
    ReplaceAllKeepsOut(s1, "\n", "\\n", '\'');
    ReplaceAllKeepsOut(s2, "\t", "\\t", '\'');
    ReplaceAllKeepsOut(s2, "\t", "\\t", '\n');
    ReplaceAllKeepsOut(s3, "\r", "\\r", '\'');
    ReplaceAllKeepsOut(s3, "\r", "\\r", '\n');
    ReplaceAllKeepsOut(s3, "\r", "\\r", '\t');
  }

  /** Every `&` the full chain leaves begins an entity-like run. */
  lemma EscapeFullAmpersands(text: string)
    ensures AmpersandsEscaped(EscapeFull(text))
  {
    var s0 := EscapeAmpersands(text);
    var s1 := ReplaceAll(s0, "'", "&apos;");
    var s2 := ReplaceAll(s1, "\n", "\\n");
    var s3 := ReplaceAll(s2, "\t", "\\t");
    assert "'" == ['\''] && "\n" == ['\n'] && "\t" == ['\t'] && "\r" == ['\r'];
    AmpersandsEscapedAfter(text);
    assert AmpersandsEscaped("&apos;");
    ReplaceKeepsEscaped(s0, '\'', "&apos;");
    assert AmpersandsEscaped("\\n") && AmpersandsEscaped("\\t") && AmpersandsEscaped("\\r");
    ReplaceKeepsEscaped(s1, '\n', "\\n");
    ReplaceKeepsEscaped(s2, '\t', "\\t");
    ReplaceKeepsEscaped(s3, '\r', "\\r");
  }

  /** The minimal chain leaves no apostrophe, and every `&` it leaves begins an entity-like run. */
  lemma EscapeMinimalSafe(text: string)
    ensures '\'' !in EscapeMinimal(text)
    ensures AmpersandsEscaped(EscapeMinimal(text))
  {
    var s0 := EscapeAmpersands(text);
    assert "'" == ['\''];
    ReplaceCharRemoves(s0, '\'', "&apos;");
    AmpersandsEscapedAfter(text);
    assert AmpersandsEscaped("&apos;");
    ReplaceKeepsEscaped(s0, '\'', "&apos;");
  }

  /** Escaping twice with the full chain is escaping once. */
  lemma EscapeFullIdempotent(text: string)
    ensures EscapeFull(EscapeFull(text)) == EscapeFull(text)
  {
    var r := EscapeFull(text);
    EscapeFullSafe(text);
    AmpersandsIdentity(r);
    assert "'" == ['\''] && "\n" == ['\n'] && "\t" == ['\t'] && "\r" == ['\r'];
    ReplaceAbsentChar(r, '\'', "&apos;");
    ReplaceAbsentChar(r, '\n', "\\n");
    ReplaceAbsentChar(r, '\t', "\\t");
    ReplaceAbsentChar(r, '\r', "\\r");
  }

  /** Escaping twice with the minimal chain is escaping once. */
  lemma EscapeMinimalIdempotent(text: string)
    ensures EscapeMinimal(EscapeMinimal(text)) == EscapeMinimal(text)
  {
    var r := EscapeMinimal(text);
    EscapeMinimalSafe(text);
    AmpersandsIdentity(r);
    assert "'" == ['\''];
    ReplaceAbsentChar(r, '\'', "&apos;");
  }

  /** A one-character replacement works on the three parts of a concatenation separately. */
  lemma ReplaceCharThree(x: string, m: string, y: string, d: char, rep: string)
    ensures ReplaceAll(x + m + y, [d], rep) == ReplaceAll(x, [d], rep) + ReplaceAll(m, [d], rep) + ReplaceAll(y, [d], rep)
  {
    ReplaceCharConcat(x + m, y, d, rep);
    ReplaceCharConcat(x, m, d, rep);
  }

  /** The character steps of the chain, applied to an apostrophe-escaped text. */
  function ControlSteps(s: string): string {
    ReplaceAll(ReplaceAll(ReplaceAll(s, "\n", "\\n"), "\t", "\\t"), "\r", "\\r")
  }

  /** The character steps of the chain, applied to an ampersand-escaped text. */
  function CharSteps(s: string): string {
    ControlSteps(ReplaceAll(s, "'", "&apos;"))
  }

  lemma CharStepsThree(x: string, m: string, y: string)
    ensures CharSteps(x + m + y) == CharSteps(x) + CharSteps(m) + CharSteps(y)
  {
    assert "'" == ['\''] && "\n" == ['\n'] && "\t" == ['\t'] && "\r" == ['\r'];
    ReplaceCharThree(x, m, y, '\'', "&apos;");
    var x1, m1, y1 := ReplaceAll(x, "'", "&apos;"), ReplaceAll(m, "'", "&apos;"), ReplaceAll(y, "'", "&apos;");
    ReplaceCharThree(x1, m1, y1, '\n', "\\n");
    var x2, m2, y2 := ReplaceAll(x1, "\n", "\\n"), ReplaceAll(m1, "\n", "\\n"), ReplaceAll(y1, "\n", "\\n");
    ReplaceCharThree(x2, m2, y2, '\t', "\\t");
    var x3, m3, y3 := ReplaceAll(x2, "\t", "\\t"), ReplaceAll(m2, "\t", "\\t"), ReplaceAll(y2, "\t", "\\t");
    ReplaceCharThree(x3, m3, y3, '\r', "\\r");
  }

  lemma CharStepsOne(c: char)
    ensures CharSteps([c]) == EscapedChar(c)
  {
    assert "'" == ['\''] && "\n" == ['\n'] && "\t" == ['\t'] && "\r" == ['\r'];
    if c == '\'' {
      assert ReplaceAll([c], "'", "&apos;") == "&apos;";
      ReplaceAbsentChar("&apos;", '\n', "\\n");
      ReplaceAbsentChar("&apos;", '\t', "\\t");
      ReplaceAbsentChar("&apos;", '\r', "\\r");
    } else {
      assert ReplaceAll([c], "'", "&apos;") == [c];
      if c == '\n' {
        assert ReplaceAll([c], "\n", "\\n") == "\\n";
        ReplaceAbsentChar("\\n", '\t', "\\t");
        ReplaceAbsentChar("\\n", '\r', "\\r");
      } else if c == '\t' {
        assert ReplaceAll([c], "\n", "\\n") == [c];
        assert ReplaceAll([c], "\t", "\\t") == "\\t";
        ReplaceAbsentChar("\\t", '\r', "\\r");
      } else {
        assert ReplaceAll([c], "\n", "\\n") == [c];
        assert ReplaceAll([c], "\t", "\\t") == [c];
      }
    }
  }

  /** The full chain works character by character around a character outside entity runs. */
  lemma EscapeFullSplit(a: string, c: char, b: string)
    requires OutsideEntities(c)
    ensures EscapeFull(a + [c] + b) == EscapeFull(a) + EscapedChar(c) + EscapeFull(b)
  {
    AmpersandsSplit(a, c, b);
    CharStepsThree(EscapeAmpersands(a), [c], EscapeAmpersands(b));
    CharStepsOne(c);
  }

  /**
   * Text without `&`, apostrophe or control character, which includes any
   * text made of `<`, `>`, `"` and ordinary characters, passes through the
   * full chain unchanged.
   */
  lemma EscapeFullPlain(text: string)
    requires '&' !in text && '\'' !in text && '\n' !in text && '\t' !in text && '\r' !in text
    ensures EscapeFull(text) == text
  {
    NoAmpersandIdentity(text);
    assert "'" == ['\''] && "\n" == ['\n'] && "\t" == ['\t'] && "\r" == ['\r'];
    ReplaceAbsentChar(text, '\'', "&apos;");
    ReplaceAbsentChar(text, '\n', "\\n");
    ReplaceAbsentChar(text, '\t', "\\t");
    ReplaceAbsentChar(text, '\r', "\\r");
  }

  lemma {:induction false} NoAmpersandIdentity(text: string)
    requires '&' !in text
    ensures EscapeAmpersands(text) == text
    decreases |text|
  {
    if |text| > 0 {
      NoAmpersandIdentity(text[1..]);
    }
  }

  /**
   * The minimal chain leaves control characters raw: text without `&` and
   * apostrophe passes through it unchanged, newlines, tabs and carriage
   * returns included.
   */
  lemma EscapeMinimalPlain(text: string)
    requires '&' !in text && '\'' !in text
    ensures EscapeMinimal(text) == text
  {
    NoAmpersandIdentity(text);
    assert "'" == ['\''];
    ReplaceAbsentChar(text, '\'', "&apos;");
  }

  /** `<`, `>` and `"` are left for the markup they belong to: the full escaping copies them as they are. */
  lemma MarkupPassesThrough(a: string, c: char, b: string)
    requires c == '<' || c == '>' || c == '"'
    ensures EscapeFull(a + [c] + b) == EscapeFull(a) + [c] + EscapeFull(b)
  {
    EscapeFullSplit(a, c, b);
  }

  /** The two copies differ on control characters: a newline stays raw in one and becomes `\n` in the other. */
  lemma CopiesDiffer(a: string, b: string)
    requires '&' !in a + b && '\'' !in a + b && '\n' !in a + b && '\t' !in a + b && '\r' !in a + b
    ensures EscapeMinimal(a + "\n" + b) == a + "\n" + b
    ensures EscapeFull(a + "\n" + b) == a + "\\n" + b
  {
    assert forall c :: c in a ==> c in a + b;
    assert forall c :: c in b ==> c in a + b;
    assert a + "\n" + b == a + ['\n'] + b;
    EscapeMinimalPlain(a + "\n" + b);
    EscapeFullSplit(a, '\n', b);
    EscapeFullPlain(a);
    EscapeFullPlain(b);
  }
}
