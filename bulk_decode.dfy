/**
 * The decode chain that the tool window applies to the text of each
 * `<string>` element pasted into its bulk input (XmlTranslatorPanel.kt:724-741),
 * and its relation to the full escaping of XmlProcessor.kt.
 */
module BulkDecode {
  import opened Text
  import opened XmlEscape

  /** The eleven `replace` steps, in order: escape sequences first, then entities. */
  function Pattern(k: nat): (p: string)
    requires k < 11
    ensures |p| > 0
  {
    if k == 0 then "\\\\n"
    else if k == 1 then "\\n"
    else if k == 2 then "\\\\t"
    else if k == 3 then "\\t"
    else if k == 4 then "\\\\r"
    else if k == 5 then "\\r"
    else if k == 6 then "&amp;"
    else if k == 7 then "&lt;"
    else if k == 8 then "&gt;"
    else if k == 9 then "&quot;"
    else "&apos;"
  }

  function Replacement(k: nat): string
    requires k < 11
  {
    if k <= 1 then "\n"
    else if k <= 3 then "\t"
    else if k <= 5 then "\r"
    else if k == 6 then "&"
    else if k == 7 then "<"
    else if k == 8 then ">"
    else if k == 9 then "\""
    else "'"
  }

  /** The steps `k`, `k + 1`, …, 10 applied to `s`. */
  function DecodeFrom(s: string, k: nat): string
    requires k <= 11
    decreases 11 - k
  {
    if k == 11 then s else DecodeFrom(ReplaceAll(s, Pattern(k), Replacement(k)), k + 1)
  }

  /** The whole chain, applied to the trimmed raw text of an element. */
  function DecodeText(rawText: string): string {
    DecodeFrom(Trim(rawText), 0)
  }

  // ---------------------------------------------------------------- examples the chain promises

  /** A pattern whose first character is absent does not occur. */
  lemma {:induction false} FirstCharAbsent(s: string, p: string, rep: string)
    requires |p| > 0 && p[0] !in s
    ensures ReplaceAll(s, p, rep) == s
    decreases |s|
  {
    if |s| > 0 {
      assert s[0] in s;
      assert p[0] !in s[1..] by {
        forall i | 0 <= i < |s[1..]| ensures s[1..][i] != p[0] { assert s[1..][i] == s[i + 1]; }
      }
      assert !StartsWith(s, p) by { if |p| <= |s| { assert s[..|p|][0] == s[0]; } }
      FirstCharAbsent(s[1..], p, rep);
    }
  }

  /** Text without backslash and ampersand is left alone by the remaining steps. */
  lemma {:induction false} DecodePlain(s: string, k: nat)
    requires k <= 11 && '\\' !in s && '&' !in s
    ensures DecodeFrom(s, k) == s
    decreases 11 - k
  {
    if k < 11 {
      assert Pattern(k)[0] == '\\' || Pattern(k)[0] == '&';
      FirstCharAbsent(s, Pattern(k), Replacement(k));
      DecodePlain(s, k + 1);
    }
  }

  /** A single occurrence of `p` between two texts that cannot hold one is replaced. */
  lemma ReplaceOnce(a: string, p: string, rep: string, b: string)
    requires |p| > 0 && NoStartInside(a, p) && p[0] !in b
    ensures ReplaceAll(a + p + b, p, rep) == a + rep + b
  {
    var pb := p + b;
    assert a + p + b == a + pb;
    FirstCharAbsent(b, p, rep);
    HitBlock(b, p, rep);
    assert ReplaceAll(pb, p, rep) == rep + b;
    SkipBlock(a, pb, p, rep);
    assert a + (rep + b) == a + rep + b;
  }

  /** Text without backslash and ampersand, which none of the eleven patterns can touch. */
  predicate Plain(s: string) {
    '\\' !in s && '&' !in s
  }

  /** No occurrence of `p` starts in a text that lacks its first character. */
  lemma {:induction false} AbsentNoStart(a: string, p: string)
    requires |p| > 0 && p[0] !in a
    ensures NoStartInside(a, p)
    decreases |a|
  {
    if |a| > 0 {
      assert a[0] in a;
      assert p[0] !in a[1..] by {
        forall i | 0 <= i < |a[1..]| ensures a[1..][i] != p[0] { assert a[1..][i] == a[i + 1]; }
      }
      AbsentNoStart(a[1..], p);
    }
  }

  /** An occurrence of `p` can start neither in `a`, nor in `m`, nor in `b`. */
  lemma SkipThree(a: string, m: string, b: string, p: string, rep: string)
    requires |p| > 0 && p[0] !in a && p[0] !in b && NoStartInside(m, p)
    ensures ReplaceAll(a + m + b, p, rep) == a + m + b
  {
    AbsentNoStart(a, p);
    FirstCharAbsent(b, p, rep);
    SkipBlock(m, b, p, rep);
    var mb := m + b;
    assert a + m + b == a + mb;
    SkipBlock(a, mb, p, rep);
  }

  /** A step whose pattern cannot start in `m` leaves `a + m + b` alone. */
  lemma DecodeSkip(a: string, m: string, b: string, k: nat)
    requires k < 11 && Plain(a) && Plain(b) && NoStartInside(m, Pattern(k))
    ensures DecodeFrom(a + m + b, k) == DecodeFrom(a + m + b, k + 1)
  {
    var p := Pattern(k);
    assert p[0] == '\\' || p[0] == '&';
    SkipThree(a, m, b, p, Replacement(k));
  }

  /** Steps `j` to `k - 1` all leave `a + m + b` alone. */
  lemma {:induction false} DecodeSkips(a: string, m: string, b: string, j: nat, k: nat)
    requires j <= k < 11 && Plain(a) && Plain(b)
    requires forall i :: j <= i < k ==> NoStartInside(m, Pattern(i))
    ensures DecodeFrom(a + m + b, j) == DecodeFrom(a + m + b, k)
    decreases k - j
  {
    if j < k {
      DecodeSkip(a, m, b, j);
      DecodeSkips(a, m, b, j + 1, k);
    }
  }

  /** A step that meets its pattern once, between plain texts, replaces it. */
  lemma DecodeHit(a: string, k: nat, b: string)
    requires k < 11 && Plain(a) && Plain(b)
    ensures DecodeFrom(a + Pattern(k) + b, k) == DecodeFrom(a + Replacement(k) + b, k + 1)
  {
    var p := Pattern(k);
    assert p[0] == '\\' || p[0] == '&';
    AbsentNoStart(a, p);
    ReplaceOnce(a, p, Replacement(k), b);
  }

  /** Where the patterns of the earlier steps cannot start in an escape sequence. */
  lemma SequenceFacts()
    ensures NoStartInside("\\n", Pattern(0))
    ensures NoStartInside("\\\\t", Pattern(0)) && NoStartInside("\\\\t", Pattern(1))
    ensures NoStartInside("\\t", Pattern(0)) && NoStartInside("\\t", Pattern(1)) && NoStartInside("\\t", Pattern(2))
    ensures NoStartInside("\\\\r", Pattern(0)) && NoStartInside("\\\\r", Pattern(1))
    ensures NoStartInside("\\\\r", Pattern(2)) && NoStartInside("\\\\r", Pattern(3))
    ensures NoStartInside("\\r", Pattern(0)) && NoStartInside("\\r", Pattern(1)) && NoStartInside("\\r", Pattern(2))
    ensures NoStartInside("\\r", Pattern(3)) && NoStartInside("\\r", Pattern(4))
  {
  }

  /** The double-escaped `\\n` and the single-escaped `\n` both become a newline. */
  lemma NewlineForms(a: string, b: string)
    requires Plain(a) && Plain(b)
    ensures DecodeFrom(a + "\\\\n" + b, 0) == a + "\n" + b
    ensures DecodeFrom(a + "\\n" + b, 0) == a + "\n" + b
  {
    DecodeHit(a, 0, b);
    DecodePlain(a + "\n" + b, 1);
    SequenceFacts();
    DecodeSkip(a, "\\n", b, 0);
    DecodeHit(a, 1, b);
    DecodePlain(a + "\n" + b, 2);
  }

  /** Likewise `\\t` and `\t` both become a tab. */
  lemma TabForms(a: string, b: string)
    requires Plain(a) && Plain(b)
    ensures DecodeFrom(a + "\\\\t" + b, 0) == a + "\t" + b
    ensures DecodeFrom(a + "\\t" + b, 0) == a + "\t" + b
  {
    SequenceFacts();
    DecodeSkips(a, "\\\\t", b, 0, 2);
    DecodeHit(a, 2, b);
    DecodePlain(a + "\t" + b, 3);
    DecodeSkips(a, "\\t", b, 0, 3);
    DecodeHit(a, 3, b);
    DecodePlain(a + "\t" + b, 4);
  }

  /** Likewise `\\r` and `\r` both become a carriage return. */
  lemma ReturnForms(a: string, b: string)
    requires Plain(a) && Plain(b)
    ensures DecodeFrom(a + "\\\\r" + b, 0) == a + "\r" + b
    ensures DecodeFrom(a + "\\r" + b, 0) == a + "\r" + b
  {
    SequenceFacts();
    DecodeSkips(a, "\\\\r", b, 0, 4);
    DecodeHit(a, 4, b);
    DecodePlain(a + "\r" + b, 5);
    DecodeSkips(a, "\\r", b, 0, 5);
    DecodeHit(a, 5, b);
    DecodePlain(a + "\r" + b, 6);
  }

  /** No escape-sequence step can start inside `&amp;lt;`. */
  lemma AmpersandSkips(a: string, b: string)
    requires Plain(a) && Plain(b)
    ensures DecodeFrom(a + "&amp;lt;" + b, 0) == DecodeFrom(a + "&amp;lt;" + b, 6)
  {
    var m := "&amp;lt;";
    forall k | 0 <= k < 6 ensures NoStartInside(m, Pattern(k)) {
      assert Pattern(k)[0] == '\\' && '\\' !in m;
      AbsentNoStart(m, Pattern(k));
    }
    DecodeSkips(a, m, b, 0, 6);
  }

  /** `&amp;` is decoded first, so `&amp;lt;` ends up as `<`. */
  lemma AmpersandFirst(a: string, b: string)
    requires Plain(a) && Plain(b)
    ensures DecodeFrom(a + "&amp;lt;" + b, 0) == a + "<" + b
  {
    AmpersandSkips(a, b);
    var b1 := "lt;" + b;
    assert Plain(b1);
    assert a + "&amp;lt;" + b == a + Pattern(6) + b1;
    DecodeHit(a, 6, b1);
    assert a + Replacement(6) + b1 == a + Pattern(7) + b;
    DecodeHit(a, 7, b);
    DecodePlain(a + "<" + b, 8);
  }

  // ---------------------------------------------------------------- the round trip

  /** No `&` in `t` begins an entity-like run. */
  predicate NoEntity(t: string)
    decreases |t|
  {
    |t| == 0 || ((t[0] == '&' ==> !EntityAhead(t[1..])) && NoEntity(t[1..]))
  }

  /** What a character of the original text looks like after the first `k` decode steps. */
  function Encoded(k: nat, c: char): string {
    if c == '&' then (if k < 7 then "&amp;" else "&")
    else if c == '\'' then (if k < 11 then "&apos;" else "'")
    else if c == '\n' then (if k < 2 then "\\n" else "\n")
    else if c == '\t' then (if k < 4 then "\\t" else "\t")
    else if c == '\r' then (if k < 6 then "\\r" else "\r")
    else [c]
  }

  /** The original text, character by character in the form of stage `k`. */
  function Blocks(k: nat, t: string): string
    decreases |t|
  {
    if |t| == 0 then "" else Encoded(k, t[0]) + Blocks(k, t[1..])
  }

  lemma {:induction false} BlocksIdentity(t: string)
    ensures Blocks(11, t) == t
    decreases |t|
  {
    if |t| > 0 {
      BlocksIdentity(t[1..]);
    }
  }

  /** `s` and `p` differ at some index below both lengths. */
  predicate Diverges(s: string, p: string)
    decreases |s|
  {
    |s| > 0 && |p| > 0 && (s[0] != p[0] || Diverges(s[1..], p[1..]))
  }

  /** No occurrence of `p` can start inside `b`, whatever follows `b`. */
  predicate NoStartInside(b: string, p: string)
    decreases |b|
  {
    |b| == 0 || (Diverges(b, p) && NoStartInside(b[1..], p))
  }

  lemma {:induction false} DivergesNotPrefix(s: string, y: string, p: string)
    requires Diverges(s, p)
    ensures !StartsWith(s + y, p)
    decreases |s|
  {
    if s[0] == p[0] {
      DivergesNotPrefix(s[1..], y, p[1..]);
      assert (s + y)[1..] == s[1..] + y;
    } else {
      assert (s + y)[0] == s[0];
    }
  }

  /** The scan steps over a block in which no occurrence can start. */
  lemma {:induction false} SkipBlock(b: string, y: string, p: string, rep: string)
    requires |p| > 0 && NoStartInside(b, p)
    ensures ReplaceAll(b + y, p, rep) == b + ReplaceAll(y, p, rep)
    decreases |b|
  {
    if |b| > 0 {
      DivergesNotPrefix(b, y, p);
      assert (b + y)[1..] == b[1..] + y;
      SkipBlock(b[1..], y, p, rep);
    } else {
      assert b + y == y;
    }
  }

  /** The scan replaces a block that is the pattern. */
  lemma HitBlock(y: string, p: string, rep: string)
    requires |p| > 0
    ensures ReplaceAll(p + y, p, rep) == rep + ReplaceAll(y, p, rep)
  {
    assert (p + y)[..|p|] == p;
    assert (p + y)[|p|..] == y;
  }

  /** After step 6 the blocks of characters other than `&` and `'` are the characters themselves. */
  lemma {:induction false} BlocksPrefix(k: nat, u: string, w: string)
    requires 7 <= k && StartsWith(Blocks(k, u), w) && '&' !in w
    ensures StartsWith(u, w)
    decreases |w|
  {
    if |w| > 0 {
      var b := Blocks(k, u);
      assert b[0] == w[0];
      assert |u| > 0;
      assert Encoded(k, u[0]) == [u[0]];
      assert b == [u[0]] + Blocks(k, u[1..]);
      assert Blocks(k, u[1..])[..|w| - 1] == b[..|w|][1..];
      assert '&' !in w[1..] by {
        forall i | 0 <= i < |w[1..]| ensures w[1..][i] != '&' {
          assert w[1..][i] == w[i + 1];
        }
      }
      BlocksPrefix(k, u[1..], w[1..]);
      assert u[..|w|] == [u[0]] + u[1..][..|w| - 1];
    }
  }

  /** A prefix that is an entity-like run makes the lookahead succeed. */
  lemma EntityPrefix(u: string, w: string)
    requires StartsWith(u, w) && EntityAhead(w)
    ensures EntityAhead(u)
  {
    assert u == w + u[|w|..];
    EntityExtends(w, u[|w|..]);
  }

  /** The block facts the steps rely on, stated on the literal blocks. */
  lemma BlockFacts(k: nat)
    requires k < 11
    ensures k < 6 ==> NoStartInside("&amp;", Pattern(k))
    ensures k < 10 ==> NoStartInside("&apos;", Pattern(k))
    ensures k == 0 ==> NoStartInside("\\n", Pattern(k))
    ensures k < 3 ==> NoStartInside("\\t", Pattern(k))
    ensures k < 5 ==> NoStartInside("\\r", Pattern(k))
  {
    if k < 6 { AmpersandBlock(k); }
    if k < 10 { ApostropheBlock(k); }
    if k < 5 { EscapeBlocks(k); }
  }

  lemma AmpersandBlock(k: nat)
    requires k < 6
    ensures NoStartInside("&amp;", Pattern(k))
  {
  }

  lemma ApostropheBlock(k: nat)
    requires k < 10
    ensures NoStartInside("&apos;", Pattern(k))
  {
  }

  lemma EscapeBlocks(k: nat)
    requires k < 5
    ensures k == 0 ==> NoStartInside("\\n", Pattern(k))
    ensures k < 3 ==> NoStartInside("\\t", Pattern(k))
    ensures NoStartInside("\\r", Pattern(k))
  {
  }

  /** A character without an encoding keeps its one-character block through every step. */
  lemma StepPlain(k: nat, c: char, y: string)
    requires k < 11 && c !in "&'\n\t\r\\"
    ensures ReplaceAll(Encoded(k, c) + y, Pattern(k), Replacement(k)) == Encoded(k + 1, c) + ReplaceAll(y, Pattern(k), Replacement(k))
  {
    assert Encoded(k, c) == [c] && Encoded(k + 1, c) == [c];
    assert Pattern(k)[0] == '\\' || Pattern(k)[0] == '&';
    assert NoStartInside([c], Pattern(k));
    SkipBlock([c], y, Pattern(k), Replacement(k));
  }

  /** A control character keeps `\n`, `\t` or `\r` until its own step, which turns it back into the character. */
  lemma StepControl(k: nat, c: char, y: string)
    requires k < 11 && (c == '\n' || c == '\t' || c == '\r')
    ensures ReplaceAll(Encoded(k, c) + y, Pattern(k), Replacement(k)) == Encoded(k + 1, c) + ReplaceAll(y, Pattern(k), Replacement(k))
  {
    var p, rep := Pattern(k), Replacement(k);
    var hit := if c == '\n' then 1 else if c == '\t' then 3 else 5;
    BlockFacts(k);
    if k == hit {
      assert Encoded(k, c) == p && Encoded(k + 1, c) == rep;
      HitBlock(y, p, rep);
    } else if k < hit {
      assert Encoded(k + 1, c) == Encoded(k, c);
      SkipBlock(Encoded(k, c), y, p, rep);
    } else {
      assert Encoded(k, c) == [c] && Encoded(k + 1, c) == [c];
      assert p[0] == '\\' || p[0] == '&';
      assert NoStartInside([c], p);
      SkipBlock([c], y, p, rep);
    }
  }

  /** An apostrophe keeps `&apos;` until the last step. */
  lemma StepApostrophe(k: nat, y: string)
    requires k < 11
    ensures ReplaceAll(Encoded(k, '\'') + y, Pattern(k), Replacement(k)) == Encoded(k + 1, '\'') + ReplaceAll(y, Pattern(k), Replacement(k))
  {
    var p, rep := Pattern(k), Replacement(k);
    BlockFacts(k);
    if k == 10 {
      HitBlock(y, p, rep);
    } else {
      SkipBlock("&apos;", y, p, rep);
    }
  }

  /**
   * An ampersand keeps `&amp;` until step 6, then stands alone; it is not
   * taken for the start of `&lt;`, `&gt;`, `&quot;` or `&apos;` because the
   * original text has no entity-like run after it.
   */
  lemma StepAmpersand(k: nat, u: string)
    requires k < 11 && !EntityAhead(u)
    ensures ReplaceAll(Encoded(k, '&') + Blocks(k, u), Pattern(k), Replacement(k))
      == Encoded(k + 1, '&') + ReplaceAll(Blocks(k, u), Pattern(k), Replacement(k))
  {
    var p, rep, y := Pattern(k), Replacement(k), Blocks(k, u);
    BlockFacts(k);
    if k == 6 {
      HitBlock(y, p, rep);
    } else if k < 6 {
      SkipBlock("&amp;", y, p, rep);
    } else {
      var w := p[1..];
      assert p == "&" + w;
      EntityWords();
      if k == 7 { assert w == "lt;"; }
      else if k == 8 { assert w == "gt;"; }
      else if k == 9 { assert w == "quot;"; }
      else { assert w == "apos;"; }
      if StartsWith("&" + y, p) {
        StartsWithTail("&" + y, p);
        assert ("&" + y)[1..] == y;
        BlocksPrefix(k, u, w);
        EntityPrefix(u, w);
      }
      assert ("&" + y)[1..] == y;
    }
  }

  /** The names of the entities that steps 7 to 10 decode are entity-like runs. */
  lemma EntityWords()
    ensures EntityAhead("lt;") && EntityAhead("gt;") && EntityAhead("quot;") && EntityAhead("apos;")
  {
    assert RunThenSemicolon(";");
    assert "t;"[1..] == ";";
    assert RunThenSemicolon("t;");
    assert "lt;"[1..] == "t;";
    assert "ot;"[1..] == "t;";
    assert RunThenSemicolon("ot;");
    assert "uot;"[1..] == "ot;";
    assert RunThenSemicolon("uot;");
    assert "quot;"[1..] == "uot;";
    assert "s;"[1..] == ";";
    assert RunThenSemicolon("s;");
    assert "os;"[1..] == "s;";
    assert RunThenSemicolon("os;");
    assert "pos;"[1..] == "os;";
    assert RunThenSemicolon("pos;");
    assert "apos;"[1..] == "pos;";
  }

  lemma StartsWithTail(s: string, p: string)
    requires |p| > 0 && StartsWith(s, p)
    ensures StartsWith(s[1..], p[1..])
  {
    assert s[1..][..|p| - 1] == s[..|p|][1..];
  }

  /** One step turns the blocks of stage `k` into those of stage `k + 1`. */
  lemma {:induction false} Step(k: nat, t: string)
    requires k < 11 && '\\' !in t && NoEntity(t)
    ensures ReplaceAll(Blocks(k, t), Pattern(k), Replacement(k)) == Blocks(k + 1, t)
    decreases |t|
  {
    if |t| > 0 {
      var c := t[0];
      assert '\\' !in t[1..] by {
        forall i | 0 <= i < |t[1..]| ensures t[1..][i] != '\\' { assert t[1..][i] == t[i + 1]; }
      }
      Step(k, t[1..]);
      if c == '&' {
        StepAmpersand(k, t[1..]);
      } else if c == '\'' {
        StepApostrophe(k, Blocks(k, t[1..]));
      } else if c == '\n' || c == '\t' || c == '\r' {
        StepControl(k, c, Blocks(k, t[1..]));
      } else {
        assert t[0] in t;
        StepPlain(k, c, Blocks(k, t[1..]));
      }
    }
  }

  /** The remaining steps decode the blocks of stage `k` back to the original text. */
  lemma {:induction false} DecodeBlocks(k: nat, t: string)
    requires k <= 11 && '\\' !in t && NoEntity(t)
    ensures DecodeFrom(Blocks(k, t), k) == t
    decreases 11 - k
  {
    if k == 11 {
      BlocksIdentity(t);
    } else {
      Step(k, t);
      DecodeBlocks(k + 1, t);
    }
  }

  /** The full chain is the character steps applied after the ampersand rule. */
  lemma EscapeFullIsCharSteps(t: string)
    ensures EscapeFull(t) == CharSteps(EscapeAmpersands(t))
  {
  }

  /** Without an entity-like run after it, an ampersand becomes `&amp;`; any other character is copied. */
  lemma AmpersandsHead(t: string)
    requires |t| > 0 && (t[0] == '&' ==> !EntityAhead(t[1..]))
    ensures EscapeAmpersands(t) == (if t[0] == '&' then "&amp;" else [t[0]]) + EscapeAmpersands(t[1..])
  {
  }

  lemma CharStepsEntity()
    ensures CharSteps("&amp;") == "&amp;"
  {
    assert "'" == ['\''] && "\n" == ['\n'] && "\t" == ['\t'] && "\r" == ['\r'];
    ReplaceAbsentChar("&amp;", '\'', "&apos;");
    ReplaceAbsentChar("&amp;", '\n', "\\n");
    ReplaceAbsentChar("&amp;", '\t', "\\t");
    ReplaceAbsentChar("&amp;", '\r', "\\r");
  }

  /** The character steps distribute over a split of their input. */
  lemma CharStepsCons(h: string, r: string)
    ensures CharSteps(h + r) == CharSteps(h) + CharSteps(r)
  {
    CharStepsThree("", h, r);
    assert "" + h + r == h + r;
    CharStepsEmpty();
  }

  /** The character steps turn the ampersand rule's output for one character into its stage-0 block. */
  lemma HeadSteps(c: char)
    ensures CharSteps(if c == '&' then "&amp;" else [c]) == Encoded(0, c)
  {
    if c == '&' {
      CharStepsEntity();
    } else {
      CharStepsOne(c);
    }
  }

  /** Without entity-like runs, the full escaping encodes character by character. */
  lemma {:induction false} EscapeFullBlocks(t: string)
    requires NoEntity(t)
    ensures EscapeFull(t) == Blocks(0, t)
    decreases |t|
  {
    if |t| > 0 {
      var c := t[0];
      var head := if c == '&' then "&amp;" else [c];
      var rest := EscapeAmpersands(t[1..]);
      EscapeFullBlocks(t[1..]);
      EscapeFullIsCharSteps(t);
      EscapeFullIsCharSteps(t[1..]);
      AmpersandsHead(t);
      assert EscapeAmpersands(t) == head + rest;
      CharStepsCons(head, rest);
      HeadSteps(c);
      assert EscapeFull(t) == Encoded(0, c) + EscapeFull(t[1..]);
    }
  }

  lemma CharStepsEmpty()
    ensures CharSteps("") == ""
  {
  }

  lemma {:induction false} BlocksSnoc(k: nat, a: string, c: char)
    ensures Blocks(k, a + [c]) == Blocks(k, a) + Encoded(k, c)
    decreases |a|
  {
    if |a| > 0 {
      assert (a + [c])[1..] == a[1..] + [c];
      BlocksSnoc(k, a[1..], c);
    } else {
      assert a + [c] == [c];
    }
  }

  /** Escaped text of a text without surrounding whitespace has none either. */
  lemma EscapedUntrimmed(t: string)
    requires |t| > 0 && !IsWhitespace(t[0]) && !IsWhitespace(t[|t| - 1])
    ensures Blocks(0, t)[0] == Encoded(0, t[0])[0]
    ensures !IsWhitespace(Blocks(0, t)[0]) && !IsWhitespace(Blocks(0, t)[|Blocks(0, t)| - 1])
  {
    var last := t[|t| - 1];
    assert t == t[..|t| - 1] + [last];
    BlocksSnoc(0, t[..|t| - 1], last);
    var e := Encoded(0, last);
    assert Blocks(0, t)[|Blocks(0, t)| - 1] == e[|e| - 1];
  }

  /**
   * Decoding reverses the full escaping: a text without backslash, without
   * entity-like run and without leading or trailing whitespace comes back
   * unchanged from `DecodeText(EscapeFull(t))`.
   */
  lemma RoundTrip(t: string)
    requires '\\' !in t && NoEntity(t)
    requires |t| > 0 ==> !IsWhitespace(t[0]) && !IsWhitespace(t[|t| - 1])
    ensures DecodeText(EscapeFull(t)) == t
  {
    EscapeFullBlocks(t);
    DecodeTextBlocks(t);
  }

  /** The decode chain takes the blocks of such a text back to the text. */
  lemma DecodeTextBlocks(t: string)
    requires '\\' !in t && NoEntity(t)
    requires |t| > 0 ==> !IsWhitespace(t[0]) && !IsWhitespace(t[|t| - 1])
    ensures DecodeText(Blocks(0, t)) == t
  {
    if |t| > 0 {
      EscapedUntrimmed(t);
    }
    TrimNoOp(Blocks(0, t));
    DecodeBlocks(0, t);
  }
}
