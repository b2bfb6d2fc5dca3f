/**
 * XmlProcessor.kt: the selection of translatable `<string>` elements, the
 * rendering of a translated `strings.xml`, and the text-level add-or-update
 * of one element in the content of such a file. The same three operations
 * are copied into TranslationService.kt with the minimal escaping; every
 * operation here takes the `Escaping` it uses.
 */
module XmlProcessor {
  import opened Wrappers
  import opened Text
  import opened XmlEscape
  import StringFilter

  // ---------------------------------------------------------------- extraction

  /**
   * A `<string>` element as the DOM presents it: `getAttribute` gives "" for
   * an absent attribute, `textContent` the element's text.
   */
  datatype StringElement = StringElement(name: string, translatable: string, text: string)

  /**
   * `s.lowercase() == w` for a lower-case ASCII word `w`. Kotlin's
   * `lowercase()` folds more than ASCII, but no character other than an
   * ASCII letter lower-cases to an ASCII letter of "false".
   */
  predicate LowercaseIs(s: string, w: string) {
    |s| == |w| && forall i :: 0 <= i < |s| ==> LowerAscii(s[i]) == w[i]
  }

  /** `translatable="false"` in any case. */
  predicate NonTranslatable(e: StringElement) {
    |e.translatable| > 0 && LowercaseIs(e.translatable, "false")
  }

  /** An element that ends up in the list to translate, for the filter table `ps`. */
  predicate Kept(e: StringElement, ps: seq<StringFilter.Pattern>) {
    && !NonTranslatable(e)
    && |e.name| > 0 && |e.text| > 0
    && !StringFilter.AnyMatches(e.name, ps)
  }

  /** The (name, text) pairs of the kept elements, in document order. */
  function Extracted(es: seq<StringElement>, ps: seq<StringFilter.Pattern>): seq<(string, string)>
    decreases |es|
  {
    if |es| == 0 then []
    else
      var e := es[|es| - 1];
      Extracted(es[..|es| - 1], ps) + (if Kept(e, ps) then [(e.name, e.text)] else [])
  }

  /** `extractStringElements`, over the elements named `string` in document order. */
  method ExtractStringElements(elements: seq<StringElement>) returns (stringElements: seq<(string, string)>)
    ensures stringElements == Extracted(elements, StringFilter.ExcludePatterns)
  {
    stringElements := [];
    var i := 0;
    while i < |elements|
      invariant 0 <= i <= |elements|
      invariant stringElements == Extracted(elements[..i], StringFilter.ExcludePatterns)
    {
      var element := elements[i];
      if !(|element.translatable| > 0 && LowercaseIs(element.translatable, "false")) {
        var name, text := element.name, element.text;
        if |name| > 0 && |text| > 0 {
          if !StringFilter.ShouldExcludeString(name) {
            stringElements := stringElements + [(name, text)];
          }
        }
      }
      assert elements[..i + 1][..i] == elements[..i];
      i := i + 1;
    }
    assert elements[..i] == elements;
  }

  /** Extraction of consecutive parts of a document concatenates. */
  lemma {:induction false} ExtractedConcat(a: seq<StringElement>, b: seq<StringElement>, ps: seq<StringFilter.Pattern>)
    ensures Extracted(a + b, ps) == Extracted(a, ps) + Extracted(b, ps)
    decreases |b|
  {
    if |b| == 0 {
      assert a + b == a;
    } else {
      assert (a + b)[..|a + b| - 1] == a + b[..|b| - 1];
      ExtractedConcat(a, b[..|b| - 1], ps);
    }
  }

  /** A pair is extracted exactly when some kept element carries it. */
  lemma {:induction false} ExtractedMeans(es: seq<StringElement>, ps: seq<StringFilter.Pattern>, p: (string, string))
    ensures p in Extracted(es, ps) <==> exists i :: 0 <= i < |es| && Kept(es[i], ps) && p == (es[i].name, es[i].text)
    decreases |es|
  {
    if |es| > 0 {
      var init := es[..|es| - 1];
      ExtractedMeans(init, ps, p);
      if p in Extracted(es, ps) && p !in Extracted(init, ps) {
        assert Kept(es[|es| - 1], ps) && p == (es[|es| - 1].name, es[|es| - 1].text);
      }
      if exists i :: 0 <= i < |es| && Kept(es[i], ps) && p == (es[i].name, es[i].text) {
        var i :| 0 <= i < |es| && Kept(es[i], ps) && p == (es[i].name, es[i].text);
        if i < |es| - 1 {
          assert init[i] == es[i];
        }
      }
    }
  }

  /**
   * Hence nothing extracted is non-translatable, unnamed, empty or excluded
   * by the filter table, and every element that passes all four tests is
   * extracted.
   */
  lemma ExtractedSound(es: seq<StringElement>, ps: seq<StringFilter.Pattern>, p: (string, string))
    requires p in Extracted(es, ps)
    ensures |p.0| > 0 && |p.1| > 0 && !StringFilter.AnyMatches(p.0, ps)
    ensures exists i :: 0 <= i < |es| && !NonTranslatable(es[i]) && p == (es[i].name, es[i].text)
  {
    ExtractedMeans(es, ps, p);
  }

  lemma ExtractedComplete(es: seq<StringElement>, ps: seq<StringFilter.Pattern>, i: nat)
    requires i < |es| && !NonTranslatable(es[i]) && |es[i].name| > 0 && |es[i].text| > 0
    requires !StringFilter.AnyMatches(es[i].name, ps)
    ensures (es[i].name, es[i].text) in Extracted(es, ps)
  {
    ExtractedMeans(es, ps, (es[i].name, es[i].text));
  }

  /** A non-translatable element contributes nothing, wherever it stands. */
  lemma NonTranslatableDropped(a: seq<StringElement>, e: StringElement, b: seq<StringElement>, ps: seq<StringFilter.Pattern>)
    requires NonTranslatable(e)
    ensures Extracted(a + [e] + b, ps) == Extracted(a, ps) + Extracted(b, ps)
  {
    assert Extracted([e], ps) == [] by {
      assert [e][..0] == [];
      assert !Kept(e, ps);
    }
    assert Extracted(a + [e], ps) == Extracted(a, ps) by {
      ExtractedConcat(a, [e], ps);
    }
    ExtractedConcat(a + [e], b, ps);
  }

  // ---------------------------------------------------------------- rendering

  /** The declaration line every written file starts with. */
  function XmlHeader(): (r: string)
    ensures NoBreak(r)
  {
    "<?xml version=\"1.0\" encoding=\"utf-8\"?>"
  }

  /** The closing tag of an element. */
  function ClosingTag(): (r: string)
    ensures |r| == 9
  {
    "</string>"
  }

  /** The `<` of the closing tag stands only at its start. */
  lemma ClosingTagChars()
    ensures ClosingTag()[0] == '<' && forall k :: 1 <= k < |ClosingTag()| ==> ClosingTag()[k] != '<'
  {
  }

  /** The element line the plugin writes for one translation. */
  function StringLine(mode: Escaping, name: string, text: string): string {
    "    <string name=\"" + name + "\">" + Escape(mode, text) + ClosingTag()
  }

  /** The element lines of `ts`, one per translation, in input order. */
  function ElementLines(mode: Escaping, ts: seq<(string, string)>): (r: seq<string>)
    ensures |r| == |ts|
    ensures forall k :: 0 <= k < |ts| ==> r[k] == StringLine(mode, ts[k].0, ts[k].1)
    decreases |ts|
  {
    if |ts| == 0 then [] else [StringLine(mode, ts[0].0, ts[0].1)] + ElementLines(mode, ts[1..])
  }

  /** The file `saveTranslatedXml` writes. */
  function Document(mode: Escaping, ts: seq<(string, string)>): string {
    XmlHeader() + "\n" + "<resources>" + "\n" + Terminated(ElementLines(mode, ts)) + "</resources>" + "\n"
  }

  /** `saveTranslatedXml` with the `buildString` it fills; the file write is left to the caller. */
  method SaveTranslatedXml(mode: Escaping, translations: seq<(string, string)>) returns (xmlContent: string)
    ensures xmlContent == Document(mode, translations)
  {
    ghost var lines := ElementLines(mode, translations);
    xmlContent := XmlHeader() + "\n";
    xmlContent := xmlContent + "<resources>" + "\n";
    var i := 0;
    while i < |translations|
      invariant 0 <= i <= |translations|
      invariant xmlContent + Terminated(lines[i..]) + "</resources>" + "\n" == Document(mode, translations)
    {
      var (name, text) := translations[i];
      var escapedText := Escape(mode, text);
      var line := "    <string name=\"" + name + "\">" + escapedText + "</string>";
      assert line == lines[i];
      AppendLine(xmlContent, lines, i, "</resources>", "\n");
      xmlContent := xmlContent + line + "\n";
      i := i + 1;
    }
    assert Terminated(lines[i..]) == "";
    assert xmlContent + "" == xmlContent;
    xmlContent := xmlContent + "</resources>" + "\n";
  }

  /** Appending the next line moves it from the pending lines to the content built so far. */
  lemma AppendLine(built: string, ls: seq<string>, i: nat, c1: string, c2: string)
    requires i < |ls|
    ensures built + Terminated(ls[i..]) + c1 + c2 == built + ls[i] + "\n" + Terminated(ls[i + 1..]) + c1 + c2
  {
    assert ls[i..][1..] == ls[i + 1..];
    var t := Terminated(ls[i + 1..]);
    assert Terminated(ls[i..]) == ls[i] + "\n" + t;
    ConcatAssoc(built, ls[i] + "\n", t);
    ConcatAssoc(built, ls[i], "\n");
  }

  predicate NoBreak(s: string) {
    '\n' !in s && '\r' !in s
  }

  /** Terminated lines without breaks come back from `lines()` one by one. */
  lemma {:induction false} TerminatedLines(ls: seq<string>, rest: string)
    requires forall k :: 0 <= k < |ls| ==> NoBreak(ls[k])
    ensures Lines(Terminated(ls) + rest) == ls + Lines(rest)
    decreases |ls|
  {
    if |ls| > 0 {
      var head, more := ls[0], ls[1..];
      var tail := Terminated(more) + rest;
      assert NoBreak(head);
      assert forall k :: 0 <= k < |more| ==> more[k] == ls[k + 1];
      TerminatedLines(more, rest);
      assert Terminated(ls) + rest == head + "\n" + tail;
      LinesConcat(head, tail);
      ConsConcat(head, more, Lines(rest));
      assert [head] + more == ls;
    } else {
      assert Terminated(ls) + rest == rest;
    }
  }

  lemma ConsConcat(x: string, xs: seq<string>, ys: seq<string>)
    ensures [x] + (xs + ys) == ([x] + xs) + ys
  {
  }

  /**
   * The written file is the header line, `<resources>`, one element line per
   * translation in input order, `</resources>` and the empty rest after the
   * final line break — provided no name or escaped text holds a line break.
   */
  lemma DocumentLines(mode: Escaping, ts: seq<(string, string)>)
    requires forall k :: 0 <= k < |ts| ==> NoBreak(StringLine(mode, ts[k].0, ts[k].1))
    ensures Lines(Document(mode, ts)) == [XmlHeader(), "<resources>"] + ElementLines(mode, ts) + ["</resources>", ""]
  {
    FrameLines(ElementLines(mode, ts), XmlHeader(), "<resources>", "</resources>");
  }

  /** The line structure of framed lines, for any frame lines without breaks. */
  lemma FrameLines(ls: seq<string>, head: string, open: string, close: string)
    requires forall k :: 0 <= k < |ls| ==> NoBreak(ls[k])
    requires NoBreak(head) && NoBreak(open) && NoBreak(close)
    ensures Lines(head + "\n" + open + "\n" + Terminated(ls) + close + "\n") == [head, open] + ls + [close, ""]
  {
    var t := Terminated(ls);
    var mid := open + "\n" + (t + (close + "\n"));
    OpenedLines(ls, open, close);
    LinesConcat(head, mid);
    FrameAssoc(head, open, t, close);
  }

  lemma OpenedLines(ls: seq<string>, open: string, close: string)
    requires forall k :: 0 <= k < |ls| ==> NoBreak(ls[k])
    requires NoBreak(open) && NoBreak(close)
    ensures Lines(open + "\n" + (Terminated(ls) + (close + "\n"))) == [open] + ls + [close, ""]
  {
    ClosedLines(ls, close);
    LinesConcat(open, Terminated(ls) + (close + "\n"));
  }

  lemma FrameAssoc(head: string, open: string, t: string, close: string)
    ensures head + "\n" + open + "\n" + t + close + "\n" == head + "\n" + (open + "\n" + (t + (close + "\n")))
  {
    var u := close + "\n";
    var l3 := head + "\n" + open + "\n";
    ConcatAssoc(t, close, "\n");
    ConcatAssoc(l3, t, close);
    ConcatAssoc(l3 + t, close, "\n");
    ConcatAssoc(l3, t, u);
    ConcatAssoc(head + "\n" + open, "\n", t + u);
    ConcatAssoc(head + "\n", open, "\n" + (t + u));
    ConcatAssoc(open, "\n", t + u);
  }

  lemma ClosedLines(ls: seq<string>, close: string)
    requires forall k :: 0 <= k < |ls| ==> NoBreak(ls[k])
    requires NoBreak(close)
    ensures Lines(Terminated(ls) + (close + "\n")) == ls + [close, ""]
  {
    var empty: string := [];
    assert close + "\n" == close + "\n" + empty;
    LinesConcat(close, empty);
    TerminatedLines(ls, close + "\n");
  }

  /** With the full escaping an element line holds a line break only if the name does. */
  lemma FullLineNoBreak(name: string, text: string)
    requires NoBreak(name)
    ensures NoBreak(StringLine(Full, name, text))
  {
    EscapeFullSafe(text);
    var pre := "    <string name=\"";
    assert NoBreak(pre) && NoBreak("\">") && NoBreak(ClosingTag());
    assert NoBreak(EscapeFull(text));
    assert StringLine(Full, name, text) == pre + name + "\">" + EscapeFull(text) + ClosingTag();
  }

  // ---------------------------------------------------------------- add or update

  /** The content used in place of a file that does not exist yet. */
  function Skeleton(): string {
    XmlHeader() + "\n" + "<resources>" + "\n" + "</resources>"
  }

  /** The attribute whose presence anywhere in the content selects the update branch. */
  function NameAttribute(name: string): string {
    "name=\"" + name + "\""
  }

  /** The literal start of the update pattern: four spaces, `<string ` and the name attribute. */
  function OpenTag(name: string): string {
    "    <string " + NameAttribute(name)
  }

  /**
   * What follows the literal start in a match, `[^>]*>.*?</string>` with the
   * dot matching line breaks too: characters other than `>`, the first `>`,
   * then everything up to the first `</string>` after it. Its length, if any.
   */
  function ElementRest(t: string): (r: Option<nat>)
    ensures r.Some? ==> 0 < r.value <= |t|
    decreases |t|
  {
    if |t| == 0 then None
    else if t[0] == '>' then
      match IndexOf(t[1..], ClosingTag())
      case None => None
      case Some(q) => Some(1 + q + 9)
    else
      match ElementRest(t[1..])
      case None => None
      case Some(n) => Some(n + 1)
  }

  /**
   * The length of the match of the update pattern
   * `    <string name="X"[^>]*>.*?</string>` that starts at the beginning of
   * `s`, if there is one.
   */
  function MatchAt(s: string, name: string): (r: Option<nat>)
    ensures r.Some? ==> StartsWith(s, OpenTag(name)) && |OpenTag(name)| < r.value <= |s|
  {
    var p := OpenTag(name);
    if !StartsWith(s, p) then None
    else
      match ElementRest(s[|p|..])
      case None => None
      case Some(n) => Some(|p| + n)
  }

  /**
   * `regex.replace(content) { elem }`: scanning from the left, every match
   * becomes `elem` verbatim (a `$` in it is not a group reference) and the
   * scan resumes after the match.
   */
  function ReplaceMatches(s: string, name: string, elem: string): string
    decreases |s|
  {
    if |s| == 0 then ""
    else
      match MatchAt(s, name)
      case Some(n) => elem + ReplaceMatches(s[n..], name, elem)
      case None => [s[0]] + ReplaceMatches(s[1..], name, elem)
  }

  /**
   * The insertion branch. `None` when the content has no `</resources>`, in
   * which case nothing is written; the three cases of the source's `when`
   * build the same text.
   */
  function InsertElement(content: string, elem: string): Option<string> {
    match LastIndexOf(content, "</resources>")
    case None => None
    case Some(i) =>
      var before := TrimEnd(content[..i]);
      var after := content[i..];
      if EndsWith(Trim(before), "<resources>") then Some(before + "\n" + elem + "\n" + after)
      else if EndsWith(Trim(before), ClosingTag()) then Some(before + "\n" + elem + "\n" + after)
      else Some(before + "\n" + elem + "\n" + after)
  }

  /**
   * `addOrUpdateStringInXml` on the content of the file (`None` when it does
   * not exist). The result is the text written, or `None` when nothing is.
   */
  function AddOrUpdate(file: Option<string>, mode: Escaping, name: string, text: string): Option<string> {
    var content := if file.Some? then file.value else Skeleton();
    var elem := StringLine(mode, name, text);
    if Contains(content, NameAttribute(name)) then Some(ReplaceMatches(content, name, elem))
    else InsertElement(content, elem)
  }

  /** What the file holds after the call: the text written, or what it held before. */
  function FileAfter(file: Option<string>, mode: Escaping, name: string, text: string): Option<string> {
    match AddOrUpdate(file, mode, name, text)
    case Some(written) => Some(written)
    case None => file
  }

  /** The element line is the pattern's literal start, `>`, the escaped text and `</string>`. */
  lemma ElementShape(mode: Escaping, name: string, text: string)
    ensures StringLine(mode, name, text) == OpenTag(name) + "" + ">" + Escape(mode, text) + ClosingTag()
    ensures StartsWith(StringLine(mode, name, text), OpenTag(name))
  {
    var e := Escape(mode, text);
    assert StringLine(mode, name, text) == OpenTag(name) + ">" + e + ClosingTag();
    assert OpenTag(name) + "" == OpenTag(name);
  }

  /** Where the literal start of the pattern stands, the name attribute occurs. */
  lemma TagHasName(s: string, j: nat, name: string)
    ensures j <= |s| && StartsWith(s[j..], OpenTag(name)) ==> Contains(s, NameAttribute(name))
  {
    if j <= |s| && StartsWith(s[j..], OpenTag(name)) {
      var a := NameAttribute(name);
      assert s[j + 12..][..|a|] == s[j..][..|OpenTag(name)|][12..];
      ContainsAt(s, j + 12, a);
    }
  }

  /**
   * A start of the pattern at or before a line break that follows `b` lies
   * within `b`, when the name holds no line break.
   */
  lemma TagBeforeBreak(b: string, r: string, name: string, j: nat)
    requires NoBreak(name) && j <= |b|
    ensures StartsWith((b + "\n" + r)[j..], OpenTag(name)) ==> Contains(b, NameAttribute(name))
  {
    var s := b + "\n" + r;
    var p := OpenTag(name);
    if StartsWith(s[j..], p) {
      assert s[|b|] == '\n';
      assert '\n' !in p;
      assert forall k :: j <= k < j + |p| ==> s[k] == p[k - j];
      assert j + |p| <= |b|;
      assert b[j..][..|p|] == s[j..][..|p|];
      TagHasName(b, j, name);
    }
  }

  /** Content without any match is left as it is. */
  lemma {:induction false} NoMatchUnchanged(s: string, name: string, elem: string)
    requires forall j :: 0 <= j < |s| ==> MatchAt(s[j..], name).None?
    ensures ReplaceMatches(s, name, elem) == s
    decreases |s|
  {
    if |s| > 0 {
      assert s[0..] == s;
      forall j | 0 <= j < |s| - 1
        ensures MatchAt(s[1..][j..], name).None?
      {
        assert s[1..][j..] == s[j + 1..];
      }
      NoMatchUnchanged(s[1..], name, elem);
    }
  }

  /** Content without the name attribute is left as it is. */
  lemma NoNameUnchanged(s: string, name: string, elem: string)
    requires !Contains(s, NameAttribute(name))
    ensures ReplaceMatches(s, name, elem) == s
  {
    forall j | 0 <= j < |s|
      ensures MatchAt(s[j..], name).None?
    {
      TagHasName(s, j, name);
    }
    NoMatchUnchanged(s, name, elem);
  }

  /** A prefix in which no match starts is copied unchanged. */
  lemma {:induction false} ReplaceSkip(x: string, y: string, name: string, elem: string)
    requires forall j :: 0 <= j < |x| ==> MatchAt((x + y)[j..], name).None?
    ensures ReplaceMatches(x + y, name, elem) == x + ReplaceMatches(y, name, elem)
    decreases |x|
  {
    if |x| == 0 {
      assert x + y == y;
    } else {
      var s := x + y;
      assert s[0..] == s;
      assert s[1..] == x[1..] + y;
      ReplaceNoMatchStep(s, name, elem);
      NoMatchShift(x, y, name);
      ReplaceSkip(x[1..], y, name, elem);
      ConcatAssoc([x[0]], x[1..], ReplaceMatches(y, name, elem));
      assert [x[0]] + x[1..] == x;
    }
  }

  /** Where no match starts, the first character is copied and the scan moves on by one. */
  lemma ReplaceNoMatchStep(s: string, name: string, elem: string)
    requires |s| > 0 && MatchAt(s, name).None?
    ensures ReplaceMatches(s, name, elem) == [s[0]] + ReplaceMatches(s[1..], name, elem)
  {
  }

  /** No match starting in `x` means none starting in `x` without its first character. */
  lemma NoMatchShift(x: string, y: string, name: string)
    requires |x| > 0
    requires forall j :: 0 <= j < |x| ==> MatchAt((x + y)[j..], name).None?
    ensures forall j :: 0 <= j < |x| - 1 ==> MatchAt((x[1..] + y)[j..], name).None?
  {
    forall j | 0 <= j < |x| - 1
      ensures MatchAt((x[1..] + y)[j..], name).None?
    {
      assert (x[1..] + y)[j..] == (x + y)[j + 1..];
    }
  }

  /**
   * The leftmost match is replaced and the scan resumes after it: an update
   * rewrites each whole element, whatever its other attributes and old text.
   */
  lemma ReplaceLeftmost(s: string, m: nat, name: string, elem: string)
    requires m < |s| && MatchAt(s[m..], name).Some?
    requires forall j :: 0 <= j < m ==> MatchAt(s[j..], name).None?
    ensures ReplaceMatches(s, name, elem)
      == s[..m] + elem + ReplaceMatches(s[m + MatchAt(s[m..], name).value..], name, elem)
  {
    var n := MatchAt(s[m..], name).value;
    assert s == s[..m] + s[m..];
    forall j | 0 <= j < m
      ensures MatchAt((s[..m] + s[m..])[j..], name).None?
    {
    }
    ReplaceSkip(s[..m], s[m..], name, elem);
    assert s[m..][n..] == s[m + n..];
    ConcatAssoc(s[..m], elem, ReplaceMatches(s[m + n..], name, elem));
  }

  /** Attributes without `>` are skipped up to the `>` that ends the opening tag. */
  lemma {:induction false} SkipAttributes(attrs: string, rest: string, q: nat)
    requires '>' !in attrs && IndexOf(rest, ClosingTag()) == Some(q)
    ensures ElementRest(attrs + ">" + rest) == Some(|attrs| + 1 + q + 9)
    decreases |attrs|
  {
    var t := attrs + ">" + rest;
    if |attrs| == 0 {
      assert t[1..] == rest;
    } else {
      assert t[1..] == attrs[1..] + ">" + rest;
      SkipAttributes(attrs[1..], rest, q);
    }
  }

  /** Without `</string>` in `body`, the first `</string>` is the one after it. */
  lemma FirstClosing(body: string, y: string)
    requires !Contains(body, ClosingTag())
    ensures IndexOf(body + ClosingTag() + y, ClosingTag()) == Some(|body|)
  {
    ClosingTagChars();
    FirstOccurrence(body, ClosingTag(), y);
  }

  /** The update pattern matches a whole element, whatever attributes follow the name. */
  lemma ElementMatch(name: string, attrs: string, body: string, y: string)
    requires '>' !in attrs && !Contains(body, ClosingTag())
    ensures MatchAt(OpenTag(name) + attrs + ">" + body + ClosingTag() + y, name).Some?
    ensures MatchAt(OpenTag(name) + attrs + ">" + body + ClosingTag() + y, name).value
      == |OpenTag(name)| + |attrs| + 1 + |body| + 9
  {
    ElementRestOf(attrs, body, y);
    MatchAfterRest(name, attrs + ">" + (body + ClosingTag() + y), |attrs| + 1 + |body| + 9);
    ElementAssoc(OpenTag(name), attrs, body, ClosingTag(), y);
  }

  /** Behind the opening tag's attributes, the rest of a match ends at the first `</string>`. */
  lemma ElementRestOf(attrs: string, body: string, y: string)
    requires '>' !in attrs && !Contains(body, ClosingTag())
    ensures ElementRest(attrs + ">" + (body + ClosingTag() + y)).Some?
    ensures ElementRest(attrs + ">" + (body + ClosingTag() + y)).value == |attrs| + 1 + |body| + 9
  {
    FirstClosing(body, y);
    SkipAttributes(attrs, body + ClosingTag() + y, |body|);
  }

  /** A rest of length `n` behind the literal start makes a match of length `|OpenTag(name)| + n`. */
  lemma MatchAfterRest(name: string, t: string, n: nat)
    requires ElementRest(t).Some? && ElementRest(t).value == n
    ensures MatchAt(OpenTag(name) + t, name).Some? && MatchAt(OpenTag(name) + t, name).value == |OpenTag(name)| + n
  {
    MatchAfterTag(name, t);
  }

  /** Behind the literal start, a match is decided by `ElementRest` alone. */
  lemma MatchAfterTag(name: string, t: string)
    ensures MatchAt(OpenTag(name) + t, name)
      == if ElementRest(t).Some? then Some(|OpenTag(name)| + ElementRest(t).value) else None
  {
    var p := OpenTag(name);
    assert (p + t)[|p|..] == t;
  }

  lemma ElementAssoc(p: string, attrs: string, body: string, close: string, y: string)
    ensures p + attrs + ">" + body + close + y == p + (attrs + ">" + (body + close + y))
  {
    var rest := body + close + y;
    ConcatAssoc(p + attrs + ">" + body, close, y);
    ConcatAssoc(p + attrs + ">", body, close + y);
    ConcatAssoc(p + attrs, ">", rest);
    ConcatAssoc(p, attrs, ">" + rest);
    ConcatAssoc(attrs, ">", rest);
  }

  /**
   * An element with the name is replaced by the new element as a whole: its
   * other attributes (`translatable` among them) and its old text are gone.
   */
  lemma AttributesDropped(name: string, attrs: string, body: string, y: string, elem: string)
    requires '>' !in attrs && !Contains(body, ClosingTag())
    ensures ReplaceMatches(OpenTag(name) + attrs + ">" + body + ClosingTag() + y, name, elem)
      == elem + ReplaceMatches(y, name, elem)
  {
    var s := OpenTag(name) + attrs + ">" + body + ClosingTag() + y;
    ElementMatch(name, attrs, body, y);
    assert s[|OpenTag(name)| + |attrs| + 1 + |body| + 9..] == y;
  }

  /** The element the update writes is matched by the update pattern as a whole. */
  lemma ElementReplaced(mode: Escaping, name: string, text: string, y: string)
    requires !Contains(Escape(mode, text), ClosingTag())
    ensures ReplaceMatches(StringLine(mode, name, text) + y, name, StringLine(mode, name, text))
      == StringLine(mode, name, text) + ReplaceMatches(y, name, StringLine(mode, name, text))
  {
    ElementShape(mode, name, text);
    AttributesDropped(name, "", Escape(mode, text), y, StringLine(mode, name, text));
  }

  // ---------------------------------------------------------------- idempotent add or update

  /** The position of the leftmost match of the update pattern, if any. */
  function FirstMatch(s: string, name: string): (r: Option<nat>)
    ensures r.Some? ==> r.value < |s| && MatchAt(s[r.value..], name).Some?
    ensures r.Some? ==> forall j :: 0 <= j < r.value ==> MatchAt(s[j..], name).None?
    ensures r.None? ==> forall j :: 0 <= j < |s| ==> MatchAt(s[j..], name).None?
  {
    FirstMatchFrom(s, name, 0)
  }

  /** The position of the leftmost match at or after `i`, if any. */
  function FirstMatchFrom(s: string, name: string, i: nat): (r: Option<nat>)
    requires i <= |s|
    ensures r.Some? ==> i <= r.value < |s| && MatchAt(s[r.value..], name).Some?
    ensures r.Some? ==> forall j :: i <= j < r.value ==> MatchAt(s[j..], name).None?
    ensures r.None? ==> forall j :: i <= j < |s| ==> MatchAt(s[j..], name).None?
    decreases |s| - i
  {
    if i == |s| then None
    else if MatchAt(s[i..], name).Some? then Some(i)
    else FirstMatchFrom(s, name, i + 1)
  }

  /** A rest of a match found further on makes one found from here. */
  lemma {:induction false} RestHasClosing(t: string)
    ensures ElementRest(t).Some? ==> Contains(t, ClosingTag())
    decreases |t|
  {
    if |t| > 0 && ElementRest(t).Some? && t[0] != '>' {
      RestHasClosing(t[1..]);
    }
  }

  /** Where the rest of a match can be found from position `k` on, it can be found from the start. */
  lemma {:induction false} RestMonotone(t: string, k: nat)
    ensures k <= |t| && ElementRest(t[k..]).Some? ==> ElementRest(t).Some?
    decreases k
  {
    if k == 0 {
      assert t[0..] == t;
    } else if k <= |t| && ElementRest(t[k..]).Some? {
      assert t[1..][k - 1..] == t[k..];
      RestMonotone(t[1..], k - 1);
      if t[0] == '>' {
        RestHasClosing(t[1..]);
      }
    }
  }

  /** With no space in the name, two starts of the pattern are at least its length apart. */
  lemma NoSelfOverlap(s: string, name: string, j: nat)
    requires ' ' !in name && StartsWith(s, OpenTag(name))
    requires 1 <= j < |OpenTag(name)|
    ensures !StartsWith(s[j..], OpenTag(name))
  {
    var p := OpenTag(name);
    assert p == "    <string name=\"" + name + "\"";
    assert forall i :: 18 <= i < 18 + |name| ==> p[i] == name[i - 18];
    var k: nat := if j < 4 then 4 - j else if j == 11 then 1 else 0;
    assert j + k < |p|;
    assert s[j + k] == p[j + k];
    assert p[j + k] != p[k];
    assert s[j..][k] != p[k];
  }

  /**
   * When the content starts with the literal start but no match does, no
   * match starts after its first character either.
   */
  lemma NoLaterMatch(s: string, name: string)
    requires ' ' !in name && StartsWith(s, OpenTag(name)) && MatchAt(s, name).None?
    ensures forall j :: 1 <= j < |s| ==> MatchAt(s[j..], name).None?
  {
    var p := OpenTag(name);
    assert ElementRest(s[|p|..]).None?;
    forall j | 1 <= j < |s|
      ensures MatchAt(s[j..], name).None?
    {
      if j < |p| {
        NoSelfOverlap(s, name, j);
      } else if j + |p| <= |s| {
        assert s[j..][|p|..] == s[|p|..][j..];
        RestMonotone(s[|p|..], j);
      }
    }
  }

  /**
   * Replacing with an element that starts with the pattern's literal start
   * does not change whether the content starts with it.
   */
  lemma ReplaceKeepsStart(t: string, name: string, elem: string)
    requires StartsWith(elem, OpenTag(name))
    ensures StartsWith(ReplaceMatches(t, name, elem), OpenTag(name)) == StartsWith(t, OpenTag(name))
  {
    var f := FirstMatch(t, name);
    if f.None? {
      NoMatchUnchanged(t, name, elem);
    } else {
      var m := f.value;
      var n := MatchAt(t[m..], name).value;
      ReplaceLeftmost(t, m, name, elem);
      PrefixAgrees(t, m, elem, ReplaceMatches(t[m + n..], name, elem), OpenTag(name));
    }
  }

  /** Writing a text that starts with `p` where `p` already stood keeps the first `|p|` characters. */
  lemma PrefixAgrees(t: string, m: nat, elem: string, rest: string, p: string)
    requires m <= |t| && StartsWith(t[m..], p) && StartsWith(elem, p)
    ensures StartsWith(t[..m] + elem + rest, p) == StartsWith(t, p)
  {
    var r := t[..m] + elem + rest;
    assert |p| <= |r| && |p| <= |t|;
    forall k | 0 <= k < |p|
      ensures r[k] == t[k]
    {
      if m <= k {
        assert r[k] == elem[k - m];
        assert t[k] == t[m..][k - m];
      }
    }
    assert r[..|p|] == t[..|p|];
  }

  /** Where no match starts, none starts after the rest of the content is updated either. */
  lemma StillNoMatch(s: string, name: string, elem: string)
    requires ' ' !in name && StartsWith(elem, OpenTag(name))
    requires |s| > 0 && MatchAt(s, name).None?
    ensures MatchAt([s[0]] + ReplaceMatches(s[1..], name, elem), name).None?
  {
    if StartsWith(s, OpenTag(name)) {
      NoLaterMatch(s, name);
      forall j | 0 <= j < |s| - 1
        ensures MatchAt(s[1..][j..], name).None?
      {
        assert s[1..][j..] == s[j + 1..];
      }
      NoMatchUnchanged(s[1..], name, elem);
      assert [s[0]] + s[1..] == s;
    } else {
      ReplaceKeepsStart(s, name, elem);
    }
  }

  /** Replacing every element with the name a second time changes nothing. */
  lemma {:induction false} ReplaceIdempotent(s: string, mode: Escaping, name: string, text: string)
    requires ' ' !in name && !Contains(Escape(mode, text), ClosingTag())
    ensures ReplaceMatches(ReplaceMatches(s, name, StringLine(mode, name, text)), name, StringLine(mode, name, text))
      == ReplaceMatches(s, name, StringLine(mode, name, text))
    decreases |s|
  {
    var e := StringLine(mode, name, text);
    ElementShape(mode, name, text);
    if |s| > 0 {
      match MatchAt(s, name)
      case Some(n) =>
        ReplaceIdempotent(s[n..], mode, name, text);
        ElementReplaced(mode, name, text, ReplaceMatches(s[n..], name, e));
      case None =>
        var x := [s[0]] + ReplaceMatches(s[1..], name, e);
        StillNoMatch(s, name, e);
        assert x[1..] == ReplaceMatches(s[1..], name, e);
        ReplaceIdempotent(s[1..], mode, name, text);
    }
  }

  /** The update either leaves the content as it was or writes the element into it. */
  lemma {:induction false} ReplacedOrKept(s: string, name: string, elem: string)
    ensures ReplaceMatches(s, name, elem) == s || Contains(ReplaceMatches(s, name, elem), elem)
    decreases |s|
  {
    if |s| > 0 && MatchAt(s, name).None? {
      ReplacedOrKept(s[1..], name, elem);
      assert ([s[0]] + ReplaceMatches(s[1..], name, elem))[1..] == ReplaceMatches(s[1..], name, elem);
    }
  }

  /** Content with the name attribute still has it after the update. */
  lemma NameKept(s: string, mode: Escaping, name: string, text: string)
    requires Contains(s, NameAttribute(name))
    ensures Contains(ReplaceMatches(s, name, StringLine(mode, name, text)), NameAttribute(name))
  {
    var e := StringLine(mode, name, text);
    ElementShape(mode, name, text);
    TagHasName(e, 0, name);
    assert e[0..] == e;
    ReplacedOrKept(s, name, e);
    if ReplaceMatches(s, name, e) != s {
      ContainsTrans(ReplaceMatches(s, name, e), e, NameAttribute(name));
    }
  }

  /** A freshly inserted element is the only match in the new content. */
  lemma InsertedUnchanged(before: string, after: string, mode: Escaping, name: string, text: string)
    requires NoBreak(name) && !Contains(Escape(mode, text), ClosingTag())
    requires !Contains(before, NameAttribute(name)) && !Contains(after, NameAttribute(name))
    ensures ReplaceMatches(before + "\n" + StringLine(mode, name, text) + "\n" + after, name, StringLine(mode, name, text))
      == before + "\n" + StringLine(mode, name, text) + "\n" + after
  {
    var e := StringLine(mode, name, text);
    var b1 := before + "\n";
    var tail := "\n" + after;
    var y := e + tail;
    forall j | 0 <= j < |b1|
      ensures MatchAt((b1 + y)[j..], name).None?
    {
      TagBeforeBreak(before, y, name, j);
    }
    ReplaceSkip(b1, y, name, e);
    ElementReplaced(mode, name, text, tail);
    BreakThenNoName(after, name);
    NoNameUnchanged(tail, name, e);
    LineAssoc(before, e, after, "\n");
  }

  /** A line break does not begin the name attribute. */
  lemma BreakThenNoName(after: string, name: string)
    requires !Contains(after, NameAttribute(name))
    ensures !Contains("\n" + after, NameAttribute(name))
  {
    var t := "\n" + after;
    assert t[1..] == after;
    assert NameAttribute(name)[0] == 'n';
  }

  lemma LineAssoc(b: string, e: string, a: string, nl: string)
    ensures b + nl + e + nl + a == (b + nl) + (e + (nl + a))
  {
  }

  /**
   * The insertion layout: the content before the last `</resources>`, with
   * its trailing whitespace `gap` dropped, a line break, the element, a
   * line break and the rest from that `</resources>` on.
   */
  lemma InsertLayout(content: string, elem: string) returns (i: nat, gap: string)
    requires Contains(content, "</resources>")
    ensures InsertElement(content, elem).Some?
    ensures i <= |content| && StartsWith(content[i..], "</resources>")
    ensures forall j :: i < j <= |content| ==> !StartsWith(content[j..], "</resources>")
    ensures content[..i] == TrimEnd(content[..i]) + gap && IsBlank(gap)
    ensures InsertElement(content, elem).value == TrimEnd(content[..i]) + "\n" + elem + "\n" + content[i..]
  {
    var k := ContainsWitness(content, "</resources>");
    LastIndexOfMeans(content, "</resources>");
    i := LastIndexOf(content, "</resources>").value;
    var before := TrimEnd(content[..i]);
    gap := content[|before|..i];
    assert content[..i] == before + gap;
    InsertAt(content, elem, i);
  }

  /** All three cases of the insertion build the same text. */
  lemma InsertAt(content: string, elem: string, i: nat)
    requires LastIndexOf(content, "</resources>").Some? && LastIndexOf(content, "</resources>").value == i
    ensures InsertElement(content, elem).Some?
    ensures InsertElement(content, elem).value == TrimEnd(content[..i]) + "\n" + elem + "\n" + content[i..]
  {
  }

  /** Without `</resources>` and without the name, the content is left as it is. */
  lemma NoResourcesUnchanged(content: string, mode: Escaping, name: string, text: string)
    requires !Contains(content, "</resources>") && !Contains(content, NameAttribute(name))
    ensures FileAfter(Some(content), mode, name, text) == Some(content)
  {
    if LastIndexOf(content, "</resources>").Some? {
      ContainsAt(content, LastIndexOf(content, "</resources>").value, "</resources>");
    }
  }

  /** Neither `/` nor `a` occurs in the declaration line. */
  lemma HeaderChars()
    ensures '/' !in XmlHeader() && 'a' !in XmlHeader()
  {
  }

  /** The skeleton has no name attribute: no `a` occurs in it. */
  lemma SkeletonHasNoName(name: string)
    ensures !Contains(Skeleton(), NameAttribute(name))
  {
    HeaderChars();
    var sk := Skeleton();
    assert sk == XmlHeader() + "\n<resources>\n</resources>";
    assert 'a' !in sk;
    MissingCharNotContained(sk, NameAttribute(name), 1);
  }

  /** The skeleton's only `</resources>` closes it, after the header and `<resources>` lines. */
  lemma SkeletonClosing()
    ensures LastIndexOf(Skeleton(), "</resources>").Some?
    ensures LastIndexOf(Skeleton(), "</resources>").value == |XmlHeader()| + 13
  {
    HeaderChars();
    var sk := Skeleton();
    var h := XmlHeader() + "\n<resources>\n";
    assert sk == h + "</resources>";
    ClosingAfter(h);
  }

  /** In `h + "</resources>"` with no `/` in `h`, the last `</resources>` is the final one. */
  lemma ClosingAfter(h: string)
    requires '/' !in h
    ensures LastIndexOf(h + "</resources>", "</resources>").Some?
    ensures LastIndexOf(h + "</resources>", "</resources>").value == |h|
  {
    var sk := h + "</resources>";
    assert sk[|h|..] == "</resources>";
    ContainsAt(sk, |h|, "</resources>");
    LastIndexOfMeans(sk, "</resources>");
    var r := LastIndexOf(sk, "</resources>").value;
    assert sk[r + 1] == '/';
    assert forall k :: 0 <= k < |h| ==> sk[k] != '/';
  }

  /** A missing file is created from the skeleton with the element as its only entry. */
  lemma MissingFileCreated(mode: Escaping, name: string, text: string)
    ensures FileAfter(None, mode, name, text)
      == Some(XmlHeader() + "\n" + "<resources>" + "\n" + StringLine(mode, name, text) + "\n" + "</resources>")
  {
    SkeletonHasNoName(name);
    SkeletonInsert(StringLine(mode, name, text));
  }

  /** Inserting into the skeleton puts the element on its own line between the two tags. */
  lemma SkeletonInsert(e: string)
    ensures InsertElement(Skeleton(), e) == Some(XmlHeader() + "\n" + "<resources>" + "\n" + e + "\n" + "</resources>")
  {
    var h := XmlHeader() + "\n" + "<resources>";
    HeaderChars();
    assert '/' !in h && h[|h| - 1] == '>';
    InsertBeforeClosing(h, e);
  }

  /** Before a lone closing `</resources>` line, the element goes between it and the text above. */
  lemma InsertBeforeClosing(h: string, e: string)
    requires '/' !in h && |h| > 0 && !IsWhitespace(h[|h| - 1])
    ensures InsertElement(h + "\n" + "</resources>", e) == Some(h + "\n" + e + "\n" + "</resources>")
  {
    var h1 := h + "\n";
    var sk := h1 + "</resources>";
    assert '/' !in h1;
    ClosingAfter(h1);
    InsertAt(sk, e, |h1|);
    assert sk[..|h1|] == h1;
    assert sk[|h1|..] == "</resources>";
    TrimEndDropsBreak(h);
  }

  /** On the update branch, a second call rewrites nothing. */
  lemma UpdateStable(c: string, mode: Escaping, name: string, text: string)
    requires ' ' !in name && !Contains(Escape(mode, text), ClosingTag())
    requires Contains(c, NameAttribute(name))
    ensures AddOrUpdate(Some(c), mode, name, text).Some?
    ensures FileAfter(AddOrUpdate(Some(c), mode, name, text), mode, name, text) == AddOrUpdate(Some(c), mode, name, text)
  {
    NameKept(c, mode, name, text);
    ReplaceIdempotent(c, mode, name, text);
  }

  /** On the insertion branch, a second call finds the new element and rewrites it as it is. */
  lemma InsertStable(c: string, mode: Escaping, name: string, text: string)
    requires NoBreak(name) && !Contains(Escape(mode, text), ClosingTag())
    requires !Contains(c, NameAttribute(name)) && Contains(c, "</resources>")
    ensures AddOrUpdate(Some(c), mode, name, text).Some?
    ensures FileAfter(AddOrUpdate(Some(c), mode, name, text), mode, name, text) == AddOrUpdate(Some(c), mode, name, text)
  {
    var e := StringLine(mode, name, text);
    var na := NameAttribute(name);
    LastIndexOfFound(c, "</resources>");
    var i := LastIndexOf(c, "</resources>").value;
    InsertAt(c, e, i);
    var before := TrimEnd(c[..i]);
    var after := c[i..];
    var w := before + "\n" + e + "\n" + after;
    assert AddOrUpdate(Some(c), mode, name, text) == InsertElement(c, e);
    assert before == c[..|before|];
    SliceContained(c, 0, |before|, na);
    assert after == c[i..|c|];
    SliceContained(c, i, |c|, na);
    InsertedUnchanged(before, after, mode, name, text);
    ElementShape(mode, name, text);
    TagHasName(e, 0, name);
    assert e[0..] == e;
    ContainsInConcat(before + "\n", e, na);
    ContainsInConcat(before + "\n" + e, "\n" + after, na);
    ConcatAssoc(before + "\n" + e, "\n", after);
    assert AddOrUpdate(Some(w), mode, name, text) == Some(w);
  }

  /**
   * Adding or updating the same name and text a second time leaves the file
   * as the first call left it, when the name holds no space or line break
   * and the escaped text no `</string>`.
   */
  lemma AddOrUpdateIdempotent(file: Option<string>, mode: Escaping, name: string, text: string)
    requires ' ' !in name && NoBreak(name) && !Contains(Escape(mode, text), ClosingTag())
    ensures FileAfter(FileAfter(file, mode, name, text), mode, name, text) == FileAfter(file, mode, name, text)
  {
    var c := if file.Some? then file.value else Skeleton();
    assert AddOrUpdate(file, mode, name, text) == AddOrUpdate(Some(c), mode, name, text);
    if Contains(c, NameAttribute(name)) {
      UpdateStable(c, mode, name, text);
    } else if Contains(c, "</resources>") {
      InsertStable(c, mode, name, text);
    } else {
      NoResourcesUnchanged(c, mode, name, text);
      if file.None? {
        SkeletonClosing();
        ContainsAt(c, LastIndexOf(c, "</resources>").value, "</resources>");
      }
    }
  }
}
