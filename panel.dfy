/**
 * The parts of the tool window of XmlTranslatorPanel.kt that compute
 * something: the rows the bulk parser adds, the order of the folder list,
 * the language list, the import template and the removal of selected rows.
 * Swing is reduced to the models behind the widgets: the rows of the string
 * table, the text of the bulk area, the language list and the text of the
 * language field.
 */
module Panel {
  import opened Wrappers
  import opened Text
  import opened Sorting
  import opened XmlEscape
  import opened BulkDecode
  import Settings

  // ---------------------------------------------------------------- bulk parsing

  /** One match of the element pattern of `parseBulkInput`: its name group and its text group. */
  datatype Match = Match(name: string, rawText: string)

  /** A row of the string table. */
  datatype Row = Row(name: string, text: string)

  /** The row a match would add: its name and its decoded text. */
  function DecodedRow(m: Match): Row {
    Row(m.name, DecodeText(m.rawText))
  }

  /** The rows the matches would add, one per match. */
  function DecodedRows(ms: seq<Match>): (r: seq<Row>)
    ensures |r| == |ms|
    ensures forall i :: 0 <= i < |ms| ==> r[i] == DecodedRow(ms[i])
  {
    seq(|ms|, i requires 0 <= i < |ms| => DecodedRow(ms[i]))
  }

  /** A row is added when both its name and its text are non-empty. */
  predicate Addable(row: Row) {
    row.name != "" && row.text != ""
  }

  /** The addable rows of `rows`, in order. */
  function AddedRows(rows: seq<Row>): (r: seq<Row>)
    ensures |r| <= |rows|
    ensures forall row :: row in r ==> Addable(row)
    decreases |rows|
  {
    if |rows| == 0 then []
    else
      var last := rows[|rows| - 1];
      AddedRows(rows[..|rows| - 1]) + (if Addable(last) then [last] else [])
  }

  /**
   * A row is added exactly when it is one of the candidates and is addable,
   * and nothing is added exactly when no candidate is addable.
   */
  lemma {:induction false} AddedRowsMeans(rows: seq<Row>)
    ensures forall row :: row in AddedRows(rows) <==> row in rows && Addable(row)
    ensures AddedRows(rows) == [] <==> forall i :: 0 <= i < |rows| ==> !Addable(rows[i])
    decreases |rows|
  {
    if |rows| > 0 {
      var prev := rows[..|rows| - 1];
      var last := rows[|rows| - 1];
      assert rows == prev + [last];
      AddedRowsMeans(prev);
      if Addable(last) {
        assert AddedRows(rows)[|AddedRows(rows)| - 1] == last;
      }
    }
  }

  /** The rows `parseBulkInput` adds for the matches, in match order. */
  function ParsedRows(ms: seq<Match>): seq<Row> {
    AddedRows(DecodedRows(ms))
  }

  /**
   * An element written by the full escaping of XmlProcessor.kt is read back
   * as the original text, when that text has no backslash, no entity-like
   * run and no surrounding whitespace.
   */
  lemma EscapedRowRoundTrip(name: string, t: string)
    requires name != "" && t != ""
    requires '\\' !in t && NoEntity(t)
    requires !IsWhitespace(t[0]) && !IsWhitespace(t[|t| - 1])
    ensures DecodedRow(Match(name, EscapeFull(t))) == Row(name, t)
    ensures Addable(DecodedRow(Match(name, EscapeFull(t))))
  {
    RoundTrip(t);
  }

  /** How `parseBulkInput` ended: an empty area, no row added, or the number of rows added. */
  datatype ParseOutcome = EmptyInput | NoneFound | Parsed(count: nat)

  // ---------------------------------------------------------------- the folder list

  /**
   * The order of `updateValuesFolders`: the same folders, "values" first
   * when present, the others in `compareTo` order.
   */
  function SortedFolders(folders: seq<string>): (r: seq<string>)
    ensures multiset(r) == multiset(folders)
    ensures "values" in folders ==> r[0] == "values"
    ensures forall i, j :: 0 <= i < j < |r| && r[i] != "values" && r[j] != "values" ==> LexLe(r[i], r[j])
  {
    var r := Sort(ValuesFirst, folders);
    if "values" in folders then
      assert "values" in multiset(r);
      ValuesComesFirst(r);
      r
    else r
  }

  // ---------------------------------------------------------------- the language list

  /** The list after adding `code` when it is not there yet. */
  function WithCode(ls: seq<string>, code: string): (r: seq<string>)
    ensures code in r && ls <= r && |r| <= |ls| + 1
    ensures forall c :: c in r <==> c in ls || c == code
    ensures Settings.Distinct(ls) ==> Settings.Distinct(r)
  {
    if code in ls then ls else ls + [code]
  }

  /** A language list without duplicates and without an empty code. */
  predicate ValidLanguages(ls: seq<string>) {
    Settings.Distinct(ls) && forall i :: 0 <= i < |ls| ==> ls[i] != ""
  }

  /** `addLanguage` and the quick buttons keep the list free of duplicates and of empty codes. */
  lemma WithCodeValid(ls: seq<string>, code: string)
    requires ValidLanguages(ls) && code != ""
    ensures ValidLanguages(WithCode(ls, code))
  {
    var r := WithCode(ls, code);
    forall i | 0 <= i < |r|
      ensures r[i] != ""
    {
      if i < |ls| {
        assert r[i] == ls[i];
      }
    }
  }

  /** The list in its order, without the codes of `s`. */
  function Without(ls: seq<string>, s: set<string>): (r: seq<string>)
    ensures |r| <= |ls|
    ensures forall c :: c in r <==> c in ls && c !in s
    decreases |ls|
  {
    if |ls| == 0 then []
    else (if ls[0] in s then [] else [ls[0]]) + Without(ls[1..], s)
  }

  /** `selected.forEach { removeElement(it) }`: each selected value loses its first occurrence. */
  function RemovedAll(ls: seq<string>, selected: seq<string>): seq<string>
    decreases |selected|
  {
    if |selected| == 0 then ls
    else Settings.RemoveFirst(RemovedAll(ls, selected[..|selected| - 1]), selected[|selected| - 1])
  }

  /** Removing codes keeps a list free of duplicates. */
  lemma {:induction false} WithoutDistinct(ls: seq<string>, s: set<string>)
    requires Settings.Distinct(ls)
    ensures Settings.Distinct(Without(ls, s))
    decreases |ls|
  {
    if |ls| > 0 {
      WithoutDistinct(ls[1..], s);
      var w := Without(ls[1..], s);
      assert ls[0] !in w by {
        assert forall i :: 1 <= i < |ls| ==> ls[i] != ls[0];
        assert forall c :: c in ls[1..] ==> c != ls[0];
      }
    }
  }

  /** A code the list does not hold changes nothing when added to the removed set. */
  lemma {:induction false} WithoutAbsent(ls: seq<string>, s: set<string>, x: string)
    requires x !in ls
    ensures Without(ls, s + {x}) == Without(ls, s)
    decreases |ls|
  {
    if |ls| > 0 {
      assert ls[0] != x;
      WithoutAbsent(ls[1..], s, x);
    }
  }

  /** On a list without duplicates, removing the first occurrence of `x` is removing `x`. */
  lemma {:induction false} RemoveFirstWithout(ls: seq<string>, s: set<string>, x: string)
    requires Settings.Distinct(ls)
    ensures Settings.RemoveFirst(Without(ls, s), x) == Without(ls, s + {x})
    decreases |ls|
  {
    if |ls| > 0 {
      var a := ls[0];
      var t := ls[1..];
      assert Settings.Distinct(t) by {
        assert forall i :: 0 <= i < |t| ==> t[i] == ls[i + 1];
      }
      if a in s {
        assert Without(ls, s) == Without(t, s);
        assert Without(ls, s + {x}) == Without(t, s + {x});
        RemoveFirstWithout(t, s, x);
      } else if a == x {
        assert a !in t by {
          assert forall i :: 0 <= i < |t| ==> t[i] == ls[i + 1];
        }
        WithoutAbsent(t, s, x);
        assert ([a] + Without(t, s))[1..] == Without(t, s);
      } else {
        RemoveFirstWithout(t, s, x);
        var w := [a] + Without(t, s);
        assert w[0] == a && w[1..] == Without(t, s);
      }
    }
  }

  /** The selected values as a set. */
  function SelectedCodes(selected: seq<string>): (r: set<string>)
    ensures forall c :: c in r <==> c in selected
  {
    set c | c in selected
  }

  /**
   * On a list without duplicates, `removeLanguage` leaves the codes that were
   * not selected, in their order, and the list stays valid.
   */
  lemma {:induction false} RemovedAllMeans(ls: seq<string>, selected: seq<string>)
    requires Settings.Distinct(ls)
    ensures RemovedAll(ls, selected) == Without(ls, SelectedCodes(selected))
    ensures ValidLanguages(ls) ==> ValidLanguages(RemovedAll(ls, selected))
    decreases |selected|
  {
    if |selected| == 0 {
      assert SelectedCodes(selected) == {};
      WithoutAbsentAll(ls);
    } else {
      var prev := selected[..|selected| - 1];
      var x := selected[|selected| - 1];
      RemovedAllMeans(ls, prev);
      RemoveFirstWithout(ls, SelectedCodes(prev), x);
      assert SelectedCodes(selected) == SelectedCodes(prev) + {x} by {
        assert selected == prev + [x];
      }
    }
    var r := RemovedAll(ls, selected);
    WithoutDistinct(ls, SelectedCodes(selected));
    assert forall i :: 0 <= i < |r| ==> r[i] in ls;
  }

  /** Removing nothing is the identity. */
  lemma {:induction false} WithoutAbsentAll(ls: seq<string>)
    ensures Without(ls, {}) == ls
    decreases |ls|
  {
    if |ls| > 0 {
      WithoutAbsentAll(ls[1..]);
    }
  }

  // ---------------------------------------------------------------- the import template

  /** The name the template gives to the `k`-th line, counting from 1. */
  function ImportedName(k: nat): string {
    "imported_string_" + NatToString(k)
  }

  /** The element the template writes for one line. */
  function ImportedElement(k: nat, line: string): string {
    "<string name=\"" + ImportedName(k) + "\">" + Trim(line) + "</string>"
  }

  /** `filter { it.trim().isNotEmpty() }` */
  function NonBlankLines(ls: seq<string>): (r: seq<string>)
    ensures |r| <= |ls|
    ensures forall l :: l in r <==> l in ls && Trim(l) != ""
    decreases |ls|
  {
    if |ls| == 0 then []
    else (if Trim(ls[0]) != "" then [ls[0]] else []) + NonBlankLines(ls[1..])
  }

  /** The elements for `ls`, numbered from `first`. */
  function Elements(ls: seq<string>, first: nat): (r: seq<string>)
    ensures |r| == |ls|
    ensures forall k :: 0 <= k < |ls| ==> r[k] == ImportedElement(first + k, ls[k])
    decreases |ls|
  {
    if |ls| == 0 then [] else [ImportedElement(first, ls[0])] + Elements(ls[1..], first + 1)
  }

  /** The template `importSelectedText` writes into the bulk area for plain text. */
  function ImportTemplate(selectedText: string): string {
    Join(Elements(NonBlankLines(Lines(selectedText)), 1), "\n")
  }

  /** An element holds no line break when its line holds none. */
  lemma ElementOneLine(k: nat, line: string)
    requires '\n' !in line
    ensures '\n' !in ImportedElement(k, line)
  {
    var t := Trim(line);
    assert forall i :: 0 <= i < |t| ==> t[i] == line[TrimOffset(line) + i];
    var n := NatToString(k);
    assert '\n' !in n by {
      forall i | 0 <= i < |n| ensures n[i] != '\n' {}
    }
  }

  /**
   * The template has one line per non-blank line of the selection: line `k`
   * is the element named `imported_string_<k + 1>` holding that line trimmed.
   */
  lemma ImportTemplateLines(selectedText: string)
    requires NonBlankLines(Lines(selectedText)) != []
    ensures var ls := NonBlankLines(Lines(selectedText));
      var pieces := Split(ImportTemplate(selectedText), '\n');
      |pieces| == |ls| &&
      forall k :: 0 <= k < |ls| ==> pieces[k] == ImportedElement(k + 1, ls[k])
  {
    var all := Lines(selectedText);
    var ls := NonBlankLines(all);
    var es := Elements(ls, 1);
    forall k | 0 <= k < |es|
      ensures '\n' !in es[k]
    {
      assert ls[k] in ls;
      var j :| 0 <= j < |all| && all[j] == ls[k];
      ElementOneLine(k + 1, ls[k]);
    }
    SplitJoin(es, '\n');
  }

  // ---------------------------------------------------------------- removing selected rows

  /** The rows below `n` whose index is not in `sel`, in order. */
  function Kept(rows: seq<Row>, sel: set<nat>, n: nat): (r: seq<Row>)
    requires n <= |rows|
    ensures |r| <= n
    decreases n
  {
    if n == 0 then [] else Kept(rows, sel, n - 1) + (if n - 1 in sel then [] else [rows[n - 1]])
  }

  /** A row is kept exactly when some index of it below `n` is not selected. */
  lemma {:induction false} KeptMeans(rows: seq<Row>, sel: set<nat>, n: nat)
    requires n <= |rows|
    ensures forall j :: 0 <= j < n && j !in sel ==> rows[j] in Kept(rows, sel, n)
    ensures forall x :: x in Kept(rows, sel, n) ==> exists j :: 0 <= j < n && j !in sel && rows[j] == x
    decreases n
  {
    if n > 0 {
      KeptMeans(rows, sel, n - 1);
    }
  }

  /** Nothing below `n` is selected: every row below `n` is kept. */
  lemma {:induction false} KeptBelow(rows: seq<Row>, sel: set<nat>, n: nat)
    requires n <= |rows|
    requires forall s :: s in sel ==> s >= n
    ensures Kept(rows, sel, n) == rows[..n]
    decreases n
  {
    if n > 0 {
      KeptBelow(rows, sel, n - 1);
      assert rows[..n] == rows[..n - 1] + [rows[n - 1]];
    }
  }

  /** `removeRow(k)` */
  function RemoveAt(rows: seq<Row>, k: nat): (r: seq<Row>)
    requires k < |rows|
    ensures |r| == |rows| - 1
    ensures forall i :: 0 <= i < k ==> r[i] == rows[i]
    ensures forall i :: k <= i < |r| ==> r[i] == rows[i + 1]
  {
    rows[..k] + rows[k + 1..]
  }

  /**
   * With every selected index above `k`, row `k` still sits at position
   * `k`, and removing it there is the same as selecting it too.
   */
  lemma {:induction false} KeptRemove(rows: seq<Row>, sel: set<nat>, k: nat, n: nat)
    requires k < n <= |rows|
    requires forall s :: s in sel ==> s > k
    ensures k < |Kept(rows, sel, n)|
    ensures Kept(rows, sel + {k}, n) == RemoveAt(Kept(rows, sel, n), k)
    decreases n
  {
    if n == k + 1 {
      KeptBelow(rows, sel, k);
      KeptBelow(rows, sel + {k}, k);
      assert (rows[..k] + [rows[k]])[..k] == rows[..k];
    } else {
      KeptRemove(rows, sel, k, n - 1);
      var x := Kept(rows, sel, n - 1);
      var e: seq<Row> := if n - 1 in sel then [] else [rows[n - 1]];
      assert Kept(rows, sel, n) == x + e;
      assert RemoveAt(x + e, k) == RemoveAt(x, k) + e;
    }
  }

  /** Strictly increasing indices, as `JTable.getSelectedRows` returns them. */
  predicate Ascending(sel: seq<nat>) {
    forall i, j :: 0 <= i < j < |sel| ==> sel[i] < sel[j]
  }

  /** The indices `sel[i..]`. */
  function SelectedFrom(sel: seq<nat>, i: nat): (r: set<nat>)
    requires i <= |sel|
    ensures forall s :: s in r <==> exists j :: i <= j < |sel| && sel[j] == s
  {
    set j | i <= j < |sel| :: sel[j]
  }

  // ---------------------------------------------------------------- the window

  class ToolWindow {
    var rows: seq<Row>
    var bulkText: string
    var languages: seq<string>
    var languageInput: string

    /** An empty window: no rows, empty areas, no languages. */
    constructor ()
      ensures rows == [] && bulkText == "" && languages == [] && languageInput == ""
    {
      rows := [];
      bulkText := "";
      languages := [];
      languageInput := "";
    }

    /**
     * `parseBulkInput`: a blank area is refused; otherwise each match of
     * the element pattern in the trimmed area adds its row, the number of
     * rows added is reported, and the area is cleared when it is not zero.
     * `find` stands for `findAll` of the element pattern.
     */
    method ParseBulkInput(find: string -> seq<Match>) returns (outcome: ParseOutcome)
      modifies this
      ensures Trim(old(bulkText)) == "" ==> outcome == EmptyInput
      ensures Trim(old(bulkText)) != "" ==> rows == old(rows) + ParsedRows(find(Trim(old(bulkText))))
      ensures Trim(old(bulkText)) != "" ==> (outcome.Parsed? <==> ParsedRows(find(Trim(old(bulkText)))) != [])
      ensures Trim(old(bulkText)) != "" ==> outcome != EmptyInput
      ensures outcome.Parsed? ==> outcome.count == |rows| - |old(rows)| > 0 && bulkText == ""
      ensures !outcome.Parsed? ==> rows == old(rows) && bulkText == old(bulkText)
      ensures languages == old(languages) && languageInput == old(languageInput)
    {
      var t := Trim(bulkText);
      if t == "" {
        return EmptyInput;
      }
      var matches := find(t);
      var count := AddRows(DecodedRows(matches));
      if count > 0 {
        bulkText := "";
        outcome := Parsed(count);
      } else {
        outcome := NoneFound;
      }
    }

    /**
     * The loop of `parseBulkInput` over the decoded matches: each addable
     * row is appended to the table and counted. Decoding does not depend on
     * the table, so the matches are decoded before the loop here.
     */
    method AddRows(cands: seq<Row>) returns (count: nat)
      modifies this
      ensures rows == old(rows) + AddedRows(cands) && count == |AddedRows(cands)|
      ensures bulkText == old(bulkText) && languages == old(languages) && languageInput == old(languageInput)
    {
      count := 0;
      for i := 0 to |cands|
        invariant rows == old(rows) + AddedRows(cands[..i])
        invariant count == |AddedRows(cands[..i])|
        invariant bulkText == old(bulkText) && languages == old(languages) && languageInput == old(languageInput)
      {
        var row := cands[i];
        assert cands[..i + 1] == cands[..i] + [row];
        if row.name != "" && row.text != "" {
          rows := rows + [row];
          count := count + 1;
        }
      }
      assert cands[..|cands|] == cands;
    }

    /** `addLanguage`: the trimmed field is added when non-empty and new, and then the field is cleared. */
    method AddLanguage()
      modifies this
      ensures Trim(old(languageInput)) != "" ==> languages == WithCode(old(languages), Trim(old(languageInput)))
      ensures Trim(old(languageInput)) == "" ==> languages == old(languages)
      ensures languageInput == (if Trim(old(languageInput)) != "" && Trim(old(languageInput)) !in old(languages) then "" else old(languageInput))
      ensures rows == old(rows) && bulkText == old(bulkText)
    {
      var code := Trim(languageInput);
      if code != "" && code !in languages {
        languages := languages + [code];
        languageInput := "";
      }
    }

    /** `addLanguageCode`: a quick button adds its code when it is new. */
    method AddLanguageCode(code: string)
      modifies this
      ensures languages == WithCode(old(languages), code)
      ensures languageInput == old(languageInput) && rows == old(rows) && bulkText == old(bulkText)
    {
      if code !in languages {
        languages := languages + [code];
      }
    }

    /**
     * `importSelectedText`: a selection holding `<string` goes to the bulk
     * area as it is (the timer started afterwards is modelled by
     * AutoParseTicks); any other selection becomes the template of one
     * element per non-blank line.
     */
    method ImportSelectedText(selectedText: string)
      modifies this
      ensures Contains(selectedText, "<string") ==> bulkText == selectedText
      ensures !Contains(selectedText, "<string") ==> bulkText == ImportTemplate(selectedText)
      ensures rows == old(rows) && languages == old(languages) && languageInput == old(languageInput)
    {
      if Contains(selectedText, "<string") {
        bulkText := selectedText;
      } else {
        bulkText := ImportTemplate(selectedText);
      }
    }

    /**
     * `importSelectedText` with its auto-parse timer as written: the
     * `Timer(500)` is started without `setRepeats(false)`, so it fires again
     * every 500 ms and each tick runs `parseBulkInput`; `outcomes` holds
     * what the first `ticks` ticks report. After a parse that adds rows the
     * area is empty, so every later tick shows the "Please enter XML
     * strings" warning; a parse that finds nothing repeats its warning on
     * every tick.
     */
    method AutoParseTicks(selectedText: string, find: string -> seq<Match>, ticks: nat) returns (outcomes: seq<ParseOutcome>)
      modifies this
      ensures !Contains(selectedText, "<string") ==>
        outcomes == [] && bulkText == ImportTemplate(selectedText) && rows == old(rows)
      ensures Contains(selectedText, "<string") ==> |outcomes| == ticks
      ensures var t := Trim(selectedText); var parsed := ParsedRows(find(t));
        Contains(selectedText, "<string") && (t == "" || parsed == []) ==>
          rows == old(rows) && bulkText == selectedText
          && forall k :: 0 <= k < ticks ==> outcomes[k] == (if t == "" then EmptyInput else NoneFound)
      ensures var t := Trim(selectedText); var parsed := ParsedRows(find(t));
        Contains(selectedText, "<string") && t != "" && parsed != [] && ticks > 0 ==>
          rows == old(rows) + parsed && bulkText == "" && outcomes[0] == Parsed(|parsed|)
          && forall k :: 1 <= k < ticks ==> outcomes[k] == EmptyInput
      ensures languages == old(languages) && languageInput == old(languageInput)
    {
      ImportSelectedText(selectedText);
      outcomes := [];
      if !Contains(selectedText, "<string") || ticks == 0 {
        return;
      }
      var first := ParseBulkInput(find);
      var rest := RepeatTicks(find, ticks - 1, if first.Parsed? then EmptyInput else first);
      outcomes := [first] + rest;
    }

    /**
     * Further ticks of the auto-parse timer once the area is at a fixed
     * point: blank (the empty-input warning) or holding no element (the
     * none-found warning). Each tick reports `later` and changes nothing.
     */
    method RepeatTicks(find: string -> seq<Match>, n: nat, later: ParseOutcome) returns (outs: seq<ParseOutcome>)
      requires Trim(bulkText) == "" ==> later == EmptyInput
      requires Trim(bulkText) != "" ==> ParsedRows(find(Trim(bulkText))) == [] && later == NoneFound
      modifies this
      ensures |outs| == n && forall k :: 0 <= k < n ==> outs[k] == later
      ensures rows == old(rows) && bulkText == old(bulkText)
      ensures languages == old(languages) && languageInput == old(languageInput)
    {
      outs := [];
      while |outs| < n
        invariant |outs| <= n && forall k :: 0 <= k < |outs| ==> outs[k] == later
        invariant rows == old(rows) && bulkText == old(bulkText)
        invariant languages == old(languages) && languageInput == old(languageInput)
      {
        var outcome := ParseBulkInput(find);
        outs := outs + [outcome];
      }
    }

    /**
     * `importSelectedText` with the one auto-parse its comment describes:
     * the imported elements are parsed once and reported once, and the
     * area is cleared when they added rows.
     */
    method ImportThenParseOnce(selectedText: string, find: string -> seq<Match>) returns (outcome: Option<ParseOutcome>)
      modifies this
      ensures !Contains(selectedText, "<string") ==>
        outcome == None && bulkText == ImportTemplate(selectedText) && rows == old(rows)
      ensures var t := Trim(selectedText); var parsed := ParsedRows(find(t));
        Contains(selectedText, "<string") ==>
          outcome == Some(if t == "" then EmptyInput else if parsed == [] then NoneFound else Parsed(|parsed|))
          && rows == old(rows) + (if t == "" then [] else parsed)
          && bulkText == (if t != "" && parsed != [] then "" else selectedText)
      ensures languages == old(languages) && languageInput == old(languageInput)
    {
      ImportSelectedText(selectedText);
      if !Contains(selectedText, "<string") {
        return None;
      }
      var o := ParseBulkInput(find);
      outcome := Some(o);
    }

    /** `removeLanguage`: each selected code is removed from the list, first occurrence only. */
    method RemoveLanguages(selected: seq<string>)
      modifies this
      ensures languages == RemovedAll(old(languages), selected)
      ensures languageInput == old(languageInput) && rows == old(rows) && bulkText == old(bulkText)
    {
      for i := 0 to |selected|
        invariant languages == RemovedAll(old(languages), selected[..i])
        invariant languageInput == old(languageInput) && rows == old(rows) && bulkText == old(bulkText)
      {
        assert selected[..i + 1][..i] == selected[..i];
        languages := Settings.RemoveFirst(languages, selected[i]);
      }
      assert selected[..|selected|] == selected;
    }

    /**
     * `removeSelectedString`: the selected rows are removed from the highest
     * index down, so each index still names the row it named when selected.
     */
    method RemoveSelectedRows(selected: seq<nat>)
      requires Ascending(selected)
      requires forall i :: 0 <= i < |selected| ==> selected[i] < |rows|
      modifies this
      ensures rows == Kept(old(rows), SelectedFrom(selected, 0), |old(rows)|)
      ensures bulkText == old(bulkText) && languages == old(languages) && languageInput == old(languageInput)
    {
      KeptBelow(rows, {}, |rows|);
      assert rows[..|rows|] == rows;
      var i := |selected|;
      assert SelectedFrom(selected, i) == {};
      while i > 0
        invariant 0 <= i <= |selected|
        invariant rows == Kept(old(rows), SelectedFrom(selected, i), |old(rows)|)
        invariant bulkText == old(bulkText) && languages == old(languages) && languageInput == old(languageInput)
      {
        i := i - 1;
        var k := selected[i];
        assert SelectedFrom(selected, i) == SelectedFrom(selected, i + 1) + {k};
        KeptRemove(old(rows), SelectedFrom(selected, i + 1), k, |old(rows)|);
        rows := rows[..k] + rows[k + 1..];
      }
    }
  }
}
