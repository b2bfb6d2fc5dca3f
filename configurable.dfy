/**
 * The settings page of XmlTranslatorConfigurable.kt, reduced to what it does
 * with text and with the settings object: the parsing of the key area into
 * keys on `apply`, the bullet masking of the area, the comparison behind
 * `isModified` and the enable rule of `updateUIState`. Swing is reduced to
 * the state of the two check boxes, the text of the area and its
 * `originalText` client property.
 */
module Configurable {
  import opened Wrappers
  import opened Text
  import opened Settings

  /** The character the masked area shows for each hidden key character. */
  const Bullet: char := '•'

  /** No masked line is longer than this. */
  const MaskWidth: nat := 40

  /** The shortest key `apply` stores. */
  const MinKeyLength: nat := 30

  // ---------------------------------------------------------------- parsing the key area

  /** `.map { it.trim() }.filter { it.isNotBlank() }` */
  function TrimmedKeys(pieces: seq<string>): (r: seq<string>)
    ensures |r| <= |pieces|
    ensures forall k :: k in r ==> !IsBlank(k) && Trim(k) == k
    decreases |pieces|
  {
    if |pieces| == 0 then []
    else
      var t := Trim(pieces[0]);
      TrimIdempotent(pieces[0]);
      (if IsBlank(t) then [] else [t]) + TrimmedKeys(pieces[1..])
  }

  /** Each key is the trim of some piece, and each non-blank piece yields its trim. */
  lemma {:induction false} TrimmedKeysMeans(pieces: seq<string>)
    ensures forall k :: k in TrimmedKeys(pieces) ==> exists i :: 0 <= i < |pieces| && k == Trim(pieces[i])
    ensures forall i :: 0 <= i < |pieces| && !IsBlank(pieces[i]) ==> Trim(pieces[i]) in TrimmedKeys(pieces)
    decreases |pieces|
  {
    if |pieces| > 0 {
      var rest := pieces[1..];
      TrimmedKeysMeans(rest);
      assert forall i :: 1 <= i < |pieces| ==> pieces[i] == rest[i - 1];
    }
  }

  lemma TrimIdempotent(s: string)
    ensures Trim(Trim(s)) == Trim(s)
  {
    TrimNoOp(Trim(s));
  }

  /** The keys the area holds: its `"\n"`-separated lines, trimmed, blank ones dropped. */
  function KeyLines(text: string): seq<string> {
    TrimmedKeys(Split(text, '\n'))
  }

  /** What `apply` lets through to `addApiKey`: long enough and not a masked line. */
  predicate Storable(key: string) {
    |key| >= MinKeyLength && Bullet !in key
  }

  /** The keys of `keys` that pass the test of `apply`, in order. */
  function Storables(keys: seq<string>): (r: seq<string>)
    ensures forall k :: k in r <==> k in keys && Storable(k)
    decreases |keys|
  {
    if |keys| == 0 then []
    else
      var prev := keys[..|keys| - 1];
      var last := keys[|keys| - 1];
      assert keys == prev + [last];
      Storables(prev) + (if Storable(last) then [last] else [])
  }

  /** The `forEach` of `apply`: each key that passes the test is handed to `addApiKey`, from an empty list. */
  function SaveKeys(keys: seq<string>): seq<string>
    decreases |keys|
  {
    if |keys| == 0 then []
    else
      var acc := SaveKeys(keys[..|keys| - 1]);
      var key := keys[|keys| - 1];
      if Storable(key) then AddKey(acc, key) else acc
  }

  /** The list `apply` leaves in the settings for the text it reads. */
  function SavedKeys(text: string): seq<string> {
    SaveKeys(KeyLines(text))
  }

  /** Saving non-blank keys is the merge of the storable ones into an empty list. */
  lemma {:induction false} SaveKeysIsMerge(keys: seq<string>)
    requires forall k :: k in keys ==> !IsBlank(k)
    ensures SaveKeys(keys) == AppendNew([], Storables(keys))
    decreases |keys|
  {
    if |keys| > 0 {
      var prev := keys[..|keys| - 1];
      var last := keys[|keys| - 1];
      assert keys == prev + [last];
      assert forall k :: k in prev ==> k in keys;
      SaveKeysIsMerge(prev);
      var s := Storables(prev);
      if Storable(last) {
        assert last in keys;
        assert Storables(keys) == s + [last];
        assert (s + [last])[..|s|] == s;
      } else {
        assert Storables(keys) == s + [];
        assert s + [] == s;
      }
    }
  }

  /**
   * `apply` stores, in line order, each trimmed non-blank line that is at
   * least 30 characters long and holds no bullet, once; a masked line is
   * never stored.
   */
  lemma SavedKeysMeans(text: string)
    ensures Distinct(SavedKeys(text))
    ensures forall k :: k in SavedKeys(text) <==> k in KeyLines(text) && Storable(k)
    ensures forall k :: k in SavedKeys(text) ==> |k| >= MinKeyLength && Bullet !in k && !IsBlank(k)
    ensures SavedKeys(text) == AppendNew([], Storables(KeyLines(text)))
    ensures SavedKeys(text) == FirstOccurrences(Storables(KeyLines(text)), [])
  {
    var keys := KeyLines(text);
    SaveKeysIsMerge(keys);
    AppendNewMeans([], Storables(keys));
    assert [] + FirstOccurrences(Storables(keys), []) == FirstOccurrences(Storables(keys), []);
  }

  /** Keys without line breaks, each already trimmed and non-blank, come back from their joined text. */
  lemma {:induction false} KeyLinesJoin(keys: seq<string>)
    requires forall k :: k in keys ==> '\n' !in k && Trim(k) == k && !IsBlank(k)
    ensures KeyLines(Join(keys, "\n")) == keys
  {
    if |keys| == 0 {
      assert Split("", '\n') == [""];
      assert IsBlank(Trim(""));
    } else {
      assert forall i :: 0 <= i < |keys| ==> keys[i] in keys;
      SplitJoin(keys, '\n');
      TrimmedIdentity(keys);
    }
  }

  lemma {:induction false} TrimmedIdentity(keys: seq<string>)
    requires forall k :: k in keys ==> Trim(k) == k && !IsBlank(k)
    ensures TrimmedKeys(keys) == keys
    decreases |keys|
  {
    if |keys| > 0 {
      assert keys[0] in keys;
      assert forall k :: k in keys[1..] ==> k in keys;
      TrimmedIdentity(keys[1..]);
      assert [keys[0]] + keys[1..] == keys;
    }
  }

  /** Stored keys written one per line are stored again as they were. */
  lemma SavedKeysJoin(keys: seq<string>)
    requires Distinct(keys)
    requires forall k :: k in keys ==> '\n' !in k && Trim(k) == k && !IsBlank(k) && Storable(k)
    ensures SavedKeys(Join(keys, "\n")) == keys
  {
    KeyLinesJoin(keys);
    SaveKeysIsMerge(keys);
    StorablesIdentity(keys);
    AppendNewDistinct(keys);
  }

  lemma {:induction false} StorablesIdentity(keys: seq<string>)
    requires forall k :: k in keys ==> Storable(k)
    ensures Storables(keys) == keys
    decreases |keys|
  {
    if |keys| > 0 {
      var prev := keys[..|keys| - 1];
      assert keys == prev + [keys[|keys| - 1]];
      assert forall k :: k in prev ==> k in keys;
      StorablesIdentity(prev);
    }
  }

  // ---------------------------------------------------------------- masking

  /** One line of the masked area: bullets for each character up to 40, nothing for a blank line. */
  function MaskLine(line: string): (r: string)
    ensures IsBlank(line) ==> r == ""
    ensures !IsBlank(line) ==> |r| == (if |line| < MaskWidth then |line| else MaskWidth)
    ensures forall i :: 0 <= i < |r| ==> r[i] == Bullet
  {
    if Trim(line) != "" then Repeat(Bullet, if |line| < MaskWidth then |line| else MaskWidth) else ""
  }

  function MaskLines(ls: seq<string>): (r: seq<string>)
    ensures |r| == |ls|
    ensures forall i :: 0 <= i < |ls| ==> r[i] == MaskLine(ls[i])
    decreases |ls|
  {
    if |ls| == 0 then [] else [MaskLine(ls[0])] + MaskLines(ls[1..])
  }

  /** `text.lines().joinToString("\n") { … }`: the text the area shows while the keys are hidden. */
  function MaskedText(text: string): string {
    Join(MaskLines(Lines(text)), "\n")
  }

  /**
   * Masking keeps the number of lines: line `i` of the masked text is the
   * mask of line `i` of the text, bullets only.
   */
  lemma MaskedLines(text: string)
    ensures Lines(MaskedText(text)) == MaskLines(Lines(text))
    ensures |Lines(MaskedText(text))| == |Lines(text)|
    ensures forall i :: 0 <= i < |Lines(text)| ==> Lines(MaskedText(text))[i] == MaskLine(Lines(text)[i])
  {
    var ms := MaskLines(Lines(text));
    forall k | 0 <= k < |ms|
      ensures '\n' !in ms[k] && '\r' !in ms[k]
    {
      BulletsOnly(ms[k]);
    }
    LinesJoin(ms);
  }

  lemma BulletsOnly(s: string)
    requires forall i :: 0 <= i < |s| ==> s[i] == Bullet
    ensures '\n' !in s && '\r' !in s
    ensures |s| > 0 ==> Trim(s) == s && !IsBlank(s) && Bullet in s
  {
    if |s| > 0 {
      assert !IsWhitespace(s[0]);
      TrimNoOp(s);
    }
  }

  predicate AllBullets(s: string) {
    forall i :: 0 <= i < |s| ==> s[i] == Bullet
  }

  /** The masked text splits back into its masked lines. */
  lemma MaskedSplit(text: string)
    ensures Split(MaskedText(text), '\n') == MaskLines(Lines(text))
  {
    var ms := MaskLines(Lines(text));
    forall k | 0 <= k < |ms|
      ensures '\n' !in ms[k]
    {
      BulletsOnly(ms[k]);
    }
    SplitJoin(ms, '\n');
  }

  /** Pieces made of bullets only yield keys that hold a bullet. */
  lemma {:induction false} BulletKeys(ms: seq<string>)
    requires forall i :: 0 <= i < |ms| ==> AllBullets(ms[i])
    ensures forall k :: k in TrimmedKeys(ms) ==> Bullet in k
    decreases |ms|
  {
    if |ms| > 0 {
      BulletsOnly(ms[0]);
      assert forall i :: 0 <= i < |ms[1..]| ==> ms[1..][i] == ms[i + 1];
      BulletKeys(ms[1..]);
    }
  }

  /** Keys that all hold a bullet are none of them stored. */
  lemma {:induction false} NothingStorable(keys: seq<string>)
    requires forall k :: k in keys ==> Bullet in k
    ensures SaveKeys(keys) == []
    decreases |keys|
  {
    if |keys| > 0 {
      var prev := keys[..|keys| - 1];
      assert keys[|keys| - 1] in keys;
      assert forall k :: k in prev ==> k in keys;
      NothingStorable(prev);
    }
  }

  /** Nothing of a masked text is ever stored: every key read from it holds bullets. */
  lemma MaskedSavesNothing(text: string)
    ensures forall k :: k in KeyLines(MaskedText(text)) ==> Bullet in k
    ensures SavedKeys(MaskedText(text)) == []
  {
    var masked := MaskedText(text);
    MaskedSplit(text);
    BulletKeys(MaskLines(Lines(text)));
    assert KeyLines(masked) == TrimmedKeys(MaskLines(Lines(text)));
    NothingStorable(KeyLines(masked));
  }

  // ---------------------------------------------------------------- the page

  /** The work `updateKeysVisibility` hands to `SwingUtilities.invokeLater`: the text to show and the text to remember. */
  datatype Deferred = Deferred(hidden: string, original: string)

  /**
   * `updateKeysVisibility` reads the area when it runs, but writes it only
   * from the event queue; `RunLater` is that write, made once the handler
   * that queued it has returned.
   */
  class Page {
    var useDefaultKeys: bool
    var showKeys: bool
    var showEnabled: bool
    var areaEnabled: bool
    var text: string
    var originalText: Option<string>

    /** A fresh page: both boxes unticked and enabled, the area empty. */
    constructor ()
      ensures !useDefaultKeys && !showKeys && showEnabled && areaEnabled && text == "" && originalText == None
    {
      useDefaultKeys := false;
      showKeys := false;
      showEnabled := true;
      areaEnabled := true;
      text := "";
      originalText := None;
    }

    /**
     * `updateKeysVisibility`: with the keys shown only the font changes;
     * hidden, a non-empty text is masked, and the unmasked one kept, later.
     */
    method KeysVisibility() returns (later: Option<Deferred>)
      ensures showKeys || text == "" ==> later == None
      ensures !showKeys && text != "" ==> later == Some(Deferred(MaskedText(text), text))
      ensures later.Some? ==> Lines(later.value.hidden) == MaskLines(Lines(text))
    {
      if showKeys {
        return None;
      }
      if text == "" {
        return None;
      }
      var hiddenText := MaskedText(text);
      var original := text;
      MaskedLines(text);
      later := Some(Deferred(hiddenText, original));
    }

    /** The queued write of `updateKeysVisibility`. */
    method RunLater(later: Option<Deferred>)
      modifies this
      ensures later.None? ==> text == old(text) && originalText == old(originalText)
      ensures later.Some? ==> text == later.value.hidden && originalText == Some(later.value.original)
      ensures useDefaultKeys == old(useDefaultKeys) && showKeys == old(showKeys)
      ensures showEnabled == old(showEnabled) && areaEnabled == old(areaEnabled)
    {
      if later.Some? {
        text := later.value.hidden;
        originalText := Some(later.value.original);
      }
    }

    /**
     * `updateUIState`: the area and the show box are enabled exactly when the
     * default keys are not used; disabling them also unticks the show box and
     * hides the keys.
     */
    method UpdateUIState() returns (later: Option<Deferred>)
      modifies this
      ensures areaEnabled == !useDefaultKeys && showEnabled == !useDefaultKeys
      ensures useDefaultKeys ==> !showKeys && (text == "" <==> later.None?)
      ensures useDefaultKeys && later.Some? ==> later.value.hidden == MaskedText(text) && later.value.original == text
      ensures !useDefaultKeys ==> showKeys == old(showKeys) && later.None?
      ensures useDefaultKeys == old(useDefaultKeys) && text == old(text) && originalText == old(originalText)
    {
      var enabled := !useDefaultKeys;
      areaEnabled := enabled;
      showEnabled := enabled;
      later := None;
      if !enabled {
        showKeys := false;
        later := KeysVisibility();
      }
    }

    /**
     * The text `isModified` and `apply` read: the remembered unmasked text
     * when the show box is unticked and disabled, otherwise the area.
     */
    function CurrentText(): string
      reads this
    {
      if !showKeys && !showEnabled then
        match originalText
        case Some(t) => t
        case None => text
      else text
    }

    /**
     * `loadSettings`: the box and the area take the stored values; the two
     * visibility updates it triggers both read the unmasked keys.
     */
    method LoadSettings(settings: XmlTranslatorSettings)
      modifies this
      ensures useDefaultKeys == settings.useDefaultKeys
      ensures areaEnabled == !useDefaultKeys && showEnabled == !useDefaultKeys
      ensures showKeys == (!useDefaultKeys && old(showKeys))
      ensures var keysText := Join(settings.apiKeys, "\n");
        if !showKeys && keysText != "" then text == MaskedText(keysText) && originalText == Some(keysText)
        else text == keysText && originalText == old(originalText)
      ensures settings.useDefaultKeys && Join(settings.apiKeys, "\n") != "" ==> CurrentText() == Join(settings.apiKeys, "\n")
    {
      useDefaultKeys := settings.useDefaultKeys;
      text := Join(settings.apiKeys, "\n");
      var first := UpdateUIState();
      var second := KeysVisibility();
      RunLater(first);
      RunLater(second);
    }

    /** `isModified`: the box differs from the setting, or the keys read from the area differ from the stored list. */
    predicate IsModified(settings: XmlTranslatorSettings)
      reads this, settings
    {
      useDefaultKeys != settings.useDefaultKeys || KeyLines(CurrentText()) != settings.apiKeys
    }

    /** `apply`: the box is copied, the stored keys are cleared, then each acceptable line is added. */
    method Apply(settings: XmlTranslatorSettings)
      modifies settings
      ensures settings.useDefaultKeys == useDefaultKeys
      ensures settings.apiKeys == SavedKeys(CurrentText())
    {
      settings.useDefaultKeys := useDefaultKeys;
      settings.ClearApiKeys();
      var currentText := CurrentText();
      SaveAll(settings, KeyLines(currentText));
    }
  }

  /** The `forEach` of `apply` on a cleared list: each key that passes the test is added in turn. */
  method SaveAll(settings: XmlTranslatorSettings, keys: seq<string>)
    requires settings.apiKeys == []
    modifies settings
    ensures settings.apiKeys == SaveKeys(keys)
    ensures settings.useDefaultKeys == old(settings.useDefaultKeys)
  {
    for i := 0 to |keys|
      invariant settings.apiKeys == SaveKeys(keys[..i])
      invariant settings.useDefaultKeys == old(settings.useDefaultKeys)
    {
      var key := keys[i];
      assert keys[..i + 1] == keys[..i] + [key];
      if |key| >= MinKeyLength && Bullet !in key {
        settings.AddApiKey(key);
      }
    }
    assert keys[..|keys|] == keys;
  }

  /**
   * With the default keys in use, stored keys that `apply` would store come
   * back unchanged from a fresh load followed by `apply`, and the page is not
   * reported as modified.
   */
  lemma ReloadKeepsKeys(keys: seq<string>)
    requires |keys| > 0 && Distinct(keys)
    requires forall k :: k in keys ==> '\n' !in k && Trim(k) == k && !IsBlank(k) && Storable(k)
    ensures KeyLines(Join(keys, "\n")) == keys
    ensures SavedKeys(Join(keys, "\n")) == keys
  {
    KeyLinesJoin(keys);
    SavedKeysJoin(keys);
  }

  /**
   * With the default keys not in use and the show box unticked, the page
   * reads the masked area back: a load followed by `apply` stores no key at
   * all, and the page reports a change that was never made.
   */
  lemma HiddenKeysDiscarded(keys: seq<string>)
    requires |keys| > 0
    requires forall k :: k in keys ==> '\n' !in k && Trim(k) == k && !IsBlank(k) && Storable(k)
    ensures SavedKeys(MaskedText(Join(keys, "\n"))) == []
    ensures KeyLines(MaskedText(Join(keys, "\n"))) != keys
  {
    MaskedSavesNothing(Join(keys, "\n"));
    var shown := KeyLines(MaskedText(Join(keys, "\n")));
    assert keys[0] in keys && Bullet !in keys[0];
    assert keys[0] !in shown;
  }

  /**
   * The text `apply` evidently means to read: the remembered unmasked text
   * whenever the keys are hidden and one was remembered, whether or not the
   * show box is enabled.
   */
  function IntendedText(showKeys: bool, originalText: Option<string>, text: string): (r: string)
    ensures !showKeys && originalText.Some? ==> r == originalText.value
    ensures showKeys || originalText.None? ==> r == text
  {
    if !showKeys && originalText.Some? then originalText.value else text
  }

  /** Reading the intended text, a load followed by `apply` keeps the stored keys whether or not they are hidden. */
  lemma IntendedKeepsKeys(keys: seq<string>, showKeys: bool)
    requires |keys| > 0 && Distinct(keys)
    requires forall k :: k in keys ==> '\n' !in k && Trim(k) == k && !IsBlank(k) && Storable(k)
    ensures var keysText := Join(keys, "\n");
      var shown := if showKeys then keysText else MaskedText(keysText);
      SavedKeys(IntendedText(showKeys, Some(keysText), shown)) == keys
  {
    SavedKeysJoin(keys);
  }
}
