/**
 * XmlTranslatorSettings.kt: the stored list of user API keys, the switch
 * that adds the default keys, the format check for a key, and the merge
 * that produces the keys the services rotate through. The environment
 * variables, the system property and the bundled properties file the
 * default keys come from are inputs (`KeySources`).
 */
module Settings {
  import opened Wrappers
  import opened Text

  // ---------------------------------------------------------------- key format

  /** `isValidApiKey`: the Google AI key prefix, at least 35 characters, no placeholder text. */
  function IsValidApiKey(key: string): (r: bool)
    ensures r ==> |key| >= 35 && !IsBlank(key)
  {
    assert |key| >= 6 ==> key[0] == key[..6][0];
    StartsWith(key, "AIzaSy") && |key| >= 35 && !Contains(key, "REPLACE_WITH") && !Contains(key, "YOUR_ACTUAL")
  }

  /** The placeholders shipped in the bundled file are refused, whatever surrounds them. */
  lemma PlaceholdersRefused(before: string, after: string)
    ensures !IsValidApiKey(before + "REPLACE_WITH" + after)
    ensures !IsValidApiKey(before + "YOUR_ACTUAL" + after)
  {
    var s1 := before + "REPLACE_WITH" + after;
    assert s1[|before|..][..12] == "REPLACE_WITH";
    ContainsAt(s1, |before|, "REPLACE_WITH");
    var s2 := before + "YOUR_ACTUAL" + after;
    assert s2[|before|..][..11] == "YOUR_ACTUAL";
    ContainsAt(s2, |before|, "YOUR_ACTUAL");
  }

  // ---------------------------------------------------------------- default keys

  /** What loading the bundled `default-keys.properties` gives: nothing, a failure, or its two entries. */
  datatype PropertiesResource = Missing | Unreadable | Loaded(key1: Option<string>, key2: Option<string>)

  /**
   * The places default keys come from: the variables `GOOGLE_AI_API_KEY`,
   * `GOOGLE_AI_API_KEY_1` and `GOOGLE_AI_API_KEY_2`, the system property
   * `google.ai.api.key`, and the bundled properties file.
   */
  datatype KeySources = KeySources(
    env: Option<string>, env1: Option<string>, env2: Option<string>,
    property: Option<string>, resource: PropertiesResource)

  /** A candidate value is taken when it is set, not blank and well-formed. */
  predicate Usable(v: Option<string>) {
    v.Some? && !IsBlank(v.value) && IsValidApiKey(v.value)
  }

  function AddIfUsable(keys: seq<string>, v: Option<string>): seq<string> {
    if Usable(v) then keys + [v.value] else keys
  }

  /** The keys taken from the three environment variables, in that order, repeats kept. */
  function EnvironmentKeys(src: KeySources): seq<string> {
    AddIfUsable(AddIfUsable(AddIfUsable([], src.env), src.env1), src.env2)
  }

  /** The keys taken from the properties file, when it could be loaded. */
  function ResourceKeys(res: PropertiesResource): seq<string> {
    match res
    case Loaded(k1, k2) => AddIfUsable(AddIfUsable([], k1), k2)
    case _ => []
  }

  /** `getDefaultApiKeys` */
  function DefaultApiKeys(src: KeySources): seq<string> {
    var fromEnv := EnvironmentKeys(src);
    var keys := if Usable(src.property) && src.property.value !in fromEnv then fromEnv + [src.property.value] else fromEnv;
    if |keys| > 0 then keys else ResourceKeys(src.resource)
  }

  /** Every default key is well-formed. */
  lemma DefaultKeysValid(src: KeySources)
    ensures forall k :: k in DefaultApiKeys(src) ==> IsValidApiKey(k)
  {
  }

  /** The environment keys come first, in variable order. */
  lemma EnvironmentKeysFirst(src: KeySources)
    ensures EnvironmentKeys(src) <= DefaultApiKeys(src)
  {
    var e := EnvironmentKeys(src);
    if |e| == 0 {
      assert DefaultApiKeys(src)[..0] == e;
    } else if Usable(src.property) && src.property.value !in e {
      assert (e + [src.property.value])[..|e|] == e;
    } else {
      assert e[..|e|] == e;
    }
  }

  /** The system property adds a key only when no variable gave the same one. */
  lemma PropertyNotRepeated(src: KeySources)
    requires Usable(src.property)
    ensures src.property.value in DefaultApiKeys(src)
    ensures src.property.value in EnvironmentKeys(src) ==> DefaultApiKeys(src) == EnvironmentKeys(src)
    ensures src.property.value !in EnvironmentKeys(src) ==> DefaultApiKeys(src) == EnvironmentKeys(src) + [src.property.value]
  {
  }

  /** The properties file is read only when neither the variables nor the property gave a key. */
  lemma ResourceOnlyAsFallback(src: KeySources)
    ensures (Usable(src.env) || Usable(src.env1) || Usable(src.env2) || Usable(src.property))
      ==> DefaultApiKeys(src) == DefaultApiKeys(src.(resource := Missing))
    ensures !(Usable(src.env) || Usable(src.env1) || Usable(src.env2) || Usable(src.property))
      ==> DefaultApiKeys(src) == ResourceKeys(src.resource)
  {
  }

  // ---------------------------------------------------------------- merge

  /** `apiKeys.filter { it.isNotBlank() }` */
  function NonBlank(keys: seq<string>): (r: seq<string>)
    ensures forall k :: k in r <==> k in keys && !IsBlank(k)
    decreases |keys|
  {
    if |keys| == 0 then []
    else (if IsBlank(keys[0]) then [] else [keys[0]]) + NonBlank(keys[1..])
  }

  /** One step of the merge: a key is appended unless already present. */
  function AppendIfNew(acc: seq<string>, key: string): seq<string> {
    if key in acc then acc else acc + [key]
  }

  /** The merge loop: each key of `keys`, in order, appended to `acc` unless already present. */
  function AppendNew(acc: seq<string>, keys: seq<string>): seq<string>
    decreases |keys|
  {
    if |keys| == 0 then acc else AppendIfNew(AppendNew(acc, keys[..|keys| - 1]), keys[|keys| - 1])
  }

  predicate Distinct(s: seq<string>) {
    forall i, j :: 0 <= i < j < |s| ==> s[i] != s[j]
  }

  /**
   * The merge keeps what was there as a prefix and appends the keys of
   * `keys` not yet present, in the order they first occur, none twice.
   */
  lemma {:induction false} AppendNewMeans(acc: seq<string>, keys: seq<string>)
    ensures AppendNew(acc, keys) == acc + FirstOccurrences(keys, acc)
    ensures acc <= AppendNew(acc, keys)
    ensures forall k :: k in AppendNew(acc, keys) <==> k in acc || k in keys
    ensures forall i, j :: |acc| <= i < j < |AppendNew(acc, keys)| ==> AppendNew(acc, keys)[i] != AppendNew(acc, keys)[j]
    ensures forall i, j :: 0 <= i < |acc| <= j < |AppendNew(acc, keys)| ==> AppendNew(acc, keys)[i] != AppendNew(acc, keys)[j]
    decreases |keys|
  {
    AppendNewOrder(acc, keys);
    if |keys| > 0 {
      var prev := keys[..|keys| - 1];
      AppendNewMeans(acc, prev);
      assert keys == prev + [keys[|keys| - 1]];
      var m := AppendNew(acc, prev);
      var key := keys[|keys| - 1];
      if key !in m {
        assert (m + [key])[..|acc|] == m[..|acc|];
      }
    }
  }

  /** A list without repeats is merged into an empty list unchanged. */
  lemma {:induction false} AppendNewDistinct(keys: seq<string>)
    requires Distinct(keys)
    ensures AppendNew([], keys) == keys
    decreases |keys|
  {
    if |keys| > 0 {
      var prev := keys[..|keys| - 1];
      AppendNewDistinct(prev);
      assert keys == prev + [keys[|keys| - 1]];
    }
  }

  /**
   * The keys of `keys` in first-occurrence order, leaving out those in
   * `seen`: a key is emitted the first time it is met and is skipped from
   * then on.
   */
  function FirstOccurrences(keys: seq<string>, seen: seq<string>): (r: seq<string>)
    ensures forall k :: k in r <==> k in keys && k !in seen
    decreases |keys|
  {
    if |keys| == 0 then []
    else if keys[0] in seen then FirstOccurrences(keys[1..], seen)
    else [keys[0]] + FirstOccurrences(keys[1..], seen + [keys[0]])
  }

  /** Merging `[key] + rest` is merging `key` first and `rest` after it. */
  lemma {:induction false} AppendNewCons(acc: seq<string>, key: string, rest: seq<string>)
    ensures AppendNew(acc, [key] + rest) == AppendNew(AppendIfNew(acc, key), rest)
    decreases |rest|
  {
    var keys := [key] + rest;
    if |rest| == 0 {
      assert keys[..|keys| - 1] == [];
    } else {
      assert keys[..|keys| - 1] == [key] + rest[..|rest| - 1];
      AppendNewCons(acc, key, rest[..|rest| - 1]);
    }
  }

  /** Merged into an empty list, the keys keep their first occurrences only, in order. */
  lemma MergedIntoNothing(keys: seq<string>)
    ensures AppendNew([], keys) == FirstOccurrences(keys, [])
    ensures Distinct(AppendNew([], keys))
  {
    AppendNewMeans([], keys);
    assert [] + FirstOccurrences(keys, []) == FirstOccurrences(keys, []);
  }

  /** The merge appends the keys not yet present in the order they first occur. */
  lemma {:induction false} AppendNewOrder(acc: seq<string>, keys: seq<string>)
    ensures AppendNew(acc, keys) == acc + FirstOccurrences(keys, acc)
    decreases |keys|
  {
    if |keys| == 0 {
      assert acc + [] == acc;
    } else {
      var key, rest := keys[0], keys[1..];
      assert keys == [key] + rest;
      AppendNewCons(acc, key, rest);
      AppendNewOrder(AppendIfNew(acc, key), rest);
      if key !in acc {
        assert acc + [key] + FirstOccurrences(rest, acc + [key]) == acc + ([key] + FirstOccurrences(rest, acc + [key]));
      }
    }
  }

  /** The message `getValidApiKeys` throws when no key is found at all. */
  function NoKeyFoundMessage(): string {
    Terminated([
      "❌ Không tìm thấy API key nào!",
      "",
      "Hướng dẫn khắc phục:",
      "1. Lấy API key miễn phí tại: https://aistudio.google.com/app/apikey",
      "2. Vào Settings > Tools > XML Translator",
      "3. Thêm API key vào mục 'Additional API Keys'",
      "",
      "Hoặc set environment variable:",
      "export GOOGLE_AI_API_KEY=your_api_key_here"])
  }

  /** `getValidApiKeys`: the defaults when enabled, then the new non-blank user keys; an error when empty. */
  function ValidApiKeys(useDefaultKeys: bool, defaults: seq<string>, apiKeys: seq<string>): (r: Result<seq<string>>)
  {
    var all := AppendNew(if useDefaultKeys then defaults else [], NonBlank(apiKeys));
    if |all| == 0 then Err(NoKeyFoundMessage()) else Ok(all)
  }

  /**
   * With the defaults enabled they all come first, in their order; the
   * non-blank user keys not among them follow in first-occurrence order;
   * nothing else is present; the result is empty only as an error.
   */
  lemma ValidApiKeysMeans(useDefaultKeys: bool, defaults: seq<string>, apiKeys: seq<string>)
    ensures ValidApiKeys(useDefaultKeys, defaults, apiKeys).Ok? ==> |ValidApiKeys(useDefaultKeys, defaults, apiKeys).value| > 0
    ensures ValidApiKeys(useDefaultKeys, defaults, apiKeys).Err?
      <==> (!useDefaultKeys || |defaults| == 0) && forall k :: k in apiKeys ==> IsBlank(k)
    ensures ValidApiKeys(useDefaultKeys, defaults, apiKeys).Ok? && useDefaultKeys
      ==> defaults <= ValidApiKeys(useDefaultKeys, defaults, apiKeys).value
    ensures ValidApiKeys(useDefaultKeys, defaults, apiKeys).Ok? ==>
      forall k :: k in ValidApiKeys(useDefaultKeys, defaults, apiKeys).value
        <==> (useDefaultKeys && k in defaults) || (k in apiKeys && !IsBlank(k))
    ensures ValidApiKeys(useDefaultKeys, defaults, apiKeys).Ok? ==>
      var base := if useDefaultKeys then defaults else [];
      ValidApiKeys(useDefaultKeys, defaults, apiKeys).value == base + FirstOccurrences(NonBlank(apiKeys), base)
  {
    var base := if useDefaultKeys then defaults else [];
    AppendNewMeans(base, NonBlank(apiKeys));
    var all := AppendNew(base, NonBlank(apiKeys));
    if |all| == 0 {
      assert |base| == 0;
      forall k | k in apiKeys
        ensures IsBlank(k)
      {
        assert k in NonBlank(apiKeys) ==> k in all;
      }
    } else if |base| == 0 {
      var k :| k in all;
      assert k in NonBlank(apiKeys);
    }
  }

  /**
   * Without the defaults, the result is the non-blank user keys in
   * first-occurrence order without repeats, and a stored list that has no
   * repeats comes back as it is.
   */
  lemma UserKeysOnly(apiKeys: seq<string>)
    requires exists k :: k in apiKeys && !IsBlank(k)
    ensures ValidApiKeys(false, [], apiKeys).Ok?
    ensures ValidApiKeys(false, [], apiKeys).value == FirstOccurrences(NonBlank(apiKeys), [])
    ensures Distinct(ValidApiKeys(false, [], apiKeys).value)
    ensures Distinct(NonBlank(apiKeys)) ==> ValidApiKeys(false, [], apiKeys).value == NonBlank(apiKeys)
  {
    var user := NonBlank(apiKeys);
    var all := AppendNew([], user);
    MergedIntoNothing(user);
    var k :| k in apiKeys && !IsBlank(k);
    assert k in all;
    assert ValidApiKeys(false, [], apiKeys) == Ok(all);
    if Distinct(user) {
      AppendNewDistinct(user);
    }
  }

  // ---------------------------------------------------------------- stored list edits

  /** `addApiKey`: appended unless blank or already stored. */
  function AddKey(keys: seq<string>, key: string): seq<string> {
    if !IsBlank(key) && key !in keys then keys + [key] else keys
  }

  /** `MutableList.remove`: the first occurrence goes, nothing else. */
  function RemoveFirst(keys: seq<string>, key: string): (r: seq<string>)
    decreases |keys|
  {
    if |keys| == 0 then []
    else if keys[0] == key then keys[1..]
    else [keys[0]] + RemoveFirst(keys[1..], key)
  }

  /**
   * Adding keeps the stored keys free of repeats and blanks, makes the key
   * present unless it is blank, and leaves the list as it was for a blank
   * or already stored key.
   */
  lemma AddKeyMeans(keys: seq<string>, key: string)
    ensures IsBlank(key) || key in keys ==> AddKey(keys, key) == keys
    ensures Distinct(keys) ==> Distinct(AddKey(keys, key))
    ensures (forall k :: k in keys ==> !IsBlank(k)) ==> forall k :: k in AddKey(keys, key) ==> !IsBlank(k)
    ensures key in AddKey(keys, key) <==> key in keys || !IsBlank(key)
    ensures keys <= AddKey(keys, key) && |AddKey(keys, key)| <= |keys| + 1
  {
    assert (keys + [key])[..|keys|] == keys;
    assert keys[..|keys|] == keys;
  }

  /**
   * Removing takes out exactly the first occurrence of the key when there
   * is one, keeping the others in order, and changes nothing when there is
   * none.
   */
  lemma RemoveFirstMeans(keys: seq<string>, key: string)
    ensures multiset(RemoveFirst(keys, key)) == multiset(keys) - multiset{key}
    ensures key !in keys ==> RemoveFirst(keys, key) == keys
    ensures key in keys ==> |RemoveFirst(keys, key)| == |keys| - 1
    ensures forall i :: 0 <= i < |keys| && keys[i] == key && key !in keys[..i] ==>
      RemoveFirst(keys, key) == keys[..i] + keys[i + 1..]
  {
    forall i | 0 <= i < |keys| && keys[i] == key && key !in keys[..i]
      ensures RemoveFirst(keys, key) == keys[..i] + keys[i + 1..]
    {
      RemoveFirstAt(keys, key, i);
    }
    RemoveFirstCount(keys, key);
    RemoveFirstAbsent(keys, key);
    assert |multiset(RemoveFirst(keys, key))| == |RemoveFirst(keys, key)|;
  }

  lemma {:induction false} RemoveFirstCount(keys: seq<string>, key: string)
    ensures multiset(RemoveFirst(keys, key)) == multiset(keys) - multiset{key}
    decreases |keys|
  {
    if |keys| > 0 {
      var rest := keys[1..];
      assert keys == [keys[0]] + rest;
      assert multiset(keys) == multiset{keys[0]} + multiset(rest);
      if keys[0] != key {
        RemoveFirstCount(rest, key);
        assert multiset(RemoveFirst(keys, key)) == multiset{keys[0]} + multiset(RemoveFirst(rest, key));
      }
    }
  }

  lemma {:induction false} RemoveFirstAt(keys: seq<string>, key: string, i: nat)
    requires i < |keys| && keys[i] == key && key !in keys[..i]
    ensures RemoveFirst(keys, key) == keys[..i] + keys[i + 1..]
    decreases i
  {
    if i > 0 {
      assert keys[0] == keys[..i][0];
      assert keys[1..][..i - 1] == keys[1..i];
      RemoveFirstAt(keys[1..], key, i - 1);
      assert [keys[0]] + keys[1..i] == keys[..i];
      assert keys[1..][i..] == keys[i + 1..];
    }
  }

  lemma {:induction false} RemoveFirstAbsent(keys: seq<string>, key: string)
    ensures key !in keys ==> RemoveFirst(keys, key) == keys
    decreases |keys|
  {
    if |keys| > 0 && key !in keys {
      assert key !in keys[1..];
      RemoveFirstAbsent(keys[1..], key);
      assert keys == [keys[0]] + keys[1..];
    }
  }

  /** It is the first occurrence that goes: everything up to it keeps its place. */
  lemma {:induction false} RemoveFirstKeepsBefore(keys: seq<string>, key: string, i: nat)
    requires i < |keys| && key !in keys[..i + 1]
    ensures i < |RemoveFirst(keys, key)| && RemoveFirst(keys, key)[i] == keys[i]
    decreases i
  {
    assert keys[0] == keys[..i + 1][0];
    if i > 0 {
      assert keys[1..][..i] == keys[1..i + 1];
      RemoveFirstKeepsBefore(keys[1..], key, i - 1);
    }
  }

  // ---------------------------------------------------------------- the settings object

  /** The check `getDefaultApiKeys` applies to each candidate before appending it. */
  method AppendIfUsable(keys: seq<string>, v: Option<string>) returns (r: seq<string>)
    ensures r == AddIfUsable(keys, v)
    ensures |r| <= |keys| + 1 && keys <= r
    ensures |r| == |keys| + 1 <==> Usable(v)
  {
    r := keys;
    if v.Some? {
      var key := v.value;
      if !IsBlank(key) && IsValidApiKey(key) { r := r + [key]; }
    }
  }

  /** The persisted settings: the user keys and the default-keys switch. */
  class XmlTranslatorSettings {
    var apiKeys: seq<string>
    var useDefaultKeys: bool
    const sources: KeySources

    constructor (sources: KeySources)
      ensures apiKeys == [] && useDefaultKeys && this.sources == sources
    {
      apiKeys := [];
      useDefaultKeys := true;
      this.sources := sources;
    }

    /** `getDefaultApiKeys`, appending candidate by candidate. */
    method GetDefaultApiKeys() returns (keys: seq<string>)
      ensures keys == DefaultApiKeys(sources)
    {
      keys := [];
      keys := AppendIfUsable(keys, sources.env);
      keys := AppendIfUsable(keys, sources.env1);
      keys := AppendIfUsable(keys, sources.env2);
      assert keys == EnvironmentKeys(sources);
      if sources.property.Some? {
        var key := sources.property.value;
        if !IsBlank(key) && IsValidApiKey(key) && key !in keys { keys := keys + [key]; }
      }
      if |keys| == 0 {
        match sources.resource {
          case Loaded(k1, k2) =>
            keys := AppendIfUsable(keys, k1);
            keys := AppendIfUsable(keys, k2);
          case Missing =>
          case Unreadable =>
        }
      }
    }

    /** The keys `getValidApiKeys` produces in the current state. */
    function ValidKeys(): (r: Result<seq<string>>)
      reads this
      ensures r.Ok? ==> |r.value| > 0
    {
      ValidApiKeys(useDefaultKeys, DefaultApiKeys(sources), apiKeys)
    }

    /** `getValidApiKeys`, with its merge loop. */
    method GetValidApiKeys() returns (r: Result<seq<string>>)
      ensures r == ValidApiKeys(useDefaultKeys, DefaultApiKeys(sources), apiKeys)
    {
      var allKeys: seq<string> := [];
      if useDefaultKeys {
        var defaultKeys := GetDefaultApiKeys();
        allKeys := defaultKeys;
      }
      ghost var base := allKeys;
      var userKeys := NonBlank(apiKeys);
      var i := 0;
      while i < |userKeys|
        invariant 0 <= i <= |userKeys|
        invariant allKeys == AppendNew(base, userKeys[..i])
      {
        var key := userKeys[i];
        assert userKeys[..i + 1][..i] == userKeys[..i];
        if key !in allKeys {
          allKeys := allKeys + [key];
        }
        i := i + 1;
      }
      assert userKeys[..i] == userKeys;
      assert base == if useDefaultKeys then DefaultApiKeys(sources) else [];
      if |allKeys| == 0 {
        return Err(NoKeyFoundMessage());
      }
      return Ok(allKeys);
    }

    /** `addApiKey` */
    method AddApiKey(key: string)
      modifies this
      ensures apiKeys == AddKey(old(apiKeys), key) && useDefaultKeys == old(useDefaultKeys)
    {
      if !IsBlank(key) && key !in apiKeys {
        apiKeys := apiKeys + [key];
      }
    }

    /** `removeApiKey` */
    method RemoveApiKey(key: string)
      modifies this
      ensures apiKeys == RemoveFirst(old(apiKeys), key) && useDefaultKeys == old(useDefaultKeys)
    {
      apiKeys := RemoveFirst(apiKeys, key);
    }

    /** `clearApiKeys` */
    method ClearApiKeys()
      modifies this
      ensures apiKeys == [] && useDefaultKeys == old(useDefaultKeys)
    {
      apiKeys := [];
    }
  }
}
