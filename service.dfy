/**
 * The TranslationService class of TranslationService.kt as an object: the
 * key cursor it owns, the settings it reads, the remote endpoint, the
 * requests it has sent and the files it writes. Each operation is proved to
 * leave the object in the state the functions of the Translation and
 * Batching modules describe, so their lemmas carry over to it.
 */
module Service {
  import opened Wrappers
  import opened Text
  import opened Gemini
  import opened KeyRotation
  import opened Settings
  import opened Translation
  import opened XmlEscape
  import opened XmlProcessor
  import opened Batching
  import StringFilter

  class TranslationService {
    const cursor: KeyCursor
    const settings: XmlTranslatorSettings
    const remote: Remote
    var sent: seq<Sent>
    var files: Files

    constructor (settings: XmlTranslatorSettings, remote: Remote, files: Files)
      ensures fresh(cursor) && cursor.index == 0 && sent == []
      ensures this.settings == settings && this.remote == remote && this.files == files
    {
      this.settings := settings;
      this.remote := remote;
      this.files := files;
      sent := [];
      cursor := new KeyCursor();
    }

    /** The service state as the specification functions see it. */
    function Snapshot(): State
      reads this, cursor
    {
      State(Client(cursor.index, sent), files)
    }

    /** The keys the settings report, as `getApiKeys` sees them. */
    function Keys(): Result<seq<string>>
      reads settings
    {
      settings.ValidKeys()
    }

    /** `getApiKeys` */
    method ApiKeys() returns (r: Result<seq<string>>)
      ensures r == GetApiKeys(Keys(), NoKeysMessage)
    {
      var valid := settings.GetValidApiKeys();
      r := GetApiKeys(valid, NoKeysMessage);
    }

    /** `getNextApiKey` */
    method NextApiKey() returns (key: Result<string>)
      modifies cursor
      ensures unchanged(settings)
      ensures var ks := GetApiKeys(Keys(), NoKeysMessage);
        if ks.Err? then key == Err(ks.message) && cursor.index == old(cursor.index)
        else key == KeyAt(ks.value, old(cursor.index)) && cursor.index == Advance(old(cursor.index), |ks.value|)
    {
      var keys := ApiKeys();
      key := cursor.NextApiKey(keys);
    }

    /** `callGeminiAPI` followed by `parseGeminiResponse`; the request goes into the log. */
    method CallAndParse(apiKey: string, request: TranslationRequest) returns (r: Result<TranslationResponse>)
      modifies this
      ensures r == Send(remote, |old(sent)|, apiKey, request)
      ensures sent == old(sent) + [Sent(apiKey, request)] && files == old(files) && unchanged(settings)
    {
      r := Send(remote, |sent|, apiKey, request);
      sent := sent + [Sent(apiKey, request)];
    }

    /** `makeTranslationRequest` */
    method MakeTranslationRequest(request: TranslationRequest) returns (r: Result<TranslationResponse>)
      modifies this, cursor
      ensures unchanged(settings)
      ensures var spec := Translation.MakeTranslationRequest(Keys(), old(Snapshot().client), request, remote);
        r == spec.result && Snapshot().client == spec.client && files == old(files)
    {
      var apiKey := NextApiKey();
      if apiKey.Err? {
        return Err(apiKey.message);
      }
      if |apiKey.value| < 10 {
        return Err(ShortKeyMessage(|apiKey.value|));
      }
      r := AttemptWithRetry(apiKey.value, request);
    }

    /** The try/catch of `makeTranslationRequest`, once the first key is drawn. */
    method AttemptWithRetry(apiKey: string, request: TranslationRequest) returns (r: Result<TranslationResponse>)
      requires GetApiKeys(Keys(), NoKeysMessage).Ok?
      requires cursor.index < |GetApiKeys(Keys(), NoKeysMessage).value|
      modifies this, cursor
      ensures unchanged(settings)
      ensures var spec := Attempts(GetApiKeys(Keys(), NoKeysMessage).value, old(Snapshot().client), apiKey, request, remote);
        r == spec.result && Snapshot().client == spec.client && files == old(files)
    {
      var response := CallAndParse(apiKey, request);
      if response.Ok? {
        return response;
      }
      // The settings have not changed since the first key was drawn, so the list is the same.
      var keys := ApiKeys();
      assert keys.Ok?;
      if |keys.value| > 1 {
        // The cursor was just reduced modulo the list length, so the retry key exists.
        var retryApiKey := NextApiKey();
        assert retryApiKey.Ok?;
        r := CallAndParse(retryApiKey.value, request);
      } else {
        r := response;
      }
    }

    /** `translateText` */
    method TranslateText(text: string, sourceLang: string, targetLang: string) returns (r: string)
      modifies this, cursor
      ensures unchanged(settings)
      ensures var spec := Translation.TranslateText(Keys(), old(Snapshot().client), text, sourceLang, targetLang, remote);
        r == spec.result && Snapshot().client == spec.client && files == old(files)
    {
      var request := TranslationRequest(sourceLang, targetLang, [StringItem(1, text, None)]);
      var response := MakeTranslationRequest(request);
      if response.Err? || response.value.translations.None? || |response.value.translations.value| == 0 {
        return text;
      }
      r := response.value.translations.value[0].text;
    }

    /** `translateStrings` */
    method TranslateStrings(strings: seq<(string, string)>, sourceLang: string, targetLang: string) returns (r: seq<(string, string)>)
      modifies this, cursor
      ensures unchanged(settings)
      ensures var spec := Translation.TranslateStrings(Keys(), old(Snapshot().client), strings, sourceLang, targetLang, remote);
        r == spec.result && Snapshot().client == spec.client && files == old(files)
    {
      var request := TranslationRequest(sourceLang, targetLang, Items(strings, 1));
      var response := MakeTranslationRequest(request);
      if response.Err? || response.value.translations.None? {
        return strings;
      }
      r := Zip(strings, Texts(response.value.translations.value));
    }

    /** `addOrUpdateStringInXml`, with this service's minimal escaping. */
    method AddOrUpdateStringInXml(path: string, stringName: string, text: string)
      modifies this
      ensures unchanged(settings)
      ensures files == AddToFile(old(files), path, stringName, text) && sent == old(sent)
    {
      var updated := AddOrUpdate(Lookup(files, path), Minimal, stringName, text);
      if updated.Some? {
        files := files[path := updated.value];
      }
    }

    /** The inner loop writing pairs one after another into one file. */
    method AddPairs(path: string, pairs: seq<(string, string)>)
      modifies this
      ensures unchanged(settings)
      ensures files == AddAll(old(files), path, pairs) && sent == old(sent)
    {
      var j := 0;
      while j < |pairs|
        invariant 0 <= j <= |pairs|
        invariant unchanged(settings)
        invariant AddAll(files, path, pairs[j..]) == AddAll(old(files), path, pairs) && sent == old(sent)
      {
        assert pairs[j..][1..] == pairs[j + 1..];
        var (stringName, text) := pairs[j];
        AddOrUpdateStringInXml(path, stringName, text);
        j := j + 1;
      }
    }

    /** The batch loop of `addBatchStringsToXmlFiles` for one target folder. */
    method TranslateBatchesInto(path: string, lang: string, batches: seq<seq<(string, string)>>)
      modifies this, cursor
      ensures unchanged(settings)
      ensures Snapshot() == TranslateBatches(Keys(), old(Snapshot()), path, lang, batches, remote)
    {
      ghost var keys := Keys();
      ghost var goal := TranslateBatches(keys, Snapshot(), path, lang, batches, remote);
      for batchIndex := 0 to |batches|
        invariant unchanged(settings)
        invariant TranslateBatches(keys, Snapshot(), path, lang, batches[batchIndex..], remote) == goal
      {
        TranslateBatchesFrom(keys, Snapshot(), path, lang, batches, batchIndex, remote);
        TranslateOneBatch(path, lang, batches[batchIndex]);
      }
    }

    /** One pass of the batch loop: translate the batch, then add its pairs to the file. */
    method TranslateOneBatch(path: string, lang: string, batch: seq<(string, string)>)
      modifies this, cursor
      ensures unchanged(settings)
      ensures Snapshot() == BatchStep(Keys(), old(Snapshot()), path, lang, batch, remote)
    {
      var translatedBatch := TranslateStrings(batch, "en", lang);
      AddPairs(path, Zip(batch, translatedBatch));
    }

    /**
     * `addBatchStringsToXmlFiles`: the error rethrown for a size that is not
     * positive, or `None` when every folder was processed.
     */
    method AddBatchStringsToXmlFiles(stringItems: seq<(string, string)>, resourceDir: string, targetFolders: seq<string>, batchSize: int)
      returns (error: Option<string>)
      modifies this, cursor
      ensures unchanged(settings)
      ensures var spec := Batching.AddBatchStringsToXmlFiles(Keys(), old(Snapshot()), stringItems, resourceDir, targetFolders, batchSize, remote);
        && (spec.Err? ==> error == Some(spec.message) && Snapshot() == old(Snapshot()))
        && (spec.Ok? ==> error == None && Snapshot() == spec.value)
    {
      if batchSize <= 0 {
        return Some(ChunkSizeError(batchSize));
      }
      var batches := Chunked(stringItems, batchSize);
      var i := 0;
      while i < |targetFolders|
        invariant 0 <= i <= |targetFolders|
        invariant unchanged(settings)
        invariant ProcessFolders(Keys(), Snapshot(), resourceDir, targetFolders[i..], stringItems, batches, remote)
          == ProcessFolders(Keys(), old(Snapshot()), resourceDir, targetFolders, stringItems, batches, remote)
      {
        assert targetFolders[i..][1..] == targetFolders[i + 1..];
        ProcessOneFolder(resourceDir, targetFolders[i], stringItems, batches);
        i := i + 1;
      }
      error := None;
    }

    /** One pass of the folder loop of `addBatchStringsToXmlFiles`. */
    method ProcessOneFolder(resourceDir: string, folder: string, stringItems: seq<(string, string)>, batches: seq<seq<(string, string)>>)
      modifies this, cursor
      ensures unchanged(settings)
      ensures Snapshot() == ProcessFolder(Keys(), old(Snapshot()), resourceDir, folder, stringItems, batches, remote)
    {
      var lang := RemovePrefix(folder, "values-");
      var path := StringsPath(resourceDir, folder);
      if folder == "values" {
        AddPairs(path, stringItems);
      } else {
        TranslateBatchesInto(path, lang, batches);
      }
    }

    /** `translateXmlFile` on the `<string>` elements of the input file, writing under `outputDir`. */
    method TranslateXmlFile(elements: seq<StringElement>, outputDir: string, targetLanguages: seq<string>)
      modifies this, cursor
      ensures unchanged(settings)
      ensures Snapshot() == Batching.TranslateXmlFile(Keys(), old(Snapshot()), elements, outputDir, targetLanguages, remote)
    {
      var stringElements := ExtractStringElements(elements);
      if |stringElements| == 0 {
        return;
      }
      TranslateAllLanguages(stringElements, outputDir, targetLanguages);
    }

    /** The language loop of `translateXmlFile`. */
    method TranslateAllLanguages(stringElements: seq<(string, string)>, outputDir: string, targetLanguages: seq<string>)
      modifies this, cursor
      ensures unchanged(settings)
      ensures Snapshot() == TranslateLanguages(Keys(), old(Snapshot()), outputDir, stringElements, targetLanguages, remote)
    {
      ghost var keys := Keys();
      ghost var goal := TranslateLanguages(keys, Snapshot(), outputDir, stringElements, targetLanguages, remote);
      for i := 0 to |targetLanguages|
        invariant unchanged(settings)
        invariant TranslateLanguages(keys, Snapshot(), outputDir, stringElements, targetLanguages[i..], remote) == goal
      {
        TranslateLanguagesFrom(keys, Snapshot(), outputDir, stringElements, targetLanguages, i, remote);
        TranslateOneLanguage(stringElements, outputDir, targetLanguages[i]);
      }
    }

    /** One pass of the language loop of `translateXmlFile`. */
    method TranslateOneLanguage(stringElements: seq<(string, string)>, outputDir: string, lang: string)
      modifies this, cursor
      ensures unchanged(settings)
      ensures Snapshot() == TranslateLanguage(Keys(), old(Snapshot()), outputDir, stringElements, lang, remote)
    {
      var translations := TranslateStrings(stringElements, "en", lang);
      var xmlContent := SaveTranslatedXml(Minimal, translations);
      files := files[LanguagePath(outputDir, lang) := xmlContent];
    }

    /** `addStringToXmlFiles` */
    method AddStringToXmlFiles(stringName: string, originalText: string, resourceDir: string, targetFolders: seq<string>)
      modifies this, cursor
      ensures unchanged(settings)
      ensures Snapshot() == AddStringToFolders(Keys(), old(Snapshot()), stringName, originalText, resourceDir, targetFolders, remote)
    {
      ghost var keys := Keys();
      ghost var goal := AddStringToFolders(keys, Snapshot(), stringName, originalText, resourceDir, targetFolders, remote);
      for i := 0 to |targetFolders|
        invariant unchanged(settings)
        invariant AddStringToFolders(keys, Snapshot(), stringName, originalText, resourceDir, targetFolders[i..], remote) == goal
      {
        AddStringToFoldersFrom(keys, Snapshot(), stringName, originalText, resourceDir, targetFolders, i, remote);
        AddStringToFolder(stringName, originalText, resourceDir, targetFolders[i]);
      }
    }

    /** One pass of the folder loop of `addStringToXmlFiles`. */
    method AddStringToFolder(stringName: string, originalText: string, resourceDir: string, folder: string)
      modifies this, cursor
      ensures unchanged(settings)
      ensures Snapshot() == AddStringStep(Keys(), old(Snapshot()), stringName, originalText, resourceDir, folder, remote)
    {
      var translatedText := TextForFolder(originalText, folder);
      AddOrUpdateStringInXml(StringsPath(resourceDir, folder), stringName, translatedText);
    }

    /** The text `addStringToXmlFiles` writes into one folder. */
    method TextForFolder(originalText: string, folder: string) returns (translatedText: string)
      modifies this, cursor
      ensures unchanged(settings)
      ensures var spec := FolderText(Keys(), old(Snapshot().client), originalText, folder, remote);
        translatedText == spec.result && Snapshot().client == spec.client && files == old(files)
    {
      translatedText := originalText;
      if folder != "values" {
        var lang := RemovePrefix(folder, "values-");
        translatedText := TranslateText(originalText, "en", lang);
      }
    }
  }
}
