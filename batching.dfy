/**
 * The file-writing operations of TranslationService.kt, as functions of the
 * service state and of the files under the project, a map from path to
 * content: `addBatchStringsToXmlFiles` (batches of `chunked(batchSize)`,
 * the `values` folder written with the originals, every other folder
 * translated into the folder name without `values-`), `translateXmlFile`
 * (one document per target language) and `addStringToXmlFiles`.
 * Every write goes through `addOrUpdateStringInXml` with this service's
 * minimal escaping, or through `saveTranslatedXml`.
 */
module Batching {
  import opened Wrappers
  import opened Text
  import opened Gemini
  import opened Translation
  import opened XmlEscape
  import opened XmlProcessor
  import StringFilter

  // ---------------------------------------------------------------- chunked

  /** `removePrefix` */
  function RemovePrefix(s: string, prefix: string): (r: string)
    ensures StartsWith(s, prefix) ==> s == prefix + r
    ensures !StartsWith(s, prefix) ==> r == s
  {
    if StartsWith(s, prefix) then s[|prefix|..] else s
  }

  /** `chunked(size)`: consecutive pieces of `size` elements, the last one possibly shorter. */
  function Chunked<T>(xs: seq<T>, size: nat): seq<seq<T>>
    requires size > 0
    decreases |xs|
  {
    if |xs| == 0 then [] else if |xs| <= size then [xs] else [xs[..size]] + Chunked(xs[size..], size)
  }

  function Flatten<T>(xss: seq<seq<T>>): seq<T>
    decreases |xss|
  {
    if |xss| == 0 then [] else xss[0] + Flatten(xss[1..])
  }

  /** The batches put back together are the input. */
  lemma {:induction false} ChunkedFlatten<T>(xs: seq<T>, size: nat)
    requires size > 0
    ensures Flatten(Chunked(xs, size)) == xs
    decreases |xs|
  {
    if |xs| > size {
      var rest := xs[size..];
      ChunkedFlatten(rest, size);
      var c := Chunked(xs, size);
      assert c[0] == xs[..size] && c[1..] == Chunked(rest, size);
      assert xs == xs[..size] + rest;
    } else if |xs| > 0 {
      var c := Chunked(xs, size);
      assert c == [xs];
      assert c[1..] == [];
      assert xs + [] == xs;
    }
  }

  /** Each batch holds between one and `size` elements, and every one but the last exactly `size`. */
  lemma {:induction false} ChunkedSizes<T>(xs: seq<T>, size: nat)
    requires size > 0
    ensures forall i :: 0 <= i < |Chunked(xs, size)| ==> 0 < |Chunked(xs, size)[i]| <= size
    ensures forall i :: 0 <= i < |Chunked(xs, size)| - 1 ==> |Chunked(xs, size)[i]| == size
    decreases |xs|
  {
    if |xs| > size {
      var rest := xs[size..];
      ChunkedSizes(rest, size);
      var c := Chunked(xs, size);
      assert c[0] == xs[..size];
      assert forall i :: 1 <= i < |c| ==> c[i] == Chunked(rest, size)[i - 1];
    }
  }

  /** There are ⌈n / size⌉ batches: the fewest that hold n elements of at most `size` each. */
  lemma {:induction false} ChunkedCount<T>(xs: seq<T>, size: nat)
    requires size > 0
    ensures (|Chunked(xs, size)| - 1) * size < |xs| <= |Chunked(xs, size)| * size
    decreases |xs|
  {
    if |xs| > size {
      ChunkedCount(xs[size..], size);
    }
  }

  /** The exception `chunked` throws for a size that is not positive. */
  function ChunkSizeError(size: int): string {
    "size " + IntToString(size) + " must be greater than zero."
  }

  // ---------------------------------------------------------------- files

  /** The files under the project: path to content. */
  type Files = map<string, string>

  function Lookup(files: Files, path: string): Option<string> {
    if path in files then Some(files[path]) else None
  }

  /** `File(resourceDir, "$folder/strings.xml")` */
  function StringsPath(dir: string, folder: string): string {
    dir + "/" + folder + "/strings.xml"
  }

  /** `addOrUpdateStringInXml` with this service's escaping, on the file at `path`. */
  function AddToFile(files: Files, path: string, name: string, text: string): (r: Files)
    ensures forall p :: p != path ==> Lookup(r, p) == Lookup(files, p)
    ensures Lookup(r, path) == FileAfter(Lookup(files, path), Minimal, name, text)
  {
    match FileAfter(Lookup(files, path), Minimal, name, text)
    case Some(content) => files[path := content]
    case None => files
  }

  /** The pairs added one after another to the file at `path`. */
  function AddAll(files: Files, path: string, pairs: seq<(string, string)>): Files
    decreases |pairs|
  {
    if |pairs| == 0 then files else AddAll(AddToFile(files, path, pairs[0].0, pairs[0].1), path, pairs[1..])
  }

  /** Adding to one file leaves every other file as it was. */
  lemma {:induction false} AddAllElsewhere(files: Files, path: string, pairs: seq<(string, string)>)
    ensures forall p :: p != path ==> Lookup(AddAll(files, path, pairs), p) == Lookup(files, p)
    decreases |pairs|
  {
    if |pairs| > 0 {
      AddAllElsewhere(AddToFile(files, path, pairs[0].0, pairs[0].1), path, pairs[1..]);
    }
  }

  /** Adding pairs in two runs is adding them in one. */
  lemma {:induction false} AddAllConcat(files: Files, path: string, a: seq<(string, string)>, b: seq<(string, string)>)
    ensures AddAll(files, path, a + b) == AddAll(AddAll(files, path, a), path, b)
    decreases |a|
  {
    if |a| > 0 {
      assert (a + b)[0] == a[0];
      assert (a + b)[1..] == a[1..] + b;
      AddAllConcat(AddToFile(files, path, a[0].0, a[0].1), path, a[1..], b);
    } else {
      assert a + b == b;
    }
  }

  // ---------------------------------------------------------------- addBatchStringsToXmlFiles

  /** The service state and the files. */
  datatype State = State(client: Client, files: Files)

  /** What is written for one batch: each original name with the translated text, by position. */
  function BatchPairs(keys: Result<seq<string>>, c: Client, batch: seq<(string, string)>, lang: string, remote: Remote): Reply<seq<(string, string)>> {
    var translated := TranslateStrings(keys, c, batch, "en", lang, remote);
    Reply(Zip(batch, translated.result), translated.client)
  }

  /**
   * The names written are the batch's names, in order; the texts are the
   * translations, or the original texts when the request failed.
   */
  lemma BatchPairsMeans(keys: Result<seq<string>>, c: Client, batch: seq<(string, string)>, lang: string, remote: Remote)
    ensures var r := BatchPairs(keys, c, batch, lang, remote);
      var response := MakeTranslationRequest(keys, c, StringsRequest(batch, "en", lang), remote);
      && r.result == TranslateStrings(keys, c, batch, "en", lang, remote).result
      && |r.result| <= |batch|
      && (forall i :: 0 <= i < |r.result| ==> r.result[i].0 == batch[i].0)
      && (response.result.Err? ==> r.result == batch)
  {
    TranslateStringsMeans(keys, c, batch, "en", lang, remote);
    ZipWithOwnTranslation(batch, TranslateStrings(keys, c, batch, "en", lang, remote).result);
  }

  /** The batch loop for one target folder. */
  function TranslateBatches(keys: Result<seq<string>>, st: State, path: string, lang: string, batches: seq<seq<(string, string)>>,
                            remote: Remote): State
    decreases |batches|
  {
    if |batches| == 0 then st
    else TranslateBatches(keys, BatchStep(keys, st, path, lang, batches[0], remote), path, lang, batches[1..], remote)
  }

  /** One pass of the batch loop: the batch is translated and its pairs are added to the target file. */
  function BatchStep(keys: Result<seq<string>>, st: State, path: string, lang: string, batch: seq<(string, string)>,
                     remote: Remote): State {
    var written := BatchPairs(keys, st.client, batch, lang, remote);
    State(written.client, AddAll(st.files, path, written.result))
  }

  /** The batches from `i` on: batch `i` first, then the rest. */
  lemma TranslateBatchesFrom(keys: Result<seq<string>>, st: State, path: string, lang: string, batches: seq<seq<(string, string)>>,
                             i: nat, remote: Remote)
    requires i < |batches|
    ensures TranslateBatches(keys, st, path, lang, batches[i..], remote)
      == TranslateBatches(keys, BatchStep(keys, st, path, lang, batches[i], remote), path, lang, batches[i + 1..], remote)
  {
    assert batches[i..][1..] == batches[i + 1..];
  }

  /** One folder: `values` gets the originals, any other folder the translations into its language. */
  function ProcessFolder(keys: Result<seq<string>>, st: State, dir: string, folder: string, items: seq<(string, string)>,
                         batches: seq<seq<(string, string)>>, remote: Remote): State {
    if folder == "values" then State(st.client, AddAll(st.files, StringsPath(dir, folder), items))
    else TranslateBatches(keys, st, StringsPath(dir, folder), RemovePrefix(folder, "values-"), batches, remote)
  }

  function ProcessFolders(keys: Result<seq<string>>, st: State, dir: string, folders: seq<string>, items: seq<(string, string)>,
                          batches: seq<seq<(string, string)>>, remote: Remote): State
    decreases |folders|
  {
    if |folders| == 0 then st
    else ProcessFolders(keys, ProcessFolder(keys, st, dir, folders[0], items, batches, remote), dir, folders[1..], items, batches, remote)
  }

  /** `addBatchStringsToXmlFiles`; a size that is not positive fails before anything is written. */
  function AddBatchStringsToXmlFiles(keys: Result<seq<string>>, st: State, items: seq<(string, string)>, dir: string,
                                     folders: seq<string>, batchSize: int, remote: Remote): Result<State> {
    if batchSize <= 0 then Err(ChunkSizeError(batchSize))
    else Ok(ProcessFolders(keys, st, dir, folders, items, Chunked(items, batchSize), remote))
  }

  /** A request in the log past position `from` asks for a translation from English into `lang` of one of `batches`. */
  predicate AsksFor(log: seq<Sent>, from: nat, lang: string, batches: seq<seq<(string, string)>>) {
    forall i :: from <= i < |log| ==>
      && log[i].request.sourceLanguage == "en"
      && log[i].request.targetLanguage == lang
      && exists b :: b in batches && log[i].request == StringsRequest(b, "en", lang)
  }

  /**
   * The batch loop only sends requests for its own batches in its own
   * language, and only writes the target file.
   */
  lemma {:induction false} TranslateBatchesMeans(keys: Result<seq<string>>, st: State, path: string, lang: string,
                                                batches: seq<seq<(string, string)>>, remote: Remote)
    ensures var r := TranslateBatches(keys, st, path, lang, batches, remote);
      && st.client.log <= r.client.log
      && AsksFor(r.client.log, |st.client.log|, lang, batches)
      && forall p :: p != path ==> Lookup(r.files, p) == Lookup(st.files, p)
    decreases |batches|
  {
    if |batches| > 0 {
      var written := BatchPairs(keys, st.client, batches[0], lang, remote);
      var next := BatchStep(keys, st, path, lang, batches[0], remote);
      AddAllElsewhere(st.files, path, written.result);
      TranslateBatchesMeans(keys, next, path, lang, batches[1..], remote);
      var r := TranslateBatches(keys, st, path, lang, batches, remote);
      forall i | |st.client.log| <= i < |r.client.log|
        ensures r.client.log[i].request.sourceLanguage == "en" && r.client.log[i].request.targetLanguage == lang
        ensures exists b :: b in batches && r.client.log[i].request == StringsRequest(b, "en", lang)
      {
        if i < |written.client.log| {
          assert r.client.log[i] == written.client.log[i];
          assert batches[0] in batches;
        } else {
          var b :| b in batches[1..] && r.client.log[i].request == StringsRequest(b, "en", lang);
          assert b in batches;
        }
      }
    }
  }

  /**
   * The `values` folder gets the original texts and costs no request; any
   * other folder is translated into its name without `values-`; no file but
   * the folder's own is written.
   */
  lemma ProcessFolderMeans(keys: Result<seq<string>>, st: State, dir: string, folder: string, items: seq<(string, string)>,
                           batches: seq<seq<(string, string)>>, remote: Remote)
    ensures var r := ProcessFolder(keys, st, dir, folder, items, batches, remote);
      && (folder == "values" ==> r.client == st.client && r.files == AddAll(st.files, StringsPath(dir, folder), items))
      && (folder != "values" ==> st.client.log <= r.client.log && AsksFor(r.client.log, |st.client.log|, RemovePrefix(folder, "values-"), batches))
      && forall p :: p != StringsPath(dir, folder) ==> Lookup(r.files, p) == Lookup(st.files, p)
  {
    AddAllElsewhere(st.files, StringsPath(dir, folder), items);
    TranslateBatchesMeans(keys, st, StringsPath(dir, folder), RemovePrefix(folder, "values-"), batches, remote);
  }

  /** Only the `strings.xml` files of the chosen folders are written. */
  lemma {:induction false} ProcessFoldersFrame(keys: Result<seq<string>>, st: State, dir: string, folders: seq<string>,
                                              items: seq<(string, string)>, batches: seq<seq<(string, string)>>, remote: Remote)
    ensures var r := ProcessFolders(keys, st, dir, folders, items, batches, remote);
      forall p :: (forall f :: f in folders ==> p != StringsPath(dir, f)) ==> Lookup(r.files, p) == Lookup(st.files, p)
    decreases |folders|
  {
    if |folders| > 0 {
      var next := ProcessFolder(keys, st, dir, folders[0], items, batches, remote);
      ProcessFolderMeans(keys, st, dir, folders[0], items, batches, remote);
      ProcessFoldersFrame(keys, next, dir, folders[1..], items, batches, remote);
      var r := ProcessFolders(keys, st, dir, folders, items, batches, remote);
      forall p | forall f :: f in folders ==> p != StringsPath(dir, f)
        ensures Lookup(r.files, p) == Lookup(st.files, p)
      {
        assert folders[0] in folders;
        assert forall f :: f in folders[1..] ==> f in folders;
      }
    }
  }

  /** A size that is not positive is refused before any request or write; otherwise the batches are `chunked(batchSize)`. */
  lemma AddBatchMeans(keys: Result<seq<string>>, st: State, items: seq<(string, string)>, dir: string,
                      folders: seq<string>, batchSize: int, remote: Remote)
    ensures var r := AddBatchStringsToXmlFiles(keys, st, items, dir, folders, batchSize, remote);
      && (r.Err? <==> batchSize <= 0)
      && (r.Err? ==> r.message == ChunkSizeError(batchSize))
      && (r.Ok? ==> forall p :: (forall f :: f in folders ==> p != StringsPath(dir, f)) ==> Lookup(r.value.files, p) == Lookup(st.files, p))
  {
    if batchSize > 0 {
      ProcessFoldersFrame(keys, st, dir, folders, items, Chunked(items, batchSize), remote);
    }
  }

  // ---------------------------------------------------------------- translateXmlFile

  /** `File(outputDir, "values-$lang/strings.xml")` */
  function LanguagePath(dir: string, lang: string): string {
    dir + "/values-" + lang + "/strings.xml"
  }

  /** One language of `translateXmlFile`: its translations, saved as a whole document under `values-<lang>`. */
  function TranslateLanguage(keys: Result<seq<string>>, st: State, dir: string, strs: seq<(string, string)>, lang: string,
                             remote: Remote): State {
    var t := TranslateStrings(keys, st.client, strs, "en", lang, remote);
    State(t.client, st.files[LanguagePath(dir, lang) := Document(Minimal, t.result)])
  }

  /** The per-language loop of `translateXmlFile`. */
  function TranslateLanguages(keys: Result<seq<string>>, st: State, dir: string, strs: seq<(string, string)>, languages: seq<string>,
                              remote: Remote): State
    decreases |languages|
  {
    if |languages| == 0 then st
    else TranslateLanguages(keys, TranslateLanguage(keys, st, dir, strs, languages[0], remote), dir, strs, languages[1..], remote)
  }

  /** The languages from `i` on: language `i` first, then the rest. */
  lemma TranslateLanguagesFrom(keys: Result<seq<string>>, st: State, dir: string, strs: seq<(string, string)>, languages: seq<string>,
                               i: nat, remote: Remote)
    requires i < |languages|
    ensures TranslateLanguages(keys, st, dir, strs, languages[i..], remote)
      == TranslateLanguages(keys, TranslateLanguage(keys, st, dir, strs, languages[i], remote), dir, strs, languages[i + 1..], remote)
  {
    assert languages[i..][1..] == languages[i + 1..];
  }

  /** `translateXmlFile` on the `<string>` elements of the input file: nothing happens when none is kept. */
  function TranslateXmlFile(keys: Result<seq<string>>, st: State, elements: seq<StringElement>, dir: string, languages: seq<string>,
                            remote: Remote): State {
    var strs := Extracted(elements, StringFilter.ExcludePatterns);
    if |strs| == 0 then st else TranslateLanguages(keys, st, dir, strs, languages, remote)
  }

  /**
   * Every target language ends with a document at its path, no other file
   * is touched, and every request asks for the kept strings in one of the
   * target languages.
   */
  lemma {:induction false} TranslateLanguagesMeans(keys: Result<seq<string>>, st: State, dir: string, strs: seq<(string, string)>,
                                                  languages: seq<string>, remote: Remote)
    ensures var r := TranslateLanguages(keys, st, dir, strs, languages, remote);
      && st.client.log <= r.client.log
      && (forall lang :: lang in languages ==> LanguagePath(dir, lang) in r.files)
      && (forall p :: (forall lang :: lang in languages ==> p != LanguagePath(dir, lang)) ==> Lookup(r.files, p) == Lookup(st.files, p))
      && (forall i :: |st.client.log| <= i < |r.client.log| ==>
            r.client.log[i].request.targetLanguage in languages && r.client.log[i].request.strings == Items(strs, 1))
    decreases |languages|
  {
    if |languages| > 0 {
      var t := TranslateStrings(keys, st.client, strs, "en", languages[0], remote);
      var next := State(t.client, st.files[LanguagePath(dir, languages[0]) := Document(Minimal, t.result)]);
      TranslateLanguagesMeans(keys, next, dir, strs, languages[1..], remote);
      var r := TranslateLanguages(keys, st, dir, strs, languages, remote);
      assert languages[0] in languages;
      assert forall lang :: lang in languages[1..] ==> lang in languages;
      forall lang | lang in languages
        ensures LanguagePath(dir, lang) in r.files
      {
        var p := LanguagePath(dir, lang);
        if lang !in languages[1..] {
          if forall l :: l in languages[1..] ==> p != LanguagePath(dir, l) {
            assert Lookup(r.files, p) == Lookup(next.files, p);
          } else {
            var l :| l in languages[1..] && p == LanguagePath(dir, l);
          }
        }
      }
    }
  }

  /** With no string kept, nothing is sent and nothing is written. */
  lemma NothingToTranslate(keys: Result<seq<string>>, st: State, elements: seq<StringElement>, dir: string, languages: seq<string>,
                           remote: Remote)
    requires forall e :: e in elements ==> !Kept(e, StringFilter.ExcludePatterns)
    ensures TranslateXmlFile(keys, st, elements, dir, languages, remote) == st
  {
    NoneKept(elements, StringFilter.ExcludePatterns);
  }

  lemma {:induction false} NoneKept(es: seq<StringElement>, ps: seq<StringFilter.Pattern>)
    requires forall e :: e in es ==> !Kept(e, ps)
    ensures Extracted(es, ps) == []
    decreases |es|
  {
    if |es| > 0 {
      assert es[|es| - 1] in es;
      NoneKept(es[..|es| - 1], ps);
    }
  }

  // ---------------------------------------------------------------- addStringToXmlFiles

  /** One folder of `addStringToXmlFiles`: the original text into `values`, a translation of it anywhere else. */
  function AddStringStep(keys: Result<seq<string>>, st: State, name: string, text: string, dir: string, folder: string,
                         remote: Remote): State {
    var translated := FolderText(keys, st.client, text, folder, remote);
    State(translated.client, AddToFile(st.files, StringsPath(dir, folder), name, translated.result))
  }

  /** The text one folder receives: the original for `values`, otherwise its translation into the folder's language. */
  function FolderText(keys: Result<seq<string>>, c: Client, text: string, folder: string, remote: Remote): Reply<string> {
    if folder == "values" then Reply(text, c)
    else TranslateText(keys, c, text, "en", RemovePrefix(folder, "values-"), remote)
  }

  /** `addStringToXmlFiles` */
  function AddStringToFolders(keys: Result<seq<string>>, st: State, name: string, text: string, dir: string, folders: seq<string>,
                              remote: Remote): State
    decreases |folders|
  {
    if |folders| == 0 then st
    else AddStringToFolders(keys, AddStringStep(keys, st, name, text, dir, folders[0], remote), name, text, dir, folders[1..], remote)
  }

  /** The folders from `i` on: folder `i` first, then the rest. */
  lemma AddStringToFoldersFrom(keys: Result<seq<string>>, st: State, name: string, text: string, dir: string, folders: seq<string>,
                               i: nat, remote: Remote)
    requires i < |folders|
    ensures AddStringToFolders(keys, st, name, text, dir, folders[i..], remote)
      == AddStringToFolders(keys, AddStringStep(keys, st, name, text, dir, folders[i], remote), name, text, dir, folders[i + 1..], remote)
  {
    assert folders[i..][1..] == folders[i + 1..];
  }

  /** Only the chosen folders' files are written, and only the non-`values` folders cost requests. */
  lemma {:induction false} AddStringToFoldersMeans(keys: Result<seq<string>>, st: State, name: string, text: string, dir: string,
                                                  folders: seq<string>, remote: Remote)
    ensures var r := AddStringToFolders(keys, st, name, text, dir, folders, remote);
      && st.client.log <= r.client.log
      && ((forall f :: f in folders ==> f == "values") ==> r.client == st.client)
      && forall p :: (forall f :: f in folders ==> p != StringsPath(dir, f)) ==> Lookup(r.files, p) == Lookup(st.files, p)
    decreases |folders|
  {
    if |folders| > 0 {
      var next := AddStringStep(keys, st, name, text, dir, folders[0], remote);
      AddStringToFoldersMeans(keys, next, name, text, dir, folders[1..], remote);
      assert folders[0] in folders;
      assert forall f :: f in folders[1..] ==> f in folders;
    }
  }

  /** Added to `values`, the text is the original one. */
  lemma ValuesGetsOriginal(keys: Result<seq<string>>, st: State, name: string, text: string, dir: string, folders: seq<string>,
                           remote: Remote)
    requires |folders| > 0 && folders[0] == "values"
    ensures AddStringToFolders(keys, st, name, text, dir, folders, remote)
      == AddStringToFolders(keys, State(st.client, AddToFile(st.files, StringsPath(dir, "values"), name, text)), name, text, dir, folders[1..], remote)
  {
  }
}
