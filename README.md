# XML Translator plugin — a Dafny model

This project models the core of the XML Translator IntelliJ/Android Studio
plugin, which translates the `<string>` resources of an Android project with
the Gemini API and writes the results into the `values-<lang>/strings.xml`
files of each target language.

The model covers:

- **the resource folder filter** (`StringFilter`): which `values*` folders hold
  translatable strings, following the qualifier table the plugin uses to
  exclude screen-size, density, night-mode, API-level and similar folders;
  the copy of that filter inside `TranslationService` is the same rule;
- **the strings.xml codec** (`XmlEscape`, `XmlProcessor`): escaping of text
  written into a file, reading `<string>` elements back, adding or replacing
  one entry, building a whole file for a batch, and the decoding of escaped
  text for display;
- **the translation client** (`Gemini`, `KeyRotation`, `Api`, `Translation`):
  the JSON request and reply shapes, removal of a code fence around the
  reply, pairing of translations with source strings by position (the ids
  sent are not read back), the round-robin key cursor, one retry with the next
  key after a failed call (but not after a timeout), and the request timeout;
- **batching** (`Batching`, `Service`): translation of every source string in
  chunks, per language, and writing each language's file;
- **settings** (`Settings`, `Configurable`): the stored key list, the
  default-key switch, key validation, masking of keys on the settings page,
  and what the page reads back and stores;
- **the tool window helpers** (`Sorting`, `BulkDecode`, `Panel`): sorting of
  rows, the bulk `<string>` paste box, the language list and the import
  template.

Objects whose fields the plugin updates in place are classes
(`Api.ApiService`, `KeyRotation.KeyCursor`, `Settings.XmlTranslatorSettings`,
`Service.TranslationService`, `Configurable.Page`, `Panel.ToolWindow`); each
state-changing method is specified against a function of the old state, and
the properties are proved about those functions.

## Model

| member | source | states |
|---|---|---|
| XmlEscape.EscapeMinimal | src/main/java/com/xmltranslator/services/TranslationService.kt:705-712 | the escaping of `addOrUpdateStringInXml`: bare ampersands, then apostrophes; characterised by `EscapeMinimalSafe`, `EscapeMinimalIdempotent` and `EscapeMinimalPlain` |
| XmlEscape.EscapeFull | src/main/java/com/xmltranslator/services/XmlProcessor.kt:142-152 | the escaping of `escapeXml`: the minimal chain, then newline, tab and carriage return as backslash sequences; characterised by `EscapeFullSafe`, `EscapeFullIdempotent`, `EscapeFullSplit` and `BulkDecode.RoundTrip` |
| XmlEscape.AmpersandsEscapedAfter | src/main/java/com/xmltranslator/services/XmlProcessor.kt:146 | after the ampersand regex every `&` of the text begins an entity-like run `[a-zA-Z0-9#]+;` |
| XmlEscape.AmpersandsIdentity | src/main/java/com/xmltranslator/services/XmlProcessor.kt:146 | the ampersand replacement leaves a text whose ampersands all begin entities unchanged |
| XmlEscape.ReplaceKeepsEscaped | src/main/java/com/xmltranslator/services/XmlProcessor.kt:147-150 | the literal replacements that follow the regex cannot create a bare ampersand |
| XmlEscape.EscapeFullSafe | src/main/java/com/xmltranslator/services/XmlProcessor.kt:142-152 | the full escaping leaves no newline, tab, carriage return or apostrophe and no bare ampersand |
| XmlEscape.EscapeMinimalSafe | src/main/java/com/xmltranslator/services/TranslationService.kt:705-712 | the minimal escaping leaves no apostrophe and no bare ampersand |
| XmlEscape.EscapeFullIdempotent | src/main/java/com/xmltranslator/services/XmlProcessor.kt:142-152 | escaping an already escaped text a second time changes nothing |
| XmlEscape.EscapeMinimalIdempotent | src/main/java/com/xmltranslator/services/TranslationService.kt:705-712 | the minimal escaping is idempotent as well |
| XmlEscape.EscapeFullSplit | src/main/java/com/xmltranslator/services/XmlProcessor.kt:142-152 | around a character outside entity runs the escaping works piecewise: each side is escaped and the character becomes its own escape sequence |
| XmlEscape.EscapeFullPlain | src/main/java/com/xmltranslator/services/XmlProcessor.kt:142-152 | a text without `&`, apostrophe or control characters is written as is |
| XmlEscape.EscapeMinimalPlain | src/main/java/com/xmltranslator/services/TranslationService.kt:705-712 | a text without `&` or apostrophe passes the minimal escaping unchanged |
| XmlEscape.CopiesDiffer | src/main/java/com/xmltranslator/services/TranslationService.kt:705-712 | the two copies of `escapeXmlText` disagree on every text with a newline: one keeps it raw, the other writes `\n` |
| XmlEscape.MarkupPassesThrough | src/main/java/com/xmltranslator/services/XmlProcessor.kt:146-151 | `<`, `>` and `"` are copied unchanged, whatever surrounds them |
| XmlProcessor.Extracted | src/main/java/com/xmltranslator/services/XmlProcessor.kt:31-70 | the (name, text) pairs of the elements kept by `extractStringElements`, in document order; characterised by `ExtractedMeans`, `ExtractedSound` and `ExtractedComplete` |
| XmlProcessor.ExtractStringElements | src/main/java/com/xmltranslator/services/XmlProcessor.kt:31-70 | the loop returns exactly the (name, text) pairs of the kept elements, in document order |
| XmlProcessor.ExtractedConcat | src/main/java/com/xmltranslator/services/XmlProcessor.kt:37-58 | extraction of a document split in two is the extraction of each part, concatenated |
| XmlProcessor.ExtractedMeans | src/main/java/com/xmltranslator/services/XmlProcessor.kt:37-58 | a pair is extracted if and only if it comes from an element that is translatable, has a non-empty name and text, and whose name no exclusion pattern matches |
| XmlProcessor.ExtractedSound | src/main/java/com/xmltranslator/services/XmlProcessor.kt:41-56 | every extracted pair has a non-empty name and text, a name no pattern excludes, and comes from an element not marked `translatable="false"` |
| XmlProcessor.ExtractedComplete | src/main/java/com/xmltranslator/services/XmlProcessor.kt:47-54 | every translatable element with a non-empty name and text and a name no pattern excludes is extracted |
| XmlProcessor.NonTranslatableDropped | src/main/java/com/xmltranslator/services/XmlProcessor.kt:41-45 | an element marked `translatable="false"` (in any letter case) contributes nothing, whatever surrounds it |
| XmlProcessor.Document | src/main/java/com/xmltranslator/services/XmlProcessor.kt:75-86 | the text `saveTranslatedXml` writes: header, `<resources>`, one element line per pair, `</resources>`; characterised by `DocumentLines` |
| XmlProcessor.SaveTranslatedXml | src/main/java/com/xmltranslator/services/XmlProcessor.kt:75-89 | the built content is the header, `<resources>`, one escaped element line per translation and `</resources>`, each line terminated |
| XmlProcessor.ElementLines | src/main/java/com/xmltranslator/services/XmlProcessor.kt:80-83 | one element line per translation, the k-th for the k-th pair |
| XmlProcessor.DocumentLines | src/main/java/com/xmltranslator/services/XmlProcessor.kt:76-86 | split into lines, the saved document is header, `<resources>`, the element lines in order, `</resources>` and an empty last line |
| XmlProcessor.FullLineNoBreak | src/main/java/com/xmltranslator/services/XmlProcessor.kt:82 | with the full escaping an element line never holds a line break, so each translation takes exactly one line |
| XmlProcessor.AddOrUpdate | src/main/java/com/xmltranslator/services/XmlProcessor.kt:94-137 | `addOrUpdateStringInXml`: a missing file starts as the skeleton, an element with the name is replaced, otherwise the line goes before `</resources>`, and nothing is written without that tag; characterised by `ElementReplaced`, `InsertLayout`, `MissingFileCreated` and `AddOrUpdateIdempotent` |
| XmlProcessor.FileAfter | src/main/java/com/xmltranslator/services/XmlProcessor.kt:94-137 | what the file holds after `addOrUpdateStringInXml`: the text written, or the old content when nothing is; characterised by `NoResourcesUnchanged` and `AddOrUpdateIdempotent` |
| XmlProcessor.ReplaceLeftmost | src/main/java/com/xmltranslator/services/XmlProcessor.kt:108-110 | the regex replacement copies the text before the leftmost match, writes the new element and carries on after the match |
| XmlProcessor.NoNameUnchanged | src/main/java/com/xmltranslator/services/XmlProcessor.kt:108-110 | a content without `name="X"` has no match and is left as is |
| XmlProcessor.AttributesDropped | src/main/java/com/xmltranslator/services/XmlProcessor.kt:108 | an existing element with extra attributes after the name (`[^>]*`) and a body up to the first `</string>` is replaced whole by the new element |
| XmlProcessor.ElementReplaced | src/main/java/com/xmltranslator/services/XmlProcessor.kt:104-110 | the element the call writes is itself a match and is replaced by itself |
| XmlProcessor.ReplaceIdempotent | src/main/java/com/xmltranslator/services/XmlProcessor.kt:108-110 | running the same replacement twice gives what one run gives |
| XmlProcessor.ReplacedOrKept | src/main/java/com/xmltranslator/services/XmlProcessor.kt:108-110 | the replacement either changes nothing or leaves the new element in the content |
| XmlProcessor.NameKept | src/main/java/com/xmltranslator/services/XmlProcessor.kt:106-110 | after an update the content still holds `name="X"` |
| XmlProcessor.InsertedUnchanged | src/main/java/com/xmltranslator/services/XmlProcessor.kt:106-126 | a content where the element was inserted between two parts free of `name="X"` is a fixed point of the replacement |
| XmlProcessor.InsertLayout | src/main/java/com/xmltranslator/services/XmlProcessor.kt:114-134 | with `</resources>` present the insertion always writes: the part before the last `</resources>` with trailing whitespace trimmed, a newline, the element, a newline and the rest; all three `when` branches agree |
| XmlProcessor.InsertAt | src/main/java/com/xmltranslator/services/XmlProcessor.kt:114-117 | the insertion point is the last occurrence of `</resources>` |
| XmlProcessor.NoResourcesUnchanged | src/main/java/com/xmltranslator/services/XmlProcessor.kt:114-135 | a file with neither `name="X"` nor `</resources>` is not written |
| XmlProcessor.MissingFileCreated | src/main/java/com/xmltranslator/services/XmlProcessor.kt:95-101 | a missing file becomes the skeleton with the single element inserted before `</resources>` |
| XmlProcessor.SkeletonHasNoName | src/main/java/com/xmltranslator/services/XmlProcessor.kt:98-100 | the skeleton never takes the update branch |
| XmlProcessor.InsertBeforeClosing | src/main/java/com/xmltranslator/services/XmlProcessor.kt:114-126 | a content that ends in a line and `</resources>` gets the element on its own line just before `</resources>` |
| XmlProcessor.UpdateStable | src/main/java/com/xmltranslator/services/XmlProcessor.kt:106-111 | after the update branch a second identical call leaves the file as it is |
| XmlProcessor.InsertStable | src/main/java/com/xmltranslator/services/XmlProcessor.kt:112-135 | after the insert branch a second identical call takes the update branch and leaves the file as it is |
| XmlProcessor.AddOrUpdateIdempotent | src/main/java/com/xmltranslator/services/XmlProcessor.kt:94-137 | adding or updating the same string twice leaves the file as one call does, for an existing or a missing file |
| StringFilter.DigitsThenMeans | src/main/java/com/xmltranslator/services/StringFilter.kt:17 | the hand-coded scan of `\d+` followed by a tail succeeds exactly when the text starts with one or more ASCII digits and then the tail, case ignored the way Kotlin's IGNORE_CASE ignores it, Unicode-aware (the long s, the Kelvin sign and the dotted and dotless i included) |
| StringFilter.MatchesHereMeans | src/main/java/com/xmltranslator/services/StringFilter.kt:15-55 | a fragment matches at the front of a text exactly when some prefix of the text is wholly in the fragment's language |
| StringFilter.OccursMeans | src/main/java/com/xmltranslator/services/StringFilter.kt:129 | the scanner finds a fragment in a name exactly when some slice of the name is wholly in the fragment's language, which is what `.*f.*` asks for |
| StringFilter.AnyMatchesMeans | src/main/java/com/xmltranslator/services/StringFilter.kt:128-130 | `any` over the table is true exactly when some table entry matches the name |
| StringFilter.AnyMatchesMeansWhole | src/main/java/com/xmltranslator/services/StringFilter.kt:128-130 | a name matches the table exactly when it holds no line terminator and some slice of it is one string of some entry's language |
| StringFilter.ShouldExcludeString | src/main/java/com/xmltranslator/services/StringFilter.kt:126-131 | `shouldExcludeString`: some table fragment is found in the name; characterised by `ExcludedStringMeans` |
| StringFilter.ExcludedStringMeans | src/main/java/com/xmltranslator/services/StringFilter.kt:126-131 | `shouldExcludeString` holds exactly when the name has no line terminator and a slice of it matches one of the 67 table entries, case ignored the Unicode-aware way of IGNORE_CASE (so `ſ` matches `s`, the Kelvin sign `k`, `İ` and `ı` match `i`) |
| StringFilter.ShouldExcludeValuesFolder | src/main/java/com/xmltranslator/services/StringFilter.kt:137-152 | a folder not starting with `values`, and `values` itself, are never excluded; any other `values…` folder is excluded exactly when the string test excludes its name |
| StringFilter.VersionFolderExcluded | src/main/java/com/xmltranslator/services/StringFilter.kt:17 | `values-v21` is excluded by the version qualifier |
| StringFilter.VersionTagMatches | src/main/java/com/xmltranslator/services/StringFilter.kt:17 | `-v` followed by a digit matches the version fragment wherever it appears |
| StringFilter.DotlessIExcluded | src/main/java/com/xmltranslator/services/StringFilter.kt:21 | with IGNORE_CASE's Unicode folding, `values-nıght` (dotless i) is excluded by the `-night` entry |
| StringFilter.LongSExcluded | src/main/java/com/xmltranslator/services/StringFilter.kt:29 | with IGNORE_CASE's Unicode folding, `values-ſmall` (long s) is excluded by the `-small` entry |
| StringFilter.ExcludedByWord | src/main/java/com/xmltranslator/services/StringFilter.kt:126-152 | a `values…` folder name without line terminators in which a literal table entry is found, case ignored, is excluded |
| StringFilter.DigitPatternNeedsDigit | src/main/java/com/xmltranslator/services/StringFilter.kt:17-18 | a fragment with `\d+` never matches a name without a digit |
| StringFilter.TableShaped | src/main/java/com/xmltranslator/services/StringFilter.kt:15-55 | every table entry is a `\d+` pattern, a `-` word of at least four characters, or a `value-` word |
| StringFilter.LanguageFolderKept | src/main/java/com/xmltranslator/services/StringFilter.kt:137-152 | no `values-xx` folder with a code of at most two characters and no digit is excluded, so the language folders reach the translator |
| StringFilter.VietnameseFolderKept | src/main/java/com/xmltranslator/services/StringFilter.kt:137-152 | `values-vi` is kept although it starts like the version qualifier `-v` |
| StringFilter.MatchReport | src/main/java/com/xmltranslator/services/StringFilter.kt:105-112 | the diagnostic list has at most one line per table entry |
| StringFilter.MatchReportConcat | src/main/java/com/xmltranslator/services/StringFilter.kt:108-112 | the diagnostic for a table in two parts is the diagnostic of each part, in table order |
| StringFilter.MatchReportEmpty | src/main/java/com/xmltranslator/services/StringFilter.kt:105-114 | the diagnostic is empty exactly when no entry matches the name |
| StringFilter.ListedTwice | src/main/java/com/xmltranslator/services/StringFilter.kt:108-112 | an entry that appears twice in the table and matches is reported twice |
| StringFilter.DpadListedTwice | src/main/java/com/xmltranslator/services/StringFilter.kt:47-51 | a name matching `-dpad` gets `Matched: -dpad` twice in its diagnostic, because the input and navigation groups both list it |
| StringFilter.CollectMatches | src/main/java/com/xmltranslator/services/StringFilter.kt:105-112 | the loop collects exactly the report lines of the matching entries, in table order |
| StringFilter.TestExclusion | src/main/java/com/xmltranslator/services/StringFilter.kt:97-120 | the verdict is the folder test or the string test as asked; an excluded name is given the list of matching entries, a kept one the fixed no-match reason |
| StringFilter.ExcludedHasMatches | src/main/java/com/xmltranslator/services/StringFilter.kt:104-114 | when the string test excludes a name, its reason lists at least one entry |
| StringFilter.ValuesFolders | src/main/java/com/xmltranslator/services/StringFilter.kt:66-68 | only directory entries whose names start with `values` are listed |
| StringFilter.FilterPartition | src/main/java/com/xmltranslator/services/StringFilter.kt:70-77 | the kept and excluded folder lists together hold exactly the listed folders, each once |
| StringFilter.FilteredValuesFolders | src/main/java/com/xmltranslator/services/StringFilter.kt:61-84 | the result is sorted, holds only kept `values…` folders, and with the excluded ones makes up the whole listing; a missing directory gives an empty list |
| Sorting.Sort | src/main/java/com/xmltranslator/services/StringFilter.kt:72 | `sorted()` returns the same folders, each as often as before, in ascending order |
| Sorting.LexLeTotal | src/main/java/com/xmltranslator/services/StringFilter.kt:72 | `compareTo` orders any two strings one way or the other |
| Sorting.LexLeTrans | src/main/java/com/xmltranslator/services/StringFilter.kt:72 | `compareTo` order is transitive, so sorting is well defined |
| Sorting.LeTrans | src/main/java/com/xmltranslator/ui/XmlTranslatorPanel.kt:792-798 | the comparator that puts `values` first is transitive as well |
| Sorting.ValuesComesFirst | src/main/java/com/xmltranslator/ui/XmlTranslatorPanel.kt:791-798 | in a list sorted by that comparator, `values` comes first when present |
| Sorting.OthersInNaturalOrder | src/main/java/com/xmltranslator/ui/XmlTranslatorPanel.kt:796 | in that list all other folders keep `compareTo` order |
| Panel.SortedFolders | src/main/java/com/xmltranslator/ui/XmlTranslatorPanel.kt:792-798 | the folder list shows the same folders, `values` first when present, the others in `compareTo` order |
| BulkDecode.DecodeText | src/main/java/com/xmltranslator/ui/XmlTranslatorPanel.kt:724-741 | the decoding chain of `parseBulkInput` on the trimmed raw text; characterised by the `*Forms` lemmas, `AmpersandFirst` and `RoundTrip` |
| BulkDecode.DecodePlain | src/main/java/com/xmltranslator/ui/XmlTranslatorPanel.kt:724-741 | a text without backslash or ampersand passes the decode chain unchanged |
| BulkDecode.NewlineForms | src/main/java/com/xmltranslator/ui/XmlTranslatorPanel.kt:727-730 | both `\\n` and `\n` in a pasted text become a newline |
| BulkDecode.TabForms | src/main/java/com/xmltranslator/ui/XmlTranslatorPanel.kt:732-733 | both `\\t` and `\t` become a tab |
| BulkDecode.ReturnForms | src/main/java/com/xmltranslator/ui/XmlTranslatorPanel.kt:734-735 | both `\\r` and `\r` become a carriage return |
| BulkDecode.AmpersandFirst | src/main/java/com/xmltranslator/ui/XmlTranslatorPanel.kt:737-738 | `&amp;lt;` decodes to `<`, because `&amp;` is replaced before `&lt;` |
| BulkDecode.DecodeBlocks | src/main/java/com/xmltranslator/ui/XmlTranslatorPanel.kt:726-741 | the chain maps the escaped form of every text without backslash or entity-like run back to that text |
| BulkDecode.EscapeFullBlocks | src/main/java/com/xmltranslator/services/XmlProcessor.kt:142-152 | the full escaping writes each character of such a text as its own block |
| BulkDecode.RoundTrip | src/main/java/com/xmltranslator/ui/XmlTranslatorPanel.kt:724-741 | decoding the full escaping of a text without backslash, entity-like run or surrounding whitespace gives the text back |
| Panel.DecodedRows | src/main/java/com/xmltranslator/ui/XmlTranslatorPanel.kt:722-742 | one candidate row per match, with the match's name and its decoded trimmed text |
| Panel.AddedRowsMeans | src/main/java/com/xmltranslator/ui/XmlTranslatorPanel.kt:743-746 | a row is added exactly when it is a candidate with non-empty name and text; nothing is added exactly when no candidate qualifies |
| Panel.EscapedRowRoundTrip | src/main/java/com/xmltranslator/ui/XmlTranslatorPanel.kt:718-746 | an element written by the processor's escaping is read back as its original name and text and is added |
| Panel.ToolWindow.ParseBulkInput | src/main/java/com/xmltranslator/ui/XmlTranslatorPanel.kt:709-759 | a blank area is refused and changes nothing; otherwise the table gains the parsed rows in match order, the outcome reports their number when it is not zero and the area is cleared, and nothing else changes; a non-blank area never reports the empty-input warning |
| Panel.ToolWindow.AddRows | src/main/java/com/xmltranslator/ui/XmlTranslatorPanel.kt:721-747 | the loop appends exactly the addable candidates, in order, and counts them |
| Panel.WithCode | src/main/java/com/xmltranslator/ui/XmlTranslatorPanel.kt:829-838 | adding a code keeps the list as a prefix, makes the code present, adds nothing else and keeps the list free of repeats |
| Panel.WithCodeValid | src/main/java/com/xmltranslator/ui/XmlTranslatorPanel.kt:827-839 | adding a non-empty code keeps the language list free of repeats and of empty codes |
| Panel.ToolWindow.AddLanguage | src/main/java/com/xmltranslator/ui/XmlTranslatorPanel.kt:827-833 | the trimmed field is added when non-empty, and the field is cleared only when the code was new |
| Panel.ToolWindow.AddLanguageCode | src/main/java/com/xmltranslator/ui/XmlTranslatorPanel.kt:835-839 | a quick button adds its code when it is not listed yet |
| Panel.Without | src/main/java/com/xmltranslator/ui/XmlTranslatorPanel.kt:841-844 | removing a set of codes keeps exactly the codes outside it |
| Panel.RemoveFirstWithout | src/main/java/com/xmltranslator/ui/XmlTranslatorPanel.kt:843 | on a list without repeats, removing the first occurrence of a code removes that code |
| Panel.RemovedAllMeans | src/main/java/com/xmltranslator/ui/XmlTranslatorPanel.kt:841-844 | on a list without repeats, removing the selected codes leaves the unselected ones in their order and keeps the list valid |
| Panel.ToolWindow.RemoveLanguages | src/main/java/com/xmltranslator/ui/XmlTranslatorPanel.kt:841-844 | the list becomes the list with each selected code's first occurrence removed, in selection order |
| Panel.NonBlankLines | src/main/java/com/xmltranslator/ui/XmlTranslatorPanel.kt:1199 | a line is kept exactly when its trimmed form is not empty |
| Panel.Elements | src/main/java/com/xmltranslator/ui/XmlTranslatorPanel.kt:1200-1202 | the k-th element is named `imported_string_<first + k>` and holds the k-th line trimmed |
| Panel.ImportTemplate | src/main/java/com/xmltranslator/ui/XmlTranslatorPanel.kt:1199-1203 | the template `importSelectedText` writes for plain text: one numbered `<string>` element per non-blank line, joined by newlines; characterised by `ImportTemplateLines` |
| Panel.ImportTemplateLines | src/main/java/com/xmltranslator/ui/XmlTranslatorPanel.kt:1199-1203 | the template has one line per non-blank line of the selection, line k being the element for line k numbered from 1 |
| Panel.ToolWindow.ImportSelectedText | src/main/java/com/xmltranslator/ui/XmlTranslatorPanel.kt:1178-1205 | a selection with `<string` goes to the bulk area as is; any other becomes the numbered template (the timer it starts is `Panel.ToolWindow.AutoParseTicks`) |
| Panel.ToolWindow.AutoParseTicks | src/main/java/com/xmltranslator/ui/XmlTranslatorPanel.kt:1178-1195 | as written: the repeating 500 ms timer parses the imported text on its first tick; after rows were added every later tick reports the empty-input warning, and a parse that adds nothing repeats its warning on every tick; the rows are added once |
| Panel.ToolWindow.RepeatTicks | src/main/java/com/xmltranslator/ui/XmlTranslatorPanel.kt:1189-1195 | once the area is blank, or holds text in which no element is found, each further tick reports the same warning and changes neither the rows nor the area |
| Panel.ToolWindow.ImportThenParseOnce | src/main/java/com/xmltranslator/ui/XmlTranslatorPanel.kt:1178-1195 | the corrected import: one parse with one outcome, the rows added once and the area cleared when they were |
| Panel.KeptMeans | src/main/java/com/xmltranslator/ui/XmlTranslatorPanel.kt:846-853 | a row survives the removal exactly when its index was not selected |
| Panel.KeptRemove | src/main/java/com/xmltranslator/ui/XmlTranslatorPanel.kt:849-851 | removing a selected index above all the others removed so far is one `removeRow` on the current table |
| Panel.ToolWindow.RemoveSelectedRows | src/main/java/com/xmltranslator/ui/XmlTranslatorPanel.kt:846-853 | removing the selected rows from the highest index down leaves exactly the unselected rows, in order |
| Settings.DefaultApiKeys | src/main/java/com/xmltranslator/settings/XmlTranslatorSettings.kt:28-74 | `getDefaultApiKeys`: the environment keys, then the system property if new, and the bundled file only when both give nothing; characterised by `DefaultKeysValid`, `EnvironmentKeysFirst`, `PropertyNotRepeated` and `ResourceOnlyAsFallback` |
| Settings.IsValidApiKey | src/main/java/com/xmltranslator/settings/XmlTranslatorSettings.kt:76-79 | an accepted key has at least 35 characters and is not blank |
| Settings.PlaceholdersRefused | src/main/java/com/xmltranslator/settings/XmlTranslatorSettings.kt:78 | a key holding `REPLACE_WITH` or `YOUR_ACTUAL` anywhere is refused |
| Settings.DefaultKeysValid | src/main/java/com/xmltranslator/settings/XmlTranslatorSettings.kt:28-74 | every default key passes the format check |
| Settings.EnvironmentKeysFirst | src/main/java/com/xmltranslator/settings/XmlTranslatorSettings.kt:31-42 | the keys of the three environment variables come first, in variable order |
| Settings.PropertyNotRepeated | src/main/java/com/xmltranslator/settings/XmlTranslatorSettings.kt:44-46 | a usable system property is present exactly once: added after the environment keys unless one of them already equals it |
| Settings.ResourceOnlyAsFallback | src/main/java/com/xmltranslator/settings/XmlTranslatorSettings.kt:48-71 | the bundled properties file is read only when no environment variable or property gave a key; otherwise its content does not matter |
| Settings.NonBlank | src/main/java/com/xmltranslator/settings/XmlTranslatorSettings.kt:90 | the user keys kept are exactly the non-blank ones |
| Settings.AppendNewMeans | src/main/java/com/xmltranslator/settings/XmlTranslatorSettings.kt:91-95 | appending only new keys keeps what was there as a prefix, adds every key, and never repeats one; the keys added are the new ones in first-occurrence order |
| Settings.FirstOccurrences | src/main/java/com/xmltranslator/settings/XmlTranslatorSettings.kt:91-95 | the keys of a list in first-occurrence order that are not already present: a key is in the result exactly when it is in the list and not already present |
| Settings.AppendNewOrder | src/main/java/com/xmltranslator/settings/XmlTranslatorSettings.kt:91-95 | the loop that appends keys not yet present leaves the old list followed by the first occurrences of the new keys |
| Settings.AppendNewDistinct | src/main/java/com/xmltranslator/settings/XmlTranslatorSettings.kt:91-95 | appending a list without repeats to nothing gives that list |
| Settings.ValidApiKeys | src/main/java/com/xmltranslator/settings/XmlTranslatorSettings.kt:81-118 | `getValidApiKeys`: the enabled defaults, then the non-blank user keys not yet present, or the no-key error; characterised by `ValidApiKeysMeans` and `UserKeysOnly` |
| Settings.ValidApiKeysMeans | src/main/java/com/xmltranslator/settings/XmlTranslatorSettings.kt:81-118 | the defaults come first when enabled, followed by the non-blank user keys not among them, in first-occurrence order; a key is in the result exactly when it is an enabled default or a non-blank user key; the error is raised exactly when there is no such key |
| Settings.UserKeysOnly | src/main/java/com/xmltranslator/settings/XmlTranslatorSettings.kt:81-118 | with the defaults disabled and some non-blank user key, the result is the first occurrences of the non-blank user keys in stored order, and a repeat-free list comes back as stored |
| Settings.AddKey | src/main/java/com/xmltranslator/settings/XmlTranslatorSettings.kt:120-124 | `addApiKey`: appended unless blank or already stored; characterised by `AddKeyMeans` |
| Settings.AddKeyMeans | src/main/java/com/xmltranslator/settings/XmlTranslatorSettings.kt:120-124 | a blank or already stored key leaves the list unchanged, any other is appended at the end; adding keeps the stored keys free of repeats and blanks; the key is present afterwards exactly when it was already or is not blank |
| Settings.RemoveFirst | src/main/java/com/xmltranslator/settings/XmlTranslatorSettings.kt:126-128 | `MutableList.remove` as `removeApiKey` uses it; characterised by `RemoveFirstMeans`, `RemoveFirstAt` and `RemoveFirstKeepsBefore` |
| Settings.RemoveFirstMeans | src/main/java/com/xmltranslator/settings/XmlTranslatorSettings.kt:126-128 | removing takes out exactly one occurrence of a stored key, the first, leaving the keys before and after it in order, and changes nothing for an absent one |
| Settings.RemoveFirstAt | src/main/java/com/xmltranslator/settings/XmlTranslatorSettings.kt:126-128 | when `i` is the first index holding the key, removing it gives the keys before `i` followed by those after it |
| Settings.RemoveFirstKeepsBefore | src/main/java/com/xmltranslator/settings/XmlTranslatorSettings.kt:126-128 | keys before the first occurrence stay where they were |
| Settings.AppendIfUsable | src/main/java/com/xmltranslator/settings/XmlTranslatorSettings.kt:32-46 | one lookup adds its value exactly when it is set, not blank and well-formed |
| Settings.XmlTranslatorSettings.constructor | src/main/java/com/xmltranslator/settings/XmlTranslatorSettings.kt:16-18 | a new settings object stores no key and uses the default keys |
| Settings.XmlTranslatorSettings.GetDefaultApiKeys | src/main/java/com/xmltranslator/settings/XmlTranslatorSettings.kt:28-74 | the method computes the default keys of its sources |
| Settings.XmlTranslatorSettings.ValidKeys | src/main/java/com/xmltranslator/settings/XmlTranslatorSettings.kt:81-118 | the keys found are never an empty list |
| Settings.XmlTranslatorSettings.GetValidApiKeys | src/main/java/com/xmltranslator/settings/XmlTranslatorSettings.kt:81-118 | the method returns the merged keys of the current state, or the error |
| Settings.XmlTranslatorSettings.AddApiKey | src/main/java/com/xmltranslator/settings/XmlTranslatorSettings.kt:120-124 | the stored list gains the key when it is not blank and not stored yet; the defaults flag is untouched |
| Settings.XmlTranslatorSettings.RemoveApiKey | src/main/java/com/xmltranslator/settings/XmlTranslatorSettings.kt:126-128 | the stored list loses the first occurrence of the key |
| Settings.XmlTranslatorSettings.ClearApiKeys | src/main/java/com/xmltranslator/settings/XmlTranslatorSettings.kt:130-132 | the stored list becomes empty |
| Gemini.ParseReply | src/main/java/com/xmltranslator/services/TranslationService.kt:574-592 | the reply is decoded after cleaning; a decoding failure becomes the service's own failure message followed by the decoder's |
| Gemini.CleanReply | src/main/java/com/xmltranslator/services/TranslationService.kt:577-582 | the fence markers are removed in the source's order and the text trimmed; characterised by `CleanReplyHasNoFence`, `PlainReplyTrimmed` and `FencedReplyUnwrapped` |
| Gemini.CleanReplyHasNoFence | src/main/java/com/xmltranslator/services/TranslationService.kt:577-582 | no triple backtick survives the cleaning |
| Gemini.PlainReplyTrimmed | src/main/java/com/xmltranslator/services/ApiService.kt:420-438 | a reply without backticks is only trimmed |
| Gemini.FencedReplyUnwrapped | src/main/java/com/xmltranslator/services/TranslationService.kt:577-582 | a reply wrapped in a ```json fence is reduced to its trimmed body |
| Gemini.NoFenceLeft | src/main/java/com/xmltranslator/services/TranslationService.kt:581 | removing every triple backtick leaves none, even where removals bring backticks together |
| KeyRotation.GetApiKeys | src/main/java/com/xmltranslator/services/TranslationService.kt:172-181 | the keys are returned only when the settings found some; an empty list or a settings error becomes a failure |
| KeyRotation.Advance | src/main/java/com/xmltranslator/services/TranslationService.kt:185 | the cursor moves to the next position and wraps to 0 after the last key |
| KeyRotation.KeyAt | src/main/java/com/xmltranslator/services/TranslationService.kt:186 | the key under the cursor, or an index failure when the list is shorter than the cursor |
| KeyRotation.Rotation | src/main/java/com/xmltranslator/services/ApiService.kt:80-84 | the keys `k` successive `getNextApiKey` calls hand out from cursor `index`: exactly `k` of them; characterised by `RotationSplit`, `RotationRun` and `RotationCycle` |
| KeyRotation.RotationSplit | src/main/java/com/xmltranslator/services/ApiService.kt:80-84 | handing out a + b keys is handing out a keys and then b keys from where the cursor stopped |
| KeyRotation.RotationRun | src/main/java/com/xmltranslator/services/ApiService.kt:80-84 | successive calls hand out consecutive keys from the cursor while the end is not passed |
| KeyRotation.RotationCycle | src/main/java/com/xmltranslator/services/ApiService.kt:80-84 | as many calls as there are keys hand out every key once, starting at the cursor, and bring the cursor back |
| KeyRotation.KeyCursor.NextApiKey | src/main/java/com/xmltranslator/services/TranslationService.kt:183-187 | a settings failure passes through and leaves the cursor; otherwise the key under the cursor is returned and the cursor advances |
| Translation.CallGeminiApi | src/main/java/com/xmltranslator/services/TranslationService.kt:307-338 | the call succeeds exactly when the server answers 200 and the envelope holds a first text part, which is returned; a transport failure passes its message through; another status fails with a message ending in the body |
| Translation.Send | src/main/java/com/xmltranslator/services/TranslationService.kt:287-288 | a failed call is reported as is; a successful one goes on to the reply parser |
| Translation.MakeTranslationRequest | src/main/java/com/xmltranslator/services/TranslationService.kt:279-305 | at most two requests are sent, both carrying the request given, and the log only grows |
| Translation.KeysSent | src/main/java/com/xmltranslator/services/TranslationService.kt:280-298 | the keys of the logged requests, in sending order |
| Translation.MakeRequestFollowsRotation | src/main/java/com/xmltranslator/services/TranslationService.kt:279-305 | the keys sent follow the rotation from the cursor; a second request is sent exactly when the first failed and there is more than one key, and then its result is the result |
| Translation.NoKeysNothingSent | src/main/java/com/xmltranslator/services/TranslationService.kt:172-187 | without keys nothing is sent, the cursor stays and the settings' error is reported |
| Translation.Items | src/main/java/com/xmltranslator/services/TranslationService.kt:261-263 | the strings are numbered from the given start in input order and carry their names |
| Translation.Zip | src/main/java/com/xmltranslator/services/TranslationService.kt:270-272 | pairing keeps the input names and takes the translated texts by position, up to the shorter list |
| Translation.TranslateStringsMeans | src/main/java/com/xmltranslator/services/TranslationService.kt:249-277 | the request numbers the strings 1..n with their names; the answer keeps the input names in order, takes the translated texts by position, is cut to the shorter side, and is the input itself on failure or when the reply has no `translations` field |
| Translation.ZipWithOwnTranslation | src/main/java/com/xmltranslator/services/TranslationService.kt:833 | pairing a batch with its own translation by position changes nothing |
| Translation.TranslateTextMeans | src/main/java/com/xmltranslator/services/TranslationService.kt:231-247 | one string numbered 1 is asked for; the first translated text is returned, or the input when the request fails, the reply has no `translations` field or the list is empty; without keys nothing is sent |
| Api.Wrap32 | src/main/java/com/xmltranslator/services/ApiService.kt:128 | Kotlin `Int` arithmetic: the result is in the 32-bit range, congruent to the exact value modulo 2^32, and equal to it when it fits |
| Api.Clamp | src/main/java/com/xmltranslator/services/ApiService.kt:129 | the timeout is kept between 30 and 300 seconds, values inside the range unchanged |
| Api.CalculateTimeoutAsWritten | src/main/java/com/xmltranslator/services/ApiService.kt:126-130 | the computed timeout, with the 32-bit wrap of `30 + n * 5`, is always between 30 and 300 seconds |
| Api.CalculateTimeout | src/main/java/com/xmltranslator/services/ApiService.kt:126-130 | the intended timeout, computed without overflow, is between 30 and 300 seconds |
| Api.TimeoutMonotone | src/main/java/com/xmltranslator/services/ApiService.kt:127 | a larger batch never gets a shorter timeout |
| Api.TimeoutShape | src/main/java/com/xmltranslator/services/ApiService.kt:127-129 | 30 seconds for no strings, 5 more per string, 300 from 54 strings on |
| Api.AsWrittenAgrees | src/main/java/com/xmltranslator/services/ApiService.kt:126-130 | the code as written agrees with the intended timeout for every count whose product fits in an `Int` |
| Api.AsWrittenWraps | src/main/java/com/xmltranslator/services/ApiService.kt:128 | for 429496724 strings the wrapped sum is negative, so the code gives 30 seconds where 300 is meant |
| Api.CallGeminiApi | src/main/java/com/xmltranslator/services/ApiService.kt:140-184 | the call succeeds exactly when the server answers 200 and the envelope holds a first text part, which is returned |
| Api.StatusMessage | src/main/java/com/xmltranslator/services/ApiService.kt:174-177 | the message for a non-200 status, with at most 500 characters of the body; characterised by `CallGeminiApiErrors` |
| Api.CallGeminiApiErrors | src/main/java/com/xmltranslator/services/ApiService.kt:164-177 | a timeout fails with a message mentioning "timeout"; another status fails with the status line and at most the first 500 characters of the body |
| Api.TimeoutMessageSaysTimeout | src/main/java/com/xmltranslator/services/ApiService.kt:167 | the timeout message contains the word "timeout", letter case ignored |
| Api.TranslateRequestSpec | src/main/java/com/xmltranslator/services/ApiService.kt:89-122 | `translateRequest` on the keys, cursor and exchanges: no keys is an error without a request; otherwise one attempt, and one retry with the next key after a failure that is not a timeout; characterised by `RetryRule`, `FailureWrapped`, `TimeoutNotRetried` and `DrawsFollowRotation` |
| Api.Attempt | src/main/java/com/xmltranslator/services/ApiService.kt:97-98 | one attempt: a failed call is reported as is, a successful one is cleaned and decoded |
| Api.AttemptSequence | src/main/java/com/xmltranslator/services/ApiService.kt:96-112 | the first key is tried; a second key, the next of the rotation, is drawn only after a failure |
| Api.AfterFailure | src/main/java/com/xmltranslator/services/ApiService.kt:99-119 | after a failure a second key is drawn exactly when there is more than one key and the message does not mention a timeout |
| Api.DrawsFollowRotation | src/main/java/com/xmltranslator/services/ApiService.kt:80-84 | the keys drawn by one request are the next one or two of the rotation, and the cursor ends where the rotation leaves it |
| Api.FirstTwoDraws | src/main/java/com/xmltranslator/services/ApiService.kt:80-84 | the first two keys of the rotation and the cursor after them |
| Api.RetryRule | src/main/java/com/xmltranslator/services/ApiService.kt:96-112 | a retry happens exactly when the first attempt failed, there are several keys and the failure does not mention a timeout; its result is returned unwrapped |
| Api.FailureWrapped | src/main/java/com/xmltranslator/services/ApiService.kt:113-118 | a failure not retried is wrapped: a timeout with the hint naming the batch size, anything else behind the failure heading |
| Api.TimeoutNotRetried | src/main/java/com/xmltranslator/services/ApiService.kt:101-115 | a transport timeout on the first attempt is never retried, even with several keys, and is reported as a translation timeout |
| Api.TimeoutHintPrefix | src/main/java/com/xmltranslator/services/ApiService.kt:115 | the timeout hint opens with its heading |
| Api.ApiService.constructor | src/main/java/com/xmltranslator/services/ApiService.kt:19-25 | a new service starts its key cursor at 0 |
| Api.ApiService.ApiKeys | src/main/java/com/xmltranslator/services/ApiService.kt:69-78 | the keys of the settings, or the no-key failure |
| Api.ApiService.NextApiKey | src/main/java/com/xmltranslator/services/ApiService.kt:80-84 | a key failure leaves the cursor; otherwise the key under the cursor is returned and the cursor advances; the settings are untouched |
| Api.ApiService.TranslateRequest | src/main/java/com/xmltranslator/services/ApiService.kt:89-121 | the result and the new cursor are those of the request specification for the keys and cursor before the call |
| Api.ApiService.AttemptWithRetry | src/main/java/com/xmltranslator/services/ApiService.kt:96-120 | the try/catch of one request follows the attempt sequence |
| Api.ApiService.RetryOrWrap | src/main/java/com/xmltranslator/services/ApiService.kt:99-119 | the catch block follows the failure rule |
| Batching.RemovePrefix | src/main/java/com/xmltranslator/services/TranslationService.kt:771 | `removePrefix` drops the prefix exactly when the folder starts with it and otherwise returns the folder unchanged |
| Batching.ChunkedFlatten | src/main/java/com/xmltranslator/services/TranslationService.kt:802 | the batches, concatenated, are the items in their order |
| Batching.ChunkedSizes | src/main/java/com/xmltranslator/services/TranslationService.kt:802 | every batch is non-empty and at most the batch size, and all but the last are full |
| Batching.ChunkedCount | src/main/java/com/xmltranslator/services/TranslationService.kt:802 | the number of batches is the item count divided by the batch size, rounded up |
| Batching.AddToFile | src/main/java/com/xmltranslator/services/TranslationService.kt:714-757 | adding one string changes only its file, as `addOrUpdateStringInXml` with the minimal escaping does |
| Batching.AddAllElsewhere | src/main/java/com/xmltranslator/services/TranslationService.kt:811-815 | writing the originals into one folder touches no other file |
| Batching.AddAllConcat | src/main/java/com/xmltranslator/services/TranslationService.kt:811-815 | writing two lists of strings one after the other is writing their concatenation |
| Batching.BatchPairsMeans | src/main/java/com/xmltranslator/services/TranslationService.kt:824-841 | the strings written for a batch keep the batch's names in order and are its translation, or the batch itself when the request fails |
| Batching.TranslateBatchesMeans | src/main/java/com/xmltranslator/services/TranslationService.kt:820-849 | the batch loop only asks for its own batches, from English into its language, and writes only the folder's file |
| Batching.ProcessFolderMeans | src/main/java/com/xmltranslator/services/TranslationService.kt:805-851 | the `values` folder gets the originals and sends nothing; another folder asks for its batches in the language named after `values-`; no other file changes |
| Batching.ProcessFoldersFrame | src/main/java/com/xmltranslator/services/TranslationService.kt:805-855 | files outside the target folders are never written |
| Batching.AddBatchStringsToXmlFiles | src/main/java/com/xmltranslator/services/TranslationService.kt:790-863 | `addBatchStringsToXmlFiles`: the chunking error for a size below one, otherwise each target folder processed in turn; characterised by `AddBatchMeans`, `ProcessFolderMeans` and `TranslateBatchesMeans` |
| Batching.AddBatchMeans | src/main/java/com/xmltranslator/services/TranslationService.kt:790-863 | a batch size of zero or less is the chunking error and nothing is written; otherwise files outside the target folders are unchanged |
| Batching.TranslateXmlFile | src/main/java/com/xmltranslator/services/TranslationService.kt:594-640 | `translateXmlFile` on the parsed elements: nothing when no string is kept, otherwise one translation and one file per language; characterised by `NothingToTranslate` and `TranslateLanguagesMeans` |
| Batching.TranslateLanguagesMeans | src/main/java/com/xmltranslator/services/TranslationService.kt:613-637 | each target language gets its output file, no other file changes, and every request asks for the extracted strings, numbered from 1, in one of the target languages |
| Batching.NothingToTranslate | src/main/java/com/xmltranslator/services/TranslationService.kt:604-609 | a document with no string to translate changes nothing and sends nothing |
| Batching.NoneKept | src/main/java/com/xmltranslator/services/TranslationService.kt:648-687 | when no element is kept the extraction is empty |
| Batching.AddStringToFolders | src/main/java/com/xmltranslator/services/TranslationService.kt:759-788 | `addStringToXmlFiles`: each target folder gets the string, the original in `values` and a translation elsewhere; characterised by `AddStringToFoldersMeans` and `ValuesGetsOriginal` |
| Batching.AddStringToFoldersMeans | src/main/java/com/xmltranslator/services/TranslationService.kt:759-788 | only the target folders' files change; the log only grows; with `values` as the only target nothing is sent |
| Batching.ValuesGetsOriginal | src/main/java/com/xmltranslator/services/TranslationService.kt:768-770 | the `values` folder gets the original text without a request |
| Service.TranslationService.constructor | src/main/java/com/xmltranslator/services/TranslationService.kt:24-30 | a new service starts with its key cursor at 0 and nothing sent |
| Service.TranslationService.ApiKeys | src/main/java/com/xmltranslator/services/TranslationService.kt:172-181 | the keys of the settings, or the no-key failure |
| Service.TranslationService.NextApiKey | src/main/java/com/xmltranslator/services/TranslationService.kt:183-187 | a key failure leaves the cursor; otherwise the key under the cursor is returned and the cursor advances |
| Service.TranslationService.CallAndParse | src/main/java/com/xmltranslator/services/TranslationService.kt:287-288 | one call is logged and its result is that of the call and the parser; the files stay |
| Service.TranslationService.MakeTranslationRequest | src/main/java/com/xmltranslator/services/TranslationService.kt:279-305 | the result, the cursor and the requests sent are those of the request specification |
| Service.TranslationService.AttemptWithRetry | src/main/java/com/xmltranslator/services/TranslationService.kt:286-304 | the try/catch follows the retry rule of the specification |
| Service.TranslationService.TranslateText | src/main/java/com/xmltranslator/services/TranslationService.kt:231-247 | the text returned and the new state are those of the translate-text specification |
| Service.TranslationService.TranslateStrings | src/main/java/com/xmltranslator/services/TranslationService.kt:249-277 | the pairs returned and the new state are those of the translate-strings specification |
| Service.TranslationService.AddOrUpdateStringInXml | src/main/java/com/xmltranslator/services/TranslationService.kt:714-757 | only the named file changes, as the add-or-update specification with the minimal escaping says |
| Service.TranslationService.AddPairs | src/main/java/com/xmltranslator/services/TranslationService.kt:811-815 | the originals are written one after the other into one file |
| Service.TranslationService.TranslateBatchesInto | src/main/java/com/xmltranslator/services/TranslationService.kt:820-849 | the state after the batch loop is the specification's |
| Service.TranslationService.TranslateOneBatch | src/main/java/com/xmltranslator/services/TranslationService.kt:821-848 | one batch: its translation is written and the requests logged |
| Service.TranslationService.AddBatchStringsToXmlFiles | src/main/java/com/xmltranslator/services/TranslationService.kt:790-863 | the outcome, error or state, is the batch specification's for the state before the call |
| Service.TranslationService.ProcessOneFolder | src/main/java/com/xmltranslator/services/TranslationService.kt:805-855 | one folder of the batch operation, as specified |
| Service.TranslationService.TranslateXmlFile | src/main/java/com/xmltranslator/services/TranslationService.kt:594-640 | the state after translating a document is the specification's |
| Service.TranslationService.TranslateAllLanguages | src/main/java/com/xmltranslator/services/TranslationService.kt:613-637 | the language loop follows the specification |
| Service.TranslationService.TranslateOneLanguage | src/main/java/com/xmltranslator/services/TranslationService.kt:614-636 | one language: its strings translated and its document saved |
| Service.TranslationService.AddStringToXmlFiles | src/main/java/com/xmltranslator/services/TranslationService.kt:759-788 | the state after adding one string to all folders is the specification's |
| Service.TranslationService.AddStringToFolder | src/main/java/com/xmltranslator/services/TranslationService.kt:767-781 | one folder: its text chosen and the string added |
| Service.TranslationService.TextForFolder | src/main/java/com/xmltranslator/services/TranslationService.kt:768-774 | the original for `values`, otherwise the translation into the folder's language |
| Configurable.TrimmedKeys | src/main/java/com/xmltranslator/settings/XmlTranslatorConfigurable.kt:202-204 | at most one key per line, each trimmed and not blank |
| Configurable.TrimmedKeysMeans | src/main/java/com/xmltranslator/settings/XmlTranslatorConfigurable.kt:202-204 | every key is the trimmed form of some line, and every non-blank line gives its trimmed form |
| Configurable.TrimIdempotent | src/main/java/com/xmltranslator/settings/XmlTranslatorConfigurable.kt:203 | trimming a trimmed key changes nothing |
| Configurable.Storables | src/main/java/com/xmltranslator/settings/XmlTranslatorConfigurable.kt:207 | the keys passed to `addApiKey` are exactly those of at least 30 characters without a bullet |
| Configurable.SaveKeysIsMerge | src/main/java/com/xmltranslator/settings/XmlTranslatorConfigurable.kt:206-210 | saving non-blank keys one by one is the merge, without repeats, of the storable ones into an empty list |
| Configurable.SavedKeys | src/main/java/com/xmltranslator/settings/XmlTranslatorConfigurable.kt:195-210 | the list `apply` leaves in the settings for the text it reads; characterised by `SavedKeysMeans`, `SavedKeysJoin` and `MaskedSavesNothing` |
| Configurable.SavedKeysMeans | src/main/java/com/xmltranslator/settings/XmlTranslatorConfigurable.kt:195-210 | the list `apply` stores is the storable keys of the area in line order, each kept at its first occurrence, so it has no repeats; each is at least 30 characters long, bullet-free and not blank |
| Configurable.KeyLinesJoin | src/main/java/com/xmltranslator/settings/XmlTranslatorConfigurable.kt:160 | splitting the joined stored keys gives them back |
| Configurable.SavedKeysJoin | src/main/java/com/xmltranslator/settings/XmlTranslatorConfigurable.kt:160-210 | a stored list of distinct storable keys, joined and saved again, comes back unchanged |
| Configurable.MaskLine | src/main/java/com/xmltranslator/settings/XmlTranslatorConfigurable.kt:137 | a blank line masks to nothing, any other to as many bullets as it has characters, at most 40 |
| Configurable.MaskLines | src/main/java/com/xmltranslator/settings/XmlTranslatorConfigurable.kt:136-138 | one masked line per line of the area |
| Configurable.MaskedLines | src/main/java/com/xmltranslator/settings/XmlTranslatorConfigurable.kt:136-138 | the masked text has exactly the lines of the area, each masked |
| Configurable.BulletsOnly | src/main/java/com/xmltranslator/settings/XmlTranslatorConfigurable.kt:137 | a masked line holds no line break, is its own trim and, when not empty, contains a bullet |
| Configurable.MaskedSplit | src/main/java/com/xmltranslator/settings/XmlTranslatorConfigurable.kt:136-138 | splitting the masked text at newlines gives the masked lines |
| Configurable.BulletKeys | src/main/java/com/xmltranslator/settings/XmlTranslatorConfigurable.kt:202-204 | every key read from masked lines contains a bullet |
| Configurable.NothingStorable | src/main/java/com/xmltranslator/settings/XmlTranslatorConfigurable.kt:207 | keys that all contain a bullet are never stored |
| Configurable.MaskedSavesNothing | src/main/java/com/xmltranslator/settings/XmlTranslatorConfigurable.kt:136-210 | `apply` reading a masked area stores no key at all |
| Configurable.Page.constructor | src/main/java/com/xmltranslator/settings/XmlTranslatorConfigurable.kt:20-21 | a fresh page: both boxes unticked and enabled, the area empty |
| Configurable.Page.KeysVisibility | src/main/java/com/xmltranslator/settings/XmlTranslatorConfigurable.kt:127-152 | shown keys or an empty area queue nothing; otherwise the masked text and the unmasked one are queued, the masked text having one masked line per line |
| Configurable.Page.RunLater | src/main/java/com/xmltranslator/settings/XmlTranslatorConfigurable.kt:142-149 | the queued write replaces the area with the masked text and remembers the unmasked one |
| Configurable.Page.UpdateUIState | src/main/java/com/xmltranslator/settings/XmlTranslatorConfigurable.kt:116-125 | the area and the show box are enabled exactly when the default keys are not used; disabling unticks the show box and queues the masking of a non-empty area |
| Configurable.Page.LoadSettings | src/main/java/com/xmltranslator/settings/XmlTranslatorConfigurable.kt:154-165 | the box takes the setting and the area the joined keys; the keys end masked with the unmasked text remembered exactly when the show box is unticked and the area is not empty; with the default keys in use the text read back is the stored keys |
| Configurable.Page.Apply | src/main/java/com/xmltranslator/settings/XmlTranslatorConfigurable.kt:189-216 | the box is copied to the settings and the stored keys become the storable keys of the text read, without repeats |
| Configurable.SaveAll | src/main/java/com/xmltranslator/settings/XmlTranslatorConfigurable.kt:206-210 | adding the keys one by one to the cleared list leaves exactly the saved keys and does not touch the box |
| Configurable.ReloadKeepsKeys | src/main/java/com/xmltranslator/settings/XmlTranslatorConfigurable.kt:154-210 | whenever the page reads the joined keys back (default keys in use, or keys shown), distinct storable keys loaded and applied come back unchanged and are not reported as modified |
| Configurable.HiddenKeysDiscarded | src/main/java/com/xmltranslator/settings/XmlTranslatorConfigurable.kt:175-179 | as written: with custom keys and the show box unticked, the page reads the masked area back, so `apply` stores no key and `isModified` reports a change |
| Configurable.IntendedText | src/main/java/com/xmltranslator/settings/XmlTranslatorConfigurable.kt:196-200 | the corrected reading: the remembered unmasked text whenever the keys are hidden |
| Configurable.IntendedKeepsKeys | src/main/java/com/xmltranslator/settings/XmlTranslatorConfigurable.kt:189-210 | with the corrected reading, a load followed by `apply` keeps the stored keys whether they are shown or hidden |

## Left out

- HTTP and JSON: the network exchange is a parameter (`Gemini.Exchange`, one outcome per call) and Gson decoding is a function parameter; connection set-up, headers and streams are not modelled.
- The prompt text of `buildPrompt` is not modelled beyond its being a string; only the request data it carries is.
- `getTimeoutInfo` is left out: it formats a floating-point number of minutes.
- The DOM parser behind `parseXml` is replaced by a sequence of element records; malformed XML is not modelled.
- File I/O: the project's files are a map from path to content, a missing file is `None`, and directory listings are inputs; `mkdirs` and file permissions are not modelled.
- `Thread.sleep` between batches and between retries is left out: it has no observable effect on the results.
- Concurrency: the `AtomicInteger` key index is a sequential counter; the executor, cancellation and `@Volatile` flags of the tool window are not modelled.
- Console logging, progress callbacks and status-area messages are left out, except where the message is the returned result.
- Swing layout, cell renderers, fonts, colours, dialogs (`Messages.*`) and clipboard access are left out.
- `ProjectScanner`, the actions and the tool window factory are IDE glue and are not part of this model.
- The exclusion table's regular expressions are hand-coded matchers for the fragments the table holds; the bulk paste pattern's `findAll` is the parameter `find`.
- XmlProcessor.AddOrUpdate, Batching.AddToFile: the string name is matched literally, while the source splices it unescaped into the update regex (src/main/java/com/xmltranslator/services/XmlProcessor.kt:108, src/main/java/com/xmltranslator/services/TranslationService.kt:728); a name holding `.` then also rewrites other names (`a.b` matches `axb`) and one holding `(` or `[` throws. The model covers names made of letters, digits and `_`, as Android resource names are.
- Kotlin nullable values are `Option`.
- `getState`/`loadState` of the persistent settings component are left out: the platform calls them to serialise the fields the model already holds.
- Keys from the environment, the system property and the bundled properties file are inputs (`KeySources`); reading them is not modelled.
- The tool window's background translation runs (`translateStrings`, `translateFile`, `translateModule`) and their `invokeLater` updates are not modelled here; the work they drive is `Service` and `Batching`.
- The timer that parses the bulk text after `importSelectedText` repeats every 500 ms; its first ticks are `Panel.ToolWindow.AutoParseTicks`, which takes their number as a parameter since nothing in the source stops it (see Findings).
- `reset()` (src/main/java/com/xmltranslator/settings/XmlTranslatorConfigurable.kt:218-220) only calls `loadSettings` and is modelled by `Configurable.Page.LoadSettings`.
- `getFilteringInfo` only builds a message; its text is not modelled.
- `ParseBulkInput` decodes each entry before the row loop rather than inside it; decoding is pure, so the rows are the same.
- Strings are sequences of characters, whereas Kotlin counts, slices and compares UTF-16 code units; the two agree on text inside the Basic Multilingual Plane only. Outside it (an emoji, say) `take(500)`, `min(length, 40)` and `compareTo` can differ from the model: a cut may fall between the two halves of a surrogate pair, and ordering follows code units, not code points.
- A translated item whose `text` Gson leaves null is not represented: every item carries a string. A reply with no `translations` field is modelled (`None`).
- `Api.CalculateTimeoutAsWritten` keeps the 32-bit wrap-around of the source; the rest of the model uses `Api.CalculateTimeout`, see Findings.

## Findings

| source | as written | input that shows it | evidently intended | confidence | as-written member | corrected member |
|---|---|---|---|---|---|---|
| src/main/java/com/xmltranslator/services/ApiService.kt:126-130 | `30 + (stringCount * 5)` is computed in 32-bit `Int` before widening to `Long`, so it wraps for large counts | a batch of 429496724 strings: the sum wraps negative and the timeout is 30 s | 5 s per string on top of 30 s, capped at 300 s, for every count | low, not executed (batches that large do not occur in practice) | Api.CalculateTimeoutAsWritten, Api.AsWrittenWraps | Api.CalculateTimeout, Api.TimeoutMonotone |
| src/main/java/com/xmltranslator/settings/XmlTranslatorConfigurable.kt:175-179 (and 196-200 in `apply`) | the remembered unmasked key text is read only when the show box is unticked AND disabled; with custom keys the box is enabled, so the masked text is read | custom keys in use, at least one stored key, "show keys" unticked: after `loadSettings`, `isModified` reports a change and `apply` stores no key | read the remembered text whenever the keys are masked | medium, not executed | Configurable.HiddenKeysDiscarded | Configurable.IntendedText, Configurable.IntendedKeepsKeys |
| src/main/java/com/xmltranslator/ui/XmlTranslatorPanel.kt:1189-1195 | the auto-parse `Timer(500)` is started without `setRepeats(false)`, so it fires every 500 ms and runs `parseBulkInput` each time | a selection holding one valid `<string>` element: the first tick adds the row and clears the area, every later tick shows the "Please enter XML strings to parse!" warning | one parse shortly after the import | medium, not executed | Panel.ToolWindow.AutoParseTicks | Panel.ToolWindow.ImportThenParseOnce |
