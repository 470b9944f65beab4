# xlf-translator sync engine, modelled in Dafny

This project models the part of xlf-translator that keeps XLIFF locale catalogues in step with a
source catalogue.

It covers three pieces:

- **The configuration guard and the full translation.** The source catalogue's trans-unit list is
  translated into every target language, one language at a time. Each result is written to
  `<appRoot><outputPath>/messages.<lang>.xlf`. The first translator error ends the run.
- **The incremental pass.** It reads the source catalogue and the catalogue of the first configured
  locale. It reports an error when either trans-unit list is missing. It succeeds at once when the
  two lists have the same length. Otherwise it diffs them by `id`. The source units the reference
  lacks are the new messages; the reference units the source lacks are the removed messages. It then
  lists the translated catalogues. For each listed file it takes the locale from the file name,
  translates the new messages into it, and appends the translations to that file's trans-unit list.
  A translator error, including status 429, ends the pass.
- **The catalogue repository's pure part.** This covers the path templates, the locale recovered from
  a file name by splitting on `.`, and the accessor for a document's trans-unit list.

Modules:

- `Wrappers`: `Option`, `Result`, and `Outcome` (success or an error).
- `Xliff`: the parsed document (`XlfDocument` → `FileElement` → `Body` → `TransUnit`), the
  configuration, the error kinds with the codes of `lib/errors.js`, the constants of
  `lib/constants.js`, and the gateway interface.
- `XlfFileProcessor`: the path templates, `Split`/`Join`, the locale of a file name, and the
  trans-unit accessor.
- `Reconciler`: the id diff as functions. `ComputeDiff` is the method that builds the two lists with
  loops, as the source's `forEach`/`push` code does.
- `FileStore`: the filesystem as a `Store` object holding parsed catalogues by path and directory
  listings by path. Its methods are read, list and write.
- `XlfProcessor`: the two orchestration routines, as methods over a `Store` proved against
  specification functions (`FullTranslation`, `IncrementalPass`). It also holds the corrected
  incremental pass (`SavedPass`). That pass lists the output directory, keeps only the entries named
  `messages.<locale>.xlf`, and writes each merged catalogue back.
- `Findings`: the two defects below, on the pass as written and on the corrected pass.

Inputs the model takes as parameters:

- The global `translatorConfig` and `appRoot` are passed in as `cfg: Config` and `root: string`.
- The translation gateway (`xlfTranslator.translateBody`) is a parameter
  `translate: Request -> Reply`, a deterministic oracle. The request carries `Option`s wherever the
  source may pass `undefined`.
- Reading a file means looking it up in the `Store`. A path the store lacks stands for a file that is
  missing, unreadable or not parseable.

## Model

| member | source | states |
|---|---|---|
| Xliff.Error.Code | lib/errors.js:6-13 | Exactly the two configuration errors carry a code of lib/errors.js: 1001 for a missing `fromLanguage`, 1002 for an empty `toLanguage`. |
| XlfProcessor.CheckConfig | lib/xlf-processor.js:26-32 | The guard passes iff `fromLanguage` is truthy and `toLanguage` is non-empty. An unset `fromLanguage` gives NO_FROM_LANGUAGE even when `toLanguage` is also empty. Otherwise an empty `toLanguage` gives NO_TO_LANGUAGE. The codes are 1001 and 1002. |
| XlfProcessor.ConfigErrorPrecedesRead | lib/xlf-processor.js:24-36 | A configuration error is the result whatever the store holds: it comes before the source catalogue is read, and nothing is written. |
| XlfProcessor.EffectiveFromLanguage | lib/xlf-processor.js:59 | The source language is the configured `fromLanguage` when that is truthy. Otherwise it is the first `file`'s `source-language`. |
| XlfProcessor.FirstFailure | lib/xlf-processor.js:62-87 | Gives the index of the first language whose translation fails, or the number of languages. Every language before it translates. |
| XlfProcessor.TranslateLanguagesStopsAtFirstFailure | lib/xlf-processor.js:62-87 | The per-language run handles the languages in order and stops at the first failing one. It reports that language's error, or success when none fails. The store then holds exactly the writes of the languages before it. |
| XlfProcessor.WriteOutputsUntouched | lib/xlf-processor.js:72-80 | A path that none of the written languages maps to keeps its entry, or its absence. |
| XlfProcessor.LanguageOutput | lib/xlf-processor.js:66-72 | One language's result is a document iff the translator reports no error. Otherwise it is that translator error. The document's trans-unit list is exactly the translator's answer. |
| XlfProcessor.TranslateLanguages | lib/xlf-processor.js:62-87 | The per-language run never removes a catalogue from the store. Its outcome and writes are stated by `TranslateLanguagesStopsAtFirstFailure`. |
| XlfProcessor.WriteOutputsWritten | lib/xlf-processor.js:72-80 | After the writes, each written language's catalogue path holds the source document with the translator's answer for that language. A repeated language gets the same output because the translator is taken as a deterministic oracle. |
| XlfProcessor.TranslateLanguagesAndCreateResources | lib/xlf-processor.js:55-88 | The in-place loop: it overwrites the document's trans-unit list, writes it to the locale path, and returns at the first translator error. Its outcome and resulting store equal the per-language run over the ORIGINAL trans-unit list captured before the loop. The configuration's `fromLanguage` is filled in from the document when unset. |
| XlfProcessor.FullTranslation | lib/xlf-processor.js:20-47 | The full translation never removes a catalogue. It writes only after the guard passes and the source catalogue reads with a first body. With the guard passed and the source absent, it ends with the read error and leaves the store as it was. |
| XlfProcessor.TranslateAndProcessFilesWithGoogleApi | lib/xlf-processor.js:20-47 | Runs the guard, then the read of `appRoot + source`, then the per-language run. Its outcome and store equal `FullTranslation` of the old store. A store with distinct listings keeps them distinct. |
| XlfProcessor.FullTranslationSpec | lib/xlf-processor.js:20-88 | After the guard passes and the source is read, the run succeeds iff every language translates; otherwise it reports the first failing language's error. Each language before that one has its catalogue: the source document with the list replaced by the translation of the original list. Every other path is unchanged, so later languages get no file. |
| XlfFileProcessor.SourceFilePath | lib/xlf-file-processor.js:23 | The source catalogue's path is `appRoot` followed by `source`. |
| XlfFileProcessor.OutputDirPath | lib/xlf-file-processor.js:58 | The output directory is `appRoot` followed by `outputPath`. |
| XlfFileProcessor.FileByNamePath | lib/xlf-file-processor.js:58-74 | A file name's path is the output directory, `/`, and the name. Reading a file by name and writing it back use this same path. |
| XlfFileProcessor.LocaleFilePath | lib/xlf-file-processor.js:35-58 | The locale catalogue path, which is also the path the full translation writes, equals the path of the file `messages.<locale>.xlf` read by name. |
| XlfFileProcessor.TranslatedFilesDirPath | lib/xlf-file-processor.js:46 | The listed directory `<output>/messages` is the stem of every locale catalogue's path (appending `.<locale>.xlf` gives that path), and it is not the output directory. |
| XlfFileProcessor.LocaleFileName | lib/xlf-file-processor.js:35 | A locale catalogue's name is `messages.`, the locale, then `.xlf`. The locale sits between that fixed prefix and suffix. |
| XlfFileProcessor.LocaleFileNameInjective | lib/xlf-file-processor.js:35 | Two locales have the same catalogue name iff they are equal. |
| XlfFileProcessor.LocaleFilePathInjective | lib/xlf-file-processor.js:35 | Two locales have the same catalogue path iff they are equal. |
| XlfFileProcessor.FileByNamePathInjective | lib/xlf-file-processor.js:58 | Two file names have the same path iff they are equal. |
| XlfFileProcessor.Split | lib/xlf-processor.js:162 | `split` on a one-character separator yields at least one field, and no field contains the separator. |
| XlfFileProcessor.JoinSplit | lib/xlf-processor.js:162 | Joining the fields of a split with the separator gives back the string. |
| XlfFileProcessor.SplitPrefix | lib/xlf-processor.js:162 | A separator-free prefix only extends the first field of the split. |
| XlfFileProcessor.SplitJoin | lib/xlf-processor.js:162 | Splitting a join of separator-free fields gives back the fields. |
| XlfFileProcessor.SplitCountsSeparator | lib/xlf-processor.js:162 | A split has a second field iff the separator occurs in the string. |
| XlfFileProcessor.LocaleOfFileName | lib/xlf-processor.js:162 | `fileName.split('.')[1]` is defined (not `undefined`) iff the name contains a `.`. |
| XlfFileProcessor.LocaleRoundTrip | lib/xlf-processor.js:162 | For a locale with no `.`, field 1 of `messages.<locale>.xlf` split on `.` is the locale. |
| XlfFileProcessor.LocaleWithDotIsTruncated | lib/xlf-processor.js:162 | For a locale `head.tail`, only `head` comes back. |
| XlfFileProcessor.LocaleFileNameRecognised | lib/xlf-processor.js:162 | The name `messages.<locale>.xlf` is recognised as a locale catalogue (field 1 of its split gives back its locale) iff the locale has no `.`. |
| XlfFileProcessor.OneDotNameIsNoLocaleFileName | lib/xlf-processor.js:162 | A name with exactly one `.`, such as the source catalogue `messages.xlf`, is never recognised as a locale catalogue. |
| XlfFileProcessor.GetXlfMessages | lib/xlf-file-processor.js:14-16 | The accessor is `file[0].body[0]['trans-unit']`, which may be absent. It is defined only on documents that have a first file and first body. `SetGetIdentity` and `SetXlfMessages` state how it relates to replacing the list. |
| XlfFileProcessor.SetXlfMessages | lib/xlf-processor.js:72 | Overwriting `file[0].body[0]['trans-unit']` makes the accessor return the new list. Every other file, every other body, and the `source-language` stay as they were. |
| XlfFileProcessor.SetGetIdentity | lib/xlf-file-processor.js:14-16 | Writing back the list the accessor returns leaves the document unchanged, so the accessor returns exactly the first body's list. |
| XlfFileProcessor.SetTwice | lib/xlf-processor.js:72 | A second overwrite replaces the first: only the last list remains. |
| Reconciler.Ids | lib/xlf-processor.js:132-133 | The id list has one entry per trans-unit, the unit's `id`, in order. |
| Reconciler.Missing | lib/xlf-processor.js:136-149 | The filtered list is no longer than its input. |
| Reconciler.MissingCount | lib/xlf-processor.js:136-149 | Each unit whose id is absent occurs in the result as often as in the input; every other unit occurs zero times. |
| Reconciler.MissingExactly | lib/xlf-processor.js:144-149 | A unit is in the result iff it is in the input and its id is not among the ids. |
| Reconciler.MissingSnoc | lib/xlf-processor.js:144-149 | One more input unit extends the result by that unit iff its id is absent. |
| Reconciler.MissingConcat | lib/xlf-processor.js:144-149 | The filter distributes over concatenation, so the result keeps the input's order (a subsequence). |
| Reconciler.MissingEmptyIff | lib/xlf-processor.js:144-149 | Nothing is new iff every input id is among the ids. |
| Reconciler.MissingAll | lib/xlf-processor.js:136-141 | When no input id is among the ids, every unit is in the result, in order. |
| Reconciler.Reconcile | lib/xlf-processor.js:121-149 | Either list missing gives the "empty" error, and only then. Equal lengths give "up to date", and only then, whatever the ids. Otherwise `newMessages` holds exactly the source units whose id the reference lacks, and `removeMessages` exactly the reference units whose id the source lacks. |
| Reconciler.ComputeDiff | lib/xlf-processor.js:132-149 | The two `forEach`/`push` loops produce the reference units whose id is not a source id, in reference order, and the source units whose id is not a reference id, in source order. |
| Reconciler.MissingIds | lib/xlf-processor.js:144-149 | With unique input ids, the result's ids are unique and are the input's ids minus the given ids. |
| Reconciler.MissingLength | lib/xlf-processor.js:127-149 | Suppose ids are unique and every reference id is a source id. Then the number of new messages is the difference of the two lengths. |
| Reconciler.MergedLength | lib/xlf-processor.js:175-176 | Appending id-preserving translations of the new messages makes the reference as long as the source. |
| Reconciler.MergedCoversSource | lib/xlf-processor.js:175-176 | After appending the translations, every source id is a reference id. |
| Reconciler.MergeClosesGap | lib/xlf-processor.js:121-176 | Suppose the ids are unique, the reference's ids are source ids, and the translations keep their ids. Then after the append nothing is new, and the next reconciliation reports "up to date". |
| Reconciler.ScenarioThreeAgainstTwo | lib/xlf-processor.js:132-149 | Source `[a, b, c]` against reference `[a, b]` gives new `[c]` and nothing removed. |
| Reconciler.FastPathIgnoresIds | lib/xlf-processor.js:127-130 | Equal lengths report "up to date" even when the single ids differ and the unit would be new. |
| FileStore.Store.ReadXlfFile | lib/xlf-file-processor.js:120-136 | Reading succeeds with the stored document iff the path is stored; otherwise it gives the read error for that path. |
| FileStore.Store.ListFiles | lib/xlf-file-processor.js:158-162 | Listing succeeds with the entries iff the directory exists; otherwise it gives the list error for that directory. |
| FileStore.Store.CreateXlfFile | lib/xlf-file-processor.js:144-151 | The write stores the document at the path and changes nothing else. A store with distinct listings keeps them distinct. A failed open is not represented. |
| XlfProcessor.FirstLocale | lib/xlf-processor.js:110 | The reference locale is `toLanguage[0]`, or the text `undefined` when the list is empty. |
| XlfProcessor.ReadMessages | lib/xlf-processor.js:104-112 | Reading a catalogue's trans-unit list succeeds iff the file is stored and has a first body. It then gives the accessor's list. Otherwise the error is `MalformedDocument` for a stored file and `ReadFailed` for a missing one. |
| XlfProcessor.PlanIncremental | lib/xlf-processor.js:103-130 | A source read error comes first, then a reference read error. "Up to date" comes iff both lists are present and of equal length. Both reads succeeding with a list missing gives the "empty" error. |
| XlfProcessor.MergeFile | lib/xlf-processor.js:159-183 | A translator error comes first, before the file is read. A missing file gives its read error. Every other error is a malformed document at that file's path. A merged document means the translator answered without error and the file exists. |
| XlfProcessor.MergeFiles | lib/xlf-processor.js:157-187 | The listed files are handled in order. Each handled file is paired with its merged document. The pass succeeds iff every file merges, and otherwise reports the first failing file's error. |
| XlfProcessor.MergeFilesFailureStays | lib/xlf-processor.js:181-187 | Once a file fails, later files change neither the outcome nor the merged documents. |
| XlfProcessor.RateLimitEndsPass | lib/xlf-processor.js:165-166 | Status 429 on file k, after the earlier files merged, ends the pass with that error. Only files before k are merged. |
| XlfProcessor.MergeFileAppends | lib/xlf-processor.js:171-179 | A merged file keeps its existing trans-units unchanged and in place, including those that `removeMessages` names, with the translations appended after them. An empty or absent translation leaves the document as read. |
| XlfProcessor.MergeFilesSnoc | lib/xlf-processor.js:157-187 | After a successful run over some files, one more file extends the merged list by its document, or ends the pass with its error. |
| XlfProcessor.MergeFilesStep | lib/xlf-processor.js:157-187 | After a successful prefix, one more file either extends the merged list by its document or ends the pass with its error. |
| XlfProcessor.PlanDecidesWithoutTranslator | lib/xlf-processor.js:121-130 | A missing list or equal lengths end the pass, with the error or with success and nothing merged, before any translation or listing. The result is the same for every translator and every directory state. |
| XlfProcessor.PlanPass | lib/xlf-processor.js:103-149 | The read, read and reconcile stages, with the diff loops, compute exactly `PlanIncremental` of the store. |
| XlfProcessor.MergeTranslations | lib/xlf-processor.js:159-183 | One listed file handled by the method (locale from the name, translate, read by name, append) gives exactly `MergeFile`. |
| XlfProcessor.IncrementalPass | lib/xlf-processor.js:96-192 | The pass succeeds only after a successful plan. When there are changes, success means the listed directory exists and every listed file was merged. Merged documents exist only after a plan with changes and a successful listing, and they follow the listing's order. |
| XlfProcessor.CheckAndUpdateMessagesIfAvailableFromSourceForTranslations | lib/xlf-processor.js:96-192 | The pass as written lists `<output>/messages` and returns the outcome and merged documents of `IncrementalPass`. It modifies nothing. |
| XlfProcessor.MergeListedFiles | lib/xlf-processor.js:157-187 | The loop over the listed files computes exactly `MergeFiles` and stops at the first error. |
| XlfProcessor.WriteMerged | lib/xlf-file-processor.js:70-79 | After the merged documents are written back, a path is stored iff it was stored before or a merged file is written to it. |
| XlfProcessor.WriteMergedOutside | lib/xlf-file-processor.js:70-79 | A path that no merged file is written to keeps its entry, or its absence. |
| XlfProcessor.WriteMergedAt | lib/xlf-file-processor.js:70-79 | With distinct file names, each merged document ends up stored at its file's path. |
| XlfProcessor.SavedFilesUnread | lib/xlf-processor.js:171-179 | When files are written back one by one, the next file still reads as in the original store. |
| XlfProcessor.LocaleCatalogues | lib/xlf-processor.js:157-162 | The corrected pass keeps from a listing only names recognised as locale catalogues, so every kept name is one. |
| XlfProcessor.LocaleCataloguesMember | lib/xlf-processor.js:157-162 | A name is kept iff it is listed and is a locale catalogue's name. |
| XlfProcessor.LocaleCataloguesDistinct | lib/xlf-processor.js:157-162 | Filtering a listing of distinct names keeps them distinct. |
| XlfProcessor.SavedPass | lib/xlf-processor.js:96-192 | The corrected pass succeeds only after a successful plan. When there are changes, success means the output directory exists and every locale catalogue it lists was merged. Every merged document belongs to a locale catalogue's name. |
| XlfProcessor.CheckAndUpdateMessagesAndSave | lib/xlf-processor.js:96-192 | The corrected pass lists the output directory, keeps only the locale catalogues, and writes each merged document back before handling the next one. Its outcome and merged documents are those of `SavedPass` on the old store. The new store is the old one with every merged document written back. It needs only that the store's listings hold distinct names. |
| XlfProcessor.MergeAndSaveFiles | lib/xlf-processor.js:157-187 | For distinct file names, the writing loop computes `MergeFiles` of the original store. It leaves the store with exactly the merged documents written back. |
| Findings.StemEntryIsReadElsewhere | lib/xlf-file-processor.js:46-58 | An entry of the listed stem directory is read from a different path than the one it was listed under. |
| Findings.OutputDirEntriesAreReadable | lib/xlf-file-processor.js:58 | Assuming every listed entry is stored, every entry listed in the output directory is found by name, so no listed file fails with a read error. |
| Findings.SavedPassMergesListedCatalogues | lib/xlf-processor.js:157-183 | Every document the corrected pass merges belongs to a locale catalogue listed in the output directory, in listing order. It is that file merged with the plan's new messages. |
| Findings.SavedPassSkipsSourceCatalogue | lib/xlf-processor.js:157-183 | When the source catalogue is kept in the output directory as `messages.xlf`, the corrected pass never merges it, and writing back leaves it as it was. |
| Findings.SavedPassPersistsMerge | lib/xlf-file-processor.js:70-79 | When the listings hold distinct names, the corrected pass writes each merged document to the very file it was read from. |
| Findings.SavedPassStoresReference | lib/xlf-processor.js:171-183 | After a successful corrected pass whose listing holds the first target language's catalogue, that catalogue holds its old trans-units followed by the translations. |
| Findings.SavedPassConverges | lib/xlf-processor.js:121-183 | Take a successful corrected pass on a store that meets these conditions: the output directory lists the first target language's catalogue; no listed locale catalogue shares the source's path; ids are unique; reference ids are source ids; the translator keeps the new messages' ids. Then the next pass reports "up to date". |
| Findings.ProjectPlan | lib/xlf-processor.js:121-149 | In the worked project, the reconciliation finds `c` new and nothing removed. |
| Findings.StemListingFails | lib/xlf-file-processor.js:45-50 | As written, in the store a full translation into French leaves, the listing of `<output>/messages` fails and nothing is merged. |
| Findings.OutputDirListingMerges | lib/xlf-processor.js:151-187 | Listing the output directory instead finds the French catalogue and merges the French `c` into it. |
| Findings.MergedCatalogueNotSaved | lib/xlf-processor.js:171-183 | As written, even when the listing succeeds and the merge yields `[a, b, c (fr)]`, the stored French catalogue stays `[a, b]`, and the next pass plans the same work again. |
| Findings.SavedCatalogueConverges | lib/xlf-processor.js:171-183 | Corrected, the French catalogue becomes `[a, b, c (fr)]`, and the next pass reports "up to date". |

## Left out

- XML parsing and building (`xml2js`): documents are taken as already parsed.
- Filesystem primitives: the store is a map from path to parsed document plus a map from directory to
  its listing.
- A path missing from the store stands for every read or parse failure. Failures have no message text.
- `doesFileExist` and `dirExistOrCreate` are not part of this model; the modelled routines do not
  call them.
- FileStore.Store.CreateXlfFile: a write does not add the new file to its directory's listing. The
  listings are those present when a routine starts. No routine lists a directory after writing to it.
- FileStore.Store.CreateXlfFile: a write always succeeds. The source attaches only a `once('open')`
  handler to the write stream (lib/xlf-file-processor.js:144-151). A failed open therefore emits an
  unhandled `'error'` event, which ends the process. The model does not represent that crash.
- The translation gateway (`lib/xlf-translator.js`) is not part of this model. It is an oracle that
  answers each request with an optional error and optional translations.
- Concurrency: `async.each` over the listed files runs the files concurrently in the source. The model
  handles them one at a time, in listing order, and stops at the first error.
  - A 429 reply ends the pass through `done(err)`. Any other translator error ends it through the
    loop's own callback. Both end the pass with that error, and the model does not distinguish the
    two routes. The double completion that the early `done(err)` causes is not modelled.
  - Files whose translation was already in flight when the error arrived are not modelled.
- Console output (`chalk`, `log-symbols`) is left out.
- The global `translatorConfig` is a parameter. The full translation's update of its `fromLanguage`
  is returned as a new configuration.
- JavaScript crash paths become explicit errors:
  - `getXlfMessages` runs on the result of a failed read (lib/xlf-processor.js:105, :112). The
    source throws a `TypeError`; the model reports `ReadFailed`.
  - A listed file whose read fails is dereferenced before its error is passed on
    (lib/xlf-processor.js:173-176). When there are translations this is a `TypeError`; the model
    reports `ReadFailed` in every case.
  - A source document without `file[0]` or `file[0].body[0]` is dereferenced by the full translation
    (lib/xlf-processor.js:58, :60). The source throws a `TypeError`; the model reports
    `MalformedDocument`.
  - In the incremental pass, a document without `file[0].body[0]`, or a merge target without a
    trans-unit list, is a `TypeError` in the source; the model reports `MalformedDocument`.
- XlfProcessor.TranslateLanguagesAndCreateResources: requires a document with a first body, which
  the source dereferences unconditionally. The caller checks for it.
- The error passed to `new Error(...)` at lib/xlf-processor.js:27 and :31 is an object rather than
  a string. The model keeps only the error kind and its code.
- `handleExistingMessages` only forwards to the incremental pass and is not modelled separately.
- The codes 1000, 1003 and 1004 are declared as constants but no modelled routine reports them.

## Findings

| source | as written | input that shows it | evidently intended | confidence | as-written member | corrected member |
|---|---|---|---|---|---|---|
| lib/xlf-processor.js:171-183 | The merged trans-unit list is appended only in memory. `updateXlfFile` is never called, so nothing is written back. | Source `[a, b, c]`, French catalogue `[a, b]`, and a listing that names `messages.fr.xlf`. The pass succeeds with the merged `[a, b, c (fr)]`, the file stays `[a, b]`, and every later pass repeats the same translation. | Write each merged document back with `updateXlfFile(fileName, xlfFile)`, so the French catalogue becomes `[a, b, c (fr)]` and the next pass is up to date. | not executed | Findings.MergedCatalogueNotSaved | Findings.SavedCatalogueConverges |
| lib/xlf-file-processor.js:46 | The translated catalogues are listed from `<appRoot><outputPath>/messages`. That is the common stem of their paths, not their directory. The entries are then read from `<appRoot><outputPath>/<name>`. | The store a full translation into French leaves: `<out>/messages.fr.xlf` exists and `<out>/messages` does not. With a new source message, the pass fails with a listing error and merges nothing. | List `<appRoot><outputPath>`, where the full translation writes the catalogues and where `getXlfFileByName` reads them. Keep only entries named `messages.<locale>.xlf`, so that other files in that directory, such as a source catalogue `messages.xlf`, are not merged. | not executed | Findings.StemListingFails | Findings.OutputDirListingMerges |
