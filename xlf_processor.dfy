/**
 * The sync orchestrator: the configuration guard, the full translation of the source
 * catalogue into every target language, and the incremental pass that translates the
 * messages new in the source and appends them to every existing locale catalogue.
 */
module XlfProcessor {
  import opened Wrappers
  import opened Xliff
  import opened XlfFileProcessor
  import opened Reconciler
  import opened FileStore

  /** JavaScript truthiness of an optional string: present and not empty. */
  predicate IsSet(s: Option<string>) {
    s.Some? && s.value != ""
  }

  /**
   * The configuration guard: a missing or empty `fromLanguage` is reported first,
   * then an empty `toLanguage` list.
   */
  function CheckConfig(cfg: Config): (r: Outcome<Error>)
    ensures r == Pass <==> IsSet(cfg.fromLanguage) && |cfg.toLanguage| > 0
    ensures !IsSet(cfg.fromLanguage) ==> r == Fail(NoFromLanguage)
    ensures IsSet(cfg.fromLanguage) && |cfg.toLanguage| == 0 ==> r == Fail(NoToLanguage)
    ensures r.Fail? ==> r.error.Code() == Some(if IsSet(cfg.fromLanguage) then NoToLanguageCode else NoFromLanguageCode)
  {
    if !IsSet(cfg.fromLanguage) then Fail(NoFromLanguage)
    else if |cfg.toLanguage| == 0 then Fail(NoToLanguage)
    else Pass
  }

  /** The source language used for translating: the configured one, else the document's. */
  function EffectiveFromLanguage(cfg: Config, doc: XlfDocument): (from: Option<string>)
    requires |doc.files| > 0
    ensures IsSet(cfg.fromLanguage) ==> from == cfg.fromLanguage
    ensures !IsSet(cfg.fromLanguage) ==> from == doc.files[0].sourceLanguage
  {
    if IsSet(cfg.fromLanguage) then cfg.fromLanguage else doc.files[0].sourceLanguage
  }

  // ===========================================================================
  // Full translation

  /**
   * What one language contributes: the document with its trans-unit list replaced by
   * the translation of `units`, or the translator's error.
   */
  function LanguageOutput(lang: string, units: Option<seq<TransUnit>>, doc: XlfDocument,
                          from: Option<string>, translate: Translator): (r: Result<XlfDocument, Error>)
    requires HasFirstBody(doc)
    ensures var reply := translate(Request(units, from, Some(lang)));
      && (r.Ok? <==> reply.error.None?)
      && (r.Err? ==> r.error == TranslatorFailed(reply.error.value))
      && (r.Ok? ==> HasFirstBody(r.value) && GetXlfMessages(r.value) == reply.units)
  {
    var reply := translate(Request(units, from, Some(lang)));
    if reply.error.Some? then Err(TranslatorFailed(reply.error.value))
    else Ok(SetXlfMessages(doc, reply.units))
  }

  /**
   * The languages handled one after another: each output is written to its locale
   * catalogue's path before the next language starts, and the first error ends the run.
   */
  function TranslateLanguages(langs: seq<string>, units: Option<seq<TransUnit>>, doc: XlfDocument,
                              from: Option<string>, root: string, cfg: Config, translate: Translator,
                              files: map<string, XlfDocument>): (r: (Outcome<Error>, map<string, XlfDocument>))
    requires HasFirstBody(doc)
    ensures forall p :: p in files ==> p in r.1
    decreases |langs|
  {
    if langs == [] then (Pass, files)
    else
      match LanguageOutput(langs[0], units, doc, from, translate)
      case Err(e) => (Fail(e), files)
      case Ok(out) =>
        TranslateLanguages(langs[1..], units, doc, from, root, cfg, translate,
                           files[LocaleFilePath(root, cfg, langs[0]) := out])
  }

  /** The index of the first language whose translation fails, or `|langs|`. */
  function FirstFailure(langs: seq<string>, units: Option<seq<TransUnit>>, doc: XlfDocument,
                        from: Option<string>, translate: Translator): (k: nat)
    requires HasFirstBody(doc)
    ensures k <= |langs|
    ensures forall j :: 0 <= j < k ==> LanguageOutput(langs[j], units, doc, from, translate).Ok?
    ensures k < |langs| ==> LanguageOutput(langs[k], units, doc, from, translate).Err?
    decreases |langs|
  {
    if langs == [] then 0
    else if LanguageOutput(langs[0], units, doc, from, translate).Err? then 0
    else 1 + FirstFailure(langs[1..], units, doc, from, translate)
  }

  /** The store after writing the output of every language of `langs`, in order. */
  function WriteOutputs(files: map<string, XlfDocument>, langs: seq<string>, units: Option<seq<TransUnit>>,
                        doc: XlfDocument, from: Option<string>, root: string, cfg: Config,
                        translate: Translator): map<string, XlfDocument>
    requires HasFirstBody(doc)
    requires forall j :: 0 <= j < |langs| ==> LanguageOutput(langs[j], units, doc, from, translate).Ok?
    decreases |langs|
  {
    if langs == [] then files
    else
      WriteOutputs(files[LocaleFilePath(root, cfg, langs[0]) := LanguageOutput(langs[0], units, doc, from, translate).value],
                   langs[1..], units, doc, from, root, cfg, translate)
  }

  /**
   * The run handles the languages in order and stops at the first failing one: it
   * reports that language's error, or success when none fails, and it has written
   * exactly the outputs of the languages before it.
   */
  lemma {:induction false} TranslateLanguagesStopsAtFirstFailure(
    langs: seq<string>, units: Option<seq<TransUnit>>, doc: XlfDocument, from: Option<string>,
    root: string, cfg: Config, translate: Translator, files: map<string, XlfDocument>)
    requires HasFirstBody(doc)
    ensures var k := FirstFailure(langs, units, doc, from, translate);
      TranslateLanguages(langs, units, doc, from, root, cfg, translate, files)
      == (if k == |langs| then Pass else Fail(LanguageOutput(langs[k], units, doc, from, translate).error),
          WriteOutputs(files, langs[..k], units, doc, from, root, cfg, translate))
    decreases |langs|
  {
    if langs != [] {
      var first := LanguageOutput(langs[0], units, doc, from, translate);
      if first.Ok? {
        var files' := files[LocaleFilePath(root, cfg, langs[0]) := first.value];
        TranslateLanguagesStopsAtFirstFailure(langs[1..], units, doc, from, root, cfg, translate, files');
        var k := FirstFailure(langs, units, doc, from, translate);
        assert langs[..k][1..] == langs[1..][..k - 1];
      }
    }
  }

  /** A store that the writes of `langs` do not touch at `p` keeps its entry there. */
  lemma {:induction false} WriteOutputsUntouched(
    files: map<string, XlfDocument>, langs: seq<string>, units: Option<seq<TransUnit>>, doc: XlfDocument,
    from: Option<string>, root: string, cfg: Config, translate: Translator, p: string)
    requires HasFirstBody(doc)
    requires forall j :: 0 <= j < |langs| ==> LanguageOutput(langs[j], units, doc, from, translate).Ok?
    requires forall j :: 0 <= j < |langs| ==> LocaleFilePath(root, cfg, langs[j]) != p
    ensures var out := WriteOutputs(files, langs, units, doc, from, root, cfg, translate);
      (p in out <==> p in files) && (p in files ==> out[p] == files[p])
    decreases |langs|
  {
    if langs != [] {
      var files' := files[LocaleFilePath(root, cfg, langs[0]) := LanguageOutput(langs[0], units, doc, from, translate).value];
      WriteOutputsUntouched(files', langs[1..], units, doc, from, root, cfg, translate, p);
    }
  }

  /**
   * After the writes of `langs`, each language's locale catalogue holds its output. A
   * language listed twice gets the same output both times only because the translator
   * is a deterministic function here; with a real provider the last write wins.
   */
  lemma {:induction false} WriteOutputsWritten(
    files: map<string, XlfDocument>, langs: seq<string>, units: Option<seq<TransUnit>>, doc: XlfDocument,
    from: Option<string>, root: string, cfg: Config, translate: Translator, j: nat)
    requires HasFirstBody(doc)
    requires forall i :: 0 <= i < |langs| ==> LanguageOutput(langs[i], units, doc, from, translate).Ok?
    requires j < |langs|
    ensures var out := WriteOutputs(files, langs, units, doc, from, root, cfg, translate);
      var p := LocaleFilePath(root, cfg, langs[j]);
      p in out && out[p] == SetXlfMessages(doc, translate(Request(units, from, Some(langs[j]))).units)
    decreases |langs|
  {
    var out := LanguageOutput(langs[0], units, doc, from, translate).value;
    var files' := files[LocaleFilePath(root, cfg, langs[0]) := out];
    var rest := langs[1..];
    if j > 0 {
      WriteOutputsWritten(files', rest, units, doc, from, root, cfg, translate, j - 1);
    } else if langs[0] in rest {
      var i :| 0 <= i < |rest| && rest[i] == langs[0];
      WriteOutputsWritten(files', rest, units, doc, from, root, cfg, translate, i);
    } else {
      forall i | 0 <= i < |rest| ensures LocaleFilePath(root, cfg, rest[i]) != LocaleFilePath(root, cfg, langs[0]) {
        LocaleFilePathInjective(root, cfg, rest[i], langs[0]);
      }
      WriteOutputsUntouched(files', rest, units, doc, from, root, cfg, translate, LocaleFilePath(root, cfg, langs[0]));
    }
  }

  /**
   * Translate every language of `languages` from the trans-unit list the document has
   * on entry, overwrite the document's list with each result and write the document
   * to that language's catalogue, stopping at the first translator error.
   */
  method TranslateLanguagesAndCreateResources(cfg: Config, root: string, languages: seq<string>,
                                              xlfSourceFile: XlfDocument, translate: Translator, fs: Store)
    returns (outcome: Outcome<Error>, cfg': Config)
    requires HasFirstBody(xlfSourceFile)
    modifies fs
    ensures cfg' == cfg.(fromLanguage := EffectiveFromLanguage(cfg, xlfSourceFile))
    ensures (outcome, fs.files) == TranslateLanguages(languages, GetXlfMessages(xlfSourceFile), xlfSourceFile,
                                                      cfg'.fromLanguage, root, cfg, translate, old(fs.files))
    ensures fs.dirs == old(fs.dirs)
  {
    var file := xlfSourceFile.files[0];
    cfg' := cfg.(fromLanguage := if IsSet(cfg.fromLanguage) then cfg.fromLanguage else file.sourceLanguage);
    var bodyArray := GetXlfMessages(xlfSourceFile);
    var doc := xlfSourceFile;
    SetGetIdentity(xlfSourceFile);
    outcome := Pass;
    var i := 0;
    while i < |languages|
      invariant 0 <= i <= |languages|
      invariant HasFirstBody(doc) && doc == SetXlfMessages(xlfSourceFile, GetXlfMessages(doc))
      invariant fs.dirs == old(fs.dirs)
      invariant TranslateLanguages(languages, bodyArray, xlfSourceFile, cfg'.fromLanguage, root, cfg, translate, old(fs.files))
             == TranslateLanguages(languages[i..], bodyArray, xlfSourceFile, cfg'.fromLanguage, root, cfg, translate, fs.files)
    {
      var languageToTranslate := languages[i];
      var reply := translate(Request(bodyArray, cfg'.fromLanguage, Some(languageToTranslate)));
      if reply.error.Some? {
        outcome := Fail(TranslatorFailed(reply.error.value));
        return;
      }
      SetTwice(xlfSourceFile, GetXlfMessages(doc), reply.units);
      doc := SetXlfMessages(doc, reply.units);
      fs.CreateXlfFile(LocaleFilePath(root, cfg, languageToTranslate), doc);
      assert languages[i..][1..] == languages[i + 1..];
      i := i + 1;
    }
  }

  /**
   * The whole full translation as a function of the store: the configuration guard,
   * the read of the source catalogue, then the per-language run.
   */
  function FullTranslation(cfg: Config, root: string, toLanguages: seq<string>,
                           files: map<string, XlfDocument>, translate: Translator): (r: (Outcome<Error>, map<string, XlfDocument>))
    ensures forall p :: p in files ==> p in r.1
    ensures r.1 != files ==> && CheckConfig(cfg) == Pass && SourceFilePath(root, cfg) in files
                             && HasFirstBody(files[SourceFilePath(root, cfg)])
    ensures CheckConfig(cfg) == Pass && SourceFilePath(root, cfg) !in files ==>
      r == (Fail(ReadFailed(SourceFilePath(root, cfg))), files)
  {
    var check := CheckConfig(cfg);
    if check.Fail? then (check, files)
    else
      var path := SourceFilePath(root, cfg);
      if path !in files then (Fail(ReadFailed(path)), files)
      else if !HasFirstBody(files[path]) then (Fail(MalformedDocument(path)), files)
      else
        var doc := files[path];
        TranslateLanguages(toLanguages, GetXlfMessages(doc), doc, EffectiveFromLanguage(cfg, doc),
                           root, cfg, translate, files)
  }

  /**
   * Check the configuration, read the source catalogue and create a translated
   * catalogue for every language of `toLanguages`.
   */
  method TranslateAndProcessFilesWithGoogleApi(cfg: Config, root: string, toLanguages: seq<string>,
                                               translate: Translator, fs: Store)
    returns (outcome: Outcome<Error>)
    modifies fs
    ensures (outcome, fs.files) == FullTranslation(cfg, root, toLanguages, old(fs.files), translate)
    ensures fs.dirs == old(fs.dirs)
    ensures old(fs.Valid()) ==> fs.Valid()
  {
    outcome := CheckConfig(cfg);
    if outcome.Fail? {
      return;
    }
    var path := SourceFilePath(root, cfg);
    var xlfSourceFile := fs.ReadXlfFile(path);
    if xlfSourceFile.Err? {
      outcome := Fail(xlfSourceFile.error);
      return;
    }
    if !HasFirstBody(xlfSourceFile.value) {
      outcome := Fail(MalformedDocument(path));
      return;
    }
    var cfg';
    outcome, cfg' := TranslateLanguagesAndCreateResources(cfg, root, toLanguages, xlfSourceFile.value, translate, fs);
  }

  /**
   * A configuration error is reported whatever the store holds: it comes before the
   * source catalogue is read, and nothing is written.
   */
  lemma ConfigErrorPrecedesRead(cfg: Config, root: string, toLanguages: seq<string>,
                                files: map<string, XlfDocument>, translate: Translator)
    requires CheckConfig(cfg).Fail?
    ensures FullTranslation(cfg, root, toLanguages, files, translate) == (CheckConfig(cfg), files)
  {
  }

  /**
   * Once the guard passes and the source catalogue is read: the run succeeds exactly
   * when every language translates; otherwise it reports the first failing language's
   * error. Each language before that one has its catalogue, holding the source document
   * with the trans-unit list replaced by the translation of the ORIGINAL source list.
   * Every other path keeps what it held, so languages from the failing one on get no
   * file (unless an earlier language shares its code).
   */
  lemma FullTranslationSpec(cfg: Config, root: string, toLanguages: seq<string>,
                            files: map<string, XlfDocument>, translate: Translator)
    requires CheckConfig(cfg) == Pass
    requires SourceFilePath(root, cfg) in files && HasFirstBody(files[SourceFilePath(root, cfg)])
    ensures var src := files[SourceFilePath(root, cfg)];
      var units := GetXlfMessages(src);
      var k := FirstFailure(toLanguages, units, src, cfg.fromLanguage, translate);
      var (outcome, out) := FullTranslation(cfg, root, toLanguages, files, translate);
      && (outcome == Pass <==> k == |toLanguages|)
      && (outcome.Fail? ==> outcome.error == TranslatorFailed(translate(Request(units, cfg.fromLanguage, Some(toLanguages[k]))).error.value))
      && (forall j :: 0 <= j < k ==>
            && LocaleFilePath(root, cfg, toLanguages[j]) in out
            && out[LocaleFilePath(root, cfg, toLanguages[j])]
               == SetXlfMessages(src, translate(Request(units, cfg.fromLanguage, Some(toLanguages[j]))).units))
      && (forall p :: (forall j :: 0 <= j < k ==> LocaleFilePath(root, cfg, toLanguages[j]) != p) ==>
            (p in out <==> p in files) && (p in files ==> out[p] == files[p]))
  {
    var src := files[SourceFilePath(root, cfg)];
    var units := GetXlfMessages(src);
    var from := cfg.fromLanguage;
    var k := FirstFailure(toLanguages, units, src, from, translate);
    var done := toLanguages[..k];
    var out := WriteOutputs(files, done, units, src, from, root, cfg, translate);
    assert FullTranslation(cfg, root, toLanguages, files, translate)
        == (if k == |toLanguages| then Pass else Fail(LanguageOutput(toLanguages[k], units, src, from, translate).error), out) by {
      TranslateLanguagesStopsAtFirstFailure(toLanguages, units, src, from, root, cfg, translate, files);
    }
    forall j | 0 <= j < k
      ensures LocaleFilePath(root, cfg, toLanguages[j]) in out
      ensures out[LocaleFilePath(root, cfg, toLanguages[j])]
              == SetXlfMessages(src, translate(Request(units, from, Some(toLanguages[j]))).units)
    {
      WriteOutputsWritten(files, done, units, src, from, root, cfg, translate, j);
      assert done[j] == toLanguages[j];
    }
    forall p | forall j :: 0 <= j < k ==> LocaleFilePath(root, cfg, toLanguages[j]) != p
      ensures (p in out <==> p in files) && (p in files ==> out[p] == files[p])
    {
      WriteOutputsUntouched(files, done, units, src, from, root, cfg, translate, p);
    }
  }

  // ===========================================================================
  // Incremental pass

  /**
   * The locale of the reference catalogue: the first configured target language.
   * An empty list yields `undefined`, which the path template renders as that word.
   */
  function FirstLocale(cfg: Config): (locale: string)
    ensures |cfg.toLanguage| > 0 ==> locale == cfg.toLanguage[0]
    ensures |cfg.toLanguage| == 0 ==> locale == "undefined"
  {
    if |cfg.toLanguage| > 0 then cfg.toLanguage[0] else "undefined"
  }

  /** The trans-unit list of the catalogue at `path`, or the error its read ends with. */
  function ReadMessages(files: map<string, XlfDocument>, path: string): (r: Result<Option<seq<TransUnit>>, Error>)
    ensures r.Ok? <==> path in files && HasFirstBody(files[path])
    ensures r.Ok? ==> r.value == GetXlfMessages(files[path])
    ensures r.Err? ==> r.error == if path in files then MalformedDocument(path) else ReadFailed(path)
  {
    if path !in files then Err(ReadFailed(path))
    else if !HasFirstBody(files[path]) then Err(MalformedDocument(path))
    else Ok(GetXlfMessages(files[path]))
  }

  /**
   * The first three stages of the pass: read the source catalogue, read the reference
   * catalogue of the first target language, and reconcile their trans-unit lists.
   */
  function PlanIncremental(cfg: Config, root: string, files: map<string, XlfDocument>): (r: Result<Plan, Error>)
    ensures var src, ref := ReadMessages(files, SourceFilePath(root, cfg)),
                            ReadMessages(files, LocaleFilePath(root, cfg, FirstLocale(cfg)));
      && (src.Err? ==> r == Err(src.error))
      && (src.Ok? && ref.Err? ==> r == Err(ref.error))
      && (r == Ok(UpToDate) <==> src.Ok? && ref.Ok? && src.value.Some? && ref.value.Some?
                                  && |src.value.value| == |ref.value.value|)
      && (src.Ok? && ref.Ok? && (src.value.None? || ref.value.None?) ==> r == Err(MessagesMissing))
  {
    match ReadMessages(files, SourceFilePath(root, cfg))
    case Err(e) => Err(e)
    case Ok(sourceMessages) =>
      match ReadMessages(files, LocaleFilePath(root, cfg, FirstLocale(cfg)))
      case Err(e) => Err(e)
      case Ok(firstFileMessages) => Reconcile(sourceMessages, firstFileMessages)
  }

  /**
   * One listed file: translate the new messages into the locale taken from the file's
   * name, read the file, and append the translations to its trans-unit list when there
   * are any. A translator error (status 429 or another) or a read error ends the file.
   */
  function MergeFile(fileName: string, newMessages: seq<TransUnit>, cfg: Config, root: string,
                     files: map<string, XlfDocument>, translate: Translator): (r: Result<XlfDocument, Error>)
    ensures var reply := translate(Request(Some(newMessages), cfg.fromLanguage, LocaleOfFileName(fileName)));
      var path := FileByNamePath(root, cfg, fileName);
      && (reply.error.Some? ==> r == Err(TranslatorFailed(reply.error.value)))
      && (reply.error.None? && path !in files ==> r == Err(ReadFailed(path)))
      && (r.Err? ==> r.error.TranslatorFailed? || r.error == ReadFailed(path) || r.error == MalformedDocument(path))
      && (r.Ok? ==> reply.error.None? && path in files)
  {
    var reply := translate(Request(Some(newMessages), cfg.fromLanguage, LocaleOfFileName(fileName)));
    if reply.error.Some? then Err(TranslatorFailed(reply.error.value))
    else
      var path := FileByNamePath(root, cfg, fileName);
      if path !in files then Err(ReadFailed(path))
      else if reply.units.None? || |reply.units.value| == 0 then Ok(files[path])
      else if !HasFirstBody(files[path]) || GetXlfMessages(files[path]).None? then Err(MalformedDocument(path))
      else Ok(SetXlfMessages(files[path], Some(GetXlfMessages(files[path]).value + reply.units.value)))
  }

  /**
   * The listed files handled in order; the first error ends the pass. The second
   * component holds each file handled before that, paired with its merged document.
   */
  function MergeFiles(names: seq<string>, newMessages: seq<TransUnit>, cfg: Config, root: string,
                      files: map<string, XlfDocument>, translate: Translator): (r: (Outcome<Error>, seq<(string, XlfDocument)>))
    ensures |r.1| <= |names|
    ensures forall i :: 0 <= i < |r.1| ==>
      r.1[i].0 == names[i] && MergeFile(names[i], newMessages, cfg, root, files, translate) == Ok(r.1[i].1)
    ensures r.0 == Pass <==> |r.1| == |names|
    ensures r.0.Fail? ==> MergeFile(names[|r.1|], newMessages, cfg, root, files, translate) == Err(r.0.error)
    decreases |names|
  {
    if names == [] then (Pass, [])
    else
      var prev := MergeFiles(names[..|names| - 1], newMessages, cfg, root, files, translate);
      if prev.0.Fail? then prev
      else
        match MergeFile(names[|names| - 1], newMessages, cfg, root, files, translate)
        case Err(e) => (Fail(e), prev.1)
        case Ok(doc) => (Pass, prev.1 + [(names[|names| - 1], doc)])
  }

  /** Once a prefix of the files fails, the files after it change nothing. */
  lemma {:induction false} MergeFilesFailureStays(names: seq<string>, more: seq<string>, newMessages: seq<TransUnit>,
                                                   cfg: Config, root: string, files: map<string, XlfDocument>,
                                                   translate: Translator)
    requires MergeFiles(names, newMessages, cfg, root, files, translate).0.Fail?
    ensures MergeFiles(names + more, newMessages, cfg, root, files, translate)
         == MergeFiles(names, newMessages, cfg, root, files, translate)
    decreases |more|
  {
    if more == [] {
      assert names + more == names;
    } else {
      var init := more[..|more| - 1];
      MergeFilesFailureStays(names, init, newMessages, cfg, root, files, translate);
      var all := names + more;
      assert all[..|all| - 1] == names + init;
    }
  }

  /**
   * A rate-limit reply for file `k`, after every earlier file went through, ends the
   * whole pass with that error and no later file is handled.
   */
  lemma RateLimitEndsPass(names: seq<string>, newMessages: seq<TransUnit>, cfg: Config, root: string,
                          files: map<string, XlfDocument>, translate: Translator, k: nat)
    requires k < |names|
    requires forall i :: 0 <= i < k ==> MergeFile(names[i], newMessages, cfg, root, files, translate).Ok?
    requires MergeFile(names[k], newMessages, cfg, root, files, translate).Err?
    requires MergeFile(names[k], newMessages, cfg, root, files, translate).error.IsRateLimited()
    ensures var r := MergeFiles(names, newMessages, cfg, root, files, translate);
      r.0 == Fail(MergeFile(names[k], newMessages, cfg, root, files, translate).error)
      && r.0.error.cause.statusCode == Some(RateLimitStatus)
      && |r.1| == k
  {
  }

  /**
   * A merged file keeps its existing trans-units unchanged and in place and has the
   * translations appended after them; the rest of the document is as it was read.
   * Without translations the document is the one read.
   */
  lemma MergeFileAppends(fileName: string, newMessages: seq<TransUnit>, cfg: Config, root: string,
                         files: map<string, XlfDocument>, translate: Translator)
    requires MergeFile(fileName, newMessages, cfg, root, files, translate).Ok?
    ensures var path := FileByNamePath(root, cfg, fileName);
      var reply := translate(Request(Some(newMessages), cfg.fromLanguage, LocaleOfFileName(fileName)));
      var doc := MergeFile(fileName, newMessages, cfg, root, files, translate).value;
      && path in files && reply.error.None?
      && (reply.units.None? || reply.units.value == [] ==> doc == files[path])
      && (reply.units.Some? && reply.units.value != [] ==>
            && HasFirstBody(files[path]) && GetXlfMessages(files[path]).Some?
            && HasFirstBody(doc) && GetXlfMessages(doc).Some?
            && var before, after := GetXlfMessages(files[path]).value, GetXlfMessages(doc).value;
            && |after| == |before| + |reply.units.value|
            && after[..|before|] == before
            && after[|before|..] == reply.units.value
            && doc.files[1..] == files[path].files[1..]
            && doc.files[0].bodies[1..] == files[path].files[0].bodies[1..])
  {
  }

  /** Extending a successful prefix by one file: that file's result decides the pass. */
  lemma MergeFilesSnoc(names: seq<string>, name: string, newMessages: seq<TransUnit>, cfg: Config, root: string,
                       files: map<string, XlfDocument>, translate: Translator, merged: seq<(string, XlfDocument)>)
    requires MergeFiles(names, newMessages, cfg, root, files, translate) == (Pass, merged)
    ensures var r := MergeFile(name, newMessages, cfg, root, files, translate);
      MergeFiles(names + [name], newMessages, cfg, root, files, translate)
      == if r.Ok? then (Pass, merged + [(name, r.value)]) else (Fail(r.error), merged)
  {
    var all := names + [name];
    assert all[..|all| - 1] == names && all[|all| - 1] == name;
  }

  /** A sequence is its prefix up to `k` followed by the rest. */
  lemma SplitAt<T>(s: seq<T>, k: nat)
    requires k <= |s|
    ensures s[..k] + s[k..] == s
  {
  }

  /** Handling file `i` after a successful prefix: extend the prefix, or end the pass. */
  lemma MergeFilesStep(names: seq<string>, i: nat, newMessages: seq<TransUnit>, cfg: Config, root: string,
                       files: map<string, XlfDocument>, translate: Translator, merged: seq<(string, XlfDocument)>)
    requires i < |names|
    requires MergeFiles(names[..i], newMessages, cfg, root, files, translate) == (Pass, merged)
    ensures var r := MergeFile(names[i], newMessages, cfg, root, files, translate);
      && (r.Ok? ==> MergeFiles(names[..i + 1], newMessages, cfg, root, files, translate) == (Pass, merged + [(names[i], r.value)]))
      && (r.Err? ==> MergeFiles(names, newMessages, cfg, root, files, translate) == (Fail(r.error), merged))
  {
    var prefix := names[..i + 1];
    assert prefix == names[..i] + [names[i]];
    MergeFilesSnoc(names[..i], names[i], newMessages, cfg, root, files, translate, merged);
    var r := MergeFile(names[i], newMessages, cfg, root, files, translate);
    if r.Err? {
      SplitAt(names, i + 1);
      MergeFilesFailureStays(prefix, names[i + 1..], newMessages, cfg, root, files, translate);
    }
  }

  /**
   * The pass as a function of the store and of the directory it lists: the plan, then,
   * when the lists differ in length, the merge of every listed file. The store itself is
   * not an output: the pass writes nothing.
   */
  function IncrementalPass(cfg: Config, root: string, files: map<string, XlfDocument>,
                           dirs: map<string, seq<string>>, translate: Translator, listDir: string)
    : (r: (Outcome<Error>, seq<(string, XlfDocument)>))
    ensures var plan := PlanIncremental(cfg, root, files);
      && (r.0 == Pass ==> plan.Ok? && (plan.value.Changes? ==> listDir in dirs && |r.1| == |dirs[listDir]|))
      && (r.1 != [] ==> plan.Ok? && plan.value.Changes? && listDir in dirs && |r.1| <= |dirs[listDir]|
                        && forall i :: 0 <= i < |r.1| ==> r.1[i].0 == dirs[listDir][i])
  {
    match PlanIncremental(cfg, root, files)
    case Err(e) => (Fail(e), [])
    case Ok(UpToDate) => (Pass, [])
    case Ok(Changes(newMessages, _)) =>
      if listDir !in dirs then (Fail(ListFailed(listDir)), [])
      else MergeFiles(dirs[listDir], newMessages, cfg, root, files, translate)
  }

  /**
   * Missing lists end the pass with an error, and equal lengths end it successfully,
   * in both cases before any translator call or file listing: the result does not
   * depend on the translator or on the directories.
   */
  lemma PlanDecidesWithoutTranslator(cfg: Config, root: string, files: map<string, XlfDocument>,
                                     dirs: map<string, seq<string>>, dirs': map<string, seq<string>>,
                                     t1: Translator, t2: Translator, listDir: string)
    requires PlanIncremental(cfg, root, files).Err? || PlanIncremental(cfg, root, files) == Ok(UpToDate)
    ensures IncrementalPass(cfg, root, files, dirs, t1, listDir) == IncrementalPass(cfg, root, files, dirs', t2, listDir)
    ensures IncrementalPass(cfg, root, files, dirs, t1, listDir).1 == []
    ensures PlanIncremental(cfg, root, files).Err? ==>
      IncrementalPass(cfg, root, files, dirs, t1, listDir).0 == Fail(PlanIncremental(cfg, root, files).error)
  {
  }

  /** The read-and-reconcile stages, with the two `forEach` loops of the reconciler. */
  method PlanPass(cfg: Config, root: string, fs: Store) returns (plan: Result<Plan, Error>)
    ensures plan == PlanIncremental(cfg, root, fs.files)
  {
    var sourcePath := SourceFilePath(root, cfg);
    var xlfSourceFile := fs.ReadXlfFile(sourcePath);
    if xlfSourceFile.Err? {
      return Err(xlfSourceFile.error);
    }
    if !HasFirstBody(xlfSourceFile.value) {
      return Err(MalformedDocument(sourcePath));
    }
    var sourceMessages := GetXlfMessages(xlfSourceFile.value);
    var firstPath := LocaleFilePath(root, cfg, FirstLocale(cfg));
    var firstXlfFile := fs.ReadXlfFile(firstPath);
    if firstXlfFile.Err? {
      return Err(firstXlfFile.error);
    }
    if !HasFirstBody(firstXlfFile.value) {
      return Err(MalformedDocument(firstPath));
    }
    var firstFileMessages := GetXlfMessages(firstXlfFile.value);
    if sourceMessages.None? || firstFileMessages.None? {
      return Err(MessagesMissing);
    }
    if |sourceMessages.value| == |firstFileMessages.value| {
      return Ok(UpToDate);
    }
    var newMessages, removeMessages := ComputeDiff(sourceMessages.value, firstFileMessages.value);
    plan := Ok(Changes(newMessages, removeMessages));
  }

  /** One listed file: translate, read, append. */
  method MergeTranslations(fileName: string, newMessages: seq<TransUnit>, cfg: Config, root: string,
                           translate: Translator, fs: Store) returns (r: Result<XlfDocument, Error>)
    ensures r == MergeFile(fileName, newMessages, cfg, root, fs.files, translate)
  {
    var languageTo := LocaleOfFileName(fileName);
    var reply := translate(Request(Some(newMessages), cfg.fromLanguage, languageTo));
    if reply.error.Some? {
      return Err(TranslatorFailed(reply.error.value));
    }
    var path := FileByNamePath(root, cfg, fileName);
    var xlfFile := fs.ReadXlfFile(path);
    if xlfFile.Err? {
      return Err(xlfFile.error);
    }
    var doc := xlfFile.value;
    if reply.units.Some? && |reply.units.value| > 0 {
      if !HasFirstBody(doc) || GetXlfMessages(doc).None? {
        return Err(MalformedDocument(path));
      }
      doc := SetXlfMessages(doc, Some(GetXlfMessages(doc).value + reply.units.value));
    }
    r := Ok(doc);
  }

  /**
   * The incremental pass as written: it lists `<outputPath>/messages`, merges every
   * listed file in memory and returns the merged documents, but writes nothing back.
   */
  method CheckAndUpdateMessagesIfAvailableFromSourceForTranslations(cfg: Config, root: string,
                                                                    translate: Translator, fs: Store)
    returns (outcome: Outcome<Error>, merged: seq<(string, XlfDocument)>)
    ensures (outcome, merged) == IncrementalPass(cfg, root, fs.files, fs.dirs, translate, TranslatedFilesDirPath(root, cfg))
  {
    var plan := PlanPass(cfg, root, fs);
    merged := [];
    if plan.Err? {
      return Fail(plan.error), [];
    }
    if plan.value.UpToDate? {
      return Pass, [];
    }
    var newMessages := plan.value.newMessages;
    var listDir := TranslatedFilesDirPath(root, cfg);
    var listing := fs.ListFiles(listDir);
    if listing.Err? {
      return Fail(listing.error), [];
    }
    outcome, merged := MergeListedFiles(listing.value, newMessages, cfg, root, translate, fs);
  }

  /** The loop over the listed files, merging in memory only. */
  method MergeListedFiles(names: seq<string>, newMessages: seq<TransUnit>, cfg: Config, root: string,
                          translate: Translator, fs: Store)
    returns (outcome: Outcome<Error>, merged: seq<(string, XlfDocument)>)
    ensures (outcome, merged) == MergeFiles(names, newMessages, cfg, root, fs.files, translate)
  {
    merged := [];
    outcome := Pass;
    var i := 0;
    while i < |names|
      invariant 0 <= i <= |names|
      invariant MergeFiles(names[..i], newMessages, cfg, root, fs.files, translate) == (Pass, merged)
    {
      var r := MergeTranslations(names[i], newMessages, cfg, root, translate, fs);
      MergeFilesStep(names, i, newMessages, cfg, root, fs.files, translate, merged);
      if r.Err? {
        outcome := Fail(r.error);
        return;
      }
      merged := merged + [(names[i], r.value)];
      i := i + 1;
    }
    assert names[..i] == names;
  }

  // ---------------------------------------------------------------------------
  // The pass with its two defects corrected: it lists the output directory, where
  // the locale catalogues are, and writes every merged catalogue back.

  /** The store after writing each merged document back to the file it was read from. */
  function WriteMerged(files: map<string, XlfDocument>, merged: seq<(string, XlfDocument)>,
                       root: string, cfg: Config): (out: map<string, XlfDocument>)
    ensures forall p :: p in out <==>
      p in files || exists j :: 0 <= j < |merged| && FileByNamePath(root, cfg, merged[j].0) == p
    decreases |merged|
  {
    if merged == [] then files
    else
      var last := merged[|merged| - 1];
      WriteMerged(files, merged[..|merged| - 1], root, cfg)[FileByNamePath(root, cfg, last.0) := last.1]
  }

  /** Writing one more merged document after the others. */
  lemma WriteMergedSnoc(files: map<string, XlfDocument>, merged: seq<(string, XlfDocument)>,
                        root: string, cfg: Config, last: (string, XlfDocument))
    ensures WriteMerged(files, merged + [last], root, cfg)
         == WriteMerged(files, merged, root, cfg)[FileByNamePath(root, cfg, last.0) := last.1]
  {
    assert (merged + [last])[..|merged|] == merged;
  }

  /** A path that no merged file is written to keeps its entry, or its absence. */
  lemma {:induction false} WriteMergedOutside(files: map<string, XlfDocument>, merged: seq<(string, XlfDocument)>,
                                              root: string, cfg: Config, p: string)
    requires forall j :: 0 <= j < |merged| ==> FileByNamePath(root, cfg, merged[j].0) != p
    ensures var out := WriteMerged(files, merged, root, cfg);
      (p in out <==> p in files) && (p in files ==> out[p] == files[p])
    decreases |merged|
  {
    if merged != [] {
      WriteMergedOutside(files, merged[..|merged| - 1], root, cfg, p);
    }
  }

  /** With distinct file names, every merged document is stored at its file's path. */
  lemma {:induction false} WriteMergedAt(files: map<string, XlfDocument>, merged: seq<(string, XlfDocument)>,
                                         root: string, cfg: Config, j: nat)
    requires forall a, b :: 0 <= a < b < |merged| ==> merged[a].0 != merged[b].0
    requires j < |merged|
    ensures var out, p := WriteMerged(files, merged, root, cfg), FileByNamePath(root, cfg, merged[j].0);
      p in out && out[p] == merged[j].1
    decreases |merged|
  {
    var n := |merged| - 1;
    if j < n {
      WriteMergedAt(files, merged[..n], root, cfg, j);
      FileByNamePathInjective(root, cfg, merged[n].0, merged[j].0);
    }
  }

  /**
   * With distinct file names, the file handled next has not been written yet: it reads
   * the same from the partly written store as from the original one.
   */
  lemma SavedFilesUnread(names: seq<string>, i: nat, newMessages: seq<TransUnit>, cfg: Config, root: string,
                         files: map<string, XlfDocument>, translate: Translator, merged: seq<(string, XlfDocument)>)
    requires i < |names|
    requires Distinct(names)
    requires MergeFiles(names[..i], newMessages, cfg, root, files, translate) == (Pass, merged)
    ensures MergeFile(names[i], newMessages, cfg, root, WriteMerged(files, merged, root, cfg), translate)
         == MergeFile(names[i], newMessages, cfg, root, files, translate)
  {
    forall j | 0 <= j < |merged| ensures FileByNamePath(root, cfg, merged[j].0) != FileByNamePath(root, cfg, names[i]) {
      assert merged[j].0 == names[..i][j] == names[j];
      FileByNamePathInjective(root, cfg, merged[j].0, names[i]);
    }
    WriteMergedOutside(files, merged, root, cfg, FileByNamePath(root, cfg, names[i]));
  }

  /**
   * The listed names that are locale catalogues, in listing order. The corrected pass
   * skips every other entry of the output directory, the source catalogue included.
   */
  function LocaleCatalogues(names: seq<string>): (r: seq<string>)
    ensures |r| <= |names|
    ensures forall i :: 0 <= i < |r| ==> IsLocaleFileName(r[i])
    decreases |names|
  {
    if names == [] then []
    else
      var last := names[|names| - 1];
      LocaleCatalogues(names[..|names| - 1]) + (if IsLocaleFileName(last) then [last] else [])
  }

  /** A name is kept iff it is listed and is a locale catalogue's name. */
  lemma {:induction false} LocaleCataloguesMember(names: seq<string>, n: string)
    ensures n in LocaleCatalogues(names) <==> n in names && IsLocaleFileName(n)
    decreases |names|
  {
    if names != [] {
      var init, last := names[..|names| - 1], names[|names| - 1];
      LocaleCataloguesMember(init, n);
      assert names == init + [last];
    }
  }

  /** Filtering a listing keeps its names distinct. */
  lemma {:induction false} LocaleCataloguesDistinct(names: seq<string>)
    requires Distinct(names)
    ensures Distinct(LocaleCatalogues(names))
    decreases |names|
  {
    if names != [] {
      var init, last := names[..|names| - 1], names[|names| - 1];
      assert Distinct(init) by {
        forall i, j | 0 <= i < j < |init| ensures init[i] != init[j] {
          assert init[i] == names[i] && init[j] == names[j];
        }
      }
      LocaleCataloguesDistinct(init);
      LocaleCataloguesMember(init, last);
      assert last !in init by {
        forall i | 0 <= i < |init| ensures init[i] != last {
          assert init[i] == names[i];
        }
      }
      var r := LocaleCatalogues(init);
      var tail := if IsLocaleFileName(last) then [last] else [];
      forall i, j | 0 <= i < j < |r + tail| ensures (r + tail)[i] != (r + tail)[j] {
        if j >= |r| {
          assert (r + tail)[j] == last && (r + tail)[i] == r[i] && r[i] in r;
        }
      }
    }
  }

  /**
   * The corrected pass as a function of the store: the plan, then, when the lists differ
   * in length, the merge of every locale catalogue listed in the output directory.
   */
  function SavedPass(cfg: Config, root: string, files: map<string, XlfDocument>,
                     dirs: map<string, seq<string>>, translate: Translator)
    : (r: (Outcome<Error>, seq<(string, XlfDocument)>))
    ensures var plan, listDir := PlanIncremental(cfg, root, files), OutputDirPath(root, cfg);
      && (r.0 == Pass ==> plan.Ok? && (plan.value.Changes? ==>
            listDir in dirs && |r.1| == |LocaleCatalogues(dirs[listDir])|))
      && (r.1 != [] ==> plan.Ok? && plan.value.Changes? && listDir in dirs
                        && forall i :: 0 <= i < |r.1| ==> IsLocaleFileName(r.1[i].0))
  {
    match PlanIncremental(cfg, root, files)
    case Err(e) => (Fail(e), [])
    case Ok(UpToDate) => (Pass, [])
    case Ok(Changes(newMessages, _)) =>
      var listDir := OutputDirPath(root, cfg);
      if listDir !in dirs then (Fail(ListFailed(listDir)), [])
      else MergeFiles(LocaleCatalogues(dirs[listDir]), newMessages, cfg, root, files, translate)
  }

  /**
   * The corrected pass: list the output directory, keep the locale catalogues, and write
   * each merged catalogue back to the file it was read from before handling the next
   * one. Files written before an error stay written.
   */
  method CheckAndUpdateMessagesAndSave(cfg: Config, root: string, translate: Translator, fs: Store)
    returns (outcome: Outcome<Error>, merged: seq<(string, XlfDocument)>)
    requires fs.Valid()
    modifies fs
    ensures (outcome, merged) == SavedPass(cfg, root, old(fs.files), old(fs.dirs), translate)
    ensures fs.files == WriteMerged(old(fs.files), merged, root, cfg) && fs.dirs == old(fs.dirs)
  {
    var plan := PlanPass(cfg, root, fs);
    merged := [];
    if plan.Err? {
      return Fail(plan.error), [];
    }
    if plan.value.UpToDate? {
      return Pass, [];
    }
    var newMessages := plan.value.newMessages;
    var listDir := OutputDirPath(root, cfg);
    var listing := fs.ListFiles(listDir);
    if listing.Err? {
      return Fail(listing.error), [];
    }
    var names := LocaleCatalogues(listing.value);
    LocaleCataloguesDistinct(listing.value);
    outcome, merged := MergeAndSaveFiles(names, newMessages, cfg, root, translate, fs);
  }

  /** The loop over the listed files, writing each merged catalogue back. */
  method MergeAndSaveFiles(names: seq<string>, newMessages: seq<TransUnit>, cfg: Config, root: string,
                           translate: Translator, fs: Store)
    returns (outcome: Outcome<Error>, merged: seq<(string, XlfDocument)>)
    requires Distinct(names)
    modifies fs
    ensures (outcome, merged) == MergeFiles(names, newMessages, cfg, root, old(fs.files), translate)
    ensures fs.files == WriteMerged(old(fs.files), merged, root, cfg) && fs.dirs == old(fs.dirs)
  {
    merged := [];
    ghost var files0 := fs.files;
    outcome := Pass;
    var i := 0;
    while i < |names|
      invariant 0 <= i <= |names|
      invariant fs.dirs == old(fs.dirs) && files0 == old(fs.files)
      invariant MergeFiles(names[..i], newMessages, cfg, root, files0, translate) == (Pass, merged)
      invariant fs.files == WriteMerged(files0, merged, root, cfg)
    {
      SavedFilesUnread(names, i, newMessages, cfg, root, files0, translate, merged);
      var r := MergeTranslations(names[i], newMessages, cfg, root, translate, fs);
      assert r == MergeFile(names[i], newMessages, cfg, root, files0, translate);
      MergeFilesStep(names, i, newMessages, cfg, root, files0, translate, merged);
      if r.Err? {
        outcome := Fail(r.error);
        return;
      }
      fs.CreateXlfFile(FileByNamePath(root, cfg, names[i]), r.value);
      WriteMergedSnoc(files0, merged, root, cfg, (names[i], r.value));
      merged := merged + [(names[i], r.value)];
      i := i + 1;
    }
    assert names[..i] == names;
  }
}
