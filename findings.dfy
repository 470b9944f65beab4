/**
 * Two defects of the incremental pass, each shown on the pass as written and proved
 * absent from the corrected pass:
 *  - the merged catalogue is never written back, so a successful pass leaves every
 *    locale catalogue as it was and the next pass plans the same work again;
 *  - the pass lists `<outputPath>/messages`, the common stem of the locale catalogues'
 *    paths, instead of `<outputPath>`, the directory they are written to and read from.
 */
module Findings {
  import opened Wrappers
  import opened Xliff
  import opened XlfFileProcessor
  import opened Reconciler
  import opened FileStore
  import opened XlfProcessor

  // ---------------------------------------------------------------------------
  // General statements

  /** An entry of the listed stem directory is read from a different path than its own. */
  lemma StemEntryIsReadElsewhere(root: string, cfg: Config, fileName: string)
    ensures TranslatedFilesDirPath(root, cfg) + "/" + fileName != FileByNamePath(root, cfg, fileName)
  {
    assert |TranslatedFilesDirPath(root, cfg) + "/" + fileName| == |FileByNamePath(root, cfg, fileName)| + 9;
  }

  /**
   * In a store whose listings are readable, every file listed in the output directory
   * is found: no listed file ends the corrected pass with a read error. Readability is
   * an assumption about the store (a file can vanish between listing and reading), so
   * this holds only for stores that satisfy it.
   */
  lemma OutputDirEntriesAreReadable(cfg: Config, root: string, files: map<string, XlfDocument>,
                                    dirs: map<string, seq<string>>, fileName: string,
                                    newMessages: seq<TransUnit>, translate: Translator)
    requires ListingsReadable(files, dirs)
    requires OutputDirPath(root, cfg) in dirs && fileName in dirs[OutputDirPath(root, cfg)]
    ensures FileByNamePath(root, cfg, fileName) in files
    ensures var r := MergeFile(fileName, newMessages, cfg, root, files, translate);
      r.Err? ==> !r.error.ReadFailed?
  {
    assert OutputDirPath(root, cfg) + "/" + fileName in files;
  }

  /**
   * The corrected pass merges only locale catalogues listed in the output directory,
   * in the order they are listed, each merged with the plan's new messages.
   */
  lemma SavedPassMergesListedCatalogues(cfg: Config, root: string, files: map<string, XlfDocument>,
                                        dirs: map<string, seq<string>>, translate: Translator, j: nat)
    requires j < |SavedPass(cfg, root, files, dirs, translate).1|
    ensures var plan, merged := PlanIncremental(cfg, root, files), SavedPass(cfg, root, files, dirs, translate).1;
      && plan.Ok? && plan.value.Changes?
      && OutputDirPath(root, cfg) in dirs
      && merged[j].0 == LocaleCatalogues(dirs[OutputDirPath(root, cfg)])[j]
      && merged[j].0 in dirs[OutputDirPath(root, cfg)] && IsLocaleFileName(merged[j].0)
      && MergeFile(merged[j].0, plan.value.newMessages, cfg, root, files, translate) == Ok(merged[j].1)
  {
    var listDir := OutputDirPath(root, cfg);
    var plan := PlanIncremental(cfg, root, files);
    assert plan.Ok? && plan.value.Changes? && listDir in dirs;
    var names := LocaleCatalogues(dirs[listDir]);
    var merged := SavedPass(cfg, root, files, dirs, translate).1;
    assert merged == MergeFiles(names, plan.value.newMessages, cfg, root, files, translate).1;
    LocaleCataloguesMember(dirs[listDir], names[j]);
  }

  /**
   * A source catalogue kept in the output directory as `messages.xlf` is never merged
   * by the corrected pass, so its entry in the store is left as it was.
   */
  lemma SavedPassSkipsSourceCatalogue(cfg: Config, root: string, files: map<string, XlfDocument>,
                                      dirs: map<string, seq<string>>, translate: Translator)
    requires SourceFilePath(root, cfg) == FileByNamePath(root, cfg, OutputFileName + "." + FileType)
    ensures var merged := SavedPass(cfg, root, files, dirs, translate).1;
      forall j :: 0 <= j < |merged| ==> merged[j].0 != OutputFileName + "." + FileType
    ensures var out := WriteMerged(files, SavedPass(cfg, root, files, dirs, translate).1, root, cfg);
      var src := SourceFilePath(root, cfg);
      (src in out <==> src in files) && (src in files ==> out[src] == files[src])
  {
    var merged := SavedPass(cfg, root, files, dirs, translate).1;
    var src := SourceFilePath(root, cfg);
    OneDotNameIsNoLocaleFileName(OutputFileName, FileType);
    forall j | 0 <= j < |merged| ensures FileByNamePath(root, cfg, merged[j].0) != src {
      SavedPassMergesListedCatalogues(cfg, root, files, dirs, translate, j);
      FileByNamePathInjective(root, cfg, merged[j].0, OutputFileName + "." + FileType);
    }
    WriteMergedOutside(files, merged, root, cfg, src);
  }

  /**
   * The corrected pass stores every merged catalogue at the path of the file it was
   * read from, so each one holds its old trans-units followed by the translations.
   */
  lemma SavedPassPersistsMerge(cfg: Config, root: string, files: map<string, XlfDocument>,
                               dirs: map<string, seq<string>>, translate: Translator, j: nat)
    requires ListingsDistinct(dirs)
    requires j < |SavedPass(cfg, root, files, dirs, translate).1|
    ensures var merged := SavedPass(cfg, root, files, dirs, translate).1;
      var out := WriteMerged(files, merged, root, cfg);
      && FileByNamePath(root, cfg, merged[j].0) in out
      && out[FileByNamePath(root, cfg, merged[j].0)] == merged[j].1
      && FileByNamePath(root, cfg, merged[j].0) in files
  {
    var listDir := OutputDirPath(root, cfg);
    var plan := PlanIncremental(cfg, root, files);
    var merged := SavedPass(cfg, root, files, dirs, translate).1;
    SavedPassMergesListedCatalogues(cfg, root, files, dirs, translate, j);
    var names := LocaleCatalogues(dirs[listDir]);
    assert merged == MergeFiles(names, plan.value.newMessages, cfg, root, files, translate).1;
    LocaleCataloguesDistinct(dirs[listDir]);
    forall a, b | 0 <= a < b < |merged| ensures merged[a].0 != merged[b].0 {
      assert merged[a].0 == names[a] && merged[b].0 == names[b];
    }
    WriteMergedAt(files, merged, root, cfg, j);
    MergeFileAppends(merged[j].0, plan.value.newMessages, cfg, root, files, translate);
  }

  /**
   * After a successful corrected pass whose listing holds the first target language's
   * catalogue, that catalogue is stored as its old trans-units followed by the
   * translations of the plan's new messages.
   */
  lemma SavedPassStoresReference(cfg: Config, root: string, files: map<string, XlfDocument>,
                                 dirs: map<string, seq<string>>, translate: Translator,
                                 newMessages: seq<TransUnit>, removed: seq<TransUnit>, reference: seq<TransUnit>)
    requires ListingsDistinct(dirs)
    requires OutputDirPath(root, cfg) in dirs
    requires '.' !in FirstLocale(cfg) && LocaleFileName(FirstLocale(cfg)) in dirs[OutputDirPath(root, cfg)]
    requires PlanIncremental(cfg, root, files) == Ok(Changes(newMessages, removed))
    requires ReadMessages(files, LocaleFilePath(root, cfg, FirstLocale(cfg))) == Ok(Some(reference))
    requires SavedPass(cfg, root, files, dirs, translate).0 == Pass
    requires var reply := translate(Request(Some(newMessages), cfg.fromLanguage, Some(FirstLocale(cfg))));
      reply.units.Some? && reply.units.value != []
    ensures var out := WriteMerged(files, SavedPass(cfg, root, files, dirs, translate).1, root, cfg);
      var p := LocaleFilePath(root, cfg, FirstLocale(cfg));
      var reply := translate(Request(Some(newMessages), cfg.fromLanguage, Some(FirstLocale(cfg))));
      ReadMessages(out, p) == Ok(Some(reference + reply.units.value))
  {
    var loc := FirstLocale(cfg);
    var name := LocaleFileName(loc);
    var listDir := OutputDirPath(root, cfg);
    var names := LocaleCatalogues(dirs[listDir]);
    var merged := SavedPass(cfg, root, files, dirs, translate).1;
    assert merged == MergeFiles(names, newMessages, cfg, root, files, translate).1;
    LocaleFileNameRecognised(loc);
    LocaleCataloguesMember(dirs[listDir], name);
    var k :| 0 <= k < |names| && names[k] == name;
    assert merged[k].0 == name;
    SavedPassPersistsMerge(cfg, root, files, dirs, translate, k);
    LocaleRoundTrip(loc);
    MergeFileAppends(name, newMessages, cfg, root, files, translate);
    var reply := translate(Request(Some(newMessages), cfg.fromLanguage, Some(loc)));
    var out := WriteMerged(files, merged, root, cfg);
    var p := LocaleFilePath(root, cfg, loc);
    var after := GetXlfMessages(merged[k].1).value;
    assert after == reference + reply.units.value by {
      assert after[..|reference|] == reference && after[|reference|..] == reply.units.value;
      assert after == after[..|reference|] + after[|reference|..];
    }
  }

  /**
   * The corrected pass converges: when it succeeds on a store whose output directory
   * lists the first target language's catalogue, no listed locale catalogue shares the
   * source catalogue's path, each list has unique ids, every reference id is a source
   * id, and the translator keeps the ids of the new messages, the next pass finds the
   * catalogues up to date.
   */
  lemma SavedPassConverges(cfg: Config, root: string, files: map<string, XlfDocument>,
                           dirs: map<string, seq<string>>, translate: Translator,
                           source: seq<TransUnit>, reference: seq<TransUnit>)
    requires ListingsDistinct(dirs)
    requires OutputDirPath(root, cfg) in dirs
    requires '.' !in FirstLocale(cfg) && LocaleFileName(FirstLocale(cfg)) in dirs[OutputDirPath(root, cfg)]
    requires forall n :: n in dirs[OutputDirPath(root, cfg)] && IsLocaleFileName(n) ==>
      FileByNamePath(root, cfg, n) != SourceFilePath(root, cfg)
    requires ReadMessages(files, SourceFilePath(root, cfg)) == Ok(Some(source))
    requires ReadMessages(files, LocaleFilePath(root, cfg, FirstLocale(cfg))) == Ok(Some(reference))
    requires UniqueIds(source) && UniqueIds(reference)
    requires forall u :: u in reference ==> u.id in Ids(source)
    requires var reply := translate(Request(Some(Missing(source, Ids(reference))), cfg.fromLanguage, Some(FirstLocale(cfg))));
      reply.units.Some? && Ids(reply.units.value) == Ids(Missing(source, Ids(reference)))
    requires SavedPass(cfg, root, files, dirs, translate).0 == Pass
    ensures PlanIncremental(cfg, root, WriteMerged(files, SavedPass(cfg, root, files, dirs, translate).1, root, cfg))
         == Ok(UpToDate)
  {
    if |source| != |reference| {
      var listDir := OutputDirPath(root, cfg);
      var newMessages := Missing(source, Ids(reference));
      var removed := Missing(reference, Ids(source));
      assert PlanIncremental(cfg, root, files) == Ok(Changes(newMessages, removed));
      MissingLength(source, reference);
      var translated := translate(Request(Some(newMessages), cfg.fromLanguage, Some(FirstLocale(cfg)))).units.value;
      assert |translated| == |Ids(translated)| == |newMessages| > 0;
      SavedPassStoresReference(cfg, root, files, dirs, translate, newMessages, removed, reference);
      var merged := SavedPass(cfg, root, files, dirs, translate).1;
      var src := SourceFilePath(root, cfg);
      forall j | 0 <= j < |merged| ensures FileByNamePath(root, cfg, merged[j].0) != src {
        SavedPassMergesListedCatalogues(cfg, root, files, dirs, translate, j);
      }
      WriteMergedOutside(files, merged, root, cfg, src);
      MergeClosesGap(source, reference, translated);
    }
  }

  // ---------------------------------------------------------------------------
  // A concrete project: source catalogue [a, b, c], French catalogue [a, b].

  const Root: string := "/app/"

  function ProjectConfig(): Config {
    Config(Some("en"), ["fr"], "src/messages.xlf", "out")
  }

  function Unit(id: string): TransUnit {
    TransUnit(id, id, None, map[])
  }

  /** The French translation of `c` the gateway returns. */
  function FrenchC(): TransUnit {
    TransUnit("c", "c", Some("c (fr)"), map[])
  }

  function Catalogue(units: seq<TransUnit>): XlfDocument {
    XlfDocument([FileElement(Some("en"), [Body(Some(units))])])
  }

  /** Replacing the trans-units of a one-body catalogue gives the catalogue of the new units. */
  lemma SetOnCatalogue(units: seq<TransUnit>, units': seq<TransUnit>)
    ensures HasFirstBody(Catalogue(units))
    ensures SetXlfMessages(Catalogue(units), Some(units')) == Catalogue(units')
  {
    var r := SetXlfMessages(Catalogue(units), Some(units'));
    assert r.files[0].bodies == [Body(Some(units'))];
    assert r.files == Catalogue(units').files;
  }

  /** A gateway that answers every request with the French `c`. */
  function Gateway(): Translator {
    (req: Request) => Reply(None, Some([FrenchC()]))
  }

  function FrName(): string { LocaleFileName("fr") }

  function SourcePath(): string { SourceFilePath(Root, ProjectConfig()) }
  function FrPath(): string { LocaleFilePath(Root, ProjectConfig(), "fr") }

  /** The store a full translation into French leaves: the catalogues and the output directory. */
  function FilesAfterFullTranslation(): map<string, XlfDocument> {
    map[SourcePath() := Catalogue([Unit("a"), Unit("b"), Unit("c")]),
        FrPath() := Catalogue([Unit("a"), Unit("b")])]
  }

  function DirsAfterFullTranslation(): map<string, seq<string>> {
    map[OutputDirPath(Root, ProjectConfig()) := [FrName()]]
  }

  lemma FrNameIsLocaleFile()
    ensures FileByNamePath(Root, ProjectConfig(), FrName()) == FrPath()
    ensures SourcePath() != FrPath()
  {
    assert |SourcePath()| != |FrPath()|;
  }

  /** The reconciliation of the project: `c` is new, nothing is removed. */
  lemma ProjectPlan(files: map<string, XlfDocument>)
    requires SourcePath() in files && files[SourcePath()] == Catalogue([Unit("a"), Unit("b"), Unit("c")])
    requires FrPath() in files && files[FrPath()] == Catalogue([Unit("a"), Unit("b")])
    ensures PlanIncremental(ProjectConfig(), Root, files) == Ok(Changes([Unit("c")], []))
  {
    assert FirstLocale(ProjectConfig()) == "fr";
    ScenarioThreeAgainstTwo(Unit("a"), Unit("b"), Unit("c"));
  }

  /** The gateway's answer does not depend on the request. */
  lemma GatewayAnswer(req: Request)
    ensures Gateway()(req) == Reply(None, Some([FrenchC()]))
  {
  }

  /** A file that is found, has a trans-unit list and gets translations is merged. */
  lemma MergeFileFound(fileName: string, newMessages: seq<TransUnit>, cfg: Config, root: string,
                       files: map<string, XlfDocument>, translate: Translator, translated: seq<TransUnit>)
    requires translate(Request(Some(newMessages), cfg.fromLanguage, LocaleOfFileName(fileName))) == Reply(None, Some(translated))
    requires translated != []
    requires FileByNamePath(root, cfg, fileName) in files
    requires var doc := files[FileByNamePath(root, cfg, fileName)]; HasFirstBody(doc) && GetXlfMessages(doc).Some?
    ensures var doc := files[FileByNamePath(root, cfg, fileName)];
      MergeFile(fileName, newMessages, cfg, root, files, translate)
      == Ok(SetXlfMessages(doc, Some(GetXlfMessages(doc).value + translated)))
  {
  }

  /** The French catalogue merged with the gateway's answer. */
  lemma ProjectMergeFile(files: map<string, XlfDocument>)
    requires FrPath() in files && files[FrPath()] == Catalogue([Unit("a"), Unit("b")])
    ensures MergeFile(FrName(), [Unit("c")], ProjectConfig(), Root, files, Gateway())
         == Ok(Catalogue([Unit("a"), Unit("b"), FrenchC()]))
  {
    GatewayAnswer(Request(Some([Unit("c")]), ProjectConfig().fromLanguage, LocaleOfFileName(FrName())));
    FrNameIsLocaleFile();
    SetOnCatalogue([Unit("a"), Unit("b")], [Unit("a"), Unit("b"), FrenchC()]);
    assert [Unit("a"), Unit("b")] + [FrenchC()] == [Unit("a"), Unit("b"), FrenchC()];
    MergeFileFound(FrName(), [Unit("c")], ProjectConfig(), Root, files, Gateway(), [FrenchC()]);
  }

  /** A pass over a single listed file that merges yields that file's merged document. */
  lemma MergeOneFile(name: string, newMessages: seq<TransUnit>, cfg: Config, root: string,
                     files: map<string, XlfDocument>, translate: Translator, doc: XlfDocument)
    requires MergeFile(name, newMessages, cfg, root, files, translate) == Ok(doc)
    ensures MergeFiles([name], newMessages, cfg, root, files, translate) == (Pass, [(name, doc)])
  {
    assert [name][..0] == [];
    assert MergeFiles([], newMessages, cfg, root, files, translate) == (Pass, []);
    assert [] + [(name, doc)] == [(name, doc)];
  }

  /** The pass over the one listed French catalogue. */
  lemma ProjectMerge(files: map<string, XlfDocument>)
    requires FrPath() in files && files[FrPath()] == Catalogue([Unit("a"), Unit("b")])
    ensures MergeFiles([FrName()], [Unit("c")], ProjectConfig(), Root, files, Gateway())
         == (Pass, [(FrName(), Catalogue([Unit("a"), Unit("b"), FrenchC()]))])
  {
    ProjectMergeFile(files);
    MergeOneFile(FrName(), [Unit("c")], ProjectConfig(), Root, files, Gateway(), Catalogue([Unit("a"), Unit("b"), FrenchC()]));
  }

  // ---------------------------------------------------------------------------
  // Finding: the listed directory

  /**
   * As written: after a full translation into French the store is consistent, but the
   * pass lists `/app/out/messages`, which does not exist, and fails.
   */
  lemma StemListingFails()
    ensures ListingsDistinct(DirsAfterFullTranslation())
    ensures ListingsReadable(FilesAfterFullTranslation(), DirsAfterFullTranslation())
    ensures var listDir := TranslatedFilesDirPath(Root, ProjectConfig());
      IncrementalPass(ProjectConfig(), Root, FilesAfterFullTranslation(), DirsAfterFullTranslation(), Gateway(), listDir)
      == (Fail(ListFailed(listDir)), [])
  {
    FrNameIsLocaleFile();
    ProjectPlan(FilesAfterFullTranslation());
  }

  /** The French catalogue is the one locale catalogue of the output directory's listing. */
  lemma FrListingKept()
    ensures LocaleCatalogues([FrName()]) == [FrName()]
  {
    LocaleFileNameRecognised("fr");
    assert [FrName()][..0] == [];
  }

  /**
   * Corrected: listing the output directory finds the French catalogue and merges the
   * French `c` into it.
   */
  lemma OutputDirListingMerges()
    ensures SavedPass(ProjectConfig(), Root, FilesAfterFullTranslation(), DirsAfterFullTranslation(), Gateway())
         == (Pass, [(FrName(), Catalogue([Unit("a"), Unit("b"), FrenchC()]))])
  {
    FrNameIsLocaleFile();
    FrListingKept();
    ProjectPlan(FilesAfterFullTranslation());
    ProjectMerge(FilesAfterFullTranslation());
  }

  // ---------------------------------------------------------------------------
  // Finding: the merged catalogue is not written back

  /** A store in which the stem directory exists and lists the French catalogue. */
  function FilesWithStemDir(): map<string, XlfDocument> {
    FilesAfterFullTranslation()[TranslatedFilesDirPath(Root, ProjectConfig()) + "/" + FrName() := Catalogue([Unit("a"), Unit("b")])]
  }

  function DirsWithStemDir(): map<string, seq<string>> {
    map[TranslatedFilesDirPath(Root, ProjectConfig()) := [FrName()]]
  }

  /**
   * As written: the pass succeeds and its merged French catalogue holds the French `c`,
   * yet it writes nothing (the method modifies nothing), so the stored French catalogue
   * still lacks `c` and the next pass plans the same translation again.
   */
  lemma MergedCatalogueNotSaved()
    ensures ListingsDistinct(DirsWithStemDir()) && ListingsReadable(FilesWithStemDir(), DirsWithStemDir())
    ensures IncrementalPass(ProjectConfig(), Root, FilesWithStemDir(), DirsWithStemDir(), Gateway(),
                            TranslatedFilesDirPath(Root, ProjectConfig()))
         == (Pass, [(FrName(), Catalogue([Unit("a"), Unit("b"), FrenchC()]))])
    ensures FrPath() in FilesWithStemDir() && FilesWithStemDir()[FrPath()] == Catalogue([Unit("a"), Unit("b")])
    ensures PlanIncremental(ProjectConfig(), Root, FilesWithStemDir()) == Ok(Changes([Unit("c")], []))
  {
    FrNameIsLocaleFile();
    var stemEntry := TranslatedFilesDirPath(Root, ProjectConfig()) + "/" + FrName();
    StemEntryIsReadElsewhere(Root, ProjectConfig(), FrName());
    assert |stemEntry| != |SourcePath()|;
    ProjectPlan(FilesWithStemDir());
    ProjectMerge(FilesWithStemDir());
  }

  /** Saving the merged French catalogue into the store a full translation left. */
  lemma ProjectSave()
    ensures var merged := [(FrName(), Catalogue([Unit("a"), Unit("b"), FrenchC()]))];
      WriteMerged(FilesAfterFullTranslation(), merged, Root, ProjectConfig())
      == FilesAfterFullTranslation()[FrPath() := Catalogue([Unit("a"), Unit("b"), FrenchC()])]
  {
    FrNameIsLocaleFile();
    var merged := [(FrName(), Catalogue([Unit("a"), Unit("b"), FrenchC()]))];
    assert merged[..0] == [];
  }

  /** The saved store holds the source catalogue and a French catalogue with the same ids. */
  lemma SavedStoreUpToDate()
    ensures PlanIncremental(ProjectConfig(), Root,
              FilesAfterFullTranslation()[FrPath() := Catalogue([Unit("a"), Unit("b"), FrenchC()])]) == Ok(UpToDate)
  {
    FrNameIsLocaleFile();
    var saved := FilesAfterFullTranslation()[FrPath() := Catalogue([Unit("a"), Unit("b"), FrenchC()])];
    assert FirstLocale(ProjectConfig()) == "fr";
    assert saved[SourcePath()] == Catalogue([Unit("a"), Unit("b"), Unit("c")]);
    assert ReadMessages(saved, SourcePath()) == Ok(Some([Unit("a"), Unit("b"), Unit("c")]));
    assert ReadMessages(saved, FrPath()) == Ok(Some([Unit("a"), Unit("b"), FrenchC()]));
  }

  /**
   * Corrected: the pass writes the merged French catalogue back, the stored catalogue
   * then holds `[a, b, c (fr)]`, and the next pass finds it up to date.
   */
  lemma SavedCatalogueConverges()
    ensures var r := SavedPass(ProjectConfig(), Root, FilesAfterFullTranslation(), DirsAfterFullTranslation(), Gateway());
      var saved := WriteMerged(FilesAfterFullTranslation(), r.1, Root, ProjectConfig());
      && r.0 == Pass
      && FrPath() in saved && saved[FrPath()] == Catalogue([Unit("a"), Unit("b"), FrenchC()])
      && PlanIncremental(ProjectConfig(), Root, saved) == Ok(UpToDate)
  {
    OutputDirListingMerges();
    ProjectSave();
    SavedStoreUpToDate();
  }
}
