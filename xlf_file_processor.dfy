/**
 * The catalogue repository's pure part: the path templates that locate the source and
 * locale catalogues, the inverse that recovers a locale from a catalogue's file name,
 * and the accessor for a document's trans-unit list.
 */
module XlfFileProcessor {
  import opened Wrappers
  import opened Xliff

  /** The path of the source catalogue, `appRoot + source`. */
  function SourceFilePath(root: string, cfg: Config): (p: string)
    ensures |p| == |root| + |cfg.source|
    ensures p[..|root|] == root && p[|root|..] == cfg.source
  {
    root + cfg.source
  }

  /** The output directory, `appRoot + outputPath`. */
  function OutputDirPath(root: string, cfg: Config): (p: string)
    ensures |p| == |root| + |cfg.outputPath|
    ensures p[..|root|] == root && p[|root|..] == cfg.outputPath
  {
    root + cfg.outputPath
  }

  /** The path of a file named `fileName` in the output directory; read and write back use it. */
  function FileByNamePath(root: string, cfg: Config, fileName: string): (p: string)
    ensures |p| == |OutputDirPath(root, cfg)| + 1 + |fileName|
    ensures p[|OutputDirPath(root, cfg)| + 1..] == fileName
  {
    OutputDirPath(root, cfg) + "/" + fileName
  }

  /** The file name of a locale catalogue, `messages.<locale>.xlf`. */
  function LocaleFileName(locale: string): (name: string)
    ensures |name| == |locale| + 13
    ensures name[..9] == "messages." && name[9..|name| - 4] == locale && name[|name| - 4..] == ".xlf"
  {
    OutputFileName + "." + locale + "." + FileType
  }

  /** The path of the locale catalogue for `locale`. */
  function LocaleFilePath(root: string, cfg: Config, locale: string): (p: string)
    ensures p == FileByNamePath(root, cfg, LocaleFileName(locale))
  {
    OutputDirPath(root, cfg) + "/" + OutputFileName + "." + locale + "." + FileType
  }

  /**
   * The directory whose entries are taken as the translated catalogues:
   * `appRoot + outputPath + "/messages"`. It is the common stem of every locale
   * catalogue's path, not the directory those catalogues are in.
   */
  function TranslatedFilesDirPath(root: string, cfg: Config): (p: string)
    ensures forall locale :: p + "." + locale + "." + FileType == LocaleFilePath(root, cfg, locale)
    ensures p != OutputDirPath(root, cfg)
  {
    var p := OutputDirPath(root, cfg) + "/" + OutputFileName;
    assert |p| == |OutputDirPath(root, cfg)| + 9;
    p
  }

  /** Distinct locales have distinct catalogue paths. */
  lemma LocaleFilePathInjective(root: string, cfg: Config, a: string, b: string)
    ensures LocaleFilePath(root, cfg, a) == LocaleFilePath(root, cfg, b) <==> a == b
  {
    var n := |OutputDirPath(root, cfg)| + 10;
    var pa, pb := LocaleFilePath(root, cfg, a), LocaleFilePath(root, cfg, b);
    assert |a| == |pa| - n - 4 && |b| == |pb| - n - 4;
    assert a == pa[n..|pa| - 4];
    assert b == pb[n..|pb| - 4];
  }

  /** Distinct file names have distinct paths. */
  lemma FileByNamePathInjective(root: string, cfg: Config, a: string, b: string)
    ensures FileByNamePath(root, cfg, a) == FileByNamePath(root, cfg, b) <==> a == b
  {
  }

  // ---------------------------------------------------------------------------
  // String.prototype.split with a one-character separator, and its inverse.

  /** The fields of `s` between occurrences of `sep`, as `s.split(sep)` returns them. */
  function Split(s: string, sep: char): (fields: seq<string>)
    ensures |fields| >= 1
    ensures forall i :: 0 <= i < |fields| ==> sep !in fields[i]
    decreases |s|
  {
    if s == [] then [""]
    else
      var rest := Split(s[1..], sep);
      if s[0] == sep then [""] + rest
      else [[s[0]] + rest[0]] + rest[1..]
  }

  /** `fields.join(sep)`. */
  function Join(fields: seq<string>, sep: char): string
    decreases |fields|
  {
    if fields == [] then ""
    else if |fields| == 1 then fields[0]
    else fields[0] + [sep] + Join(fields[1..], sep)
  }

  /** Joining the fields of a split gives back the string. */
  lemma {:induction false} JoinSplit(s: string, sep: char)
    ensures Join(Split(s, sep), sep) == s
    decreases |s|
  {
    if s != [] {
      JoinSplit(s[1..], sep);
      var rest := Split(s[1..], sep);
      if s[0] == sep {
        assert Split(s, sep)[1..] == rest;
        assert s == [sep] + s[1..];
      } else {
        var fields := Split(s, sep);
        if |rest| == 1 {
          assert s == [s[0]] + rest[0];
        } else {
          assert fields[1..] == rest[1..];
          assert Join(rest, sep) == rest[0] + [sep] + Join(rest[1..], sep);
          assert s == [s[0]] + s[1..];
        }
      }
    }
  }

  /** A separator-free prefix extends the first field of the split. */
  lemma {:induction false} SplitPrefix(a: string, rest: string, sep: char)
    requires sep !in a
    ensures Split(a + rest, sep) == [a + Split(rest, sep)[0]] + Split(rest, sep)[1..]
    decreases |a|
  {
    if a == [] {
      var fields := Split(rest, sep);
      assert a + rest == rest;
      assert a + fields[0] == fields[0];
      assert fields == [fields[0]] + fields[1..];
    } else {
      var fields := Split(rest, sep);
      var s := a + rest;
      assert s[0] == a[0] && s[0] != sep;
      assert s[1..] == a[1..] + rest;
      SplitPrefix(a[1..], rest, sep);
      var tail := Split(s[1..], sep);
      assert tail == [a[1..] + fields[0]] + fields[1..];
      assert Split(s, sep) == [[s[0]] + tail[0]] + tail[1..];
      assert [a[0]] + (a[1..] + fields[0]) == a + fields[0];
    }
  }

  /** Splitting a join of separator-free fields gives back the fields. */
  lemma {:induction false} SplitJoin(fields: seq<string>, sep: char)
    requires |fields| >= 1
    requires forall i :: 0 <= i < |fields| ==> sep !in fields[i]
    ensures Split(Join(fields, sep), sep) == fields
    decreases |fields|
  {
    if |fields| == 1 {
      SplitPrefix(fields[0], "", sep);
      assert fields[0] + "" == fields[0];
    } else {
      var tail := Join(fields[1..], sep);
      SplitJoin(fields[1..], sep);
      SplitPrefix(fields[0], [sep] + tail, sep);
      assert fields[0] + [sep] + tail == fields[0] + ([sep] + tail);
      assert ([sep] + tail)[1..] == tail;
      assert Split([sep] + tail, sep) == [""] + fields[1..];
      assert fields[0] + "" == fields[0];
      assert fields == [fields[0]] + fields[1..];
    }
  }

  /**
   * The locale of a translated catalogue: field 1 of its file name split on `.`,
   * absent (`undefined`) when the name holds no `.`.
   */
  function LocaleOfFileName(fileName: string): (locale: Option<string>)
    ensures locale.Some? <==> '.' in fileName
  {
    var fields := Split(fileName, '.');
    SplitCountsSeparator(fileName, '.');
    if |fields| >= 2 then Some(fields[1]) else None
  }

  /** The split has a second field exactly when the separator occurs. */
  lemma SplitCountsSeparator(s: string, sep: char)
    ensures |Split(s, sep)| >= 2 <==> sep in s
  {
    var fields := Split(s, sep);
    JoinSplit(s, sep);
    if |fields| >= 2 {
      assert Join(fields, sep)[|fields[0]|] == sep;
    }
  }

  /** For a locale without a `.`, the file-name template and the split are inverse. */
  lemma LocaleRoundTrip(locale: string)
    requires '.' !in locale
    ensures LocaleOfFileName(LocaleFileName(locale)) == Some(locale)
  {
    var fields := [OutputFileName, locale, FileType];
    assert fields[1..] == [locale, FileType] && fields[1..][1..] == [FileType];
    assert Join(fields[1..], '.') == locale + "." + FileType;
    assert Join(fields, '.') == OutputFileName + "." + (locale + "." + FileType);
    assert Join(fields, '.') == LocaleFileName(locale);
    SplitJoin(fields, '.');
  }

  /**
   * A locale that itself contains a `.` is not recovered: the split yields only the
   * part before its first `.`.
   */
  lemma LocaleWithDotIsTruncated(head: string, tail: string)
    requires '.' !in head
    ensures LocaleOfFileName(LocaleFileName(head + "." + tail)) == Some(head)
  {
    var name := LocaleFileName(head + "." + tail);
    var after := "." + tail + "." + FileType;
    var inner := head + after;
    var x := "." + inner;
    assert name == OutputFileName + x;
    assert x[0] == '.' && x[1..] == inner;
    var innerFields := Split(inner, '.');
    assert Split(x, '.') == [""] + innerFields;
    SplitPrefix(OutputFileName, x, '.');
    assert Split(name, '.')[1] == innerFields[0];
    assert after[0] == '.';
    assert Split(after, '.')[0] == "";
    SplitPrefix(head, after, '.');
    assert innerFields[0] == head + "";
    assert head + "" == head;
  }

  /** Distinct locales have distinct catalogue file names. */
  lemma LocaleFileNameInjective(a: string, b: string)
    ensures LocaleFileName(a) == LocaleFileName(b) <==> a == b
  {
    var na, nb := LocaleFileName(a), LocaleFileName(b);
    assert a == na[9..|na| - 4];
    assert b == nb[9..|nb| - 4];
  }

  /**
   * A locale catalogue's file name: `messages.<locale>.xlf` for the very locale that
   * field 1 of its split yields.
   */
  predicate IsLocaleFileName(name: string) {
    var locale := LocaleOfFileName(name);
    locale.Some? && name == LocaleFileName(locale.value)
  }

  /** The file name of a locale is recognised as a locale catalogue iff the locale has no `.`. */
  lemma LocaleFileNameRecognised(locale: string)
    ensures IsLocaleFileName(LocaleFileName(locale)) <==> '.' !in locale
  {
    var name := LocaleFileName(locale);
    var fields := Split(name, '.');
    assert name[8] == '.';
    SplitCountsSeparator(name, '.');
    var found := fields[1];
    assert '.' !in found;
    assert LocaleOfFileName(name) == Some(found);
    LocaleFileNameInjective(found, locale);
    if '.' !in locale {
      LocaleRoundTrip(locale);
    }
  }

  /** A name with a single `.`, such as the source catalogue `messages.xlf`, is no locale catalogue. */
  lemma OneDotNameIsNoLocaleFileName(stem: string, ext: string)
    requires '.' !in stem && '.' !in ext
    ensures !IsLocaleFileName(stem + "." + ext)
  {
    var name := stem + "." + ext;
    assert Join([stem, ext], '.') == name by {
      assert [stem, ext][1..] == [ext];
    }
    SplitJoin([stem, ext], '.');
    assert LocaleOfFileName(name) == Some(ext);
    var other := LocaleFileName(ext);
    if |stem| == 12 {
      assert name[8] == stem[8] && stem[8] != '.';
      assert other[8] == '.';
    } else {
      assert |name| != |other|;
    }
  }

  // ---------------------------------------------------------------------------
  // The trans-unit list of a document.

  /** The document has a first `file` holding a first `body`. */
  predicate HasFirstBody(doc: XlfDocument) {
    |doc.files| > 0 && |doc.files[0].bodies| > 0
  }

  /** `xliff.file[0].body[0]['trans-unit']`; the source fails with a TypeError without them. */
  function GetXlfMessages(doc: XlfDocument): Option<seq<TransUnit>>
    requires HasFirstBody(doc)
  {
    doc.files[0].bodies[0].transUnits
  }

  /** The document with `xliff.file[0].body[0]['trans-unit']` replaced by `units`. */
  function SetXlfMessages(doc: XlfDocument, units: Option<seq<TransUnit>>): (r: XlfDocument)
    requires HasFirstBody(doc)
    ensures HasFirstBody(r) && GetXlfMessages(r) == units
    ensures |r.files| == |doc.files| && r.files[1..] == doc.files[1..]
    ensures r.files[0].sourceLanguage == doc.files[0].sourceLanguage
    ensures |r.files[0].bodies| == |doc.files[0].bodies|
    ensures r.files[0].bodies[1..] == doc.files[0].bodies[1..]
  {
    var file := doc.files[0];
    var body := file.bodies[0].(transUnits := units);
    doc.(files := doc.files[0 := file.(bodies := file.bodies[0 := body])])
  }

  /** Writing back what was read leaves the document as it was. */
  lemma SetGetIdentity(doc: XlfDocument)
    requires HasFirstBody(doc)
    ensures SetXlfMessages(doc, GetXlfMessages(doc)) == doc
  {
    var r := SetXlfMessages(doc, GetXlfMessages(doc));
    assert r.files[0] == doc.files[0] by {
      assert r.files[0].bodies == doc.files[0].bodies;
    }
    assert r.files == doc.files;
  }

  /** A second overwrite replaces the first: only the last list stays. */
  lemma SetTwice(doc: XlfDocument, a: Option<seq<TransUnit>>, b: Option<seq<TransUnit>>)
    requires HasFirstBody(doc)
    ensures SetXlfMessages(SetXlfMessages(doc, a), b) == SetXlfMessages(doc, b)
  {
    var l, r := SetXlfMessages(SetXlfMessages(doc, a), b), SetXlfMessages(doc, b);
    assert l.files[0].bodies == r.files[0].bodies;
    assert l.files[0] == r.files[0];
    assert l.files == r.files;
  }
}
