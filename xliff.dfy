/**
 * The parsed XLIFF document, the translator configuration, the error kinds and the
 * machine-translation gateway's interface, as the processor sees them.
 */
module Xliff {
  import opened Wrappers

  /** Base name of every locale catalogue (lib/constants.js OUTPUT_FILE_NAME). */
  const OutputFileName: string := "messages"
  /** File extension of every catalogue (lib/constants.js FILE_TYPE). */
  const FileType: string := "xlf"
  /** HTTP status the translation provider uses for rate limiting. */
  const RateLimitStatus: int := 429

  /** Machine-readable codes of lib/errors.js. */
  const NoProjectNameCode: int := 1000
  const NoFromLanguageCode: int := 1001
  const NoToLanguageCode: int := 1002
  const GoogleLimitReachedCode: int := 1003
  const CouldNotTranslateCode: int := 1004

  /**
   * One `trans-unit` element: its `id` attribute plus a payload the processor never
   * inspects (source text, optional target text, remaining attributes).
   */
  datatype TransUnit = TransUnit(id: string, source: string, target: Option<string>,
                                 attributes: map<string, string>)

  /** A `body` element; its `trans-unit` list may be absent. */
  datatype Body = Body(transUnits: Option<seq<TransUnit>>)

  /** A `file` element: its `source-language` attribute and its `body` elements. */
  datatype FileElement = FileElement(sourceLanguage: Option<string>, bodies: seq<Body>)

  /** An `xliff` document as the XML parser delivers it: a list of `file` elements. */
  datatype XlfDocument = XlfDocument(files: seq<FileElement>)

  /**
   * The translator configuration: `fromLanguage` may be missing or empty, `toLanguage`
   * is the list of target locales, `source` and `outputPath` are appended to the
   * application root to form paths.
   */
  datatype Config = Config(fromLanguage: Option<string>, toLanguage: seq<string>,
                           source: string, outputPath: string)

  /** Error reported by the translation provider; `statusCode` may be absent. */
  datatype ProviderError = ProviderError(statusCode: Option<int>)

  datatype Error =
    | NoFromLanguage
    | NoToLanguage
    | ReadFailed(path: string)          // file missing, unreadable or not parseable
    | MalformedDocument(path: string)   // no file[0].body[0]: a TypeError in the source
    | ListFailed(path: string)          // directory could not be listed
    | MessagesMissing                   // "Message files or the source file seems to be empty"
    | TranslatorFailed(cause: ProviderError)
  {
    /** The code of lib/errors.js for the configuration errors, none for the others. */
    function Code(): (c: Option<int>)
      ensures c.Some? <==> (NoFromLanguage? || NoToLanguage?)
    {
      match this
      case NoFromLanguage => Some(NoFromLanguageCode)
      case NoToLanguage => Some(NoToLanguageCode)
      case _ => None
    }

    predicate IsRateLimited() {
      TranslatorFailed? && cause.statusCode == Some(RateLimitStatus)
    }
  }

  /**
   * One call of the translation gateway: the trans-units to translate and the two
   * language codes, each of which the caller may pass as `undefined`.
   */
  datatype Request = Request(units: Option<seq<TransUnit>>, fromLanguage: Option<string>,
                             toLanguage: Option<string>)

  /** The gateway's callback arguments: an optional error and optional translations. */
  datatype Reply = Reply(error: Option<ProviderError>, units: Option<seq<TransUnit>>)

  /** The external gateway, taken as a deterministic oracle. */
  type Translator = Request -> Reply
}
