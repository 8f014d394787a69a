/**
 * Page generation decisions (`mdiocre/wizard.py`): which adapter a file's
 * extension selects, whether a processed page names a template, what
 * `generate_from_string` returns and whether `generate_from_path` writes a
 * page or copies the source.
 *
 * Files are read through a parameter (None when the file does not exist or
 * cannot be read);
 * the result of `generate_from_path` is the file operation it performs.
 */
module Wizard {
  import opened Wrappers
  import opened Text
  import opened Failures
  import opened Grammar
  import opened Directives
  import opened Parsers

  /** The `converters` table: extension to adapter name. */
  const Converters: map<string, string> := map[
    "md" := "markdown", "rst" := "rst", "html" := "html", "htm" := "html",
    "zimtxt" := "zim", "gem" := "gem", "gmi" := "gem"]

  /** The variable holding a page's template path. */
  const TemplateName: string := "mdiocre-template"

  /**
   * What the page processing depends on outside this model: the timestamp,
   * Python's `eval`, the Markdown converter, the Gemtext adapter's key
   * source and re-serialisation, and the reStructuredText adapter as a whole.
   */
  datatype Env = Env(timestamp: string, arith: string -> EvalResult, markdown: string -> string,
                     random: nat -> string, reserialise: string -> string,
                     rst: (Store, string, bool) -> Outcome)

  /** `splitext(path)[1][1:].lower()`: the extension without its dot, in lower case. */
  function Extension(path: string): (r: string)
    ensures '.' !in r && '/' !in r
    ensures forall i :: 0 <= i < |r| ==> !('A' <= r[i] <= 'Z')
  {
    var ext := SplitExt(path).1;
    var r := Lower(if ext == [] then [] else ext[1..]);
    assert forall i :: 0 <= i < |r| ==> r[i] == LowerChar(ext[1..][i]);
    r
  }

  /** The adapter the extension selects, if the table maps it. */
  function ConverterFor(path: string): Option<string> {
    var ext := Extension(path);
    if ext in Converters then Some(Converters[ext]) else None
  }

  /**
   * `process(text, ignore_content)` after selecting `parser`: a fresh store
   * holding the timestamp, handed to that adapter's `to_variables`. A name
   * the table does not produce falls back to `BaseParser`.
   */
  function Process(env: Env, parser: string, text: string, ignoreContent: bool): Outcome {
    var start := map[TimestampName := env.timestamp];
    if parser == "markdown" then ToVariables(start, text, HtmlComment, env.arith, env.markdown, ignoreContent)
    else if parser == "html" then ToVariables(start, text, HtmlComment, env.arith, Unconverted, ignoreContent)
    else if parser == "zim" then ToVariables(start, text, Bracket, env.arith, ZimHtml, ignoreContent)
    else if parser == "gem" then ToVariables(start, text, Bracket, env.arith, GemHtml(env.random, env.reserialise), ignoreContent)
    else if parser == "rst" then env.rst(start, text, ignoreContent)
    else Done(start)
  }

  /** `is_mdiocre_string`: the page names a non-empty template once its variables are processed. */
  function IsMdiocreString(env: Env, parser: string, text: string): Result<bool, Error> {
    match Process(env, parser, text, true)
    case Raised(e, _) => Err(e)
    case Done(vars) => Ok(Get(vars, TemplateName) != "")
  }

  /** `os.path.sep.join([root, name])`. */
  function TemplatePath(root: string, name: string): string {
    root + "/" + name
  }

  /**
   * `generate_from_string`: "" for a page without a template or whose
   * template file is missing; otherwise the template rendered with the
   * page's variables. Exceptions of the passes propagate.
   */
  function GenerateFromString(env: Env, parser: string, text: string, root: string,
                              files: string -> Option<string>): Result<string, Error> {
    match IsMdiocreString(env, parser, text)
    case Err(e) => Err(e)
    case Ok(false) => Ok("")
    case Ok(true) =>
      match Process(env, parser, text, false)
      case Raised(e, _) => Err(e)
      case Done(vars) =>
        match files(TemplatePath(root, Get(vars, TemplateName)))
        case None => Ok("")
        case Some(template) => Subst(vars, template, HtmlComment, SubFn(env.arith)).0
  }

  /** The file operation `generate_from_path` performs. */
  datatype Action = Write(target: string, html: string) | Copy(source: string, target: string)

  /** `extsep.join([splitext(built)[0], 'html'])`. */
  function HtmlName(built: string): string {
    SplitExt(built).0 + ".html"
  }

  /**
   * `generate_from_path`: a mapped extension whose page converts to a
   * non-empty string is written, under the `.html` name when `to_html` is
   * set; an unmapped extension, an empty conversion, an unreadable source
   * or any exception copies the source to the built path.
   */
  function GenerateFromPath(env: Env, source: string, built: string, root: string, toHtml: bool,
                            files: string -> Option<string>): Action {
    match ConverterFor(source)
    case None => Copy(source, built)
    case Some(parser) =>
      match files(source)
      case None => Copy(source, built)
      case Some(text) =>
        match GenerateFromString(env, parser, text, root, files)
        case Err(_) => Copy(source, built)
        case Ok(conv) =>
          if conv == "" then Copy(source, built)
          else Write(if toHtml then HtmlName(built) else built, conv)
  }

  /** What `vars_directly_from_file` gives: None for an unmapped extension, the processed page otherwise. */
  datatype Loaded = Unmapped | Unreadable | Processed(outcome: Outcome)

  function VarsDirectlyFromFile(env: Env, source: string, files: string -> Option<string>): Loaded {
    match ConverterFor(source)
    case None => Unmapped
    case Some(parser) =>
      match files(source)
      case None => Unreadable
      case Some(text) => Processed(Process(env, parser, text, false))
  }

  // ---------------------------------------------------------------------
  // What the decisions guarantee
  // ---------------------------------------------------------------------

  /** The table maps exactly seven extensions; `zim`, which the Zim adapter declares, is not one of them. */
  lemma TableDomain()
    ensures Converters.Keys == {"md", "rst", "html", "htm", "zimtxt", "gem", "gmi"}
    ensures "zim" !in Converters
    ensures forall ext :: ext in Converters ==> Converters[ext] in {"markdown", "rst", "html", "zim", "gem"}
  {
  }

  /** A name whose last component ends in `.EXT` has extension `EXT` in lower case. */
  lemma ExtensionOf(stem: string, ext: string)
    requires stem != [] && stem[|stem| - 1] != '.' && stem[|stem| - 1] != '/'
    requires '.' !in ext && '/' !in ext
    ensures Extension(stem + "." + ext) == Lower(ext)
  {
    var p := stem + "." + ext;
    LastAt(p, '.', |stem|);
    LastBefore(p, '/', |stem| - 1);
    var sep := LastIndexOf(p, '/');
    assert sep + 1 <= |stem| - 1 < |stem| && p[|stem| - 1] != '.';
    assert SplitExt(p).1 == p[|stem|..];
    assert p[|stem|..][1..] == ext;
  }

  /** Upper-case extensions select the same adapter: `page.MD` is Markdown. */
  lemma CaseInsensitive(stem: string, ext: string)
    requires stem != [] && stem[|stem| - 1] != '.' && stem[|stem| - 1] != '/'
    requires '.' !in ext && '/' !in ext
    ensures ConverterFor(stem + "." + ext) == ConverterFor(stem + "." + Lower(ext))
  {
    ExtensionOf(stem, ext);
    LowerDotless(ext);
    ExtensionOf(stem, Lower(ext));
    LowerTwice(ext);
  }

  lemma LowerDotless(s: string)
    requires '.' !in s && '/' !in s
    ensures '.' !in Lower(s) && '/' !in Lower(s)
  {
    assert forall i :: 0 <= i < |s| ==> Lower(s)[i] == LowerChar(s[i]);
  }

  /** Lower-casing twice is lower-casing once. */
  lemma LowerTwice(s: string)
    ensures Lower(Lower(s)) == Lower(s)
  {
    assert forall i :: 0 <= i < |s| ==> Lower(Lower(s))[i] == LowerChar(Lower(s)[i]);
  }

  /** A page is a MDiocre page exactly when its variables-only pass succeeds and leaves a non-empty template name. */
  lemma MdiocreExactly(env: Env, parser: string, text: string)
    ensures IsMdiocreString(env, parser, text) == Ok(true) <==>
      Process(env, parser, text, true).Done? && Get(Process(env, parser, text, true).vars, TemplateName) != ""
    ensures Process(env, parser, text, true).Raised? ==> IsMdiocreString(env, parser, text).Err?
  {
  }

  /** A page without a template gives "", and so does a template path that does not exist (None from `files`). */
  lemma NoTemplateEmpty(env: Env, parser: string, text: string, root: string, files: string -> Option<string>)
    ensures IsMdiocreString(env, parser, text) == Ok(false) ==> GenerateFromString(env, parser, text, root, files) == Ok("")
    ensures (IsMdiocreString(env, parser, text) == Ok(true) && Process(env, parser, text, false).Done? &&
      files(TemplatePath(root, Get(Process(env, parser, text, false).vars, TemplateName))).None?) ==>
      GenerateFromString(env, parser, text, root, files) == Ok("")
  {
  }

  /**
   * A page is written only when its extension is mapped and its conversion
   * is non-empty; the written text is the conversion, and with `to_html`
   * the name is the built name's stem with `.html`.
   */
  lemma WriteOnlyConverted(env: Env, source: string, built: string, root: string, toHtml: bool,
                           files: string -> Option<string>)
    ensures var a := GenerateFromPath(env, source, built, root, toHtml, files);
      a.Write? <==>
        ConverterFor(source).Some? && files(source).Some? &&
        GenerateFromString(env, ConverterFor(source).value, files(source).value, root, files).Ok? &&
        GenerateFromString(env, ConverterFor(source).value, files(source).value, root, files).value != ""
    ensures var a := GenerateFromPath(env, source, built, root, toHtml, files);
      a.Write? ==>
        a.html == GenerateFromString(env, ConverterFor(source).value, files(source).value, root, files).value &&
        a.target == (if toHtml then SplitExt(built).0 + ".html" else built)
    ensures var a := GenerateFromPath(env, source, built, root, toHtml, files);
      a.Copy? ==> a == Copy(source, built)
  {
  }

  /** The `.html` name keeps the directory and stem and ends in `.html`. */
  lemma HtmlNameShape(built: string)
    ensures EndsWith(HtmlName(built), ".html")
    ensures HtmlName(built)[..|HtmlName(built)| - 5] == SplitExt(built).0
    ensures SplitExt(built).0 + SplitExt(built).1 == built
  {
  }

  /** Files whose extension the table does not map are always copied, whatever they hold. */
  lemma UnmappedCopied(env: Env, source: string, built: string, root: string, toHtml: bool,
                       files: string -> Option<string>)
    requires Extension(source) !in Converters
    ensures GenerateFromPath(env, source, built, root, toHtml, files) == Copy(source, built)
    ensures VarsDirectlyFromFile(env, source, files) == Unmapped
  {
  }
}
