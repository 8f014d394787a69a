/**
 * The format adapters' `to_variables` (mdiocre/parsers): each runs the
 * directive pass of its format over the page, converts the result to HTML,
 * and stores that as `content` unless told to ignore it. The HTML adapter
 * converts nothing; the Markdown converter, the Gemtext adapter's
 * ElementTree re-serialisation and Python's `eval` are parameters.
 */
module Parsers {
  import opened Wrappers
  import opened Text
  import opened Failures
  import opened Grammar
  import opened Directives
  import opened Core
  import Zim
  import Gem

  /** How `to_variables` ends: it returns the store, or the exception escapes with the store as far as the pass got. */
  datatype Outcome = Done(vars: Store) | Raised(error: Error, vars: Store)

  /**
   * The store `to_variables` leaves: the directive pass over `text`, then,
   * unless `ignoreContent`, `content` set to the conversion of the
   * substituted text. The conversion runs only after the whole pass.
   */
  function ToVariables(vars: Store, text: string, d: Delims, arith: string -> EvalResult,
                       convert: string -> string, ignoreContent: bool): Outcome
  {
    var pass := Subst(vars, text, d, SubFn(arith));
    match pass.0
    case Err(e) => Raised(e, pass.1)
    case Ok(t) => Done(if ignoreContent then pass.1 else pass.1[ContentName := convert(t)])
  }

  /** The HTML adapter converts nothing. */
  function Unconverted(t: string): string {
    t
  }

  /** The Zim adapter's conversion. */
  function ZimHtml(t: string): string {
    Zim.Converted(t)
  }

  /** The Gemtext adapter's conversion, followed by the ElementTree re-serialisation. */
  function GemHtml(random: nat -> string, reserialise: string -> string): string -> string {
    t => reserialise(Gem.Converted(t, random))
  }

  /** The outcome a method reports, read off the store object after the call. */
  function Reported(r: Result<VariableManager, Error>, vars: Store): Outcome {
    if r.Ok? then Done(vars) else Raised(r.error, vars)
  }

  /** `BaseParser.to_variables`: the store it was given, unchanged. */
  method BaseToVariables(text: string, v: VariableManager, ignoreContent: bool) returns (r: VariableManager)
    ensures r == v
  {
    r := v;
  }

  /** The directive pass of an adapter, then the `content` write. */
  method Adapt(text: string, v: VariableManager, d: Delims, ignoreContent: bool, ghost convert: string -> string)
    returns (r: Result<VariableManager, Error>, substituted: string)
    modifies v
    ensures r.Ok? ==> r.value == v
    ensures r.Ok? ==> Subst(old(v.variables), text, d, SubFn(v.arith)).0 == Ok(substituted)
    ensures r.Err? ==> Reported(r, v.variables) == ToVariables(old(v.variables), text, d, v.arith, convert, ignoreContent)
    ensures r.Ok? ==> v.variables == Subst(old(v.variables), text, d, SubFn(v.arith)).1
  {
    var pass := Substitute(v, text, d);
    if pass.Err? {
      return Err(pass.error), "";
    }
    return Ok(v), pass.value;
  }

  /** `HtmlParser.to_variables`: the `<!--:…-->` pass, and `content` is the substituted page itself. */
  method HtmlToVariables(html: string, v: VariableManager, ignoreContent: bool) returns (r: Result<VariableManager, Error>)
    modifies v
    ensures r.Ok? ==> r.value == v
    ensures Reported(r, v.variables) == ToVariables(old(v.variables), html, HtmlComment, v.arith, Unconverted, ignoreContent)
  {
    var text;
    r, text := Adapt(html, v, HtmlComment, ignoreContent, Unconverted);
    if r.Ok? && !ignoreContent {
      v.variables := v.variables[ContentName := text];
    }
  }

  /** `MarkdownParser.to_variables`: the `<!--:…-->` pass, then the Markdown converter. */
  method MarkdownToVariables(markdown: string, v: VariableManager, ignoreContent: bool, convert: string -> string)
    returns (r: Result<VariableManager, Error>)
    modifies v
    ensures r.Ok? ==> r.value == v
    ensures Reported(r, v.variables) == ToVariables(old(v.variables), markdown, HtmlComment, v.arith, convert, ignoreContent)
  {
    var text;
    r, text := Adapt(markdown, v, HtmlComment, ignoreContent, convert);
    if r.Ok? {
      var html := convert(text);
      if !ignoreContent {
        v.variables := v.variables[ContentName := html];
      }
    }
  }

  /**
   * `ZimParser.to_variables`: the `[mdiocre:…]` pass, then the Zim converter,
   * which runs even when `content` is not written.
   */
  method ZimToVariables(zimtxt: string, v: VariableManager, ignoreContent: bool) returns (r: Result<VariableManager, Error>)
    modifies v
    ensures r.Ok? ==> r.value == v
    ensures Reported(r, v.variables) == ToVariables(old(v.variables), zimtxt, Bracket, v.arith, ZimHtml, ignoreContent)
  {
    var text;
    r, text := Adapt(zimtxt, v, Bracket, ignoreContent, ZimHtml);
    if r.Ok? {
      var html := Zim.ConvertMarkup(text);
      if !ignoreContent {
        v.variables := v.variables[ContentName := html];
      }
    }
  }

  /** `GemParser.to_variables`: the `[mdiocre:…]` pass, the Gemtext converter, then the re-serialisation. */
  method GemToVariables(gmitxt: string, v: VariableManager, ignoreContent: bool,
                        random: nat -> string, reserialise: string -> string)
    returns (r: Result<VariableManager, Error>)
    modifies v
    ensures r.Ok? ==> r.value == v
    ensures Reported(r, v.variables) ==
      ToVariables(old(v.variables), gmitxt, Bracket, v.arith, GemHtml(random, reserialise), ignoreContent)
  {
    var text;
    r, text := Adapt(gmitxt, v, Bracket, ignoreContent, GemHtml(random, reserialise));
    if r.Ok? {
      var converted := Gem.ConvertMarkup(text, random);
      var html := reserialise(converted);
      if !ignoreContent {
        v.variables := v.variables[ContentName := html];
      }
    }
  }
}
