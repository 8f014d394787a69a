/**
 * mdiocre/core.py: the variable store `VariableManager`, whose `assign`
 * updates it in place, and the `sub_func`/`render`/`process` steps of the
 * `MDiocre` converter, proved against the functions of Grammar and Directives.
 */
module Core {
  import opened Wrappers
  import opened Text
  import opened Failures
  import opened Grammar
  import opened Directives
  import Quotes

  class VariableManager {
    /** `self.variables` */
    var variables: Store

    /** `self.reserved_variable_names` */
    const reserved: seq<string> := Reserved

    /** Python's `eval`, applied only to a value that RE_MATH accepts. */
    const arith: string -> EvalResult

    /** `__init__`: an empty store but for the generation timestamp. */
    constructor(timestamp: string, arith: string -> EvalResult)
      ensures variables == map[TimestampName := timestamp]
      ensures this.arith == arith
    {
      variables := map[TimestampName := timestamp];
      this.arith := arith;
    }

    /** `get`: the value stored under the trimmed name, or "" — it never fails. */
    function Get(name: string): (r: string)
      reads this
      ensures Strip(name) in variables ==> r == variables[Strip(name)]
      ensures Strip(name) !in variables ==> r == ""
    {
      Grammar.Get(variables, name)
    }

    /**
     * `assign`: on success the store is `Grammar.Assign`'s new store; on any
     * exception the store is left exactly as it was.
     */
    method Assign(query: string) returns (r: Result<(), Error>)
      modifies this
      ensures r.Ok? <==> Grammar.Assign(old(variables), query, arith).Ok?
      ensures r.Ok? ==> variables == Grammar.Assign(old(variables), query, arith).value
      ensures r.Err? ==> r.error == Grammar.Assign(old(variables), query, arith).error && variables == old(variables)
    {
      if !IsAssignment(query) {
        return Err(NotAnAssignment(query));
      }
      var ident, value := AssignedName(query), AssignedValue(query);
      if ident in reserved {
        return Err(ReservedName(ident));
      }
      var stored := EvalValue(value);
      if stored.Err? {
        return Err(stored.error);
      }
      variables := variables[ident := stored.value];
      return Ok(());
    }

    /** The value an assignment computes for its right-hand side, reading the store. */
    method EvalValue(value: string) returns (r: Result<string, Error>)
      ensures r == Grammar.EvalValue(variables, value, arith)
    {
      if IsMath(value) {
        match arith(value)
        case Value(t) => r := Ok(t);
        case RaisesSyntaxError => r := Err(EvalSyntaxError);
        case RaisesOther => r := Err(EvalFailure);
      } else {
        var concatVars := Tokens(value);
        r := Concatenate(concatVars);
      }
    }

    /** The second loop of `assign`: the tokens' values appended in order, unquoting and unescaping as it goes. */
    method Concatenate(concatVars: seq<string>) returns (r: Result<string, Error>)
      ensures r == Concat(variables, concatVars)
    {
      var stored := "";
      for j := 0 to |concatVars|
        invariant Concat(variables, concatVars[..j]) == Ok(stored)
      {
        ConcatStep(variables, concatVars, j);
        var token := concatVars[j];
        if token == [] {
          ConcatStopsAtError(variables, concatVars, j + 1);
          return Err(EmptyToken);
        }
        if Quotes.IsQuote(token[0]) {
          var unquoted := Quotes.RemoveInnerOuterQuotes(token);
          if unquoted.Err? {
            ConcatStopsAtError(variables, concatVars, j + 1);
            return Err(unquoted.error);
          }
          stored := Unescape(stored + unquoted.value);
        } else {
          stored := stored + Lookup(variables, token);
        }
      }
      assert concatVars[..|concatVars|] == concatVars;
      return Ok(stored);
    }
  }

  /** The first loop of `assign`: the non-empty groups of every findall match, stripped, in order. */
  method Tokens(value: string) returns (concatVars: seq<string>)
    ensures concatVars == ConcatVars(FindAll(value, 0))
  {
    var groups := FindAll(value, 0);
    concatVars := [];
    for i := 0 to |groups|
      invariant concatVars == ConcatVars(groups[..i])
    {
      ConcatVarsStep(groups, i);
      var token := groups[i];
      if token.0 != "" {
        concatVars := concatVars + [Strip(token.0)];
      }
      if token.1 != "" {
        concatVars := concatVars + [Strip(token.1)];
      }
    }
    assert groups[..|groups|] == groups;
  }

  /**
   * `sub_func`: a successful assignment is replaced by ""; a SyntaxError
   * turns the directive into `get` of the whole statement; any other
   * exception escapes.
   */
  method SubFunc(v: VariableManager, statement: string) returns (r: Result<string, Error>)
    modifies v
    ensures (r, v.variables) == Grammar.SubFunc(old(v.variables), statement, v.arith)
  {
    var outcome := v.Assign(statement);
    match outcome
    case Ok(_) => r := Ok("");
    case Err(e) =>
      if e.IsSyntaxError() {
        r := Ok(v.Get(statement));
      } else {
        r := Err(e);
      }
  }

  /**
   * `re.sub(pattern, sub_func, text)`: one left-to-right pass that replaces
   * every directive and copies all other text.
   */
  method Substitute(v: VariableManager, s: string, d: Delims) returns (r: Result<string, Error>)
    modifies v
    ensures (r, v.variables) == Subst(old(v.variables), s, d, SubFn(v.arith))
  {
    var out := "";
    var i := 0;
    assert s[0..] == s;
    PrependNothing(Subst(v.variables, s, d, SubFn(v.arith)));
    while i < |s|
      invariant 0 <= i <= |s|
      invariant Prepend(out, Subst(v.variables, s[i..], d, SubFn(v.arith))) == Subst(old(v.variables), s, d, SubFn(v.arith))
      decreases |s| - i
    {
      ghost var rest := s[i..];
      var piece, used := SubstituteAt(v, s[i..], d);
      if piece.Err? {
        return piece;
      }
      PrependTwice(out, piece.value, Subst(v.variables, rest[used..], d, SubFn(v.arith)));
      assert rest[used..] == s[i + used..];
      out := out + piece.value;
      i := i + used;
    }
    assert out + [] == out;
    return Ok(out);
  }

  /**
   * One match attempt of `re.sub` at the start of `rest`: a directive is
   * replaced by its `sub_func` result, anything else copies one character.
   */
  method SubstituteAt(v: VariableManager, rest: string, d: Delims) returns (piece: Result<string, Error>, used: nat)
    requires rest != []
    modifies v
    ensures 0 < used <= |rest|
    ensures piece.Err? ==> (piece, v.variables) == Subst(old(v.variables), rest, d, SubFn(v.arith))
    ensures piece.Ok? ==>
      Prepend(piece.value, Subst(v.variables, rest[used..], d, SubFn(v.arith))) == Subst(old(v.variables), rest, d, SubFn(v.arith))
  {
    match DirectiveAt(rest, d)
    case Some(j) =>
      piece := SubstituteDirective(v, rest, d, j);
      used := j + |d.close|;
    case None =>
      piece := Ok([rest[0]]);
      used := 1;
      AtText(v.variables, rest, d, SubFn(v.arith));
  }

  /** The directive that ends at `j`, replaced by its `sub_func` result. */
  method SubstituteDirective(v: VariableManager, rest: string, d: Delims, j: nat) returns (piece: Result<string, Error>)
    requires DirectiveAt(rest, d) == Some(j)
    modifies v
    ensures j + |d.close| <= |rest|
    ensures piece.Err? ==> (piece, v.variables) == Subst(old(v.variables), rest, d, SubFn(v.arith))
    ensures piece.Ok? ==>
      Prepend(piece.value, Subst(v.variables, rest[j + |d.close|..], d, SubFn(v.arith))) == Subst(old(v.variables), rest, d, SubFn(v.arith))
  {
    ghost var vars := v.variables;
    piece := SubFunc(v, rest[|d.open|..j]);
    SubFnApply(v.arith, vars, rest[|d.open|..j]);
    DirectiveStep(vars, rest, d, SubFn(v.arith), j, (piece, v.variables));
  }

  /** `MDiocre.render`: the template with its `<!--:…-->` directives substituted against the given store. */
  method Render(template: string, v: VariableManager) returns (r: Result<string, Error>)
    modifies v
    ensures (r, v.variables) == Subst(old(v.variables), template, HtmlComment, SubFn(v.arith))
  {
    r := Substitute(v, template, HtmlComment);
  }

  /**
   * `MDiocre.process`: a fresh store holding only the timestamp, the
   * directives of `text` substituted into it, then `content` set to the
   * Markdown conversion of the substituted text unless `ignoreContent`.
   */
  method Process(text: string, ignoreContent: bool, timestamp: string, arith: string -> EvalResult, markdown: string -> string)
    returns (r: Result<VariableManager, Error>)
    ensures var pass := Subst(map[TimestampName := timestamp], text, HtmlComment, SubFn(arith));
      r.Ok? <==> pass.0.Ok?
    ensures var pass := Subst(map[TimestampName := timestamp], text, HtmlComment, SubFn(arith));
      r.Ok? ==> fresh(r.value) && r.value.arith == arith &&
                r.value.variables == if ignoreContent then pass.1 else pass.1[ContentName := markdown(pass.0.value)]
    ensures r.Err? ==> r.error == Subst(map[TimestampName := timestamp], text, HtmlComment, SubFn(arith)).0.error
  {
    var v := new VariableManager(timestamp, arith);
    var converted := Substitute(v, text, HtmlComment);
    if converted.Err? {
      return Err(converted.error);
    }
    if !ignoreContent {
      v.variables := v.variables[ContentName := markdown(converted.value)];
    }
    return Ok(v);
  }
}
