/**
 * Properties of the directive language of mdiocre/core.py, proved about the
 * functions of module Grammar: what a quoted or a plain value stores, that a
 * bad token anywhere makes the whole assignment fail, and how RE_CONCAT
 * really cuts the documented examples.
 */
module GrammarFacts {
  import opened Wrappers
  import opened Text
  import opened Failures
  import Quotes
  import opened Grammar

  /** A value with no comma and no newline is one single findall match of the second alternative. */
  lemma NoCommaOneToken(s: string)
    requires s != [] && ',' !in s && '\n' !in s
    ensures FindAll(s, 0) == [("", s)]
  {
    assert CommaCut(s, 0, 1).None?;
    assert s[..IndexOf(s, '\n')] == s;
    assert ToEnd(s, 0) == Some(|s|);
    assert s[0..|s|] == s;
  }

  /** A value that neither starts nor ends with whitespace is its own `strip()`. */
  lemma StripNoop(s: string)
    requires s != [] && !IsSpace(s[0]) && !IsSpace(s[|s| - 1])
    ensures Strip(s) == s
  {
    TrimLeftNoop(s, Whitespace);
  }

  /** The token list of a value that is a single comma-free, newline-free token. */
  lemma SingleToken(s: string)
    requires s != [] && ',' !in s && '\n' !in s && Strip(s) == s
    ensures ConcatVars(FindAll(s, 0)) == [s]
  {
    NoCommaOneToken(s);
    ConcatVarsOne(("", s));
  }

  lemma ConcatVarsOne(t: (string, string))
    ensures ConcatVars([t]) == Pieces(t)
  {
    assert [t][..0] == [];
  }

  /** A value that starts with a quote is never arithmetic. */
  lemma QuoteNotMath(v: string)
    requires v != [] && Quotes.IsQuote(v[0])
    ensures !IsMath(v)
  {
    if IsMath(v) {
      MathStart(v);
      assert false;
    }
  }

  /** A non-arithmetic value goes through the tokeniser and the value loop. */
  lemma EvalConcat(vars: Store, v: string, arith: string -> EvalResult)
    requires !IsMath(v)
    ensures EvalValue(vars, v, arith) == Concat(vars, ConcatVars(FindAll(v, 0)))
  {
  }

  /** A single token is one turn of the value loop, starting from "". */
  lemma ConcatOne(vars: Store, t: string)
    ensures Concat(vars, [t]) == Step(vars, "", t)
  {
    assert [t][..0] == [];
  }

  /** A token that opens and closes with the same quote is unquoted, then the whole value is unescaped. */
  lemma StepQuoted(vars: Store, acc: string, t: string)
    requires t != [] && Quotes.IsQuote(t[0]) && t[|t| - 1] == t[0]
    ensures Step(vars, acc, t) == Ok(Unescape(acc + StripChar(t, t[0])))
  {
  }

  /** A value that is one comma-free token with no outer whitespace is evaluated as that token alone. */
  lemma OneTokenValue(vars: Store, v: string, arith: string -> EvalResult)
    requires v != [] && ',' !in v && '\n' !in v && Strip(v) == v && !IsMath(v)
    ensures EvalValue(vars, v, arith) == Step(vars, "", v)
  {
    EvalConcat(vars, v, arith);
    SingleToken(v);
    ConcatOne(vars, v);
  }

  /**
   * A comma-free value that starts and ends with the same quote stores its
   * text with all outer quotes of that kind stripped and every `\x` collapsed to `x`.
   */
  lemma QuotedValue(vars: Store, v: string, arith: string -> EvalResult)
    requires v != [] && Quotes.IsQuote(v[0]) && v[|v| - 1] == v[0]
    requires ',' !in v && '\n' !in v
    ensures EvalValue(vars, v, arith) == Ok(Unescape(StripChar(v, v[0])))
  {
    StripNoop(v);
    QuoteNotMath(v);
    OneTokenValue(vars, v, arith);
    StepQuoted(vars, "", v);
    assert "" + StripChar(v, v[0]) == StripChar(v, v[0]);
  }

  /**
   * A comma-free, non-arithmetic value that does not start with a quote is a
   * variable name: it stores that variable's value, or "" when it is unset.
   */
  lemma PlainValue(vars: Store, v: string, arith: string -> EvalResult)
    requires v != [] && !Quotes.IsQuote(v[0]) && Strip(v) == v
    requires ',' !in v && '\n' !in v && !IsMath(v)
    ensures EvalValue(vars, v, arith) == Ok(Lookup(vars, v))
  {
    OneTokenValue(vars, v, arith);
    assert "" + Lookup(vars, v) == Lookup(vars, v);
  }

  /** A token on which the value loop fails whatever came before it. */
  predicate BadToken(t: string) {
    t == [] || (Quotes.IsQuote(t[0]) && t[|t| - 1] != t[0])
  }

  /** Once a token fails, the whole concatenation fails: nothing is stored. */
  lemma {:induction false} BadTokenFails(vars: Store, tokens: seq<string>, i: nat)
    requires i < |tokens| && BadToken(tokens[i])
    ensures Concat(vars, tokens).Err?
    decreases |tokens|
  {
    var init := tokens[..|tokens| - 1];
    if i < |tokens| - 1 {
      assert init[i] == tokens[i];
      BadTokenFails(vars, init, i);
    }
  }

  /**
   * An assignment whose value is not arithmetic and holds a bad token fails,
   * and `sub_func` then leaves the store exactly as it was.
   */
  lemma BadTokenLeavesStore(vars: Store, q: string, arith: string -> EvalResult, i: nat)
    requires IsAssignment(q)
    requires !IsMath(AssignedValue(q))
    requires i < |ConcatVars(FindAll(AssignedValue(q), 0))|
    requires BadToken(ConcatVars(FindAll(AssignedValue(q), 0))[i])
    ensures Assign(vars, q, arith).Err?
    ensures SubFunc(vars, q, arith).1 == vars
  {
    var value := AssignedValue(q);
    BadTokenFails(vars, ConcatVars(FindAll(value, 0)), i);
    EvalConcat(vars, value, arith);
    FailedValueFailsAssign(vars, q, arith);
  }

  /** An assignment whose value fails to evaluate fails too. */
  lemma FailedValueFailsAssign(vars: Store, q: string, arith: string -> EvalResult)
    requires IsAssignment(q) && EvalValue(vars, AssignedValue(q), arith).Err?
    ensures Assign(vars, q, arith).Err?
    ensures SubFunc(vars, q, arith).1 == vars
  {
    if AssignedName(q) !in Reserved {
      assert Assign(vars, q, arith) == Err(EvalValue(vars, AssignedValue(q), arith).error);
    }
    SubFuncKeepsOnError(vars, q, arith);
  }

  lemma SubFuncKeepsOnError(vars: Store, q: string, arith: string -> EvalResult)
    requires Assign(vars, q, arith).Err?
    ensures SubFunc(vars, q, arith).1 == vars
  {
  }

  /**
   * `name = "text"`: the assignment stores the unquoted, unescaped text under
   * the stripped name and changes nothing else.
   */
  lemma AssignQuoted(vars: Store, a: string, b: string, arith: string -> EvalResult)
    requires '=' !in a && IsAssignment(a + "=" + b) && Strip(a) !in Reserved
    requires var v := Strip(b); v != [] && Quotes.IsQuote(v[0]) && v[|v| - 1] == v[0] && ',' !in v && '\n' !in v
    ensures Assign(vars, a + "=" + b, arith) == Ok(vars[Strip(a) := Unescape(StripChar(Strip(b), Strip(b)[0]))])
  {
    var q, v := a + "=" + b, Strip(b);
    SplitAtFirstEquals(a, b);
    assert AssignedName(q) == Strip(a) && AssignedValue(q) == v;
    var text := Unescape(StripChar(v, v[0]));
    QuotedValue(vars, v, arith);
    AssignStores(vars, q, arith, text);
  }

  /** `name = other`: the assignment copies the value of `other`, or "" when it is unset. */
  lemma AssignCopy(vars: Store, a: string, b: string, arith: string -> EvalResult)
    requires '=' !in a && IsAssignment(a + "=" + b) && Strip(a) !in Reserved
    requires var v := Strip(b); v != [] && !Quotes.IsQuote(v[0]) && ',' !in v && '\n' !in v && !IsMath(v)
    ensures Assign(vars, a + "=" + b, arith) == Ok(vars[Strip(a) := Lookup(vars, Strip(b))])
  {
    var q := a + "=" + b;
    SplitAtFirstEquals(a, b);
    assert AssignedName(q) == Strip(a) && AssignedValue(q) == Strip(b);
    StripIdempotent(b);
    PlainValue(vars, Strip(b), arith);
    AssignStores(vars, q, arith, Lookup(vars, Strip(b)));
  }

  /** An assignment to a free name whose value evaluates stores exactly that value. */
  lemma AssignStores(vars: Store, q: string, arith: string -> EvalResult, v: string)
    requires IsAssignment(q) && AssignedName(q) !in Reserved
    requires EvalValue(vars, AssignedValue(q), arith) == Ok(v)
    ensures Assign(vars, q, arith) == Ok(vars[AssignedName(q) := v])
  {
  }

  // ---------------------------------------------------------------- the documented examples, as the regex cuts them

  lemma DocCut()
    ensures CommaCut("Var 1, Var 2", 0, 1) == Some(4)
  {
    var s := "Var 1, Var 2";
    assert CommaCut(s, 0, 4) == Some(4);
    assert CommaCut(s, 0, 3) == Some(4);
    assert CommaCut(s, 0, 2) == Some(4);
  }

  lemma DocTail()
    ensures FindAll("Var 1, Var 2", 6) == [("", " Var 2")]
  {
    var s := "Var 1, Var 2";
    assert CommaCut(s, 6, 11) == None;
    assert CommaCut(s, 6, 10) == None;
    assert CommaCut(s, 6, 9) == None;
    assert CommaCut(s, 6, 8) == None;
    assert CommaCut(s, 6, 7) == None;
    assert ToEnd(s, 6) == Some(12);
    assert FindAll(s, 12) == [];
    assert s[6..12] == " Var 2";
  }

  lemma StripVarA()
    ensures Strip("Var ") == "Var"
  {
    assert 'V' !in Whitespace && ' ' in Whitespace && 'r' !in Whitespace;
    assert "Var "[..3] == "Var";
    assert TrimLeft("Var ", Whitespace) == "Var ";
    assert TrimRight("Var", Whitespace) == "Var";
  }

  lemma StripVarB()
    ensures Strip(" Var 2") == "Var 2"
  {
    assert 'V' !in Whitespace && ' ' in Whitespace && '2' !in Whitespace;
    assert " Var 2"[1..] == "Var 2";
    assert TrimLeft("Var 2", Whitespace) == "Var 2";
    assert TrimRight("Var 2", Whitespace) == "Var 2";
  }

  lemma DocGroups()
    ensures FindAll("Var 1, Var 2", 0) == [("Var ", ""), ("", " Var 2")]
  {
    DocCut();
    DocTail();
    var s := "Var 1, Var 2";
    assert s[0..4] == "Var ";
  }

  /** The tokens of two findall pairs, the first from group 1 and the second from group 2. */
  lemma ConcatVarsTwo(x: string, y: string)
    requires x != [] && y != []
    ensures ConcatVars([(x, ""), ("", y)]) == [Strip(x), Strip(y)]
  {
    var g := [(x, ""), ("", y)];
    assert g[..1] == [(x, "")];
    ConcatVarsOne((x, ""));
  }

  /**
   * The documented concatenation `Var 1, Var 2` yields the tokens `Var` and
   * `Var 2`: the character before the comma is swallowed by `[^\\],`.
   */
  lemma DocExampleTokens()
    ensures ConcatVars(FindAll("Var 1, Var 2", 0)) == ["Var", "Var 2"]
  {
    DocGroups();
    ConcatVarsTwo("Var ", " Var 2");
    StripVarA();
    StripVarB();
  }

  lemma QuotesGroups()
    ensures FindAll("\"a, b\"", 0) == [("\"", ""), ("", " b\"")]
  {
    var s := "\"a, b\"";
    assert CommaCut(s, 0, 1) == Some(1);
    assert s[0..1] == "\"";
    assert CommaCut(s, 3, 4) == None by {
      assert CommaCut(s, 3, 5) == CommaCut(s, 3, 6);
    }
    assert ToEnd(s, 3) == Some(6) by {
      assert s[3..] == " b\"";
      assert IndexOf(" b\"", '\n') == 3;
    }
    assert s[3..6] == " b\"";
    assert FindAll(s, 6) == [];
    assert FindAll(s, 3) == [("", " b\"")];
  }

  /**
   * A comma inside quotes still splits: `"a, b"` is cut into the tokens
   * `"` (which unquotes to "") and `b"` (a variable name, as it does not
   * start with a quote).
   */
  lemma CommaInQuotesTokens()
    ensures ConcatVars(FindAll("\"a, b\"", 0)) == ["\"", "b\""]
  {
    QuotesGroups();
    ConcatVarsTwo("\"", " b\"");
    StripQuoteA();
    StripQuoteB();
  }

  lemma StripQuoteA()
    ensures Strip("\"") == "\""
  {
    assert '"' !in Whitespace;
    assert TrimLeft("\"", Whitespace) == "\"";
    assert TrimRight("\"", Whitespace) == "\"";
  }

  lemma StripQuoteB()
    ensures Strip(" b\"") == "b\""
  {
    assert 'b' !in Whitespace && ' ' in Whitespace && '"' !in Whitespace;
    assert " b\""[1..] == "b\"";
    assert TrimLeft("b\"", Whitespace) == "b\"";
    assert TrimRight("b\"", Whitespace) == "b\"";
  }

  /** The token made of a lone quote unquotes to "". */
  lemma LoneQuote(vars: Store)
    ensures Step(vars, "", "\"") == Ok("")
  {
    assert StripChar("\"", '"') == "" by {
      assert TrimLeft("\"", {'"'}) == TrimLeft("", {'"'});
    }
    StepQuoted(vars, "", "\"");
    assert Unescape("") == "";
  }

  lemma CommaInQuotesNotMath(vars: Store, arith: string -> EvalResult)
    ensures EvalValue(vars, "\"a, b\"", arith) == Concat(vars, ConcatVars(FindAll("\"a, b\"", 0)))
  {
    QuoteNotMath("\"a, b\"");
    EvalConcat(vars, "\"a, b\"", arith);
  }

  lemma CommaInQuotesLoop(vars: Store)
    ensures Concat(vars, ["\"", "b\""]) == Ok(Lookup(vars, "b\""))
  {
    ConcatTwo(vars, "\"", "b\"");
    LoneQuote(vars);
    assert "" + Lookup(vars, "b\"") == Lookup(vars, "b\"");
  }

  /** So the quoted-looking value `"a, b"` stores the value of the variable named `b"`. */
  lemma CommaInQuotesValue(vars: Store, arith: string -> EvalResult)
    ensures EvalValue(vars, "\"a, b\"", arith) == Ok(Lookup(vars, "b\""))
  {
    CommaInQuotesNotMath(vars, arith);
    CommaInQuotesTokens();
    CommaInQuotesLoop(vars);
  }

  /** Two tokens are two turns of the value loop. */
  lemma ConcatTwo(vars: Store, x: string, y: string)
    ensures Concat(vars, [x, y]) == (var a :- Step(vars, "", x); Step(vars, a, y))
  {
    assert [x, y][..1] == [x];
    ConcatOne(vars, x);
  }
}
