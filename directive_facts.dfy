/**
 * A worked pass over a two-directive document: the assignment made by the
 * first directive is seen by the lookup in the second.
 */
module DirectiveFacts {
  import opened Wrappers
  import opened Text
  import opened Failures
  import opened Grammar
  import opened GrammarFacts
  import opened Directives

  const Setter: string := "t = \"Hi\""

  lemma StripName()
    ensures Strip("t ") == "t"
  {
    assert 't' !in Whitespace && ' ' in Whitespace;
    assert "t "[..1] == "t";
    assert TrimLeft("t ", Whitespace) == "t ";
    assert TrimRight("t", Whitespace) == "t";
  }

  lemma StripValue()
    ensures Strip(" \"Hi\"") == "\"Hi\""
  {
    assert '"' !in Whitespace && ' ' in Whitespace;
    assert " \"Hi\""[1..] == "\"Hi\"";
    assert TrimLeft("\"Hi\"", Whitespace) == "\"Hi\"";
    assert TrimRight("\"Hi\"", Whitespace) == "\"Hi\"";
  }

  lemma Unquote()
    ensures Unescape(StripChar("\"Hi\"", '"')) == "Hi"
  {
    QuotedTokenBodyHi();
    UnescapeHi();
  }

  lemma UnescapeHi()
    ensures Unescape("Hi") == "Hi"
  {
    assert '\\' !in "Hi";
  }

  lemma QuotedTokenBodyHi()
    ensures StripChar("\"Hi\"", '"') == "Hi"
  {
    Quotes.QuotedTokenBody('"', "Hi");
    assert ['"'] + "Hi" + ['"'] == "\"Hi\"";
  }

  lemma SetterIsAssignment()
    ensures Setter == "t " + "=" + " \"Hi\""
    ensures IsAssignment(Setter)
  {
    assert Setter[2] == '=' && Setter[..4] == "t = ";
  }

  /** The name is free and the value is one quoted token. */
  lemma SetterParts()
    ensures "t" !in Reserved && '=' !in "t "
    ensures var v := "\"Hi\""; v != [] && Quotes.IsQuote(v[0]) && v[|v| - 1] == v[0] && ',' !in v && '\n' !in v
  {
    var v := "\"Hi\"";
    assert forall i :: 0 <= i < |v| ==> v[i] in {'"', 'H', 'i'};
  }

  /** `t = "Hi"` stores Hi under t. */
  lemma SetterAssigns(vars: Store, arith: string -> EvalResult)
    ensures Assign(vars, Setter, arith) == Ok(vars["t" := "Hi"])
  {
    SetterIsAssignment();
    StripName();
    StripValue();
    SetterParts();
    AssignQuoted(vars, "t ", " \"Hi\"", arith);
    Unquote();
  }

  /** `t` alone is no assignment, so it is looked up. */
  lemma LookupT(vars: Store, arith: string -> EvalResult)
    ensures SubFunc(vars, "t", arith) == (Ok(Get(vars, "t")), vars)
  {
    assert !IsAssignment("t");
  }

  lemma SecondPass(vars: Store, arith: string -> EvalResult)
    requires "t" in vars
    ensures Subst(vars, "<!--:" + "t" + "-->" + "", HtmlComment, SubFn(arith)) == (Ok(vars["t"]), vars)
  {
    NoEarlyClose("t", "-->");
    SubstDirective(vars, "t", "", HtmlComment, SubFn(arith));
    LookupT(vars, arith);
    StripT();
    assert Subst(vars, "", HtmlComment, SubFn(arith)) == (Ok([]), vars);
    assert vars["t"] + [] == vars["t"];
  }

  lemma StripT()
    ensures Strip("t") == "t"
  {
    assert 't' !in Whitespace;
  }

  const Doc: string := "<!--:t = \"Hi\"--><!--:t-->"
  const SecondDirective: string := "<!--:" + "t" + "-->" + ""

  lemma DocShape()
    ensures Doc == HtmlComment.open + Setter + HtmlComment.close + SecondDirective
    ensures forall k :: 1 <= k < |Setter| ==> !OccursAt(Setter + HtmlComment.close, HtmlComment.close, k)
  {
    assert '-' !in Setter;
    NoEarlyClose(Setter, "-->");
  }

  lemma SetterSub(vars: Store, arith: string -> EvalResult)
    ensures SubFunc(vars, Setter, arith) == (Ok(""), vars["t" := "Hi"])
  {
    SetterAssigns(vars, arith);
  }

  /**
   * `<!--:t = "Hi"--><!--:t-->` renders as Hi: the first directive is
   * replaced by "" and stores t, the second one reads it back.
   */
  lemma AssignThenLookup(vars: Store, arith: string -> EvalResult)
    ensures Subst(vars, Doc, HtmlComment, SubFn(arith)) == (Ok("Hi"), vars["t" := "Hi"])
  {
    var vars' := vars["t" := "Hi"];
    calc {
      Subst(vars, Doc, HtmlComment, SubFn(arith));
    == { DocShape(); SubstDirective(vars, Setter, SecondDirective, HtmlComment, SubFn(arith)); }
      Resume(SubFunc(vars, Setter, arith), SecondDirective, HtmlComment, SubFn(arith));
    == { SetterSub(vars, arith); }
      Prepend("", Subst(vars', SecondDirective, HtmlComment, SubFn(arith)));
    == { SecondPass(vars', arith); }
      Prepend("", (Ok("Hi"), vars'));
    == { assert "" + "Hi" == "Hi"; }
      (Ok("Hi"), vars');
    }
  }

  /** A whole pass leaves `content` and the timestamp as they were. */
  lemma {:induction false} PassKeepsReserved(vars: Store, s: string, d: Delims, arith: string -> EvalResult)
    ensures SameReserved(vars, Subst(vars, s, d, SubFn(arith)).1)
    decreases |s|
  {
    if s != [] {
      match DirectiveAt(s, d)
      case Some(j) =>
        var body := s[|d.open|..j];
        var step := SubFunc(vars, body, arith);
        SubFnApply(arith, vars, body);
        SubFuncKeepsReserved(vars, body, arith);
        DirectiveStep(vars, s, d, SubFn(arith), j, step);
        if step.0.Ok? {
          PassKeepsReserved(step.1, s[j + |d.close|..], d, arith);
        }
      case None =>
        AtText(vars, s, d, SubFn(arith));
        PassKeepsReserved(vars, s[1..], d, arith);
    }
  }

  /**
   * After the directives of a page are processed, the timestamp is still the
   * one the fresh store started with and `content` is still unset: only
   * `process` itself writes it.
   */
  lemma ProcessedReserved(text: string, timestamp: string, arith: string -> EvalResult)
    ensures var st := Subst(map[TimestampName := timestamp], text, HtmlComment, SubFn(arith)).1;
      TimestampName in st && st[TimestampName] == timestamp && ContentName !in st
  {
    PassKeepsReserved(map[TimestampName := timestamp], text, HtmlComment, arith);
    assert TimestampName in Reserved && ContentName in Reserved;
  }
}
