/** What every format adapter promises about the store it leaves. */
module ParserFacts {
  import opened Wrappers
  import opened Text
  import opened Failures
  import opened Grammar
  import opened Directives
  import opened DirectiveFacts
  import opened Parsers

  /** A page without directives leaves the store as it was, with `content` the conversion of the whole page. */
  lemma PlainPage(vars: Store, text: string, d: Delims, arith: string -> EvalResult, convert: string -> string)
    requires !Occurs(text, d.open)
    ensures ToVariables(vars, text, d, arith, convert, false) == Done(vars[ContentName := convert(text)])
    ensures ToVariables(vars, text, d, arith, convert, true) == Done(vars)
  {
    SubstPlain(vars, text, d, SubFn(arith));
  }

  /**
   * With `ignore_content` set, the adapters never touch `content` or the
   * timestamp, whether the pass succeeds or raises.
   */
  lemma IgnoredKeepsReserved(vars: Store, text: string, d: Delims, arith: string -> EvalResult, convert: string -> string)
    ensures SameReserved(vars, ToVariables(vars, text, d, arith, convert, true).vars)
  {
    PassKeepsReserved(vars, text, d, arith);
  }

  /**
   * Otherwise the only reserved name that changes is `content`, and it is
   * set exactly when the pass succeeds.
   */
  lemma WrittenContent(vars: Store, text: string, d: Delims, arith: string -> EvalResult, convert: string -> string)
    ensures var o := ToVariables(vars, text, d, arith, convert, false);
      (o.Done? <==> Subst(vars, text, d, SubFn(arith)).0.Ok?) &&
      (o.Done? ==> ContentName in o.vars && o.vars[ContentName] == convert(Subst(vars, text, d, SubFn(arith)).0.value)) &&
      (TimestampName in vars <==> TimestampName in o.vars) &&
      (TimestampName in vars ==> o.vars[TimestampName] == vars[TimestampName])
  {
    PassKeepsReserved(vars, text, d, arith);
    assert TimestampName in Reserved;
  }
}
