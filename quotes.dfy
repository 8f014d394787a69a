/** `remove_inner_outer_quotes` (mdiocre/utils.py, also duplicated in mdiocre/core.py). */
module Quotes {
  import opened Wrappers
  import opened Text
  import opened Failures

  predicate IsQuote(c: char) {
    c == '"' || c == '\''
  }

  /**
   * Strips the quotes around a quoted token. A token that opens with a quote
   * must close with the same one and vice versa; otherwise a SyntaxError is
   * raised. A token with no quote at either end comes back unchanged.
   */
  function RemoveInnerOuterQuotes(s: string): (r: Result<string, Error>)
    requires |s| > 0
    ensures IsQuote(s[0]) ==> (r.Ok? <==> s[|s| - 1] == s[0])
    ensures !IsQuote(s[0]) ==> (r.Ok? <==> !IsQuote(s[|s| - 1]))
    ensures r.Ok? && IsQuote(s[0]) ==> r.value == StripChar(s, s[0])
    ensures r.Ok? && !IsQuote(s[0]) ==> r.value == s
    ensures r.Err? ==> r.error.IsSyntaxError()
  {
    if s[0] == '"' then
      if s[|s| - 1] != '"' then Err(NoMatchingEnd('"', s)) else Ok(StripChar(s, '"'))
    else if s[0] == '\'' then
      if s[|s| - 1] != '\'' then Err(NoMatchingEnd('\'', s)) else Ok(StripChar(s, '\''))
    else if s[|s| - 1] == '"' then
      // the source re-tests the first character here; it cannot be a quote any more
      Err(NoMatchingBeginning('"', s))
    else if s[|s| - 1] == '\'' then
      Err(NoMatchingBeginning('\'', s))
    else Ok(s)
  }

  lemma {:induction false} StripQuotedLeft(q: char, body: string)
    requires body == [] || body[0] != q
    ensures TrimLeft([q] + body + [q], {q}) == if body == [] then [] else body + [q]
  {
    var s := [q] + body + [q];
    assert s[1..] == body + [q];
    if body == [] {
      assert TrimLeft(s[1..], {q}) == TrimLeft([q][1..], {q});
    }
  }

  lemma {:induction false} StripQuotedRight(q: char, body: string)
    requires body != [] && body[|body| - 1] != q
    ensures TrimRight(body + [q], {q}) == body
  {
    var l := body + [q];
    assert l[..|l| - 1] == body;
  }

  /**
   * For a token that is a quote, some text, and the same quote, with no quote
   * of that kind at either end of the text, the result is exactly the text.
   */
  lemma {:induction false} QuotedTokenBody(q: char, body: string)
    requires IsQuote(q) && (body == [] || (body[0] != q && body[|body| - 1] != q))
    ensures RemoveInnerOuterQuotes([q] + body + [q]) == Ok(body)
  {
    var s := [q] + body + [q];
    StripQuotedLeft(q, body);
    if body != [] {
      StripQuotedRight(q, body);
    }
    assert StripChar(s, q) == body;
    assert s[0] == q && s[|s| - 1] == q;
  }
}
