/**
 * The single left-to-right `re.sub` pass that replaces every directive of a
 * document by what `sub_func` returns, for any pair of delimiters:
 * `<!--:(.+?)-->` (mdiocre/core.py, the HTML and Markdown adapters) and
 * `\[mdiocre:(.+?)\]` (the Zim and Gemtext adapters). The callback is a
 * parameter; the converters pass `sub_func` (Grammar.SubFunc).
 */
module Directives {
  import opened Wrappers
  import opened Text
  import opened Failures
  import opened Grammar

  datatype Delims = Delims(open: string, close: string)

  /**
   * What `re.sub` calls on each directive body: the replacement text (or the
   * exception it raises) and the store afterwards.
   */
  type Callback = (Store, string) -> (Result<string, Error>, Store)

  /** `RE_HTML_COMMENTS` and the adapters' `RE_COMMENTS` for HTML and Markdown. */
  const HtmlComment: Delims := Delims("<!--:", "-->")

  /** `RE_COMMENTS` of the Zim and Gemtext adapters. */
  const Bracket: Delims := Delims("[mdiocre:", "]")

  /**
   * The lazy body `(.+?)` followed by the closing delimiter, with the body
   * starting at `b` and tried up to `j` or beyond: the first index at which
   * `close` occurs, the body in between holding no newline.
   */
  function CloseFrom(s: string, close: string, b: nat, j: nat): (r: Option<nat>)
    requires b < j <= |s|
    requires '\n' !in s[b..j - 1]
    ensures r.Some? ==> j <= r.value && OccursAt(s, close, r.value) && '\n' !in s[b..r.value]
    ensures r.Some? ==> forall m :: j <= m < r.value ==> !OccursAt(s, close, m)
    ensures r.None? ==> forall m :: j <= m <= |s| && '\n' !in s[b..m] ==> !OccursAt(s, close, m)
    decreases |s| - j
  {
    if s[j - 1] == '\n' then
      forall m | j <= m <= |s|
        ensures '\n' in s[b..m]
      {
        assert s[b..m][j - 1 - b] == '\n';
      }
      None
    else
      assert s[b..j] == s[b..j - 1] + [s[j - 1]];
      if OccursAt(s, close, j) then Some(j)
      else if j == |s| then None
      else CloseFrom(s, close, b, j + 1)
  }

  /**
   * The directive at the start of `s`, if one begins there: the index at
   * which its closing delimiter starts. The body is `s[|open|..]` up to it.
   */
  function DirectiveAt(s: string, d: Delims): (r: Option<nat>)
    ensures r.Some? ==> StartsWith(s, d.open) && |d.open| < r.value && OccursAt(s, d.close, r.value)
    ensures r.Some? ==> '\n' !in s[|d.open|..r.value]
    ensures r.Some? ==> forall m :: |d.open| < m < r.value ==> !OccursAt(s, d.close, m)
  {
    if StartsWith(s, d.open) && |d.open| < |s| then CloseFrom(s, d.close, |d.open|, |d.open| + 1)
    else None
  }

  /** Puts `t` in front of a successful result. */
  function Prepend(t: string, r: (Result<string, Error>, Store)): (Result<string, Error>, Store) {
    (if r.0.Ok? then Ok(t + r.0.value) else r.0, r.1)
  }

  /**
   * Text and store after the whole pass over `s`. An exception that escapes
   * `sub_func` aborts the pass; the store then keeps the effects of the
   * directives before it.
   */
  function Subst(vars: Store, s: string, d: Delims, sub: Callback): (Result<string, Error>, Store)
    decreases |s|, 0
  {
    if s == [] then (Ok([]), vars)
    else match DirectiveAt(s, d)
      case Some(j) => Resume(sub(vars, s[|d.open|..j]), s[j + |d.close|..], d, sub)
      case None => Prepend([s[0]], Subst(vars, s[1..], d, sub))
  }

  /** What follows one directive: its replacement, then the pass over the rest with the updated store. */
  function Resume(step: (Result<string, Error>, Store), rest: string, d: Delims, sub: Callback): (Result<string, Error>, Store)
    decreases |rest|, 1
  {
    match step.0
    case Err(e) => (Err(e), step.1)
    case Ok(t) => Prepend(t, Subst(step.1, rest, d, sub))
  }

  /** The pass at a directive. */
  lemma AtDirective(vars: Store, s: string, d: Delims, sub: Callback)
    requires DirectiveAt(s, d).Some?
    ensures var j := DirectiveAt(s, d).value;
      Subst(vars, s, d, sub) == Resume(sub(vars, s[|d.open|..j]), s[j + |d.close|..], d, sub)
  {
  }

  /** The pass where no directive starts. */
  lemma AtText(vars: Store, s: string, d: Delims, sub: Callback)
    requires s != [] && DirectiveAt(s, d).None?
    ensures Subst(vars, s, d, sub) == Prepend([s[0]], Subst(vars, s[1..], d, sub))
  {
  }

  lemma ResumeStep(step: (Result<string, Error>, Store), rest: string, d: Delims, sub: Callback)
    ensures step.0.Err? ==> Resume(step, rest, d, sub) == step
    ensures step.0.Ok? ==> Resume(step, rest, d, sub) == Prepend(step.0.value, Subst(step.1, rest, d, sub))
  {
  }

  /** One step of the pass at a directive, whatever the callback returned. */
  lemma DirectiveStep(vars: Store, rest: string, d: Delims, sub: Callback, j: nat, step: (Result<string, Error>, Store))
    requires DirectiveAt(rest, d) == Some(j) && step == sub(vars, rest[|d.open|..j])
    ensures j + |d.close| <= |rest|
    ensures step.0.Err? ==> Subst(vars, rest, d, sub) == step
    ensures step.0.Ok? ==> Prepend(step.0.value, Subst(step.1, rest[j + |d.close|..], d, sub)) == Subst(vars, rest, d, sub)
  {
    assert OccursAt(rest, d.close, j);
    var after := rest[j + |d.close|..];
    AtDirective(vars, rest, d, sub);
    assert Subst(vars, rest, d, sub) == Resume(step, after, d, sub);
    ResumeStep(step, after, d, sub);
  }

  // ---------------------------------------------------------------- properties of the pass

  lemma PrependNothing(r: (Result<string, Error>, Store))
    ensures Prepend([], r) == r
  {
    if r.0.Ok? {
      assert [] + r.0.value == r.0.value;
    }
  }

  lemma PrependTwice(x: string, y: string, r: (Result<string, Error>, Store))
    ensures Prepend(x, Prepend(y, r)) == Prepend(x + y, r)
  {
    if r.0.Ok? {
      assert x + (y + r.0.value) == (x + y) + r.0.value;
    }
  }

  /** Where no opening delimiter starts, one character is copied. */
  lemma CopyOne(vars: Store, s: string, d: Delims, sub: Callback)
    requires s != [] && !OccursAt(s, d.open, 0)
    ensures Subst(vars, s, d, sub) == Prepend([s[0]], Subst(vars, s[1..], d, sub))
  {
    assert !StartsWith(s, d.open);
  }

  /** No delimiter in the first `n` positions of `s` means none in the first `n - 1` of `s[1..]`. */
  lemma ShiftNoOpen(s: string, n: nat, pat: string)
    requires 0 < n <= |s|
    requires forall i :: 0 <= i < n ==> !OccursAt(s, pat, i)
    ensures forall i :: 0 <= i < n - 1 ==> !OccursAt(s[1..], pat, i)
  {
    forall i | 0 <= i < n - 1
      ensures !OccursAt(s[1..], pat, i)
    {
      if OccursAt(s[1..], pat, i) {
        assert s[1..][i..i + |pat|] == s[i + 1..i + 1 + |pat|];
        assert OccursAt(s, pat, i + 1);
      }
    }
  }

  /** Text in which no directive opens before index `n` is copied unchanged up to `n`. */
  lemma {:induction false} SubstCopy(vars: Store, s: string, n: nat, d: Delims, sub: Callback)
    requires n <= |s|
    requires forall i :: 0 <= i < n ==> !OccursAt(s, d.open, i)
    ensures Subst(vars, s, d, sub) == Prepend(s[..n], Subst(vars, s[n..], d, sub))
  {
    if n == 0 {
      assert s[..0] == [] && s[0..] == s;
      PrependNothing(Subst(vars, s, d, sub));
    } else {
      var t := s[1..];
      ShiftNoOpen(s, n, d.open);
      CopyOne(vars, s, d, sub);
      SubstCopy(vars, t, n - 1, d, sub);
      assert t[n - 1..] == s[n..];
      assert [s[0]] + t[..n - 1] == s[..n];
      PrependTwice([s[0]], t[..n - 1], Subst(vars, s[n..], d, sub));
    }
  }

  /** Text that holds no opening delimiter at all comes back as it is, with the store untouched. */
  lemma SubstPlain(vars: Store, s: string, d: Delims, sub: Callback)
    requires !Occurs(s, d.open)
    ensures Subst(vars, s, d, sub) == (Ok(s), vars)
  {
    SubstCopy(vars, s, |s|, d, sub);
    assert s[..|s|] == s && s[|s|..] == [];
    assert s + [] == s;
  }

  /**
   * A directive whose body is non-empty, newline-free and holds no closing
   * delimiter before its end is replaced by `sub_func` of exactly that body,
   * and the pass goes on after the closing delimiter with the store
   * `sub_func` left behind.
   */
  lemma {:induction false} SubstDirective(vars: Store, body: string, rest: string, d: Delims, sub: Callback)
    requires body != [] && '\n' !in body
    requires forall k :: 1 <= k < |body| ==> !OccursAt(body + d.close, d.close, k)
    ensures Subst(vars, d.open + body + d.close + rest, d, sub) == Resume(sub(vars, body), rest, d, sub)
  {
    var s := d.open + body + d.close + rest;
    var b := |d.open|;
    var m := b + |body|;
    assert s[..b] == d.open;
    assert s[b..m] == body;
    assert s[m..m + |d.close|] == d.close;
    assert OccursAt(s, d.close, m);
    var c := CloseFrom(s, d.close, b, b + 1);
    assert c.Some?;
    if c.value < m {
      var k := c.value - b;
      assert s[c.value..c.value + |d.close|] == (body + d.close)[k..k + |d.close|];
      assert OccursAt(body + d.close, d.close, k);
    }
    assert c.value == m;
    assert DirectiveAt(s, d) == Some(m);
    assert s[m + |d.close|..] == rest;
  }

  /**
   * The pass over `a`, a directive and `rest`, where no directive opens
   * inside `a`: `a` is copied, the directive becomes its `sub_func` result,
   * and `rest` is processed from the source text, never from the inserted text.
   */
  lemma FirstDirective(vars: Store, a: string, body: string, rest: string, d: Delims, sub: Callback)
    requires forall i :: 0 <= i < |a| ==> !OccursAt(a + d.open, d.open, i)
    requires body != [] && '\n' !in body
    requires forall k :: 1 <= k < |body| ==> !OccursAt(body + d.close, d.close, k)
    ensures Subst(vars, a + d.open + body + d.close + rest, d, sub)
         == Prepend(a, Resume(sub(vars, body), rest, d, sub))
  {
    var u := d.open + body + d.close + rest;
    var s := a + u;
    assert s == a + d.open + body + d.close + rest;
    PrefixNoOpen(a, u, d.open);
    SubstCopy(vars, s, |a|, d, sub);
    assert s[..|a|] == a && s[|a|..] == u;
    SubstDirective(vars, body, rest, d, sub);
  }

  /** An occurrence of `pat` that starts inside `a` lies within `a + pat` when `u` starts with `pat`. */
  lemma PrefixNoOpen(a: string, u: string, pat: string)
    requires StartsWith(u, pat)
    requires forall i :: 0 <= i < |a| ==> !OccursAt(a + pat, pat, i)
    ensures forall i :: 0 <= i < |a| ==> !OccursAt(a + u, pat, i)
  {
    forall i | 0 <= i < |a|
      ensures !OccursAt(a + u, pat, i)
    {
      if OccursAt(a + u, pat, i) {
        assert (a + u)[..|a| + |pat|] == a + pat;
        assert (a + u)[i..i + |pat|] == (a + u)[..|a| + |pat|][i..i + |pat|];
        assert OccursAt(a + pat, pat, i);
      }
    }
  }

  /** A body that does not hold the first character of the closing delimiter cannot close early. */
  lemma NoEarlyClose(body: string, close: string)
    requires close != [] && close[0] !in body
    ensures forall k :: 0 <= k < |body| ==> !OccursAt(body + close, close, k)
  {
    forall k | 0 <= k < |body|
      ensures !OccursAt(body + close, close, k)
    {
      assert (body + close)[k] == body[k];
    }
  }
}
