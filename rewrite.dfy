/**
 * `re.sub(pattern, repl, s)` for a pattern that never matches the empty
 * text: at each position the match attempt either yields the replacement
 * and the length it consumed, or fails and one character is copied.
 */
module Rewrite {
  import opened Wrappers

  /** A match attempt at the start of a text: the replacement and the length consumed. */
  type Matcher = string -> Option<(string, nat)>

  /** Every match consumes at least one character and stays inside the text. */
  ghost predicate Advances(m: Matcher) {
    forall t :: m(t).Some? ==> 0 < m(t).value.1 <= |t|
  }

  /** The result of `re.sub`: every non-overlapping match, found left to right, replaced. */
  function Sub(s: string, m: Matcher): string
    requires Advances(m)
    decreases |s|
  {
    if s == [] then []
    else match m(s)
      case Some(hit) => hit.0 + Sub(s[hit.1..], m)
      case None => [s[0]] + Sub(s[1..], m)
  }

  /** Text in which the pattern matches nowhere is left as it is. */
  lemma {:induction false} SubNoMatch(s: string, m: Matcher)
    requires Advances(m)
    requires forall k :: 0 <= k < |s| ==> m(s[k..]).None?
    ensures Sub(s, m) == s
    decreases |s|
  {
    if s != [] {
      assert s[0..] == s;
      forall k | 0 <= k < |s| - 1
        ensures m(s[1..][k..]).None?
      {
        assert s[1..][k..] == s[k + 1..];
      }
      SubNoMatch(s[1..], m);
    }
  }

  /** A text that no match can start inside is copied, and the pass goes on after it. */
  lemma {:induction false} SubCopyPrefix(a: string, b: string, m: Matcher)
    requires Advances(m)
    requires forall k :: 0 <= k < |a| ==> m((a + b)[k..]).None?
    ensures Sub(a + b, m) == a + Sub(b, m)
    decreases |a|
  {
    if a != [] {
      assert (a + b)[0..] == a + b;
      assert (a + b)[1..] == a[1..] + b;
      forall k | 0 <= k < |a| - 1
        ensures m((a[1..] + b)[k..]).None?
      {
        assert (a[1..] + b)[k..] == (a + b)[k + 1..];
      }
      SubCopyPrefix(a[1..], b, m);
    } else {
      assert a + b == b;
    }
  }

  /** A text that is one match from its start to its end becomes that match's replacement. */
  lemma SubWhole(s: string, m: Matcher, r: string)
    requires Advances(m) && s != [] && m(s) == Some((r, |s|))
    ensures Sub(s, m) == r
  {
    assert s[|s|..] == [];
    assert Sub(s, m) == r + Sub([], m);
  }
}
