/**
 * The handful of Python string operations the system relies on, written out:
 * `str.isspace`, `strip`, `startswith`/`endswith`, `split`, `join`,
 * `replace`, `lower`, and `os.path.splitext`.
 */
module Text {
  import opened Wrappers

  /** The characters for which Python's `str.isspace()` holds (and which the regex class `\s` matches). */
  const Whitespace: set<char> :=
    {'\t', '\n', '\U{b}', '\U{c}', '\r', '\U{1c}', '\U{1d}', '\U{1e}', '\U{1f}', ' ',
     '\U{85}', '\U{a0}', '\U{1680}', '\U{2000}', '\U{2001}', '\U{2002}', '\U{2003}',
     '\U{2004}', '\U{2005}', '\U{2006}', '\U{2007}', '\U{2008}', '\U{2009}', '\U{200a}',
     '\U{2028}', '\U{2029}', '\U{202f}', '\U{205f}', '\U{3000}'}

  predicate IsSpace(c: char) {
    c in Whitespace
  }

  predicate IsDigit(c: char) {
    '0' <= c <= '9'
  }

  /** The regex class `\w`, restricted to ASCII. */
  predicate IsWordChar(c: char) {
    'a' <= c <= 'z' || 'A' <= c <= 'Z' || IsDigit(c) || c == '_'
  }

  predicate AllIn(s: string, cs: set<char>) {
    forall i :: 0 <= i < |s| ==> s[i] in cs
  }

  /** A line that `^\s*$` matches. */
  predicate IsBlank(s: string) {
    AllIn(s, Whitespace)
  }

  /** Drops the leading characters that belong to `cs`. */
  function TrimLeft(s: string, cs: set<char>): (r: string)
    ensures |r| <= |s| && r == s[|s| - |r|..]
    ensures AllIn(s[..|s| - |r|], cs)
    ensures r == [] || r[0] !in cs
  {
    if s != [] && s[0] in cs then
      var r := TrimLeft(s[1..], cs);
      assert s[1..][..|s| - 1 - |r|] == s[1..|s| - |r|];
      r
    else s
  }

  /** Drops the trailing characters that belong to `cs`. */
  function TrimRight(s: string, cs: set<char>): (r: string)
    ensures |r| <= |s| && r == s[..|r|]
    ensures AllIn(s[|r|..], cs)
    ensures r == [] || r[|r| - 1] !in cs
  {
    if s != [] && s[|s| - 1] in cs then
      var r := TrimRight(s[..|s| - 1], cs);
      assert s[|r|..] == s[..|s| - 1][|r|..] + [s[|s| - 1]];
      r
    else s
  }

  /** Python's `s.strip(chars)`. */
  function Trim(s: string, cs: set<char>): string {
    TrimRight(TrimLeft(s, cs), cs)
  }

  /** `r` sits at index `i` of `s`, and everything before and after it is in `cs`. */
  predicate MiddleAt(s: string, r: string, i: int, cs: set<char>) {
    0 <= i <= |s| - |r| && r == s[i..i + |r|] && AllIn(s[..i], cs) && AllIn(s[i + |r|..], cs)
  }

  /**
   * What `strip` leaves is the middle slice of `s` that neither starts nor
   * ends with a character of `cs`, everything cut off being in `cs`.
   */
  lemma TrimIsMiddleSlice(s: string, cs: set<char>)
    ensures exists i :: MiddleAt(s, Trim(s, cs), i, cs)
    ensures var r := Trim(s, cs);
      r == [] || (r[0] !in cs && r[|r| - 1] !in cs)
  {
    var l := TrimLeft(s, cs);
    var r := TrimRight(l, cs);
    SliceOfSuffix(s, cs, l, r);
    assert MiddleAt(s, Trim(s, cs), |s| - |l|, cs);
    TrimEnds(s, cs);
  }

  lemma TrimEnds(s: string, cs: set<char>)
    ensures var r := Trim(s, cs);
      r == [] || (r[0] !in cs && r[|r| - 1] !in cs)
  {
    var l := TrimLeft(s, cs);
    var r := TrimRight(l, cs);
    if r != [] {
      assert r[0] == l[..|r|][0] == l[0];
    }
  }

  /** A prefix `r` of a suffix `l` of `s`, with what is cut off in `cs` both times, is such a middle slice. */
  lemma SliceOfSuffix(s: string, cs: set<char>, l: string, r: string)
    requires |l| <= |s| && l == s[|s| - |l|..] && AllIn(s[..|s| - |l|], cs)
    requires |r| <= |l| && r == l[..|r|] && AllIn(l[|r|..], cs)
    ensures var i := |s| - |l|; r == s[i..i + |r|] && AllIn(s[i + |r|..], cs)
  {
    var i := |s| - |l|;
    PrefixOfSuffix(s, i, |r|);
    assert s[i + |r|..] == l[|r|..];
  }

  /** A prefix of a suffix is a middle slice, and what follows it is the rest of the suffix. */
  lemma PrefixOfSuffix(s: string, i: nat, k: nat)
    requires i + k <= |s|
    ensures s[i..][..k] == s[i..i + k] && s[i..][k..] == s[i + k..]
  {
  }

  /** `s.strip()` */
  function Strip(s: string): string {
    Trim(s, Whitespace)
  }

  /** `s.strip(c)` */
  function StripChar(s: string, c: char): string {
    Trim(s, {c})
  }

  lemma {:induction false} TrimLeftNoop(s: string, cs: set<char>)
    requires s == [] || s[0] !in cs
    ensures TrimLeft(s, cs) == s
  {
  }

  /** Stripping is idempotent, and a string already free of outer whitespace is left as is. */
  lemma {:induction false} StripIdempotent(s: string)
    ensures Strip(Strip(s)) == Strip(s)
  {
    var r := Strip(s);
    assert TrimLeft(r, Whitespace) == r;
    if r != [] {
      assert TrimRight(r, Whitespace) == r;
    }
  }

  predicate StartsWith(s: string, p: string) {
    |p| <= |s| && s[..|p|] == p
  }

  /** A text that differs from `p` at some index of `p` does not start with `p`. */
  lemma NotStartsWith(s: string, p: string, i: nat)
    requires i < |p| && (i >= |s| || s[i] != p[i])
    ensures !StartsWith(s, p)
  {
    if |p| <= |s| {
      assert s[..|p|][i] == s[i];
    }
  }

  predicate EndsWith(s: string, p: string) {
    |p| <= |s| && s[|s| - |p|..] == p
  }

  /** Python's `s.split(c)` for a one-character separator. */
  function Split(s: string, c: char): (r: seq<string>)
    ensures |r| >= 1
    ensures forall i :: 0 <= i < |r| ==> c !in r[i]
  {
    if s == [] then [[]]
    else if s[0] == c then [[]] + Split(s[1..], c)
    else
      var t := Split(s[1..], c);
      [[s[0]] + t[0]] + t[1..]
  }

  /** Splitting never brings in a character the text does not hold. */
  lemma {:induction false} SplitKeepsAbsent(s: string, c: char, x: char)
    requires x !in s
    ensures forall i :: 0 <= i < |Split(s, c)| ==> x !in Split(s, c)[i]
    decreases |s|
  {
    if s != [] {
      SplitKeepsAbsent(s[1..], c, x);
    }
  }

  /** Python's `sep.join(parts)`. */
  function Join(parts: seq<string>, sep: string): string {
    if parts == [] then []
    else if |parts| == 1 then parts[0]
    else parts[0] + sep + Join(parts[1..], sep)
  }

  /** Text without the separator is one piece. */
  lemma {:induction false} SplitNone(s: string, c: char)
    requires c !in s
    ensures Split(s, c) == [s]
    decreases |s|
  {
    if s != [] {
      SplitNone(s[1..], c);
      assert [s[0]] + s[1..] == s;
    }
  }

  /** The first separator ends the first piece. */
  lemma {:induction false} SplitFirst(a: string, c: char, b: string)
    requires c !in a
    ensures Split(a + [c] + b, c) == [a] + Split(b, c)
    decreases |a|
  {
    var s := a + [c] + b;
    if a == [] {
      assert s[1..] == b;
    } else {
      assert s[1..] == a[1..] + [c] + b;
      SplitFirst(a[1..], c, b);
      assert [a[0]] + a[1..] == a;
    }
  }

  /** Splitting on a character and joining with it again gives back the original text. */
  lemma {:induction false} JoinSplit(s: string, c: char)
    ensures Join(Split(s, c), [c]) == s
  {
    if s == [] {
    } else if s[0] == c {
      JoinSplit(s[1..], c);
      var t := Split(s[1..], c);
      assert Join([[]] + t, [c]) == [] + [c] + Join(t, [c]);
    } else {
      JoinSplit(s[1..], c);
      var t := Split(s[1..], c);
      if |t| == 1 {
      } else {
        assert ([[s[0]] + t[0]] + t[1..])[1..] == t[1..];
        assert Join(t, [c]) == t[0] + [c] + Join(t[1..], [c]);
      }
    }
  }

  lemma {:induction false} JoinOne(parts: seq<string>, sep: string, x: string)
    ensures Join(parts + [x], sep) == if parts == [] then x else Join(parts, sep) + sep + x
  {
    if parts == [] {
      assert parts + [x] == [x];
    } else if |parts| == 1 {
      assert (parts + [x])[1..] == [x];
    } else {
      assert (parts + [x])[1..] == parts[1..] + [x];
      JoinOne(parts[1..], sep, x);
    }
  }

  /**
   * Python's `s.replace(pat, rep)`: every non-overlapping occurrence of `pat`,
   * found left to right, becomes `rep`.
   */
  function Replace(s: string, pat: string, rep: string): (r: string)
    requires pat != []
    decreases |s|
  {
    if |s| < |pat| then s
    else if s[..|pat|] == pat then rep + Replace(s[|pat|..], pat, rep)
    else [s[0]] + Replace(s[1..], pat, rep)
  }

  /** `pat` occurs in `s` starting at some index. */
  predicate OccursAt(s: string, pat: string, i: int) {
    0 <= i <= |s| - |pat| && s[i..i + |pat|] == pat
  }

  ghost predicate Occurs(s: string, pat: string) {
    exists i :: OccursAt(s, pat, i)
  }

  /** The first index at or after `i` at which `pat` occurs, as `str.find` gives it. */
  function FindFrom(s: string, pat: string, i: nat): (r: Option<nat>)
    requires i <= |s|
    ensures r.Some? ==> i <= r.value && OccursAt(s, pat, r.value)
    ensures r.Some? ==> forall k :: i <= k < r.value ==> !OccursAt(s, pat, k)
    ensures r.None? ==> forall k :: i <= k <= |s| ==> !OccursAt(s, pat, k)
    decreases |s| - i
  {
    if OccursAt(s, pat, i) then Some(i)
    else if i == |s| then None
    else FindFrom(s, pat, i + 1)
  }

  /** The search finds nothing when there is nothing to find. */
  lemma {:induction false} FindFromNone(s: string, pat: string, i: nat)
    requires i <= |s|
    requires forall k :: i <= k <= |s| ==> !OccursAt(s, pat, k)
    ensures FindFrom(s, pat, i) == None
    decreases |s| - i
  {
    if i < |s| {
      FindFromNone(s, pat, i + 1);
    }
  }

  /** The search stops at the first occurrence. */
  lemma {:induction false} FindFromFirst(s: string, pat: string, i: nat, j: nat)
    requires i <= j && OccursAt(s, pat, j)
    requires forall k :: i <= k < j ==> !OccursAt(s, pat, k)
    ensures FindFrom(s, pat, i) == Some(j)
    decreases j - i
  {
    if i < j {
      FindFromFirst(s, pat, i + 1, j);
    }
  }

  /** A text occurs where it was appended. */
  lemma OccursAtEnd(a: string, b: string)
    ensures OccursAt(a + b, b, |a|)
  {
    assert (a + b)[|a|..|a| + |b|] == b;
  }

  /** A text occurs where it was inserted. */
  lemma OccursBetween(a: string, b: string, c: string)
    ensures OccursAt(a + b + c, b, |a|)
  {
    assert (a + b + c)[|a|..|a| + |b|] == b;
  }

  /** Searching from the end of `pre` finds the first `pat` after a `body` that holds no first character of it. */
  lemma FindAfterBody(pre: string, body: string, pat: string, post: string)
    requires pat != [] && pat[0] !in body
    ensures FindFrom(pre + body + pat + post, pat, |pre|) == Some(|pre| + |body|)
  {
    var s := pre + body + pat + post;
    forall k | |pre| <= k < |pre| + |body|
      ensures s[k] != pat[0]
    {
      assert s[k] == body[k - |pre|] && body[k - |pre|] in body;
    }
    OccursBetween(pre + body, pat, post);
    FirstByLead(s, pat, |pre|, |pre| + |body|);
  }

  /** `FindAfterBody` when `pat` ends the text. */
  lemma FindBeforeEnd(pre: string, body: string, pat: string)
    requires pat != [] && pat[0] !in body
    ensures FindFrom(pre + body + pat, pat, |pre|) == Some(|pre| + |body|)
  {
    var s := pre + body + pat;
    forall k | |pre| <= k < |pre| + |body|
      ensures s[k] != pat[0]
    {
      assert s[k] == body[k - |pre|] && body[k - |pre|] in body;
    }
    OccursAtEnd(pre + body, pat);
    FirstByLead(s, pat, |pre|, |pre| + |body|);
  }

  /** Regrouping the last two parts of a concatenation. */
  lemma Regroup<T>(a: seq<T>, b: seq<T>, c: seq<T>)
    ensures a + b + c == a + (b + c)
  {
  }

  /** Regrouping a concatenation of four parts from the right. */
  lemma Regroup4<T>(a: seq<T>, b: seq<T>, c: seq<T>, d: seq<T>)
    ensures a + b + c + d == a + (b + (c + d))
  {
  }

  /** The search finds `pat` at `j` when no index before it, from `i` on, holds the first character of `pat`. */
  lemma FirstByLead(s: string, pat: string, i: nat, j: nat)
    requires pat != [] && i <= j && OccursAt(s, pat, j)
    requires forall k :: i <= k < j ==> s[k] != pat[0]
    ensures FindFrom(s, pat, i) == Some(j)
  {
    forall k | i <= k < j
      ensures !OccursAt(s, pat, k)
    {
      if k + |pat| <= |s| {
        assert s[k..k + |pat|][0] == s[k] != pat[0];
      }
    }
    FindFromFirst(s, pat, i, j);
  }

  /** Replacing one character by a text that does not hold it removes every occurrence of it. */
  lemma {:induction false} ReplaceRemoves(s: string, c: char, rep: string)
    requires c !in rep
    ensures c !in Replace(s, [c], rep)
    decreases |s|
  {
    if |s| >= 1 {
      ReplaceRemoves(s[1..], c, rep);
    }
  }

  /** Replacing never brings in a character that neither the text nor the replacement holds. */
  lemma {:induction false} ReplaceKeepsAbsent(s: string, pat: string, rep: string, c: char)
    requires pat != [] && c !in s && c !in rep
    ensures c !in Replace(s, pat, rep)
    decreases |s|
  {
    if |s| >= |pat| {
      if s[..|pat|] == pat {
        ReplaceKeepsAbsent(s[|pat|..], pat, rep, c);
      } else {
        ReplaceKeepsAbsent(s[1..], pat, rep, c);
      }
    }
  }

  /** A character that a text does not hold does not occur in it as a one-character pattern. */
  lemma NotInNotOccurs(s: string, c: char)
    requires c !in s
    ensures !Occurs(s, [c])
  {
    forall i | 0 <= i < |s|
      ensures !OccursAt(s, [c], i)
    {
      assert s[i..i + 1][0] == s[i];
    }
  }

  /** A pattern whose first character a text does not hold does not occur in it. */
  lemma NoLeadOccurs(s: string, pat: string)
    requires pat != [] && pat[0] !in s
    ensures !Occurs(s, pat)
  {
    forall i | 0 <= i <= |s| - |pat|
      ensures !OccursAt(s, pat, i)
    {
      assert s[i..i + |pat|][0] == s[i];
    }
  }

  /**
   * When `h` lacks the first character of `pat`, `pat` does not occur in `h`
   * followed by all but the last character of `pat`.
   */
  lemma NoLeadOccursBefore(h: string, pat: string)
    requires pat != [] && pat[0] !in h
    ensures !Occurs(h + pat[..|pat| - 1], pat)
  {
    var t := h + pat[..|pat| - 1];
    forall i | 0 <= i <= |t| - |pat|
      ensures !OccursAt(t, pat, i)
    {
      assert t[i] == h[i];
      assert t[i..i + |pat|][0] == t[i];
    }
  }

  /** Text that holds no occurrence of `pat` is left as it is. */
  lemma {:induction false} ReplaceAbsent(s: string, pat: string, rep: string)
    requires pat != [] && !Occurs(s, pat)
    ensures Replace(s, pat, rep) == s
  {
    if |s| >= |pat| {
      assert s[0..|pat|] == s[..|pat|];
      assert !OccursAt(s, pat, 0);
      assert !Occurs(s[1..], pat) by {
        forall i | OccursAt(s[1..], pat, i)
          ensures false
        {
          assert s[1..][i..i + |pat|] == s[i + 1..i + 1 + |pat|];
          assert OccursAt(s, pat, i + 1);
        }
      }
      ReplaceAbsent(s[1..], pat, rep);
    }
  }

  /**
   * Replacing inside `a + pat + b`, where `pat` occurs nowhere in `a + pat`
   * except at its end, rewrites exactly that occurrence and continues on `b`.
   */
  lemma {:induction false} ReplaceFirst(a: string, pat: string, rep: string, b: string)
    requires pat != [] && !Occurs(a + pat[..|pat| - 1], pat)
    ensures Replace(a + pat + b, pat, rep) == a + rep + Replace(b, pat, rep)
    decreases |a|
  {
    var s := a + pat + b;
    if a == [] {
      assert s[..|pat|] == pat && s[|pat|..] == b;
    } else {
      var t := a + pat[..|pat| - 1];
      NoOccurrenceHere(a, pat, b);
      assert s[1..] == a[1..] + pat + b;
      assert t[1..] == a[1..] + pat[..|pat| - 1];
      NotOccursTail(t, pat);
      ReplaceFirst(a[1..], pat, rep, b);
      var r := Replace(b, pat, rep);
      assert Replace(s, pat, rep) == [a[0]] + Replace(a[1..] + pat + b, pat, rep);
      ConsConcat(a, rep, r);
    }
  }

  /** Putting the first character back in front of `a[1..] + u + v`. */
  lemma ConsConcat(a: string, u: string, v: string)
    requires a != []
    ensures [a[0]] + (a[1..] + u + v) == a + u + v
  {
    assert a == [a[0]] + a[1..];
  }

  /** Where `pat` does not start at the front, `Replace` copies the first character. */
  lemma NoOccurrenceHere(a: string, pat: string, b: string)
    requires pat != [] && a != [] && !Occurs(a + pat[..|pat| - 1], pat)
    ensures |a + pat + b| >= |pat| && (a + pat + b)[..|pat|] != pat
  {
    var s := a + pat + b;
    var t := a + pat[..|pat| - 1];
    assert s[..|pat|] == t[0..|pat|];
    assert !OccursAt(t, pat, 0);
  }

  /** Without an occurrence in `t`, there is none in `t` without its first character. */
  lemma NotOccursTail(t: string, pat: string)
    requires t != [] && !Occurs(t, pat)
    ensures !Occurs(t[1..], pat)
  {
    forall i | OccursAt(t[1..], pat, i)
      ensures false
    {
      assert t[1..][i..i + |pat|] == t[i + 1..i + 1 + |pat|];
      assert OccursAt(t, pat, i + 1);
    }
  }

  function LowerChar(c: char): char {
    if 'A' <= c <= 'Z' then (c as int + 32) as char else c
  }

  /** `s.lower()`, on ASCII letters. */
  function Lower(s: string): (r: string)
    ensures |r| == |s| && forall i :: 0 <= i < |s| ==> r[i] == LowerChar(s[i])
  {
    if s == [] then [] else [LowerChar(s[0])] + Lower(s[1..])
  }

  /** Index of the last occurrence of `c` in `s`, or -1. */
  function LastIndexOf(s: string, c: char): (r: int)
    ensures -1 <= r < |s|
    ensures r >= 0 ==> s[r] == c
    ensures forall j :: r < j < |s| ==> s[j] != c
  {
    if s == [] then -1
    else if s[|s| - 1] == c then |s| - 1
    else LastIndexOf(s[..|s| - 1], c)
  }

  /** An occurrence with none after it is the last one. */
  lemma LastAt(s: string, c: char, i: nat)
    requires i < |s| && s[i] == c
    requires forall j :: i < j < |s| ==> s[j] != c
    ensures LastIndexOf(s, c) == i
  {
  }

  /** With no occurrence from `i` on, the last one is before `i`. */
  lemma LastBefore(s: string, c: char, i: nat)
    requires i < |s|
    requires forall j :: i <= j < |s| ==> s[j] != c
    ensures LastIndexOf(s, c) < i
  {
  }

  /** Index of the first occurrence of `c` in `s`, or `|s|`. */
  function IndexOf(s: string, c: char): (r: nat)
    ensures r <= |s| && c !in s[..r]
    ensures r < |s| ==> s[r] == c
  {
    if s == [] then 0
    else if s[0] == c then 0
    else
      var r := 1 + IndexOf(s[1..], c);
      assert s[..r] == [s[0]] + s[1..][..r - 1];
      r
  }

  /**
   * `os.path.splitext` on a POSIX path: the extension starts at the last dot of
   * the last path component, unless every character before that dot in the
   * component is itself a dot (so `.bashrc` has no extension).
   */
  function SplitExt(p: string): (r: (string, string))
    ensures r.0 + r.1 == p
    ensures r.1 == [] || (r.1[0] == '.' && '/' !in r.1 && '.' !in r.1[1..])
  {
    var sep := LastIndexOf(p, '/');
    var dot := LastIndexOf(p, '.');
    if dot > sep && exists k :: sep + 1 <= k < dot && p[k] != '.' then
      assert p[dot..][1..] == p[dot + 1..];
      (p[..dot], p[dot..])
    else (p, [])
  }

  /** A name without a dot has no extension. */
  lemma SplitExtNoDot(p: string)
    requires '.' !in p
    ensures SplitExt(p) == (p, [])
  {
    var dot := LastIndexOf(p, '.');
  }
}
