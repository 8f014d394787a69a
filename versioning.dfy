/**
 * `git2pep440` (`versioning.py`): every match of
 *
 *   v?([0-9]+)\.([0-9]+)(\.([0-9]+))?(\.((rc|dev)[0-9]+))?(-([0-9]+))?(-g([0-9a-fA-F]+))?
 *
 * in a `git describe` string is rewritten to `MAJOR.MINOR[.PATCH][.rcN|.devN][+DISTANCE.COMMIT]`.
 *
 * Once `MAJOR.MINOR` has matched, every later group is optional, so the
 * first successful attempt takes each optional group greedily in turn and
 * never backtracks into an earlier one; each `+` takes its whole run.
 */
module Versioning {
  import opened Wrappers
  import opened Text
  import opened Rewrite

  predicate IsHex(c: char) {
    IsDigit(c) || 'a' <= c <= 'f' || 'A' <= c <= 'F'
  }

  /** How many characters of the class a greedy `+` or `*` consumes from `i`. */
  function Run(t: string, i: nat, cls: char -> bool): (n: nat)
    requires i <= |t|
    ensures i + n <= |t|
    decreases |t| - i
  {
    if i < |t| && cls(t[i]) then 1 + Run(t, i + 1, cls) else 0
  }

  /** The run is greedy: every character it takes is in the class, and the one after it is not. */
  lemma {:induction false} RunGreedy(t: string, i: nat, cls: char -> bool)
    requires i <= |t|
    ensures forall k :: i <= k < i + Run(t, i, cls) ==> cls(t[k])
    ensures i + Run(t, i, cls) == |t| || !cls(t[i + Run(t, i, cls)])
    decreases |t| - i
  {
    if i < |t| && cls(t[i]) {
      RunGreedy(t, i + 1, cls);
    }
  }

  /** The capture groups that the replacement reads. */
  datatype Groups = Groups(major: string, minor: string, patch: Option<string>, rcdev: Option<string>,
                           distance: Option<string>, commit: Option<string>)

  /** An optional group `lead` then a non-empty run of `cls`, at `e`: the run and where the group ends. */
  function Part(t: string, e: nat, lead: string, cls: char -> bool): (r: Option<(string, nat)>)
    requires e <= |t|
    ensures r.Some? ==> e + |lead| < r.value.1 <= |t| && r.value.0 == t[e + |lead|..r.value.1]
  {
    if e + |lead| <= |t| && t[e..e + |lead|] == lead && Run(t, e + |lead|, cls) > 0 then
      Some((t[e + |lead|..e + |lead| + Run(t, e + |lead|, cls)], e + |lead| + Run(t, e + |lead|, cls)))
    else None
  }

  /** Where an optional group ends: after it when it matched, where it began otherwise. */
  function After(p: Option<(string, nat)>, e: nat): nat {
    if p.Some? then p.value.1 else e
  }

  function Captured(p: Option<(string, nat)>): Option<string> {
    if p.Some? then Some(p.value.0) else None
  }

  /** `(\.((rc|dev)[0-9]+))?` at `e`: the group is the tag and its number. */
  function RcDev(t: string, e: nat): (r: Option<(string, nat)>)
    requires e <= |t|
    ensures r.Some? ==> e < r.value.1 <= |t|
  {
    match Part(t, e, ".rc", IsDigit)
    case Some(p) => Some(("rc" + p.0, p.1))
    case None =>
      match Part(t, e, ".dev", IsDigit)
      case Some(p) => Some(("dev" + p.0, p.1))
      case None => None
  }

  /** What the optional groups after `MAJOR.MINOR` capture, and where the match ends. */
  datatype Tail = Tail(patch: Option<string>, rcdev: Option<string>, distance: Option<string>,
                       commit: Option<string>, end: nat)

  /** `v?([0-9]+)\.([0-9]+)` at the start of `t`: both numbers and where the minor one ends. */
  function Numbers(t: string): (r: Option<(string, string, nat)>)
    ensures r.Some? ==> 0 < r.value.2 <= |t|
  {
    var v := if t != [] && t[0] == 'v' then 1 else 0;
    var n1 := Run(t, v, IsDigit);
    if n1 == 0 || v + n1 == |t| || t[v + n1] != '.' then None
    else
      var n2 := Run(t, v + n1 + 1, IsDigit);
      if n2 == 0 then None
      else Some((t[v..v + n1], t[v + n1 + 1..v + n1 + 1 + n2], v + n1 + 1 + n2))
  }

  /** `(-g([0-9a-fA-F]+))?` at `e3`, the last group: the commit and where the match ends. */
  function CommitFrom(t: string, e3: nat): (r: Tail)
    requires e3 <= |t|
    ensures e3 <= r.end <= |t|
  {
    var commit := Part(t, e3, "-g", IsHex);
    Tail(None, None, None, Captured(commit), After(commit, e3))
  }

  /** `(-([0-9]+))?` at `e2`, then the commit group where it ends. */
  function DistanceFrom(t: string, e2: nat): (r: Tail)
    requires e2 <= |t|
    ensures e2 <= r.end <= |t|
  {
    var distance := Part(t, e2, "-", IsDigit);
    CommitFrom(t, After(distance, e2)).(distance := Captured(distance))
  }

  /** `(\.((rc|dev)[0-9]+))?` at `e1`, then the later groups. */
  function RcDevFrom(t: string, e1: nat): (r: Tail)
    requires e1 <= |t|
    ensures e1 <= r.end <= |t|
  {
    var rcdev := RcDev(t, e1);
    DistanceFrom(t, After(rcdev, e1)).(rcdev := Captured(rcdev))
  }

  /** The optional groups from `e0` on, each taken greedily where the one before it ended. */
  function OptionalTail(t: string, e0: nat): (r: Tail)
    requires e0 <= |t|
    ensures e0 <= r.end <= |t|
  {
    var patch := Part(t, e0, ".", IsDigit);
    RcDevFrom(t, After(patch, e0)).(patch := Captured(patch))
  }

  /** The match attempt at the start of `t`: its groups and its length. */
  function MatchAt(t: string): (r: Option<(Groups, nat)>)
    ensures r.Some? ==> 0 < r.value.1 <= |t|
  {
    match Numbers(t)
    case None => None
    case Some((major, minor, e0)) =>
      var tl := OptionalTail(t, e0);
      Some((Groups(major, minor, tl.patch, tl.rcdev, tl.distance, tl.commit), tl.end))
  }

  /** `_git2pep440`: the version string built from the groups. A distance without a commit prints `None`. */
  function Format(g: Groups): string {
    g.major + "." + g.minor
    + (if g.patch.Some? then "." + g.patch.value else "")
    + (if g.rcdev.Some? then "." + g.rcdev.value else "")
    + (if g.distance.Some? then "+" + g.distance.value + "." + (if g.commit.Some? then g.commit.value else "None") else "")
  }

  function VersionMatcher(t: string): (r: Option<(string, nat)>)
    ensures r.Some? ==> 0 < r.value.1 <= |t|
  {
    match MatchAt(t)
    case None => None
    case Some((g, n)) => Some((Format(g), n))
  }

  function Git2Pep440(gitVer: string): string {
    assert Advances(VersionMatcher);
    Sub(gitVer, VersionMatcher)
  }

  // ---------------------------------------------------------------------
  // What the rewrite guarantees
  // ---------------------------------------------------------------------

  predicate Digits(s: string) {
    s != [] && forall i :: 0 <= i < |s| ==> IsDigit(s[i])
  }

  predicate HexDigits(s: string) {
    s != [] && forall i :: 0 <= i < |s| ==> IsHex(s[i])
  }

  /** `rc` or `dev` followed by digits. */
  predicate RcDevTag(s: string) {
    (|s| > 2 && s[..2] == "rc" && Digits(s[2..])) || (|s| > 3 && s[..3] == "dev" && Digits(s[3..]))
  }

  /** Groups that `git describe` can print: runs of digits, a tag `rc` or `dev` with digits, a hex commit. */
  predicate WellFormed(g: Groups) {
    Digits(g.major) && Digits(g.minor) &&
    (g.patch.Some? ==> Digits(g.patch.value)) &&
    (g.rcdev.Some? ==> RcDevTag(g.rcdev.value)) &&
    (g.distance.Some? ==> Digits(g.distance.value)) &&
    (g.commit.Some? ==> HexDigits(g.commit.value))
  }

  /** An optional group's text `lead` + value when present, followed by the text after it. */
  function Opt(lead: string, p: Option<string>, rest: string): string {
    if p.Some? then lead + (p.value + rest) else rest
  }

  /** The text of the optional groups, from the commit back to the patch number. */
  function CommitText(g: Groups): string {
    Opt("-g", g.commit, [])
  }

  function DistanceText(g: Groups): string {
    Opt("-", g.distance, CommitText(g))
  }

  function RcDevText(g: Groups): string {
    Opt(".", g.rcdev, DistanceText(g))
  }

  function PatchText(g: Groups): string {
    Opt(".", g.patch, RcDevText(g))
  }

  /** The `git describe` text with these groups, with or without the leading `v`. */
  function Describe(g: Groups, v: bool): string {
    (if v then "v" else "") + (g.major + ("." + (g.minor + PatchText(g))))
  }

  /** Each optional group's text begins with `.` or `-`. */
  lemma TextStarts(g: Groups)
    ensures CommitText(g) == [] || CommitText(g)[0] == '-'
    ensures DistanceText(g) == [] || DistanceText(g)[0] == '-'
    ensures RcDevText(g) == [] || RcDevText(g)[0] == '.' || RcDevText(g)[0] == '-'
    ensures PatchText(g) == [] || PatchText(g)[0] == '.' || PatchText(g)[0] == '-'
  {
  }

  /** Reading a suffix that is known to be `a + b`. */
  lemma Split2(t: string, e: nat, a: string, b: string)
    requires e <= |t| && t[e..] == a + b
    ensures e + |a| <= |t| && t[e..e + |a|] == a && t[e + |a|..] == b
    ensures b != [] ==> t[e + |a|] == b[0]
  {
    assert t[e..e + |a|] == t[e..][..|a|];
    assert t[e + |a|..] == t[e..][|a|..];
  }

  /** A greedy run over text in the class, followed by a character outside it or the end, takes exactly that text. */
  lemma {:induction false} RunOver(t: string, i: nat, s: string, cls: char -> bool)
    requires i + |s| <= |t| && t[i..i + |s|] == s
    requires forall k :: 0 <= k < |s| ==> cls(s[k])
    requires i + |s| == |t| || !cls(t[i + |s|])
    ensures Run(t, i, cls) == |s|
    decreases |s|
  {
    if s != [] {
      assert t[i + 1..i + |s|] == s[1..];
      RunOver(t, i + 1, s[1..], cls);
    }
  }

  /** An optional group present in the text is captured whole, and the text after it follows. */
  lemma PartHit(t: string, e: nat, lead: string, s: string, rest: string, cls: char -> bool)
    requires e <= |t| && t[e..] == lead + (s + rest)
    requires s != [] && forall k :: 0 <= k < |s| ==> cls(s[k])
    requires rest == [] || !cls(rest[0])
    ensures Part(t, e, lead, cls) == Some((s, e + |lead| + |s|))
    ensures t[e + |lead| + |s|..] == rest
  {
    Split2(t, e, lead, s + rest);
    Split2(t, e + |lead|, s, rest);
    RunOver(t, e + |lead|, s, cls);
  }

  /** An optional group whose first character is not there does not match. */
  lemma PartMiss(t: string, e: nat, lead: string, cls: char -> bool)
    requires e <= |t| && lead != [] && (e == |t| || t[e] != lead[0])
    ensures Part(t, e, lead, cls).None?
  {
    if e + |lead| <= |t| {
      assert t[e..e + |lead|][0] == t[e];
    }
  }

  /** A group whose lead is not followed by a character of the class does not match. */
  lemma PartNoRun(t: string, e: nat, lead: string, cls: char -> bool)
    requires e + |lead| < |t| && !cls(t[e + |lead|])
    ensures Part(t, e, lead, cls).None?
  {
  }

  /**
   * A whole `git describe` string is one match whose groups are the ones it
   * was printed from, so `git2pep440` turns it into their version string.
   */
  lemma DescribeRoundTrip(g: Groups, v: bool)
    requires WellFormed(g)
    ensures MatchAt(Describe(g, v)) == Some((g, |Describe(g, v)|))
    ensures Git2Pep440(Describe(g, v)) == Format(g)
  {
    var t := Describe(g, v);
    DescribeMatch(g, v);
    assert VersionMatcher(t) == Some((Format(g), |t|));
    SubWhole(t, VersionMatcher, Format(g));
  }

  /** The match at the start of a `git describe` text takes all of it, with the groups it was printed from. */
  lemma DescribeMatch(g: Groups, v: bool)
    requires WellFormed(g)
    ensures MatchAt(Describe(g, v)) == Some((g, |Describe(g, v)|))
  {
    var t := Describe(g, v);
    var lv := if v then "v" else "";
    assert t[0..] == t;
    Split2(t, 0, lv, g.major + ("." + (g.minor + PatchText(g))));
    Split2(t, |lv|, g.major, "." + (g.minor + PatchText(g)));
    assert t[0] == (if v then 'v' else g.major[0]);
    MatchOf(t, |lv|, g);
  }

  /** The match over `[v]MAJOR.MINOR` and the optional groups' text. */
  lemma MatchOf(t: string, v: nat, g: Groups)
    requires WellFormed(g) && v <= 1 && v <= |t| && (t != [] && t[0] == 'v') == (v == 1)
    requires t[v..] == g.major + ("." + (g.minor + PatchText(g)))
    ensures MatchAt(t) == Some((g, |t|))
  {
    TextStarts(g);
    NumbersOf(t, v, g.major, g.minor, PatchText(g));
    MatchTail(t, g, v + |g.major| + 1 + |g.minor|);
  }

  /** The match over the two numbers, then the optional groups' text up to the end. */
  lemma MatchTail(t: string, g: Groups, e0: nat)
    requires WellFormed(g) && Numbers(t) == Some((g.major, g.minor, e0))
    requires e0 <= |t| && t[e0..] == PatchText(g)
    ensures MatchAt(t) == Some((g, |t|))
  {
    TailOf(t, e0, g);
    MatchFrom(t, g.major, g.minor, e0);
  }

  /** The match is the two numbers and the optional groups after them. */
  lemma MatchFrom(t: string, major: string, minor: string, e0: nat)
    requires Numbers(t) == Some((major, minor, e0))
    ensures e0 <= |t|
    ensures var tl := OptionalTail(t, e0);
      MatchAt(t) == Some((Groups(major, minor, tl.patch, tl.rcdev, tl.distance, tl.commit), tl.end))
  {
  }

  lemma NumbersOf(t: string, v: nat, major: string, minor: string, rest: string)
    requires v <= 1 && v <= |t| && (t != [] && t[0] == 'v') == (v == 1)
    requires Digits(major) && Digits(minor) && (rest == [] || rest[0] == '.' || rest[0] == '-')
    requires t[v..] == major + ("." + (minor + rest))
    ensures Numbers(t) == Some((major, minor, v + |major| + 1 + |minor|))
    ensures t[v + |major| + 1 + |minor|..] == rest
  {
    var n1 := |major|;
    MajorDot(t, v, major, minor + rest);
    RunPrefix(t, v + n1 + 1, minor, rest, IsDigit);
    NumbersAt(t, v, n1, |minor|);
  }

  /** The major number is the run up to the dot, and the text after the dot follows. */
  lemma MajorDot(t: string, v: nat, major: string, rest: string)
    requires v <= |t| && Digits(major) && t[v..] == major + ("." + rest)
    ensures Run(t, v, IsDigit) == |major| && t[v..v + |major|] == major
    ensures v + |major| < |t| && t[v + |major|] == '.' && t[v + |major| + 1..] == rest
  {
    RunPrefix(t, v, major, "." + rest, IsDigit);
    Split2(t, v + |major|, ".", rest);
  }

  /** `Numbers` read off the two runs and the dot between them. */
  lemma NumbersAt(t: string, v: nat, n1: nat, n2: nat)
    requires v <= 1 && v <= |t| && (t != [] && t[0] == 'v') == (v == 1)
    requires 0 < n1 && v + n1 < |t| && Run(t, v, IsDigit) == n1 && t[v + n1] == '.'
    requires 0 < n2 && Run(t, v + n1 + 1, IsDigit) == n2
    ensures Numbers(t) == Some((t[v..v + n1], t[v + n1 + 1..v + n1 + 1 + n2], v + n1 + 1 + n2))
  {
  }

  /** A run followed by a character outside the class or the end is consumed exactly. */
  lemma RunPrefix(t: string, e: nat, s: string, rest: string, cls: char -> bool)
    requires e <= |t| && t[e..] == s + rest
    requires forall k :: 0 <= k < |s| ==> cls(s[k])
    requires rest == [] || !cls(rest[0])
    ensures Run(t, e, cls) == |s| && t[e..e + |s|] == s && t[e + |s|..] == rest
  {
    Split2(t, e, s, rest);
    RunOver(t, e, s, cls);
  }

  /** The optional groups after `MAJOR.MINOR` are recovered one by one, and the match ends with the text. */
  lemma TailOf(t: string, e0: nat, g: Groups)
    requires e0 <= |t| && WellFormed(g) && t[e0..] == PatchText(g)
    ensures OptionalTail(t, e0) == Tail(g.patch, g.rcdev, g.distance, g.commit, |t|)
  {
    if g.patch.Some? {
      PatchHit(t, e0, g);
    } else {
      NoPatch(t, e0, g);
      RcDevGroup(t, e0, g);
      assert OptionalTail(t, e0) == RcDevFrom(t, e0).(patch := None);
    }
  }

  /** A present patch number is captured, and the later groups are read after it. */
  lemma PatchHit(t: string, e0: nat, g: Groups)
    requires e0 <= |t| && WellFormed(g) && g.patch.Some? && t[e0..] == "." + (g.patch.value + RcDevText(g))
    ensures OptionalTail(t, e0) == Tail(g.patch, g.rcdev, g.distance, g.commit, |t|)
  {
    var e1 := e0 + 1 + |g.patch.value|;
    TextStarts(g);
    PartHit(t, e0, ".", g.patch.value, RcDevText(g), IsDigit);
    assert Part(t, e0, ".", IsDigit) == Some((g.patch.value, e1));
    RcDevGroup(t, e1, g);
    assert OptionalTail(t, e0) == RcDevFrom(t, e1).(patch := g.patch);
  }

  /** Where the text goes on with a tag group, a distance or nothing, the patch group is absent. */
  lemma NoPatch(t: string, e0: nat, g: Groups)
    requires e0 <= |t| && WellFormed(g) && t[e0..] == RcDevText(g)
    ensures Part(t, e0, ".", IsDigit) == None
  {
    TextStarts(g);
    if g.rcdev.Some? {
      Split2(t, e0, ".", g.rcdev.value + DistanceText(g));
      assert t[e0 + 1] == g.rcdev.value[0];
      PartNoRun(t, e0, ".", IsDigit);
    } else {
      if e0 < |t| {
        assert t[e0] == t[e0..][0];
      }
      PartMiss(t, e0, ".", IsDigit);
    }
  }

  lemma RcDevGroup(t: string, e1: nat, g: Groups)
    requires e1 <= |t| && WellFormed(g) && t[e1..] == RcDevText(g)
    ensures RcDevFrom(t, e1) == Tail(None, g.rcdev, g.distance, g.commit, |t|)
  {
    TextStarts(g);
    if g.rcdev.Some? {
      var e2 := e1 + 1 + |g.rcdev.value|;
      RcDevHit(t, e1, g.rcdev.value, DistanceText(g));
      assert After(RcDev(t, e1), e1) == e2 && Captured(RcDev(t, e1)) == g.rcdev;
      DistanceGroup(t, e2, g);
      assert RcDevFrom(t, e1) == DistanceFrom(t, e2).(rcdev := g.rcdev);
    } else {
      RcDevMiss(t, e1);
      DistanceGroup(t, e1, g);
      assert RcDevFrom(t, e1) == DistanceFrom(t, e1).(rcdev := None);
    }
  }

  /** A present tag group is captured whole, tag and number. */
  lemma RcDevHit(t: string, e1: nat, tag: string, rest: string)
    requires e1 <= |t| && t[e1..] == "." + (tag + rest) && RcDevTag(tag)
    requires rest == [] || rest[0] == '-'
    ensures RcDev(t, e1) == Some((tag, e1 + 1 + |tag|))
    ensures t[e1 + 1 + |tag|..] == rest
  {
    Split2(t, e1, ".", tag + rest);
    Split2(t, e1 + 1, tag, rest);
    if |tag| > 2 && tag[..2] == "rc" && Digits(tag[2..]) {
      TagPart(t, e1, "rc", tag, rest);
    } else {
      assert t[e1 + 1] == tag[..3][0];
      RcMiss(t, e1);
      TagPart(t, e1, "dev", tag, rest);
    }
  }

  /** The lead `.rc` or `.dev` and the tag's number, captured as a group ending where the tag does. */
  lemma TagPart(t: string, e1: nat, name: string, tag: string, rest: string)
    requires e1 <= |t| && t[e1..] == "." + (tag + rest)
    requires |tag| > |name| && tag[..|name|] == name && Digits(tag[|name|..])
    requires rest == [] || rest[0] == '-'
    ensures Part(t, e1, "." + name, IsDigit) == Some((tag[|name|..], e1 + 1 + |tag|))
    ensures name + tag[|name|..] == tag
  {
    assert tag == name + tag[|name|..];
    assert t[e1..] == ("." + name) + (tag[|name|..] + rest);
    PartHit(t, e1, "." + name, tag[|name|..], rest, IsDigit);
  }

  /** Where the text does not go on with `.`, the tag group is absent. */
  lemma RcDevMiss(t: string, e1: nat)
    requires e1 <= |t| && (e1 == |t| || t[e1] != '.')
    ensures RcDev(t, e1) == None
  {
    PartMiss(t, e1, ".rc", IsDigit);
    PartMiss(t, e1, ".dev", IsDigit);
  }

  /** `.rc` does not match where `.d` stands. */
  lemma RcMiss(t: string, e: nat)
    requires e + 1 < |t| && t[e + 1] == 'd'
    ensures Part(t, e, ".rc", IsDigit).None?
  {
    if e + 3 <= |t| {
      assert t[e..e + 3][1] == 'd';
    }
  }

  lemma DistanceGroup(t: string, e2: nat, g: Groups)
    requires e2 <= |t| && WellFormed(g) && t[e2..] == DistanceText(g)
    ensures DistanceFrom(t, e2) == Tail(None, None, g.distance, g.commit, |t|)
  {
    if g.distance.Some? {
      var e3 := e2 + 1 + |g.distance.value|;
      PartHit(t, e2, "-", g.distance.value, CommitText(g), IsDigit);
      assert Part(t, e2, "-", IsDigit) == Some((g.distance.value, e3));
      CommitGroup(t, e3, g);
      assert DistanceFrom(t, e2) == CommitFrom(t, e3).(distance := g.distance);
    } else {
      NoDistance(t, e2, g);
      CommitGroup(t, e2, g);
      assert DistanceFrom(t, e2) == CommitFrom(t, e2).(distance := None);
    }
  }

  /** Where the text goes on with the commit group or nothing, the distance group is absent. */
  lemma NoDistance(t: string, e2: nat, g: Groups)
    requires e2 <= |t| && WellFormed(g) && t[e2..] == CommitText(g)
    ensures Part(t, e2, "-", IsDigit) == None
  {
    if g.commit.Some? {
      Split2(t, e2, "-g", g.commit.value + []);
      assert t[e2 + 1] == "-g"[1];
      PartNoRun(t, e2, "-", IsDigit);
    } else {
      PartMiss(t, e2, "-", IsDigit);
    }
  }

  lemma CommitGroup(t: string, e3: nat, g: Groups)
    requires e3 <= |t| && WellFormed(g) && t[e3..] == CommitText(g)
    ensures CommitFrom(t, e3) == Tail(None, None, None, g.commit, |t|)
  {
    if g.commit.Some? {
      PartHit(t, e3, "-g", g.commit.value, [], IsHex);
    } else {
      PartMiss(t, e3, "-g", IsHex);
    }
  }

  /** Text without a digit holds no version: `git2pep440` returns it unchanged. */
  lemma NoDigitsUnchanged(s: string)
    requires forall i :: 0 <= i < |s| ==> !IsDigit(s[i])
    ensures Git2Pep440(s) == s
  {
    forall k | 0 <= k < |s|
      ensures VersionMatcher(s[k..]).None?
    {
      var t := s[k..];
      var v := if t != [] && t[0] == 'v' then 1 else 0;
      assert v < |t| ==> t[v] == s[k + v];
    }
    SubNoMatch(s, VersionMatcher);
  }

  /** `-N` without `-gHEX` gives `+N.None`. */
  lemma DistanceWithoutCommit(major: string, minor: string, n: string)
    requires Digits(major) && Digits(minor) && Digits(n)
    ensures Git2Pep440(major + ("." + (minor + ("-" + n)))) == major + "." + minor + ("+" + n + ".None")
  {
    var g := Groups(major, minor, None, None, Some(n), None);
    var t := major + ("." + (minor + ("-" + n)));
    assert Describe(g, false) == t by {
      assert PatchText(g) == "-" + (n + []);
      assert n + [] == n;
    }
    assert Format(g) == major + "." + minor + ("+" + n + ".None") by {
      assert "+" + n + "." + "None" == "+" + n + ".None";
    }
    DescribeRoundTrip(g, false);
  }

  /** `-gHEX` without `-N` is dropped. */
  lemma CommitWithoutDistance(major: string, minor: string, h: string)
    requires Digits(major) && Digits(minor) && HexDigits(h)
    ensures Git2Pep440(major + ("." + (minor + ("-g" + h)))) == major + "." + minor
  {
    var g := Groups(major, minor, None, None, None, Some(h));
    var t := major + ("." + (minor + ("-g" + h)));
    assert Describe(g, false) == t by {
      assert PatchText(g) == "-g" + (h + []);
      assert h + [] == h;
    }
    assert Format(g) == major + "." + minor + "" + "" + "";
    DescribeRoundTrip(g, false);
  }
}
