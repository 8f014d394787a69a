/**
 * The Gemtext converter (`GemParser.convert_markup`). Outside a pre block
 * each line goes through a fixed sequence of anchored patterns (paragraph,
 * heading, blockquote, list item, link line, inline link, fence); the list
 * flag and the pre-block state are threaded from line to line. Every pre
 * block is opened with a placeholder key, and at the end each closed block's
 * key is replaced by the text after its closing fence.
 *
 * The lines come from `split('\n')`, so none holds a newline, and the regex
 * `.` is modelled as matching every character.
 */
module Gem {
  import opened Wrappers
  import opened Text
  import opened Rewrite
  import opened Html
  import opened Dicts

  // ---------------------------------------------------------------------
  // Runs of characters, as greedy quantifiers consume them
  // ---------------------------------------------------------------------

  /** The length of the run of `\s` characters starting at `i`. */
  function SpaceRun(s: string, i: nat): (n: nat)
    requires i <= |s|
    ensures i + n <= |s|
    ensures forall k :: i <= k < i + n ==> IsSpace(s[k])
    ensures i + n < |s| ==> !IsSpace(s[i + n])
    decreases |s| - i
  {
    if i < |s| && IsSpace(s[i]) then 1 + SpaceRun(s, i + 1) else 0
  }

  /** The length of the run of `[^\s]` characters starting at `i`. */
  function NonSpaceRun(s: string, i: nat): (n: nat)
    requires i <= |s|
    ensures i + n <= |s|
    ensures forall k :: i <= k < i + n ==> !IsSpace(s[k])
    ensures i + n < |s| ==> IsSpace(s[i + n])
    decreases |s| - i
  {
    if i < |s| && !IsSpace(s[i]) then 1 + NonSpaceRun(s, i + 1) else 0
  }

  /** The length of the run of `#` starting at `i`. */
  function HashRun(s: string, i: nat): (n: nat)
    requires i <= |s|
    ensures i + n <= |s|
    ensures forall k :: i <= k < i + n ==> s[k] == '#'
    ensures i + n < |s| ==> s[i + n] != '#'
    decreases |s| - i
  {
    if i < |s| && s[i] == '#' then 1 + HashRun(s, i + 1) else 0
  }

  /**
   * `\s+(.+)$` tried at index `i`: where the group `(.+)` starts. It matches
   * exactly when a space is followed by at least one more character; the
   * greedy `\s+` takes the whole run of spaces unless that would leave the
   * group empty, in which case it gives back the last one.
   */
  function SpaceTail(s: string, i: nat): (r: Option<nat>)
    requires i <= |s|
    ensures r.Some? <==> i + 2 <= |s| && IsSpace(s[i])
    ensures r.Some? ==> i < r.value < |s| && forall k :: i <= k < r.value ==> IsSpace(s[k])
    ensures r.Some? && r.value < |s| - 1 ==> !IsSpace(s[r.value])
  {
    var n := SpaceRun(s, i);
    if n == 0 then None
    else if i + n < |s| then Some(i + n)
    else if n >= 2 then Some(|s| - 1)
    else None
  }

  // ---------------------------------------------------------------------
  // The per-line patterns
  // ---------------------------------------------------------------------

  /** `^(?!#|\*|>|```|=>)(.+)$`: a non-empty line that starts none of the other constructs. */
  predicate AddsParagraph(line: string) {
    line != [] && !StartsWith(line, "#") && !StartsWith(line, "*") && !StartsWith(line, ">") &&
    !StartsWith(line, "```") && !StartsWith(line, "=>")
  }

  function Paragraph(line: string): string {
    if AddsParagraph(line) then "<p>" + line + "</p>" else line
  }

  /** The decimal numeral of a heading level. */
  function Digit(n: nat): string
    requires 1 <= n <= 6
  {
    [(('0' as int) + n) as char]
  }

  /**
   * `^(#{1,6})\s+(.+)$`: the level and the start of the heading text. More
   * than six leading `#` never match, because the character after the sixth
   * is a `#` and not a space.
   */
  function HeadingMatch(line: string): (r: Option<(nat, nat)>)
    ensures r.Some? ==> 1 <= r.value.0 <= 6 && r.value.0 < r.value.1 < |line|
    ensures r.Some? ==> forall k :: 0 <= k < r.value.0 ==> line[k] == '#'
  {
    var n := HashRun(line, 0);
    if 1 <= n <= 6 then
      match SpaceTail(line, n)
      case Some(j) => Some((n, j))
      case None => None
    else None
  }

  /** `re.sub(HEADINGS_RE, …)`: the whole line becomes `<hN>text</hN>`. */
  function Headings(line: string): string {
    match HeadingMatch(line)
    case Some(m) => Element("h" + Digit(m.0), line[m.1..])
    case None => line
  }

  /** `re.sub(BLOCKQUOTE_RE, …)` with `^>\s+(.+)$`. */
  function Blockquote(line: string): string {
    if StartsWith(line, ">") then
      match SpaceTail(line, 1)
      case Some(j) => Element("blockquote", line[j..])
      case None => line
    else line
  }

  /** `^\*\s+(.+)$`: the item text of a list line. */
  function ListItem(line: string): Option<string> {
    if StartsWith(line, "*") then
      match SpaceTail(line, 1)
      case Some(j) => Some(line[j..])
      case None => None
    else None
  }

  /** The groups of a link match: group 1, group 3 when group 2 matched, and where the match ends. */
  datatype LinkHit = LinkHit(url: string, text: Option<string>, end: nat)

  /**
   * `^=>\s*(\w+:?/?/?[^\s]+)(\s+(.+$))?`. Group 1 is the whole run of
   * non-space characters after the spaces; it must start with a word
   * character and have at least two characters. The optional part then takes
   * the rest of the line when it can.
   */
  function LinkMatch(line: string): (r: Option<LinkHit>)
    ensures r.Some? ==> StartsWith(line, "=>") && r.value.end <= |line|
    ensures r.Some? ==> |r.value.url| >= 2 && IsWordChar(r.value.url[0])
  {
    if !StartsWith(line, "=>") then None
    else
      var q := 2 + SpaceRun(line, 2);
      var n := NonSpaceRun(line, q);
      if n >= 2 && IsWordChar(line[q]) then
        var e := q + n;
        match SpaceTail(line, e)
        case Some(j) => Some(LinkHit(line[q..e], Some(line[j..]), |line|))
        case None => Some(LinkHit(line[q..e], None, e))
      else None
  }

  /** `gen_link`: group 3 labels the anchor when it is non-empty, else group 1 does. */
  function GenLink(hit: LinkHit): string {
    Anchor(hit.url, if hit.text.Some? && hit.text.value != [] then hit.text.value else hit.url)
  }

  /**
   * `\s+(.+?)\)` tried at index `x`: the lazy caption and the end of the
   * match. The caption runs to the first `)` after the spaces and at least one
   * more character; failing that, `\s+` gives back one space so that a `)`
   * straight after the spaces can close a one-space caption.
   */
  function CaptionTail(t: string, x: nat): (r: Option<(string, nat)>)
    requires x <= |t|
    ensures r.Some? ==> x < r.value.1 <= |t| && t[r.value.1 - 1] == ')'
  {
    var m := SpaceRun(t, x);
    if m == 0 || x + m == |t| then None
    else match FindFrom(t, ")", x + m + 1)
      case Some(y) =>
        assert t[y..y + 1][0] == t[y];
        Some((t[x + m..y], y + 1))
      case None => if m >= 2 && t[x + m] == ')' then Some((t[x + m - 1..x + m], x + m + 1)) else None
  }

  /** The last index in `[lo, hi)` that holds `)`. */
  function LastParen(t: string, lo: nat, hi: nat): (r: Option<nat>)
    requires hi <= |t|
    ensures r.Some? ==> lo <= r.value < hi && t[r.value] == ')'
    ensures r.Some? ==> forall k :: r.value < k < hi ==> t[k] != ')'
    ensures r.None? ==> forall k :: lo <= k < hi ==> t[k] != ')'
    decreases hi
  {
    if hi <= lo then None
    else if t[hi - 1] == ')' then Some(hi - 1)
    else LastParen(t, lo, hi - 1)
  }

  /**
   * `\(=>\s*(\w+:?/?/?[^\s]+)(\s+(.+?))?\)` at the start of `t`, rewritten by
   * `gen_link`. Group 1 is first tried as the whole run of non-space
   * characters, followed by a caption; when that fails, the regex engine
   * backs group 1 up to the last `)` inside the run, leaving it uncaptioned.
   */
  function InsideAt(t: string): (r: Option<(string, nat)>)
    ensures r.Some? ==> 0 < r.value.1 <= |t| && StartsWith(t, "(=>")
  {
    if !StartsWith(t, "(=>") then None
    else
      var q := 3 + SpaceRun(t, 3);
      var n := NonSpaceRun(t, q);
      if n >= 2 && IsWordChar(t[q]) then
        match CaptionTail(t, q + n)
        case Some(c) => Some((GenLink(LinkHit(t[q..q + n], Some(c.0), c.1)), c.1))
        case None =>
          match LastParen(t, q + 2, q + n)
          case Some(x) => Some((GenLink(LinkHit(t[q..x], None, x + 1)), x + 1))
          case None => None
      else None
  }

  /** `re.sub(LINKS_INSIDE, gen_link, line)`. */
  function InlineLinks(line: string): string {
    Sub(line, InsideAt)
  }

  /** `^```(.+)$`: three backticks and at least one more character. */
  predicate IsFence(line: string) {
    StartsWith(line, "```") && |line| >= 4
  }

  /** The placeholder key of a pre block, `__code__` followed by the random part. */
  function CodeKey(random: string): (k: string)
    ensures |k| > 0 && k[0] == '_'
  {
    "__code__" + random
  }

  function PreOpen(key: string): string {
    "<pre alt=\"" + key + "\"><code>"
  }

  // ---------------------------------------------------------------------
  // One line outside a pre block
  // ---------------------------------------------------------------------

  /** What a normal-mode line does: the new list flag, the lines it appends, and whether it opens a pre block. */
  datatype Emit = Emit(ul: bool, lines: seq<string>, opens: bool)

  const ListOpen := "<ul>"
  const ListClose := "</ul>"
  const LinksOpen := "<ul class=\"gemtext-links\">"

  /** The lines of a normal-mode pass so far: the list flag, the lines inserted before it, and the line itself. */
  datatype Pass = Pass(ul: bool, inserted: seq<string>, line: string)

  /** Paragraph, heading and blockquote, in that order. */
  function Prepared(line: string): string {
    Blockquote(Headings(Paragraph(line)))
  }

  /**
   * The list step. Whether the line is a list item or a link line is decided
   * before the item is rewritten; a line that is neither closes an open list.
   */
  function ListStep(ul: bool, l: string): Pass {
    var item := ListItem(l);
    var listed := item.Some? || LinkMatch(l).Some?;
    var ul1 := ul || item.Some?;
    Pass(ul1 && listed,
         (if item.Some? && !ul then [ListOpen] else []) + (if !listed && ul1 then [ListClose] else []),
         if item.Some? then "<li>" + item.value + "</li>" else l)
  }

  /** The link-line step: a link line opens a link list when no list is open and becomes an item. */
  function LinkStep(p: Pass): Pass {
    match LinkMatch(p.line)
    case Some(hit) =>
      Pass(true, p.inserted + (if p.ul then [] else [LinksOpen]),
           "<li>" + GenLink(hit) + p.line[hit.end..] + "</li>")
    case None => p
  }

  /**
   * The normal-mode branch of the line loop: the steps above, the inline
   * links, and the fence test on what is left.
   */
  function Normal(ul: bool, line: string, key: string): Emit {
    var p := LinkStep(ListStep(ul, Prepared(line)));
    var l := InlineLinks(p.line);
    Emit(p.ul, p.inserted + [if IsFence(l) then PreOpen(key) else l], IsFence(l))
  }

  // ---------------------------------------------------------------------
  // The pre-block key table
  // ---------------------------------------------------------------------

  /** Every stored key is non-empty, as `str.replace` needs. */
  predicate KeysNamed(alts: seq<(string, string)>) {
    forall i :: 0 <= i < |alts| ==> alts[i].0 != []
  }

  /** `output_str.replace(key, value)` for every entry, in insertion order. */
  function Resolve(s: string, alts: seq<(string, string)>): string
    requires KeysNamed(alts)
    decreases alts
  {
    if alts == [] then s
    else Resolve(Replace(s, alts[0].0, alts[0].1), alts[1..])
  }

  // ---------------------------------------------------------------------
  // The line loop
  // ---------------------------------------------------------------------

  /**
   * The loop state: `lists_mode['ul']`, `pre_mode`, `cur_code_hash`,
   * `code_alts`, and how many pre blocks have been opened (which picks the
   * next random key).
   */
  datatype State = State(ul: bool, pre: bool, key: string, alts: seq<(string, string)>, blocks: nat)

  const Start := State(false, false, "", [], 0)

  /** The key of an open block is a real key, and so is every stored one. */
  predicate Keyed(s: State) {
    (s.pre ==> s.key != []) && KeysNamed(s.alts)
  }

  /**
   * One pass of the line loop. `random(n)` stands for the random part of the
   * key drawn when the n-th pre block (from 0) opens.
   */
  function Step(s: State, line: string, random: nat -> string): (r: (State, seq<string>))
    requires Keyed(s)
    ensures Keyed(r.0)
  {
    if !s.pre then
      var key := CodeKey(random(s.blocks));
      var e := Normal(s.ul, line, key);
      if e.opens then (s.(ul := e.ul, pre := true, key := key, blocks := s.blocks + 1), e.lines)
      else (s.(ul := e.ul), e.lines)
    else if IsFence(line) then
      (s.(pre := false, alts := Put(s.alts, s.key, line[3..])), ["</code></pre>"])
    else (s, [line])
  }

  /** The state and the output lines after the given lines. */
  function Run(lines: seq<string>, random: nat -> string): (r: (State, seq<string>))
    ensures Keyed(r.0)
  {
    if lines == [] then (Start, [])
    else
      var prev := Run(lines[..|lines| - 1], random);
      var next := Step(prev.0, lines[|lines| - 1], random);
      (next.0, prev.1 + next.1)
  }

  /** The result of `convert_markup`. */
  function Converted(markup: string, random: nat -> string): string {
    var r := Run(Split(markup, '\n'), random);
    Resolve(Join(r.1, "\n"), r.0.alts)
  }

  // ---------------------------------------------------------------------
  // The converter as the source runs it
  // ---------------------------------------------------------------------

  /** The normal-mode branch, rewriting `line` statement by statement. */
  method NormalMode(ul0: bool, line0: string, key: string) returns (ul: bool, emitted: seq<string>, opens: bool)
    ensures Emit(ul, emitted, opens) == Normal(ul0, line0, key)
  {
    ul := ul0;
    emitted := [];
    opens := false;
    var line := line0;
    if AddsParagraph(line) {
      line := "<p>" + line + "</p>";
    }
    line := Headings(line);
    line := Blockquote(line);
    ghost var prepared := line;
    var item := ListItem(line);
    var listed := item.Some? || LinkMatch(line).Some?;
    if item.Some? {
      if !ul {
        ul := true;
        emitted := emitted + [ListOpen];
      }
      line := "<li>" + item.value + "</li>";
    }
    if !listed {
      if ul {
        ul := false;
        emitted := emitted + [ListClose];
      }
    }
    assert Pass(ul, emitted, line) == ListStep(ul0, prepared);
    ghost var listStep := Pass(ul, emitted, line);
    var hit := LinkMatch(line);
    if hit.Some? {
      if !ul {
        ul := true;
        emitted := emitted + [LinksOpen];
      }
      line := "<li>" + GenLink(hit.value) + line[hit.value.end..] + "</li>";
    }
    assert Pass(ul, emitted, line) == LinkStep(listStep);
    line := InlineLinks(line);
    if IsFence(line) {
      line := PreOpen(key);
      opens := true;
    }
    emitted := emitted + [line];
  }

  /** One pass of the line loop, on the variables the loop threads. */
  method LineStep(ul0: bool, pre0: bool, cur0: string, alts0: seq<(string, string)>, blocks0: nat,
                  line0: string, random: nat -> string)
    returns (ul: bool, pre: bool, cur: string, alts: seq<(string, string)>, blocks: nat, more: seq<string>)
    requires Keyed(State(ul0, pre0, cur0, alts0, blocks0))
    ensures (State(ul, pre, cur, alts, blocks), more) == Step(State(ul0, pre0, cur0, alts0, blocks0), line0, random)
  {
    ul, pre, cur, alts, blocks := ul0, pre0, cur0, alts0, blocks0;
    ghost var s := State(ul0, pre0, cur0, alts0, blocks0);
    var line := line0;
    if !pre {
      var key := CodeKey(random(blocks));
      var opens;
      ul, more, opens := NormalMode(ul, line, key);
      ghost var step := Step(s, line0, random);
      assert step.1 == more;
      assert step.0.ul == ul;
      assert step.0.pre == opens;
      if opens {
        cur := key;
        pre := true;
        blocks := blocks + 1;
      }
      assert step.0.key == cur;
      assert step.0.blocks == blocks;
      assert step.0.alts == alts;
    } else {
      if IsFence(line) {
        line := "</code></pre>";
        pre := false;
        alts := Put(alts, cur, line0[3..]);
      }
      more := [line];
    }
  }

  /** The line loop of `convert_markup`. */
  method LineLoop(lines: seq<string>, random: nat -> string) returns (final: State, output: seq<string>)
    ensures (final, output) == Run(lines, random)
  {
    output := [];
    var ul := false;
    var pre := false;
    var cur: string := "";
    var alts: seq<(string, string)> := [];
    var blocks := 0;
    for i := 0 to |lines|
      invariant (State(ul, pre, cur, alts, blocks), output) == Run(lines[..i], random)
    {
      assert lines[..i + 1][..i] == lines[..i];
      var more;
      ul, pre, cur, alts, blocks, more := LineStep(ul, pre, cur, alts, blocks, lines[i], random);
      output := output + more;
    }
    assert lines[..|lines|] == lines;
    final := State(ul, pre, cur, alts, blocks);
  }

  /** The final loop: each stored key, in insertion order, replaced throughout the output. */
  method ResolveKeys(joined: string, alts: seq<(string, string)>) returns (html: string)
    requires KeysNamed(alts)
    ensures html == Resolve(joined, alts)
  {
    html := joined;
    for k := 0 to |alts|
      invariant Resolve(html, alts[k..]) == Resolve(joined, alts)
    {
      assert alts[k..][1..] == alts[k + 1..];
      html := Replace(html, alts[k].0, alts[k].1);
    }
  }

  /** `convert_markup`: the line loop, the join, and the replacement of closed blocks' keys. */
  method ConvertMarkup(markup: string, random: nat -> string) returns (html: string)
    ensures html == Converted(markup, random)
  {
    var lines := Split(markup, '\n');
    var final, output := LineLoop(lines, random);
    html := ResolveKeys(Join(output, "\n"), final.alts);
  }
}
