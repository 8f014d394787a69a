/**
 * The Zim wiki markup converter: `ZimParser.convert_markup` reads the text
 * line by line, keeping three flags (inside a `'''` pre block, inside a
 * `!!!` raw-HTML block, inside a bullet list), rewrites each line through a
 * fixed series of regular-expression passes, and finally drops blank lines
 * outside pre blocks.
 */
module Zim {
  import opened Wrappers
  import opened Text
  import opened Rewrite
  import opened Html

  // ---------------------------------------------------------------------
  // Whole-line tests
  // ---------------------------------------------------------------------

  /** `^(Content-Type|Wiki-Format|Creation-Date)`: the page header Zim writes. */
  predicate IsMetaLine(line: string) {
    StartsWith(line, "Content-Type") || StartsWith(line, "Wiki-Format") || StartsWith(line, "Creation-Date")
  }

  /** `^'''\s*$` (for `fence == "'''"`) and `^!!!\s*$` (for `fence == "!!!"`). */
  predicate IsFence(line: string, fence: string) {
    StartsWith(line, fence) && IsBlank(line[|fence|..])
  }

  /** `^[^=\*\s]`: the lines that become paragraphs. */
  predicate StartsParagraph(line: string) {
    line != [] && line[0] != '=' && line[0] != '*' && !IsSpace(line[0])
  }

  /** `^\* `: a bullet-list item. */
  predicate IsListLine(line: string) {
    StartsWith(line, "* ")
  }

  // ---------------------------------------------------------------------
  // Character rewriting
  // ---------------------------------------------------------------------

  /** `line.replace('<', '&lt;').replace('>', '&gt;')`. */
  function EscapeAngles(line: string): string {
    Replace(Replace(line, "<", "&lt;"), ">", "&gt;")
  }

  /** The copyright, registered and trade-mark signs become HTML entities. */
  function Entities(line: string): string {
    Replace(Replace(Replace(line, "©", "&copy;"), "®", "&reg;"), "™", "&trade;")
  }

  /** After escaping, a line holds no angle bracket at all. */
  lemma EscapeRemovesAngles(line: string)
    ensures '<' !in EscapeAngles(line) && '>' !in EscapeAngles(line)
  {
    ReplaceRemoves(line, '<', "&lt;");
    ReplaceKeepsAbsent(Replace(line, "<", "&lt;"), ">", "&gt;", '<');
    ReplaceRemoves(Replace(line, "<", "&lt;"), '>', "&gt;");
  }

  /** A line without angle brackets is not changed by escaping. */
  lemma EscapeNoop(line: string)
    requires '<' !in line && '>' !in line
    ensures EscapeAngles(line) == line
  {
    NotInNotOccurs(line, '<');
    ReplaceAbsent(line, "<", "&lt;");
    NotInNotOccurs(line, '>');
    ReplaceAbsent(line, ">", "&gt;");
  }

  /** The entity pass brings no angle bracket back, so normal text stays escaped. */
  lemma EntitiesKeepEscaped(line: string)
    requires '<' !in line && '>' !in line
    ensures '<' !in Entities(line) && '>' !in Entities(line)
  {
    var a := Replace(line, "©", "&copy;");
    var b := Replace(a, "®", "&reg;");
    ReplaceKeepsAbsent(line, "©", "&copy;", '<');
    ReplaceKeepsAbsent(line, "©", "&copy;", '>');
    ReplaceKeepsAbsent(a, "®", "&reg;", '<');
    ReplaceKeepsAbsent(a, "®", "&reg;", '>');
    ReplaceKeepsAbsent(b, "™", "&trade;", '<');
    ReplaceKeepsAbsent(b, "™", "&trade;", '>');
  }

  /** Lines that start a paragraph are wrapped in `<p>…</p>`. */
  function Paragraph(line: string): (r: string)
    ensures StartsParagraph(line) ==> r == "<p>" + line + "</p>"
    ensures !StartsParagraph(line) ==> r == line
  {
    if StartsParagraph(line) then "<p>" + line + "</p>" else line
  }

  // ---------------------------------------------------------------------
  // Links: `\[\[(?!\[)((.*?)\|(.*?)|(.*?))\]\]`
  // ---------------------------------------------------------------------

  /**
   * The groups of a link match: group 1 is everything between the brackets;
   * when the first alternative matched, `split` holds groups 2 and 3 (the
   * text before and after the first `|`).
   */
  datatype LinkGroups = LinkGroups(whole: string, split: Option<(string, string)>)

  /** `^\w+://`, decided by scanning the leading word characters. */
  predicate IsUrl(link: string) {
    var low := Lower(link);
    var k := WordRun(low, 0);
    k >= 1 && OccursAt(low, "://", k)
  }

  /** The first index at or after `i` that does not hold a word character. */
  function WordRun(s: string, i: nat): (r: nat)
    requires i <= |s|
    ensures i <= r <= |s| && (r < |s| ==> !IsWordChar(s[r]))
    ensures forall k :: i <= k < r ==> IsWordChar(s[k])
    decreases |s| - i
  {
    if i < |s| && IsWordChar(s[i]) then WordRun(s, i + 1) else i
  }

  /** The scan decides the regex: one or more word characters, then `://`. */
  lemma IsUrlMeansScheme(link: string)
    ensures IsUrl(link) <==>
      exists k :: 1 <= k && OccursAt(Lower(link), "://", k) && forall i :: 0 <= i < k ==> IsWordChar(Lower(link)[i])
  {
    var low := Lower(link);
    var r := WordRun(low, 0);
    if IsUrl(link) {
      assert 1 <= r && OccursAt(Lower(link), "://", r) && forall i :: 0 <= i < r ==> IsWordChar(Lower(link)[i]);
    } else {
      forall k | 1 <= k && OccursAt(low, "://", k) && forall i :: 0 <= i < k ==> IsWordChar(low[i])
        ensures false
      {
        SchemeEnd(low, k);
      }
    }
  }

  /** Word characters up to a `://` are exactly the leading run. */
  lemma SchemeEnd(low: string, k: nat)
    requires OccursAt(low, "://", k) && forall i :: 0 <= i < k ==> IsWordChar(low[i])
    ensures WordRun(low, 0) == k
  {
    assert low[k] == low[k..k + 3][0] == ':';
    assert !IsWordChar(low[k]);
  }

  /** A leading `+` (a link to a sub-page) is dropped. */
  function DropPlus(link: string): (r: string)
    ensures StartsWith(link, "+") ==> r == link[1..]
    ensures !StartsWith(link, "+") ==> r == link
  {
    if StartsWith(link, "+") then link[1..] else link
  }

  /**
   * Where a link points: a URL is kept; any other target without an
   * extension names a page and gets `.html`, and then a leading `+` is dropped.
   */
  function LinkTarget(link: string): (r: string)
    ensures IsUrl(link) ==> r == link
    ensures !IsUrl(link) && SplitExt(link).1 == [] ==> r == DropPlus(link + ".html") && EndsWith(r, ".html")
    ensures !IsUrl(link) && SplitExt(link).1 != [] ==> r == DropPlus(link)
  {
    if IsUrl(link) then link
    else if SplitExt(link).1 == [] then
      var page := link + ".html";
      assert page[|page| - 5..] == ".html";
      if StartsWith(page, "+") then
        assert |page| >= 6 by {
          assert page[0] == '+' && page[|page| - 5] == '.';
        }
        assert page[1..][|page| - 6..] == ".html";
        page[1..]
      else page
    else DropPlus(link)
  }

  /** The anchor a link match becomes: the pipe text labels it when it is non-empty, else the target does. */
  function LinkSub(g: LinkGroups): (r: string)
    ensures g.split.Some? && g.split.value.1 != [] ==>
      r == Anchor(LinkTarget(g.split.value.0), g.split.value.1)
    ensures !(g.split.Some? && g.split.value.1 != []) ==>
      r == Anchor(LinkTarget(g.whole), LinkTarget(g.whole))
  {
    var pipe := if g.split.Some? then g.split.value.1 else [];
    var link := if pipe != [] then g.split.value.0 else g.whole;
    var target := LinkTarget(link);
    Anchor(target, if pipe != [] then pipe else target)
  }

  /** The second alternative: everything up to the first `]]`. */
  function LinkPlain(t: string): (r: Option<(LinkGroups, nat)>)
    requires StartsWith(t, "[[")
    ensures r.Some? ==> 2 < r.value.1 <= |t| && OccursAt(t, "]]", r.value.1 - 2)
  {
    match FindFrom(t, "]]", 2)
    case Some(c) => Some((LinkGroups(t[2..c], None), c + 2))
    case None => None
  }

  /**
   * A link match at the start of `t`: the lazy first alternative ends at the
   * first `|` and then the first `]]` after it; when there is no such pair the
   * second alternative ends at the first `]]`.
   */
  function LinkMatch(t: string): (r: Option<(LinkGroups, nat)>)
    ensures r.Some? ==> 2 < r.value.1 <= |t| && StartsWith(t, "[[")
  {
    if !(StartsWith(t, "[[") && (|t| == 2 || t[2] != '[')) then None
    else match FindFrom(t, "|", 2)
      case Some(a) =>
        (match FindFrom(t, "]]", a + 1)
         case Some(c) => Some((LinkGroups(t[2..c], Some((t[2..a], t[a + 1..c]))), c + 2))
         case None => LinkPlain(t))
      case None => LinkPlain(t)
  }

  function LinkAt(t: string): (r: Option<(string, nat)>)
    ensures r.Some? ==> 0 < r.value.1 <= |t| && StartsWith(t, "[[")
  {
    match LinkMatch(t)
    case Some(hit) => Some((LinkSub(hit.0), hit.1))
    case None => None
  }

  /** `re.sub(LINK_RE, link_sub, line)`. */
  function Links(line: string): string {
    Sub(line, LinkAt)
  }

  // ---------------------------------------------------------------------
  // Images: `\{\{(.*?)\?(.*?)\}\}|\{\{(.*?)\}\}`
  // ---------------------------------------------------------------------

  /**
   * The groups of an image match: groups 1 and 2 (before and after the first
   * `?`) when the first alternative matched, group 3 when the second did.
   */
  datatype ImageGroups = Query(src: string, attrs: string) | Plain(path: string)

  /**
   * The tag an image match becomes. A non-empty group 3 is the source, with an
   * empty attribute slot; otherwise groups 1 and 2 fill the two slots, and an
   * absent group prints as `None`.
   */
  function ImageSub(g: ImageGroups): (r: string)
    ensures g.Query? ==> r == "<img src=\"" + g.src + "\" " + g.attrs + " />"
    ensures g.Plain? && g.path != [] ==> r == "<img src=\"" + g.path + "\"  />"
    ensures g == Plain([]) ==> r == "<img src=\"None\" None />"
  {
    match g
    case Query(src, attrs) => "<img src=\"" + src + "\" " + attrs + " />"
    case Plain(path) => if path != [] then "<img src=\"" + path + "\"  />" else "<img src=\"None\" None />"
  }

  function ImageMatch(t: string): (r: Option<(ImageGroups, nat)>)
    ensures r.Some? ==> 2 < r.value.1 <= |t| && StartsWith(t, "{{")
  {
    if !StartsWith(t, "{{") then None
    else
      var plain := match FindFrom(t, "}}", 2)
        case Some(c) => Some((Plain(t[2..c]), c + 2))
        case None => None;
      match FindFrom(t, "?", 2)
      case Some(a) =>
        (match FindFrom(t, "}}", a + 1)
         case Some(c) => Some((Query(t[2..a], t[a + 1..c]), c + 2))
         case None => plain)
      case None => plain
  }

  function ImageAt(t: string): (r: Option<(string, nat)>)
    ensures r.Some? ==> 0 < r.value.1 <= |t| && StartsWith(t, "{{")
  {
    match ImageMatch(t)
    case Some(hit) => Some((ImageSub(hit.0), hit.1))
    case None => None
  }

  /** `re.sub(IMG_RE, img_sub, line)`. */
  function Images(line: string): string {
    Sub(line, ImageAt)
  }

  // ---------------------------------------------------------------------
  // Inline markup: `''code''`, `**strong**`, `//em//`, `__u__`, `~~del~~`
  // ---------------------------------------------------------------------

  /**
   * One entry of the inline-markup table: the HTML tag, the doubled mark
   * character, the least body length (1 for `.+?`, 0 for `.*?`), and
   * whether a `:` may not end the body (the `(?<!:)` of `//…//`, which
   * keeps `http://` from opening an emphasis).
   */
  datatype TagRule = TagRule(tag: string, mark: char, minBody: nat, noColon: bool)

  /** The table, in the order the passes run. */
  const TagRules: seq<TagRule> := [
    TagRule("code", '\'', 1, false),
    TagRule("strong", '*', 0, false),
    TagRule("em", '/', 0, true),
    TagRule("u", '_', 0, false),
    TagRule("del", '~', 1, false)
  ]

  /** The first index at or after `j` where the doubled mark closes a body. */
  function CloseTag(t: string, rule: TagRule, j: nat): (r: Option<nat>)
    requires 2 <= j <= |t|
    ensures r.Some? ==> j <= r.value && OccursAt(t, [rule.mark, rule.mark], r.value)
    ensures r.Some? ==> !rule.noColon || t[r.value - 1] != ':'
    ensures r.Some? ==> forall k :: j <= k < r.value ==>
      !(OccursAt(t, [rule.mark, rule.mark], k) && (!rule.noColon || t[k - 1] != ':'))
    decreases |t| - j
  {
    if OccursAt(t, [rule.mark, rule.mark], j) && (!rule.noColon || t[j - 1] != ':') then Some(j)
    else if j == |t| then None
    else CloseTag(t, rule, j + 1)
  }

  /** A match at the start of `t`: the doubled mark not followed by a third, a lazy body, the doubled mark. */
  function TagAt(t: string, rule: TagRule): (r: Option<(string, nat)>)
    ensures r.Some? ==> 0 < r.value.1 <= |t|
    ensures r.Some? ==> |t| >= 2 && t[0] == rule.mark && t[1] == rule.mark
  {
    if !(|t| >= 2 && t[0] == rule.mark && t[1] == rule.mark && (|t| == 2 || t[2] != rule.mark)) then None
    else if |t| < 2 + rule.minBody then None
    else match CloseTag(t, rule, 2 + rule.minBody)
      case Some(j) => Some((Element(rule.tag, t[2..j]), j + 2))
      case None => None
  }

  function TagMatcher(rule: TagRule): Matcher {
    t => TagAt(t, rule)
  }

  lemma TagAdvances(rule: TagRule)
    ensures Advances(TagMatcher(rule))
  {
  }

  /** The inline passes of `rules`, applied in order. */
  function ApplyTags(line: string, rules: seq<TagRule>): string
    decreases |rules|
  {
    if rules == [] then line
    else
      TagAdvances(rules[0]);
      ApplyTags(Sub(line, TagMatcher(rules[0])), rules[1..])
  }

  /** The inline passes, as the loop over the table runs them. */
  method TagPasses(line: string) returns (r: string)
    ensures r == ApplyTags(line, TagRules)
  {
    var rules := TagRules;
    r := line;
    for k := 0 to |rules|
      invariant ApplyTags(r, rules[k..]) == ApplyTags(line, rules)
    {
      assert rules[k..][1..] == rules[k + 1..];
      TagAdvances(rules[k]);
      r := Sub(r, TagMatcher(rules[k]));
    }
  }

  // ---------------------------------------------------------------------
  // Headings: `====== T ======` is `<h1>T</h1>`, … `== T ==` is `<h5>T</h5>`
  // ---------------------------------------------------------------------

  datatype HeaderRule = HeaderRule(tag: string, mark: string)

  const HeaderRules: seq<HeaderRule> := [
    HeaderRule("h1", "======"),
    HeaderRule("h2", "====="),
    HeaderRule("h3", "===="),
    HeaderRule("h4", "==="),
    HeaderRule("h5", "==")
  ]

  /** `M (.*?) M$` at the start of `t`: the match runs to the end of the line. */
  function HeaderAt(t: string, rule: HeaderRule): (r: Option<(string, nat)>)
    ensures r.Some? ==> r.value.1 == |t| > 0
  {
    var m := |rule.mark|;
    if StartsWith(t, rule.mark + " ") && EndsWith(t, " " + rule.mark) && |t| >= 2 * m + 2 then
      Some((Element(rule.tag, t[m + 1..|t| - m - 1]), |t|))
    else None
  }

  function HeaderMatcher(rule: HeaderRule): Matcher {
    t => HeaderAt(t, rule)
  }

  lemma HeaderAdvances(rule: HeaderRule)
    ensures Advances(HeaderMatcher(rule))
  {
  }

  /** The heading passes of `rules`, applied in order. */
  function ApplyHeaders(line: string, rules: seq<HeaderRule>): string
    decreases |rules|
  {
    if rules == [] then line
    else
      HeaderAdvances(rules[0]);
      ApplyHeaders(Sub(line, HeaderMatcher(rules[0])), rules[1..])
  }

  /** The heading passes, as the loop over the table runs them. */
  method HeaderPasses(line: string) returns (r: string)
    ensures r == ApplyHeaders(line, HeaderRules)
  {
    var rules := HeaderRules;
    r := line;
    for k := 0 to |rules|
      invariant ApplyHeaders(r, rules[k..]) == ApplyHeaders(line, rules)
    {
      assert rules[k..][1..] == rules[k + 1..];
      HeaderAdvances(rules[k]);
      r := Sub(r, HeaderMatcher(rules[k]));
    }
  }

  // ---------------------------------------------------------------------
  // The line state machine
  // ---------------------------------------------------------------------

  /** The converter's flags: inside a pre block, inside a raw-HTML block, inside a bullet list. */
  datatype Flags = Flags(pre: bool, html: bool, ul: bool)

  const Start := Flags(false, false, false)

  /** `^\* (.*?)$` becomes `<li>\1</li>`. */
  function ListItem(line: string): (r: string)
    requires IsListLine(line)
    ensures r == "<li>" + line[2..] + "</li>"
  {
    "<li>" + line[2..] + "</li>"
  }

  /**
   * A line outside pre and raw-HTML blocks: escaping, entities, paragraph,
   * links and images, then the list bookkeeping (which may emit `<ul>` or
   * `</ul>` first), then inline markup and headings.
   */
  function NormalLine(ul: bool, line: string): (bool, seq<string>) {
    var l := Images(Links(Paragraph(Entities(EscapeAngles(line)))));
    if IsListLine(l) then
      (true, (if ul then [] else ["<ul>"]) + [ApplyHeaders(ApplyTags(ListItem(l), TagRules), HeaderRules)])
    else
      (false, (if ul then ["</ul>"] else []) + [ApplyHeaders(ApplyTags(l, TagRules), HeaderRules)])
  }

  /** What one input line does: the new flags and the lines it emits. */
  function Line(f: Flags, line: string): (Flags, seq<string>) {
    if IsMetaLine(line) then (f, [])
    else if IsFence(line, "'''") then (f.(pre := !f.pre), [if f.pre then "</pre>" else "<pre>"])
    else if IsFence(line, "!!!") then (f.(html := !f.html), [])
    else if f.pre then (f, [EscapeAngles(line)])
    else if f.html then (f, [line])
    else
      var (ul, out) := NormalLine(f.ul, line);
      (f.(ul := ul), out)
  }

  /** The flags and the emitted lines after the given input lines, from the start state. */
  function Run(lines: seq<string>): (Flags, seq<string>)
    decreases |lines|
  {
    if lines == [] then (Start, [])
    else
      var (f, out) := Run(lines[..|lines| - 1]);
      var (g, more) := Line(f, lines[|lines| - 1]);
      (g, out + more)
  }

  // ---------------------------------------------------------------------
  // The blank-line filter
  // ---------------------------------------------------------------------

  /**
   * `not_empty` applied in order: a `<pre>` line switches pre mode on and a
   * `</pre>` line switches it off; in pre mode every line stays, otherwise
   * only lines that are not blank.
   */
  function Kept(pre: bool, lines: seq<string>): seq<string>
    decreases |lines|
  {
    if lines == [] then []
    else
      var now := if lines[0] == "<pre>" then true else if lines[0] == "</pre>" then false else pre;
      (if now || !IsBlank(lines[0]) then [lines[0]] else []) + Kept(now, lines[1..])
  }

  /** The blank-line filter, as the source runs it: a flag updated line by line. */
  method NotEmpty(lines: seq<string>) returns (kept: seq<string>)
    ensures kept == Kept(false, lines)
  {
    var pre := false;
    kept := [];
    for i := 0 to |lines|
      invariant kept + Kept(pre, lines[i..]) == Kept(false, lines)
    {
      var line := lines[i];
      ghost var before := pre;
      if line == "<pre>" {
        pre := true;
      } else if line == "</pre>" {
        pre := false;
      }
      assert lines[i..][0] == line && lines[i..][1..] == lines[i + 1..];
      assert Kept(before, lines[i..]) == (if pre || !IsBlank(line) then [line] else []) + Kept(pre, lines[i + 1..]);
      if pre || !IsBlank(line) {
        Regroup(kept, [line], Kept(pre, lines[i + 1..]));
        kept := kept + [line];
      } else {
        assert [] + Kept(pre, lines[i + 1..]) == Kept(pre, lines[i + 1..]);
      }
    }
  }

  // ---------------------------------------------------------------------
  // The converter
  // ---------------------------------------------------------------------

  /** Applies the inline and heading passes to a finished line. */
  method Markup(line: string) returns (r: string)
    ensures r == ApplyHeaders(ApplyTags(line, TagRules), HeaderRules)
  {
    r := TagPasses(line);
    r := HeaderPasses(r);
  }

  /** One line in normal mode: the new list flag and the lines emitted, list bookkeeping first. */
  method NormalMode(ul: bool, line: string) returns (inList: bool, emit: seq<string>)
    ensures (inList, emit) == NormalLine(ul, line)
  {
    inList := ul;
    emit := [];
    var l := EscapeAngles(line);
    l := Entities(l);
    l := Paragraph(l);
    l := Links(l);
    l := Images(l);
    if IsListLine(l) {
      if !inList {
        inList := true;
        emit := emit + ["<ul>"];
      }
      l := ListItem(l);
    } else if inList {
      inList := false;
      emit := emit + ["</ul>"];
    }
    l := Markup(l);
    assert [] + ["<ul>"] == ["<ul>"] && [] + ["</ul>"] == ["</ul>"];
    emit := emit + [l];
  }

  /** The converted page: the lines the state machine emits, filtered and joined with newlines. */
  function Converted(markup: string): string {
    Join(Kept(false, Run(Split(markup, '\n')).1), "\n")
  }

  /** `ZimParser.convert_markup`: runs every line through the state machine, then filters and joins. */
  method ConvertMarkup(markup: string) returns (html: string)
    ensures html == Converted(markup)
  {
    var lines := Split(markup, '\n');
    var pre, raw, ul := false, false, false;
    var out: seq<string> := [];
    for i := 0 to |lines|
      invariant (Flags(pre, raw, ul), out) == Run(lines[..i])
    {
      assert lines[..i + 1][..i] == lines[..i];
      ghost var before, emitted := Flags(pre, raw, ul), out;
      var line := lines[i];
      if !IsMetaLine(line) {
        if IsFence(line, "'''") {
          pre := !pre;
          if pre {
            out := out + ["<pre>"];
          } else {
            out := out + ["</pre>"];
          }
        } else if IsFence(line, "!!!") {
          raw := !raw;
        } else if pre {
          out := out + [EscapeAngles(line)];
        } else if raw {
          out := out + [line];
        } else {
          var emit;
          ul, emit := NormalMode(ul, line);
          out := out + emit;
        }
      }
      assert emitted + [] == emitted;
      assert (Flags(pre, raw, ul), out) == (Line(before, lines[i]).0, emitted + Line(before, lines[i]).1);
    }
    assert lines[..|lines|] == lines;
    var kept := NotEmpty(out);
    html := Join(kept, "\n");
  }
}
