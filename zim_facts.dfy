/** What the Zim converter guarantees, line by line and for the filter. */
module ZimFacts {
  import opened Wrappers
  import opened Text
  import opened Rewrite
  import opened Zim
  import opened Html

  // ---------------------------------------------------------------------
  // Header lines and block fences
  // ---------------------------------------------------------------------

  /** The page header Zim writes produces no output and leaves every flag as it was. */
  lemma MetaLineSilent(f: Flags, line: string)
    requires IsMetaLine(line)
    ensures Line(f, line) == (f, [])
  {
  }

  lemma FenceIsNotMeta(line: string, fence: string)
    requires fence == "'''" || fence == "!!!"
    requires IsFence(line, fence)
    ensures !IsMetaLine(line)
  {
    assert line[0] == line[..|fence|][0] == fence[0];
  }

  /**
   * A `'''` line flips pre mode whatever the other flags are, and emits
   * `<pre>` when it opens a block and `</pre>` when it closes one.
   */
  lemma PreFenceToggles(f: Flags, line: string)
    requires IsFence(line, "'''")
    ensures Line(f, line).0 == Flags(!f.pre, f.html, f.ul)
    ensures Line(f, line).1 == (if f.pre then ["</pre>"] else ["<pre>"])
  {
    FenceIsNotMeta(line, "'''");
  }

  /** A `!!!` line flips raw-HTML mode and emits nothing. */
  lemma RawFenceToggles(f: Flags, line: string)
    requires IsFence(line, "!!!")
    ensures Line(f, line) == (Flags(f.pre, !f.html, f.ul), [])
  {
    FenceIsNotMeta(line, "!!!");
    assert !IsFence(line, "'''") by {
      assert line[0] == '!';
    }
  }

  /** An ordinary line: neither a header line nor a fence. */
  predicate Ordinary(line: string) {
    !IsMetaLine(line) && !IsFence(line, "'''") && !IsFence(line, "!!!")
  }

  /**
   * Inside a pre block a line is only escaped: it comes out as the one line
   * with `<` and `>` replaced, and is copied as it is when it holds neither.
   */
  lemma PreOnlyEscapes(f: Flags, line: string)
    requires f.pre && Ordinary(line)
    ensures Line(f, line) == (f, [EscapeAngles(line)])
    ensures '<' !in line && '>' !in line ==> Line(f, line) == (f, [line])
  {
    if '<' !in line && '>' !in line {
      EscapeNoop(line);
    }
  }

  /** Inside a raw-HTML block (and outside pre) a line is copied byte for byte. */
  lemma RawVerbatim(f: Flags, line: string)
    requires !f.pre && f.html && Ordinary(line)
    ensures Line(f, line) == (f, [line])
  {
  }

  // ---------------------------------------------------------------------
  // Text the markup passes leave alone
  // ---------------------------------------------------------------------

  /** No character, and no two neighbouring `/`, that an inline-markup pass starts with. */
  predicate NoInlineMarks(s: string) {
    (forall k :: 0 <= k < |s| ==> s[k] !in {'\'', '*', '_', '~'}) &&
    (forall k :: 0 <= k < |s| - 1 ==> !(s[k] == '/' && s[k + 1] == '/'))
  }

  /** Nothing that any markup pass starts with. */
  predicate Inert(s: string) {
    NoInlineMarks(s) && forall k :: 0 <= k < |s| ==> s[k] !in {'[', '{', '='}
  }

  /** Text without `[` holds no link. */
  lemma LinksInert(s: string)
    requires '[' !in s
    ensures Links(s) == s
  {
    forall k | 0 <= k < |s|
      ensures LinkAt(s[k..]).None?
    {
      assert s[k..][0] == s[k] != '[';
      NotStartsWith(s[k..], "[[", 0);
      assert LinkMatch(s[k..]).None?;
    }
    SubNoMatch(s, LinkAt);
  }

  /** Text without `{` holds no image. */
  lemma ImagesInert(s: string)
    requires '{' !in s
    ensures Images(s) == s
  {
    forall k | 0 <= k < |s|
      ensures ImageAt(s[k..]).None?
    {
      assert s[k..][0] == s[k] != '{';
    }
    SubNoMatch(s, ImageAt);
  }

  lemma TagInert(s: string, rule: TagRule)
    requires rule in TagRules
    requires NoInlineMarks(s)
    ensures Advances(TagMatcher(rule))
    ensures Sub(s, TagMatcher(rule)) == s
  {
    TagAdvances(rule);
    forall k | 0 <= k < |s|
      ensures TagMatcher(rule)(s[k..]).None?
    {
      var t := s[k..];
      assert TagMatcher(rule)(t) == TagAt(t, rule);
      if k < |s| - 1 {
        assert t[0] == s[k] && t[1] == s[k + 1];
        NoMarkPair(s, rule, k);
      }
    }
    SubNoMatch(s, TagMatcher(rule));
  }

  /** No two neighbouring characters of an unmarked text form a tag's doubled mark. */
  lemma NoMarkPair(s: string, rule: TagRule, k: nat)
    requires rule in TagRules && NoInlineMarks(s) && k < |s| - 1
    ensures !(s[k] == rule.mark && s[k + 1] == rule.mark)
  {
    assert rule.mark in {'\'', '*', '/', '_', '~'};
    if rule.mark != '/' {
      assert s[k] !in {'\'', '*', '_', '~'};
    }
  }

  lemma {:induction false} ApplyTagsInert(s: string, rules: seq<TagRule>)
    requires forall r :: r in rules ==> r in TagRules
    requires NoInlineMarks(s)
    ensures ApplyTags(s, rules) == s
    decreases |rules|
  {
    if rules != [] {
      TagInert(s, rules[0]);
      ApplyTagsInert(s, rules[1..]);
    }
  }

  lemma HeaderInert(s: string, rule: HeaderRule)
    requires rule in HeaderRules
    requires Inert(s)
    ensures Advances(HeaderMatcher(rule))
    ensures Sub(s, HeaderMatcher(rule)) == s
  {
    HeaderAdvances(rule);
    forall k | 0 <= k < |s|
      ensures HeaderMatcher(rule)(s[k..]).None?
    {
      assert s[k..][0] == s[k] != (rule.mark + " ")[0];
    }
    SubNoMatch(s, HeaderMatcher(rule));
  }

  lemma {:induction false} ApplyHeadersInert(s: string, rules: seq<HeaderRule>)
    requires forall r :: r in rules ==> r in HeaderRules
    requires Inert(s)
    ensures ApplyHeaders(s, rules) == s
    decreases |rules|
  {
    if rules != [] {
      HeaderInert(s, rules[0]);
      ApplyHeadersInert(s, rules[1..]);
    }
  }

  // ---------------------------------------------------------------------
  // Paragraphs and lists
  // ---------------------------------------------------------------------

  /** Letters, digits, spaces, full stops and commas: text no pass rewrites. */
  predicate PlainChar(c: char) {
    'a' <= c <= 'z' || 'A' <= c <= 'Z' || '0' <= c <= '9' || c == ' ' || c == '.' || c == ','
  }

  predicate PlainText(s: string) {
    forall k :: 0 <= k < |s| ==> PlainChar(s[k])
  }

  /** Plain text between an opening tag and a closing tag is left alone by the markup passes. */
  lemma WrappedInert(open: string, body: string, close: string)
    requires open == "<p>" || open == "<li>" || open == "<h1>"
    requires close == "</p>" || close == "</li>" || close == "</h1>"
    requires PlainText(body)
    ensures Inert(open + body + close)
  {
    var s := open + body + close;
    forall k | 0 <= k < |s|
      ensures s[k] !in {'[', '{', '\'', '*', '_', '~', '='}
    {
      if k < |open| {
        assert s[k] == open[k];
      } else if k < |open| + |body| {
        assert s[k] == body[k - |open|];
      } else {
        assert s[k] == close[k - |open| - |body|];
      }
    }
    forall k | 0 <= k < |s| - 1
      ensures !(s[k] == '/' && s[k + 1] == '/')
    {
      if k < |open| {
        assert s[k] == open[k];
      } else if k < |open| + |body| {
        assert s[k] == body[k - |open|];
      } else {
        assert s[k] == close[k - |open| - |body|];
        assert s[k + 1] == close[k + 1 - |open| - |body|];
      }
    }
  }

  /** Plain text does not start any header line. */
  lemma PlainNotMeta(line: string)
    requires PlainText(line)
    ensures !IsMetaLine(line)
  {
    NotStartsWith(line, "Content-Type", 7);
    NotStartsWith(line, "Wiki-Format", 4);
    NotStartsWith(line, "Creation-Date", 8);
  }

  /** Escaping and the entity pass leave text without `<`, `>` and the three signs as it is. */
  lemma EscapeEntitiesNoop(line: string)
    requires '<' !in line && '>' !in line && '©' !in line && '®' !in line && '™' !in line
    ensures Entities(EscapeAngles(line)) == line
  {
    EscapeNoop(line);
    NotInNotOccurs(line, '©');
    ReplaceAbsent(line, "©", "&copy;");
    NotInNotOccurs(line, '®');
    ReplaceAbsent(line, "®", "&reg;");
    NotInNotOccurs(line, '™');
    ReplaceAbsent(line, "™", "&trade;");
  }

  /** The passes before the list test, in order. */
  function Prepared(line: string): string {
    Images(Links(Paragraph(Entities(EscapeAngles(line)))))
  }

  /** An ordinary line in normal mode is handled by the normal-mode steps alone. */
  lemma NormalModeLine(f: Flags, line: string)
    requires !f.pre && !f.html && Ordinary(line)
    ensures Line(f, line) == (f.(ul := NormalLine(f.ul, line).0), NormalLine(f.ul, line).1)
  {
  }

  /** A prepared line that is not a list item closes an open list and becomes one line. */
  lemma NormalOther(ul: bool, line: string, out: string)
    requires !IsListLine(Prepared(line))
    requires ApplyHeaders(ApplyTags(Prepared(line), TagRules), HeaderRules) == out
    ensures NormalLine(ul, line) == (false, (if ul then ["</ul>"] else []) + [out])
  {
  }

  /** A prepared list item opens a list when none is open and becomes one `<li>` line. */
  lemma NormalItem(ul: bool, line: string, out: string)
    requires IsListLine(Prepared(line))
    requires ApplyHeaders(ApplyTags(ListItem(Prepared(line)), TagRules), HeaderRules) == out
    ensures NormalLine(ul, line) == (true, (if ul then [] else ["<ul>"]) + [out])
  {
  }

  lemma PreparedPlain(line: string)
    requires PlainText(line) && line != [] && line[0] != ' '
    ensures Prepared(line) == "<p>" + line + "</p>"
  {
    PlainNoMarkup(line);
    EscapeEntitiesNoop(line);
    var p := "<p>" + line + "</p>";
    PlainNotSpace(line[0]);
    assert Paragraph(line) == p;
    WrappedInert("<p>", line, "</p>");
    InertNoBrackets(p);
    LinksInert(p);
    ImagesInert(p);
  }

  /** A plain character other than the space is no whitespace. */
  lemma PlainNotSpace(c: char)
    requires PlainChar(c) && c != ' '
    ensures !IsSpace(c)
  {
  }

  /** Plain text holds none of the characters the escaping and markup passes look for. */
  lemma PlainNoMarkup(s: string)
    requires PlainText(s)
    ensures '<' !in s && '>' !in s && '©' !in s && '®' !in s && '™' !in s && '[' !in s && '{' !in s
  {
    forall k | 0 <= k < |s|
      ensures s[k] !in {'<', '>', '©', '®', '™', '[', '{'}
    {
      assert PlainChar(s[k]);
    }
  }

  lemma InertNoBrackets(s: string)
    requires Inert(s)
    ensures '[' !in s && '{' !in s
  {
    forall k | 0 <= k < |s|
      ensures s[k] != '[' && s[k] != '{'
    {
      assert s[k] !in {'[', '{', '='};
    }
  }

  /**
   * In normal mode a line of plain text that does not start with a space
   * becomes one paragraph; an open list is closed on the line before it.
   */
  lemma PlainParagraph(f: Flags, line: string)
    requires !f.pre && !f.html
    requires PlainText(line) && line != [] && line[0] != ' '
    ensures Line(f, line) == (Flags(false, false, false), (if f.ul then ["</ul>"] else []) + ["<p>" + line + "</p>"])
  {
    PlainNotMeta(line);
    NotStartsWith(line, "'''", 0);
    NotStartsWith(line, "!!!", 0);
    NormalModeLine(f, line);
    var p := "<p>" + line + "</p>";
    PreparedPlain(line);
    NotStartsWith(p, "* ", 0);
    WrappedInert("<p>", line, "</p>");
    ApplyTagsInert(p, TagRules);
    ApplyHeadersInert(p, HeaderRules);
    NormalOther(f.ul, line, p);
  }

  lemma PreparedItem(item: string)
    requires PlainText(item)
    ensures Prepared("* " + item) == "* " + item
  {
    var line := "* " + item;
    PlainNoMarkup(item);
    EscapeEntitiesNoop(line);
    assert line[0] == '*';
    assert Paragraph(line) == line;
    LinksInert(line);
    ImagesInert(line);
  }

  /**
   * In normal mode a `* ` line with plain text becomes one list item; it
   * opens `<ul>` first only when no list is open, and the list stays open.
   */
  lemma ListItemLine(f: Flags, item: string)
    requires !f.pre && !f.html
    requires PlainText(item)
    ensures Line(f, "* " + item) == (Flags(false, false, true), (if f.ul then [] else ["<ul>"]) + ["<li>" + item + "</li>"])
  {
    var line := "* " + item;
    NotStartsWith(line, "Content-Type", 0);
    NotStartsWith(line, "Wiki-Format", 0);
    NotStartsWith(line, "Creation-Date", 0);
    NotStartsWith(line, "'''", 0);
    NotStartsWith(line, "!!!", 0);
    NormalModeLine(f, line);
    PreparedItem(item);
    assert line[..2] == "* " && line[2..] == item;
    var li := "<li>" + item + "</li>";
    assert ListItem(line) == li;
    WrappedInert("<li>", item, "</li>");
    ApplyTagsInert(li, TagRules);
    ApplyHeadersInert(li, HeaderRules);
    NormalItem(f.ul, line, li);
  }

  // ---------------------------------------------------------------------
  // Whole runs
  // ---------------------------------------------------------------------

  /** One more input line: the run goes on from the flags the earlier lines left. */
  lemma RunStep(lines: seq<string>, line: string, f: Flags, out: seq<string>, g: Flags, more: seq<string>)
    requires Run(lines) == (f, out) && Line(f, line) == (g, more)
    ensures Run(lines + [line]) == (g, out + more)
  {
    assert (lines + [line])[..|lines|] == lines;
  }

  /** Consecutive items share one `<ul>`, and the next paragraph closes the list before itself. */
  lemma ListThenParagraph(a: string, b: string, c: string)
    requires PlainText(a) && PlainText(b) && PlainText(c) && c != [] && c[0] != ' '
    ensures Run(["* " + a, "* " + b, c]) ==
      (Start, ["<ul>", "<li>" + a + "</li>", "<li>" + b + "</li>", "</ul>", "<p>" + c + "</p>"])
  {
    var l1, l2 := "* " + a, "* " + b;
    var li1, li2, p := "<li>" + a + "</li>", "<li>" + b + "</li>", "<p>" + c + "</p>";
    var inList := Flags(false, false, true);
    TwoItems(a, b);
    PlainParagraph(inList, c);
    assert ["</ul>"] + [p] == ["</ul>", p];
    RunStep([l1, l2], c, inList, ["<ul>", li1, li2], Start, ["</ul>", p]);
    assert [l1, l2] + [c] == [l1, l2, c];
    assert ["<ul>", li1, li2] + ["</ul>", p] == ["<ul>", li1, li2, "</ul>", p];
  }

  /** Two items in a row: one `<ul>`, two `<li>` lines, and the list is still open. */
  lemma TwoItems(a: string, b: string)
    requires PlainText(a) && PlainText(b)
    ensures Run(["* " + a, "* " + b]) == (Flags(false, false, true), ["<ul>", "<li>" + a + "</li>", "<li>" + b + "</li>"])
  {
    var l1, l2 := "* " + a, "* " + b;
    var li1, li2 := "<li>" + a + "</li>", "<li>" + b + "</li>";
    var inList := Flags(false, false, true);
    ListItemLine(Start, a);
    assert ["<ul>"] + [li1] == ["<ul>", li1];
    RunStep([], l1, Start, [], inList, ["<ul>", li1]);
    assert [] + [l1] == [l1] && [] + ["<ul>", li1] == ["<ul>", li1];
    ListItemLine(inList, b);
    assert [] + [li2] == [li2];
    RunStep([l1], l2, inList, ["<ul>", li1], inList, [li2]);
    assert [l1] + [l2] == [l1, l2] && ["<ul>", li1] + [li2] == ["<ul>", li1, li2];
  }


  /** A list still open at the end of the input is not closed. */
  lemma UnclosedList(a: string)
    requires PlainText(a)
    ensures Run(["* " + a]) == (Flags(false, false, true), ["<ul>", "<li>" + a + "</li>"])
  {
    ListItemLine(Start, a);
    assert ["<ul>"] + ["<li>" + a + "</li>"] == ["<ul>", "<li>" + a + "</li>"];
    RunStep([], "* " + a, Start, [], Flags(false, false, true), ["<ul>", "<li>" + a + "</li>"]);
    assert [] + ["* " + a] == ["* " + a];
    assert [] + ["<ul>", "<li>" + a + "</li>"] == ["<ul>", "<li>" + a + "</li>"];
  }

  lemma SplitAfterFence(x: string)
    requires '\n' !in x
    ensures Split("'''\n" + x, '\n') == ["'''", x]
  {
    assert "'''\n" + x == "'''" + ['\n'] + x;
    SplitFirst("'''", '\n', x);
    SplitNone(x, '\n');
  }

  lemma RunAfterFence(x: string)
    requires Ordinary(x)
    ensures Run(["'''", x]) == (Flags(true, false, false), ["<pre>", EscapeAngles(x)])
  {
    var fence := "'''";
    var e := EscapeAngles(x);
    PreFenceToggles(Start, fence);
    RunStep([], fence, Start, [], Flags(true, false, false), ["<pre>"]);
    assert [] + [fence] == [fence] && [] + ["<pre>"] == ["<pre>"];
    PreOnlyEscapes(Flags(true, false, false), x);
    RunStep([fence], x, Flags(true, false, false), ["<pre>"], Flags(true, false, false), [e]);
    assert [fence] + [x] == [fence, x] && ["<pre>"] + [e] == ["<pre>", e];
  }

  lemma KeptAfterFence(e: string)
    requires '<' !in e
    ensures Kept(false, ["<pre>", e]) == ["<pre>", e]
  {
    assert e != "</pre>" && e != "<pre>" by {
      assert "<pre>"[0] == '<' && "</pre>"[0] == '<';
    }
    assert ["<pre>", e][1..] == [e] && [e][1..] == [];
    assert Kept(true, [e]) == [e];
  }

  /** A pre block still open at the end of the input is not closed either. */
  lemma UnclosedPre(x: string)
    requires '\n' !in x && Ordinary(x)
    ensures Converted("'''\n" + x) == "<pre>\n" + EscapeAngles(x)
  {
    SplitAfterFence(x);
    RunAfterFence(x);
    EscapeRemovesAngles(x);
    var e := EscapeAngles(x);
    KeptAfterFence(e);
    assert Join(["<pre>", e], "\n") == "<pre>" + "\n" + Join([e], "\n");
    assert "<pre>" + "\n" + e == "<pre>\n" + e;
  }

  // ---------------------------------------------------------------------
  // The blank-line filter
  // ---------------------------------------------------------------------

  /** The lines that are not blank, in order. */
  function NonBlank(lines: seq<string>): seq<string> {
    if lines == [] then []
    else (if IsBlank(lines[0]) then [] else [lines[0]]) + NonBlank(lines[1..])
  }

  /** With no `<pre>` line, the filter keeps exactly the lines that are not blank. */
  lemma {:induction false} KeptOutsidePre(lines: seq<string>)
    requires forall k :: 0 <= k < |lines| ==> lines[k] != "<pre>"
    ensures Kept(false, lines) == NonBlank(lines)
    decreases |lines|
  {
    if lines != [] {
      KeptOutsidePre(lines[1..]);
    }
  }

  /** Inside a pre block every line is kept, blank or not, up to the first `</pre>`. */
  lemma {:induction false} KeptInsidePre(body: seq<string>, rest: seq<string>)
    requires forall k :: 0 <= k < |body| ==> body[k] != "</pre>"
    ensures Kept(true, body + rest) == body + Kept(true, rest)
    decreases |body|
  {
    if body != [] {
      assert (body + rest)[1..] == body[1..] + rest;
      KeptInsidePre(body[1..], rest);
    } else {
      assert body + rest == rest;
    }
  }

  /** A whole pre block, its fences included, survives the filter unchanged. */
  lemma KeptPreBlock(pre: bool, body: seq<string>, rest: seq<string>)
    requires forall k :: 0 <= k < |body| ==> body[k] != "</pre>"
    ensures Kept(pre, ["<pre>"] + body + ["</pre>"] + rest) == ["<pre>"] + body + ["</pre>"] + Kept(false, rest)
  {
    Regroup4(["<pre>"], body, ["</pre>"], rest);
    KeptFence(pre, "<pre>", body + (["</pre>"] + rest));
    KeptInsidePre(body, ["</pre>"] + rest);
    KeptFence(true, "</pre>", rest);
    Regroup4(["<pre>"], body, ["</pre>"], Kept(false, rest));
  }

  /** A fence line is always kept and sets the pre flag. */
  lemma KeptFence(pre: bool, line: string, rest: seq<string>)
    requires line == "<pre>" || line == "</pre>"
    ensures Kept(pre, [line] + rest) == [line] + Kept(line == "<pre>", rest)
  {
    var all := [line] + rest;
    assert all[0] == line && all[1..] == rest;
    assert !IsBlank(line) by {
      assert line[0] == '<' && '<' !in Whitespace;
    }
  }

  // ---------------------------------------------------------------------
  // Link targets and labels
  // ---------------------------------------------------------------------

  /** A page name: one or more word characters. */
  predicate WordName(name: string) {
    name != [] && forall k :: 0 <= k < |name| ==> IsWordChar(name[k])
  }

  lemma LowerKeepsWord(s: string, k: nat)
    requires k < |s|
    ensures IsWordChar(Lower(s)[k]) <==> IsWordChar(s[k])
  {
  }

  /** The leading word characters of `s` are exactly its first `n` characters. */
  lemma WordRunStops(s: string, n: nat)
    requires n <= |s|
    requires forall k :: 0 <= k < n ==> IsWordChar(s[k])
    requires n == |s| || !IsWordChar(s[n])
    ensures WordRun(s, 0) == n
  {
    var r := WordRun(s, 0);
  }

  /** A page name is not a URL: it links to its `.html` page. */
  lemma PageTarget(name: string)
    requires WordName(name)
    ensures LinkTarget(name) == name + ".html"
  {
    var low := Lower(name);
    forall k | 0 <= k < |low|
      ensures IsWordChar(low[k])
    {
      LowerKeepsWord(name, k);
    }
    WordRunStops(low, |low|);
    assert !IsUrl(name);
    SplitExtNoDot(name);
    assert (name + ".html")[0] == name[0];
  }

  /** A `+` page name links to the sub-page's `.html` file, without the `+`. */
  lemma SubPageTarget(name: string)
    requires WordName(name)
    ensures LinkTarget("+" + name) == name + ".html"
  {
    var link := "+" + name;
    var low := Lower(link);
    WordRunStops(low, 0);
    assert !IsUrl(link);
    assert '.' !in link by {
      forall k | 0 <= k < |link|
        ensures link[k] != '.'
      {
        if k > 0 {
          assert link[k] == name[k - 1];
        }
      }
    }
    SplitExtNoDot(link);
    assert ("+" + name + ".html")[1..] == name + ".html";
  }

  /** A `scheme://` target is kept as it is. */
  lemma UrlTarget(scheme: string, rest: string)
    requires WordName(scheme)
    ensures LinkTarget(scheme + "://" + rest) == scheme + "://" + rest
  {
    var link := scheme + "://" + rest;
    var low := Lower(link);
    var n := |scheme|;
    forall k | 0 <= k < n
      ensures IsWordChar(low[k])
    {
      assert link[k] == scheme[k];
      LowerKeepsWord(link, k);
    }
    assert link[n..n + 3] == "://";
    assert low[n..n + 3] == "://";
    WordRunStops(low, n);
    assert IsUrl(link);
  }

  /** A link without a pipe: the target, rewritten, is also the label. */
  lemma PlainLink(name: string)
    requires '|' !in name && ']' !in name && (name == [] || name[0] != '[')
    ensures Links("[[" + name + "]]") == Anchor(LinkTarget(name), LinkTarget(name))
  {
    PlainLinkMatch(name);
    WholeLink("[[" + name + "]]", LinkGroups(name, None));
  }

  /** Without a pipe the second alternative matches, up to the closing brackets. */
  lemma PlainLinkMatch(name: string)
    requires '|' !in name && ']' !in name && (name == [] || name[0] != '[')
    ensures LinkMatch("[[" + name + "]]") == Some((LinkGroups(name, None), |name| + 4))
  {
    var s := "[[" + name + "]]";
    var n := |name|;
    NoPipeAfterOpen(name);
    ClosesAfter(name);
    assert s[2..n + 2] == name;
    assert LinkPlain(s) == Some((LinkGroups(name, None), n + 4));
    if |s| > 2 {
      assert s[2] == (if n > 0 then name[0] else ']');
    }
  }

  lemma NoPipeAfterOpen(name: string)
    requires '|' !in name
    ensures FindFrom("[[" + name + "]]", "|", 2) == None
  {
    var s := "[[" + name + "]]";
    var n := |name|;
    forall k | 2 <= k <= |s|
      ensures !OccursAt(s, "|", k)
    {
      if k < |s| {
        assert s[k..k + 1][0] == s[k];
        if k < n + 2 {
          assert s[k] == name[k - 2];
        }
      }
    }
    FindFromNone(s, "|", 2);
  }

  lemma ClosesAfter(name: string)
    requires ']' !in name
    ensures FindFrom("[[" + name + "]]", "]]", 2) == Some(|name| + 2)
  {
    var s := "[[" + name + "]]";
    var n := |name|;
    assert |s| == n + 4;
    forall k | 2 <= k < n + 2
      ensures s[k] != ']'
    {
      assert s[k] == name[k - 2];
      assert name[k - 2] in name;
    }
    OccursAtEnd("[[" + name, "]]");
    FirstByLead(s, "]]", 2, n + 2);
  }

  /** A match that covers the whole text is the whole result. */
  lemma WholeLink(s: string, g: LinkGroups)
    requires LinkMatch(s) == Some((g, |s|))
    ensures Links(s) == LinkSub(g)
  {
    assert s[|s|..] == [];
    assert Sub(s, LinkAt) == LinkSub(g) + Sub([], LinkAt);
  }

  /** A link with a non-empty pipe text: the text is the label, the part before the pipe the target. */
  lemma PipedLink(target: string, caption: string)
    requires '|' !in target && ']' !in target && ']' !in caption && caption != []
    requires target == [] || target[0] != '['
    ensures Links("[[" + target + "|" + caption + "]]") == Anchor(LinkTarget(target), caption)
  {
    var s := "[[" + target + "|" + caption + "]]";
    var a := |target| + 2;
    var c := a + 1 + |caption|;
    PipeSearch(target, caption);
    FindBeforeEnd("[[" + target + "|", caption, "]]");
    assert s[2..a] == target && s[a + 1..c] == caption;
    assert s[2] == (if target != [] then target[0] else '|');
    WholeLink(s, LinkGroups(s[2..c], Some((target, caption))));
  }

  /** The first `|` is the one after the target. */
  lemma PipeSearch(target: string, caption: string)
    requires '|' !in target
    ensures FindFrom("[[" + target + "|" + caption + "]]", "|", 2) == Some(|target| + 2)
  {
    Regroup("[[" + target + "|", caption, "]]");
    FindAfterBody("[[", target, "|", caption + "]]");
  }

  lemma EmptyPipeMatch(name: string)
    requires WordName(name)
    ensures LinkMatch("[[" + name + "|]]") == Some((LinkGroups(name + "|", Some((name, []))), |name| + 5))
  {
    var s := "[[" + name + "|]]";
    var n := |name|;
    assert '|' !in name by {
      forall k | 0 <= k < n
        ensures name[k] != '|'
      {
        assert IsWordChar(name[k]);
      }
    }
    assert "|" + "]]" == "|]]";
    Regroup("[[" + name, "|", "]]");
    FindAfterBody("[[", name, "|", "]]");
    OccursAtEnd("[[" + name + "|", "]]");
    FindFromFirst(s, "]]", n + 3, n + 3);
    assert s[2] == name[0];
    assert s[2..n + 3] == name + "|" && s[2..n + 2] == name && s[n + 3..n + 3] == [];
  }

  lemma EmptyPipeTarget(name: string)
    requires WordName(name)
    ensures LinkTarget(name + "|") == name + "|.html"
  {
    var link := name + "|";
    var n := |name|;
    var low := Lower(link);
    forall k | 0 <= k < n
      ensures IsWordChar(low[k])
    {
      assert link[k] == name[k];
      LowerKeepsWord(link, k);
    }
    assert low[n] == '|';
    WordRunStops(low, n);
    assert !IsUrl(link);
    assert '.' !in link by {
      forall k | 0 <= k < |link|
        ensures link[k] != '.'
      {
        if k < n {
          assert link[k] == name[k];
        }
      }
    }
    SplitExtNoDot(link);
    assert (link + ".html")[0] == name[0];
    assert link + ".html" == name + "|.html";
  }

  /** An empty pipe text does not label the link: the pipe stays in the target, which gets `.html`. */
  lemma EmptyPipeLink(name: string)
    requires WordName(name)
    ensures Links("[[" + name + "|]]") == Anchor(name + "|.html", name + "|.html")
  {
    EmptyPipeMatch(name);
    WholeLink("[[" + name + "|]]", LinkGroups(name + "|", Some((name, []))));
    EmptyPipeTarget(name);
  }

  // ---------------------------------------------------------------------
  // Headings
  // ---------------------------------------------------------------------

  /** A line that is the mark, a space, the title, a space and the mark is one whole heading match. */
  lemma HeaderMatchWhole(t: string, rule: HeaderRule, title: string)
    requires t == rule.mark + " " + title + " " + rule.mark
    ensures HeaderAt(t, rule) == Some((Element(rule.tag, title), |t|))
  {
    var m := |rule.mark|;
    assert t[..m + 1] == rule.mark + " ";
    assert t[|t| - m - 1..] == " " + rule.mark;
    assert t[m + 1..|t| - m - 1] == title;
  }

  lemma HeaderSubWhole(t: string, rule: HeaderRule, title: string)
    requires t == rule.mark + " " + title + " " + rule.mark
    ensures Advances(HeaderMatcher(rule))
    ensures Sub(t, HeaderMatcher(rule)) == Element(rule.tag, title)
  {
    HeaderAdvances(rule);
    HeaderMatchWhole(t, rule, title);
    assert t[|t|..] == [];
  }

  lemma H1Element(title: string)
    ensures Element("h1", title) == "<h1>" + title + "</h1>"
  {
    assert "<" + "h1" + ">" == "<h1>";
    assert "</" + "h1" + ">" == "</h1>";
  }

  /** The first heading pass turns `====== T ======` into `<h1>T</h1>`. */
  lemma TopHeadingMatch(title: string)
    ensures Advances(HeaderMatcher(HeaderRules[0]))
    ensures Sub("====== " + title + " ======", HeaderMatcher(HeaderRules[0])) == "<h1>" + title + "</h1>"
  {
    var rule := HeaderRules[0];
    assert rule == HeaderRule("h1", "======");
    var m := rule.mark;
    assert m + " " == "====== " && " " + m == " ======";
    Regroup(m + " " + title, " ", m);
    HeaderSubWhole("====== " + title + " ======", rule, title);
    H1Element(title);
  }

  /** `====== T ======` becomes `<h1>T</h1>`, and no later heading pass changes it. */
  lemma TopHeading(title: string)
    requires PlainText(title)
    ensures ApplyHeaders("====== " + title + " ======", HeaderRules) == "<h1>" + title + "</h1>"
  {
    var s := "====== " + title + " ======";
    var h := "<h1>" + title + "</h1>";
    var rules := HeaderRules;
    TopHeadingMatch(title);
    WrappedInert("<h1>", title, "</h1>");
    ApplyHeadersInert(h, rules[1..]);
  }

  /** The characters of a top heading line: `=`, spaces and the plain title. */
  lemma HeadingChars(title: string)
    requires PlainText(title)
    ensures forall k :: 0 <= k < |"====== " + title + " ======"| ==>
      ("====== " + title + " ======")[k] == '=' || PlainChar(("====== " + title + " ======")[k])
  {
    var s := "====== " + title + " ======";
    forall k | 0 <= k < |s|
      ensures s[k] == '=' || PlainChar(s[k])
    {
      if 7 <= k < 7 + |title| {
        assert s[k] == title[k - 7];
      }
    }
  }

  lemma PreparedHeading(title: string)
    requires PlainText(title)
    ensures Prepared("====== " + title + " ======") == "====== " + title + " ======"
  {
    var s := "====== " + title + " ======";
    HeadingChars(title);
    EscapeEntitiesNoop(s);
    assert s[0] == '=';
    assert Paragraph(s) == s;
    LinksInert(s);
    ImagesInert(s);
  }

  /** The inline and heading passes turn a top heading line into its `<h1>` element. */
  lemma HeadingMarkup(title: string)
    requires PlainText(title)
    ensures ApplyHeaders(ApplyTags("====== " + title + " ======", TagRules), HeaderRules) == "<h1>" + title + "</h1>"
  {
    var s := "====== " + title + " ======";
    HeadingChars(title);
    assert NoInlineMarks(s);
    ApplyTagsInert(s, TagRules);
    TopHeading(title);
  }

  /** In normal mode, outside a list, a top heading line is that one heading. */
  lemma HeadingLine(f: Flags, title: string)
    requires !f.pre && !f.html && !f.ul
    requires PlainText(title)
    ensures Line(f, "====== " + title + " ======") == (f, ["<h1>" + title + "</h1>"])
  {
    var s := "====== " + title + " ======";
    var h := "<h1>" + title + "</h1>";
    NotStartsWith(s, "Content-Type", 0);
    NotStartsWith(s, "Wiki-Format", 0);
    NotStartsWith(s, "Creation-Date", 0);
    NotStartsWith(s, "'''", 0);
    NotStartsWith(s, "!!!", 0);
    assert Ordinary(s);
    NormalModeLine(f, s);
    PreparedHeading(title);
    NotStartsWith(s, "* ", 0);
    HeadingMarkup(title);
    NormalOther(f.ul, s, h);
    assert [] + [h] == [h];
  }
}
