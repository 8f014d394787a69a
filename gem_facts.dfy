/** What the Gemtext converter guarantees: the patterns, each kind of line, the pre blocks and whole runs. */
module GemFacts {
  import opened Wrappers
  import opened Text
  import opened Rewrite
  import opened Html
  import opened Gem
  import opened Dicts

  // ---------------------------------------------------------------------
  // The patterns on their own
  // ---------------------------------------------------------------------

  /** `n` hash signs. */
  function Hashes(n: nat): (r: string)
    ensures |r| == n && forall k :: 0 <= k < n ==> r[k] == '#'
  {
    seq(n, _ => '#')
  }

  /** A valid link target: a word character first, at least two characters, no spaces. */
  predicate IsTarget(url: string) {
    |url| >= 2 && IsWordChar(url[0]) && forall k :: 0 <= k < |url| ==> !IsSpace(url[k])
  }

  /** Text that starts right after the spaces: non-empty and not itself starting with a space. */
  predicate IsText(text: string) {
    text != [] && !IsSpace(text[0])
  }

  /** One space and then text: `\s+(.+)$` captures exactly the text. */
  lemma SpaceThenText(s: string, i: nat, text: string)
    requires i <= |s| && s[i..] == [' '] + text && IsText(text)
    ensures SpaceTail(s, i) == Some(i + 1)
  {
    assert s[i] == ' ' && s[i + 1] == text[0];
    assert SpaceRun(s, i + 1) == 0;
  }

  /** `#`×N, a space and text, for N from 1 to 6, is the heading `<hN>text</hN>`. */
  lemma HeadingText(n: nat, text: string)
    requires 1 <= n <= 6 && IsText(text)
    ensures Headings(Hashes(n) + " " + text) == Element("h" + Digit(n), text)
  {
    var line := Hashes(n) + " " + text;
    assert line[n] == ' ';
    assert HashRun(line, 0) == n;
    assert line[n..] == [' '] + text;
    SpaceThenText(line, n, text);
    assert line[n + 1..] == text;
  }

  /** Seven or more `#` never make a heading. */
  lemma TooDeep(line: string)
    requires HashRun(line, 0) > 6
    ensures Headings(line) == line
  {
  }

  /** `> text` is the blockquote `<blockquote>text</blockquote>`. */
  lemma BlockquoteText(text: string)
    requires IsText(text)
    ensures Blockquote("> " + text) == Element("blockquote", text)
  {
    var line := "> " + text;
    assert line[1..] == [' '] + text;
    SpaceThenText(line, 1, text);
    assert line[2..] == text;
  }

  /** `* item` is a list line whose item is the text after the space. */
  lemma ListItemText(item: string)
    requires IsText(item)
    ensures ListItem("* " + item) == Some(item)
  {
    var line := "* " + item;
    assert line[1..] == [' '] + item;
    SpaceThenText(line, 1, item);
    assert line[2..] == item;
  }

  /** The run of non-space characters from `i` is exactly the target there. */
  lemma TargetRun(s: string, i: nat, url: string)
    requires i + |url| <= |s| && s[i..i + |url|] == url && IsTarget(url)
    requires i + |url| == |s| || IsSpace(s[i + |url|])
    ensures NonSpaceRun(s, i) == |url|
  {
    var n := NonSpaceRun(s, i);
    assert forall k :: i <= k < i + |url| ==> s[k] == url[k - i];
  }

  /** `=> url text` is a link line with that target and that label, matched to the end. */
  lemma LinkLineText(url: string, text: string)
    requires IsTarget(url) && IsText(text)
    ensures LinkMatch("=> " + url + " " + text) == Some(LinkHit(url, Some(text), |"=> " + url + " " + text|))
  {
    var line := "=> " + url + " " + text;
    var e := 3 + |url|;
    assert line[2] == ' ' && line[3] == url[0];
    assert SpaceRun(line, 3) == 0;
    assert SpaceRun(line, 2) == 1;
    assert line[3..e] == url;
    assert line[e] == ' ';
    TargetRun(line, 3, url);
    assert line[e..] == [' '] + text;
    SpaceThenText(line, e, text);
    assert line[e + 1..] == text;
    assert line[0] == '=' && line[1] == '>';
    ArrowStart(line);
  }

  /** A line whose first two characters are `=>` starts with `=>`. */
  lemma ArrowStart(line: string)
    requires |line| >= 2 && line[0] == '=' && line[1] == '>'
    ensures StartsWith(line, "=>")
  {
    assert line[..2] == "=>";
  }

  /** `=> url` alone is a link line with no label. */
  lemma LinkLineBare(url: string)
    requires IsTarget(url)
    ensures LinkMatch("=> " + url) == Some(LinkHit(url, None, |"=> " + url|))
  {
    var line := "=> " + url;
    assert line[2] == ' ' && line[3] == url[0];
    assert SpaceRun(line, 3) == 0;
    assert SpaceRun(line, 2) == 1;
    assert line[3..] == url;
    TargetRun(line, 3, url);
  }

  /** Text without `(` holds no inline link. */
  lemma InlineInert(s: string)
    requires '(' !in s
    ensures InlineLinks(s) == s
  {
    forall k | 0 <= k < |s|
      ensures InsideAt(s[k..]).None?
    {
      assert s[k..][0] == s[k] != '(';
      NotStartsWith(s[k..], "(=>", 0);
    }
    SubNoMatch(s, InsideAt);
  }

  // ---------------------------------------------------------------------
  // Each kind of line outside a pre block
  // ---------------------------------------------------------------------

  /** A line that starts with `<`: none of the later patterns of the line loop applies to it. */
  lemma TagLine(s: string)
    requires s != [] && s[0] == '<'
    ensures Headings(s) == s && Blockquote(s) == s && ListItem(s).None? && LinkMatch(s).None? && !IsFence(s)
  {
    assert HashRun(s, 0) == 0;
    NotStartsWith(s, ">", 0);
    NotStartsWith(s, "*", 0);
    NotStartsWith(s, "=>", 0);
    NotStartsWith(s, "```", 0);
  }

  /**
   * A line whose first three patterns made it an element is no list item and
   * no link line: it closes an open list and is emitted as it stands.
   */
  lemma NormalTagged(ul: bool, line: string, key: string, h: string)
    requires Prepared(line) == h && h != [] && h[0] == '<' && '(' !in h
    ensures Normal(ul, line, key) == Emit(false, (if ul then [ListClose] else []) + [h], false)
  {
    TagLine(h);
    InlineInert(h);
    assert [] + (if ul then [ListClose] else []) == (if ul then [ListClose] else []);
    assert (if ul then [ListClose] else []) + [] == (if ul then [ListClose] else []);
  }

  /** A non-empty line that starts none of `#`, `*`, `>`, three backticks or `=>` becomes `<p>line</p>`. */
  lemma NormalParagraph(ul: bool, line: string, key: string)
    requires AddsParagraph(line) && '(' !in line
    ensures Normal(ul, line, key) == Emit(false, (if ul then [ListClose] else []) + ["<p>" + line + "</p>"], false)
  {
    var p := "<p>" + line + "</p>";
    assert p[0] == '<';
    TagLine(p);
    NormalTagged(ul, line, key, p);
  }

  /** A heading line becomes `<hN>text</hN>` and closes an open list. */
  lemma NormalHeading(ul: bool, n: nat, text: string, key: string)
    requires 1 <= n <= 6 && IsText(text) && '(' !in text
    ensures Normal(ul, Hashes(n) + " " + text, key) ==
      Emit(false, (if ul then [ListClose] else []) + [Element("h" + Digit(n), text)], false)
  {
    var line := Hashes(n) + " " + text;
    var h := Element("h" + Digit(n), text);
    assert !AddsParagraph(line) by {
      assert line[..1] == "#";
    }
    HeadingText(n, text);
    assert h[0] == '<';
    TagLine(h);
    NormalTagged(ul, line, key, h);
  }

  /** `> text` becomes `<blockquote>text</blockquote>` and closes an open list. */
  lemma NormalBlockquote(ul: bool, text: string, key: string)
    requires IsText(text) && '(' !in text
    ensures Normal(ul, "> " + text, key) ==
      Emit(false, (if ul then [ListClose] else []) + [Element("blockquote", text)], false)
  {
    var line := "> " + text;
    var h := Element("blockquote", text);
    assert !AddsParagraph(line) by {
      assert line[..1] == ">";
    }
    assert HashRun(line, 0) == 0;
    assert Paragraph(line) == line;
    assert HeadingMatch(line) == None;
    assert Headings(line) == line;
    BlockquoteText(text);
    assert Prepared(line) == h;
    assert h[0] == '<';
    NormalTagged(ul, line, key, h);
  }

  /** `* item` becomes `<li>item</li>`, preceded by `<ul>` when no list is open; the list stays open. */
  lemma NormalListItem(ul: bool, item: string, key: string)
    requires IsText(item) && '(' !in item
    ensures Normal(ul, "* " + item, key) ==
      Emit(true, (if ul then [] else [ListOpen]) + ["<li>" + item + "</li>"], false)
  {
    var line := "* " + item;
    assert !AddsParagraph(line) by {
      assert line[..1] == "*";
    }
    assert HashRun(line, 0) == 0;
    NotStartsWith(line, ">", 0);
    PreparedUnchanged(line);
    ListItemText(item);
    var li := "<li>" + item + "</li>";
    assert li[0] == '<';
    TagLine(li);
    InlineInert(li);
    assert (if ul then [] else [ListOpen]) + [] == (if ul then [] else [ListOpen]);
  }

  /** The steps of a link line up to the inline links: it is listed, so it closes nothing. */
  lemma LinkLineSteps(ul: bool, line: string, hit: LinkHit)
    requires StartsWith(line, "=>") && LinkMatch(line) == Some(hit)
    ensures Prepared(line) == line
    ensures LinkStep(ListStep(ul, line)) ==
      Pass(true, (if ul then [] else [LinksOpen]), "<li>" + GenLink(hit) + line[hit.end..] + "</li>")
  {
    assert line[0] == '=';
    assert !AddsParagraph(line);
    assert HashRun(line, 0) == 0;
    NotStartsWith(line, ">", 0);
    NotStartsWith(line, "*", 0);
    PreparedUnchanged(line);
    ListStepLinkLine(ul, line);
    assert [] + (if ul then [] else [LinksOpen]) == (if ul then [] else [LinksOpen]);
  }

  /** A line no preparing step matches is left as it is. */
  lemma PreparedUnchanged(line: string)
    requires !AddsParagraph(line) && HashRun(line, 0) == 0 && !StartsWith(line, ">")
    ensures Prepared(line) == line
  {
    assert Paragraph(line) == line;
    assert HeadingMatch(line) == None;
  }

  /** The list step leaves a link line alone and keeps the list state. */
  lemma ListStepLinkLine(ul: bool, line: string)
    requires !StartsWith(line, "*") && LinkMatch(line).Some?
    ensures ListStep(ul, line) == Pass(ul, [], line)
  {
    assert ListItem(line) == None;
  }

  /** A link line becomes its list item, once the inline links leave it alone. */
  lemma NormalLinked(ul: bool, line: string, key: string, hit: LinkHit, li: string)
    requires StartsWith(line, "=>") && LinkMatch(line) == Some(hit)
    requires li == "<li>" + GenLink(hit) + line[hit.end..] + "</li>" && '(' !in li
    ensures Normal(ul, line, key) == Emit(true, (if ul then [] else [LinksOpen]) + [li], false)
  {
    LinkLineSteps(ul, line, hit);
    assert li[0] == '<';
    TagLine(li);
    InlineInert(li);
  }

  /** A list item around an anchor whose parts hold no `(` holds none either. */
  lemma ItemNoParen(href: string, text: string)
    requires '(' !in href && '(' !in text
    ensures '(' !in "<li>" + Anchor(href, text) + "</li>"
  {
    var a := Anchor(href, text);
    assert forall i :: 0 <= i < |a| ==> a[i] != '(';
    var li := "<li>" + a + "</li>";
    assert forall i :: 0 <= i < |li| ==> li[i] != '(';
  }

  /**
   * `=> url text` becomes `<li><a href="url">text</a></li>`, preceded by the
   * link list's `<ul class="gemtext-links">` only when no list is open.
   */
  lemma NormalLinkLine(ul: bool, url: string, text: string, key: string)
    requires IsTarget(url) && IsText(text) && '(' !in url && '(' !in text
    ensures Normal(ul, "=> " + url + " " + text, key) ==
      Emit(true, (if ul then [] else [LinksOpen]) + ["<li>" + Anchor(url, text) + "</li>"], false)
  {
    var line := "=> " + url + " " + text;
    LinkLineText(url, text);
    var hit := LinkHit(url, Some(text), |line|);
    assert line[..2] == "=>";
    assert GenLink(hit) == Anchor(url, text);
    assert line[|line|..] == [];
    var li := "<li>" + Anchor(url, text) + "</li>";
    assert li == "<li>" + GenLink(hit) + line[hit.end..] + "</li>";
    ItemNoParen(url, text);
    NormalLinked(ul, line, key, hit, li);
  }

  /** `=> url` alone is labelled with the target itself. */
  lemma NormalLinkBare(ul: bool, url: string, key: string)
    requires IsTarget(url) && '(' !in url
    ensures Normal(ul, "=> " + url, key) ==
      Emit(true, (if ul then [] else [LinksOpen]) + ["<li>" + Anchor(url, url) + "</li>"], false)
  {
    var line := "=> " + url;
    LinkLineBare(url);
    var hit := LinkHit(url, None, |line|);
    assert line[..2] == "=>";
    assert GenLink(hit) == Anchor(url, url);
    assert line[|line|..] == [];
    var li := "<li>" + Anchor(url, url) + "</li>";
    assert li == "<li>" + GenLink(hit) + line[hit.end..] + "</li>";
    ItemNoParen(url, url);
    NormalLinked(ul, line, key, hit, li);
  }

  /**
   * Three backticks and more text open a pre block: the line becomes
   * `<pre alt="KEY"><code>` and the text after the backticks is dropped. Like
   * any line that is neither a list item nor a link line, it closes an open list.
   */
  lemma NormalFence(ul: bool, alt: string, key: string)
    requires alt != [] && '(' !in alt
    ensures Normal(ul, "```" + alt, key) == Emit(false, (if ul then [ListClose] else []) + [PreOpen(key)], true)
  {
    var line := "```" + alt;
    assert line[..3] == "```";
    assert line[0] == '`';
    assert !AddsParagraph(line);
    assert HashRun(line, 0) == 0;
    NotStartsWith(line, ">", 0);
    NotStartsWith(line, "*", 0);
    NotStartsWith(line, "=>", 0);
    assert Prepared(line) == line;
    InlineInert(line);
    assert [] + (if ul then [ListClose] else []) == (if ul then [ListClose] else []);
    assert (if ul then [ListClose] else []) + [] == (if ul then [ListClose] else []);
  }

  /** A normal-mode line inserts at most one list line before its own, and only a list marker. */
  lemma NormalShape(ul: bool, line: string, key: string)
    ensures 1 <= |Normal(ul, line, key).lines| <= 2
    ensures |Normal(ul, line, key).lines| == 2 ==> ListMarker(Normal(ul, line, key).lines[0])
  {
    var l := Prepared(line);
    var p := ListStep(ul, l);
    if ListItem(l).Some? {
      assert p.line[0] == '<';
      TagLine(p.line);
    } else if LinkMatch(l).Some? {
      assert p.inserted == [];
    }
  }

  // ---------------------------------------------------------------------
  // Pre blocks and the key table
  // ---------------------------------------------------------------------

  /** One of the lines the list state inserts. */
  predicate ListMarker(x: string) {
    x == ListOpen || x == ListClose || x == LinksOpen
  }

  /**
   * Outside a pre block, three backticks and more text open one: the block's
   * key is drawn, the list flag drops, and the key table is left alone.
   */
  lemma OpensBlock(s: State, alt: string, random: nat -> string)
    requires Keyed(s) && !s.pre && alt != [] && '(' !in alt
    ensures Step(s, "```" + alt, random) ==
      (State(false, true, CodeKey(random(s.blocks)), s.alts, s.blocks + 1),
       (if s.ul then [ListClose] else []) + [PreOpen(CodeKey(random(s.blocks)))])
  {
    NormalFence(s.ul, alt, CodeKey(random(s.blocks)));
  }

  /** Inside a pre block every line that is not a fence is emitted unchanged and changes nothing. */
  lemma PreVerbatim(s: State, line: string, random: nat -> string)
    requires Keyed(s) && s.pre && !IsFence(line)
    ensures Step(s, line, random) == (s, [line])
  {
  }

  /**
   * A fence inside a pre block closes it with `</code></pre>` and records the
   * text after its backticks as the alt text of the block's key; every other
   * key keeps its entry.
   */
  lemma PreCloses(s: State, line: string, random: nat -> string)
    requires Keyed(s) && s.pre && IsFence(line)
    ensures Step(s, line, random).1 == ["</code></pre>"]
    ensures !Step(s, line, random).0.pre && Step(s, line, random).0.ul == s.ul
    ensures Lookup(Step(s, line, random).0.alts, s.key) == Some(line[3..])
    ensures forall k :: k != s.key ==> Lookup(Step(s, line, random).0.alts, k) == Lookup(s.alts, k)
  {
    PutGet(s.alts, s.key, line[3..]);
    forall k | k != s.key
      ensures Lookup(Put(s.alts, s.key, line[3..]), k) == Lookup(s.alts, k)
    {
      PutOther(s.alts, s.key, line[3..], k);
    }
  }

  // ---------------------------------------------------------------------
  // Whole runs
  // ---------------------------------------------------------------------

  /** Appending a line runs one more step. */
  lemma RunSnoc(lines: seq<string>, line: string, random: nat -> string)
    ensures Run(lines + [line], random) ==
      (Step(Run(lines, random).0, line, random).0, Run(lines, random).1 + Step(Run(lines, random).0, line, random).1)
  {
    assert (lines + [line])[..|lines|] == lines;
  }

  /** Every step emits its line's own output, after at most one inserted list marker. */
  lemma StepShape(s: State, line: string, random: nat -> string)
    requires Keyed(s)
    ensures 1 <= |Step(s, line, random).1| <= 2
    ensures |Step(s, line, random).1| == 2 ==> ListMarker(Step(s, line, random).1[0])
  {
    if !s.pre {
      NormalShape(s.ul, line, CodeKey(random(s.blocks)));
    }
  }

  /** Each input line yields one output line of its own, plus at most one inserted list line. */
  lemma {:induction false} RunLength(lines: seq<string>, random: nat -> string)
    ensures |lines| <= |Run(lines, random).1| <= 2 * |lines|
  {
    if lines != [] {
      var init := lines[..|lines| - 1];
      RunLength(init, random);
      StepShape(Run(init, random).0, lines[|lines| - 1], random);
    }
  }

  /** The key table stays a dictionary: no key is stored twice. */
  lemma {:induction false} RunDistinct(lines: seq<string>, random: nat -> string)
    ensures DistinctKeys(Run(lines, random).0.alts)
  {
    if lines != [] {
      var init := lines[..|lines| - 1];
      RunDistinct(init, random);
      var s := Run(init, random).0;
      if s.pre && IsFence(lines[|lines| - 1]) {
        PutDistinct(s.alts, s.key, lines[|lines| - 1][3..]);
      }
    }
  }

  /** A run of one line is one step from the start. */
  lemma RunOne(l1: string, random: nat -> string)
    ensures Run([l1], random) == Step(Start, l1, random)
  {
    RunSnoc([], l1, random);
    assert [] + [l1] == [l1];
    assert [] + Step(Start, l1, random).1 == Step(Start, l1, random).1;
  }

  /** A run of two lines: the second step starts where the first one left the state. */
  lemma RunTwo(l1: string, l2: string, random: nat -> string, s1: State, o1: seq<string>, s2: State, o2: seq<string>)
    requires Keyed(s1) && Run([l1], random) == (s1, o1) && Step(s1, l2, random) == (s2, o2)
    ensures Run([l1, l2], random) == (s2, o1 + o2)
  {
    RunSnoc([l1], l2, random);
    assert [l1] + [l2] == [l1, l2];
  }

  /** A list item at the start opens the list. */
  lemma FirstItem(a: string, random: nat -> string)
    requires IsText(a) && '(' !in a
    ensures Run(["* " + a], random) == (Start.(ul := true), [ListOpen, "<li>" + a + "</li>"])
  {
    RunOne("* " + a, random);
    NormalListItem(false, a, CodeKey(random(0)));
    assert [ListOpen] + ["<li>" + a + "</li>"] == [ListOpen, "<li>" + a + "</li>"];
  }

  /** A list item opens the list, and the paragraph after it closes the list before itself. */
  lemma ListThenParagraph(a: string, b: string, random: nat -> string)
    requires IsText(a) && '(' !in a && AddsParagraph(b) && '(' !in b
    ensures Run(["* " + a, b], random) ==
      (Start, [ListOpen, "<li>" + a + "</li>", ListClose, "<p>" + b + "</p>"])
  {
    var li, p := "<li>" + a + "</li>", "<p>" + b + "</p>";
    FirstItem(a, random);
    ParagraphInList(b, random);
    RunTwo("* " + a, b, random, Start.(ul := true), [ListOpen, li], Start, [ListClose, p]);
    assert [ListOpen, li] + [ListClose, p] == [ListOpen, li, ListClose, p];
  }

  /** A paragraph inside an open list closes it before itself. */
  lemma ParagraphInList(b: string, random: nat -> string)
    requires AddsParagraph(b) && '(' !in b
    ensures Step(Start.(ul := true), b, random) == (Start, [ListClose, "<p>" + b + "</p>"])
  {
    NormalParagraph(true, b, CodeKey(random(0)));
    assert [ListClose] + ["<p>" + b + "</p>"] == [ListClose, "<p>" + b + "</p>"];
  }

  /**
   * A link line straight after a list item joins the open list: it inserts no
   * `<ul class="gemtext-links">` and no `</ul>`, and the list is still open
   * at the end of the input.
   */
  lemma ListThenLink(a: string, url: string, random: nat -> string)
    requires IsText(a) && '(' !in a && IsTarget(url) && '(' !in url
    ensures Run(["* " + a, "=> " + url], random) ==
      (Start.(ul := true), [ListOpen, "<li>" + a + "</li>", "<li>" + Anchor(url, url) + "</li>"])
  {
    var li, link := "<li>" + a + "</li>", "<li>" + Anchor(url, url) + "</li>";
    FirstItem(a, random);
    LinkInList(url, random);
    RunTwo("* " + a, "=> " + url, random, Start.(ul := true), [ListOpen, li], Start.(ul := true), [link]);
    assert [ListOpen, li] + [link] == [ListOpen, li, link];
  }

  /** A bare link line inside an open list adds its item and keeps the list open. */
  lemma LinkInList(url: string, random: nat -> string)
    requires IsTarget(url) && '(' !in url
    ensures Step(Start.(ul := true), "=> " + url, random) == (Start.(ul := true), ["<li>" + Anchor(url, url) + "</li>"])
  {
    NormalLinkBare(true, url, CodeKey(random(0)));
    assert [] + ["<li>" + Anchor(url, url) + "</li>"] == ["<li>" + Anchor(url, url) + "</li>"];
  }

  /** Three lines joined by newlines split back into those three lines. */
  lemma SplitThree(x: string, y: string, z: string)
    requires '\n' !in x && '\n' !in y && '\n' !in z
    ensures Split(x + "\n" + y + "\n" + z, '\n') == [x, y, z]
  {
    SplitNone(z, '\n');
    SplitFirst(y, '\n', z);
    SplitFirst(x, '\n', y + "\n" + z);
    assert x + "\n" + y + "\n" + z == x + "\n" + (y + "\n" + z);
    assert [x] + ([y] + [z]) == [x, y, z];
  }

  /** The state and output after opening a block and copying one line of it. */
  lemma RunOpenBlock(a: string, body: string, random: nat -> string)
    requires a != [] && '(' !in a && !IsFence(body)
    ensures Run(["```" + a, body], random) ==
      (State(false, true, CodeKey(random(0)), [], 1), [PreOpen(CodeKey(random(0))), body])
  {
    var key := CodeKey(random(0));
    var open := State(false, true, key, [], 1);
    FirstFence(a, random);
    PreVerbatim(open, body, random);
    RunTwo("```" + a, body, random, open, [PreOpen(key)], open, [body]);
    assert [PreOpen(key)] + [body] == [PreOpen(key), body];
  }

  /** A fence at the start opens the first block under the first key. */
  lemma FirstFence(a: string, random: nat -> string)
    requires a != [] && '(' !in a
    ensures Run(["```" + a], random) == (State(false, true, CodeKey(random(0)), [], 1), [PreOpen(CodeKey(random(0)))])
  {
    RunOne("```" + a, random);
    OpensBlock(Start, a, random);
    assert [] + [PreOpen(CodeKey(random(0)))] == [PreOpen(CodeKey(random(0)))];
  }

  /** A block with no closing fence keeps its placeholder key in the output. */
  lemma UnclosedBlock(a: string, body: string, random: nat -> string)
    requires a != [] && '(' !in a && '\n' !in a && '\n' !in body && !IsFence(body)
    ensures Converted("```" + a + "\n" + body, random) == PreOpen(CodeKey(random(0))) + "\n" + body
  {
    var f1 := "```" + a;
    assert '\n' !in f1;
    SplitNone(body, '\n');
    SplitFirst(f1, '\n', body);
    assert "```" + a + "\n" + body == f1 + ['\n'] + body;
    assert [f1] + [body] == [f1, body];
    RunOpenBlock(a, body, random);
    var key := CodeKey(random(0));
    assert Join([PreOpen(key), body], "\n") == PreOpen(key) + "\n" + body;
  }

  /** Opening a block, copying one line and closing it records the closing fence's text under the block's key. */
  lemma RunClosedBlock(a: string, body: string, b: string, random: nat -> string)
    requires a != [] && '(' !in a && !IsFence(body) && b != []
    ensures Run(["```" + a, body, "```" + b], random) ==
      (State(false, false, CodeKey(random(0)), [(CodeKey(random(0)), b)], 1),
       [PreOpen(CodeKey(random(0))), body, "</code></pre>"])
  {
    var f1, f2 := "```" + a, "```" + b;
    var key := CodeKey(random(0));
    RunOpenBlock(a, body, random);
    CloseFirst(key, b, random);
    RunSnoc([f1, body], f2, random);
    assert [f1, body] + [f2] == [f1, body, f2];
    assert [PreOpen(key), body] + ["</code></pre>"] == [PreOpen(key), body, "</code></pre>"];
  }

  /** The closing fence of the first block stores its text under the block's key. */
  lemma CloseFirst(key: string, b: string, random: nat -> string)
    requires key != [] && b != []
    ensures Step(State(false, true, key, [], 1), "```" + b, random) ==
      (State(false, false, key, [(key, b)], 1), ["</code></pre>"])
  {
    var f2 := "```" + b;
    assert f2[..3] == "```" && f2[3..] == b;
    assert Put([], key, b) == [(key, b)];
  }

  /** Replacing the key of a closed block puts its alt text into the opening tag and nowhere else. */
  lemma ResolveBlock(key: string, body: string, alt: string)
    requires key != [] && key[0] == '_' && '_' !in body
    ensures Resolve(Join([PreOpen(key), body, "</code></pre>"], "\n"), [(key, alt)]) ==
      "<pre alt=\"" + alt + "\"><code>\n" + body + "\n</code></pre>"
  {
    var joined := Join([PreOpen(key), body, "</code></pre>"], "\n");
    var head := "<pre alt=\"";
    var tail := body + "\n" + "</code></pre>";
    var rest := "\"><code>\n" + tail;
    assert [body, "</code></pre>"][1..] == ["</code></pre>"];
    assert Join([body, "</code></pre>"], "\n") == tail;
    assert joined == PreOpen(key) + "\n" + tail;
    assert joined == head + key + rest;
    assert "\n" + "</code></pre>" == "\n</code></pre>";
    assert head + alt + rest == "<pre alt=\"" + alt + "\"><code>\n" + body + "\n</code></pre>";
    NoLeadOccursBefore(head, key);
    ReplaceFirst(head, key, alt, rest);
    NoLeadOccurs(rest, key);
    ReplaceAbsent(rest, key, alt);
    assert Resolve(joined, [(key, alt)]) == Replace(joined, key, alt);
  }

  /**
   * A closed block takes the text after its closing fence as its alt text;
   * the text after the opening fence is dropped.
   */
  lemma ClosedBlock(a: string, body: string, b: string, random: nat -> string)
    requires a != [] && '(' !in a && '\n' !in a
    requires '\n' !in body && '_' !in body && !IsFence(body)
    requires b != [] && '\n' !in b
    ensures Converted(("```" + a) + "\n" + body + "\n" + ("```" + b), random) ==
      "<pre alt=\"" + b + "\"><code>\n" + body + "\n</code></pre>"
  {
    var f1, f2 := "```" + a, "```" + b;
    assert '\n' !in f1 && '\n' !in f2;
    SplitThree(f1, body, f2);
    RunClosedBlock(a, body, b, random);
    ResolveBlock(CodeKey(random(0)), body, b);
  }
}
