/**
 * The paginated index sample (samples/make_index.py): the posts newest
 * first, cut into pages of five, each page listed in Markdown, given its
 * navigation links, and rendered through the template as `index_N.html`.
 */
module MakeIndex {
  import opened Wrappers
  import opened Text
  import opened Failures
  import opened Grammar
  import opened Directives
  import opened Parsers
  import opened Wizard
  import opened Samples

  /** `PAGINATE_EVERY` */
  const PaginateEvery: nat := 5

  // ---------------------------------------------------------------------
  // Pagination
  // ---------------------------------------------------------------------

  /** `[s[x:x+n] for x in range(0, len(s), n)]` */
  function Chunks<T>(s: seq<T>, n: nat): seq<seq<T>>
    requires n > 0
    decreases |s|
  {
    if s == [] then []
    else if |s| <= n then [s]
    else [s[..n]] + Chunks(s[n..], n)
  }

  /** The pages one after the other. */
  function Concat<T>(pages: seq<seq<T>>): seq<T> {
    if pages == [] then [] else pages[0] + Concat(pages[1..])
  }

  /** The pages hold every entry once and in order. */
  lemma {:induction false} ChunksConcat<T>(s: seq<T>, n: nat)
    requires n > 0
    ensures Concat(Chunks(s, n)) == s
    decreases |s|
  {
    if |s| > n {
      ChunksConcat(s[n..], n);
      assert Chunks(s, n)[1..] == Chunks(s[n..], n);
      assert s[..n] + s[n..] == s;
    } else if s != [] {
      assert Concat([s]) == s + [];
    }
  }

  /** No page is empty, each holds at most `n`, and every page but the last holds exactly `n`. */
  lemma {:induction false} ChunksSizes<T>(s: seq<T>, n: nat)
    requires n > 0
    ensures forall i :: 0 <= i < |Chunks(s, n)| ==> 0 < |Chunks(s, n)[i]| <= n
    ensures forall i :: 0 <= i < |Chunks(s, n)| - 1 ==> |Chunks(s, n)[i]| == n
    decreases |s|
  {
    if |s| > n {
      ChunksSizes(s[n..], n);
      var r, t := Chunks(s, n), Chunks(s[n..], n);
      assert forall i :: 1 <= i < |r| ==> r[i] == t[i - 1];
    }
  }

  /** Pages of five: there are ⌈|s| / 5⌉ of them. */
  lemma {:induction false} ChunksCount<T>(s: seq<T>)
    ensures |Chunks(s, PaginateEvery)| == (|s| + 4) / 5
    decreases |s|
  {
    if |s| > 5 {
      ChunksCount(s[5..]);
    }
  }

  /** Page `k` (from 0) starts at entry `k * n`. */
  lemma {:induction false} ChunkStart<T>(s: seq<T>, n: nat, k: nat)
    requires n > 0 && k < |Chunks(s, n)|
    ensures k * n < |s|
    ensures Chunks(s, n)[k] == s[k * n..if k * n + n <= |s| then k * n + n else |s|]
    decreases k
  {
    if k > 0 {
      var t := Chunks(s[n..], n);
      assert Chunks(s, n)[k] == t[k - 1];
      ChunkStart(s[n..], n, k - 1);
      assert (k - 1) * n + n == k * n;
      assert s[n..][(k - 1) * n..] == s[k * n..];
    }
  }

  // ---------------------------------------------------------------------
  // Page numbers
  // ---------------------------------------------------------------------

  function DigitChar(d: nat): (c: char)
    requires d < 10
    ensures IsDigit(c) && c as int - '0' as int == d
  {
    ('0' as int + d) as char
  }

  /** `str(n)`: the decimal digits of `n`, without leading zeros. */
  function Decimal(n: nat): (r: string)
    ensures r != [] && forall i :: 0 <= i < |r| ==> IsDigit(r[i])
    ensures r[0] == '0' ==> n == 0
  {
    if n < 10 then [DigitChar(n)] else Decimal(n / 10) + [DigitChar(n % 10)]
  }

  /** The number a string of decimal digits denotes. */
  function DigitsValue(s: string): nat
    requires forall i :: 0 <= i < |s| ==> IsDigit(s[i])
  {
    if s == [] then 0
    else
      var d := s[|s| - 1] as int - '0' as int;
      assert IsDigit(s[|s| - 1]) && d >= 0;
      DigitsValue(s[..|s| - 1]) * 10 + d
  }

  /** Reading back the digits gives the number. */
  lemma {:induction false} DecimalValue(n: nat)
    ensures DigitsValue(Decimal(n)) == n
  {
    if n >= 10 {
      DecimalValue(n / 10);
      var r := Decimal(n);
      assert r[..|r| - 1] == Decimal(n / 10);
    } else {
      assert Decimal(n)[..0] == [];
    }
  }

  /** `'index_{}.html'.format(n)` */
  function IndexName(n: nat): string {
    "index_" + Decimal(n) + ".html"
  }

  /** Different page numbers name different files. */
  lemma IndexNamesDistinct(m: nat, n: nat)
    requires m != n
    ensures IndexName(m) != IndexName(n)
  {
    if IndexName(m) == IndexName(n) {
      var a, b := IndexName(m), IndexName(n);
      assert a[6..|a| - 5] == Decimal(m);
      assert b[6..|b| - 5] == Decimal(n);
      DecimalValue(m);
      DecimalValue(n);
    }
  }

  // ---------------------------------------------------------------------
  // Navigation
  // ---------------------------------------------------------------------

  /** The `<!--: content -->` directive that opens every navigation text. */
  const ContentDirective: string := "<!--: content -->"

  /** The links after the directive, as the three branches write them. */
  function NavLinks(n: PageNum, total: nat): string {
    if n == 1 then "\n\n* " + Decimal(n) + "\n* [Next](" + IndexName(n + 1) + ")\n"
    else if n == total then "\n\n* [Previous](" + IndexName(n - 1) + ")\n* " + Decimal(n) + "\n"
    else "\n\n* [Previous](" + IndexName(n - 1) + ")\n* " + Decimal(n) + "\n* [Next](" + IndexName(n + 1) + ")\n"
  }

  /** `page_contents` before it is rendered: the list's `content`, then the links. */
  function Navigation(n: PageNum, total: nat): string {
    ContentDirective + NavLinks(n, total)
  }

  /** A navigation block read as its parts: the neighbouring pages it links to and its own number. */
  datatype Nav = Nav(previous: Option<nat>, current: nat, next: Option<nat>)

  /** The links a navigation block spells out, item by item. */
  function NavText(nav: Nav): string {
    "\n\n" +
    (if nav.previous.Some? then "* [Previous](" + IndexName(nav.previous.value) + ")\n" else "") +
    "* " + Decimal(nav.current) + "\n" +
    (if nav.next.Some? then "* [Next](" + IndexName(nav.next.value) + ")\n" else "")
  }

  /**
   * `nav` is what the links of page `n` of `total` say: its own number,
   * the previous page exactly when it is not the first, the next page
   * exactly when it is the first or not the last.
   */
  predicate SpellsNav(n: PageNum, total: nat, nav: Nav) {
    NavLinks(n, total) == NavText(nav) && nav.current == n &&
    (nav.previous.Some? <==> n > 1) && (nav.previous.Some? ==> nav.previous.value == n - 1) &&
    (nav.next.Some? <==> n == 1 || n < total) && (nav.next.Some? ==> nav.next.value == n + 1)
  }

  /**
   * Every page's links read as a navigation block of that shape: a lone
   * first page still links on to `index_2.html`.
   */
  lemma NavigationLinks(n: PageNum, total: nat)
    requires n <= total
    ensures exists nav: Nav :: SpellsNav(n, total, nav)
  {
    var d := Decimal(n);
    if n == 1 {
      var nav := Nav(None, n, Some(n + 1));
      FirstLinks(d, IndexName(n + 1));
      assert SpellsNav(n, total, nav);
    } else if n == total {
      var nav := Nav(Some(n - 1), n, None);
      LastLinks(IndexName(n - 1), d);
      assert SpellsNav(n, total, nav);
    } else {
      var nav := Nav(Some(n - 1), n, Some(n + 1));
      MiddleLinks(IndexName(n - 1), d, IndexName(n + 1));
      assert SpellsNav(n, total, nav);
    }
  }

  lemma FirstLinks(d: string, next: string)
    ensures "\n\n* " + d + "\n* [Next](" + next + ")\n" == "\n\n" + "" + "* " + d + "\n" + ("* [Next](" + next + ")\n")
  {
    assert "\n\n* " == "\n\n" + "* " && "\n* [Next](" == "\n" + "* [Next](";
  }

  lemma LastLinks(prev: string, d: string)
    ensures "\n\n* [Previous](" + prev + ")\n* " + d + "\n" == "\n\n" + ("* [Previous](" + prev + ")\n") + "* " + d + "\n" + ""
  {
    assert "\n\n* [Previous](" == "\n\n" + "* [Previous](" && ")\n* " == ")\n" + "* ";
  }

  lemma MiddleLinks(prev: string, d: string, next: string)
    ensures "\n\n* [Previous](" + prev + ")\n* " + d + "\n* [Next](" + next + ")\n" ==
      "\n\n" + ("* [Previous](" + prev + ")\n") + "* " + d + "\n" + ("* [Next](" + next + ")\n")
  {
    assert "\n\n* [Previous](" == "\n\n" + "* [Previous](" && ")\n* " == ")\n" + "* ";
    assert "\n* [Next](" == "\n" + "* [Next](";
  }

  /** A one-page index links to a second page that the script never writes. */
  lemma OnlyPageLinksAhead()
    ensures NavLinks(1, 1) == "\n\n* " + Decimal(1) + "\n* [Next](" + IndexName(2) + ")\n"
  {
  }

  /** Page numbers and the links between pages hold no `<`. */
  lemma NoLessThanInDecimal(n: nat)
    ensures '<' !in Decimal(n)
  {
    var d := Decimal(n);
    assert forall i :: 0 <= i < |d| ==> d[i] != '<';
  }

  lemma NoLessThanInName(n: nat)
    ensures '<' !in IndexName(n)
  {
    NoLessThanInDecimal(n);
    assert '<' !in "index_" && '<' !in ".html";
  }

  lemma NoLessThanInLinks(n: PageNum, total: nat)
    ensures '<' !in NavLinks(n, total)
  {
    NoLessThanInDecimal(n);
    NoLessThanInName(n + 1);
    if n > 1 {
      NoLessThanInName(n - 1);
    }
    assert '<' !in "\n\n* " && '<' !in "\n* [Next](" && '<' !in ")\n" && '<' !in "\n\n* [Previous](" && '<' !in ")\n* " && '<' !in "\n";
  }

  /** The directive of the navigation text is ` content `, which is no assignment and reads back `content`. */
  lemma ContentLookup(vars: Store, arith: string -> EvalResult)
    requires ContentName in vars
    ensures SubFunc(vars, " content ", arith) == (Ok(vars[ContentName]), vars)
  {
    ContentNoAssignment();
    StripContent();
  }

  lemma ContentNoAssignment()
    ensures !IsAssignment(" content ")
  {
    var q := " content ";
    assert forall i :: 0 <= i < |q| ==> q[i] in {' ', 'c', 'o', 'n', 't', 'e'};
  }

  lemma StripContent()
    ensures Strip(" content ") == ContentName
  {
    assert 'c' !in Whitespace && 't' !in Whitespace;
    StripPadded("content");
    assert " " + "content" + " " == " content ";
  }

  /** One space on either side of a word is stripped away. */
  lemma StripPadded(w: string)
    requires w != [] && w[0] !in Whitespace && w[|w| - 1] !in Whitespace
    ensures Strip(" " + w + " ") == w
  {
    var s := " " + w + " ";
    assert ' ' in Whitespace;
    assert s[1..] == w + " ";
    assert TrimLeft(w + " ", Whitespace) == w + " ";
    assert (w + " ")[..|w|] == w;
    assert TrimRight(w, Whitespace) == w;
  }

  lemma ContentDirectiveParts()
    ensures ContentDirective == HtmlComment.open + " content " + HtmlComment.close
    ensures forall k :: 1 <= k < 9 ==> !OccursAt(" content " + HtmlComment.close, HtmlComment.close, k)
  {
    NoEarlyClose(" content ", "-->");
  }

  /**
   * Rendering the navigation text with the list page's store puts that
   * page's `content` in front of the links and changes no variable.
   */
  lemma NavigationRendered(vars: Store, n: PageNum, total: nat, arith: string -> EvalResult)
    requires ContentName in vars
    ensures Subst(vars, Navigation(n, total), HtmlComment, SubFn(arith)) ==
      (Ok(vars[ContentName] + NavLinks(n, total)), vars)
  {
    var links := NavLinks(n, total);
    ContentDirectiveParts();
    SubstDirective(vars, " content ", links, HtmlComment, SubFn(arith));
    ContentLookup(vars, arith);
    NoLessThanInLinks(n, total);
    NoLeadOccurs(links, HtmlComment.open);
    SubstPlain(vars, links, HtmlComment, SubFn(arith));
  }

  // ---------------------------------------------------------------------
  // The pages
  // ---------------------------------------------------------------------

  /** `'\n'.join(entries)`: the Markdown list of one page. */
  function ListText(page: seq<Entry>): string {
    Join(EntryLines(page), "\n")
  }

  /**
   * One index page: the list processed as Markdown, the navigation text
   * rendered with that store, the result processed as Markdown again, and
   * the template rendered with the store that leaves.
   */
  function IndexPage(env: Env, template: string, page: seq<Entry>, n: PageNum, total: nat): Result<string, Error> {
    match Process(env, "markdown", ListText(page), false)
    case Raised(e, _) => Err(e)
    case Done(listed) =>
      match Render(env, Navigation(n, total), listed)
      case Err(e) => Err(e)
      case Ok(nav) => RenderMarkdown(env, template, nav)
  }

  /**
   * With a list free of directives, the navigation page is the converted
   * list followed by the links, and the page is the template rendered with
   * the conversion of that.
   */
  lemma IndexPageOfPlainList(env: Env, template: string, page: seq<Entry>, n: PageNum, total: nat)
    requires !Occurs(ListText(page), HtmlComment.open)
    ensures IndexPage(env, template, page, n, total) ==
      RenderMarkdown(env, template, env.markdown(ListText(page)) + NavLinks(n, total))
  {
    ProcessPlainMarkdown(env, ListText(page));
    var listed := map[TimestampName := env.timestamp][ContentName := env.markdown(ListText(page))];
    NavigationRendered(listed, n, total, env.arith);
  }

  /** Page `n` goes to `index_n.html`. */
  function IndexNamer(): (seq<Entry>, PageNum) -> string {
    (page: seq<Entry>, n: PageNum) => IndexName(n)
  }

  /** The page the loop body writes, with `total` pages in all. */
  function IndexMaker(env: Env, template: string, total: nat): (seq<Entry>, PageNum) -> Result<string, Error> {
    (page: seq<Entry>, n: PageNum) => IndexPage(env, template, page, n, total)
  }

  /** The `for page in blog_split` loop with its `page_num` counter. */
  function IndexRun(env: Env, template: string, pages: seq<seq<Entry>>): Run {
    RunOf(pages, IndexNamer(), IndexMaker(env, template, |pages|), |pages|)
  }

  /**
   * Page `i` of a run is written to `index_i.html` and holds the rendering
   * of the `i`-th slice; no two pages share a file name.
   */
  lemma IndexFiles(env: Env, template: string, pages: seq<seq<Entry>>)
    ensures var w := IndexRun(env, template, pages).written;
      forall i :: 0 <= i < |w| ==>
        w[i].0 == IndexName(i + 1) && IndexPage(env, template, pages[i], i + 1, |pages|) == Ok(w[i].1)
    ensures var w := IndexRun(env, template, pages).written;
      forall i, j :: 0 <= i < j < |w| ==> w[i].0 != w[j].0
  {
    var w := IndexRun(env, template, pages).written;
    forall i | 0 <= i < |w|
      ensures w[i].0 == IndexName(i + 1) && IndexPage(env, template, pages[i], i + 1, |pages|) == Ok(w[i].1)
    {
      assert IndexNamer()(pages[i], i + 1) == IndexName(i + 1);
      assert IndexMaker(env, template, |pages|)(pages[i], i + 1) == IndexPage(env, template, pages[i], i + 1, |pages|);
    }
    forall i, j | 0 <= i < j < |w|
      ensures w[i].0 != w[j].0
    {
      IndexNamesDistinct(i + 1, j + 1);
    }
  }

  /**
   * The whole script: the posts' entries, newest first, in pages of five,
   * each page written in turn; a failing post stops it before any page.
   */
  method MakeIndexPages(env: Env, listing: seq<string>, read: string -> string, key: string -> int,
                        template: string) returns (run: Run)
    ensures var es := Entries(BlogFiles(listing), PostReader(env, read));
      es.Err? ==> run == Run([], Some(es.error))
    ensures var es := Entries(BlogFiles(listing), PostReader(env, read));
      es.Ok? ==> run == IndexRun(env, template, Chunks(NewestFirst(es.value, key), PaginateEvery))
  {
    var files := BlogFiles(listing);
    var entries := CollectEntries(files, PostReader(env, read));
    if entries.Err? {
      return Run([], Some(entries.error));
    }
    var sorted := SortByDate(entries.value, key);
    sorted := Reversed(sorted);
    var split := Chunks(sorted, PaginateEvery);
    run := WriteAll(split, IndexNamer(), IndexMaker(env, template, |split|));
  }

  /**
   * The index lists every post once, newest first, across as many pages as
   * five-post slices need.
   */
  lemma IndexHoldsEveryPost(es: seq<Entry>, key: string -> int)
    ensures Concat(Chunks(NewestFirst(es, key), PaginateEvery)) == NewestFirst(es, key)
    ensures multiset(Concat(Chunks(NewestFirst(es, key), PaginateEvery))) == multiset(es)
    ensures |Chunks(NewestFirst(es, key), PaginateEvery)| == (|es| + 4) / 5
  {
    NewestFirstOrder(es, key);
    assert |NewestFirst(es, key)| == |multiset(es)| == |es|;
    ChunksConcat(NewestFirst(es, key), PaginateEvery);
    ChunksCount(NewestFirst(es, key));
    NewestFirstOrder(es, key);
  }
}
