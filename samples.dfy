/**
 * What the two sample scripts share (samples/make_index.py and
 * samples/make_tags.py): which files of the blog directory are posts, the
 * entry each post contributes, the newest-first order, and the Markdown line
 * that lists an entry.
 *
 * The directory listing and the file contents are parameters; the date key
 * that `datetime.strptime(date, "%Y-%m-%d")` computes is a parameter too.
 */
module Samples {
  import opened Wrappers
  import opened Text
  import opened Failures
  import opened Grammar
  import opened Directives
  import opened Parsers
  import opened Wizard

  /** `BLOG_DIR` */
  const BlogDir: string := "source/blog"

  /**
   * The `blog_files` filter: the lower-cased name ends in `.md` or `.rst`,
   * and its stem does not start with `index`.
   */
  predicate IsPost(name: string) {
    var low := Lower(name);
    (EndsWith(low, ".md") || EndsWith(low, ".rst")) && !StartsWith(SplitExt(low).0, "index")
  }

  /** `blog_files`: the posts of the listing, in listing order. */
  function BlogFiles(listing: seq<string>): (r: seq<string>)
    ensures |r| <= |listing|
    ensures forall f :: f in r <==> f in listing && IsPost(f)
  {
    if listing == [] then []
    else
      assert forall f :: f in listing <==> f == listing[0] || f in listing[1..];
      (if IsPost(listing[0]) then [listing[0]] else []) + BlogFiles(listing[1..])
  }

  /** Filtering two listings one after the other is filtering their concatenation. */
  lemma {:induction false} BlogFilesAppend(a: seq<string>, b: seq<string>)
    ensures BlogFiles(a + b) == BlogFiles(a) + BlogFiles(b)
  {
    if a == [] {
      assert a + b == b;
    } else {
      assert (a + b)[1..] == a[1..] + b;
      BlogFilesAppend(a[1..], b);
    }
  }

  /** A listing of posts only is kept whole and in order. */
  lemma {:induction false} BlogFilesOfPosts(listing: seq<string>)
    requires forall i :: 0 <= i < |listing| ==> IsPost(listing[i])
    ensures BlogFiles(listing) == listing
  {
    if listing != [] {
      BlogFilesOfPosts(listing[1..]);
    }
  }

  /** One post of a script's list: `(date, title, file_name)`. */
  datatype Entry = Entry(date: string, title: string, name: string)

  /** What ends a script early: an exception of the page pass, or a `KeyError`. */
  datatype Stop = Exception(error: Error) | KeyError(key: string)

  /** `os.path.join(BLOG_DIR, f)` */
  function PostPath(f: string): string {
    BlogDir + "/" + f
  }

  /**
   * `m.process(content, ignore_content=True)` after
   * `m.switch_parser(Wizard.converters[file_ext])`: the extension selects the
   * adapter, and one the table lacks is a `KeyError`.
   */
  function PostVars(env: Env, f: string, text: string): (r: Result<Store, Stop>)
    ensures Extension(f) !in Converters ==> r == Err(KeyError(Extension(f)))
    ensures Extension(f) in Converters ==>
      (r.Ok? <==> Process(env, Converters[Extension(f)], text, true).Done?)
  {
    var ext := Extension(f);
    if ext !in Converters then Err(KeyError(ext))
    else
      match Process(env, Converters[ext], text, true)
      case Raised(e, _) => Err(Exception(e))
      case Done(vars) => Ok(vars)
  }

  /**
   * `date` and `title` read straight from the store (a `KeyError` when
   * either is missing), and the file name without its extension.
   */
  function EntryOf(vars: Store, f: string): (r: Result<Entry, Stop>)
    ensures r.Ok? <==> "date" in vars && "title" in vars
    ensures r.Ok? ==> r.value.date == vars["date"] && r.value.title == vars["title"]
    ensures r.Ok? ==> r.value.name + SplitExt(f).1 == f
  {
    if "date" !in vars then Err(KeyError("date"))
    else if "title" !in vars then Err(KeyError("title"))
    else Ok(Entry(vars["date"], vars["title"], SplitExt(f).0))
  }

  /** The entry a post contributes, or what stops the script at that post. */
  function PostEntry(env: Env, f: string, read: string -> string): Result<Entry, Stop> {
    match PostVars(env, f, read(PostPath(f)))
    case Err(s) => Err(s)
    case Ok(vars) => EntryOf(vars, f)
  }

  /**
   * What the posts give, in listing order, or the first failure: the list
   * succeeds exactly when every post does, and then holds each post's own
   * result at its position.
   */
  function Entries<T>(files: seq<string>, post: string -> Result<T, Stop>): (r: Result<seq<T>, Stop>)
    ensures r.Ok? <==> forall i :: 0 <= i < |files| ==> post(files[i]).Ok?
    ensures r.Ok? ==> |r.value| == |files| && (forall i :: 0 <= i < |files| ==> r.value[i] == post(files[i]).value)
  {
    if files == [] then Ok([])
    else
      var n := |files| - 1;
      assert forall i :: 0 <= i < n ==> files[..n][i] == files[i];
      match Entries(files[..n], post)
      case Err(s) => Err(s)
      case Ok(es) =>
        match post(files[n])
        case Err(s) => Err(s)
        case Ok(e) => Ok(es + [e])
  }

  /** The first post that fails stops the whole list with its own failure. */
  lemma {:induction false} EntriesStop<T>(files: seq<string>, post: string -> Result<T, Stop>, i: nat)
    requires i < |files| && Entries(files[..i], post).Ok? && post(files[i]).Err?
    ensures Entries(files, post) == Err(post(files[i]).error)
    decreases |files|
  {
    var n := |files| - 1;
    if n > i {
      assert files[..n][..i] == files[..i] && files[..n][i] == files[i];
      EntriesStop(files[..n], post, i);
    } else {
      assert files[..n] == files[..i];
    }
  }

  /** How each post of the index script is read: its `(date, title, file_name)` or what stops the script. */
  function PostReader(env: Env, read: string -> string): string -> Result<Entry, Stop> {
    f => PostEntry(env, f, read)
  }

  /** The loop over `blog_files` that appends what each post gives. */
  method CollectEntries<T>(files: seq<string>, post: string -> Result<T, Stop>) returns (r: Result<seq<T>, Stop>)
    ensures r == Entries(files, post)
  {
    var entries: seq<T> := [];
    var i := 0;
    while i < |files|
      invariant 0 <= i <= |files|
      invariant Entries(files[..i], post) == Ok(entries)
    {
      var f := files[i];
      var e := post(f);
      if e.Err? {
        EntriesStop(files, post, i);
        return Err(e.error);
      }
      entries := entries + [e.value];
      assert files[..i + 1][..i] == files[..i];
      i := i + 1;
    }
    assert files[..i] == files;
    r := Ok(entries);
  }

  // ---------------------------------------------------------------------
  // Newest first
  // ---------------------------------------------------------------------

  /** Dates never decrease along the list. */
  predicate Ascending(s: seq<Entry>, key: string -> int) {
    forall i, j :: 0 <= i < j < |s| ==> key(s[i].date) <= key(s[j].date)
  }

  /** Dates never increase along the list. */
  predicate Descending(s: seq<Entry>, key: string -> int) {
    forall i, j :: 0 <= i < j < |s| ==> key(s[i].date) >= key(s[j].date)
  }

  /** `e` placed after every element of `t` whose date is not later than its own. */
  function InsertByDate(e: Entry, t: seq<Entry>, key: string -> int): seq<Entry>
    decreases |t|
  {
    if t == [] then [e]
    else if key(t[|t| - 1].date) <= key(e.date) then t + [e]
    else InsertByDate(e, t[..|t| - 1], key) + [t[|t| - 1]]
  }

  /** Inserting into a sorted list keeps it sorted and adds exactly the one entry. */
  lemma {:induction false} InsertSorted(e: Entry, t: seq<Entry>, key: string -> int)
    requires Ascending(t, key)
    ensures var r := InsertByDate(e, t, key);
      |r| == |t| + 1 && multiset(r) == multiset(t) + multiset{e} && Ascending(r, key)
    decreases |t|
  {
    if t != [] && key(t[|t| - 1].date) > key(e.date) {
      var n := |t| - 1;
      InsertSorted(e, t[..n], key);
      InsertBounded(e, t[..n], key, key(t[n].date));
      AppendAscending(InsertByDate(e, t[..n], key), t[n], key);
      assert t == t[..n] + [t[n]];
    } else if t != [] {
      AppendAscending(t, e, key);
    }
  }

  /** A date no entry of `t` nor `e` exceeds bounds every entry of the insertion. */
  lemma {:induction false} InsertBounded(e: Entry, t: seq<Entry>, key: string -> int, b: int)
    requires key(e.date) <= b && forall j :: 0 <= j < |t| ==> key(t[j].date) <= b
    ensures forall i :: 0 <= i < |InsertByDate(e, t, key)| ==> key(InsertByDate(e, t, key)[i].date) <= b
    decreases |t|
  {
    if t != [] && key(t[|t| - 1].date) > key(e.date) {
      var n := |t| - 1;
      InsertBounded(e, t[..n], key, b);
      var u := InsertByDate(e, t[..n], key);
      var r := u + [t[n]];
      assert InsertByDate(e, t, key) == r;
      assert forall i :: 0 <= i < |u| ==> r[i] == u[i];
      assert r[|u|] == t[n];
    } else if t != [] {
      var r := t + [e];
      assert InsertByDate(e, t, key) == r;
      assert forall i :: 0 <= i < |t| ==> r[i] == t[i];
    }
  }

  lemma AppendAscending(u: seq<Entry>, x: Entry, key: string -> int)
    requires Ascending(u, key) && forall i :: 0 <= i < |u| ==> key(u[i].date) <= key(x.date)
    ensures Ascending(u + [x], key)
  {
    var r := u + [x];
    forall i, j | 0 <= i < j < |r|
      ensures key(r[i].date) <= key(r[j].date)
    {
      if j == |u| {
        assert r[i] == u[i] && r[j] == x;
      } else {
        assert r[i] == u[i] && r[j] == u[j];
      }
    }
  }

  /** `list.sort(key=…)`: the entries ordered by their date key, each one kept. */
  function SortByDate(s: seq<Entry>, key: string -> int): (r: seq<Entry>)
    ensures multiset(r) == multiset(s)
    ensures Ascending(r, key)
  {
    if s == [] then []
    else
      var n := |s| - 1;
      assert s == s[..n] + [s[n]];
      var t := SortByDate(s[..n], key);
      InsertSorted(s[n], t, key);
      InsertByDate(s[n], t, key)
  }

  /** `list.reverse()` */
  function Reversed<T>(s: seq<T>): (r: seq<T>)
    ensures |r| == |s| && forall i :: 0 <= i < |s| ==> r[i] == s[|s| - 1 - i]
  {
    if s == [] then [] else [s[|s| - 1]] + Reversed(s[..|s| - 1])
  }

  /** The scripts' order: sorted by date, then reversed. */
  function NewestFirst(s: seq<Entry>, key: string -> int): seq<Entry> {
    Reversed(SortByDate(s, key))
  }

  /** Newest first holds the same entries, each as often, with dates never increasing. */
  lemma NewestFirstOrder(s: seq<Entry>, key: string -> int)
    ensures multiset(NewestFirst(s, key)) == multiset(s)
    ensures Descending(NewestFirst(s, key), key)
  {
    ReversedMultiset(SortByDate(s, key));
    ReversedDescending(SortByDate(s, key), key);
  }

  lemma ReversedDescending(a: seq<Entry>, key: string -> int)
    requires Ascending(a, key)
    ensures Descending(Reversed(a), key)
  {
    var r := Reversed(a);
    forall i, j | 0 <= i < j < |r|
      ensures key(r[i].date) >= key(r[j].date)
    {
      var x, y := |a| - 1 - j, |a| - 1 - i;
      assert r[i] == a[y] && r[j] == a[x] && x < y;
    }
  }

  lemma {:induction false} ReversedMultiset<T>(s: seq<T>)
    ensures multiset(Reversed(s)) == multiset(s)
  {
    if s != [] {
      var n := |s| - 1;
      ReversedMultiset(s[..n]);
      assert s == s[..n] + [s[n]];
    }
  }

  // ---------------------------------------------------------------------
  // The line that lists an entry
  // ---------------------------------------------------------------------

  /** `'* **{}** - [{}]({}.html)'.format(date, title, file_name)` */
  function EntryLine(e: Entry): string {
    "* **" + e.date + "** - [" + e.title + "](" + e.name + ".html)"
  }

  /** The lines of a list of entries, one per entry and in the same order. */
  function EntryLines(es: seq<Entry>): (r: seq<string>)
    ensures |r| == |es| && forall i :: 0 <= i < |es| ==> r[i] == EntryLine(es[i])
  {
    seq(|es|, i requires 0 <= i < |es| => EntryLine(es[i]))
  }

  /** The loop that appends one formatted line per entry. */
  method FormatEntries(es: seq<Entry>) returns (lines: seq<string>)
    ensures lines == EntryLines(es)
  {
    lines := [];
    for i := 0 to |es|
      invariant lines == EntryLines(es[..i])
    {
      lines := lines + [EntryLine(es[i])];
      assert es[..i + 1][..i] == es[..i];
    }
    assert es[..|es|] == es;
  }

  /**
   * The link of a post's entry names the page `generate_from_path` writes
   * for that post when it converts to `.html`: the listed line ends with
   * `(` + that name + `)`.
   */
  lemma LinkNamesBuiltPage(vars: Store, f: string)
    requires EntryOf(vars, f).Ok?
    ensures EntryOf(vars, f).value.name + ".html" == HtmlName(f)
    ensures EndsWith(EntryLine(EntryOf(vars, f).value), "(" + HtmlName(f) + ")")
  {
    var line := EntryLine(EntryOf(vars, f).value);
    var tail := "(" + HtmlName(f) + ")";
    assert line == "* **" + vars["date"] + "** - [" + vars["title"] + "]" + tail;
    assert line[|line| - |tail|..] == tail;
  }

  // ---------------------------------------------------------------------
  // Pages
  // ---------------------------------------------------------------------

  /** What a script leaves behind: the pages it wrote, in order, and what stopped it, if anything. */
  datatype Run = Run(written: seq<(string, string)>, stopped: Option<Stop>)

  /** A loop counter that starts at 1. */
  type PageNum = n: nat | 1 <= n witness 1

  /**
   * The pages the first `k` turns of a writing loop leave: turn `i` (from 1)
   * writes `make(items[i - 1], i)` to `name(items[i - 1], i)`, and the first
   * exception stops the loop with nothing written for that turn or after.
   */
  function RunOf<T>(items: seq<T>, name: (T, PageNum) -> string, make: (T, PageNum) -> Result<string, Error>,
                    k: nat): (r: Run)
    requires k <= |items|
    ensures |r.written| <= k && (r.stopped.None? ==> |r.written| == k)
    ensures forall i :: 0 <= i < |r.written| ==>
      r.written[i].0 == name(items[i], i + 1) && make(items[i], i + 1) == Ok(r.written[i].1)
    ensures r.stopped.Some? ==>
      |r.written| < k && r.stopped.value.Exception? &&
      make(items[|r.written|], |r.written| + 1) == Err(r.stopped.value.error)
  {
    if k == 0 then Run([], None)
    else
      var prev := RunOf(items, name, make, k - 1);
      if prev.stopped.Some? then prev
      else
        match make(items[k - 1], k)
        case Err(e) => Run(prev.written, Some(Exception(e)))
        case Ok(html) => Run(prev.written + [(name(items[k - 1], k), html)], None)
  }

  /** Once a turn fails, no later turn writes anything. */
  lemma {:induction false} StoppedStays<T>(items: seq<T>, name: (T, PageNum) -> string,
                                          make: (T, PageNum) -> Result<string, Error>, k: nat, m: nat)
    requires k <= m <= |items| && RunOf(items, name, make, k).stopped.Some?
    ensures RunOf(items, name, make, m) == RunOf(items, name, make, k)
    decreases m - k
  {
    if m > k {
      StoppedStays(items, name, make, k, m - 1);
    }
  }

  /** A loop that writes one page per item, counting the turns from 1, until an exception. */
  method WriteAll<T>(items: seq<T>, name: (T, PageNum) -> string, make: (T, PageNum) -> Result<string, Error>)
    returns (run: Run)
    ensures run == RunOf(items, name, make, |items|)
  {
    var written: seq<(string, string)> := [];
    var count := 0;
    while count < |items|
      invariant 0 <= count <= |items|
      invariant RunOf(items, name, make, count) == Run(written, None)
    {
      var item := items[count];
      count := count + 1;
      var page := make(item, count);
      if page.Err? {
        StoppedStays(items, name, make, count, |items|);
        return Run(written, Some(Exception(page.error)));
      }
      written := written + [(name(item, count), page.value)];
    }
    run := Run(written, None);
  }

  /** `m.render(text, vars)`: the `<!--:…-->` pass over `text` with the given store. */
  function Render(env: Env, text: string, vars: Store): Result<string, Error> {
    Subst(vars, text, HtmlComment, SubFn(env.arith)).0
  }

  /**
   * `m.process(text)` with the Markdown adapter selected, then
   * `m.render(template, …)` with the store it leaves.
   */
  function RenderMarkdown(env: Env, template: string, text: string): Result<string, Error> {
    match Process(env, "markdown", text, false)
    case Raised(e, _) => Err(e)
    case Done(vars) => Render(env, template, vars)
  }

  /**
   * Markdown without any `<!--:` leaves a store holding only the timestamp
   * and the converted text as `content`.
   */
  lemma ProcessPlainMarkdown(env: Env, text: string)
    requires !Occurs(text, HtmlComment.open)
    ensures Process(env, "markdown", text, false) ==
      Done(map[TimestampName := env.timestamp][ContentName := env.markdown(text)])
  {
    SubstPlain(map[TimestampName := env.timestamp], text, HtmlComment, SubFn(env.arith));
  }
}
