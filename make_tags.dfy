/**
 * The tag pages sample (samples/make_tags.py): each post is filed under
 * every tag its space-separated `tags` variable names (`unsorted` when it
 * names none), each tag's posts are put newest first, and each tag gets a
 * Markdown page rendered through the template as `tag_NAME.html`.
 */
module MakeTags {
  import opened Wrappers
  import opened Text
  import opened Failures
  import opened Grammar
  import opened Parsers
  import opened Wizard
  import opened Samples

  /** `TAG_PREFIX` */
  const TagPrefix: string := "tag_"

  /** The tag of a post whose `tags` variable is empty or unset. */
  const Unsorted: string := "unsorted"

  // ---------------------------------------------------------------------
  // The tags of one post
  // ---------------------------------------------------------------------

  /** Each piece stripped of surrounding whitespace. */
  function StripAll(parts: seq<string>): (r: seq<string>)
    ensures |r| == |parts| && forall i :: 0 <= i < |parts| ==> r[i] == Strip(parts[i])
  {
    seq(|parts|, i requires 0 <= i < |parts| => Strip(parts[i]))
  }

  /**
   * `page_tag_list`: `unsorted` for a value that strips to "", otherwise the
   * stripped value split at every single space, each piece stripped.
   */
  function TagList(tags: string): (r: seq<string>)
    ensures |r| >= 1
  {
    var t := Strip(tags);
    if t == "" then [Unsorted] else StripAll(Split(t, ' '))
  }

  /** No tag has whitespace around it. */
  lemma TagsStripped(tags: string)
    ensures forall i :: 0 <= i < |TagList(tags)| ==> Strip(TagList(tags)[i]) == TagList(tags)[i]
  {
    var t := Strip(tags);
    if t == "" {
      BlankUnsorted(tags);
      UnsortedStripped();
    } else {
      var parts := Split(t, ' ');
      assert TagList(tags) == StripAll(parts);
      forall i | 0 <= i < |parts|
        ensures Strip(StripAll(parts)[i]) == StripAll(parts)[i]
      {
        StripIdempotent(parts[i]);
      }
    }
  }

  /** A word has no whitespace at all. */
  predicate IsWord(w: string) {
    forall i :: 0 <= i < |w| ==> w[i] !in Whitespace
  }

  /**
   * Tags written with single spaces between them come back as written; the
   * first and the last must be non-empty, an inner one may be empty (two
   * spaces in a row).
   */
  lemma TagListOfJoin(ts: seq<string>)
    requires ts != [] && ts[0] != [] && ts[|ts| - 1] != []
    requires forall i :: 0 <= i < |ts| ==> IsWord(ts[i])
    ensures TagList(Join(ts, " ")) == ts
  {
    var j := Join(ts, " ");
    JoinStripped(ts);
    WordsSplit(ts);
    StripAllWords(ts);
  }

  /** Stripping words changes none of them. */
  lemma StripAllWords(ts: seq<string>)
    requires forall i :: 0 <= i < |ts| ==> IsWord(ts[i])
    ensures StripAll(ts) == ts
  {
    var r := StripAll(ts);
    forall i | 0 <= i < |ts|
      ensures r[i] == ts[i]
    {
      WordStripped(ts[i]);
    }
  }

  /** The join has no whitespace at either end. */
  lemma JoinStripped(ts: seq<string>)
    requires ts != [] && ts[0] != [] && ts[|ts| - 1] != []
    requires forall i :: 0 <= i < |ts| ==> IsWord(ts[i])
    ensures Join(ts, " ") != [] && Strip(Join(ts, " ")) == Join(ts, " ")
  {
    var j := Join(ts, " ");
    JoinStart(ts);
    JoinLast(ts);
    var l := ts[|ts| - 1];
    assert ts[0][0] !in Whitespace && l[|l| - 1] !in Whitespace;
    EndsStripped(j);
  }

  /** Pieces without a space split back into themselves. */
  lemma WordsSplit(ts: seq<string>)
    requires ts != [] && forall i :: 0 <= i < |ts| ==> IsWord(ts[i])
    ensures Split(Join(ts, " "), ' ') == ts
  {
    assert ' ' in Whitespace;
    forall i | 0 <= i < |ts|
      ensures ' ' !in ts[i]
    {
      assert forall k :: 0 <= k < |ts[i]| ==> ts[i][k] != ' ';
    }
    SplitJoin(ts, ' ');
  }

  /** Two spaces in a row file the post under the empty tag as well. */
  lemma DoubleSpaceEmptyTag(a: string, b: string)
    requires a != [] && b != [] && IsWord(a) && IsWord(b)
    ensures TagList(a + "  " + b) == [a, "", b]
  {
    var ts := [a, "", b];
    assert ts[1..] == ["", b] && ts[1..][1..] == [b];
    assert Join(ts[1..][1..], " ") == b;
    assert Join(ts[1..], " ") == "" + " " + b;
    assert Join(ts, " ") == a + " " + ("" + " " + b);
    assert a + " " + ("" + " " + b) == a + "  " + b;
    assert IsWord("");
    TagListOfJoin(ts);
  }

  /** A post without tags is filed under `unsorted`. */
  lemma NoTagsUnsorted(vars: Store)
    requires "tags" !in vars || Strip(vars["tags"]) == ""
    ensures TagList(Get(vars, "tags")) == [Unsorted]
  {
    var name := "tags";
    assert name[0] !in Whitespace && name[|name| - 1] !in Whitespace;
    EndsStripped(name);
    var v := Get(vars, name);
    if name in vars {
      assert v == vars[name];
    } else {
      assert v == "";
      EndsStripped(v);
    }
    BlankUnsorted(v);
  }

  lemma UnsortedStripped()
    ensures Strip(Unsorted) == Unsorted
  {
    var u := Unsorted;
    assert u[0] !in Whitespace && u[|u| - 1] !in Whitespace;
    EndsStripped(u);
  }

  lemma BlankUnsorted(v: string)
    requires Strip(v) == ""
    ensures TagList(v) == [Unsorted]
  {
  }

  lemma WordStripped(w: string)
    requires IsWord(w)
    ensures Strip(w) == w
  {
    if w != [] {
      EndsStripped(w);
    }
  }

  /** A string with no whitespace at either end is its own strip. */
  lemma EndsStripped(w: string)
    requires w == [] || (w[0] !in Whitespace && w[|w| - 1] !in Whitespace)
    ensures Strip(w) == w
  {
    TrimLeftNoop(w, Whitespace);
    if w != [] {
      assert TrimRight(w, Whitespace) == w;
    }
  }

  lemma JoinStart(ts: seq<string>)
    requires ts != [] && ts[0] != []
    ensures Join(ts, " ") != [] && Join(ts, " ")[0] == ts[0][0]
  {
  }

  lemma {:induction false} JoinLast(ts: seq<string>)
    requires ts != [] && ts[|ts| - 1] != []
    ensures var j := Join(ts, " "); j != [] && j[|j| - 1] == ts[|ts| - 1][|ts[|ts| - 1]| - 1]
    decreases |ts|
  {
    if |ts| > 1 {
      var t := ts[1..];
      assert t[|t| - 1] == ts[|ts| - 1];
      JoinLast(t);
    }
  }

  /** Splitting a join of pieces that lack the separator gives the pieces back. */
  lemma {:induction false} SplitJoin(ts: seq<string>, c: char)
    requires ts != []
    requires forall i :: 0 <= i < |ts| ==> c !in ts[i]
    ensures Split(Join(ts, [c]), c) == ts
    decreases |ts|
  {
    if |ts| == 1 {
      SplitNone(ts[0], c);
    } else {
      SplitJoin(ts[1..], c);
      SplitFirst(ts[0], c, Join(ts[1..], [c]));
      assert [ts[0]] + ts[1..] == ts;
    }
  }

  // ---------------------------------------------------------------------
  // Filing posts under their tags
  // ---------------------------------------------------------------------

  /** What the tags script keeps of a post: its tag list and its entry. */
  datatype Post = Post(tags: seq<string>, entry: Entry)

  /** A post's tag list (the `tags` variable read with `get`) and its entry. */
  function TagReader(env: Env, read: string -> string): string -> Result<Post, Stop> {
    f =>
      match PostVars(env, f, read(PostPath(f)))
      case Err(s) => Err(s)
      case Ok(vars) =>
        match EntryOf(vars, f)
        case Err(s) => Err(s)
        case Ok(e) => Ok(Post(TagList(Get(vars, "tags")), e))
  }

  /** The entry once for each time `t` occurs in `tags`. */
  function Hits(tags: seq<string>, t: string, e: Entry): (r: seq<Entry>)
    ensures r == [] <==> t !in tags
    ensures forall i :: 0 <= i < |r| ==> r[i] == e
  {
    if tags == [] then []
    else
      assert tags == [tags[0]] + tags[1..];
      (if tags[0] == t then [e] else []) + Hits(tags[1..], t, e)
  }

  /** The list under `t` after filing `posts` in order. */
  function Tagged(posts: seq<Post>, t: string): seq<Entry> {
    if posts == [] then []
    else
      var n := |posts| - 1;
      Tagged(posts[..n], t) + Hits(posts[n].tags, t, posts[n].entry)
  }

  /** A post's entry is under `t` exactly when the post names `t`. */
  lemma {:induction false} TaggedMembers(posts: seq<Post>, t: string, e: Entry)
    ensures e in Tagged(posts, t) <==> exists j :: 0 <= j < |posts| && posts[j].entry == e && t in posts[j].tags
    decreases |posts|
  {
    if posts != [] {
      var n := |posts| - 1;
      var init := posts[..n];
      TaggedMembers(init, t, e);
      HitsMember(posts[n].tags, t, posts[n].entry, e);
      assert Tagged(posts, t) == Tagged(init, t) + Hits(posts[n].tags, t, posts[n].entry);
      if e in Tagged(init, t) {
        var j :| 0 <= j < |init| && init[j].entry == e && t in init[j].tags;
        assert posts[j] == init[j];
      } else if e in Tagged(posts, t) {
        assert posts[n].entry == e && t in posts[n].tags;
      }
      if j :| 0 <= j < |posts| && posts[j].entry == e && t in posts[j].tags {
        if j < n {
          assert init[j] == posts[j];
        }
      }
    }
  }

  lemma HitsMember(tags: seq<string>, t: string, e: Entry, x: Entry)
    ensures x in Hits(tags, t, e) <==> x == e && t in tags
  {
    var h := Hits(tags, t, e);
    if x in h {
      var i :| 0 <= i < |h| && h[i] == x;
    }
    if x == e && t in tags {
      assert h[0] == e;
    }
  }

  /** The tags of `tags` that `order` lacks, appended in order of first occurrence. */
  function AddNew(order: seq<string>, tags: seq<string>): seq<string>
    decreases |tags|
  {
    if tags == [] then order
    else AddNew(if tags[0] in order then order else order + [tags[0]], tags[1..])
  }

  /** The dict's keys after filing `posts`: every tag, in order of first occurrence. */
  function FirstSeen(posts: seq<Post>): seq<string> {
    if posts == [] then []
    else
      var n := |posts| - 1;
      AddNew(FirstSeen(posts[..n]), posts[n].tags)
  }

  predicate Distinct(s: seq<string>) {
    forall i, j :: 0 <= i < j < |s| ==> s[i] != s[j]
  }

  /** Appending new tags keeps the order's tags and their distinctness and adds exactly the named ones. */
  lemma {:induction false} AddNewFacts(order: seq<string>, tags: seq<string>)
    requires Distinct(order)
    ensures Distinct(AddNew(order, tags))
    ensures forall t :: t in AddNew(order, tags) <==> t in order || t in tags
    decreases |tags|
  {
    if tags != [] {
      var next := if tags[0] in order then order else order + [tags[0]];
      AddNewFacts(next, tags[1..]);
      assert tags == [tags[0]] + tags[1..];
    }
  }

  /** Each tag that any post names is a key, once, and no other is. */
  lemma {:induction false} FirstSeenFacts(posts: seq<Post>)
    ensures Distinct(FirstSeen(posts))
    ensures forall t :: t in FirstSeen(posts) <==> exists j :: 0 <= j < |posts| && t in posts[j].tags
    decreases |posts|
  {
    if posts != [] {
      var n := |posts| - 1;
      FirstSeenFacts(posts[..n]);
      AddNewFacts(FirstSeen(posts[..n]), posts[n].tags);
      assert forall j :: 0 <= j < n ==> posts[..n][j] == posts[j];
    }
  }

  /** The list under `t`, or the empty one when `t` is no key yet. */
  function ListOf(lists: map<string, seq<Entry>>, t: string): seq<Entry> {
    if t in lists then lists[t] else []
  }

  /** The `tags` dict: its keys in insertion order and the list under each. */
  class TagTable {
    var order: seq<string>
    var lists: map<string, seq<Entry>>

    ghost predicate Valid()
      reads this
    {
      Distinct(order) && forall t :: t in lists <==> t in order
    }

    constructor()
      ensures Valid() && order == [] && lists == map[]
    {
      order := [];
      lists := map[];
    }

    /** `tags[tag].append(entry)`, creating the list on the `KeyError`. */
    method Append(tag: string, e: Entry)
      requires Valid()
      modifies this
      ensures Valid()
      ensures order == if tag in old(lists) then old(order) else old(order) + [tag]
      ensures lists == old(lists)[tag := ListOf(old(lists), tag) + [e]]
    {
      if tag in lists {
        lists := lists[tag := lists[tag] + [e]];
      } else {
        lists := lists[tag := []];
        order := order + [tag];
        lists := lists[tag := lists[tag] + [e]];
      }
    }

    /** `for tag in page_tag_list`: the entry appended under each tag in turn. */
    method File(tags: seq<string>, e: Entry)
      requires Valid()
      modifies this
      ensures Valid()
      ensures order == AddNew(old(order), tags)
      ensures forall t :: ListOf(lists, t) == ListOf(old(lists), t) + Hits(tags, t, e)
    {
      var i := 0;
      while i < |tags|
        invariant 0 <= i <= |tags| && Valid()
        invariant AddNew(order, tags[i..]) == AddNew(old(order), tags)
        invariant forall t :: ListOf(lists, t) + Hits(tags[i..], t, e) == ListOf(old(lists), t) + Hits(tags, t, e)
      {
        ghost var before := lists;
        assert tags[i..] == [tags[i]] + tags[i + 1..];
        Append(tags[i], e);
        FileStep(before, lists, tags[i], e, tags[i + 1..]);
        i := i + 1;
      }
    }

    /** `for tag in tags`: each list sorted by date and reversed, in place. */
    method SortLists(key: string -> int)
      requires Valid()
      modifies this
      ensures Valid() && order == old(order)
      ensures forall t :: t in lists <==> t in old(lists)
      ensures forall t :: t in lists ==> lists[t] == NewestFirst(old(lists)[t], key)
    {
      var i := 0;
      while i < |order|
        invariant 0 <= i <= |order| && Valid() && order == old(order)
        invariant SortedFor(lists, old(lists), order[..i], key)
      {
        var t := order[i];
        ghost var before := lists;
        lists := lists[t := NewestFirst(lists[t], key)];
        SortStep(before, old(lists), order, i, key);
        i := i + 1;
      }
      assert order[..i] == order;
    }
  }

  /** The lists of `done` sorted newest first, the others as in `orig`. */
  ghost predicate SortedFor(lists: map<string, seq<Entry>>, orig: map<string, seq<Entry>>, done: seq<string>,
                            key: string -> int) {
    (forall t :: t in lists <==> t in orig) &&
    forall t :: t in lists ==> lists[t] == if t in done then NewestFirst(orig[t], key) else orig[t]
  }

  /** Sorting the list of the next key in `order` extends the sorted prefix by it. */
  lemma SortStep(before: map<string, seq<Entry>>, orig: map<string, seq<Entry>>, order: seq<string>, i: nat,
                 key: string -> int)
    requires i < |order| && Distinct(order) && order[i] in before
    requires SortedFor(before, orig, order[..i], key)
    ensures SortedFor(before[order[i] := NewestFirst(before[order[i]], key)], orig, order[..i + 1], key)
  {
    var t := order[i];
    var after := before[t := NewestFirst(before[t], key)];
    assert t !in order[..i];
    assert order[..i + 1] == order[..i] + [t];
    forall u | u in after
      ensures after[u] == if u in order[..i + 1] then NewestFirst(orig[u], key) else orig[u]
    {
      if u != t {
        assert (u in order[..i + 1]) == (u in order[..i]);
      }
    }
  }

  /** One append, seen from the lists of every tag. */
  lemma FileStep(before: map<string, seq<Entry>>, after: map<string, seq<Entry>>, tag: string, e: Entry,
                 rest: seq<string>)
    requires after == before[tag := ListOf(before, tag) + [e]]
    ensures forall t :: ListOf(after, t) + Hits(rest, t, e) == ListOf(before, t) + Hits([tag] + rest, t, e)
  {
    forall t
      ensures ListOf(after, t) + Hits(rest, t, e) == ListOf(before, t) + Hits([tag] + rest, t, e)
    {
      assert ([tag] + rest)[1..] == rest;
      if t == tag {
        assert Hits([tag] + rest, t, e) == [e] + Hits(rest, t, e);
      } else {
        assert Hits([tag] + rest, t, e) == Hits(rest, t, e);
      }
    }
  }

  /** The loop over the posts that files each one under its tags. */
  method BuildTable(posts: seq<Post>) returns (table: TagTable)
    ensures fresh(table) && table.Valid()
    ensures table.order == FirstSeen(posts)
    ensures forall t :: ListOf(table.lists, t) == Tagged(posts, t)
  {
    table := new TagTable();
    for j := 0 to |posts|
      invariant fresh(table) && table.Valid()
      invariant table.order == FirstSeen(posts[..j])
      invariant forall t :: ListOf(table.lists, t) == Tagged(posts[..j], t)
    {
      assert posts[..j + 1][..j] == posts[..j];
      table.File(posts[j].tags, posts[j].entry);
    }
    assert posts[..|posts|] == posts;
  }

  // ---------------------------------------------------------------------
  // The tag pages
  // ---------------------------------------------------------------------

  /** `"# Tag '{}'\n".format(tag_name)` */
  function Heading(tag: string): string {
    "# Tag '" + tag + "'\n"
  }

  /** `'\n'.join(entries)`: the heading, then one line per entry. */
  function TagPageText(tag: string, list: seq<Entry>): string {
    Join([Heading(tag)] + EntryLines(list), "\n")
  }

  /**
   * The page starts with the heading; with posts, a blank line follows it
   * and then the entries' lines joined by newlines.
   */
  lemma TagPageShape(tag: string, list: seq<Entry>)
    ensures list == [] ==> TagPageText(tag, list) == Heading(tag)
    ensures list != [] ==> TagPageText(tag, list) == Heading(tag) + "\n" + Join(EntryLines(list), "\n")
  {
    assert ([Heading(tag)] + EntryLines(list))[1..] == EntryLines(list);
  }

  /** `'{}{}.html'.format(TAG_PREFIX, tag_name)` */
  function TagFileName(tag: string): string {
    TagPrefix + tag + ".html"
  }

  /** Different tags get different files. */
  lemma TagFilesDistinct(a: string, b: string)
    requires a != b
    ensures TagFileName(a) != TagFileName(b)
  {
    var x, y := TagFileName(a), TagFileName(b);
    assert x[4..|x| - 5] == a && y[4..|y| - 5] == b;
  }

  /** `tags.items()`: each key with its list, in insertion order. */
  function ItemsOf(order: seq<string>, lists: map<string, seq<Entry>>): (r: seq<(string, seq<Entry>)>)
    requires forall t :: t in order ==> t in lists
    ensures |r| == |order| && forall i :: 0 <= i < |order| ==> r[i] == (order[i], lists[order[i]])
  {
    seq(|order|, i requires 0 <= i < |order| => (order[i], lists[order[i]]))
  }

  /** What `for tag_name, tag_list in tags.items()` walks over once the lists are sorted. */
  function TagItems(posts: seq<Post>, key: string -> int): (r: seq<(string, seq<Entry>)>)
    ensures |r| == |FirstSeen(posts)|
  {
    var keys := FirstSeen(posts);
    seq(|keys|, i requires 0 <= i < |keys| => (keys[i], NewestFirst(Tagged(posts, keys[i]), key)))
  }

  /** A tag's file is named after its tag. */
  function TagNamer(): ((string, seq<Entry>), PageNum) -> string {
    (item: (string, seq<Entry>), n: PageNum) => TagFileName(item.0)
  }

  /** A tag's page: its Markdown processed, then the template rendered with that store. */
  function TagMaker(env: Env, template: string): ((string, seq<Entry>), PageNum) -> Result<string, Error> {
    (item: (string, seq<Entry>), n: PageNum) => RenderMarkdown(env, template, TagPageText(item.0, item.1))
  }

  /**
   * The whole script: every post read first (a failing post stops it before
   * any page), then filed under its tags, each tag's list put newest first,
   * and one page written per tag in order of first occurrence.
   */
  method MakeTagPages(env: Env, listing: seq<string>, read: string -> string, key: string -> int,
                      template: string) returns (run: Run)
    ensures var ps := Entries(BlogFiles(listing), TagReader(env, read));
      ps.Err? ==> run == Run([], Some(ps.error))
    ensures var ps := Entries(BlogFiles(listing), TagReader(env, read));
      ps.Ok? ==> run == RunOf(TagItems(ps.value, key), TagNamer(), TagMaker(env, template), |TagItems(ps.value, key)|)
  {
    var files := BlogFiles(listing);
    var posts := CollectEntries(files, TagReader(env, read));
    if posts.Err? {
      return Run([], Some(posts.error));
    }
    var table := BuildTable(posts.value);
    table.SortLists(key);
    var items := ItemsOf(table.order, table.lists);
    SortedItems(posts.value, key, table.order, table.lists, items);
    run := WriteAll(items, TagNamer(), TagMaker(env, template));
  }

  lemma SortedItems(posts: seq<Post>, key: string -> int, order: seq<string>, lists: map<string, seq<Entry>>,
                    items: seq<(string, seq<Entry>)>)
    requires order == FirstSeen(posts) && forall t :: t in lists <==> t in order
    requires forall t :: t in lists ==> lists[t] == NewestFirst(Tagged(posts, t), key)
    requires items == ItemsOf(order, lists)
    ensures items == TagItems(posts, key)
  {
  }

  /** A post is on the page of every tag it names. */
  lemma TagPagesCoverPosts(posts: seq<Post>, key: string -> int, j: nat, t: string)
    requires j < |posts| && t in posts[j].tags
    ensures exists i ::
      0 <= i < |TagItems(posts, key)| && TagItems(posts, key)[i].0 == t && posts[j].entry in TagItems(posts, key)[i].1
  {
    var keys := FirstSeen(posts);
    FirstSeenFacts(posts);
    assert t in keys;
    var i :| 0 <= i < |keys| && keys[i] == t;
    TaggedMembers(posts, t, posts[j].entry);
    NewestFirstOrder(Tagged(posts, t), key);
    assert posts[j].entry in multiset(NewestFirst(Tagged(posts, t), key));
    assert TagItems(posts, key)[i] == (t, NewestFirst(Tagged(posts, t), key));
  }

  /** Every tag page lists only posts that name its tag, newest first; no two pages share a file. */
  lemma TagPagesSound(posts: seq<Post>, key: string -> int)
    ensures var items := TagItems(posts, key);
      forall i, e :: 0 <= i < |items| && e in items[i].1 ==>
        exists j :: 0 <= j < |posts| && posts[j].entry == e && items[i].0 in posts[j].tags
    ensures var items := TagItems(posts, key);
      forall i :: 0 <= i < |items| ==> Descending(items[i].1, key)
    ensures var items := TagItems(posts, key);
      forall i, k :: 0 <= i < k < |items| ==> TagFileName(items[i].0) != TagFileName(items[k].0)
  {
    var items := TagItems(posts, key);
    var keys := FirstSeen(posts);
    FirstSeenFacts(posts);
    forall i, e | 0 <= i < |items| && e in items[i].1
      ensures exists j :: 0 <= j < |posts| && posts[j].entry == e && items[i].0 in posts[j].tags
    {
      NewestFirstOrder(Tagged(posts, keys[i]), key);
      assert e in multiset(Tagged(posts, keys[i]));
      TaggedMembers(posts, keys[i], e);
    }
    forall i | 0 <= i < |items|
      ensures Descending(items[i].1, key)
    {
      NewestFirstOrder(Tagged(posts, keys[i]), key);
    }
    forall i, k | 0 <= i < k < |items|
      ensures TagFileName(items[i].0) != TagFileName(items[k].0)
    {
      TagFilesDistinct(keys[i], keys[k]);
    }
  }
}
