# MDiocre in Dafny

MDiocre is a small static site generator. A page is Markdown, HTML, Zim
wiki text or Gemtext with *directives* embedded in it: `<!--: title = "Home" -->`
in Markdown and HTML, `[mdiocre: title = "Home"]` in Zim and Gemtext.
A directive either assigns a variable or looks one up. The page's variables
then fill the `<!--:…-->` directives of an HTML template named by the page's
`mdiocre-template` variable. The Zim and Gemtext adapters also carry their own
line-by-line converters to HTML. Around that core sit a configuration
validator, the file-by-file convert-or-copy decision, a version-string
rewriter and two sample scripts that build a paginated index and per-tag pages.

This project models that core and proves what it does. Module by module:

- `Text` holds the Python string operations the code relies on, written out.
  These are `str.isspace`, `strip`, `split`, `join`, `replace`, `lower` and
  `os.path.splitext`. `Rewrite` is `re.sub` with a callback, as one
  left-to-right pass. `Dicts` is an insertion-ordered dictionary, and
  `Wrappers` holds `Option` and `Result`. `Html` builds elements and anchors.
- `Failures` holds the exceptions the directive language raises. It also
  separates the `SyntaxError` kinds, which `sub_func` catches, from the
  errors it lets escape.
- `Quotes` models `remove_inner_outer_quotes` (`mdiocre/utils.py`).
- `Grammar` is the pure meaning of `VariableManager` (`mdiocre/core.py`).
  It covers `get` and `assign`: the assignment check, the split at the first
  `=`, the reserved names, the `RE_CONCAT` tokeniser and the value loop with
  its unescaping. It also covers `sub_func`. `GrammarFacts` states what
  assignments store, how the tokeniser really cuts (including the
  documented example it contradicts), and that a failed assignment changes
  nothing.
- `Directives` is the one scan-and-substitute pass over a pair of
  delimiters. It is used with `<!--:`/`-->` and with `[mdiocre:`/`]`.
  `DirectiveFacts` proves small end-to-end facts about it, and that no
  directive ever writes `content` or the generation timestamp.
- `Core` is the imperative side of `mdiocre/core.py`. The `VariableManager`
  class holds a mutable store. `Assign` has a token loop and a value loop,
  and `SubFunc`, `Render` and `Process` are methods. Each one is proved
  equal to its `Grammar`/`Directives` specification.
- `Parsers` models the adapters' `to_variables`
  (`mdiocre/parsers/__init__.py`, `html.py`, `markdown.py`, `zim.py`,
  `gem.py`). `ParserFacts` proves how `content` is written, or left alone
  under `ignore_content`.
- `Zim` models `ZimParser.convert_markup`. It covers:
  - the line state machine with its `pre`, raw-HTML and list flags;
  - escaping, entities and paragraphs;
  - `link_sub`, `img_sub`, the inline tag and heading patterns;
  - the blank-line filter.

  Each one is a specification function and an imperative method proved
  equal to it. `ZimFacts` proves the promised per-line behaviour, the
  filter, and the link targets.
- `Gem` models `GemParser.convert_markup`. It covers the line loop with its
  list and pre-block state, headings, blockquotes, lists, link lines,
  inline links, fenced blocks with their placeholder keys, and the final
  key replacement. `GemFacts` proves the per-line rules, that each input
  line yields its own output line plus at most one list line, and how a
  closed block gets its alt text from the closing fence.
- `Config` models `mdiocre/config.py`: `validate_varname`, `validate`,
  `read_config`'s shaping loops and the `Config` class with its `config`,
  `vars` and `valid` fields.
- `Wizard` models `mdiocre/wizard.py`. It covers the converter table, the
  extension, `is_mdiocre_string` and `generate_from_string`. It also covers
  the decision `generate_from_path` makes, returned as the file operation
  it performs.
- `Versioning` models `git2pep440` (`versioning.py`). The main result is
  `DescribeRoundTrip`: every well-formed `git describe` string becomes the
  version string built from its own groups.
- `Samples`, `MakeIndex` and `MakeTags` model the sample scripts
  `samples/make_index.py` and `samples/make_tags.py`, including the
  `TagTable` class for the `tags` dictionary they build in place.

Things outside the model are parameters:
- the timestamp;
- Python's `eval` for arithmetic values;
- the Markdown converter;
- the reStructuredText adapter;
- the random part of Gemtext block keys;
- the ElementTree re-serialisation;
- file contents: a function from path to `Option<string>`, with `None` for
  a file that does not exist or cannot be read;
- the date key of the samples' sort.

Where the code and its comments disagree, the model follows the code:

- `RE_CONCAT` (`(.+?)[^\\],|(.+?)$`) swallows the character just before each
  comma. So the documented `Var 1, Var 2` gives the tokens `Var` and
  `Var 2` (`GrammarFacts.DocExampleTokens`), and a comma inside quotes still
  splits (`GrammarFacts.CommaInQuotesValue`).
- After each quoted token the whole accumulated value is unescaped, not
  just the token (`Grammar.Step`).
- In `mdiocre/parsers/__init__.py`, `sub_func` returns what `assign`
  returns. That is `None`, which `re.sub` inserts as the empty string, so
  both copies of `sub_func` replace an assignment with "".
- The examples in the `git2pep440` docstring lack the `g` the pattern
  requires. The model states what the pattern does: `-N` without `-gHEX`
  gives `+N.None`, and `-gHEX` without `-N` is dropped.
- A one-page index still links to `index_2.html`, which is never written
  (`MakeIndex.OnlyPageLinksAhead`).
- The Zim adapter declares the extension `zim`, but the wizard's table does
  not map it (`Wizard.TableDomain`).
- A post named just `.md` passes the samples' filter. Its extension is then
  "", which is not in the converter table, so the script stops with a
  `KeyError` (`Samples.PostVars`).

## Model

| member | source | states |
|---|---|---|
| Quotes.RemoveInnerOuterQuotes | mdiocre/utils.py:30-46 | A token opening with `"` or `'` must close with the same quote and then loses every leading and trailing quote of that kind; a token closing with a quote it did not open with raises SyntaxError; a token with no quote at either end comes back unchanged (Ok exactly in those cases). |
| Quotes.QuotedTokenBody | mdiocre/utils.py:30-37 | For a token that is a quote, some text, and the same quote, with no quote of that kind at either end of the text, the result is exactly the text. |
| Grammar.Get | mdiocre/core.py:168-187 | The value stored under the stripped name, or "" when that name is unset; never an error. |
| Grammar.SplitAtFirstEquals | mdiocre/core.py:221-223 | The name is the text before the first `=`, which holds no `=`; the value is everything after it, later `=` included. |
| Grammar.MathStart | mdiocre/core.py:10 | An arithmetic value starts with a space, a sign or a digit, so never with a quote. |
| Grammar.CommaCut | mdiocre/core.py:13 | The first alternative of RE_CONCAT, `(.+?)[^\\],`, tried at `p` with the lazy group ending at `j` or later: the smallest group end `e` such that the character at `e` is not a backslash and the one after it is a comma, the group holding no newline. |
| Grammar.ToEnd | mdiocre/core.py:13 | The second alternative of RE_CONCAT, `(.+?)$`, tried at `p`: the group runs to the end of the text, or up to a newline that ends the text. |
| Grammar.FindAll | mdiocre/core.py:240 | In every pair `re.findall` gives for RE_CONCAT, exactly one of the two groups is non-empty. |
| Grammar.Unescape | mdiocre/core.py:14 | Each backslash together with the character after it becomes that character; text without a backslash is unchanged. |
| Grammar.Step | mdiocre/core.py:257-269 | One turn of the second loop of `assign`: a token starting with a quote is unquoted, appended, and then the WHOLE accumulated value is unescaped; any other token is looked up. `var[0]` on an empty token is an IndexError. |
| Grammar.ConcatStep | mdiocre/core.py:254-269 | One more token: the prefix's value, then one turn of the loop. |
| Grammar.ConcatStopsAtError | mdiocre/core.py:254-269 | The first token that fails decides the error of the whole loop. |
| Grammar.ConcatVarsStep | mdiocre/core.py:245-250 | One more findall pair: its non-empty groups, stripped, are appended. |
| Grammar.Assign | mdiocre/core.py:189-271 | Fails with SyntaxError when the query is no assignment or names `content` or the timestamp; on success the new store differs from the old one at the stripped name only, which holds the evaluated value. |
| Grammar.SubFunc | mdiocre/core.py:23-52 | `sub_func`: the text that replaces a directive and the store afterwards. An assignment is replaced by ""; a SyntaxError turns the directive into a lookup of the whole statement; any other error propagates. |
| Grammar.SubFuncKeepsReserved | mdiocre/core.py:226-227 | No directive can write `content` or the timestamp: `sub_func` leaves both as they were. |
| GrammarFacts.NoCommaOneToken | mdiocre/core.py:13 | A value with no comma and no newline is one single findall match of the second alternative. |
| GrammarFacts.SingleToken | mdiocre/core.py:238-250 | The token list of a value that is a single comma-free, newline-free token. |
| GrammarFacts.QuoteNotMath | mdiocre/core.py:10 | A value that starts with a quote is never arithmetic. |
| GrammarFacts.EvalConcat | mdiocre/core.py:229-269 | A non-arithmetic value goes through the tokeniser and the value loop. |
| GrammarFacts.ConcatOne | mdiocre/core.py:254-269 | A single token is one turn of the value loop, starting from "". |
| GrammarFacts.StepQuoted | mdiocre/core.py:257-264 | A token that opens and closes with the same quote is unquoted, then the whole value is unescaped. |
| GrammarFacts.OneTokenValue | mdiocre/core.py:238-269 | A value that is one comma-free token with no outer whitespace is evaluated as that token alone. |
| GrammarFacts.QuotedValue | mdiocre/core.py:257-264 | A comma-free value that starts and ends with the same quote stores its text with all outer quotes of that kind stripped and every `\x` collapsed to `x`. |
| GrammarFacts.PlainValue | mdiocre/core.py:266-269 | A comma-free, non-arithmetic value that does not start with a quote is a variable name: it stores that variable's value, or "" when it is unset. |
| GrammarFacts.BadTokenFails | mdiocre/core.py:254-269 | Once a token fails, the whole concatenation fails: nothing is stored. |
| GrammarFacts.BadTokenLeavesStore | mdiocre/core.py:254-271 | An assignment whose value is not arithmetic and holds a bad token fails, and `sub_func` then leaves the store exactly as it was. |
| GrammarFacts.FailedValueFailsAssign | mdiocre/core.py:229-271 | An assignment whose value fails to evaluate fails too. |
| GrammarFacts.AssignQuoted | mdiocre/core.py:189-271 | `name = "text"`: the assignment stores the unquoted, unescaped text under the stripped name and changes nothing else. |
| GrammarFacts.AssignCopy | mdiocre/core.py:266-271 | `name = other`: the assignment copies the value of `other`, or "" when it is unset. |
| GrammarFacts.AssignStores | mdiocre/core.py:271 | An assignment to a free name whose value evaluates stores exactly that value. |
| GrammarFacts.ConcatVarsTwo | mdiocre/core.py:245-250 | The tokens of two findall pairs, the first from group 1 and the second from group 2. |
| GrammarFacts.DocExampleTokens | mdiocre/core.py:200-201 | The documented concatenation `Var 1, Var 2` yields the tokens `Var` and `Var 2`: the character before the comma is swallowed by `[^\\],`. |
| GrammarFacts.CommaInQuotesTokens | mdiocre/core.py:13 | A comma inside quotes still splits: `"a, b"` is cut into the tokens `"` (which unquotes to "") and `b"` (a variable name, as it does not start with a quote). |
| GrammarFacts.LoneQuote | mdiocre/utils.py:30-33 | The token made of a lone quote unquotes to "". |
| GrammarFacts.CommaInQuotesValue | mdiocre/core.py:238-269 | So the quoted-looking value `"a, b"` stores the value of the variable named `b"`. |
| GrammarFacts.ConcatTwo | mdiocre/core.py:254-269 | Two tokens are two turns of the value loop. |
| Directives.CloseFrom | mdiocre/core.py:11 | The lazy body `(.+?)` followed by the closing delimiter, with the body starting at `b` and tried up to `j` or beyond: the first index at which `close` occurs, the body in between holding no newline. |
| Directives.DirectiveAt | mdiocre/parsers/html.py:12 | A directive found at the start of `s` opens with the opening delimiter and closes at the first occurrence of the closing delimiter that leaves a non-empty body; the body holds no newline. |
| Directives.AtDirective | mdiocre/core.py:79 | The pass at a directive. |
| Directives.AtText | mdiocre/core.py:79 | The pass where no directive starts. |
| Directives.DirectiveStep | mdiocre/core.py:114 | One step of the pass at a directive, whatever the callback returned. |
| Directives.CopyOne | mdiocre/core.py:79 | Where no opening delimiter starts, one character is copied. |
| Directives.SubstCopy | mdiocre/core.py:79 | Text in which no directive opens before index `n` is copied unchanged up to `n`. |
| Directives.SubstPlain | mdiocre/core.py:79 | Text that holds no opening delimiter at all comes back as it is, with the store untouched. |
| Directives.SubstDirective | mdiocre/core.py:114 | A directive whose body is non-empty, newline-free and holds no closing delimiter before its end is replaced by `sub_func` of exactly that body, and the pass goes on after the closing delimiter with the store `sub_func` left behind. |
| Directives.FirstDirective | mdiocre/core.py:114 | The pass over `a`, a directive and `rest`, where no directive opens inside `a`: `a` is copied, the directive becomes its `sub_func` result, and `rest` is processed from the source text, never from the inserted text. |
| DirectiveFacts.SetterParts | mdiocre/core.py:221-223 | The name is free and the value is one quoted token. |
| DirectiveFacts.SetterAssigns | mdiocre/core.py:189-271 | `t = "Hi"` stores Hi under t. |
| DirectiveFacts.LookupT | mdiocre/core.py:45-52 | `t` alone is no assignment, so it is looked up. |
| DirectiveFacts.AssignThenLookup | mdiocre/core.py:79 | `<!--:t = "Hi"--><!--:t-->` renders as Hi: the first directive is replaced by "" and stores t, the second one reads it back. |
| DirectiveFacts.PassKeepsReserved | mdiocre/core.py:226-227 | A whole pass leaves `content` and the timestamp as they were. |
| DirectiveFacts.ProcessedReserved | mdiocre/core.py:107-114 | After the directives of a page are processed, the timestamp is still the one the fresh store started with and `content` is still unset: only `process` itself writes it. |
| Core.VariableManager.constructor | mdiocre/core.py:161-166 | `__init__`: an empty store but for the generation timestamp. |
| Core.VariableManager.Get | mdiocre/core.py:168-187 | The value stored under the stripped name when it is set, and "" otherwise. |
| Core.VariableManager.Assign | mdiocre/core.py:189-271 | `assign`: on success the store is `Grammar.Assign`'s new store; on any exception the store is left exactly as it was. |
| Core.VariableManager.EvalValue | mdiocre/core.py:229-269 | The value the pure `Grammar.EvalValue` gives for the right-hand side against the current store. |
| Core.VariableManager.Concatenate | mdiocre/core.py:252-269 | The loop's result is `Grammar.Concat` of the tokens: their values appended in order, or the first token's error. |
| Core.Tokens | mdiocre/core.py:238-250 | The tokens are exactly the non-empty findall groups, stripped, in match order. |
| Core.SubFunc | mdiocre/core.py:23-52 | Result and new store are those of `Grammar.SubFunc`: "" after an assignment, the lookup of the statement after a SyntaxError, any other error propagated. |
| Core.Substitute | mdiocre/core.py:79 | The pass's text and resulting store are those of the one-pass substitution `Subst`. |
| Core.SubstituteAt | mdiocre/core.py:79 | Consumes at least one character; the piece and the store agree with `Subst` on the consumed prefix. |
| Core.SubstituteDirective | mdiocre/core.py:114 | The directive's replacement and the following pass agree with `Subst` from the closing delimiter on. |
| Core.Render | mdiocre/core.py:54-81 | `MDiocre.render`: the template with its `<!--:…-->` directives substituted against the given store. |
| Core.Process | mdiocre/core.py:84-123 | `MDiocre.process`: a fresh store holding only the timestamp, the directives of `text` substituted into it, then `content` set to the Markdown conversion of the substituted text unless `ignoreContent`. |
| Parsers.BaseToVariables | mdiocre/parsers/__init__.py:32-46 | `BaseParser.to_variables`: the store it was given, unchanged. |
| Parsers.Adapt | mdiocre/parsers/__init__.py:1-24 | On success the same store object comes back, holding the store of the substitution pass; an error is reported as the pass reports it. |
| Parsers.HtmlToVariables | mdiocre/parsers/html.py:14-23 | `HtmlParser.to_variables`: the `<!--:…-->` pass, and `content` is the substituted page itself. |
| Parsers.MarkdownToVariables | mdiocre/parsers/markdown.py:18-29 | `MarkdownParser.to_variables`: the `<!--:…-->` pass, then the Markdown converter. |
| Parsers.ZimToVariables | mdiocre/parsers/zim.py:194-205 | `ZimParser.to_variables`: the `[mdiocre:…]` pass, then the Zim converter, which runs even when `content` is not written. |
| Parsers.GemToVariables | mdiocre/parsers/gem.py:120-138 | `GemParser.to_variables`: the `[mdiocre:…]` pass, the Gemtext converter, then the re-serialisation. |
| ParserFacts.PlainPage | mdiocre/parsers/html.py:14-23 | A page without directives leaves the store as it was, with `content` the conversion of the whole page. |
| ParserFacts.IgnoredKeepsReserved | mdiocre/parsers/zim.py:202-203 | With `ignore_content` set, the adapters never touch `content` or the timestamp, whether the pass succeeds or raises. |
| ParserFacts.WrittenContent | mdiocre/parsers/gem.py:135-136 | Otherwise the only reserved name that changes is `content`, and it is set exactly when the pass succeeds. |
| Zim.EscapeRemovesAngles | mdiocre/parsers/zim.py:130-131 | After escaping, a line holds no angle bracket at all. |
| Zim.EscapeNoop | mdiocre/parsers/zim.py:121-122 | A line without angle brackets is not changed by escaping. |
| Zim.EntitiesKeepEscaped | mdiocre/parsers/zim.py:134-136 | The entity pass brings no angle bracket back, so normal text stays escaped. |
| Zim.Paragraph | mdiocre/parsers/zim.py:139-141 | A line that starts with a character other than `=`, `*` or whitespace is wrapped in `<p>…</p>`; every other line is unchanged. |
| Zim.WordRun | mdiocre/parsers/zim.py:69 | The first index at or after `i` that does not hold a word character. |
| Zim.IsUrlMeansScheme | mdiocre/parsers/zim.py:69 | The scan decides the regex: one or more word characters, then `://`. |
| Zim.SchemeEnd | mdiocre/parsers/zim.py:69 | Word characters up to a `://` are exactly the leading run. |
| Zim.DropPlus | mdiocre/parsers/zim.py:72-73 | A leading `+` (a link to a sub-page) is dropped. |
| Zim.LinkTarget | mdiocre/parsers/zim.py:69-73 | Where a link points: a URL is kept; any other target without an extension names a page and gets `.html`, and then a leading `+` is dropped. |
| Zim.LinkSub | mdiocre/parsers/zim.py:59-86 | The anchor a link match becomes: the pipe text labels it when it is non-empty, else the target does. |
| Zim.LinkPlain | mdiocre/parsers/zim.py:49 | A match of the second alternative starts with `[[` and ends just after an occurrence of `]]`. |
| Zim.LinkMatch | mdiocre/parsers/zim.py:49 | A link match starts with `[[` and consumes more than the opening brackets, within the text. |
| Zim.LinkAt | mdiocre/parsers/zim.py:145 | A link replacement at the start of `t` starts with `[[` and consumes at least one character. |
| Zim.ImageSub | mdiocre/parsers/zim.py:88-102 | The tag an image match becomes. A non-empty group 3 is the source, with an empty attribute slot; otherwise groups 1 and 2 fill the two slots, and an absent group prints as `None`. |
| Zim.ImageMatch | mdiocre/parsers/zim.py:50 | An image match starts with `{{` and consumes more than the opening braces, within the text. |
| Zim.ImageAt | mdiocre/parsers/zim.py:148 | An image replacement at the start of `t` starts with `{{` and consumes at least one character. |
| Zim.CloseTag | mdiocre/parsers/zim.py:34-38 | The index found holds the doubled mark (for `em` not after a `:`), and no index from `j` up to it does. |
| Zim.TagAt | mdiocre/parsers/zim.py:34-38 | A match starts with the doubled mark and consumes at least one character, within the text. |
| Zim.TagAdvances | mdiocre/parsers/zim.py:163-168 | Each inline pattern's matcher consumes at least one character per match, so the rewrite pass terminates. |
| Zim.TagPasses | mdiocre/parsers/zim.py:163-168 | The loop over the tag table applies every inline substitution in table order. |
| Zim.HeaderAt | mdiocre/parsers/zim.py:171-176 | `M (.*?) M$` at the start of `t`: the match runs to the end of the line. |
| Zim.HeaderAdvances | mdiocre/parsers/zim.py:171-176 | Each heading pattern's matcher consumes at least one character per match. |
| Zim.HeaderPasses | mdiocre/parsers/zim.py:171-176 | The loop over the heading table applies every heading substitution in table order. |
| Zim.ListItem | mdiocre/parsers/zim.py:155 | A `* ` line becomes `<li>` + the text after `* ` + `</li>`. |
| Zim.NotEmpty | mdiocre/parsers/zim.py:181-192 | The flag-driven filter loop keeps exactly the lines of the specification `Kept`: non-blank lines, and every line from a `<pre>` line up to the next `</pre>` line. |
| Zim.Markup | mdiocre/parsers/zim.py:163-176 | The inline passes, then the heading passes, in table order. |
| Zim.NormalMode | mdiocre/parsers/zim.py:151-176 | The list flag and emitted lines are those of the normal-line specification: `<ul>` before the first item, `</ul>` before the first non-item, then the marked-up line. |
| Zim.ConvertMarkup | mdiocre/parsers/zim.py:26-192 | The line loop, with its three flags, computes the specification `Converted`: every line through `Line`, then the blank-line filter, joined with newlines. |
| ZimFacts.MetaLineSilent | mdiocre/parsers/zim.py:107 | The page header Zim writes produces no output and leaves every flag as it was. |
| ZimFacts.PreFenceToggles | mdiocre/parsers/zim.py:108-113 | A `'''` line flips pre mode whatever the other flags are, and emits `<pre>` when it opens a block and `</pre>` when it closes one. |
| ZimFacts.RawFenceToggles | mdiocre/parsers/zim.py:114-115 | A `!!!` line flips raw-HTML mode and emits nothing. |
| ZimFacts.PreOnlyEscapes | mdiocre/parsers/zim.py:117-122 | Inside a pre block a line is only escaped: it comes out as the one line with `<` and `>` replaced, and is copied as it is when it holds neither. |
| ZimFacts.RawVerbatim | mdiocre/parsers/zim.py:123-125 | Inside a raw-HTML block (and outside pre) a line is copied byte for byte. |
| ZimFacts.LinksInert | mdiocre/parsers/zim.py:145 | Text without `[` holds no link. |
| ZimFacts.ImagesInert | mdiocre/parsers/zim.py:148 | Text without `{` holds no image. |
| ZimFacts.TagInert | mdiocre/parsers/zim.py:163-168 | A text holding none of `'`, `*`, `_`, `~` and no `//` is left unchanged by each inline pattern. |
| ZimFacts.NoMarkPair | mdiocre/parsers/zim.py:34-38 | No two neighbouring characters of an unmarked text form a tag's doubled mark. |
| ZimFacts.ApplyTagsInert | mdiocre/parsers/zim.py:163-168 | A text holding none of `'`, `*`, `_`, `~` and no `//` is left unchanged by the whole inline loop. |
| ZimFacts.HeaderInert | mdiocre/parsers/zim.py:171-176 | A text that also holds no `[`, `{` or `=` is left unchanged by each heading pattern. |
| ZimFacts.ApplyHeadersInert | mdiocre/parsers/zim.py:171-176 | A text that also holds no `[`, `{` or `=` is left unchanged by the whole heading loop. |
| ZimFacts.WrappedInert | mdiocre/parsers/zim.py:163-176 | Plain text between an opening tag and a closing tag is left alone by the markup passes. |
| ZimFacts.PlainNotMeta | mdiocre/parsers/zim.py:107 | Plain text does not start any header line. |
| ZimFacts.EscapeEntitiesNoop | mdiocre/parsers/zim.py:130-136 | Escaping and the entity pass leave text without `<`, `>` and the three signs as it is. |
| ZimFacts.NormalModeLine | mdiocre/parsers/zim.py:107-177 | An ordinary line in normal mode is handled by the normal-mode steps alone. |
| ZimFacts.NormalOther | mdiocre/parsers/zim.py:156-159 | A prepared line that is not a list item closes an open list and becomes one line. |
| ZimFacts.NormalItem | mdiocre/parsers/zim.py:151-155 | A prepared list item opens a list when none is open and becomes one `<li>` line. |
| ZimFacts.PlainNoMarkup | mdiocre/parsers/zim.py:130-176 | Plain text holds none of the characters the escaping and markup passes look for. |
| ZimFacts.PlainParagraph | mdiocre/parsers/zim.py:139-159 | In normal mode a line of plain text that does not start with a space becomes one paragraph; an open list is closed on the line before it. |
| ZimFacts.ListItemLine | mdiocre/parsers/zim.py:151-155 | In normal mode a `* ` line with plain text becomes one list item; it opens `<ul>` first only when no list is open, and the list stays open. |
| ZimFacts.RunStep | mdiocre/parsers/zim.py:104-177 | One more input line: the run goes on from the flags the earlier lines left. |
| ZimFacts.ListThenParagraph | mdiocre/parsers/zim.py:151-159 | Consecutive items share one `<ul>`, and the next paragraph closes the list before itself. |
| ZimFacts.TwoItems | mdiocre/parsers/zim.py:151-155 | Two items in a row: one `<ul>`, two `<li>` lines, and the list is still open. |
| ZimFacts.UnclosedList | mdiocre/parsers/zim.py:104-192 | A list still open at the end of the input is not closed. |
| ZimFacts.UnclosedPre | mdiocre/parsers/zim.py:104-192 | A pre block still open at the end of the input is not closed either. |
| ZimFacts.KeptOutsidePre | mdiocre/parsers/zim.py:187-190 | With no `<pre>` line, the filter keeps exactly the lines that are not blank. |
| ZimFacts.KeptInsidePre | mdiocre/parsers/zim.py:182-188 | Inside a pre block every line is kept, blank or not, up to the first `</pre>`. |
| ZimFacts.KeptPreBlock | mdiocre/parsers/zim.py:181-192 | A whole pre block, its fences included, survives the filter unchanged. |
| ZimFacts.KeptFence | mdiocre/parsers/zim.py:183-188 | A fence line is always kept and sets the pre flag. |
| ZimFacts.WordRunStops | mdiocre/parsers/zim.py:69 | The leading word characters of `s` are exactly its first `n` characters. |
| ZimFacts.PageTarget | mdiocre/parsers/zim.py:69-71 | A page name is not a URL: it links to its `.html` page. |
| ZimFacts.SubPageTarget | mdiocre/parsers/zim.py:72-73 | A `+` page name links to the sub-page's `.html` file, without the `+`. |
| ZimFacts.UrlTarget | mdiocre/parsers/zim.py:69 | A `scheme://` target is kept as it is. |
| ZimFacts.PlainLink | mdiocre/parsers/zim.py:59-86 | A link without a pipe: the target, rewritten, is also the label. |
| ZimFacts.PlainLinkMatch | mdiocre/parsers/zim.py:49 | Without a pipe the second alternative matches, up to the closing brackets. |
| ZimFacts.WholeLink | mdiocre/parsers/zim.py:145 | A match that covers the whole text is the whole result. |
| ZimFacts.PipedLink | mdiocre/parsers/zim.py:59-86 | A link with a non-empty pipe text: the text is the label, the part before the pipe the target. |
| ZimFacts.PipeSearch | mdiocre/parsers/zim.py:49 | The first pipe character of a piped link is the one right after the target. |
| ZimFacts.EmptyPipeLink | mdiocre/parsers/zim.py:59-86 | An empty pipe text does not label the link: the pipe stays in the target, which gets `.html`. |
| ZimFacts.HeaderMatchWhole | mdiocre/parsers/zim.py:173 | A line that is the mark, a space, the title, a space and the mark is one whole heading match. |
| ZimFacts.TopHeadingMatch | mdiocre/parsers/zim.py:42 | The first heading pass turns `====== T ======` into `<h1>T</h1>`. |
| ZimFacts.TopHeading | mdiocre/parsers/zim.py:171-176 | `====== T ======` becomes `<h1>T</h1>`, and no later heading pass changes it. |
| ZimFacts.HeadingChars | mdiocre/parsers/zim.py:41-47 | The characters of a top heading line: `=`, spaces and the plain title. |
| ZimFacts.HeadingMarkup | mdiocre/parsers/zim.py:163-176 | The inline and heading passes turn a top heading line into its `<h1>` element. |
| ZimFacts.HeadingLine | mdiocre/parsers/zim.py:139-177 | In normal mode, outside a list, a top heading line is that one heading. |
| Gem.SpaceRun | mdiocre/parsers/gem.py:19 | The run of whitespace from `i` is maximal: every character in it is whitespace and the next one is not. |
| Gem.NonSpaceRun | mdiocre/parsers/gem.py:20 | The run of non-whitespace from `i` is maximal: none of its characters is whitespace and the next one is. |
| Gem.HashRun | mdiocre/parsers/gem.py:19 | The run of `#` from `i` is maximal. |
| Gem.SpaceTail | mdiocre/parsers/gem.py:19 | `\s+(.+)$` matches at `i` exactly when a whitespace character is followed by at least one more character; the group starts after whitespace only, at the first non-space unless that is the last character. |
| Gem.HeadingMatch | mdiocre/parsers/gem.py:50-53 | A heading match has level 1 to 6, made of that many leading `#`, and its text starts inside the line after them. |
| Gem.LinkMatch | mdiocre/parsers/gem.py:20 | A link-line match starts with `=>`, ends within the line, and its target has at least two characters and starts with a word character. |
| Gem.CaptionTail | mdiocre/parsers/gem.py:23 | A caption match ends within the text just after a `)`. |
| Gem.LastParen | mdiocre/parsers/gem.py:23 | The index found is the last `)` in the range, and there is none when the range has no `)`. |
| Gem.InsideAt | mdiocre/parsers/gem.py:93 | An inline link match starts with `(=>` and consumes at least one character, within the text. |
| Gem.CodeKey | mdiocre/parsers/gem.py:35-39 | A block key is non-empty and starts with `_`, so it cannot be confused with text that holds no `_`. |
| Gem.Step | mdiocre/parsers/gem.py:41-111 | One pass of the line loop keeps the key table well-formed: every stored key is non-empty (`Keyed`). |
| Gem.Run | mdiocre/parsers/gem.py:41-111 | The state after any sequence of lines keeps the key table well-formed. |
| Gem.NormalMode | mdiocre/parsers/gem.py:44-102 | The list flag, emitted lines and pre-block flag are those of the normal-mode specification `Normal`. |
| Gem.LineStep | mdiocre/parsers/gem.py:41-111 | The loop variables after one line are those of the specification `Step`. |
| Gem.LineLoop | mdiocre/parsers/gem.py:41-111 | The final state and output lines are those of the specification `Run` over all lines. |
| Gem.ResolveKeys | mdiocre/parsers/gem.py:115-116 | The replacement loop computes `Resolve`: each key, in insertion order, replaced by its alt text throughout. |
| Gem.ConvertMarkup | mdiocre/parsers/gem.py:15-118 | The whole conversion equals the specification `Converted`: split, run the line loop, join with newlines, resolve the keys. |
| GemFacts.Hashes | mdiocre/parsers/gem.py:19 | `n` hash signs. |
| GemFacts.SpaceThenText | mdiocre/parsers/gem.py:19 | One space and then text: `\s+(.+)$` captures exactly the text. |
| GemFacts.HeadingText | mdiocre/parsers/gem.py:50-53 | `#`×N, a space and text, for N from 1 to 6, is the heading `<hN>text</hN>`. |
| GemFacts.TooDeep | mdiocre/parsers/gem.py:19 | Seven or more `#` never make a heading. |
| GemFacts.BlockquoteText | mdiocre/parsers/gem.py:56-59 | `> text` is the blockquote `<blockquote>text</blockquote>`. |
| GemFacts.ListItemText | mdiocre/parsers/gem.py:22 | `* item` is a list line whose item is the text after the space. |
| GemFacts.TargetRun | mdiocre/parsers/gem.py:20 | The run of non-space characters from `i` is exactly the target there. |
| GemFacts.LinkLineText | mdiocre/parsers/gem.py:20 | `=> url text` is a link line with that target and that label, matched to the end. |
| GemFacts.LinkLineBare | mdiocre/parsers/gem.py:20 | `=> url` alone is a link line with no label. |
| GemFacts.InlineInert | mdiocre/parsers/gem.py:93 | Text without `(` holds no inline link. |
| GemFacts.TagLine | mdiocre/parsers/gem.py:50-95 | A line that starts with `<`: none of the later patterns of the line loop applies to it. |
| GemFacts.NormalTagged | mdiocre/parsers/gem.py:44-102 | A line whose first three patterns made it an element is no list item and no link line: it closes an open list and is emitted as it stands. |
| GemFacts.NormalParagraph | mdiocre/parsers/gem.py:46-47 | A non-empty line that starts none of `#`, `*`, `>`, three backticks or `=>` becomes `<p>line</p>`. |
| GemFacts.NormalHeading | mdiocre/parsers/gem.py:50-53 | A heading line becomes `<hN>text</hN>` and closes an open list. |
| GemFacts.NormalBlockquote | mdiocre/parsers/gem.py:56-59 | `> text` becomes `<blockquote>text</blockquote>` and closes an open list. |
| GemFacts.NormalListItem | mdiocre/parsers/gem.py:64-71 | `* item` becomes `<li>item</li>`, preceded by `<ul>` when no list is open; the list stays open. |
| GemFacts.LinkLineSteps | mdiocre/parsers/gem.py:61-76 | The steps of a link line up to the inline links: it is listed, so it closes nothing. |
| GemFacts.PreparedUnchanged | mdiocre/parsers/gem.py:46-59 | A line no preparing step matches is left as it is. |
| GemFacts.ListStepLinkLine | mdiocre/parsers/gem.py:61-76 | The list step leaves a link line alone and keeps the list state. |
| GemFacts.NormalLinked | mdiocre/parsers/gem.py:87-93 | A link line becomes its list item, once the inline links leave it alone. |
| GemFacts.NormalLinkLine | mdiocre/parsers/gem.py:79-91 | `=> url text` becomes `<li><a href="url">text</a></li>`, preceded by the link list's `<ul class="gemtext-links">` only when no list is open. |
| GemFacts.NormalLinkBare | mdiocre/parsers/gem.py:83-84 | `=> url` alone is labelled with the target itself. |
| GemFacts.NormalFence | mdiocre/parsers/gem.py:95-98 | Three backticks and more text open a pre block: the line becomes `<pre alt="KEY"><code>` and the text after the backticks is dropped. Like any line that is neither a list item nor a link line, it closes an open list. |
| GemFacts.NormalShape | mdiocre/parsers/gem.py:44-102 | A normal-mode line inserts at most one list line before its own, and only a list marker. |
| GemFacts.OpensBlock | mdiocre/parsers/gem.py:95-98 | Outside a pre block, three backticks and more text open one: the block's key is drawn, the list flag drops, and the key table is left alone. |
| GemFacts.PreVerbatim | mdiocre/parsers/gem.py:103-111 | Inside a pre block every line that is not a fence is emitted unchanged and changes nothing. |
| GemFacts.PreCloses | mdiocre/parsers/gem.py:104-109 | A fence inside a pre block closes it with `</code></pre>` and records the text after its backticks as the alt text of the block's key; every other key keeps its entry. |
| GemFacts.RunSnoc | mdiocre/parsers/gem.py:41-111 | Appending a line runs one more step. |
| GemFacts.StepShape | mdiocre/parsers/gem.py:41-111 | Every step emits its line's own output, after at most one inserted list marker. |
| GemFacts.RunLength | mdiocre/parsers/gem.py:41-112 | Each input line yields one output line of its own, plus at most one inserted list line. |
| GemFacts.RunDistinct | mdiocre/parsers/gem.py:109 | The key table stays a dictionary: no key is stored twice. |
| GemFacts.RunOne | mdiocre/parsers/gem.py:41-111 | A run of one line is one step from the start. |
| GemFacts.RunTwo | mdiocre/parsers/gem.py:41-111 | A run of two lines: the second step starts where the first one left the state. |
| GemFacts.FirstItem | mdiocre/parsers/gem.py:64-71 | A list item at the start opens the list. |
| GemFacts.ListThenParagraph | mdiocre/parsers/gem.py:64-76 | A list item opens the list, and the paragraph after it closes the list before itself. |
| GemFacts.ParagraphInList | mdiocre/parsers/gem.py:73-76 | A paragraph inside an open list closes it before itself. |
| GemFacts.ListThenLink | mdiocre/parsers/gem.py:61-91 | A link line straight after a list item joins the open list: it inserts no `<ul class="gemtext-links">` and no `</ul>`, and the list is still open at the end of the input. |
| GemFacts.LinkInList | mdiocre/parsers/gem.py:87-91 | A bare link line inside an open list adds its item and keeps the list open. |
| GemFacts.SplitThree | mdiocre/parsers/gem.py:17 | Three lines joined by newlines split back into those three lines. |
| GemFacts.RunOpenBlock | mdiocre/parsers/gem.py:95-111 | The state and output after opening a block and copying one line of it. |
| GemFacts.FirstFence | mdiocre/parsers/gem.py:95-98 | A fence at the start opens the first block under the first key. |
| GemFacts.UnclosedBlock | mdiocre/parsers/gem.py:15-118 | A block with no closing fence keeps its placeholder key in the output. |
| GemFacts.RunClosedBlock | mdiocre/parsers/gem.py:95-109 | Opening a block, copying one line and closing it records the closing fence's text under the block's key. |
| GemFacts.CloseFirst | mdiocre/parsers/gem.py:104-109 | The closing fence of the first block stores its text under the block's key. |
| GemFacts.ResolveBlock | mdiocre/parsers/gem.py:115-116 | Replacing the key of a closed block puts its alt text into the opening tag and nowhere else. |
| GemFacts.ClosedBlock | mdiocre/parsers/gem.py:15-118 | A closed block takes the text after its closing fence as its alt text; the text after the opening fence is dropped. |
| Config.VarNameRun | mdiocre/config.py:63 | The greedy run from `i` is maximal over `a-z`, `0-9`, `-` and `_`. |
| Config.VarNameExactly | mdiocre/config.py:51-64 | A valid name is a non-empty run of `a-z`, `0-9`, `-`, `_`, optionally followed by one newline. |
| Config.FirstInvalid | mdiocre/config.py:159-160 | None exactly when every name is valid; otherwise an invalid name all of whose predecessors are valid. |
| Config.FirstMissing | mdiocre/config.py:146-150 | None exactly when every key is present; otherwise a missing key all of whose predecessors are present. |
| Config.Names | mdiocre/config.py:159 | The names of a dictionary's entries, in order. |
| Config.CheckAccepts | mdiocre/config.py:135-173 | `validate` accepts exactly the dictionaries that hold every required key, whose `vars` is a dictionary of valid names; extra keys are allowed. |
| Config.CheckReports | mdiocre/config.py:146-160 | A failing `validate` names the first required key missing, or the first invalid variable name. |
| Config.ShapeList | mdiocre/config.py:102 | A list option's items hold no space and no comma, and joined with `,` they give the value without its spaces. |
| Config.ShapeOptions | mdiocre/config.py:96-103 | The option loop, when it succeeds, keeps every key it started with. |
| Config.ShapeKeeps | mdiocre/config.py:96-103 | Every option of the section is a key of the result. |
| Config.ShapeLast | mdiocre/config.py:99-103 | Each shaped option takes the shape its name calls for, from its last occurrence. |
| Config.ShapeUntouched | mdiocre/config.py:96-103 | A key no option names keeps its value. |
| Config.ReadHasRequired | mdiocre/config.py:91-115 | A dictionary that `read_config` returns holds every key `validate` requires, so `validate` can reject it only for its `vars`. |
| Config.EmptyRequiredRaises | mdiocre/config.py:97-98 | A required option that is present but empty makes `read_config` raise, whatever else the file holds. |
| Config.ReadOptions | mdiocre/config.py:66-118 | The method with its loops returns exactly the specification `ReadConfig`: ConfigInvalid for a missing file, None for a missing section or option, the failed assertion for an empty required option, the shaped dictionary otherwise. |
| Config.Config.constructor | mdiocre/config.py:23-26 | The fields as `__init__` sets them before it validates or loads anything. |
| Config.Config.Validate | mdiocre/config.py:120-173 | `validate`: on success the dictionary and its `vars` are stored and `valid` is set; on failure nothing changes. |
| Config.Config.LoadConfig | mdiocre/config.py:35-49 | `load_config`: `config` takes what `read_config` returns, unless it raises, and is then validated. |
| Config.CheckMissing | mdiocre/config.py:146-150 | The first missing required key is the one `Check` reports. |
| Config.CheckInvalid | mdiocre/config.py:157-160 | The first invalid variable name is the one `Check` reports. |
| Config.NewConfig | mdiocre/config.py:23-33 | `Config(filename, config)`: a truthy `config` is validated; otherwise a string filename is loaded; otherwise `config` stays None and `valid` False. A failure carries the error that reading or validation raised. |
| Wizard.Extension | mdiocre/wizard.py:64-67 | The extension holds no dot, no `/` and no upper-case letter. |
| Wizard.TableDomain | mdiocre/wizard.py:23-30 | The table maps exactly seven extensions; `zim`, which the Zim adapter declares, is not one of them. |
| Wizard.ExtensionOf | mdiocre/wizard.py:167-170 | A name whose last component ends in `.EXT` has extension `EXT` in lower case. |
| Wizard.CaseInsensitive | mdiocre/wizard.py:177 | Upper-case extensions select the same adapter: `page.MD` is Markdown. |
| Wizard.LowerTwice | mdiocre/wizard.py:67 | Lower-casing twice is lower-casing once. |
| Wizard.MdiocreExactly | mdiocre/wizard.py:99-107 | A page is a MDiocre page exactly when its variables-only pass succeeds and leaves a non-empty template name. |
| Wizard.NoTemplateEmpty | mdiocre/wizard.py:134-153 | A page without a template gives "", and so does a template path that does not exist (None from `files`). |
| Wizard.WriteOnlyConverted | mdiocre/wizard.py:177-217 | A page is written only when its extension is mapped and its conversion is non-empty; the written text is the conversion, and with `to_html` the name is the built name's stem with `.html`. |
| Wizard.HtmlNameShape | mdiocre/wizard.py:187-188 | The `.html` name keeps the directory and stem and ends in `.html`. |
| Wizard.UnmappedCopied | mdiocre/wizard.py:212-217 | Files whose extension the table does not map are always copied, whatever they hold. |
| Versioning.Run | versioning.py:27 | The run stays within the text; `RunGreedy` states that it is maximal. |
| Versioning.RunGreedy | versioning.py:27 | The run is greedy: every character it takes is in the class, and the one after it is not. |
| Versioning.Part | versioning.py:27 | A matched group captures exactly the text between its lead and its end, which lies beyond the lead and within the text. |
| Versioning.RcDev | versioning.py:27 | A matched tag group ends after where it starts and within the text. |
| Versioning.Numbers | versioning.py:27 | A match of the two numbers has positive length within the text. |
| Versioning.CommitFrom | versioning.py:27 | The match ends no earlier than the commit group starts and within the text. |
| Versioning.DistanceFrom | versioning.py:27 | The match ends no earlier than the distance group starts and within the text. |
| Versioning.RcDevFrom | versioning.py:27 | The match ends no earlier than the tag group starts and within the text. |
| Versioning.OptionalTail | versioning.py:27 | The match ends no earlier than the optional groups start and within the text. |
| Versioning.MatchAt | versioning.py:27 | A match has positive length within the text, so `re.sub` advances. |
| Versioning.VersionMatcher | versioning.py:15-27 | A match consumes at least one character, so the rewrite pass advances. |
| Versioning.TextStarts | versioning.py:27 | Each optional group's text begins with `.` or `-`. |
| Versioning.RunOver | versioning.py:27 | A greedy run over text in the class, followed by a character outside it or the end, takes exactly that text. |
| Versioning.PartHit | versioning.py:27 | An optional group present in the text is captured whole, and the text after it follows. |
| Versioning.PartMiss | versioning.py:27 | An optional group whose first character is not there does not match. |
| Versioning.PartNoRun | versioning.py:27 | A group whose lead is not followed by a character of the class does not match. |
| Versioning.DescribeRoundTrip | versioning.py:8-27 | A whole `git describe` string is one match whose groups are the ones it was printed from, so `git2pep440` turns it into their version string. |
| Versioning.DescribeMatch | versioning.py:27 | The match at the start of a `git describe` text takes all of it, with the groups it was printed from. |
| Versioning.MatchOf | versioning.py:27 | The match over `[v]MAJOR.MINOR` and the optional groups' text. |
| Versioning.MatchTail | versioning.py:27 | The match over the two numbers, then the optional groups' text up to the end. |
| Versioning.MatchFrom | versioning.py:27 | The match is the two numbers and the optional groups after them. |
| Versioning.MajorDot | versioning.py:27 | The major number is the run up to the dot, and the text after the dot follows. |
| Versioning.NumbersAt | versioning.py:27 | `Numbers` read off the two runs and the dot between them. |
| Versioning.RunPrefix | versioning.py:27 | A run followed by a character outside the class or the end is consumed exactly. |
| Versioning.TailOf | versioning.py:27 | The optional groups after `MAJOR.MINOR` are recovered one by one, and the match ends with the text. |
| Versioning.PatchHit | versioning.py:19-20 | A present patch number is captured, and the later groups are read after it. |
| Versioning.NoPatch | versioning.py:19-20 | Where the text goes on with a tag group, a distance or nothing, the patch group is absent. |
| Versioning.RcDevHit | versioning.py:21-22 | A present tag group is captured whole, tag and number. |
| Versioning.TagPart | versioning.py:27 | The lead `.rc` or `.dev` and the tag's number, captured as a group ending where the tag does. |
| Versioning.RcDevMiss | versioning.py:21-22 | Where the text does not go on with `.`, the tag group is absent. |
| Versioning.RcMiss | versioning.py:27 | `.rc` does not match where `.d` stands. |
| Versioning.NoDistance | versioning.py:23-24 | Where the text goes on with the commit group or nothing, the distance group is absent. |
| Versioning.NoDigitsUnchanged | versioning.py:27 | Text without a digit holds no version: `git2pep440` returns it unchanged. |
| Versioning.DistanceWithoutCommit | versioning.py:23-24 | `-N` without `-gHEX` gives `+N.None`. |
| Versioning.CommitWithoutDistance | versioning.py:23-27 | `-gHEX` without `-N` is dropped. |
| Samples.BlogFiles | samples/make_index.py:29-32 | The kept names are exactly the listed names that are posts: ending in `.md` or `.rst` in any case, with a lower-cased stem not starting with `index`. |
| Samples.BlogFilesAppend | samples/make_index.py:29-32 | Filtering two listings one after the other is filtering their concatenation. |
| Samples.BlogFilesOfPosts | samples/make_tags.py:32-35 | A listing of posts only is kept whole and in order. |
| Samples.PostVars | samples/make_index.py:42-47 | An extension the converter table lacks raises KeyError naming it; otherwise the post succeeds exactly when the selected adapter's variables-only processing does. |
| Samples.EntryOf | samples/make_index.py:49-52 | Succeeds exactly when `date` and `title` are both set; the entry then holds them, and its name followed by the extension is the file name. |
| Samples.Entries | samples/make_index.py:37-52 | What the posts give, in listing order, or the first failure: the list succeeds exactly when every post does, and then holds each post's own result at its position. |
| Samples.EntriesStop | samples/make_index.py:37-52 | The first post that fails stops the whole list with its own failure. |
| Samples.CollectEntries | samples/make_index.py:37-52 | The loop's result is the specification `Entries`. |
| Samples.InsertSorted | samples/make_index.py:54 | Inserting into a sorted list keeps it sorted and adds exactly the one entry. |
| Samples.InsertBounded | samples/make_index.py:54 | A date no entry of `t` nor `e` exceeds bounds every entry of the insertion. |
| Samples.SortByDate | samples/make_index.py:54 | The result is ordered by non-decreasing date key and holds the same entries, each as often. |
| Samples.Reversed | samples/make_index.py:55 | The result has the length of the input and holds at place `i` the input's element at place `n - 1 - i`, `n` being that length. |
| Samples.NewestFirstOrder | samples/make_index.py:54-55 | Newest first holds the same entries, each as often, with dates never increasing. |
| Samples.EntryLines | samples/make_index.py:76-77 | One line `* **DATE** - [TITLE](NAME.html)` per entry, in the same order. |
| Samples.FormatEntries | samples/make_index.py:75-77 | The loop's result is the specification `EntryLines`. |
| Samples.LinkNamesBuiltPage | samples/make_index.py:77 | The link of a post's entry names the page `generate_from_path` writes for that post when it converts to `.html`: the listed line ends with `(` + that name + `)`. |
| Samples.RunOf | samples/make_index.py:70-100 | The pages the first `k` turns of a writing loop leave: turn `i` (from 1) writes `make(items[i - 1], i)` to `name(items[i - 1], i)`, and the first exception stops the loop with nothing written for that turn or after. |
| Samples.StoppedStays | samples/make_index.py:70-100 | Once a turn fails, no later turn writes anything. |
| Samples.WriteAll | samples/make_index.py:70-100 | The loop's pages and stop are those of the specification `RunOf` over every item. |
| Samples.ProcessPlainMarkdown | samples/make_index.py:81 | Markdown without any `<!--:` leaves a store holding only the timestamp and the converted text as `content`. |
| MakeIndex.ChunksConcat | samples/make_index.py:58 | The pages hold every entry once and in order. |
| MakeIndex.ChunksSizes | samples/make_index.py:58 | No page is empty, each holds at most `n`, and every page but the last holds exactly `n`. |
| MakeIndex.ChunksCount | samples/make_index.py:21 | Pages of five: `n` entries make `(n + 4) / 5` pages. |
| MakeIndex.ChunkStart | samples/make_index.py:58 | Page `k` (from 0) starts at entry `k * n`. |
| MakeIndex.Decimal | samples/make_index.py:97 | The digits are non-empty, hold only `0`-`9`, and start with `0` only for the number 0. |
| MakeIndex.DecimalValue | samples/make_index.py:97 | Reading back the digits gives the number. |
| MakeIndex.IndexNamesDistinct | samples/make_index.py:97 | Different page numbers name different files. |
| MakeIndex.NavigationLinks | samples/make_index.py:83-89 | Every page's links read as a navigation block of that shape: a lone first page still links on to `index_2.html`. |
| MakeIndex.OnlyPageLinksAhead | samples/make_index.py:84-85 | A one-page index links to a second page that the script never writes. |
| MakeIndex.NoLessThanInDecimal | samples/make_index.py:83-89 | Page numbers and the links between pages hold no `<`. |
| MakeIndex.ContentLookup | samples/make_index.py:83 | The directive of the navigation text is ` content `, which is no assignment and reads back `content`. |
| MakeIndex.StripPadded | samples/make_index.py:83 | One space on either side of a word is stripped away. |
| MakeIndex.NavigationRendered | samples/make_index.py:91 | Rendering the navigation text with the list page's store puts that page's `content` in front of the links and changes no variable. |
| MakeIndex.IndexPageOfPlainList | samples/make_index.py:79-95 | With a list free of directives, the navigation page is the converted list followed by the links, and the page is the template rendered with the conversion of that. |
| MakeIndex.IndexFiles | samples/make_index.py:70-100 | Page `i` of a run is written to `index_i.html` and holds the rendering of the `i`-th slice; no two pages share a file name. |
| MakeIndex.MakeIndexPages | samples/make_index.py:26-101 | The whole script: the posts' entries, newest first, in pages of five, each page written in turn; a failing post stops it before any page. |
| MakeIndex.IndexHoldsEveryPost | samples/make_index.py:54-58 | The index lists every post once, newest first, across as many pages as five-post slices need. |
| MakeTags.TagList | samples/make_tags.py:54-59 | There is always at least one tag; a value that strips to "" gives exactly `["unsorted"]`. |
| MakeTags.TagsStripped | samples/make_tags.py:59 | No tag has whitespace around it. |
| MakeTags.TagListOfJoin | samples/make_tags.py:54-59 | Tags written with single spaces between them come back as written; the first and the last must be non-empty, an inner one may be empty (two spaces in a row). |
| MakeTags.SplitJoin | samples/make_tags.py:59 | Splitting a join of pieces that lack the separator gives the pieces back. |
| MakeTags.DoubleSpaceEmptyTag | samples/make_tags.py:59 | Two spaces in a row file the post under the empty tag as well. |
| MakeTags.NoTagsUnsorted | samples/make_tags.py:54-57 | A post without tags is filed under `unsorted`. |
| MakeTags.Hits | samples/make_tags.py:61-66 | Empty exactly when `t` is not among the tags; otherwise every element is the entry. |
| MakeTags.TaggedMembers | samples/make_tags.py:61-66 | A post's entry is under `t` exactly when the post names `t`. |
| MakeTags.AddNewFacts | samples/make_tags.py:64-65 | Appending new tags keeps the order's tags and their distinctness and adds exactly the named ones. |
| MakeTags.FirstSeenFacts | samples/make_tags.py:61-66 | Each tag that any post names is a key, once, and no other is. |
| MakeTags.TagTable.constructor | samples/make_tags.py:37 | The empty `tags` dictionary: no keys and no lists. |
| MakeTags.TagTable.Append | samples/make_tags.py:61-66 | `tags[tag].append(entry)`, creating the list on the `KeyError`. |
| MakeTags.TagTable.File | samples/make_tags.py:61-66 | `for tag in page_tag_list`: the entry appended under each tag in turn. |
| MakeTags.TagTable.SortLists | samples/make_tags.py:68-70 | `for tag in tags`: each list sorted by date and reversed, in place. |
| MakeTags.SortStep | samples/make_tags.py:68-70 | Sorting the list of the next key in `order` extends the sorted prefix by it. |
| MakeTags.FileStep | samples/make_tags.py:61-66 | One append, seen from the lists of every tag. |
| MakeTags.BuildTable | samples/make_tags.py:40-66 | After the loop the keys, in insertion order, are the tags in order of first mention, and each tag's list is the specification `Tagged` of the posts. |
| MakeTags.TagPageShape | samples/make_tags.py:83-87 | The page starts with the heading; with posts, a blank line follows it and then the entries' lines joined by newlines. |
| MakeTags.TagFilesDistinct | samples/make_tags.py:93 | Different tags get different files. |
| MakeTags.ItemsOf | samples/make_tags.py:82 | `tags.items()`: each key with its list, in insertion order. |
| MakeTags.TagItems | samples/make_tags.py:68-82 | What `for tag_name, tag_list in tags.items()` walks over once the lists are sorted. |
| MakeTags.MakeTagPages | samples/make_tags.py:29-97 | The whole script: every post read first (a failing post stops it before any page), then filed under its tags, each tag's list put newest first, and one page written per tag in order of first occurrence. |
| MakeTags.TagPagesCoverPosts | samples/make_tags.py:61-96 | A post is on the page of every tag it names. |
| MakeTags.TagPagesSound | samples/make_tags.py:61-96 | Every tag page lists only posts that name its tag, newest first; no two pages share a file. |

## Left out

- Arithmetic values go to Python's `eval`, where `/` yields a float. The model uses an uninterpreted evaluator parameter (`arith`) instead.
- Markdown conversion uses the `markdown` library with `mdx_gfm`, which is foreign code. It is a parameter of `Process` and of the Markdown adapter.
- The reStructuredText adapter (`mdiocre/parsers/rst.py`) works entirely through docutils. It is a parameter of `Wizard.Env`.
- The Gemtext adapter re-serialises through ElementTree (`mdiocre/parsers/gem.py:129-133`). That step is a parameter.
- `make_code_hash` draws from `random.randbytes`. The random part of each key is a parameter indexed by block number. The exact hex spelling of the key is not modelled; the model keeps only the `__code__` prefix.
- The generation timestamp comes from `datetime.now()`. It is an opaque string parameter.
- `declare`'s runtime type checks are redundant under Dafny's types.
- I/O is not modelled as effects:
  - file reads, `os.path.exists`, writes and `shutil.copyfile`;
  - `os.makedirs`, `os.listdir` and `os.walk`;
  - logging, and the `print` of written file names.

  Reads are a path-to-contents parameter. A written or copied file is the value `generate_from_path` and the sample loops return.
- `generate_from_directory` is a filesystem walk around `generate_from_path`. It is not part of this model.
- `os.path.abspath` around the template path is not modelled: a path is looked up as joined.
- The overwrite warning that `generate_from_path` logs is left out, because it is logging only.
- `register_converter` writes the non-existent attribute `self.converter`. The model does not treat it as a working operation.
- The `MDiocre` class does not define `switch_parser`, which the wizard and the samples call. It is modelled as selecting the adapter by name (`Wizard.Process`).
- `configparser` itself is not modelled; a parsed file is each section's options in file order. Left out with it:
  - option-name case folding;
  - interpolation;
  - the `DEFAULT` section.
- Logging in `Config` is not modelled, and exception messages are folded into `ConfigError`.
- `versioning.py` outside `git2pep440` is not modelled, because it is subprocess and file I/O:
  - `call_git_describe`;
  - `is_dirty`;
  - `read_release_version` and `write_release_version`;
  - `get_git_version`.
- `samples/make_feed.py` is feedgen and datetime glue. It is not part of this model.
- The GUI, the CLI, `mdiocre.py`, `mdiocre_console.py`, `setup.py`, `mdiocre/logger.py` and `mdiocre/interface/` are front-ends and logging. They are not part of this model.
- `Samples.SortByDate`: the date key is an abstract function standing in for `strptime`, so the `ValueError` on a malformed date is not modelled.
- `Samples.SortByDate`: the contract states the order and the permutation but not the stability of Python's sort.
- `MakeTags.MakeTagPages`: the script files each post as soon as it is read; the model reads every post first and then files them. The two agree because a failing post stops the script before any page is written.
- `Wizard.GenerateFromString`: an existing template that cannot be opened makes `open` raise in the source, while the model gives it the `""` of a missing template. `generate_from_path` copies the source in both cases (`Wizard.GenerateFromPath`).
- `Gem.Converted`: the final replacement of block keys by their closing-fence text (`mdiocre/parsers/gem.py:97`, `108-109`, `115-116`) is proved in general only one step and one key at a time (`GemFacts.OpensBlock`, `GemFacts.PreCloses`, `GemFacts.RunDistinct`, `GemFacts.ResolveBlock`). Over a whole document it is proved only for one unclosed and one closed block (`GemFacts.UnclosedBlock`, `GemFacts.ClosedBlock`). The `random` parameter is unconstrained: that keys are fresh, distinct and absent from the page text and the alt texts is neither assumed nor proved, so a key that collides with page text is replaced there too, as in the source.
- `Quotes.RemoveInnerOuterQuotes` requires a non-empty token. The source reads its first character unconditionally. The resulting `IndexError` for the empty token is modelled in `Grammar.Step`, the only caller.
- Character classes are restricted:
  - `\w` and `lower()` cover ASCII letters, digits and `_` only;
  - `\s` and `strip()` cover the characters for which `str.isspace` holds;
  - `.` in patterns applied to single lines matches any character, since those lines hold no newline;
  - `\d` in `RE_MATH` covers the ASCII digits `0`-`9` only (`Text.IsDigit`). A value led by another Unicode decimal digit, such as `٣`, takes the concatenation branch in the model, where Python would try `eval`.
- Keyword directives (`include:`, `using:`) and call tokens do not appear in the code modelled, so they are not modelled.
- The `TestUtils` cases in `tests/test.py` target an API that is not in the code. The model does not follow them.
