/**
 * The directive language of mdiocre/core.py as pure functions over a store
 * (a map from variable name to value): the recognisers for RE_ASSIGNMENT,
 * RE_MATH, RE_CONCAT and RE_ESCAPE, and what `get`, `assign` and `sub_func`
 * compute. The class `Core.VariableManager` is proved against these.
 */
module Grammar {
  import opened Wrappers
  import opened Text
  import opened Failures
  import Quotes

  type Store = map<string, string>

  const ContentName: string := "content"
  const TimestampName: string := "mdiocre-gen-timestamp"

  /** `reserved_variable_names` */
  const Reserved: seq<string> := [ContentName, TimestampName]

  /** What Python's `eval` does with a value that RE_MATH accepted. */
  datatype EvalResult = Value(text: string) | RaisesSyntaxError | RaisesOther

  /** Dictionary lookup that yields "" for a missing key. */
  function Lookup(vars: Store, name: string): (r: string)
    ensures name in vars ==> r == vars[name]
    ensures name !in vars ==> r == ""
  {
    if name in vars then vars[name] else ""
  }

  /** `VariableManager.get`: the value of the trimmed name, or "" when it is unset. */
  function Get(vars: Store, name: string): (r: string)
    ensures Strip(name) in vars ==> r == vars[Strip(name)]
    ensures Strip(name) !in vars ==> r == ""
  {
    Lookup(vars, Strip(name))
  }

  // ---------------------------------------------------------------- RE_ASSIGNMENT

  /**
   * `re.match('.+=.+', q)`: some `=` has at least one character before it and
   * one after it, none of them (nor the `=`) a newline.
   */
  predicate IsAssignment(q: string) {
    exists k :: 1 <= k && k + 1 < |q| && q[k] == '=' && '\n' !in q[..k + 2]
  }

  /** `query.split('=', 1)` followed by `strip()` of both halves. */
  function SplitAssignment(q: string): (string, string)
    requires '=' in q
  {
    var k := IndexOf(q, '=');
    (Strip(q[..k]), Strip(q[k + 1..]))
  }

  /** The query is split at its FIRST `=`: any later `=` stays in the value. */
  lemma SplitAtFirstEquals(a: string, b: string)
    requires '=' !in a
    ensures SplitAssignment(a + "=" + b) == (Strip(a), Strip(b))
  {
    var q := a + "=" + b;
    assert q[|a|] == '=';
    var k := IndexOf(q, '=');
    assert q[..|a|] == a;
    assert k == |a|;
    assert q[..k] == a && q[k + 1..] == b;
  }

  // ---------------------------------------------------------------- RE_MATH

  function SkipSpaces(s: string, i: nat): (j: nat)
    requires i <= |s|
    ensures i <= j <= |s| && (j < |s| ==> !IsSpace(s[j]))
    ensures forall k :: i <= k < j ==> IsSpace(s[k])
    decreases |s| - i
  {
    if i < |s| && IsSpace(s[i]) then SkipSpaces(s, i + 1) else i
  }

  function SkipDigits(s: string, i: nat): (j: nat)
    requires i <= |s|
    ensures i <= j <= |s| && (j < |s| ==> !IsDigit(s[j]))
    ensures forall k :: i <= k < j ==> IsDigit(s[k])
    decreases |s| - i
  {
    if i < |s| && IsDigit(s[i]) then SkipDigits(s, i + 1) else i
  }

  predicate IsSign(c: char) {
    c == '+' || c == '-'
  }

  predicate IsOperator(c: char) {
    c == '+' || c == '-' || c == '*' || c == '/'
  }

  /**
   * The repeated part of RE_MATH from index `i` on: one or more groups
   * `\s* [-+*\/] \s* (\s[-+])? \d+ \s*` and then the end of the text
   * (`seen` says whether a group has already been read).
   */
  predicate MathTail(s: string, i: nat, seen: bool)
    requires i <= |s|
    decreases |s| - i
  {
    var a := SkipSpaces(s, i);
    if a == |s| then seen
    else if !IsOperator(s[a]) then false
    else
      var b := SkipSpaces(s, a + 1);
      var c := if b > a + 1 && b < |s| && IsSign(s[b]) then b + 1 else b;
      var d := SkipDigits(s, c);
      d > c && MathTail(s, d, true)
  }

  /**
   * RE_MATH = `^\s*([-+]?)(\d+)(?:\s*([-+*\/])\s*((?:\s[-+])?\d+)\s*)+$`,
   * read deterministically: a signed number followed by at least one
   * operator and number; a sign after an operator needs a space before it.
   */
  predicate IsMath(s: string) {
    var a := SkipSpaces(s, 0);
    var b := if a < |s| && IsSign(s[a]) then a + 1 else a;
    var c := SkipDigits(s, b);
    c > b && MathTail(s, c, false)
  }

  /** An arithmetic value starts with a space, a sign or a digit, so never with a quote. */
  lemma MathStart(s: string)
    requires IsMath(s)
    ensures s != [] && (IsSpace(s[0]) || IsSign(s[0]) || IsDigit(s[0]))
  {
  }

  // ---------------------------------------------------------------- RE_CONCAT

  /**
   * The first alternative of RE_CONCAT, `(.+?)[^\\],`, tried at `p` with the
   * lazy group ending at `j` or later: the smallest group end `e` such that
   * the character at `e` is not a backslash and the one after it is a comma,
   * the group holding no newline.
   */
  function CommaCut(s: string, p: nat, j: nat): (r: Option<nat>)
    requires p < j <= |s|
    requires '\n' !in s[p..j - 1]
    ensures r.Some? ==> j <= r.value && r.value + 1 < |s| && s[r.value] != '\\' && s[r.value + 1] == ','
    ensures r.Some? ==> '\n' !in s[p..r.value]
    ensures r.Some? ==> forall m :: j <= m < r.value ==> !(s[m] != '\\' && s[m + 1] == ',')
    ensures r.None? ==> forall m :: j <= m && m + 1 < |s| && '\n' !in s[p..m] ==> !(s[m] != '\\' && s[m + 1] == ',')
    decreases |s| - j
  {
    if s[j - 1] == '\n' then
      forall m | j <= m <= |s|
        ensures '\n' in s[p..m]
      {
        assert s[p..m][j - 1 - p] == '\n';
      }
      None
    else
      assert s[p..j] == s[p..j - 1] + [s[j - 1]];
      if j + 1 >= |s| then None
      else if s[j] != '\\' && s[j + 1] == ',' then Some(j)
      else CommaCut(s, p, j + 1)
  }

  /**
   * The second alternative of RE_CONCAT, `(.+?)$`, tried at `p`: the group
   * runs to the end of the text, or up to a newline that ends the text.
   */
  function ToEnd(s: string, p: nat): (r: Option<nat>)
    requires p < |s|
    ensures r.Some? ==> p < r.value <= |s| && '\n' !in s[p..r.value]
    ensures r.Some? ==> r.value == |s| || (r.value == |s| - 1 && s[|s| - 1] == '\n')
  {
    var e := p + IndexOf(s[p..], '\n');
    assert s[p..e] == s[p..][..e - p];
    if e == p then None
    else if e == |s| || e == |s| - 1 then Some(e)
    else None
  }

  /**
   * `re.findall(RE_CONCAT, s[p..])`: the list of (group 1, group 2) pairs,
   * exactly one of them non-empty, of the successive non-overlapping matches.
   * Like the regex, a match of the first alternative swallows the character
   * just before the comma, and never splits at a comma in second position.
   */
  function FindAll(s: string, p: nat): (r: seq<(string, string)>)
    requires p <= |s|
    ensures forall i :: 0 <= i < |r| ==> (r[i].0 == "") != (r[i].1 == "")
    decreases |s| - p
  {
    if p == |s| then []
    else match CommaCut(s, p, p + 1)
      case Some(j) => [(s[p..j], "")] + FindAll(s, j + 2)
      case None =>
        match ToEnd(s, p)
        case Some(e) => [("", s[p..e])] + FindAll(s, e)
        case None => FindAll(s, p + 1)
  }

  /** The inner loop over one findall tuple: each non-empty group, stripped. */
  function Pieces(t: (string, string)): seq<string> {
    (if t.0 != "" then [Strip(t.0)] else []) + (if t.1 != "" then [Strip(t.1)] else [])
  }

  /** `concat_vars` as built by the first loop of `assign`. */
  function ConcatVars(groups: seq<(string, string)>): seq<string> {
    if groups == [] then []
    else ConcatVars(groups[..|groups| - 1]) + Pieces(groups[|groups| - 1])
  }

  // ---------------------------------------------------------------- RE_ESCAPE

  /** `re.sub(r'(\\)(.{1})', r'\2', s)`: each backslash and the character after it become that character. */
  function Unescape(s: string): (r: string)
    ensures |r| <= |s|
    ensures '\\' !in s ==> r == s
  {
    if |s| >= 2 && s[0] == '\\' && s[1] != '\n' then [s[1]] + Unescape(s[2..])
    else if s == [] then []
    else [s[0]] + Unescape(s[1..])
  }

  // ---------------------------------------------------------------- the value loop

  /**
   * One turn of the second loop of `assign`: a token starting with a quote is
   * unquoted, appended, and then the WHOLE accumulated value is unescaped;
   * any other token is looked up. `var[0]` on an empty token is an IndexError.
   */
  function Step(vars: Store, acc: string, token: string): (r: Result<string, Error>)
    ensures token == [] ==> r == Err(EmptyToken)
    ensures token != [] && !Quotes.IsQuote(token[0]) ==> r == Ok(acc + Lookup(vars, token))
    ensures token != [] && Quotes.IsQuote(token[0]) ==>
      (r.Ok? <==> token[|token| - 1] == token[0]) &&
      (r.Ok? ==> r.value == Unescape(acc + StripChar(token, token[0])))
  {
    if token == [] then Err(EmptyToken)
    else if Quotes.IsQuote(token[0]) then
      var unquoted :- Quotes.RemoveInnerOuterQuotes(token);
      Ok(Unescape(acc + unquoted))
    else Ok(acc + Lookup(vars, token))
  }

  /** The value built from `tokens`, in order, starting from "". */
  function Concat(vars: Store, tokens: seq<string>): Result<string, Error> {
    if tokens == [] then Ok("")
    else
      var acc :- Concat(vars, tokens[..|tokens| - 1]);
      Step(vars, acc, tokens[|tokens| - 1])
  }

  /** One more token: the prefix's value, then one turn of the loop. */
  lemma ConcatStep(vars: Store, tokens: seq<string>, j: nat)
    requires j < |tokens|
    ensures Concat(vars, tokens[..j + 1]) == (var acc :- Concat(vars, tokens[..j]); Step(vars, acc, tokens[j]))
  {
    assert tokens[..j + 1][..j] == tokens[..j];
  }

  /** The first token that fails decides the error of the whole loop. */
  lemma {:induction false} ConcatStopsAtError(vars: Store, tokens: seq<string>, j: nat)
    requires j <= |tokens| && Concat(vars, tokens[..j]).Err?
    ensures Concat(vars, tokens) == Concat(vars, tokens[..j])
    decreases |tokens| - j
  {
    if j < |tokens| {
      ConcatStep(vars, tokens, j);
      ConcatStopsAtError(vars, tokens, j + 1);
    } else {
      assert tokens[..j] == tokens;
    }
  }

  /** One more findall pair: its non-empty groups, stripped, are appended. */
  lemma ConcatVarsStep(groups: seq<(string, string)>, i: nat)
    requires i < |groups|
    ensures ConcatVars(groups[..i + 1]) == ConcatVars(groups[..i]) + Pieces(groups[i])
  {
    assert groups[..i + 1][..i] == groups[..i];
  }

  /** The value an assignment stores for the (stripped) right-hand side `value`. */
  function EvalValue(vars: Store, value: string, arith: string -> EvalResult): Result<string, Error> {
    if IsMath(value) then
      match arith(value)
      case Value(t) => Ok(t)
      case RaisesSyntaxError => Err(EvalSyntaxError)
      case RaisesOther => Err(EvalFailure)
    else Concat(vars, ConcatVars(FindAll(value, 0)))
  }

  /** The name an assignment query writes to. */
  function AssignedName(q: string): string
    requires IsAssignment(q)
  {
    EqualsIn(q);
    SplitAssignment(q).0
  }

  /** The (stripped) right-hand side of an assignment query. */
  function AssignedValue(q: string): string
    requires IsAssignment(q)
  {
    EqualsIn(q);
    SplitAssignment(q).1
  }

  lemma EqualsIn(q: string)
    requires IsAssignment(q)
    ensures '=' in q
  {
    var k :| 1 <= k && k + 1 < |q| && q[k] == '=' && '\n' !in q[..k + 2];
    assert q[k] in q;
  }

  /**
   * `VariableManager.assign(query)`: the new store, or the exception raised.
   * The store changes at exactly one key, and only when nothing failed.
   */
  function Assign(vars: Store, q: string, arith: string -> EvalResult): (r: Result<Store, Error>)
    ensures !IsAssignment(q) ==> r == Err(NotAnAssignment(q))
    ensures IsAssignment(q) && AssignedName(q) in Reserved ==> r == Err(ReservedName(AssignedName(q)))
    ensures r.Ok? ==> IsAssignment(q) && AssignedName(q) !in Reserved
    ensures r.Ok? ==> r.value.Keys == vars.Keys + {AssignedName(q)}
    ensures r.Ok? ==> forall k :: k in vars && k != AssignedName(q) ==> r.value[k] == vars[k]
    ensures r.Ok? ==> EvalValue(vars, AssignedValue(q), arith) == Ok(r.value[AssignedName(q)])
  {
    if !IsAssignment(q) then Err(NotAnAssignment(q))
    else
      var ident, value := AssignedName(q), AssignedValue(q);
      if ident in Reserved then Err(ReservedName(ident))
      else
        var v :- EvalValue(vars, value, arith);
        Ok(vars[ident := v])
  }

  /**
   * `sub_func`: the text that replaces a directive and the store afterwards.
   * An assignment is replaced by ""; a SyntaxError turns the directive into a
   * lookup of the whole statement; any other error propagates.
   */
  function SubFunc(vars: Store, stmt: string, arith: string -> EvalResult): (r: (Result<string, Error>, Store))
    ensures Assign(vars, stmt, arith).Ok? ==> r == (Ok(""), Assign(vars, stmt, arith).value)
    ensures Assign(vars, stmt, arith).Err? && Assign(vars, stmt, arith).error.IsSyntaxError() ==>
      r == (Ok(Get(vars, stmt)), vars)
    ensures Assign(vars, stmt, arith).Err? && !Assign(vars, stmt, arith).error.IsSyntaxError() ==>
      r == (Err(Assign(vars, stmt, arith).error), vars)
  {
    match Assign(vars, stmt, arith)
    case Ok(vars') => (Ok(""), vars')
    case Err(e) => if e.IsSyntaxError() then (Ok(Get(vars, stmt)), vars) else (Err(e), vars)
  }

  /** `sub_func` with the evaluator fixed, as the callback of a substitution pass. */
  function SubFn(arith: string -> EvalResult): (Store, string) -> (Result<string, Error>, Store) {
    (vars, stmt) => SubFunc(vars, stmt, arith)
  }

  lemma SubFnApply(arith: string -> EvalResult, vars: Store, stmt: string)
    ensures SubFn(arith)(vars, stmt) == SubFunc(vars, stmt, arith)
  {
  }

  /** Two stores agree on the reserved names: each is in both or in neither, with the same value. */
  predicate SameReserved(a: Store, b: Store) {
    forall n :: n in Reserved ==> (n in a <==> n in b) && (n in a ==> a[n] == b[n])
  }

  /** No directive can write `content` or the timestamp: `sub_func` leaves both as they were. */
  lemma SubFuncKeepsReserved(vars: Store, stmt: string, arith: string -> EvalResult)
    ensures SameReserved(vars, SubFunc(vars, stmt, arith).1)
  {
    var r := Assign(vars, stmt, arith);
    if r.Ok? {
      forall n | n in Reserved
        ensures (n in vars <==> n in r.value) && (n in vars ==> vars[n] == r.value[n])
      {
        assert n != AssignedName(stmt);
      }
    }
  }
}
