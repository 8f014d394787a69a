/**
 * Site configuration (`mdiocre/config.py`): reading the `[config]` and
 * `[vars]` sections of an ini file into a dictionary, validating such a
 * dictionary, and the `Config` object's `config`, `vars` and `valid` fields.
 *
 * The file system and `configparser` are one parameter: a function from a
 * path to the parsed sections, or None when no file exists at that path.
 */
module Config {
  import opened Wrappers
  import opened Text
  import opened Dicts

  /** A configuration value: a raw string, a list of strings, or the `vars` dictionary. */
  datatype Value = Str(s: string) | Items(items: seq<string>) | Table(entries: seq<(string, string)>)

  /** What `validate` is handed: a dictionary, or some other Python value, truthy or not. */
  datatype Given = Dict(m: map<string, Value>) | Other(truthy: bool)

  /** A parsed ini file: each section's options, in file order. */
  datatype Ini = Ini(sections: map<string, seq<(string, string)>>)

  /** The exceptions that escape; `ConfigInvalid` is split by its cause. */
  datatype ConfigError =
    | NotADict                     // ConfigInvalid: not a dict (also a failed read, which gives None)
    | MissingKey(key: string)      // ConfigInvalid: a required key is missing
    | NoSuchFile(path: string)     // ConfigInvalid: no file at the path
    | InvalidVarName(name: string) // InvalidVarName
    | EmptyOption(option: string)  // AssertionError: a required option is empty
    | VarsNotATable                // AttributeError: `config["vars"]` has no `keys`
    | VarsSetOnList                // TypeError: a `vars` option assigned on the list an option named `vars` left

  const RequiredOptions: seq<string> := ["modules", "use-templates", "source-folder", "build-folder", "template-folder"]
  const RequiredKeys: seq<string> := RequiredOptions + ["vars"]

  // ---------------------------------------------------------------------
  // validate_varname: re.search(r"^[a-z\-_0-9]+$", name)
  // ---------------------------------------------------------------------

  predicate VarNameChar(c: char) {
    'a' <= c <= 'z' || c == '-' || c == '_' || '0' <= c <= '9'
  }

  predicate AllVarNameChars(s: string) {
    forall i :: 0 <= i < |s| ==> VarNameChar(s[i])
  }

  /** How many characters of the class the greedy `+` consumes from `i`. */
  function VarNameRun(s: string, i: nat): (n: nat)
    requires i <= |s|
    ensures i + n <= |s|
    ensures forall k :: i <= k < i + n ==> VarNameChar(s[k])
    ensures i + n == |s| || !VarNameChar(s[i + n])
    decreases |s| - i
  {
    if i < |s| && VarNameChar(s[i]) then 1 + VarNameRun(s, i + 1) else 0
  }

  /**
   * The search anchored at the start: the run must be non-empty and `$`
   * must hold after it, at the end or before a final newline. Backtracking
   * to a shorter run cannot help, as `$` needs a newline or the end there.
   */
  predicate MatchesVarName(s: string) {
    var n := VarNameRun(s, 0);
    n >= 1 && (n == |s| || (n + 1 == |s| && s[n] == '\n'))
  }

  /** A valid name is a non-empty run of `a-z`, `0-9`, `-`, `_`, optionally followed by one newline. */
  lemma VarNameExactly(s: string)
    ensures MatchesVarName(s) <==>
      (s != [] && AllVarNameChars(s)) ||
      (|s| >= 2 && s[|s| - 1] == '\n' && AllVarNameChars(s[..|s| - 1]))
  {
    var n := VarNameRun(s, 0);
    if s != [] && AllVarNameChars(s) {
      assert n == |s|;
    } else if |s| >= 2 && s[|s| - 1] == '\n' && AllVarNameChars(s[..|s| - 1]) {
      var t := s[..|s| - 1];
      assert forall k :: 0 <= k < |t| ==> t[k] == s[k];
      assert n == |s| - 1;
    }
  }

  /** The first name that fails `validate_varname`. */
  function FirstInvalid(names: seq<string>): (r: Option<string>)
    ensures r.None? <==> forall i :: 0 <= i < |names| ==> MatchesVarName(names[i])
    ensures r.Some? ==> exists i :: (0 <= i < |names| && names[i] == r.value && !MatchesVarName(names[i]) &&
      forall j :: 0 <= j < i ==> MatchesVarName(names[j]))
  {
    if names == [] then None
    else if !MatchesVarName(names[0]) then Some(names[0])
    else
      var r := FirstInvalid(names[1..]);
      assert forall i :: 1 <= i < |names| ==> names[i] == names[1..][i - 1];
      r
  }

  /** The first of `keys` not present. */
  function FirstMissing(keys: seq<string>, present: set<string>): (r: Option<string>)
    ensures r.None? <==> forall i :: 0 <= i < |keys| ==> keys[i] in present
    ensures r.Some? ==> exists i :: (0 <= i < |keys| && keys[i] == r.value && r.value !in present &&
      forall j :: 0 <= j < i ==> keys[j] in present)
  {
    if keys == [] then None
    else if keys[0] !in present then Some(keys[0])
    else
      var r := FirstMissing(keys[1..], present);
      assert forall i :: 1 <= i < |keys| ==> keys[i] == keys[1..][i - 1];
      r
  }

  /** The names of a dictionary's entries, in order. */
  function Names(entries: seq<(string, string)>): (r: seq<string>)
    ensures |r| == |entries| && forall i :: 0 <= i < |entries| ==> r[i] == entries[i].0
  {
    seq(|entries|, i requires 0 <= i < |entries| => entries[i].0)
  }

  // ---------------------------------------------------------------------
  // validate
  // ---------------------------------------------------------------------

  /** The dictionary `validate` accepts, or the exception it raises. */
  function Check(given: Given): Result<map<string, Value>, ConfigError> {
    match given
    case Other(_) => Err(NotADict)
    case Dict(m) =>
      match FirstMissing(RequiredKeys, m.Keys)
      case Some(k) => Err(MissingKey(k))
      case None =>
        assert RequiredKeys[5] == "vars";
        if !m["vars"].Table? then Err(VarsNotATable)
        else match FirstInvalid(Names(m["vars"].entries))
          case Some(n) => Err(InvalidVarName(n))
          case None => Ok(m)
  }

  /**
   * `validate` accepts exactly the dictionaries that hold every required key,
   * whose `vars` is a dictionary of valid names; extra keys are allowed.
   */
  lemma CheckAccepts(given: Given)
    ensures Check(given).Ok? <==>
      given.Dict? && (forall i :: 0 <= i < |RequiredKeys| ==> RequiredKeys[i] in given.m) &&
      "vars" in given.m && given.m["vars"].Table? &&
      forall i :: 0 <= i < |given.m["vars"].entries| ==> MatchesVarName(given.m["vars"].entries[i].0)
    ensures Check(given).Ok? ==> Check(given).value == given.m
  {
    if given.Dict? && FirstMissing(RequiredKeys, given.m.Keys).None? {
      assert RequiredKeys[5] == "vars";
      if given.m["vars"].Table? {
        var e := given.m["vars"].entries;
        assert forall i :: 0 <= i < |e| ==> Names(e)[i] == e[i].0;
      }
    }
  }

  /** A failing `validate` names the first required key missing, or the first invalid variable name. */
  lemma CheckReports(m: map<string, Value>)
    ensures Check(Dict(m)).Err? && Check(Dict(m)).error.MissingKey? ==>
      exists i :: 0 <= i < |RequiredKeys| && RequiredKeys[i] == Check(Dict(m)).error.key && RequiredKeys[i] !in m &&
        forall j :: 0 <= j < i ==> RequiredKeys[j] in m
    ensures Check(Dict(m)).Err? && Check(Dict(m)).error.InvalidVarName? ==>
      "vars" in m && m["vars"].Table? &&
      exists i :: 0 <= i < |m["vars"].entries| && m["vars"].entries[i].0 == Check(Dict(m)).error.name &&
        !MatchesVarName(m["vars"].entries[i].0) &&
        forall j :: 0 <= j < i ==> MatchesVarName(m["vars"].entries[j].0)
  {
    if FirstMissing(RequiredKeys, m.Keys).None? {
      assert RequiredKeys[5] == "vars";
    }
    if FirstMissing(RequiredKeys, m.Keys).None? && m["vars"].Table? {
      var e := m["vars"].entries;
      assert forall i :: 0 <= i < |e| ==> Names(e)[i] == e[i].0;
    }
  }

  // ---------------------------------------------------------------------
  // read_config
  // ---------------------------------------------------------------------

  /** An option's value: `-folder` options stay raw; the others lose every space and split on `,`. */
  function Shape(option: string, value: string): Value {
    if EndsWith(option, "-folder") then Str(value)
    else Items(Split(Replace(value, " ", ""), ','))
  }

  /** A list option's items hold no space and no comma, and joined with `,` they give the value without its spaces. */
  lemma ShapeList(option: string, value: string)
    requires !EndsWith(option, "-folder")
    ensures Shape(option, value).Items?
    ensures Join(Shape(option, value).items, ",") == Replace(value, " ", "")
    ensures forall i :: 0 <= i < |Shape(option, value).items| ==>
      ' ' !in Shape(option, value).items[i] && ',' !in Shape(option, value).items[i]
  {
    var t := Replace(value, " ", "");
    ReplaceRemoves(value, ' ', "");
    JoinSplit(t, ',');
    SplitKeepsAbsent(t, ',', ' ');
  }

  /** The loop over the `[config]` options: an empty required option fails the assertion. */
  function ShapeOptions(conf: map<string, Value>, options: seq<(string, string)>): (r: Result<map<string, Value>, ConfigError>)
    ensures r.Ok? ==> conf.Keys <= r.value.Keys
    decreases |options|
  {
    if options == [] then Ok(conf)
    else
      var (option, value) := options[0];
      if option in RequiredOptions && value == "" then Err(EmptyOption(option))
      else ShapeOptions(conf[option := Shape(option, value)], options[1..])
  }

  /** The loop over the `[vars]` options, writing into `conf["vars"]`. */
  function AddVars(conf: map<string, Value>, entries: seq<(string, string)>): Result<map<string, Value>, ConfigError>
    requires "vars" in conf
  {
    if entries == [] then Ok(conf)
    else if !conf["vars"].Table? then Err(VarsSetOnList)
    else Ok(conf["vars" := Table(PutAll(conf["vars"].entries, entries))])
  }

  /** `d[k] = v` for every entry in order. */
  function PutAll(d: seq<(string, string)>, entries: seq<(string, string)>): seq<(string, string)>
    decreases |entries|
  {
    if entries == [] then d else PutAll(Put(d, entries[0].0, entries[0].1), entries[1..])
  }

  /** The names of a section's options. */
  function OptionNames(options: seq<(string, string)>): set<string> {
    set i | 0 <= i < |options| :: options[i].0
  }

  /**
   * What `read_config` returns: None when the `config` section or a required
   * option is missing (both are logged), the shaped dictionary otherwise.
   */
  function ReadConfig(path: string, files: string -> Option<Ini>): Result<Option<map<string, Value>>, ConfigError> {
    match files(path)
    case None => Err(NoSuchFile(path))
    case Some(ini) =>
      if "config" !in ini.sections then Ok(None)
      else if FirstMissing(RequiredOptions, OptionNames(ini.sections["config"])).Some? then Ok(None)
      else match ShapeOptions(map["vars" := Table([])], ini.sections["config"])
        case Err(e) => Err(e)
        case Ok(conf) =>
          if "vars" !in ini.sections then Ok(Some(conf))
          else match AddVars(conf, ini.sections["vars"])
            case Err(e) => Err(e)
            case Ok(full) => Ok(Some(full))
  }

  /** `ShapeOptions` only ever adds keys. */
  lemma {:induction false} ShapeKeeps(conf: map<string, Value>, options: seq<(string, string)>)
    requires ShapeOptions(conf, options).Ok?
    ensures forall i :: 0 <= i < |options| ==> options[i].0 in ShapeOptions(conf, options).value
    decreases |options|
  {
    if options != [] {
      var (option, value) := options[0];
      ShapeKeeps(conf[option := Shape(option, value)], options[1..]);
      assert forall i :: 1 <= i < |options| ==> options[i] == options[1..][i - 1];
    }
  }

  /** Each shaped option takes the shape its name calls for, from its last occurrence. */
  lemma {:induction false} ShapeLast(conf: map<string, Value>, options: seq<(string, string)>, i: nat)
    requires ShapeOptions(conf, options).Ok? && i < |options|
    requires forall j :: i < j < |options| ==> options[j].0 != options[i].0
    ensures options[i].0 in ShapeOptions(conf, options).value
    ensures ShapeOptions(conf, options).value[options[i].0] == Shape(options[i].0, options[i].1)
    decreases |options|
  {
    var (option, value) := options[0];
    var next := conf[option := Shape(option, value)];
    if i == 0 {
      ShapeUntouched(next, options[1..], option);
    } else {
      assert forall j :: i - 1 < j < |options| - 1 ==> options[1..][j] == options[j + 1];
      ShapeLast(next, options[1..], i - 1);
    }
  }

  /** A key no option names keeps its value. */
  lemma {:induction false} ShapeUntouched(conf: map<string, Value>, options: seq<(string, string)>, key: string)
    requires ShapeOptions(conf, options).Ok? && key in conf
    requires forall j :: 0 <= j < |options| ==> options[j].0 != key
    ensures key in ShapeOptions(conf, options).value
    ensures ShapeOptions(conf, options).value[key] == conf[key]
    decreases |options|
  {
    if options != [] {
      var (option, value) := options[0];
      assert forall j :: 0 <= j < |options| - 1 ==> options[1..][j] == options[j + 1];
      ShapeUntouched(conf[option := Shape(option, value)], options[1..], key);
    }
  }

  /**
   * A dictionary that `read_config` returns holds every key `validate`
   * requires, so `validate` can reject it only for its `vars`.
   */
  lemma ReadHasRequired(path: string, files: string -> Option<Ini>)
    requires ReadConfig(path, files).Ok? && ReadConfig(path, files).value.Some?
    ensures forall i :: 0 <= i < |RequiredKeys| ==> RequiredKeys[i] in ReadConfig(path, files).value.value
  {
    var ini := files(path).value;
    var options := ini.sections["config"];
    var start := map["vars" := Table([])];
    ShapeKeeps(start, options);
    var conf := ShapeOptions(start, options).value;
    forall i | 0 <= i < |RequiredKeys|
      ensures RequiredKeys[i] in conf
    {
      if i < 5 {
        assert RequiredKeys[i] == RequiredOptions[i];
        assert RequiredOptions[i] in OptionNames(options);
      } else {
        assert RequiredKeys[i] == "vars";
      }
    }
  }

  /** A required option that is present but empty makes `read_config` raise, whatever else the file holds. */
  lemma {:induction false} EmptyRequiredRaises(conf: map<string, Value>, options: seq<(string, string)>, i: nat)
    requires i < |options| && options[i].0 in RequiredOptions && options[i].1 == ""
    ensures ShapeOptions(conf, options).Err?
    decreases |options|
  {
    if i > 0 {
      var (option, value) := options[0];
      if !(option in RequiredOptions && value == "") {
        assert options[1..][i - 1] == options[i];
        EmptyRequiredRaises(conf[option := Shape(option, value)], options[1..], i - 1);
      }
    }
  }

  /** `read_config`, with the shaping loops written as loops. */
  method ReadOptions(path: string, files: string -> Option<Ini>) returns (r: Result<Option<map<string, Value>>, ConfigError>)
    ensures r == ReadConfig(path, files)
  {
    var file := files(path);
    if file.None? {
      return Err(NoSuchFile(path));
    }
    var ini := file.value;
    if "config" !in ini.sections {
      return Ok(None);
    }
    var options := ini.sections["config"];
    if FirstMissing(RequiredOptions, OptionNames(options)).Some? {
      return Ok(None);
    }
    var conf: map<string, Value> := map["vars" := Table([])];
    var i := 0;
    while i < |options|
      invariant 0 <= i <= |options|
      invariant "vars" in conf
      invariant ShapeOptions(conf, options[i..]) == ShapeOptions(map["vars" := Table([])], options)
    {
      var (option, value) := options[i];
      assert options[i..][1..] == options[i + 1..];
      if option in RequiredOptions && value == "" {
        return Err(EmptyOption(option));
      }
      conf := conf[option := Shape(option, value)];
      i := i + 1;
    }
    if "vars" in ini.sections {
      var entries := ini.sections["vars"];
      if entries != [] {
        if !conf["vars"].Table? {
          return Err(VarsSetOnList);
        }
        var table := conf["vars"].entries;
        var j := 0;
        while j < |entries|
          invariant 0 <= j <= |entries|
          invariant PutAll(table, entries[j..]) == PutAll(conf["vars"].entries, entries)
        {
          assert entries[j..][1..] == entries[j + 1..];
          table := Put(table, entries[j].0, entries[j].1);
          j := j + 1;
        }
        conf := conf["vars" := Table(table)];
      }
    }
    return Ok(Some(conf));
  }

  // ---------------------------------------------------------------------
  // The Config object
  // ---------------------------------------------------------------------

  /** `ConfigParser`'s result as `validate` sees it: None is not a dictionary. */
  function AsGiven(read: Option<map<string, Value>>): Given {
    if read.Some? then Dict(read.value) else Other(false)
  }

  /** Python's truth value of what the constructor is handed: an empty dictionary is false. */
  predicate Truthy(given: Given) {
    if given.Dict? then given.m != map[] else given.truthy
  }

  class Config {
    var name: Option<string>
    var valid: bool
    /** None both before any value is stored and when `read_config` gave None. */
    var config: Option<map<string, Value>>
    var vars: Option<Value>

    /** The fields as `__init__` sets them before it validates or loads anything. */
    constructor (filename: Option<string>)
      ensures name == filename && !valid && config.None? && vars.None?
    {
      name := filename;
      valid := false;
      config := None;
      vars := None;
    }

    /** `validate`: on success the dictionary and its `vars` are stored and `valid` is set; on failure nothing changes. */
    method Validate(given: Given) returns (r: Result<(), ConfigError>)
      modifies this
      ensures Check(given).Err? ==> r == Err(Check(given).error) && unchanged(this)
      ensures Check(given).Ok? ==> (r.Ok? && name == old(name) && valid && "vars" in given.m &&
        config == Some(given.m) && vars == Some(given.m["vars"]))
    {
      if given.Other? {
        return Err(NotADict);
      }
      var m := given.m;
      var i := 0;
      while i < |RequiredKeys|
        invariant 0 <= i <= |RequiredKeys|
        invariant forall j :: 0 <= j < i ==> RequiredKeys[j] in m
      {
        if RequiredKeys[i] !in m {
          CheckMissing(m, i);
          return Err(MissingKey(RequiredKeys[i]));
        }
        i := i + 1;
      }
      assert RequiredKeys[5] == "vars";
      var table := m["vars"];
      if !table.Table? {
        return Err(VarsNotATable);
      }
      var entries := table.entries;
      i := 0;
      while i < |entries|
        invariant 0 <= i <= |entries|
        invariant forall j :: 0 <= j < i ==> MatchesVarName(entries[j].0)
      {
        if !MatchesVarName(entries[i].0) {
          CheckInvalid(m, i);
          return Err(InvalidVarName(entries[i].0));
        }
        i := i + 1;
      }
      CheckAccepts(given);
      config := Some(m);
      vars := Some(table);
      valid := true;
      return Ok(());
    }

    /** `load_config`: `config` takes what `read_config` returns, unless it raises, and is then validated. */
    method LoadConfig(filename: string, files: string -> Option<Ini>) returns (r: Result<(), ConfigError>)
      modifies this
      ensures var read := ReadConfig(filename, files);
        (read.Err? ==> r == Err(read.error) && unchanged(this)) &&
        (read.Ok? && Check(AsGiven(read.value)).Err? ==>
          r == Err(Check(AsGiven(read.value)).error) && config == read.value &&
          name == old(name) && valid == old(valid) && vars == old(vars)) &&
        (read.Ok? && Check(AsGiven(read.value)).Ok? ==>
          r.Ok? && name == old(name) && valid && config == read.value &&
          "vars" in read.value.value && vars == Some(read.value.value["vars"]))
    {
      var read := ReadOptions(filename, files);
      if read.Err? {
        return Err(read.error);
      }
      config := read.value;
      r := Validate(AsGiven(read.value));
    }
  }

  /** The first missing required key is the one `Check` reports. */
  lemma CheckMissing(m: map<string, Value>, i: nat)
    requires i < |RequiredKeys| && RequiredKeys[i] !in m
    requires forall j :: 0 <= j < i ==> RequiredKeys[j] in m
    ensures Check(Dict(m)) == Err(MissingKey(RequiredKeys[i]))
  {
    FirstMissingAt(RequiredKeys, m.Keys, i);
  }

  lemma {:induction false} FirstMissingAt(keys: seq<string>, present: set<string>, i: nat)
    requires i < |keys| && keys[i] !in present
    requires forall j :: 0 <= j < i ==> keys[j] in present
    ensures FirstMissing(keys, present) == Some(keys[i])
  {
    if i > 0 {
      assert keys[1..][i - 1] == keys[i];
      FirstMissingAt(keys[1..], present, i - 1);
    }
  }

  /** The first invalid variable name is the one `Check` reports. */
  lemma CheckInvalid(m: map<string, Value>, i: nat)
    requires forall j :: 0 <= j < |RequiredKeys| ==> RequiredKeys[j] in m
    requires "vars" in m && m["vars"].Table? && i < |m["vars"].entries|
    requires !MatchesVarName(m["vars"].entries[i].0)
    requires forall j :: 0 <= j < i ==> MatchesVarName(m["vars"].entries[j].0)
    ensures Check(Dict(m)) == Err(InvalidVarName(m["vars"].entries[i].0))
  {
    var names := Names(m["vars"].entries);
    FirstInvalidAt(names, i);
  }

  lemma {:induction false} FirstInvalidAt(names: seq<string>, i: nat)
    requires i < |names| && !MatchesVarName(names[i])
    requires forall j :: 0 <= j < i ==> MatchesVarName(names[j])
    ensures FirstInvalid(names) == Some(names[i])
  {
    if i > 0 {
      assert names[1..][i - 1] == names[i];
      FirstInvalidAt(names[1..], i - 1);
    }
  }

  /**
   * `Config(filename, config)`: a truthy `config` is validated; otherwise a
   * string filename is loaded; otherwise `config` stays None and `valid` False.
   */
  method NewConfig(filename: Option<string>, given: Given, files: string -> Option<Ini>)
    returns (r: Result<Config, ConfigError>)
    ensures Truthy(given) ==>
      (Check(given).Err? <==> r.Err?) &&
      (r.Err? ==> r.error == Check(given).error) &&
      (r.Ok? ==> r.value.valid && r.value.config == Some(given.m) && r.value.name == filename)
    ensures !Truthy(given) && filename.Some? ==>
      var read := ReadConfig(filename.value, files);
      (r.Ok? <==> read.Ok? && Check(AsGiven(read.value)).Ok?) &&
      (r.Err? ==> r.error == (if read.Err? then read.error else Check(AsGiven(read.value)).error)) &&
      (r.Ok? ==> r.value.valid && r.value.config == read.value && r.value.name == filename)
    ensures !Truthy(given) && filename.None? ==>
      r.Ok? && !r.value.valid && r.value.config.None? && r.value.name == filename
    ensures r.Ok? ==> fresh(r.value)
  {
    var c := new Config(filename);
    var outcome: Result<(), ConfigError> := Ok(());
    if Truthy(given) {
      outcome := c.Validate(given);
    } else if filename.Some? {
      outcome := c.LoadConfig(filename.value, files);
    }
    if outcome.Err? {
      return Err(outcome.error);
    }
    return Ok(c);
  }
}
