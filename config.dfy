/** The checker configuration: command-line values merged over the
    repository's `.tests-config.json` (kodi_addon_checker/config.py). */
module Configs {

  import opened Outcome
  import opened Text
  import opened Reporters

  /** The values a configuration entry can hold: what `argparse` stores and
      what a JSON document holds (lists of anything but strings are not
      modelled). */
  datatype Value =
    | Null | Bool(b: bool) | Int(i: int) | Str(s: string) | Strs(items: seq<string>)
    | Object(entries: map<string, Value>)

  /** What reading `.tests-config.json` gives: no such file, text that
      `json.load` rejects, or the JSON document's top-level value. */
  datatype ConfigFile = Missing | Malformed | Document(top: Value)

  /** The configuration after `_load_config`: the file's entries, each
      overridden by every command-line value that is not `None`. */
  function Merge(cmd: map<string, Value>, file: map<string, Value>): (r: map<string, Value>)
    ensures r.Keys == file.Keys + (set k | k in cmd && cmd[k] != Null)
    ensures forall k :: k in cmd && cmd[k] != Null ==> r[k] == cmd[k]
    ensures forall k :: k in file && (k !in cmd || cmd[k] == Null) ==> r[k] == file[k]
  {
    map k | k in file.Keys + (set k | k in cmd && cmd[k] != Null) ::
      if k in cmd && cmd[k] != Null then cmd[k] else file[k]
  }

  /** A `None` on the command line never hides a file entry, and without
      non-`None` command-line values the file's entries are the result. */
  lemma MergeNullArgs(cmd: map<string, Value>, file: map<string, Value>)
    requires forall k :: k in cmd ==> cmd[k] == Null
    ensures Merge(cmd, file) == file
  {
  }

  /** Some command-line value is not `None`, so the loop of lines 34-36
      writes at least one key into the file's value. */
  predicate Overrides(cmd: map<string, Value>)
  {
    exists k :: k in cmd && cmd[k] != Null
  }

  /** What `_load_config(repo_path)` does to `configs`: the new
      configuration, or the exception it raises. `json.load` raises
      `ValueError` on malformed text; assigning a key into a list, string,
      number or boolean raises `TypeError`; a configuration that is not a
      dict has no `items`. */
  function Loaded(configs: Value, repoPath: Option<string>, file: ConfigFile): Result<Value>
  {
    if repoPath.None? then Ok(configs)
    else match file
      case Missing => Ok(configs)
      case Malformed => Err(ValueError)
      case Document(top) =>
        if top == Null then Ok(configs)
        else if !configs.Object? then Err(AttributeError)
        else if top.Object? then Ok(Object(Merge(configs.entries, top.entries)))
        else if Overrides(configs.entries) then Err(TypeError)
        else Ok(top)
  }

  /** The configuration before the file is read: `vars(cmd_args)`, or `{}`. */
  function Initial(cmdArgs: Option<map<string, Value>>): Value
  {
    Object(if cmdArgs.None? then map[] else cmdArgs.value)
  }

  /** The file holds an object and is read under a repository path, so the
      command-line values are merged into it. */
  predicate MergesFile(repoPath: Option<string>, file: ConfigFile)
  {
    repoPath.Some? && file.Document? && file.top.Object?
  }

  /** The file's entries that take part in the merge. */
  function FileEntries(repoPath: Option<string>, file: ConfigFile): map<string, Value>
  {
    if MergesFile(repoPath, file) then file.top.entries else map[]
  }

  /** The file's top level replaces the configuration although it is no dict. */
  predicate TopNotDict(repoPath: Option<string>, file: ConfigFile)
  {
    repoPath.Some? && file.Document? && file.top != Null && !file.top.Object?
  }

  /** Loading from the command-line dict fails exactly for malformed JSON
      (`ValueError`) and for a top level that is neither an object nor
      `null` while some command-line value is set (`TypeError`). */
  lemma LoadOutcome(cmd: map<string, Value>, repoPath: Option<string>, file: ConfigFile)
    ensures Loaded(Object(cmd), repoPath, file).Err? <==>
      repoPath.Some? && (file.Malformed? || (TopNotDict(repoPath, file) && Overrides(cmd)))
    ensures Loaded(Object(cmd), repoPath, file).Err? ==>
      Loaded(Object(cmd), repoPath, file).error == if file.Malformed? then ValueError else TypeError
  {
  }

  class Config {
    var configs: Value

    /** The start of `Config(repo_path, cmd_args)`: the command-line values,
        or nothing. */
    constructor (cmdArgs: Option<map<string, Value>>)
      ensures configs == Initial(cmdArgs)
    {
      configs := Initial(cmdArgs);
    }

    /** `_load_config`: every non-`None` value of `configs` is written into
        the file's value, one key at a time, and the result becomes the
        configuration; on an exception the configuration stays. */
    method LoadConfig(repoPath: Option<string>, file: ConfigFile) returns (r: Result<()>)
      modifies this
      ensures match Loaded(old(configs), repoPath, file)
        case Ok(v) => r.Ok? && configs == v
        case Err(e) => r == Err(e) && configs == old(configs)
    {
      if repoPath.None? {
        return Ok(());
      }
      match file
      case Missing =>
        r := Ok(());
      case Malformed =>
        r := Err(ValueError);
      case Document(top) =>
        if top == Null {
          return Ok(());
        }
        if !configs.Object? {
          return Err(AttributeError);
        }
        var cmd := configs.entries;
        var fileConfig := top;
        var pending := cmd.Keys;
        while pending != {}
          invariant pending <= cmd.Keys
          invariant configs == old(configs)
          invariant fileConfig.Object? <==> top.Object?
          invariant !top.Object? ==> fileConfig == top && forall k :: k in cmd && k !in pending ==> cmd[k] == Null
          invariant top.Object? ==> fileConfig.entries.Keys == top.entries.Keys + (set k | k in cmd && k !in pending && cmd[k] != Null)
          invariant top.Object? ==> forall k :: k in fileConfig.entries ==>
            fileConfig.entries[k] == if k in cmd && k !in pending && cmd[k] != Null then cmd[k] else top.entries[k]
          decreases pending
        {
          var key :| key in pending;
          if cmd[key] != Null {
            if !fileConfig.Object? {
              return Err(TypeError);
            }
            fileConfig := Object(fileConfig.entries[key := cmd[key]]);
          }
          pending := pending - {key};
        }
        configs := fileConfig;
        r := Ok(());
    }

    /** `is_enabled(key)`, that is `self.configs.get(key, False)`. */
    function IsEnabled(key: string): Result<Value>
      reads this
    {
      if !configs.Object? then Err(AttributeError)
      else if key in configs.entries then Ok(configs.entries[key])
      else Ok(Bool(false))
    }

    /** `config[key]`, that is `self.configs.get(key)`. */
    function Get(key: string): Result<Value>
      reads this
    {
      if !configs.Object? then Err(AttributeError)
      else if key in configs.entries then Ok(configs.entries[key])
      else Ok(Null)
    }
  }

  /** `Config(repo_path, cmd_args)`: the command-line values with the file
      found under `repo_path` loaded over them. The file is given as
      `file` and ignored when `repo_path` is `None`; an exception of
      `_load_config` escapes, and no configuration is made. */
  method NewConfig(repoPath: Option<string>, cmdArgs: Option<map<string, Value>>, file: ConfigFile) returns (r: Result<Config>)
    ensures r.Ok? ==> fresh(r.value) && Loaded(Initial(cmdArgs), repoPath, file) == Ok(r.value.configs)
    ensures r.Err? ==> Loaded(Initial(cmdArgs), repoPath, file) == Err(r.error)
  {
    var c := new Config(cmdArgs);
    var loaded := c.LoadConfig(repoPath, file);
    if loaded.Err? {
      r := Err(loaded.error);
    } else {
      r := Ok(c);
    }
  }

  /** After loading, `config[key]` is the command-line value when it is not
      `None`, otherwise the file's value, otherwise `None`; a top level that
      is no dict has no `get`, so the lookup raises `AttributeError`. */
  lemma GetAfterLoad(c: Config, cmd: map<string, Value>, repoPath: Option<string>, file: ConfigFile, key: string)
    requires Loaded(Object(cmd), repoPath, file) == Ok(c.configs)
    ensures c.Get(key) ==
      if TopNotDict(repoPath, file) then Err(AttributeError)
      else if key in cmd && cmd[key] != Null then Ok(cmd[key])
      else if key in FileEntries(repoPath, file) then Ok(FileEntries(repoPath, file)[key])
      else Ok(Null)
  {
  }

  /** After loading, `is_enabled(key)` falls back to `False` for a key
      neither side sets, except that a `None` command-line value is kept
      (and returned) when no file object was merged. */
  lemma IsEnabledAfterLoad(c: Config, cmd: map<string, Value>, repoPath: Option<string>, file: ConfigFile, key: string)
    requires Loaded(Object(cmd), repoPath, file) == Ok(c.configs)
    ensures c.IsEnabled(key) ==
      if TopNotDict(repoPath, file) then Err(AttributeError)
      else if key in cmd && cmd[key] != Null then Ok(cmd[key])
      else if key in FileEntries(repoPath, file) then Ok(FileEntries(repoPath, file)[key])
      else if key in cmd && !MergesFile(repoPath, file) then Ok(Null)
      else Ok(Bool(false))
  {
  }

  /** The registered names that `name in reporters` accepts when the
      configured `reporter` value is a single string: substrings of it. */
  function Substrings(names: seq<string>, text: string): (r: seq<string>)
    ensures forall n :: n in r <==> n in names && Contains(text, n)
  {
    if names == [] then []
    else (if Contains(text, names[0]) then [names[0]] else []) + Substrings(names[1..], text)
  }

  /** The registered names that `name in reporters` accepts when the
      configured `reporter` value is a JSON object: its keys. */
  function KeysIn(names: seq<string>, keys: set<string>): (r: seq<string>)
    ensures forall n :: n in r <==> n in names && n in keys
  {
    if names == [] then []
    else (if names[0] in keys then [names[0]] else []) + KeysIn(names[1..], keys)
  }

  /** `ConfigManager.process_config(config)`: a non-`None` `reporter` value
      decides which reporters stay enabled. A list enables the listed
      names, a string the names it contains, an object its keys; a boolean
      or a number makes `name in reporters` raise `TypeError` on the first
      registered name, before any flag is changed. A configuration that is
      no dict makes `config["reporter"]` raise `AttributeError`. */
  method ProcessConfig(config: Config, manager: ReportManager) returns (r: Result<()>)
    requires manager.Valid()
    modifies manager
    ensures manager.Valid()
    ensures manager.order == old(manager.order) && manager.created == old(manager.created)
    ensures r.Err? ==> manager.entries == old(manager.entries)
    ensures match config.Get("reporter")
      case Err(e) => r == Err(e)
      case Ok(Null) => r.Ok? && manager.entries == old(manager.entries)
      case Ok(Strs(names)) => r.Ok? && manager.entries == EnabledAs(old(manager.entries), names)
      case Ok(Str(text)) => r.Ok? && forall n :: n in manager.entries ==>
        manager.entries[n] == Entry(old(manager.entries)[n].instance, Contains(text, n))
      case Ok(Object(e)) => r.Ok? && forall n :: n in manager.entries ==>
        manager.entries[n] == Entry(old(manager.entries)[n].instance, n in e)
      case Ok(_) => (r.Err? <==> old(manager.order) != []) && (r.Err? ==> r.error == TypeError)
  {
    var reporters := config.Get("reporter");
    match reporters
    case Err(e) =>
      r := Err(e);
    case Ok(Null) =>
      r := Ok(());
    case Ok(Strs(names)) =>
      manager.Enable(names);
      r := Ok(());
    case Ok(Str(text)) =>
      manager.Enable(Substrings(manager.order, text));
      r := Ok(());
    case Ok(Object(e)) =>
      manager.Enable(KeysIn(manager.order, e.Keys));
      r := Ok(());
    case Ok(_) =>
      if manager.order != [] {
        r := Err(TypeError);
      } else {
        manager.Enable([]);
        r := Ok(());
      }
  }
}
