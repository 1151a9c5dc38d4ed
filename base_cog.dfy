/** cogs/base_cog.py: what every BaseCog does when it is constructed. It
    derives the cog's name, loads its configuration (config.json merged over
    the defaults), sets its log level, and binds its optional database
    module. The configuration file, the environment and the importable
    modules are inputs here. */
module Base {
  import opened Text
  import opened Core
  import Ledger
  import Usage

  // ---------------------------------------------------------------- JSON values

  /** The scalar JSON values a config.json entry may hold. */
  datatype Json = JNull | JBool(b: bool) | JInt(i: int) | JStr(s: string)

  /** Python truthiness of a JSON value. */
  predicate Truthy(v: Json) {
    match v
    case JNull => false
    case JBool(b) => b
    case JInt(i) => i != 0
    case JStr(s) => s != ""
  }

  /** How an f-string formats a JSON value. */
  function PyStr(v: Json): string {
    match v
    case JNull => "None"
    case JBool(b) => if b then "True" else "False"
    case JInt(i) => IntToString(i)
    case JStr(s) => s
  }

  type Config = map<string, Json>
  type Env = map<string, string>

  /** dict.get(key, default). */
  function Get(config: Config, key: string, default: Json): Json {
    if key in config then config[key] else default
  }

  /** os.getenv(key, default). */
  function GetEnv(env: Env, key: string, default: string): string {
    if key in env then env[key] else default
  }

  const FooterKey := "footer_icon_url"
  const FooterEnv := "ICON_URL_FOOTER"

  // ---------------------------------------------------------------- cog name

  /** The cog's name: the explicit argument when it is non-empty, else the
      second dotted component of the class's module path, else the class
      name. */
  function CogName(explicit: Option<string>, modulePath: string, className: string): (r: string)
    ensures explicit.Some? && explicit.value != "" ==> r == explicit.value
  {
    if explicit.Some? && explicit.value != "" then explicit.value
    else
      var parts := Split(modulePath, '.');
      if |parts| >= 2 then parts[1] else className
  }

  /** A cog defined in cogs/<dir>/<file>.py is named after its directory. */
  lemma CogNameFromDirectory(dir: string, file: string, className: string)
    requires '.' !in dir
    ensures CogName(None, "cogs." + dir + "." + file, className) == dir
    ensures CogName(Some(""), "cogs." + dir + "." + file, className) == dir
  {
    CogPath(dir, file);
    SplitSecond("cogs", dir, file, '.');
  }

  lemma CogPath(dir: string, file: string)
    ensures "cogs." + dir + "." + file == "cogs" + ['.'] + (dir + ['.'] + file)
  {
    assert "cogs." == "cogs" + ['.'];
  }

  /** A class whose module path has no dot is named after the class. */
  lemma CogNameFromClass(modulePath: string, className: string)
    requires '.' !in modulePath
    ensures CogName(None, modulePath, className) == className
  {
  }

  // ---------------------------------------------------------------- configuration

  /** The two default configurations in the code: BaseCog's own, and the
      link fixer's override of it. */
  datatype CogKind = Generic | LinkFixer

  const DefaultKeys: set<string> :=
    {"author_name", "author_icon_url", "footer_text", FooterKey, "color", "log_level", "database_module"}

  /** default_config(), as cogs/base_cog.py defines it and
      cogs/fixtter/fixtter.py overrides it. */
  function DefaultConfig(kind: CogKind, cogName: string, env: Env): Config {
    var base := map[
      "author_name" := JStr(cogName),
      "author_icon_url" := JStr(""),
      "footer_text" := JStr("Task Manager Bot"),
      FooterKey := JStr(GetEnv(env, FooterEnv, "")),
      "color" := JStr("0xCCCCCC"),
      "log_level" := JStr("INFO"),
      "database_module" := JNull];
    match kind
    case Generic => base
    case LinkFixer => base["author_name" := JStr("Link Fixer")]["color" := JStr("0x1DA1F2")]
  }

  /** The file's entries, with each default the file lacks added. */
  function Merged(f: Config, defaults: Config): Config {
    map k | k in f.Keys + defaults.Keys :: if k in f then f[k] else defaults[k]
  }

  /** Copies f and adds, one key at a time, each default f lacks. */
  method MergeDefaults(f: Config, defaults: Config) returns (merged: Config)
    ensures merged == Merged(f, defaults)
  {
    merged := f;
    var pending := defaults.Keys;
    while pending != {}
      invariant pending <= defaults.Keys
      invariant merged.Keys == f.Keys + (defaults.Keys - pending)
      invariant forall k | k in f :: merged[k] == f[k]
      invariant forall k | k in defaults && k !in pending && k !in f :: merged[k] == defaults[k]
      decreases pending
    {
      var key :| key in pending;
      if key !in merged {
        merged := merged[key := defaults[key]];
      }
      pending := pending - {key};
    }
  }

  /** The configuration _load_config produces: without a readable file (it
      is missing or not valid JSON) the defaults, else the file with every
      missing default key added and the footer icon key filled in. */
  function LoadConfigSpec(file: Option<Config>, defaults: Config, env: Env): (r: Config)
    ensures file.None? ==> r == defaults
    ensures file.Some? ==> r.Keys == file.value.Keys + defaults.Keys + {FooterKey}
    ensures file.Some? ==> forall k | k in file.value :: r[k] == file.value[k]
    ensures file.Some? ==> forall k | k in defaults && k !in file.value :: r[k] == defaults[k]
  {
    match file
    case None => defaults
    case Some(f) =>
      var merged := Merged(f, defaults);
      merged[FooterKey := if FooterKey in merged then merged[FooterKey] else JStr(GetEnv(env, FooterEnv, ""))]
  }

  /** The footer icon a BaseCog ends up with: the file's value when the
      file has the key, else ICON_URL_FOOTER from the environment, else "". */
  lemma FooterResolution(kind: CogKind, cogName: string, file: Option<Config>, env: Env)
    ensures var r := LoadConfigSpec(file, DefaultConfig(kind, cogName, env), env);
      FooterKey in r
      && r[FooterKey] == (if file.Some? && FooterKey in file.value then file.value[FooterKey]
                          else JStr(GetEnv(env, FooterEnv, "")))
  {
  }

  /** The link fixer's defaults differ from the generic ones in the author
      name and the colour only. */
  lemma LinkFixerDefaults(cogName: string, env: Env)
    ensures DefaultConfig(LinkFixer, cogName, env).Keys == DefaultConfig(Generic, cogName, env).Keys == DefaultKeys
    ensures forall k | k in DefaultKeys && k != "author_name" && k != "color" ::
      DefaultConfig(LinkFixer, cogName, env)[k] == DefaultConfig(Generic, cogName, env)[k]
    ensures DefaultConfig(LinkFixer, cogName, env)["author_name"] == JStr("Link Fixer")
    ensures EmbedColor(DefaultConfig(LinkFixer, cogName, env)) == Some(0x1DA1F2)
  {
    var d := DefaultConfig(LinkFixer, cogName, env);
    assert d["color"] == JStr("0x1DA1F2");
    HexDigits1DA1F2();
  }

  lemma HexDigits1DA1F2()
    ensures ParseHex("0x1DA1F2") == Some(0x1DA1F2)
  {
    ParseHexSix("0x1DA1F2", 1, 13, 10, 1, 15, 2);
  }

  lemma HexDigitsCCCCCC()
    ensures ParseHex("0xCCCCCC") == Some(0xCCCCCC)
  {
    ParseHexSix("0xCCCCCC", 12, 12, 12, 12, 12, 12);
  }

  // ---------------------------------------------------------------- log level

  /** LOG_LEVELS of logging_config.py, with the numeric levels of Python's
      logging module. */
  const LogLevels: map<string, int> := map["DEBUG" := 10, "INFO" := 20, "WARNING" := 30, "ERROR" := 40, "CRITICAL" := 50]
  const DefaultLevel := 20

  /** LOG_LEVELS.get(name.upper(), logging.INFO). */
  function LevelOf(name: string): (level: int)
    ensures level in {10, 20, 30, 40, 50}
  {
    var u := Upper(name);
    if u in LogLevels then LogLevels[u] else DefaultLevel
  }

  /** _setup_logging: the config's log_level when it is truthy, else
      LOG_LEVEL_COGS, else "INFO", upper-cased and looked up. None when the
      config holds a truthy value that is not a string: `.upper()` raises
      and the cog fails to load. */
  function ResolveLogLevel(config: Config, env: Env): (r: Option<int>)
    ensures r.Some? ==> r.value in {10, 20, 30, 40, 50}
    ensures r.None? <==> Truthy(Get(config, "log_level", JNull)) && !Get(config, "log_level", JNull).JStr?
  {
    var v := Get(config, "log_level", JNull);
    if !Truthy(v) then Some(LevelOf(GetEnv(env, "LOG_LEVEL_COGS", "INFO")))
    else if v.JStr? then Some(LevelOf(v.s))
    else None
  }

  /** Level names are case-insensitive, the five names of LOG_LEVELS mean
      their own level, and any other name means INFO. */
  lemma LevelOfRules(a: string, b: string)
    ensures Lower(a) == Lower(b) ==> LevelOf(a) == LevelOf(b)
    ensures Upper(a) !in LogLevels ==> LevelOf(a) == 20
    ensures forall n | n in LogLevels :: LevelOf(n) == LogLevels[n]
  {
    if Lower(a) == Lower(b) { UpperIgnoresCase(a, b); }
    forall n | n in LogLevels
      ensures LevelOf(n) == LogLevels[n]
    {
      UpperKeepsUpper(n);
    }
  }

  /** A falsy log_level in the config (absent, null, false, 0 or "") defers
      to LOG_LEVEL_COGS, and an empty or unknown name there means INFO. */
  lemma LogLevelFallback(config: Config, env: Env)
    requires !Truthy(Get(config, "log_level", JNull))
    ensures ResolveLogLevel(config, env) == Some(LevelOf(GetEnv(env, "LOG_LEVEL_COGS", "INFO")))
    ensures "LOG_LEVEL_COGS" !in env ==> ResolveLogLevel(config, env) == Some(20)
    ensures "LOG_LEVEL_COGS" in env && env["LOG_LEVEL_COGS"] == "" ==> ResolveLogLevel(config, env) == Some(20)
  {
    UpperKeepsUpper("INFO");
    assert Upper("") == "";
  }

  // ---------------------------------------------------------------- colour

  /** embed_color: int(config.get('color', '0xCCCCCC'), 16); None where
      Python raises (not a string, or not hexadecimal). */
  function EmbedColor(config: Config): (r: Option<nat>)
    ensures "color" in config && !config["color"].JStr? ==> r.None?
  {
    var v := Get(config, "color", JStr("0xCCCCCC"));
    if v.JStr? then ParseHex(v.s) else None
  }

  /** A colour written as "0x" and hexadecimal digits reads back as that
      colour, and a config without a colour is grey 0xCCCCCC. */
  lemma EmbedColorRoundTrip(config: Config, n: nat)
    ensures EmbedColor(config["color" := JStr("0x" + ToHex(n))]) == Some(n)
    ensures "color" !in config ==> EmbedColor(config) == Some(0xCCCCCC)
  {
    ParseHexRoundTrip(n);
    HexDigitsCCCCCC();
  }

  // ---------------------------------------------------------------- database module

  /** What the initialize_tables of a cog's database module creates. */
  datatype Initializer = CreatesBalances | CreatesCommandUsage | CreatesNothing

  /** An importable database module: with or without initialize_tables. */
  datatype DbModule = DbModule(initializer: Option<Initializer>)

  /** The module path _load_db_module imports, or None when the config's
      database_module is absent or falsy. */
  function DbModulePath(cogName: string, config: Config): (r: Option<string>)
    ensures r.Some? <==> Truthy(Get(config, "database_module", JNull))
    ensures "database_module" in config && config["database_module"].JStr? && config["database_module"].s != ""
      ==> r == Some("cogs." + cogName + "." + config["database_module"].s)
  {
    var v := Get(config, "database_module", JNull);
    if Truthy(v) then Some("cogs." + cogName + "." + PyStr(v)) else None
  }

  function RunInitializer(d: Db, i: Initializer, c: Conn): Db {
    match i
    case CreatesBalances => Ledger.InitializeTablesSpec(d, c)
    case CreatesCommandUsage => Usage.InitializeTablesSpec(d, c)
    case CreatesNothing => d
  }

  /** _load_db_module on the file d: the module bound (None when not
      configured or when the import fails) and the file after its
      initialize_tables, if it has one, ran once on connection c. */
  function BindDbSpec(d: Db, cogName: string, config: Config, modules: map<string, DbModule>, c: Conn): (Db, Option<DbModule>)
  {
    match DbModulePath(cogName, config)
    case None => (d, None)
    case Some(path) =>
      if path !in modules then (d, None)   // ImportError
      else
        var m := modules[path];
        (if m.initializer.Some? then RunInitializer(d, m.initializer.value, c) else d, Some(m))
  }

  /** The module is bound exactly when one is configured and its path can
      be imported, whether or not it has initialize_tables; binding never
      touches a row and adds at most the initializer's table. */
  lemma BindDbOutcome(d: Db, cogName: string, config: Config, modules: map<string, DbModule>, c: Conn)
    ensures var (d', m) := BindDbSpec(d, cogName, config, modules, c);
      var path := DbModulePath(cogName, config);
      && (m.Some? <==> path.Some? && path.value in modules)
      && (m.Some? ==> m == Some(modules[path.value]))
      && (m.None? || m.value.initializer.None? ==> d' == d)
      && d'.users == d.users && d'.balances == d.balances && d'.usage == d.usage
      && d.tables <= d'.tables && d'.tables - d.tables <= {Balances, CommandUsage}
  {
  }

  /** Binding the same module a second time (a cog reloaded) changes nothing
      the first binding did not: the CREATE statements are IF NOT EXISTS. */
  lemma BindDbIdempotent(d: Db, cogName: string, config: Config, modules: map<string, DbModule>, c1: Conn, c2: Conn)
    requires Reaches(c1, 1)
    ensures var d1 := BindDbSpec(d, cogName, config, modules, c1).0;
      BindDbSpec(d1, cogName, config, modules, c2).0 == d1
  {
  }

  // ---------------------------------------------------------------- the cog

  /** The attributes BaseCog.__init__ assigns. */
  class BaseCog {
    var cogName: string
    var config: Config
    var logLevel: int
    var db: Option<DbModule>

    /** The object before _load_config runs; logging.NOTSET is 0. */
    constructor (name: string)
      ensures cogName == name && config == map[] && logLevel == 0 && db == None
    {
      cogName, config, logLevel, db := name, map[], 0, None;
    }

    /** _load_config: copy the file's entries, add each default key the file
        lacks, then fill in the footer icon key. */
    method LoadConfig(kind: CogKind, file: Option<Config>, env: Env)
      modifies this
      ensures config == LoadConfigSpec(file, DefaultConfig(kind, cogName, env), env)
      ensures cogName == old(cogName) && logLevel == old(logLevel) && db == old(db)
    {
      var defaults := DefaultConfig(kind, cogName, env);
      if file.None? {
        config := defaults;
        return;
      }
      var merged := MergeDefaults(file.value, defaults);
      merged := merged[FooterKey := if FooterKey in merged then merged[FooterKey] else JStr(GetEnv(env, FooterEnv, ""))];
      config := merged;
    }

    /** _setup_logging: false where `.upper()` raises. */
    method SetupLogging(env: Env) returns (ok: bool)
      modifies this
      ensures ok == ResolveLogLevel(old(config), env).Some?
      ensures ok ==> logLevel == ResolveLogLevel(old(config), env).value
      ensures !ok ==> logLevel == old(logLevel)
      ensures cogName == old(cogName) && config == old(config) && db == old(db)
    {
      var v := Get(config, "log_level", JNull);
      var name: string;
      if !Truthy(v) {
        name := GetEnv(env, "LOG_LEVEL_COGS", "INFO");
      } else if v.JStr? {
        name := v.s;
      } else {
        return false;
      }
      logLevel := LevelOf(name);
      ok := true;
    }

    /** _load_db_module. */
    method LoadDbModule(store: Store, modules: map<string, DbModule>, c: Conn)
      requires store.Valid()
      modifies this, store
      ensures store.Valid()
      ensures (store.State(), db) == BindDbSpec(old(store.State()), cogName, config, modules, c)
      ensures cogName == old(cogName) && config == old(config) && logLevel == old(logLevel)
    {
      var path := DbModulePath(cogName, config);
      db := None;
      if path.None? { return; }
      if path.value !in modules { return; }
      var m := modules[path.value];
      if m.initializer.Some? {
        match m.initializer.value {
          case CreatesBalances => Ledger.InitializeTables(store, c);
          case CreatesCommandUsage => Usage.InitializeTables(store, c);
          case CreatesNothing =>
        }
      }
      db := Some(m);
    }
  }

  /** BaseCog.__init__: the name, then the configuration, then the log
      level, then the database module; _post_init is a hook with nothing to
      do in the base class. Null where __init__ raises (a log level that is
      not a string), in which case no database module was imported and the
      file is untouched. */
  method NewBaseCog(kind: CogKind, explicit: Option<string>, modulePath: string, className: string,
                    file: Option<Config>, env: Env, modules: map<string, DbModule>, store: Store, c: Conn)
    returns (cog: BaseCog?)
    requires store.Valid()
    modifies store
    ensures store.Valid()
    ensures var name := CogName(explicit, modulePath, className);
      var config := LoadConfigSpec(file, DefaultConfig(kind, name, env), env);
      && (cog == null <==> ResolveLogLevel(config, env).None?)
      && (cog == null ==> store.State() == old(store.State()))
      && (cog != null ==>
            && fresh(cog) && cog.cogName == name && cog.config == config
            && Some(cog.logLevel) == ResolveLogLevel(config, env)
            && (store.State(), cog.db) == BindDbSpec(old(store.State()), name, config, modules, c))
  {
    cog := new BaseCog(CogName(explicit, modulePath, className));
    cog.LoadConfig(kind, file, env);
    var ok := cog.SetupLogging(env);
    if !ok { return null; }
    cog.LoadDbModule(store, modules, c);
  }

  // ---------------------------------------------------------------- standalone cogs

  /** _load_config of the cogs that do not derive from BaseCog (the central
      bank and the stats cog): the file verbatim, with no defaults merged,
      plus the footer icon key (None when the environment lacks it); the
      cog's own fallback when the file is missing or not valid JSON. */
  function StandaloneConfig(file: Option<Config>, env: Env, fallback: Config): (r: Config)
    ensures file.None? ==> r == fallback
    ensures file.Some? ==> r.Keys == file.value.Keys + {FooterKey}
    ensures file.Some? ==> forall k | k in file.value :: r[k] == file.value[k]
    ensures file.Some? && FooterKey !in file.value ==>
      r[FooterKey] == (if FooterEnv in env then JStr(env[FooterEnv]) else JNull)
  {
    match file
    case None => fallback
    case Some(f) =>
      f[FooterKey := if FooterKey in f then f[FooterKey] else if FooterEnv in env then JStr(env[FooterEnv]) else JNull]
  }

  /** A fallback configuration of a standalone cog. */
  function FallbackConfig(authorName: string, color: string, env: Env): Config {
    map[
      "author_name" := JStr(authorName),
      "author_icon_url" := JStr(""),
      "footer_text" := JStr("Task Manager Bot"),
      FooterKey := JStr(GetEnv(env, FooterEnv, "")),
      "color" := JStr(color)]
  }

  /** The cog object of a standalone cog: the attributes its __init__
      assigns. */
  class StandaloneCog {
    var config: Config
    var logLevel: int

    constructor (config: Config, logLevel: int)
      ensures this.config == config && this.logLevel == logLevel
    {
      this.config, this.logLevel := config, logLevel;
    }
  }

  /** __init__ of a standalone cog: _load_config, then _setup_logging, which
      is the same rule as BaseCog's. Null where _setup_logging raises. */
  method NewStandaloneCog(file: Option<Config>, env: Env, fallback: Config) returns (cog: StandaloneCog?)
    ensures var config := StandaloneConfig(file, env, fallback);
      && (cog == null <==> ResolveLogLevel(config, env).None?)
      && (cog != null ==> fresh(cog) && cog.config == config && Some(cog.logLevel) == ResolveLogLevel(config, env))
  {
    var config := StandaloneConfig(file, env, fallback);
    var level := ResolveLogLevel(config, env);
    if level.None? { return null; }
    cog := new StandaloneCog(config, level.value);
  }

  // ---------------------------------------------------------------- replies

  /** What a command sends back: an embed made by _create_embed (title,
      description and named fields), or a plain message. */
  datatype Reply = Embed(title: string, description: string, fields: seq<(string, string)>) | Plain(text: string)
}
