/** The configuration side of `Logger` in src/core/logger.py: the named-singleton
    registry `Logger.get_logger` with its defaults/kwargs merge, `get_child_logger`,
    and `log_with_context` with its temporary context. Handlers, files and
    threads are not modelled; a logger is the configuration it was built from. */
module Loggers {
  import opened Wrappers
  import opened LogLevels
  import LoggerContext
  import LogFormat

  /** A keyword-argument value. */
  datatype Value = VStr(s: string) | VInt(n: int) | VBool(b: bool) | VLevel(l: LogLevel)

  /** Keyword arguments, by parameter name. */
  type Config = map<string, Value>

  /** The parameters of `Logger.__init__` other than `name` and `log_level`, with
      their defaults; `format` is the default log format. */
  function DefaultsWith(format: string): Config {
    map[
      "log_directory" := VStr("logs"),
      "log_filename" := VStr("app.log"),
      "log_format" := VStr(format),
      "date_format" := VStr("%Y-%m-%d %H:%M:%S"),
      "use_colors" := VBool(true),
      "max_file_size" := VInt(10 * 1024 * 1024),
      "backup_count" := VInt(5),
      "enable_console" := VBool(true),
      "enable_file" := VBool(true),
      "async_workers" := VInt(2)
    ]
  }

  const SettingDefaults: Config := DefaultsWith(LogFormat.DefaultFormat)

  /** Every keyword `Logger.__init__` accepts. */
  const Params: set<string> := SettingDefaults.Keys + {"name", "log_level"}

  /** A built logger: the name it was given, its parsed level, and the value of
      every other constructor parameter. */
  datatype Logger = Logger(name: Value, level: int, settings: Config)

  /** `_parse_log_level` sees a `bool` as the `int` 0 or 1. */
  function AsLevelArg(v: Value): LevelArg {
    match v
    case VLevel(l) => EnumArg(l)
    case VInt(n) => IntArg(n)
    case VBool(b) => IntArg(if b then 1 else 0)
    case VStr(s) => StrArg(s)
  }

  /** `Path(v)` accepts a string; any other value raises `TypeError`. */
  predicate DirectoryAccepted(v: Value) {
    v.VStr?
  }

  /** `ThreadPoolExecutor(max_workers=v)`: a number (a `bool` is 0 or 1) that is
      not positive raises `ValueError`; a string or a `LogLevel` member cannot be
      compared with 0 and raises `TypeError`. */
  predicate WorkersAccepted(v: Value) {
    match v
    case VInt(n) => n > 0
    case VBool(b) => b
    case VStr(_) => false
    case VLevel(_) => false
  }

  /** `logging.getLogger(v)`: any string is a name, a falsy value gives the root
      logger, and any other value raises `TypeError`. */
  predicate NameAccepted(v: Value) {
    match v
    case VStr(_) => true
    case VInt(n) => n == 0
    case VBool(b) => !b
    case VLevel(_) => false
  }

  /** `logging.Formatter(v)` with the default `%` style: a falsy format falls back
      to `%(message)s`; a non-empty string must contain a conversion or it raises
      `ValueError`; any other value raises `TypeError` when searched. */
  predicate FormatAccepted(v: Value) {
    match v
    case VStr(s) => s == "" || LogFormat.HasConversion(s)
    case VInt(n) => n == 0
    case VBool(b) => !b
    case VLevel(_) => false
  }

  /** The value checks construction makes on the settings it is given. */
  predicate SettingsAccepted(config: Config) {
    && ("log_directory" in config ==> DirectoryAccepted(config["log_directory"]))
    && ("async_workers" in config ==> WorkersAccepted(config["async_workers"]))
    && ("log_format" in config ==> FormatAccepted(config["log_format"]))
  }

  /** What every constructed logger satisfies: all settings present and accepted. */
  predicate WellFormed(l: Logger) {
    l.settings.Keys == SettingDefaults.Keys && SettingsAccepted(l.settings)
  }

  /** `cls(**config)`. An unexpected keyword is a `TypeError`. The body of
      `__init__` then raises, in order, for the directory (`Path`), the worker
      count (`AsyncLogHandler`), the name (`logging.getLogger` in
      `_setup_logger`) and the format (`SafeFormatter`). Otherwise every
      parameter takes its argument or its default. */
  function Construct(config: Config): (r: Result<Logger, string>)
    ensures r.Success? <==>
      && config.Keys <= Params
      && ("name" in config ==> NameAccepted(config["name"]))
      && SettingsAccepted(config)
    ensures r.Success? ==>
      && r.value.name == (if "name" in config then config["name"] else VStr("app"))
      && r.value.level == (if "log_level" in config then ParseLevel(AsLevelArg(config["log_level"])) else INFO)
      && r.value.settings.Keys == SettingDefaults.Keys
      && forall k :: k in SettingDefaults ==>
           r.value.settings[k] == (if k in config then config[k] else SettingDefaults[k])
  {
    if !(config.Keys <= Params) then Failure("TypeError: unexpected keyword argument")
    else if "log_directory" in config && !DirectoryAccepted(config["log_directory"]) then
      Failure("TypeError: expected str, bytes or os.PathLike object")
    else if "async_workers" in config && !WorkersAccepted(config["async_workers"]) then
      (if config["async_workers"].VInt? || config["async_workers"].VBool? then Failure("ValueError: max_workers must be greater than 0")
       else Failure("TypeError: '<=' not supported"))
    else if "name" in config && !NameAccepted(config["name"]) then Failure("TypeError: A logger name must be a string")
    else if "log_format" in config && !FormatAccepted(config["log_format"]) then
      (if config["log_format"].VStr? then Failure("ValueError: Invalid format for '%' style")
       else Failure("TypeError: expected string or bytes-like object"))
    else
      var name := if "name" in config then config["name"] else VStr("app");
      var level := if "log_level" in config then ParseLevel(AsLevelArg(config["log_level"])) else ParseLevel(EnumArg(Info));
      Success(Logger(name, level, map k | k in SettingDefaults :: if k in config then config[k] else SettingDefaults[k]))
  }

  /** Defaults whose format holds a conversion pass every check construction makes. */
  lemma DefaultsWithAccepted(format: string)
    requires LogFormat.HasConversion(format)
    ensures SettingsAccepted(DefaultsWith(format))
  {
    var d := DefaultsWith(format);
    assert d["log_directory"] == VStr("logs");
    assert d["async_workers"] == VInt(2);
    assert d["log_format"] == VStr(format);
  }

  /** The defaults pass every check construction makes. */
  lemma DefaultsAccepted()
    ensures SettingsAccepted(SettingDefaults)
  {
    LogFormat.DefaultFormatConverts();
    DefaultsWithAccepted(LogFormat.DefaultFormat);
  }

  /** Every logger construction builds is well formed. */
  lemma ConstructWellFormed(config: Config)
    requires Construct(config).Success?
    ensures WellFormed(Construct(config).value)
  {
    DefaultsAccepted();
  }

  /** `Logger._instances`. */
  type Instances = map<string, Logger>

  /** `Logger.get_logger(name, **kwargs)`. `defaults` is `_default_config`; an empty
      one is falsy and contributes nothing, exactly like `None`. A constructor
      error propagates and registers nothing. */
  function GetLogger(instances: Instances, defaults: Option<Config>, name: string, kwargs: Config)
    : (r: (Instances, Result<Logger, string>))
    ensures name in instances ==> r == (instances, Success(instances[name]))
    ensures name !in instances ==>
      var merged := defaults.GetOr(map[]) + kwargs;
      && (r.1.Success? <==> merged.Keys <= Params && SettingsAccepted(merged))
      && (r.1.Success? ==>
            && r.0 == instances[name := r.1.value]
            && r.1.value.name == VStr(name)
            && r.1.value.level == (if "log_level" in merged then ParseLevel(AsLevelArg(merged["log_level"])) else INFO)
            && r.1.value.settings.Keys == SettingDefaults.Keys
            && forall k :: k in SettingDefaults ==>
                 r.1.value.settings[k] == (if k in merged then merged[k] else SettingDefaults[k]))
      && (r.1.Failure? ==> r.0 == instances)
  {
    if name in instances then (instances, Success(instances[name]))
    else
      var merged := defaults.GetOr(map[]) + kwargs;
      ConstructNamed(merged, name);
      match Construct(merged["name" := VStr(name)])
      case Success(l) => (instances[name := l], Success(l))
      case Failure(e) => (instances, Failure(e))
  }

  /** Construction under an explicit string name succeeds exactly when the other
      keywords are parameters and pass the value checks. */
  lemma ConstructNamed(merged: Config, name: string)
    ensures var r := Construct(merged["name" := VStr(name)]);
      && (r.Success? <==> merged.Keys <= Params && SettingsAccepted(merged))
      && (r.Success? ==>
            && r.value.name == VStr(name)
            && r.value.level == (if "log_level" in merged then ParseLevel(AsLevelArg(merged["log_level"])) else INFO)
            && r.value.settings.Keys == SettingDefaults.Keys
            && forall k :: k in SettingDefaults ==>
                 r.value.settings[k] == (if k in merged then merged[k] else SettingDefaults[k]))
  {
    var config := merged["name" := VStr(name)];
    assert config.Keys == merged.Keys + {"name"};
    assert SettingsAccepted(config) <==> SettingsAccepted(merged);
    assert forall k :: k in SettingDefaults ==> k != "name" && (k in config <==> k in merged);
  }

  /** Every later call with the same name returns the same instance, whatever its
      arguments, and registers nothing. */
  lemma GetLoggerIdempotent(instances: Instances, defaults: Option<Config>, name: string, kw1: Config, kw2: Config)
    requires GetLogger(instances, defaults, name, kw1).1.Success?
    ensures var (inst1, l1) := GetLogger(instances, defaults, name, kw1);
      GetLogger(inst1, defaults, name, kw2) == (inst1, l1)
  {
  }

  /** `str(v)`, which the f-string of `get_child_logger` applies to the name. */
  function Text(v: Value): string {
    match v
    case VStr(s) => s
    case VInt(n) => Decimal(n)
    case VBool(b) => if b then "True" else "False"
    case VLevel(l) => "LogLevel." + Name(Canonical(l))
  }

  /** The decimal rendering of an int. */
  function Decimal(n: int): string
    decreases if n < 0 then 1 - n else n
  {
    if n < 0 then "-" + Decimal(-n)
    else if n < 10 then [(48 + n) as char]
    else Decimal(n / 10) + [(48 + n % 10) as char]
  }

  /** The name `get_child_logger(suffix)` asks for. */
  function ChildName(parent: Logger, suffix: string): string {
    Text(parent.name) + "." + suffix
  }

  /** The keywords `get_child_logger` passes on: every setting of the parent but
      `async_workers`, with the parent's parsed level as an int. */
  function ChildKwargs(parent: Logger): (kw: Config)
    requires parent.settings.Keys == SettingDefaults.Keys
    ensures kw.Keys == SettingDefaults.Keys - {"async_workers"} + {"log_level"}
    ensures kw["log_level"] == VInt(parent.level)
    ensures forall k :: k in SettingDefaults && k != "async_workers" ==> kw[k] == parent.settings[k]
  {
    (map k | k in parent.settings && k != "async_workers" :: parent.settings[k])["log_level" := VInt(parent.level)]
  }

  /** `parent.get_child_logger(suffix)`: `get_logger` under the dotted name. */
  function ChildLogger(instances: Instances, defaults: Option<Config>, parent: Logger, suffix: string)
    : (r: (Instances, Result<Logger, string>))
    requires parent.settings.Keys == SettingDefaults.Keys
    ensures var childName := ChildName(parent, suffix);
      && (childName in instances ==> r == (instances, Success(instances[childName])))
      && (childName !in instances && r.1.Success? ==>
            && r.0 == instances[childName := r.1.value]
            && r.1.value.name == VStr(childName)
            && r.1.value.level == parent.level
            && r.1.value.settings.Keys == SettingDefaults.Keys
            && forall k :: k in SettingDefaults && k != "async_workers" ==> r.1.value.settings[k] == parent.settings[k])
  {
    ChildMerge(defaults, parent);
    GetLogger(instances, defaults, ChildName(parent, suffix), ChildKwargs(parent))
  }

  /** The parent's keywords override whatever the defaults say about the same keys. */
  lemma ChildMerge(defaults: Option<Config>, parent: Logger)
    requires parent.settings.Keys == SettingDefaults.Keys
    ensures var merged := defaults.GetOr(map[]) + ChildKwargs(parent);
      && "log_level" in merged && merged["log_level"] == VInt(parent.level)
      && forall k :: k in SettingDefaults && k != "async_workers" ==> k in merged && merged[k] == parent.settings[k]
  {
  }

  /** A well-formed parent, under defaults whose keys are all parameters and whose
      worker count (the one setting not inherited) is accepted, always gets its
      unregistered child created under the dotted name, with its own level and
      copied settings. */
  lemma ChildInherits(instances: Instances, defaults: Option<Config>, parent: Logger, suffix: string)
    requires WellFormed(parent)
    requires ChildName(parent, suffix) !in instances
    requires defaults.Some? ==> defaults.value.Keys <= Params
    requires defaults.Some? && "async_workers" in defaults.value ==> WorkersAccepted(defaults.value["async_workers"])
    ensures var (inst, child) := ChildLogger(instances, defaults, parent, suffix);
      && child.Success?
      && child.value.name == VStr(ChildName(parent, suffix))
      && child.value.level == parent.level
      && (forall k :: k in SettingDefaults && k != "async_workers" ==> child.value.settings[k] == parent.settings[k])
      && inst == instances[ChildName(parent, suffix) := child.value]
  {
    var merged := defaults.GetOr(map[]) + ChildKwargs(parent);
    ChildMerge(defaults, parent);
    assert merged.Keys <= Params;
    assert SettingsAccepted(merged);
  }

  /** A child is refused whenever the defaults carry a worker count construction
      rejects, however well formed its parent. */
  lemma ChildRefusedByWorkers(instances: Instances, defaults: Config, parent: Logger, suffix: string)
    requires parent.settings.Keys == SettingDefaults.Keys
    requires ChildName(parent, suffix) !in instances
    requires "async_workers" in defaults && !WorkersAccepted(defaults["async_workers"])
    ensures var (inst, child) := ChildLogger(instances, Some(defaults), parent, suffix);
      child.Failure? && inst == instances
  {
    var merged := defaults + ChildKwargs(parent);
    assert merged["async_workers"] == defaults["async_workers"];
  }

  /** `logging.Logger.isEnabledFor(level)`: the level must exceed the manager's
      `disable` level, 0 unless `logging.disable` is called, and reach the
      logger's effective level `threshold`. */
  predicate IsEnabledFor(level: int, threshold: int) {
    level > 0 && level >= threshold
  }

  /** What an emission carries: its level, its message and the context stamped
      on its record. */
  datatype Emission = Emission(level: int, message: string, context: map<string, string>)

  /** `log_with_context(level, message, context)`: a non-empty `context` is set on
      top of the current one for the duration of the call; afterwards every key
      is cleared and the saved values are set back. */
  function LogWithContext(ctx: LoggerContext.Context, threshold: int, level: LevelArg, message: string,
                          context: Option<map<string, string>>)
    : (r: (LoggerContext.Context, Option<Emission>))
    ensures r.1.Some? <==> ParseLevel(level) > 0 && ParseLevel(level) >= threshold
    ensures r.1.Some? ==> r.1.value.level == ParseLevel(level) && r.1.value.message == message
    ensures context.None? || context == Some(map[]) ==>
      r.0 == ctx && (r.1.Some? ==> r.1.value.context == ctx)
    ensures context.Some? && context.value != map[] ==>
      && r.0.Keys == ctx.Keys + context.value.Keys
      && (forall k :: k in ctx ==> r.0[k] == ctx[k])
      && (forall k :: k in r.0 && k !in ctx ==> r.0[k] == "")
      && (r.1.Some? ==>
            && r.1.value.context.Keys == ctx.Keys + context.value.Keys
            && forall k :: k in r.1.value.context ==>
                 r.1.value.context[k] == (if k in context.value then context.value[k] else ctx[k]))
  {
    var active := context.Some? && context.value != map[];
    var saved := if active then LoggerContext.GetAllContext(ctx) else map[];
    var during := if active then LoggerContext.SetAll(ctx, context.value) else ctx;
    var levelInt := ParseLevel(level);
    var emitted :=
      if IsEnabledFor(levelInt, threshold) then Some(Emission(levelInt, message, LoggerContext.GetAllContext(during)))
      else None;
    var after := if active then LoggerContext.SetAll(LoggerContext.ClearContext(during, None), saved) else during;
    (after, emitted)
  }

  /** Round trip on the restored context: a key's value after the call is its value
      before it, `''` for keys the temporary context introduced. */
  lemma LogWithContextRestores(ctx: LoggerContext.Context, threshold: int, level: LevelArg, message: string,
                               context: Option<map<string, string>>, key: string)
    ensures LoggerContext.GetContext(LogWithContext(ctx, threshold, level, message, context).0, key)
         == LoggerContext.GetContext(ctx, key)
  {
  }

  /** Logging twice with the same temporary context leaves the context as logging
      once: the keys it introduced are registered, blank, either way. */
  lemma LogWithContextStable(ctx: LoggerContext.Context, threshold: int, level: LevelArg, message: string,
                             context: Option<map<string, string>>)
    ensures var once := LogWithContext(ctx, threshold, level, message, context).0;
      LogWithContext(once, threshold, level, message, context).0 == once
  {
  }
}
