/** Log levels of src/core/logger.py: the `LogLevel` enumeration and
    `Logger._parse_log_level`, which accepts an enumeration member, an int or a
    level name. */
module LogLevels {
  import opened Wrappers

  /** The members of `LogLevel`; `Fatal` and `Warn` are aliases sharing the value
      of `Critical` and `Warning`, as in the `logging` module. */
  datatype LogLevel = Critical | Fatal | Error | Warning | Warn | Info | Debug | NotSet

  /** The standard numeric levels of Python's `logging` module. */
  const CRITICAL: int := 50
  const ERROR: int := 40
  const WARNING: int := 30
  const INFO: int := 20
  const DEBUG: int := 10
  const NOTSET: int := 0

  /** `level.value`. */
  function Value(l: LogLevel): int {
    match l
    case Critical => CRITICAL
    case Fatal => CRITICAL
    case Error => ERROR
    case Warning => WARNING
    case Warn => WARNING
    case Info => INFO
    case Debug => DEBUG
    case NotSet => NOTSET
  }

  /** The member an alias stands for: an `Enum` alias is the same object as the
      first member with its value, so `LogLevel.FATAL is LogLevel.CRITICAL`. */
  function Canonical(l: LogLevel): (c: LogLevel)
    ensures Value(c) == Value(l)
    ensures c != Fatal && c != Warn
    ensures l != Fatal && l != Warn ==> c == l
  {
    match l
    case Fatal => Critical
    case Warn => Warning
    case _ => l
  }

  /** The member's name as written in the class body. */
  function Name(l: LogLevel): string {
    match l
    case Critical => "CRITICAL"
    case Fatal => "FATAL"
    case Error => "ERROR"
    case Warning => "WARNING"
    case Warn => "WARN"
    case Info => "INFO"
    case Debug => "DEBUG"
    case NotSet => "NOTSET"
  }

  /** The level-valued attributes of the `logging` module, by name: what
      `getattr(logging, name)` finds for a level name. */
  function LevelByName(name: string): Option<int> {
    if name == "CRITICAL" || name == "FATAL" then Some(CRITICAL)
    else if name == "ERROR" then Some(ERROR)
    else if name == "WARNING" || name == "WARN" then Some(WARNING)
    else if name == "INFO" then Some(INFO)
    else if name == "DEBUG" then Some(DEBUG)
    else if name == "NOTSET" then Some(NOTSET)
    else None
  }

  /** The dynamically typed argument of `_parse_log_level`. A Python `bool` is an
      `int` and arrives as `IntArg`. */
  datatype LevelArg = EnumArg(level: LogLevel) | IntArg(n: int) | StrArg(s: string) | OtherArg

  function UpperChar(c: char): char {
    if 'a' <= c <= 'z' then (c as int - 32) as char else c
  }

  function LowerChar(c: char): char {
    if 'A' <= c <= 'Z' then (c as int + 32) as char else c
  }

  /** `s.upper()` on ASCII letters. */
  function Upper(s: string): (r: string)
    ensures |r| == |s|
    ensures forall i :: 0 <= i < |s| ==> r[i] == UpperChar(s[i])
  {
    if |s| == 0 then "" else [UpperChar(s[0])] + Upper(s[1..])
  }

  function Lower(s: string): (r: string)
    ensures |r| == |s|
    ensures forall i :: 0 <= i < |s| ==> r[i] == LowerChar(s[i])
  {
    if |s| == 0 then "" else [LowerChar(s[0])] + Lower(s[1..])
  }

  /** `_parse_log_level(level)`. */
  function ParseLevel(arg: LevelArg): (r: int)
    ensures arg.EnumArg? ==> r == Value(arg.level)
    ensures arg.IntArg? ==> r == arg.n
    ensures arg.StrArg? ==> r in {NOTSET, DEBUG, INFO, WARNING, ERROR, CRITICAL}
    ensures arg.OtherArg? ==> r == INFO
  {
    match arg
    case EnumArg(l) => Value(l)
    case StrArg(s) =>
      LevelByName(Upper(s)).GetOr(INFO)
    case IntArg(n) => n
    case OtherArg => INFO
  }

  /** A string argument parses to one of the six standard levels, and to INFO
      exactly when its upper-cased form names no level. */
  lemma ParseStringInRange(s: string)
    ensures ParseLevel(StrArg(s)) in {NOTSET, DEBUG, INFO, WARNING, ERROR, CRITICAL}
    ensures LevelByName(Upper(s)).None? ==> ParseLevel(StrArg(s)) == INFO
  {
  }

  /** Parsing ignores letter case: strings that agree up to case parse alike. */
  lemma ParseCaseInsensitive(s: string, t: string)
    requires |s| == |t|
    requires forall i :: 0 <= i < |s| ==> UpperChar(s[i]) == UpperChar(t[i])
    ensures ParseLevel(StrArg(s)) == ParseLevel(StrArg(t))
  {
    assert Upper(s) == Upper(t);
  }

  /** Every member's name, in upper or lower case, parses to the member's value,
      so the enumeration and the string table agree. */
  lemma NameParsesToValue(l: LogLevel)
    ensures ParseLevel(StrArg(Name(l))) == Value(l)
    ensures ParseLevel(StrArg(Lower(Name(l)))) == Value(l)
    ensures ParseLevel(EnumArg(l)) == Value(l)
  {
    NameInTable(l);
    NameCase(Name(l), Value(l));
  }

  /** Each member's name is an upper-case word that the table maps to its value. */
  lemma NameInTable(l: LogLevel)
    ensures IsUpperAscii(Name(l))
    ensures LevelByName(Name(l)) == Some(Value(l))
  {
  }

  /** An upper-case level name parses to its level in either case. */
  lemma NameCase(n: string, v: int)
    requires IsUpperAscii(n)
    requires LevelByName(n) == Some(v)
    ensures ParseLevel(StrArg(n)) == v
    ensures ParseLevel(StrArg(Lower(n))) == v
  {
    UpperOfUpperCase(n);
    UpperOfLower(n);
  }

  predicate IsUpperAscii(s: string) {
    forall i :: 0 <= i < |s| ==> 'A' <= s[i] <= 'Z'
  }

  lemma UpperOfUpperCase(s: string)
    requires IsUpperAscii(s)
    ensures Upper(s) == s
  {
  }

  /** Upper-casing a lower-cased upper-case word gives the word back. */
  lemma UpperOfLower(s: string)
    requires IsUpperAscii(s)
    ensures Upper(Lower(s)) == s
  {
    assert forall i :: 0 <= i < |s| ==> UpperChar(LowerChar(s[i])) == s[i];
  }

  /** An int passes through unchanged, and anything that is neither a member, an
      int nor a string is INFO. */
  lemma ParseIntAndOther(n: int)
    ensures ParseLevel(IntArg(n)) == n
    ensures ParseLevel(OtherArg) == INFO
  {
  }
}
