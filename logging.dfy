/** The logging functions exposed to Lua (`src/lua/logging.rs`): `dfim.log(msg, level, opts)`
    with its numeric level, the per-level functions, the `levels` table and the target
    formatting. Emitting the record goes through the `log` crate and is not modelled; each
    call is modelled by the record it emits. */
module Logging {
  import opened Wrappers
  import Text
  import opened Guest

  /** The `log` crate's levels. */
  datatype Level = Error | Warn | Info | Debug | Trace

  /** `Level::X as usize`. */
  function LevelValue(l: Level): (n: nat)
    ensures 1 <= n <= 5
  {
    match l
    case Error => 1
    case Warn => 2
    case Info => 3
    case Debug => 4
    case Trace => 5
  }

  /** The key of each level in the `levels` table. */
  function LevelName(l: Level): string
  {
    match l
    case Error => "ERROR"
    case Warn => "WARN"
    case Info => "INFO"
    case Debug => "DEBUG"
    case Trace => "TRACE"
  }

  /** The level chosen by `log`: a missing level is 3, a value of one of the levels is that
      level, and anything else is `Info`. */
  function LevelOf(level: Option<nat>): (l: Level)
    ensures level.None? ==> l == Info
    ensures level.Some? && 1 <= level.value <= 5 ==> LevelValue(l) == level.value
    ensures level.Some? && !(1 <= level.value <= 5) ==> l == Info
  {
    var x := match level case None => 3 case Some(v) => v;
    if x == LevelValue(Error) then Error
    else if x == LevelValue(Warn) then Warn
    else if x == LevelValue(Info) then Info
    else if x == LevelValue(Debug) then Debug
    else if x == LevelValue(Trace) then Trace
    else Info
  }

  /** The `levels` table that `register` exports. */
  function Levels(): map<string, nat>
  {
    map[
      LevelName(Error) := LevelValue(Error),
      LevelName(Warn) := LevelValue(Warn),
      LevelName(Info) := LevelValue(Info),
      LevelName(Debug) := LevelValue(Debug),
      LevelName(Trace) := LevelValue(Trace)]
  }

  /** Every level's value selects that level again, and distinct levels have distinct values:
      `log(msg, levels.X)` logs at level X. */
  lemma LevelRoundTrip(l: Level)
    ensures LevelOf(Some(LevelValue(l))) == l
    ensures LevelName(l) in Levels() && Levels()[LevelName(l)] == LevelValue(l)
  {
  }

  /** The `levels` table holds exactly the five level names, each with its level's value. */
  lemma LevelsExact(name: string)
    ensures name in Levels() <==> exists l: Level :: LevelName(l) == name
    ensures name in Levels() ==> exists l: Level :: LevelName(l) == name && LevelOf(Some(Levels()[name])) == l
  {
    if name in Levels() {
      var l := if name == "ERROR" then Error else if name == "WARN" then Warn
        else if name == "INFO" then Info else if name == "DEBUG" then Debug else Trace;
      assert LevelName(l) == name;
      LevelRoundTrip(l);
    }
  }

  /** The level of `log` is always one of the five, and is `Info` unless the argument is the
      value of another level. */
  lemma LevelDefault(level: Option<nat>)
    ensures LevelOf(level) != Info ==> level.Some? && LevelValue(LevelOf(level)) == level.value
  {
  }

  // ---------------------------------------------------------------------------------------
  // targets and records

  /** `opts.target` read as a string (`t.get::<_, String>("target").ok()`): a string as it
      is, a number in its text, and the empty string when there are no options or the field
      is missing or of another type. */
  function Target(h: Heap, opts: Option<TableId>): (s: string)
    ensures opts.None? ==> s == ""
    ensures opts.Some? && Get(h, opts.value, KStr("target")).Str? ==> s == Get(h, opts.value, KStr("target")).s
    ensures opts.Some? && Get(h, opts.value, KStr("target")).Integer? ==> s == Text.IntToDecimal(Get(h, opts.value, KStr("target")).i)
    ensures opts.Some? && Get(h, opts.value, KStr("target")).Number? ==> s == Get(h, opts.value, KStr("target")).f.text
    ensures opts.Some? && CoerceString(Get(h, opts.value, KStr("target"))).None? ==> s == ""
    ensures opts.Some? && !(Get(h, opts.value, KStr("target")).Str? || Get(h, opts.value, KStr("target")).Integer? || Get(h, opts.value, KStr("target")).Number?) ==> s == ""
  {
    match opts
    case None => ""
    case Some(t) =>
      match CoerceString(Get(h, t, KStr("target")))
      case Some(s) => s
      case None => ""
  }

  /** `fmt_target`: `LUA`, then `::` and the target when there is one. */
  function FmtTarget(h: Heap, opts: Option<TableId>): (r: string)
    ensures |r| >= 3 && r[..3] == "LUA"
  {
    var target := Target(h, opts);
    var sep := if target == "" then "" else "::";
    "LUA" + sep + target
  }

  /** The target text is `LUA` exactly when there is no target, and otherwise the target
      follows `LUA::` unchanged. */
  lemma FmtTargetParts(h: Heap, opts: Option<TableId>)
    ensures var r := FmtTarget(h, opts); var t := Target(h, opts);
      (r == "LUA" <==> t == "") &&
      (t != "" ==> |r| == 5 + |t| && r[..5] == "LUA::" && r[5..] == t)
  {
    var r := FmtTarget(h, opts);
    var t := Target(h, opts);
    if t != "" {
      assert r == "LUA::" + t;
      assert |r| > 3;
    }
  }

  /** What one call emits: the target, the level and the message. */
  datatype Record = Record(target: string, level: Level, message: string)

  /** `log(message, level, opts)`. */
  function Log(h: Heap, message: string, level: Option<nat>, opts: Option<TableId>): (r: Record)
    ensures r.level == LevelOf(level) && r.message == message
    ensures r.target == FmtTarget(h, opts)
  {
    Record(FmtTarget(h, opts), LevelOf(level), message)
  }

  /** The per-level functions `trace`, `debug`, `info`, `warn` and `error`. */
  function LogAt(l: Level, h: Heap, message: string, opts: Option<TableId>): (r: Record)
    ensures r.level == l && r.message == message && r.target == FmtTarget(h, opts)
  {
    Record(FmtTarget(h, opts), l, message)
  }

  /** `log` with a level from the `levels` table emits what the per-level function emits. */
  lemma LogMatchesLevelFunction(l: Level, h: Heap, message: string, opts: Option<TableId>)
    ensures Log(h, message, Some(Levels()[LevelName(l)]), opts) == LogAt(l, h, message, opts)
  {
    LevelRoundTrip(l);
  }
}
