/** The application logger (src/utils/logger.rs): the level names read from
    the configuration, the fixed-width labels written in front of every line,
    the daily log file name and the line layout. The wall clock, the global
    logger installation and the file appends are not modelled; the date and
    the time stamp are parameters. */
module Logging {
  import opened Wrappers
  import opened Text
  import Errors
  import Configuration

  /** `log::Level`. `parse_level` yields a `log::LevelFilter`, but never its
      `Off` value, so the same five values serve both. */
  datatype Level = Error | Warn | Info | Debug | Trace

  /** The level names `parse_level` knows, in upper case. */
  const ParseableLevels: seq<string> := ["SUCCESS", "INFO", "WARNING", "ERROR", "DEBUG", "TRACE"]

  /** `parse_level`: the name is upper-cased and looked up; SUCCESS is logged
      at the INFO level; anything else is a logger error naming the input. */
  function ParseLevel(name: string): (r: Result<Level, Errors.VitalError>)
    ensures r.Ok? <==> ToUpper(name) in ParseableLevels
    ensures r.Err? ==> r.error == Errors.Logger("Invalid log level: " + name)
    ensures r.Ok? ==> LevelNamed(ToUpper(name)) == Some(r.value)
  {
    match LevelNamed(ToUpper(name))
    case Some(l) => Ok(l)
    case None => Err(Errors.Logger("Invalid log level: " + name))
  }

  /** The match arms of `parse_level`, on the upper-cased name. */
  function LevelNamed(u: string): (r: Option<Level>)
    ensures r.Some? <==> u in ParseableLevels
    ensures u == "SUCCESS" || u == "INFO" ==> r == Some(Info)
    ensures u == "WARNING" ==> r == Some(Warn)
    ensures u == "ERROR" ==> r == Some(Error)
    ensures u == "DEBUG" ==> r == Some(Debug)
    ensures u == "TRACE" ==> r == Some(Trace)
  {
    if u == "SUCCESS" then Some(Info)
    else if u == "INFO" then Some(Info)
    else if u == "WARNING" then Some(Warn)
    else if u == "ERROR" then Some(Error)
    else if u == "DEBUG" then Some(Debug)
    else if u == "TRACE" then Some(Trace)
    else None
  }

  /** The name SUCCESS configures the INFO level. */
  lemma SuccessIsInfo()
    ensures ParseLevel("SUCCESS") == Ok(Info)
  {
    var w := "SUCCESS";
    assert forall i :: 0 <= i < |w| ==> IsAsciiUpper(w[i]);
    ToUpperOfUpper(w);
  }

  /** A name and its upper case parse to the same level. */
  lemma ParseLevelIgnoresCase(name: string)
    ensures ParseLevel(ToUpper(name)).Ok? <==> ParseLevel(name).Ok?
    ensures ParseLevel(name).Ok? ==> ParseLevel(ToUpper(name)).value == ParseLevel(name).value
  {
    ToUpperIdempotent(name);
  }

  /** Every name the configuration accepts also configures the logger, and
      never at the TRACE level. */
  lemma ValidatedLevelParses(c: Configuration.Config, uuidParses: string -> bool)
    requires Configuration.Validate(c, uuidParses).Ok?
    ensures ParseLevel(c.logLevel).Ok? && ParseLevel(c.logLevel).value != Trace
  {
  }

  /** TRACE configures the logger but is refused by the configuration check,
      so it can never reach the logger. */
  lemma TraceOnlyInLogger(c: Configuration.Config, uuidParses: string -> bool)
    requires c.logLevel == "TRACE"
    ensures ParseLevel(c.logLevel) == Ok(Trace)
    ensures Configuration.Validate(c, uuidParses).Err?
  {
    ToUpperOfUpper(c.logLevel);
  }

  /** `format_level`: the label written in front of every line. */
  function FormatLevel(l: Level): (s: string)
    ensures |s| == 7
    ensures s[0] != ' ' && s[6] != ' ' ==> s == "WARNING"
  {
    match l
    case Error => "ERROR  "
    case Warn => "WARNING"
    case Info => "INFO   "
    case Debug => "DEBUG  "
    case Trace => "TRACE  "
  }

  /** The label without its padding spaces. */
  function TrimEnd(s: string): (t: string)
    ensures |t| <= |s| && t == s[..|t|]
    ensures forall i :: |t| <= i < |s| ==> s[i] == ' '
    ensures t == [] || t[|t| - 1] != ' '
  {
    if s == [] || s[|s| - 1] != ' ' then s else TrimEnd(s[..|s| - 1])
  }

  lemma {:induction false} TrimEndOfPadded(word: string, pad: string)
    requires word != [] && word[|word| - 1] != ' '
    requires forall i :: 0 <= i < |pad| ==> pad[i] == ' '
    ensures TrimEnd(word + pad) == word
  {
    if pad != [] {
      assert (word + pad)[..|word + pad| - 1] == word + pad[..|pad| - 1];
      TrimEndOfPadded(word, pad[..|pad| - 1]);
    } else {
      assert word + pad == word;
    }
  }

  /** A label, stripped of its padding, parses back to its level: the labels
      name the levels the configuration uses. */
  lemma FormatLevelRoundTrip(l: Level)
    ensures ParseLevel(TrimEnd(FormatLevel(l))) == Ok(l)
  {
    LabelParses(l, LevelWord(l));
    LevelWordParses(l);
  }

  /** The label of `l` without its padding. */
  function LevelWord(l: Level): string {
    match l
    case Error => "ERROR"
    case Warn => "WARNING"
    case Info => "INFO"
    case Debug => "DEBUG"
    case Trace => "TRACE"
  }

  lemma LevelWordParses(l: Level)
    ensures ParseLevel(LevelWord(l)) == Ok(l)
  {
    LevelWordIsUpper(l);
    LevelNamedWord(l);
  }

  lemma LevelWordIsUpper(l: Level)
    ensures ToUpper(LevelWord(l)) == LevelWord(l)
  {
    var w := LevelWord(l);
    assert forall i :: 0 <= i < |w| ==> IsAsciiUpper(w[i]);
    ToUpperOfUpper(w);
  }

  /** Each label word names its own level. */
  lemma LevelNamedWord(l: Level)
    ensures LevelNamed(LevelWord(l)) == Some(l)
  {
    var w := LevelWord(l);
    assert w != "SUCCESS" by {
      assert |w| != 7 || w[0] != 'S';
    }
    match l
    case Error => assert w != "INFO" && w != "WARNING";
    case Warn => assert w[0] != "INFO"[0];
    case Info =>
    case Debug => assert w[0] != "INFO"[0] && w[0] != "WARNING"[0] && w[0] != "ERROR"[0];
    case Trace => assert w[0] != "INFO"[0] && w[0] != "WARNING"[0] && w[0] != "ERROR"[0] && w[0] != "DEBUG"[0];
  }

  /** The label is `word` padded with spaces, and `word` is in upper case. */
  lemma LabelParses(l: Level, word: string)
    requires 0 < |word| <= 7 && FormatLevel(l)[..|word|] == word && word[|word| - 1] != ' '
    requires forall i :: |word| <= i < 7 ==> FormatLevel(l)[i] == ' '
    requires forall i :: 0 <= i < |word| ==> IsAsciiUpper(word[i])
    ensures ParseLevel(TrimEnd(FormatLevel(l))) == ParseLevel(word)
  {
    var pad := FormatLevel(l)[|word|..];
    assert FormatLevel(l) == word + pad;
    TrimEndOfPadded(word, pad);
  }

  /** Distinct levels get distinct labels. */
  lemma FormatLevelInjective(a: Level, b: Level)
    requires FormatLevel(a) == FormatLevel(b)
    ensures a == b
  {
    FormatLevelRoundTrip(a);
    FormatLevelRoundTrip(b);
  }

  /** `PathBuf::join` of a relative file name. */
  function Join(dir: string, name: string): (p: string)
    ensures |p| >= |name| && p[|p| - |name|..] == name
    ensures dir != [] ==> p[..|p| - |name|] == (if dir[|dir| - 1] == '/' then dir else dir + "/")
  {
    if dir == [] then name
    else if dir[|dir| - 1] == '/' then dir + name
    else dir + "/" + name
  }

  /** `get_log_file_path` for the date `date` (`%Y-%m-%d` of the local clock). */
  function LogFilePath(logDir: string, date: string): (p: string)
    ensures |p| >= |date| + 14
    ensures p[|p| - |date| - 14..] == "vrconnect-" + date + ".log"
  {
    Join(logDir, "vrconnect-" + date + ".log")
  }

  /** Different dates are written to different files. */
  lemma LogFilePathInjective(logDir: string, d1: string, d2: string)
    requires LogFilePath(logDir, d1) == LogFilePath(logDir, d2)
    ensures d1 == d2
  {
    JoinInjective(logDir, "vrconnect-" + d1 + ".log", "vrconnect-" + d2 + ".log");
    DateOfFileName(d1);
    DateOfFileName(d2);
  }

  /** Joining a directory keeps file names apart. */
  lemma JoinInjective(dir: string, a: string, b: string)
    requires Join(dir, a) == Join(dir, b)
    ensures a == b
  {
    var prefix := if dir == [] then "" else if dir[|dir| - 1] == '/' then dir else dir + "/";
    assert Join(dir, a) == prefix + a;
    assert Join(dir, b) == prefix + b;
    assert a == Join(dir, a)[|prefix|..];
    assert b == Join(dir, b)[|prefix|..];
  }

  lemma DateOfFileName(d: string)
    ensures ("vrconnect-" + d + ".log")[10..|d| + 10] == d
  {
  }

  /** The line `write_log` appends for a message `msg` logged at level `l` at
      time `ts` (`%Y-%m-%d %H:%M:%S%.3f` of the local clock). */
  function LogLine(ts: string, l: Level, msg: string): (line: string)
    ensures |line| == |ts| + |msg| + 14
  {
    "[" + ts + "] [" + FormatLevel(l) + "] " + msg + "\n"
  }

  /** A line splits back into its time stamp, its level and its message at
      fixed offsets, whatever the message holds. */
  lemma LogLineFields(ts: string, l: Level, msg: string)
    ensures var line := LogLine(ts, l, msg);
      line[0] == '[' && line[1..|ts| + 1] == ts && line[|ts| + 1..|ts| + 4] == "] ["
      && ParseLevel(TrimEnd(line[|ts| + 4..|ts| + 11])) == Ok(l)
      && line[|ts| + 11..|ts| + 13] == "] "
      && line[|ts| + 13..|line| - 1] == msg && line[|line| - 1] == '\n'
  {
    LogLineLayout(ts, l, msg);
    FormatLevelRoundTrip(l);
  }

  lemma LogLineLayout(ts: string, l: Level, msg: string)
    ensures var line := LogLine(ts, l, msg);
      line[0] == '[' && line[1..|ts| + 1] == ts && line[|ts| + 1..|ts| + 4] == "] ["
      && line[|ts| + 4..|ts| + 11] == FormatLevel(l)
      && line[|ts| + 11..|ts| + 13] == "] "
      && line[|ts| + 13..|line| - 1] == msg && line[|line| - 1] == '\n'
  {
    var line := LogLine(ts, l, msg);
    var tag := FormatLevel(l);
    assert line[|ts| + 4..|ts| + 11] == tag by {
      assert line == ("[" + ts + "] [") + tag + ("] " + msg + "\n");
    }
    assert line[1..|ts| + 1] == ts && line[|ts| + 13..|line| - 1] == msg by {
      assert line == "[" + ts + ("] [" + tag + "] ") + msg + "\n";
    }
  }
}
