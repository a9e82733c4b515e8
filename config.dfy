/** The application configuration (src/config/mod.rs): the command-line
    parameters with their defaults, the consistency checks run before start-up,
    and the Socket.IO URL built from them. Parsing the command line and the
    environment file is not modelled; `Uuid::parse_str` is a parameter. */
module Configuration {
  import opened Wrappers
  import opened Text

  /** `u16`. */
  type Port = p: int | 0 <= p < 0x1_0000

  datatype Config = Config(
    configFile: Option<string>,
    socketioHost: string,
    socketioPort: Port,
    outputConsoleEnabled: bool,
    outputConsoleVerbose: bool,
    outputConsoleColorized: bool,
    outputBleEnabled: bool,
    outputBleDeviceName: string,
    outputBleServiceUuid: string,
    debugEnabled: bool,
    debugOutputPath: string,
    logLevel: string,
    logDir: string)

  /** The values filled in when no argument is given. */
  const DefaultConfig := Config(
    None, "127.0.0.1", 3000, true, false, true, false, "VRConnect",
    "12345678-1234-5678-1234-567812345678", false, "./logs/debug.log", "INFO", "./logs")

  /** The level names the configuration accepts, in upper case. */
  const ValidLevels: seq<string> := ["SUCCESS", "INFO", "WARNING", "ERROR", "DEBUG"]

  predicate ValidLevel(level: string) {
    ToUpper(level) in ValidLevels
  }

  /** `Config::validate`: the port, then the BLE service UUID (only when BLE
      output is enabled), then the log level; the first failing check names
      the offending value. */
  function Validate(c: Config, uuidParses: string -> bool): (r: Result<(), string>)
    ensures r.Ok? <==>
      c.socketioPort != 0
      && (c.outputBleEnabled ==> uuidParses(c.outputBleServiceUuid))
      && ValidLevel(c.logLevel)
    ensures c.socketioPort == 0 ==> r == Err("Socket.IO port cannot be 0")
    ensures c.socketioPort != 0 && c.outputBleEnabled && !uuidParses(c.outputBleServiceUuid)
      ==> r == Err("Invalid BLE service UUID: " + c.outputBleServiceUuid)
    ensures r.Err? && c.socketioPort != 0 && (c.outputBleEnabled ==> uuidParses(c.outputBleServiceUuid))
      ==> r == Err("Invalid log level: " + c.logLevel)
  {
    if c.socketioPort == 0 then Err("Socket.IO port cannot be 0")
    else if c.outputBleEnabled && !uuidParses(c.outputBleServiceUuid) then
      Err("Invalid BLE service UUID: " + c.outputBleServiceUuid)
    else if !ValidLevel(c.logLevel) then Err("Invalid log level: " + c.logLevel)
    else Ok(())
  }

  predicate Contains(s: string, w: string) {
    exists i :: 0 <= i <= |s| && w <= s[i..]
  }

  /** Port 0 is refused, and the message says it is the port. */
  lemma PortZeroRejected(c: Config, uuidParses: string -> bool)
    requires c.socketioPort == 0
    ensures Validate(c, uuidParses).Err?
    ensures Contains(Validate(c, uuidParses).error, "port")
  {
    var m := Validate(c, uuidParses).error;
    assert m == "Socket.IO port cannot be 0";
    assert "port" <= m[10..];
  }

  /** The defaults pass validation, whatever the UUID parser accepts. */
  lemma DefaultValidates(uuidParses: string -> bool)
    ensures Validate(DefaultConfig, uuidParses) == Ok(())
  {
    var s := "INFO";
    assert ToUpper(s) == UpperOf(s[0]) + ToUpper(s[1..]);
    assert ToUpper(s[1..]) == UpperOf(s[1]) + ToUpper(s[2..]);
    assert ToUpper(s[2..]) == UpperOf(s[2]) + ToUpper(s[3..]);
    assert ToUpper(s[3..]) == UpperOf(s[3]) + ToUpper([]);
    assert ToUpper(s) == "INFO";
  }

  /** With BLE output disabled the service UUID is never looked at. */
  lemma UuidIgnoredWithoutBle(c: Config, p: string -> bool, q: string -> bool)
    requires !c.outputBleEnabled
    ensures Validate(c, p) == Validate(c, q)
  {
  }

  /** The level check does not depend on letter case: a level and its upper
      case are accepted or refused together. */
  lemma ValidateIgnoresLevelCase(c: Config, uuidParses: string -> bool)
    ensures Validate(c, uuidParses).Ok? <==> Validate(c.(logLevel := ToUpper(c.logLevel)), uuidParses).Ok?
  {
    ToUpperIdempotent(c.logLevel);
  }

  /** `merge_with`: the command line already holds the file's values, so the
      loaded configuration is ignored. */
  function MergeWith(self: Config, fileConfig: Config): (r: Config)
    ensures r == self
  {
    self
  }

  /** `socket_url`: the URL reads back as the host followed by the port in
      decimal. */
  function SocketUrl(c: Config): (u: string)
    ensures |u| > 8 + |c.socketioHost|
    ensures u[..7] == "http://"
    ensures u[7..7 + |c.socketioHost|] == c.socketioHost
    ensures u[7 + |c.socketioHost|] == ':'
    ensures AllDigits(u[8 + |c.socketioHost|..])
      && DigitsValue(u[8 + |c.socketioHost|..]) == c.socketioPort
  {
    var u := "http://" + c.socketioHost + ":" + NatToString(c.socketioPort);
    assert u[8 + |c.socketioHost|..] == NatToString(c.socketioPort);
    DigitsValueOfNatToString(c.socketioPort);
    u
  }
}
