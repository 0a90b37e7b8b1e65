/**
 * Command-line handling of Launcher (src/org/tcpdelay/Launcher.java): flag
 * lookup, the required-flag check, the log-level mapping and the parsing of
 * ports and delay. Exits become result values; Integer.parseInt is a
 * parameter that fails (NumberFormatException) by returning None.
 */
module Launcher {
  import opened Optional

  const HelpArg := "-help"
  const LogLevelArg := "-logLevel"
  const DelayArg := "-delayMs"
  const RemotePortArg := "-remotePort"
  const RemoteHostArg := "-remoteHost"
  const LocalPortArg := "-localPort"

  /** java.util.logging levels the launcher can select. */
  datatype Level = Fine | Info | Severe

  /** What reaches the TCPDataReader constructor. */
  datatype Config = Config(logLevel: Level, localPort: int, remoteHost: Option<string>, remotePort: int, delayMs: int)

  /** The three ways main ends: the usage message, an error message, or running the relay. */
  datatype LaunchResult = UsageExit | ErrorExit(message: string) | Start(config: Config)

  function ToLowerAscii(c: char): char {
    if 'A' <= c <= 'Z' then (c as int + 32) as char else c
  }

  /** String.equalsIgnoreCase, with ASCII case folding. */
  predicate EqualsIgnoreCase(a: string, b: string) {
    |a| == |b| && forall i | 0 <= i < |a| :: ToLowerAscii(a[i]) == ToLowerAscii(b[i])
  }

  /** Some argument equals arg ignoring case. */
  function HasArg(args: seq<string>, arg: string): (r: bool)
    ensures r <==> exists i :: 0 <= i < |args| && EqualsIgnoreCase(arg, args[i])
  {
    if |args| == 0 then false
    else if EqualsIgnoreCase(arg, args[0]) then true
    else HasArg(args[1..], arg)
  }

  /** args[i] equals arg ignoring case and has a value after it. */
  predicate UsableMatch(args: seq<string>, arg: string, i: int) {
    0 <= i && i + 1 < |args| && EqualsIgnoreCase(arg, args[i])
  }

  /** The scan of getArgData from index i on. */
  function GetArgDataFrom(args: seq<string>, arg: string, i: nat): (r: Option<string>)
    requires i <= |args|
    ensures r.None? <==> forall j | i <= j :: !UsableMatch(args, arg, j)
    ensures r.Some? ==> exists j :: i <= j && UsableMatch(args, arg, j) && r.value == args[j + 1]
                          && forall k | i <= k < j :: !UsableMatch(args, arg, k)
    decreases |args| - i
  {
    if i == |args| then None
    else if EqualsIgnoreCase(arg, args[i]) && |args| > i + 1 then
      assert UsableMatch(args, arg, i);
      Some(args[i + 1])
    else
      assert !UsableMatch(args, arg, i);
      GetArgDataFrom(args, arg, i + 1)
  }

  /** The value after the first match that has one, or null. */
  function GetArgData(args: seq<string>, arg: string): (r: Option<string>)
    ensures r.None? <==> forall j :: !UsableMatch(args, arg, j)
    ensures r.Some? ==> exists j :: UsableMatch(args, arg, j) && r.value == args[j + 1]
                          && forall k | 0 <= k < j :: !UsableMatch(args, arg, k)
  {
    GetArgDataFrom(args, arg, 0)
  }

  /** A flag that yields a value is present. */
  lemma ArgDataImpliesHasArg(args: seq<string>, arg: string)
    ensures GetArgData(args, arg).Some? ==> HasArg(args, arg)
  {
  }

  /** A flag in the last position only is present but yields no value. */
  lemma TrailingFlagHasNoData(args: seq<string>, arg: string)
    requires |args| > 0 && EqualsIgnoreCase(arg, args[|args| - 1])
    requires forall j | 0 <= j < |args| - 1 :: !EqualsIgnoreCase(arg, args[j])
    ensures HasArg(args, arg) && GetArgData(args, arg) == None
  {
  }

  /** Integer.parseInt on a possibly null string: null throws. */
  function ParseArg(parseInt: string -> Option<int>, s: Option<string>): (r: Option<int>)
    ensures s.None? ==> r.None?
    ensures s.Some? ==> r == parseInt(s.value)
  {
    if s.None? then None else parseInt(s.value)
  }

  /** String concatenation renders null as "null". */
  function Show(s: Option<string>): string {
    if s.None? then "null" else s.value
  }

  /** No value names two levels. */
  lemma LevelNamesDistinct(v: string)
    ensures !(EqualsIgnoreCase("DEBUG", v) && EqualsIgnoreCase("INFO", v))
    ensures !(EqualsIgnoreCase("DEBUG", v) && EqualsIgnoreCase("ERROR", v))
    ensures !(EqualsIgnoreCase("INFO", v) && EqualsIgnoreCase("ERROR", v))
  {
    if |v| > 0 {
      // DEBUG and ERROR have the same length; they differ at their first letter.
      assert ToLowerAscii(v[0]) != 'd' || ToLowerAscii(v[0]) != 'e';
    }
  }

  /** The log level named by the -logLevel value, or None when it names none. */
  function LevelNamed(v: Option<string>): (r: Option<Level>)
    ensures r == Some(Fine) <==> v.Some? && EqualsIgnoreCase("DEBUG", v.value)
    ensures r == Some(Info) <==> v.Some? && EqualsIgnoreCase("INFO", v.value)
    ensures r == Some(Severe) <==> v.Some? && EqualsIgnoreCase("ERROR", v.value)
    ensures r.None? <==> v.None? || !(EqualsIgnoreCase("DEBUG", v.value) || EqualsIgnoreCase("INFO", v.value)
                                       || EqualsIgnoreCase("ERROR", v.value))
  {
    if v.None? then None
    else
    LevelNamesDistinct(v.value);
    if EqualsIgnoreCase("DEBUG", v.value) then Some(Fine)
    else if EqualsIgnoreCase("INFO", v.value) then Some(Info)
    else if EqualsIgnoreCase("ERROR", v.value) then Some(Severe)
    else None
  }

  /** The usage message is shown: -help is given or a required flag is missing. */
  predicate NeedsUsage(args: seq<string>) {
    HasArg(args, HelpArg) || !HasArg(args, LocalPortArg) || !HasArg(args, RemoteHostArg)
    || !HasArg(args, RemotePortArg)
  }

  /** The -logLevel flag is absent or names a level. */
  predicate LogLevelAccepted(args: seq<string>) {
    !HasArg(args, LogLevelArg) || LevelNamed(GetArgData(args, LogLevelArg)).Some?
  }

  /** main up to the construction of the reader. */
  method Launch(args: seq<string>, parseInt: string -> Option<int>) returns (r: LaunchResult)
    ensures r.UsageExit? <==> NeedsUsage(args)
    ensures r.Start? <==>
              && !NeedsUsage(args) && LogLevelAccepted(args)
              && ParseArg(parseInt, GetArgData(args, LocalPortArg)).Some?
              && ParseArg(parseInt, GetArgData(args, RemotePortArg)).Some?
              && (HasArg(args, DelayArg) ==> ParseArg(parseInt, GetArgData(args, DelayArg)).Some?)
    ensures !NeedsUsage(args) && LogLevelAccepted(args) && GetArgData(args, LocalPortArg).None? ==>
              r == ErrorExit("Invalid local port: null")
    ensures !NeedsUsage(args) && LogLevelAccepted(args)
              && ParseArg(parseInt, GetArgData(args, LocalPortArg)).Some?
              && GetArgData(args, RemotePortArg).None? ==>
              r == ErrorExit("Invalid remote port: null")
    ensures !NeedsUsage(args) && LogLevelAccepted(args)
              && ParseArg(parseInt, GetArgData(args, LocalPortArg)).Some?
              && ParseArg(parseInt, GetArgData(args, RemotePortArg)).Some?
              && HasArg(args, DelayArg) && GetArgData(args, DelayArg).None? ==>
              r == ErrorExit("Invalid delay: null")
    ensures !NeedsUsage(args) && !LogLevelAccepted(args) ==>
              r == ErrorExit("Invalid log level: " + Show(GetArgData(args, LogLevelArg)))
    ensures !NeedsUsage(args) && LogLevelAccepted(args)
              && ParseArg(parseInt, GetArgData(args, LocalPortArg)).None? ==>
              r == ErrorExit("Invalid local port: " + Show(GetArgData(args, LocalPortArg)))
    ensures !NeedsUsage(args) && LogLevelAccepted(args)
              && ParseArg(parseInt, GetArgData(args, LocalPortArg)).Some?
              && ParseArg(parseInt, GetArgData(args, RemotePortArg)).None? ==>
              r == ErrorExit("Invalid remote port: " + Show(GetArgData(args, RemotePortArg)))
    ensures !NeedsUsage(args) && LogLevelAccepted(args)
              && ParseArg(parseInt, GetArgData(args, LocalPortArg)).Some?
              && ParseArg(parseInt, GetArgData(args, RemotePortArg)).Some?
              && HasArg(args, DelayArg) && ParseArg(parseInt, GetArgData(args, DelayArg)).None? ==>
              r == ErrorExit("Invalid delay: " + Show(GetArgData(args, DelayArg)))
    ensures r.Start? ==>
              && LogLevelAccepted(args)
              && r.config.logLevel == (if HasArg(args, LogLevelArg) then LevelNamed(GetArgData(args, LogLevelArg)).value else Info)
              && ParseArg(parseInt, GetArgData(args, LocalPortArg)) == Some(r.config.localPort)
              && r.config.remoteHost == GetArgData(args, RemoteHostArg)
              && ParseArg(parseInt, GetArgData(args, RemotePortArg)) == Some(r.config.remotePort)
              && (if HasArg(args, DelayArg) then ParseArg(parseInt, GetArgData(args, DelayArg)) == Some(r.config.delayMs)
                  else r.config.delayMs == 0)
  {
    if HasArg(args, HelpArg) || !HasArg(args, LocalPortArg) || !HasArg(args, RemoteHostArg)
       || !HasArg(args, RemotePortArg) {
      return UsageExit;
    }
    var logLevel := Info;
    if HasArg(args, LogLevelArg) {
      var named := LevelNamed(GetArgData(args, LogLevelArg));
      if named.None? {
        return ErrorExit("Invalid log level: " + Show(GetArgData(args, LogLevelArg)));
      }
      logLevel := named.value;
    }
    var localPort := 0;
    var parsedLocal := ParseArg(parseInt, GetArgData(args, LocalPortArg));
    if parsedLocal.None? {
      return ErrorExit("Invalid local port: " + Show(GetArgData(args, LocalPortArg)));
    }
    localPort := parsedLocal.value;
    var remoteHost := GetArgData(args, RemoteHostArg);
    var remotePort := 0;
    var parsedRemote := ParseArg(parseInt, GetArgData(args, RemotePortArg));
    if parsedRemote.None? {
      return ErrorExit("Invalid remote port: " + Show(GetArgData(args, RemotePortArg)));
    }
    remotePort := parsedRemote.value;
    var delayMs := 0;
    if HasArg(args, DelayArg) {
      var parsedDelay := ParseArg(parseInt, GetArgData(args, DelayArg));
      if parsedDelay.None? {
        return ErrorExit("Invalid delay: " + Show(GetArgData(args, DelayArg)));
      }
      delayMs := parsedDelay.value;
    }
    return Start(Config(logLevel, localPort, remoteHost, remotePort, delayMs));
  }
}
