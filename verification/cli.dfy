/**
 The command line of the stdout host: `-r`, `-b`, `-c`, `-l` with a value,
 `-h`, and a trailing script file. `args` is `argv` without the program name.
 */
module Cli {
  import opened Wrappers
  import opened Text
  import opened Numeric

  /** The audio and logging parameters the command line sets. */
  datatype Config = Config(sampleRate: int, bufferSize: int, numChannels: int, logLevel: int)

  /** The values in force before any option is read. */
  const Defaults: Config := Config(48000, 256, 2, 0)

  /** The log levels the host accepts; 0 is silent. */
  predicate ValidLogLevel(level: int) {
    0 <= level <= 7
  }

  /** What `parse_args` returns along with the configuration it set. */
  datatype Parsed = Parsed(config: Config, code: int)

  /**
   `arg[0] == '-'`. An empty argument has the terminating NUL at index 0,
   so it is never an option.
   */
  function IsOption(arg: string): (r: bool)
    ensures r <==> exists rest :: arg == "-" + rest
  {
    assert |arg| > 0 ==> arg == [arg[0]] + arg[1..];
    |arg| > 0 && arg[0] == '-'
  }

  /**
   The options that consume the argument after them, when there is one:
   a dash and one of four letters, nothing more.
   */
  function TakesValue(arg: string): (r: bool)
    ensures r <==> |arg| == 2 && IsOption(arg) && arg[1] in "rbcl"
    ensures r ==> arg != "-h"
  {
    arg == "-r" || arg == "-b" || arg == "-c" || arg == "-l"
  }

  /** The configuration after option `flag` with argument `value`. */
  function SetOption(cfg: Config, flag: string, value: string): (c: Config)
    requires TakesValue(flag)
    ensures c.sampleRate == if flag == "-r" then Atoi(value) else cfg.sampleRate
    ensures c.bufferSize == if flag == "-b" then Atoi(value) else cfg.bufferSize
    ensures c.numChannels == if flag == "-c" then Atoi(value) else cfg.numChannels
    ensures flag == "-l" ==>
      ValidLogLevel(c.logLevel) && (c.logLevel == Atoi(value) <==> ValidLogLevel(Atoi(value)))
    ensures flag == "-l" && !ValidLogLevel(Atoi(value)) ==> c.logLevel == 0
    ensures flag != "-l" ==> c.logLevel == cfg.logLevel
  {
    var v := Atoi(value);
    if flag == "-r" then cfg.(sampleRate := v)
    else if flag == "-b" then cfg.(bufferSize := v)
    else if flag == "-c" then cfg.(numChannels := v)
    else cfg.(logLevel := if ValidLogLevel(v) then v else 0)
  }

  /**
   The option loop from a given configuration: `-h` stops with 0, a value
   option consumes the next argument, any other option stops with -1, and
   any other argument is skipped; reaching the end gives 1.
   */
  function ParseFrom(args: seq<string>, cfg: Config): (p: Parsed)
    ensures p.code == 0 || p.code == 1 || p.code == -1
    ensures ValidLogLevel(cfg.logLevel) ==> ValidLogLevel(p.config.logLevel)
    ensures p.code == 0 ==> "-h" in args
    ensures p.code == -1 ==> exists i :: 0 <= i < |args| && IsOption(args[i]) && args[i] != "-h"
    ensures (forall i :: 0 <= i < |args| ==> !IsOption(args[i])) ==> p == Parsed(cfg, 1)
    decreases |args|
  {
    if |args| == 0 then Parsed(cfg, 1)
    else
      var arg := args[0];
      if arg == "-h" then Parsed(cfg, 0)
      else if TakesValue(arg) && |args| >= 2 then
        var p := ParseFrom(args[2..], SetOption(cfg, arg, args[1]));
        assert p.code == -1 ==> exists i :: 0 <= i < |args| && IsOption(args[i]) && args[i] != "-h" by {
          if p.code == -1 {
            var i :| 0 <= i < |args[2..]| && IsOption(args[2..][i]) && args[2..][i] != "-h";
            assert args[i + 2] == args[2..][i];
          }
        }
        p
      else if IsOption(arg) then Parsed(cfg, -1)
      else
        var p := ParseFrom(args[1..], cfg);
        assert p.code == -1 ==> exists i :: 0 <= i < |args| && IsOption(args[i]) && args[i] != "-h" by {
          if p.code == -1 {
            var i :| 0 <= i < |args[1..]| && IsOption(args[1..][i]) && args[1..][i] != "-h";
            assert args[i + 1] == args[1..][i];
          }
        }
        p
  }

  /** `parse_args`: the option loop from the defaults. */
  function ParseArgs(args: seq<string>): (p: Parsed)
    ensures ValidLogLevel(p.config.logLevel)
  {
    ParseFrom(args, Defaults)
  }

  /** The script suffix. */
  const ScriptSuffix: string := ".ck"

  /** The last argument names a script: longer than three characters and ending in `.ck`. */
  function HasScript(args: seq<string>): (r: bool)
    ensures r <==> |args| > 0 && exists stem :: |stem| > 0 && args[|args| - 1] == stem + ScriptSuffix
  {
    var last := if |args| > 0 then args[|args| - 1] else "";
    var r := |last| > 3 && EndsWith(last, ScriptSuffix);
    assert r ==> last == last[..|last| - 3] + ScriptSuffix;
    assert (|args| > 0 && exists stem :: |stem| > 0 && last == stem + ScriptSuffix) ==> r by {
      if |args| > 0 && exists stem :: |stem| > 0 && last == stem + ScriptSuffix {
        var stem :| |stem| > 0 && last == stem + ScriptSuffix;
        assert last[|last| - 3..] == ScriptSuffix;
      }
    }
    r
  }

  /** The samples in one block: frames of the buffer size times the channel count. */
  function BlockLength(cfg: Config): int {
    cfg.bufferSize * cfg.numChannels
  }

  /**
   How start-up ends: `main` returns a value (`returned`, before the
   operating system reduces it to an exit status), the process terminates
   on an uncaught exception (a negative buffer length makes `new[]` throw),
   or it serves with a configuration and an optional start-up script.
   */
  datatype Launch = Quit(returned: int) | Terminate | Serve(config: Config, script: Option<string>)

  /**
   Start-up up to the main loop: an argument result of 0 or -1 is what
   `main` returns; the sample buffers are allocated; a script that fails to
   compile makes `main` return 1. `scriptCompiles` is the engine's answer
   to compiling the script.
   */
  function Startup(args: seq<string>, scriptCompiles: bool): (l: Launch)
    ensures l.Quit? && l.returned != 1 <==> ParseArgs(args).code != 1
    ensures l.Terminate? <==> ParseArgs(args).code == 1 && BlockLength(ParseArgs(args).config) < 0
    ensures l == Quit(1) <==>
      ParseArgs(args).code == 1 && BlockLength(ParseArgs(args).config) >= 0
      && HasScript(args) && !scriptCompiles
    ensures l.Quit? ==> l.returned == 0 || l.returned == 1 || l.returned == -1
    ensures l.Serve? ==>
      l.config == ParseArgs(args).config && ValidLogLevel(l.config.logLevel)
      && BlockLength(l.config) >= 0
    ensures l.Serve? ==> (l.script.Some? <==> HasScript(args))
    ensures l.Serve? && l.script.Some? ==> l.script.value == args[|args| - 1]
  {
    var p := ParseArgs(args);
    if p.code <= 0 then Quit(p.code)
    else if BlockLength(p.config) < 0 then Terminate
    else if HasScript(args) then
      if scriptCompiles then Serve(p.config, Some(args[|args| - 1])) else Quit(1)
    else Serve(p.config, None)
  }
}
