/** Properties of the option loop and of start-up. */
module CliLemmas {
  import opened Wrappers
  import opened Numeric
  import opened Cli

  /**
   Arguments that parse to 1 were scanned to their very end, so what follows
   them is parsed from the configuration they left.
   */
  lemma {:induction false} ParseCompose(a: seq<string>, b: seq<string>, cfg: Config)
    requires ParseFrom(a, cfg).code == 1
    ensures ParseFrom(a + b, cfg) == ParseFrom(b, ParseFrom(a, cfg).config)
    decreases |a|
  {
    if |a| > 0 {
      var arg := a[0];
      assert (a + b)[0] == arg && arg != "-h";
      if TakesValue(arg) && |a| >= 2 {
        assert (a + b)[2..] == a[2..] + b;
        assert (a + b)[1] == a[1];
        ParseCompose(a[2..], b, SetOption(cfg, arg, a[1]));
      } else {
        assert !IsOption(arg) && !TakesValue(arg);
        assert (a + b)[1..] == a[1..] + b;
        ParseCompose(a[1..], b, cfg);
      }
    } else {
      assert a + b == b;
    }
  }

  /** `-h` returns 0 at once: nothing after it is looked at. */
  lemma HelpStopsParsing(a: seq<string>, rest: seq<string>, cfg: Config)
    requires ParseFrom(a, cfg).code == 1
    ensures ParseFrom(a + ["-h"] + rest, cfg) == Parsed(ParseFrom(a, cfg).config, 0)
  {
    ParseCompose(a, ["-h"] + rest, cfg);
    assert a + ["-h"] + rest == a + (["-h"] + rest);
  }

  /** Any other option that is not a value option returns -1 at once. */
  lemma UnknownOptionStops(a: seq<string>, opt: string, rest: seq<string>, cfg: Config)
    requires ParseFrom(a, cfg).code == 1
    requires IsOption(opt) && opt != "-h" && !TakesValue(opt)
    ensures ParseFrom(a + [opt] + rest, cfg) == Parsed(ParseFrom(a, cfg).config, -1)
  {
    ParseCompose(a, [opt] + rest, cfg);
    assert a + [opt] + rest == a + ([opt] + rest);
  }

  /** A value option in last position has nothing to consume and returns -1. */
  lemma DanglingValueOption(a: seq<string>, flag: string, cfg: Config)
    requires ParseFrom(a, cfg).code == 1
    requires TakesValue(flag)
    ensures ParseFrom(a + [flag], cfg) == Parsed(ParseFrom(a, cfg).config, -1)
  {
    ParseCompose(a, [flag], cfg);
  }

  /** A value option consumes the next argument even when it looks like an option. */
  lemma ValueIsConsumed(flag: string, value: string, rest: seq<string>, cfg: Config)
    requires TakesValue(flag)
    ensures ParseFrom([flag, value] + rest, cfg) == ParseFrom(rest, SetOption(cfg, flag, value))
  {
    assert ([flag, value] + rest)[2..] == rest;
  }

  /** `-r -h` sets the rate to `atoi("-h")`, which is 0, and does not ask for help. */
  lemma RateSwallowsHelp()
    ensures ParseArgs(["-r", "-h"]) == Parsed(Defaults.(sampleRate := 0), 1)
  {
    ValueIsConsumed("-r", "-h", [], Defaults);
    assert ["-r", "-h"] + [] == ["-r", "-h"];
    AtoiWithoutDigits("-h");
  }

  /** `-l n` keeps levels 0 through 7 and turns any other level into 0. */
  lemma LogLevelOption(n: nat)
    ensures ParseArgs(["-l", ToDigits(n, Decimal)]).config.logLevel == if n <= 7 then n else 0
  {
    ValueIsConsumed("-l", ToDigits(n, Decimal), [], Defaults);
    assert ["-l", ToDigits(n, Decimal)] + [] == ["-l", ToDigits(n, Decimal)];
    AtoiOfDigits(n, []);
    assert ToDigits(n, Decimal) + [] == ToDigits(n, Decimal);
  }

  /** A negative `-l` level is also turned into 0. */
  lemma NegativeLogLevel(n: nat)
    requires n > 0
    ensures ParseArgs(["-l", "-" + ToDigits(n, Decimal)]).config.logLevel == 0
  {
    var v := "-" + ToDigits(n, Decimal);
    ValueIsConsumed("-l", v, [], Defaults);
    assert ["-l", v] + [] == ["-l", v];
    AtoiOfDigits(n, []);
    assert "-" + ToDigits(n, Decimal) + [] == v;
  }

  /** Of two settings of one option, the later one wins. */
  lemma LaterOptionWins(flag: string, first: string, second: string, cfg: Config)
    requires TakesValue(flag)
    ensures ParseFrom([flag, first, flag, second], cfg)
      == Parsed(SetOption(SetOption(cfg, flag, first), flag, second), 1)
  {
    assert [flag, first, flag, second][2..] == [flag, second];
    assert [flag, second][2..] == [];
  }

  /** A command line with the script alone serves the default configuration with that script. */
  lemma ScriptOnly(stem: string)
    requires |stem| > 0 && !IsOption(stem)
    ensures Startup([stem + ScriptSuffix], true) == Serve(Defaults, Some(stem + ScriptSuffix))
    ensures Startup([stem + ScriptSuffix], false) == Quit(1)
  {
    var arg := stem + ScriptSuffix;
    assert !IsOption(arg) by {
      assert arg[0] == stem[0];
    }
    assert HasScript([arg]);
  }
}
