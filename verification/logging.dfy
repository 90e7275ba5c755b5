/**
 The logging function `chuck_logger` of the host: a level gate and a prefix
 table. The host defines it but never registers it with the engine (`main`
 only sets the engine log level and the chout/cherr callbacks), so the model
 states what the function would do if it were called.
 */
module Logging {
  import opened Numeric
  import opened Cli

  /** The prefix printed for each message level, indexed by level. */
  const Prefixes: seq<string> := [
    " ", "LEVEL 1: ", "LEVEL 2: ", "LEVEL 3: ",
    "LEVEL 4: ", "LEVEL 5: ", "LEVEL 6: ", "LEVEL 7: "
  ]

  /**
   What the callback does with one message: nothing, print a line, or index
   the prefix table outside its eight entries (a negative level that passes
   the gate), which has no defined behaviour.
   */
  datatype LogAction = Silent | Emit(line: string) | PrefixOutOfRange

  /** The tag of a level, spelled out: a blank for 0, `LEVEL n: ` otherwise. */
  function LevelTag(level: nat): string
    requires level <= 7
  {
    if level == 0 then " " else "LEVEL " + [DigitChar(level)] + ": "
  }

  /**
   `chuck_logger`: silent when the host's level is 0 or below the message's
   level; otherwise the message with its level's prefix.
   */
  function ChuckLogger(logLevel: int, level: int, message: string): (a: LogAction)
    requires ValidLogLevel(logLevel)
    ensures a.Emit? <==> logLevel != 0 && 0 <= level <= logLevel
    ensures a.PrefixOutOfRange? <==> logLevel != 0 && level < 0
    ensures a.Emit? ==> a.line == "[ChucK] " + LevelTag(level) + message
  {
    if logLevel == 0 then Silent
    else if logLevel < level then Silent
    else if level < 0 then PrefixOutOfRange
    else
      assert Prefixes[level] == LevelTag(level);
      Emit("[ChucK] " + Prefixes[level] + message)
  }

  /** Level 0 silences every message. */
  lemma SilentAtZero(level: int, message: string)
    ensures ChuckLogger(0, level, message) == Silent
  {
  }

  /** Raising the host's level never silences a message that was printed. */
  lemma GateIsMonotone(low: int, high: int, level: int, message: string)
    requires ValidLogLevel(low) && ValidLogLevel(high) && low <= high
    requires ChuckLogger(low, level, message).Emit?
    ensures ChuckLogger(high, level, message) == ChuckLogger(low, level, message)
  {
  }
}
