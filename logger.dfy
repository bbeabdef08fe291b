/** The leveled message filter `Logger` of main.py. Levels are numbered
    0 = None, 1 = Info, 2 = Warning, 3 = Error; a configured level of 0 turns
    logging off, and otherwise a message is shown when its level is at or
    below the configured one. The console is the append-only `output`. */
module Logging {

  /** The display name of each level, indexed by level number. */
  const Levels: seq<string> := ["None", "Info", "Warning", "Error"]

  /** The level table names the four levels in order, and no two names
      share their first letter. */
  lemma LevelNames()
    ensures |Levels| == 4
    ensures Levels[0] == "None" && Levels[1] == "Info"
    ensures Levels[2] == "Warning" && Levels[3] == "Error"
    ensures forall i, j :: 0 <= i < j < 4 ==> Levels[i][0] != Levels[j][0]
  {
  }

  /** The levels `SetLogLevel` accepts. */
  predicate ValidLevel(level: int)
  {
    0 <= level <= 3
  }

  /** The printed line `"[<level name>] <message>"`. */
  function Format(message: string, level: int): (line: string)
    requires ValidLevel(level)
    ensures |line| == |Levels[level]| + 3 + |message|
    ensures line[1] == Levels[level][0]
    ensures line[|Levels[level]| + 3..] == message
  {
    "[" + Levels[level] + "] " + message
  }

  /** Distinct messages or levels never print the same line: the line names
      its level by the first letter of the level's name, and what follows the
      level name is exactly the message. */
  lemma FormatInjective(m1: string, l1: int, m2: string, l2: int)
    requires ValidLevel(l1) && ValidLevel(l2)
    requires Format(m1, l1) == Format(m2, l2)
    ensures l1 == l2 && m1 == m2
  {
  }

  /** The lines one `Send(message, level)` prints under the configured level
      `logLevel`: none when logging is off, otherwise exactly the formatted
      line when the message level is at or below the configured one. */
  function Emitted(logLevel: int, message: string, level: int): (lines: seq<string>)
    requires ValidLevel(level)
    ensures |lines| <= 1
    ensures lines != [] <==> logLevel != 0 && level <= logLevel
    ensures lines != [] ==> lines[0] == "[" + Levels[level] + "] " + message
  {
    if logLevel == 0 then []
    else if level <= logLevel then [Format(message, level)]
    else []
  }

  /** The filter is a threshold: whatever passes it at `level` passes it at
      every lower level too. */
  lemma LowerLevelsPass(logLevel: int, message: string, level: int, lower: int)
    requires ValidLevel(level) && 0 <= lower <= level
    requires Emitted(logLevel, message, level) != []
    ensures Emitted(logLevel, message, lower) != []
  {
  }

  /** Raising the configured level never hides a message that was shown. */
  lemma RaisingLevelKeepsMessages(logLevel: int, raised: int, message: string, level: int)
    requires ValidLevel(level) && logLevel <= raised
    requires Emitted(logLevel, message, level) != []
    ensures Emitted(raised, message, level) == Emitted(logLevel, message, level)
  {
  }

  /** The warning about a rejected level is shown exactly when the current
      level is Warning or above. */
  lemma InvalidLevelWarning(logLevel: int)
    ensures Emitted(logLevel, "Invalid LogLevel", 2) ==
            if logLevel >= 2 then ["[Warning] Invalid LogLevel"] else []
  {
    assert Levels[2] == "Warning";
    assert Format("Invalid LogLevel", 2) == "[Warning] Invalid LogLevel";
  }

  class Logger {
    /** The configured level. */
    var LogLevel: int
    /** Every line printed so far. */
    var output: seq<string>

    /** The initial level is taken as given, without validation. */
    constructor (LogLevel: int)
      ensures this.LogLevel == LogLevel && output == []
    {
      this.LogLevel := LogLevel;
      output := [];
    }

    /** `Send`: prints the message when the filter lets it through; the level
        is never changed. */
    method Send(Message: string, Level: int)
      requires ValidLevel(Level)
      modifies this`output
      ensures output == old(output) + Emitted(LogLevel, Message, Level)
    {
      if LogLevel == 0 {
        return;
      }
      if Level <= LogLevel {
        output := output + [Format(Message, Level)];
      }
    }

    /** `SetLogLevel`: an accepted level replaces the configured one silently;
        a rejected one changes nothing but sends "Invalid LogLevel" as a
        warning under the unchanged level. */
    method SetLogLevel(LogLevel: int)
      modifies this
      ensures ValidLevel(LogLevel) ==> this.LogLevel == LogLevel && output == old(output)
      ensures !ValidLevel(LogLevel) ==>
        && this.LogLevel == old(this.LogLevel)
        && output == old(output) + Emitted(old(this.LogLevel), "Invalid LogLevel", 2)
      ensures ValidLevel(old(this.LogLevel)) ==> ValidLevel(this.LogLevel)
    {
      if LogLevel < 0 || LogLevel > 3 {
        Send("Invalid LogLevel", 2);
        return;
      }
      this.LogLevel := LogLevel;
    }
  }
}
