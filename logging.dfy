/** What `SpongeCommandManager.log` writes to the plugin's logger. */
module Logging {
  import opened Lines

  /** The framework's two log levels. */
  datatype LogLevel = Info | Error

  /** The fixed prefix of every line the framework logs (`LogLevel.LOG_PREFIX`). */
  const LogPrefix: string := "[ACF] "

  datatype Option<T> = None | Some(value: T)

  /** A throwable, known here only by its full stack trace text. */
  datatype Throwable = Throwable(stackTrace: string)

  /** One line handed to the logger, at the severity it was written with. */
  datatype LogLine = LogLine(level: LogLevel, text: string)

  /** The lines of a stack trace, each prefixed and written at the given severity. */
  function Prefixed(level: LogLevel, lines: seq<string>): (r: seq<LogLine>)
    ensures |r| == |lines|
    ensures forall k :: 0 <= k < |lines| ==> r[k] == LogLine(level, LogPrefix + lines[k])
  {
    if |lines| == 0 then []
    else [LogLine(level, LogPrefix + lines[0])] + Prefixed(level, lines[1..])
  }

  lemma {:induction false} PrefixedSnoc(level: LogLevel, lines: seq<string>, i: nat)
    requires i < |lines|
    ensures Prefixed(level, lines[..i + 1]) == Prefixed(level, lines[..i]) + [LogLine(level, LogPrefix + lines[i])]
  {
    var a, b := Prefixed(level, lines[..i + 1]), Prefixed(level, lines[..i]) + [LogLine(level, LogPrefix + lines[i])];
    assert |a| == |b|;
    forall k | 0 <= k < |a|
      ensures a[k] == b[k]
    {
      assert lines[..i + 1][k] == lines[k];
    }
  }

  /** Everything one call of `log` writes: the prefixed message, then, when a
      throwable is given, one prefixed line per line of its stack trace, in order,
      all at the call's severity. */
  function LogLines(level: LogLevel, message: string, throwable: Option<Throwable>): (r: seq<LogLine>)
    ensures |r| >= 1 && r[0] == LogLine(level, LogPrefix + message)
    ensures forall k :: 0 <= k < |r| ==> r[k].level == level
    ensures throwable.None? ==> |r| == 1
    ensures throwable.Some? ==> var lines := Split(throwable.value.stackTrace);
      |r| == 1 + |lines| &&
      forall k :: 0 <= k < |lines| ==> r[k + 1].text == LogPrefix + lines[k]
  {
    [LogLine(level, LogPrefix + message)] +
    match throwable
    case None => []
    case Some(t) => Prefixed(level, Split(t.stackTrace))
  }

  /** A logged text without the framework's prefix. */
  function Unprefixed(text: string): string
  {
    if LogPrefix <= text then text[|LogPrefix|..] else text
  }

  /** The texts of the lines after the message, without their prefix. */
  function TraceLines(r: seq<LogLine>): seq<string>
  {
    if |r| == 0 then [] else seq(|r| - 1, k requires 0 <= k < |r| - 1 => Unprefixed(r[k + 1].text))
  }

  /** Removing the prefix from a prefixed text gives the text back. */
  lemma UnprefixedPrefixed(x: string)
    ensures Unprefixed(LogPrefix + x) == x
  {
    assert LogPrefix <= LogPrefix + x;
  }

  lemma TraceLinesOfLog(level: LogLevel, message: string, t: Throwable)
    ensures TraceLines(LogLines(level, message, Some(t))) == Split(t.stackTrace)
  {
    var r := LogLines(level, message, Some(t));
    var split := Split(t.stackTrace);
    forall k | 0 <= k < |split|
      ensures Unprefixed(r[k + 1].text) == split[k]
    {
      UnprefixedPrefixed(split[k]);
    }
  }

  /** Every line after the message is the prefix followed by a single line of the
      trace, and those lines, joined with newlines, give back the trace but for
      newlines at its end. */
  lemma {:induction false} LogLinesRecoverTrace(level: LogLevel, message: string, t: Throwable)
    ensures var lines := TraceLines(LogLines(level, message, Some(t)));
      && (forall k :: 0 <= k < |lines| ==> NoNewline(lines[k]))
      && var j := Join(lines);
         |j| <= |t.stackTrace| && j == t.stackTrace[..|j|] && AllNewlines(t.stackTrace[|j|..])
  {
    TraceLinesOfLog(level, message, t);
    SplitRecoversInput(t.stackTrace);
  }

}
