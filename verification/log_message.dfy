/**
 * Log records and their one-line text layout.  The timestamp is an opaque
 * time point; its calendar rendering (local time, `%Y-%m-%d %H:%M:%S`) is
 * supplied by the caller as a ready-made string.
 */
module LogMessages {
  import opened Wrappers

  datatype LogType = Info | Warning | Error

  /** One log record; fields are never changed after construction. */
  datatype LogMessage = LogMessage(
    appName: string,
    context: string,
    timestamp: int,
    severity: LogType,
    message: string)

  /** Width of the left-justified severity field. */
  const SeverityWidth: nat := 7

  /** Builds a record from its parts, in the order the constructor takes them. */
  function NewLogMessage(appName: string, context: string, severity: LogType, timestamp: int, message: string): (m: LogMessage)
    ensures m.appName == appName && m.context == context && m.severity == severity
    ensures m.timestamp == timestamp && m.message == message
  {
    LogMessage(appName, context, timestamp, severity, message)
  }

  function LogTypeToString(t: LogType): (name: string)
    ensures t == Info <==> name == "INFO"
    ensures t == Warning <==> name == "WARNING"
    ensures t == Error <==> name == "ERROR"
    ensures name != "UNKNOWN"
    ensures 0 < |name| <= SeverityWidth && name[|name| - 1] != ' '
  {
    match t
    case Info => "INFO"
    case Warning => "WARNING"
    case Error => "ERROR"
  }

  /** Distinct severities get distinct names. */
  lemma LogTypeToStringInjective(a: LogType, b: LogType)
    requires LogTypeToString(a) == LogTypeToString(b)
    ensures a == b
  {
  }

  function Spaces(n: nat): (r: string)
    ensures |r| == n && forall i :: 0 <= i < n ==> r[i] == ' '
  {
    if n == 0 then "" else Spaces(n - 1) + " "
  }

  /** `s` left-justified in a field of width `w`: space-padded, never truncated. */
  function PadRight(s: string, w: nat): (r: string)
    ensures |r| == if |s| < w then w else |s|
    ensures r[..|s|] == s
    ensures forall i :: |s| <= i < |r| ==> r[i] == ' '
  {
    if |s| < w then s + Spaces(w - |s|) else s
  }

  /** Removes every space at the end of `s`. */
  function TrimTrailingSpaces(s: string): (r: string)
    ensures |r| <= |s| && r == s[..|r|]
    ensures r == [] || r[|r| - 1] != ' '
    ensures forall i :: |r| <= i < |s| ==> s[i] == ' '
  {
    if s != [] && s[|s| - 1] == ' ' then TrimTrailingSpaces(s[..|s| - 1]) else s
  }

  /** Trimming the padding gives back any string that does not itself end in a space. */
  lemma {:induction false} TrimPadRight(s: string, w: nat)
    requires s == [] || s[|s| - 1] != ' '
    ensures TrimTrailingSpaces(PadRight(s, w)) == s
  {
    if |s| < w {
      var p := PadRight(s, w);
      var q := PadRight(s, w - 1);
      assert p[..|p| - 1] == q;
      TrimPadRight(s, w - 1);
    }
  }

  /** The severity as it appears between the brackets. */
  function SeverityField(t: LogType): (f: string)
    ensures |f| == SeverityWidth
    ensures TrimTrailingSpaces(f) == LogTypeToString(t)
  {
    TrimPadRight(LogTypeToString(t), SeverityWidth);
    PadRight(LogTypeToString(t), SeverityWidth)
  }

  /** Everything the text form of a record holds after the timestamp. */
  function Suffix(m: LogMessage): (r: string)
    ensures |r| == 16 + |m.appName| + |m.context| + |m.message|
    ensures r[..2] == " [" && r[2..9] == SeverityField(m.severity) && r[9..12] == "] ["
    ensures r[12..12 + |m.appName|] == m.appName
    ensures r[12 + |m.appName|..14 + |m.appName|] == "::"
    ensures r[14 + |m.appName|..14 + |m.appName| + |m.context|] == m.context
    ensures r[14 + |m.appName| + |m.context|..16 + |m.appName| + |m.context|] == "] "
    ensures r[|r| - |m.message|..] == m.message
  {
    " [" + SeverityField(m.severity) + "] [" + m.appName + "::" + m.context + "] " + m.message
  }

  /** The whole text form of a record, given its rendered timestamp. */
  function Render(stamp: string, m: LogMessage): (r: string)
    ensures |r| == |stamp| + |Suffix(m)|
    ensures r[..|stamp|] == stamp && r[|stamp|..] == Suffix(m)
  {
    stamp + Suffix(m)
  }

  /** Reads a severity back from its bracketed field. */
  function ParseSeverity(field: string): (t: Option<LogType>)
    ensures t.Some? ==> TrimTrailingSpaces(field) == LogTypeToString(t.value)
  {
    var name := TrimTrailingSpaces(field);
    if name == "INFO" then Some(Info)
    else if name == "WARNING" then Some(Warning)
    else if name == "ERROR" then Some(Error)
    else None
  }

  /** The severity of a rendered record can be read back from its fixed-width field. */
  lemma SeverityRoundTrip(stamp: string, m: LogMessage)
    ensures ParseSeverity(Render(stamp, m)[|stamp| + 2..|stamp| + 2 + SeverityWidth]) == Some(m.severity)
  {
    var r := Render(stamp, m);
    assert r[|stamp| + 2..|stamp| + 2 + SeverityWidth] == Suffix(m)[2..9];
  }

  /** The rendering adds no line terminator of its own. */
  lemma NoTrailingNewline(stamp: string, m: LogMessage)
    requires m.message == [] || m.message[|m.message| - 1] != '\n'
    ensures Render(stamp, m)[|Render(stamp, m)| - 1] != '\n'
  {
    var r := Render(stamp, m);
    var s := Suffix(m);
    assert r[|r| - 1] == s[|s| - 1];
    if m.message != [] {
      assert s[|s| - 1] == s[|s| - |m.message|..][|m.message| - 1];
    } else {
      assert s[|s| - 2..] == "] ";
    }
  }
}
