/**
 * The line parser: one text line of the form
 *   YYYY-MM-DD HH:MM:SS LEVEL message
 * becomes a log entry, or nothing at all when the line does not have that
 * shape or its timestamp is not a real calendar date and time.
 */
module LogParser {
  import opened Wrappers
  import opened Timestamps

  /** The closed set of severity levels the pattern accepts. */
  datatype Level = Info | Warning | Error | Debug

  /** The token that stands for a level in a log line (and the key Python uses). */
  function LevelName(l: Level): string {
    match l
    case Info => "INFO"
    case Warning => "WARNING"
    case Error => "ERROR"
    case Debug => "DEBUG"
  }

  /** One parsed record: the `(timestamp, log_level, message)` triple. */
  datatype LogEntry = LogEntry(timestamp: DateTime, level: Level, message: string)

  /** What every entry the parser produces satisfies: no partial records. */
  predicate WellFormed(e: LogEntry) {
    ValidDateTime(e.timestamp) && e.message != [] && '\n' !in e.message
  }

  // ---------------------------------------------------------------------------
  // The regular expression
  //   (\d{4}-\d{2}-\d{2} \d{2}:\d{2}:\d{2}) (INFO|WARNING|ERROR|DEBUG) (.+)
  // applied with `re.match`, i.e. anchored at the start of the line only.

  /** `.*` from the start of `s`: the longest prefix free of line feeds (`.` does not match '\n'). */
  function TakeLine(s: string): (r: string)
    ensures r <= s && '\n' !in r
    ensures |r| == |s| || s[|r|] == '\n'
  {
    if s == [] || s[0] == '\n' then [] else [s[0]] + TakeLine(s[1..])
  }

  /**
   * The alternation `(INFO|WARNING|ERROR|DEBUG)`, tried in order. The four
   * tokens start with different letters, so at most one of them can match and
   * backtracking into the alternation never finds another.
   */
  function LevelToken(s: string): (r: Option<Level>)
    ensures r.Some? ==> LevelName(r.value) <= s
    ensures r.None? ==> forall l: Level :: !(LevelName(l) <= s)
  {
    if LevelName(Info) <= s then Some(Info)
    else if LevelName(Warning) <= s then Some(Warning)
    else if LevelName(Error) <= s then Some(Error)
    else if LevelName(Debug) <= s then Some(Debug)
    else None
  }

  /** The three groups of a successful match. */
  datatype LogMatch = LogMatch(stamp: string, level: Level, message: string)

  /** `re.match(pattern, line)` with its groups. */
  function MatchLogPattern(line: string): (r: Option<LogMatch>)
    ensures r.Some? ==> |line| >= 20 && StampShape(r.value.stamp) && r.value.stamp == line[..19]
    ensures r.Some? ==> r.value.message != [] && '\n' !in r.value.message
  {
    if |line| < 20 || !StampShape(line[..19]) || line[19] != ' ' then None
    else
      match LevelToken(line[20..])
      case None => None
      case Some(level) =>
        var k := 20 + |LevelName(level)|;
        if k < |line| && line[k] == ' ' then
          var message := TakeLine(line[k + 1..]);
          if message == [] then None else Some(LogMatch(line[..19], level, message))
        else None
  }

  /**
   * `parse_log_line`: match the pattern, then read the timestamp with
   * `strptime`; any failure of either step gives `None`.
   */
  function ParseLogLine(line: string): (r: Option<LogEntry>)
    ensures r.Some? ==> WellFormed(r.value)
  {
    match MatchLogPattern(line)
    case None => None
    case Some(m) =>
      match ParseTimestamp(m.stamp)
      case None => None
      case Some(timestamp) => Some(LogEntry(timestamp, m.level, m.message))
  }

  /** The output line `f"{ts} {level} {msg}"`. */
  function FormatEntry(e: LogEntry): (s: string)
    requires ValidDateTime(e.timestamp)
    ensures |s| == 21 + |LevelName(e.level)| + |e.message|
  {
    FormatTimestamp(e.timestamp) + " " + LevelName(e.level) + " " + e.message
  }

  // ---------------------------------------------------------------------------
  // The shape of an accepted line, stated without the matcher

  /** After the stamp and its space, `line` holds level token `l`, a space and a message character. */
  predicate LevelAt(line: string, l: Level) {
    var k := 20 + |LevelName(l)|;
    && k + 1 < |line|
    && line[20..k] == LevelName(l)
    && line[k] == ' '
    && line[k + 1] != '\n'
  }

  /** The line begins `dddd-dd-dd dd:dd:dd LEVEL x` for one of the four levels. */
  predicate HasLogShape(line: string) {
    && |line| >= 20
    && StampShape(line[..19])
    && line[19] == ' '
    && exists l: Level :: LevelAt(line, l)
  }

  /** Two level tokens cannot both sit at the same place of a line. */
  lemma LevelAtUnique(line: string, l: Level, l': Level)
    requires LevelAt(line, l) && LevelAt(line, l')
    ensures l == l'
  {
    var k, k' := 20 + |LevelName(l)|, 20 + |LevelName(l')|;
    assert line[20] == LevelName(l)[0] == LevelName(l')[0];
  }

  /** The matcher accepts exactly the lines of the pattern's shape, and reports the token found there. */
  lemma MatchLogPatternShape(line: string)
    ensures MatchLogPattern(line).Some? <==> HasLogShape(line)
    ensures MatchLogPattern(line).Some? ==> LevelAt(line, MatchLogPattern(line).value.level)
  {
    if |line| >= 20 && StampShape(line[..19]) && line[19] == ' ' {
      var rest := line[20..];
      forall l: Level | LevelAt(line, l)
        ensures LevelToken(rest) == Some(l)
      {
        assert line[20..20 + |LevelName(l)|] == rest[..|LevelName(l)|];
        assert LevelName(l) <= rest;
        var l' := LevelToken(rest).value;
        assert rest[0] == LevelName(l')[0] == LevelName(l)[0];
      }
      match LevelToken(rest)
      case None =>
      case Some(level) =>
        var k := 20 + |LevelName(level)|;
        assert line[20..k] == rest[..|LevelName(level)|];
        if k < |line| && line[k] == ' ' {
          var tail := line[k + 1..];
          if tail != [] && tail[0] != '\n' {
            assert TakeLine(tail) != [];
            assert LevelAt(line, level);
          }
        }
    }
  }

  /**
   * `parse_log_line` returns a record exactly when the line has the pattern's
   * shape and its first 19 characters are a valid calendar date and time; a
   * well-shaped line with an impossible date or time gives `None`.
   */
  lemma ParseLogLineAccepts(line: string)
    ensures ParseLogLine(line).Some? <==> HasLogShape(line) && ValidDateTime(ReadStamp(line[..19]))
  {
    MatchLogPatternShape(line);
  }

  /**
   * On success the level is the token found after the stamp and the message
   * is the rest of the line after the level's space, up to any line feed.
   */
  lemma ParseLogLineFields(line: string)
    requires ParseLogLine(line).Some?
    ensures var e := ParseLogLine(line).value;
      var k := 21 + |LevelName(e.level)|;
      && LevelAt(line, e.level)
      && e.timestamp == ReadStamp(line[..19])
      && e.message == TakeLine(line[k..])
      && ('\n' !in line ==> e.message == line[k..])
  {
    MatchLogPatternShape(line);
    var e := ParseLogLine(line).value;
    var k := 21 + |LevelName(e.level)|;
    if '\n' !in line {
      NoLineFeedTakesAll(line[k..]);
    }
  }

  lemma {:induction false} NoLineFeedTakesAll(s: string)
    requires '\n' !in s
    ensures TakeLine(s) == s
  {
    if s != [] {
      NoLineFeedTakesAll(s[1..]);
    }
  }

  // ---------------------------------------------------------------------------
  // Round trips through the output format

  /**
   * Writing an accepted entry out as `f"{ts} {level} {msg}"` reproduces the
   * line it came from, except for whatever followed a line feed; so a line
   * without line feeds is reproduced exactly.
   */
  lemma ParseThenFormat(line: string)
    requires ParseLogLine(line).Some?
    ensures var e := ParseLogLine(line).value;
      var f := FormatEntry(e);
      && f <= line
      && (|f| == |line| || line[|f|] == '\n')
      && ('\n' !in line ==> f == line)
  {
    ParseLogLineFields(line);
    var e := ParseLogLine(line).value;
    var name := LevelName(e.level);
    var stamp := line[..19];
    FormatReadStamp(stamp);
    SplitLine(line, name);
    PrefixExtends(stamp + " " + name + " ", e.message, line[21 + |name|..]);
  }

  /** A line holding a level token at its place is stamp, space, token, space and the rest. */
  lemma SplitLine(line: string, name: string)
    requires 21 + |name| <= |line|
    requires line[19] == ' ' && line[20..20 + |name|] == name && line[20 + |name|] == ' '
    ensures line == line[..19] + " " + name + " " + line[21 + |name|..]
  {
    var k := 20 + |name|;
    assert line == line[..19] + [line[19]] + line[20..k] + [line[k]] + line[k + 1..];
  }

  lemma PrefixExtends(p: string, s: string, t: string)
    requires s <= t
    ensures p + s <= p + t
  {
    assert (p + t)[..|p + s|] == p + s;
  }

  /**
   * Parsing the output line of a well-formed entry, possibly followed by a
   * line feed and more text, gives that entry back.
   */
  lemma FormatThenParse(e: LogEntry, tail: string)
    requires WellFormed(e)
    requires tail == [] || tail[0] == '\n'
    ensures ParseLogLine(FormatEntry(e) + tail) == Some(e)
  {
    var stamp := FormatTimestamp(e.timestamp);
    MatchParts(FormatEntry(e) + tail, stamp, e.level, e.message, tail);
    FormatReadStamp(stamp);
  }

  /** The matcher's groups on a line assembled from a stamp, a level token and a message. */
  lemma MatchParts(line: string, stamp: string, level: Level, message: string, tail: string)
    requires StampShape(stamp) && message != [] && '\n' !in message
    requires tail == [] || tail[0] == '\n'
    requires line == stamp + " " + LevelName(level) + " " + message + tail
    ensures MatchLogPattern(line) == Some(LogMatch(stamp, level, message))
  {
    var name := LevelName(level);
    var rest := message + tail;
    assert line == stamp + " " + name + " " + rest;
    AssembledLine(stamp, name, rest);
    LevelTokenOf(level, " " + rest);
    assert line[20..] == name + (" " + rest);
    TakeLineStopsAtLineFeed(message, tail);
    MatchOfParts(line, level, message);
  }

  /** Where the parts of `stamp + " " + name + " " + rest` lie. */
  lemma AssembledLine(stamp: string, name: string, rest: string)
    requires |stamp| == 19
    ensures var line := stamp + " " + name + " " + rest;
      && line[..19] == stamp && line[19] == ' '
      && line[20..] == name + " " + rest
      && line[20 + |name|] == ' '
      && line[21 + |name|..] == rest
  {
    var line := stamp + " " + name + " " + rest;
    assert line == (stamp + " ") + (name + " " + rest);
  }

  /** The matcher succeeds once each of its steps does. */
  lemma MatchOfParts(line: string, level: Level, message: string)
    requires |line| >= 20 && StampShape(line[..19]) && line[19] == ' '
    requires LevelToken(line[20..]) == Some(level)
    requires 20 + |LevelName(level)| < |line| && line[20 + |LevelName(level)|] == ' '
    requires message != [] && TakeLine(line[21 + |LevelName(level)|..]) == message
    ensures MatchLogPattern(line) == Some(LogMatch(line[..19], level, message))
  {
  }

  /** The alternation finds the token that is there. */
  lemma LevelTokenOf(l: Level, s: string)
    ensures LevelToken(LevelName(l) + s) == Some(l)
  {
    var t := LevelName(l) + s;
    assert LevelName(l) <= t;
    assert t[0] == LevelName(l)[0];
  }

  lemma {:induction false} TakeLineStopsAtLineFeed(s: string, tail: string)
    requires '\n' !in s
    requires tail == [] || tail[0] == '\n'
    ensures TakeLine(s + tail) == s
  {
    if s == [] {
    } else {
      assert (s + tail)[1..] == s[1..] + tail;
      TakeLineStopsAtLineFeed(s[1..], tail);
    }
  }

  /**
   * A line whose first 19 characters have the stamp's shape but read as an
   * impossible date or time is rejected, whatever follows them: `strptime`
   * fails and no partial record is returned.
   */
  lemma RejectsInvalidStamp(t: DateTime, rest: string)
    requires FitsStamp(t) && !ValidDateTime(t)
    ensures ParseLogLine(FormatTimestamp(t) + rest) == None
  {
    var line := FormatTimestamp(t) + rest;
    assert line[..19] == FormatTimestamp(t);
    ParseLogLineAccepts(line);
  }

  /**
   * Stamps `strptime` rejects: 2024-13-01 (month 13), 2023-02-29 and
   * 1900-02-29 (not leap years), 2024-02-30, 24:00:00 (hour 24),
   * 10:00:60 (second 60) and year 0000.
   */
  lemma CalendarRejections(rest: string)
    ensures ParseLogLine(FormatTimestamp(DateTime(2024, 13, 1, 10, 0, 0)) + rest) == None
    ensures ParseLogLine(FormatTimestamp(DateTime(2023, 2, 29, 10, 0, 0)) + rest) == None
    ensures ParseLogLine(FormatTimestamp(DateTime(1900, 2, 29, 10, 0, 0)) + rest) == None
    ensures ParseLogLine(FormatTimestamp(DateTime(2024, 2, 30, 10, 0, 0)) + rest) == None
    ensures ParseLogLine(FormatTimestamp(DateTime(2024, 1, 1, 24, 0, 0)) + rest) == None
    ensures ParseLogLine(FormatTimestamp(DateTime(2024, 1, 1, 10, 0, 60)) + rest) == None
    ensures ParseLogLine(FormatTimestamp(DateTime(0, 1, 1, 10, 0, 0)) + rest) == None
  {
    RejectsInvalidStamp(DateTime(2024, 13, 1, 10, 0, 0), rest);
    RejectsInvalidStamp(DateTime(2023, 2, 29, 10, 0, 0), rest);
    RejectsInvalidStamp(DateTime(1900, 2, 29, 10, 0, 0), rest);
    RejectsInvalidStamp(DateTime(2024, 2, 30, 10, 0, 0), rest);
    RejectsInvalidStamp(DateTime(2024, 1, 1, 24, 0, 0), rest);
    RejectsInvalidStamp(DateTime(2024, 1, 1, 10, 0, 60), rest);
    RejectsInvalidStamp(DateTime(0, 1, 1, 10, 0, 0), rest);
  }

  /** The leap day 2000-02-29 is accepted: 2000 is divisible by 400. */
  lemma AcceptsLeapDay2000(message: string)
    requires message != [] && '\n' !in message
    ensures var e := LogEntry(DateTime(2000, 2, 29, 23, 59, 59), Error, message);
      ParseLogLine(FormatEntry(e)) == Some(e)
  {
    var e := LogEntry(DateTime(2000, 2, 29, 23, 59, 59), Error, message);
    FormatThenParse(e, []);
    assert FormatEntry(e) + [] == FormatEntry(e);
  }

  /** The leap day 2024-02-29 is accepted: 2024 is divisible by 4 and not by 100. */
  lemma AcceptsLeapDay2024(message: string)
    requires message != [] && '\n' !in message
    ensures var e := LogEntry(DateTime(2024, 2, 29, 0, 0, 0), Debug, message);
      ParseLogLine(FormatEntry(e)) == Some(e)
  {
    var e := LogEntry(DateTime(2024, 2, 29, 0, 0, 0), Debug, message);
    FormatThenParse(e, []);
    assert FormatEntry(e) + [] == FormatEntry(e);
  }
}
