/**
 * How the parts fit together in the analyzer's run: the entries read from a
 * file, the counts and queries over them, and the filtered entries written
 * back out one per line in the input format.
 */
module Analysis {
  import opened Wrappers
  import opened Timestamps
  import opened LogParser
  import opened LogReader
  import opened LogQueries

  /** A line as iterating over a text file yields it: a line feed can only be its last character. */
  predicate FileLine(raw: string) {
    forall j :: 0 <= j < |raw| - 1 ==> raw[j] != '\n'
  }

  /** An entry whose message does not end in whitespace, as every message cut from a stripped line. */
  predicate EndsInText(e: LogEntry) {
    e.message != [] && !IsSpace(e.message[|e.message| - 1])
  }

  /** The lines written to `filtered_logs.txt`, each `"{ts} {level} {msg}\n"`. */
  function OutputLines(logs: seq<LogEntry>): (r: seq<string>)
    requires forall i :: 0 <= i < |logs| ==> WellFormed(logs[i])
    ensures |r| == |logs|
  {
    seq(|logs|, i requires 0 <= i < |logs| => assert WellFormed(logs[i]); FormatEntry(logs[i]) + "\n")
  }

  /** Each written line is a line of a text file: its only line feed ends it. */
  lemma OutputLinesAreFileLines(logs: seq<LogEntry>, i: int)
    requires forall i :: 0 <= i < |logs| ==> WellFormed(logs[i])
    requires 0 <= i < |logs|
    ensures FileLine(OutputLines(logs)[i])
  {
    var line := OutputLines(logs)[i];
    forall j | 0 <= j < |line| - 1
      ensures line[j] != '\n'
    {
      FormatEntryHasNoLineFeed(logs[i], j);
    }
  }

  lemma FormatEntryHasNoLineFeed(e: LogEntry, j: int)
    requires WellFormed(e) && 0 <= j < |FormatEntry(e)|
    ensures FormatEntry(e)[j] != '\n'
  {
    var stamp := FormatTimestamp(e.timestamp);
    var f := FormatEntry(e);
    var k := 21 + |LevelName(e.level)|;
    assert f == stamp + " " + LevelName(e.level) + " " + e.message;
    if j < 19 {
      assert f[j] == stamp[j];
      if j < 4 { assert stamp[..4][j] == stamp[j]; }
      else if 5 <= j < 7 { assert stamp[5..7][j - 5] == stamp[j]; }
      else if 8 <= j < 10 { assert stamp[8..10][j - 8] == stamp[j]; }
      else if 11 <= j < 13 { assert stamp[11..13][j - 11] == stamp[j]; }
      else if 14 <= j < 16 { assert stamp[14..16][j - 14] == stamp[j]; }
      else if 17 <= j < 19 { assert stamp[17..19][j - 17] == stamp[j]; }
    } else if j >= k {
      assert f[j] == e.message[j - k];
    } else if 20 <= j < k - 1 {
      assert f[j] == LevelName(e.level)[j - 20];
    }
  }

  // ---------------------------------------------------------------------------
  // Reading what was written

  /** A written line is read back as the entry it was written from. */
  lemma ReadWrittenLine(e: LogEntry)
    requires WellFormed(e) && EndsInText(e)
    ensures ReadLine(FormatEntry(e) + "\n") == Parsed(e)
  {
    var f := FormatEntry(e);
    var stamp := FormatTimestamp(e.timestamp);
    assert f == stamp + " " + LevelName(e.level) + " " + e.message;
    assert f[0] == stamp[..4][0];
    assert f[|f| - 1] == e.message[|e.message| - 1];
    assert AllSpace("\n") by {
      assert "\n"[0] == '\n';
    }
    assert AllSpace([]);
    StripSurrounded([], f, "\n");
    assert [] + f + "\n" == f + "\n";
    FormatThenParse(e, []);
    assert f + [] == f;
  }

  lemma {:induction false} AllParsed(rs: seq<LineOutcome>, logs: seq<LogEntry>)
    requires |rs| == |logs|
    requires forall i :: 0 <= i < |rs| ==> rs[i] == Parsed(logs[i])
    ensures Entries(rs) == logs && Warnings(rs) == []
  {
    if rs != [] {
      var n := |rs| - 1;
      AllParsed(rs[..n], logs[..n]);
      assert logs[..n] + [logs[n]] == logs;
    }
  }

  /** Reading the written lines gives back the written entries, in order, and no warning. */
  lemma OutputReadsBack(logs: seq<LogEntry>)
    requires forall i :: 0 <= i < |logs| ==> WellFormed(logs[i]) && EndsInText(logs[i])
    ensures ParsedEntries(OutputLines(logs)) == logs
    ensures RejectedLines(OutputLines(logs)) == []
  {
    var lines := OutputLines(logs);
    forall i | 0 <= i < |logs|
      ensures ReadLines(lines)[i] == Parsed(logs[i])
    {
      ReadLinesAt(lines, i);
      ReadWrittenLine(logs[i]);
    }
    AllParsed(ReadLines(lines), logs);
  }

  /** Stripping a file line leaves no line feed in it. */
  lemma StrippedFileLine(raw: string)
    requires FileLine(raw)
    ensures '\n' !in Strip(raw)
  {
    var r := Strip(raw);
    StripRemovesSpace(raw);
    var i :| 0 <= i <= |raw| - |r| && r == raw[i..i + |r|] && AllSpace(raw[..i]) && AllSpace(raw[i + |r|..]);
    forall j | 0 <= j < |r|
      ensures r[j] != '\n'
    {
      assert r[j] == raw[i + j];
    }
  }

  /** A message cut from a line without line feeds ends where the line ends. */
  lemma ParsedLineEndsInText(line: string, e: LogEntry)
    requires '\n' !in line && (line == [] || !IsSpace(line[|line| - 1]))
    requires ParseLogLine(line) == Some(e)
    ensures EndsInText(e)
  {
    ParseLogLineFields(line);
    var k := 21 + |LevelName(e.level)|;
    assert e.message == line[k..];
    assert e.message[|e.message| - 1] == line[|line| - 1];
  }

  /** So does a message cut from a stripped file line. */
  lemma StrippedLineEndsInText(raw: string, e: LogEntry)
    requires FileLine(raw)
    requires ParseLogLine(Strip(raw)) == Some(e)
    ensures EndsInText(e)
  {
    StrippedFileLine(raw);
    StripRemovesSpace(raw);
    ParsedLineEndsInText(Strip(raw), e);
  }

  /** Every entry read from a file's lines can be written out and read back. */
  lemma ParsedEntriesEndInText(lines: seq<string>, e: LogEntry)
    requires forall i :: 0 <= i < |lines| ==> FileLine(lines[i])
    requires e in ParsedEntries(lines)
    ensures WellFormed(e) && EndsInText(e)
  {
    ParsedEntriesFromLines(lines, e);
    var i :| 0 <= i < |lines| && ParseLogLine(Strip(lines[i])) == Some(e);
    StrippedLineEndsInText(lines[i], e);
  }

  /**
   * The file the analyzer writes for a date range, read by the analyzer
   * again, gives back exactly the entries in that range and no warning.
   */
  lemma FilteredOutputReadsBack(lines: seq<string>, start: Date, end: Date)
    requires forall i :: 0 <= i < |lines| ==> FileLine(lines[i])
    ensures var kept := FilterByDate(ParsedEntries(lines), start, end);
      && (forall i :: 0 <= i < |kept| ==> WellFormed(kept[i]) && EndsInText(kept[i]))
      && ParsedEntries(OutputLines(kept)) == kept
      && RejectedLines(OutputLines(kept)) == []
  {
    var kept := FilterByDate(ParsedEntries(lines), start, end);
    forall i | 0 <= i < |kept|
      ensures WellFormed(kept[i]) && EndsInText(kept[i])
    {
      assert kept[i] in kept;
      ParsedEntriesEndInText(lines, kept[i]);
    }
    OutputReadsBack(kept);
  }

  /** The level counts and the warnings together account for every line of the file. */
  lemma CountsAccountForLines(lines: seq<string>)
    ensures var c := LevelCounts(ParsedEntries(lines));
      Get(c, Info) + Get(c, Warning) + Get(c, Error) + Get(c, Debug) + |RejectedLines(lines)| == |lines|
  {
    LevelCountsSum(ParsedEntries(lines));
    EntriesAndWarningsCoverLines(lines);
  }

  // ---------------------------------------------------------------------------
  // A run of the analyzer on a four-line file

  /**
   * Three well-formed lines around a garbage line: three entries and one
   * warning, two INFO and one ERROR, the ERROR entry as the most recent of
   * its level, and the two entries of 2024-01-02 in file order for that day.
   * The file is
   *
   *     2024-01-01 12:00:00 INFO start
   *     garbage line
   *     2024-01-02 08:30:00 ERROR disk full
   *     2024-01-02 09:00:00 INFO recovered
   *
   * with each entry line given as the formatted entry it writes.
   */
  lemma FourLineFile(e1: LogEntry, e2: LogEntry, e3: LogEntry, lines: seq<string>)
    requires e1 == LogEntry(DateTime(2024, 1, 1, 12, 0, 0), Info, "start")
    requires e2 == LogEntry(DateTime(2024, 1, 2, 8, 30, 0), Error, "disk full")
    requires e3 == LogEntry(DateTime(2024, 1, 2, 9, 0, 0), Info, "recovered")
    requires lines == [FormatEntry(e1) + "\n", "garbage line\n", FormatEntry(e2) + "\n", FormatEntry(e3) + "\n"]
    ensures ParsedEntries(lines) == [e1, e2, e3]
    ensures RejectedLines(lines) == ["garbage line"]
    ensures LevelCounts(ParsedEntries(lines)) == map[Info := 2, Error := 1]
    ensures MostRecent(ParsedEntries(lines), "ERROR") == Some(e2)
    ensures FilterByDate(ParsedEntries(lines), Date(2024, 1, 2), Date(2024, 1, 2)) == [e2, e3]
  {
    FourLineFileEntries(e1, e2, e3);
    FourLineFileRead(e1, e2, e3, lines);
    FourLineFileCounts(e1, e2, e3);
    FourLineFileQueries(e1, e2, e3);
  }

  lemma FourLineFileEntries(e1: LogEntry, e2: LogEntry, e3: LogEntry)
    requires e1 == LogEntry(DateTime(2024, 1, 1, 12, 0, 0), Info, "start")
    requires e2 == LogEntry(DateTime(2024, 1, 2, 8, 30, 0), Error, "disk full")
    requires e3 == LogEntry(DateTime(2024, 1, 2, 9, 0, 0), Info, "recovered")
    ensures WellFormed(e1) && EndsInText(e1)
    ensures WellFormed(e2) && EndsInText(e2)
    ensures WellFormed(e3) && EndsInText(e3)
  {
    assert e1.message[4] == 't' && e2.message[8] == 'l' && e3.message[8] == 'd';
  }

  lemma FourLineFileRead(e1: LogEntry, e2: LogEntry, e3: LogEntry, lines: seq<string>)
    requires WellFormed(e1) && EndsInText(e1)
    requires WellFormed(e2) && EndsInText(e2)
    requires WellFormed(e3) && EndsInText(e3)
    requires lines == [FormatEntry(e1) + "\n", "garbage line\n", FormatEntry(e2) + "\n", FormatEntry(e3) + "\n"]
    ensures ParsedEntries(lines) == [e1, e2, e3]
    ensures RejectedLines(lines) == ["garbage line"]
  {
    ReadWrittenLine(e1);
    ReadWrittenLine(e2);
    ReadWrittenLine(e3);
    GarbageLine();
    MapFour(ReadLine, lines[0], lines[1], lines[2], lines[3], Parsed(e1), Rejected("garbage line"), Parsed(e2), Parsed(e3));
    assert lines == [lines[0], lines[1], lines[2], lines[3]];
    EntriesOfFour(e1, "garbage line", e2, e3);
  }

  /** Four lines, each read on its own. */
  lemma MapFour(f: string -> LineOutcome, l0: string, l1: string, l2: string, l3: string, o0: LineOutcome, o1: LineOutcome, o2: LineOutcome, o3: LineOutcome)
    requires f(l0) == o0 && f(l1) == o1 && f(l2) == o2 && f(l3) == o3
    ensures MapLines(f, [l0, l1, l2, l3]) == [o0, o1, o2, o3]
  {
    var lines := [l0, l1, l2, l3];
    MapLinesAt(f, lines, 0);
    MapLinesAt(f, lines, 1);
    MapLinesAt(f, lines, 2);
    MapLinesAt(f, lines, 3);
  }
  /** The entries and the warnings among four outcomes, one of them a rejection. */
  lemma EntriesOfFour(e1: LogEntry, w: string, e2: LogEntry, e3: LogEntry)
    ensures var rs := [Parsed(e1), Rejected(w), Parsed(e2), Parsed(e3)];
      Entries(rs) == [e1, e2, e3] && Warnings(rs) == [w]
  {
    var rs := [Parsed(e1), Rejected(w), Parsed(e2), Parsed(e3)];
    assert rs[..3] == [Parsed(e1), Rejected(w), Parsed(e2)];
    assert rs[..3][..2] == [Parsed(e1), Rejected(w)];
    assert rs[..3][..2][..1] == [Parsed(e1)];
    assert rs[..3][..2][..1][..0] == [];
    assert Entries(rs[..3][..2][..1]) == [e1] && Warnings(rs[..3][..2][..1]) == [];
    assert Entries(rs[..3][..2]) == [e1] && Warnings(rs[..3][..2]) == [w];
    assert Entries(rs[..3]) == [e1, e2] && Warnings(rs[..3]) == [w];
  }
  lemma FourLineFileCounts(e1: LogEntry, e2: LogEntry, e3: LogEntry)
    requires e1.level == Info && e2.level == Error && e3.level == Info
    ensures LevelCounts([e1, e2, e3]) == map[Info := 2, Error := 1]
  {
    var one, two, logs := [e1], [e1, e2], [e1, e2, e3];
    assert logs[..2] == two && two[..1] == one && one[..0] == [];
    forall l
      ensures Occurrences(one, l) == if l == Info then 1 else 0
      ensures Occurrences(two, l) == if l == Info || l == Error then 1 else 0
      ensures Occurrences(logs, l) == if l == Info then 2 else if l == Error then 1 else 0
    {
      assert Occurrences([], l) == 0;
    }
    AllLevelsListsEveryLevel(Info);
    AllLevelsListsEveryLevel(Error);
  }

  lemma FourLineFileQueries(e1: LogEntry, e2: LogEntry, e3: LogEntry)
    requires e1 == LogEntry(DateTime(2024, 1, 1, 12, 0, 0), Info, "start")
    requires e2 == LogEntry(DateTime(2024, 1, 2, 8, 30, 0), Error, "disk full")
    requires e3 == LogEntry(DateTime(2024, 1, 2, 9, 0, 0), Info, "recovered")
    ensures MostRecent([e1, e2, e3], "ERROR") == Some(e2)
    ensures FilterByDate([e1, e2, e3], Date(2024, 1, 2), Date(2024, 1, 2)) == [e2, e3]
  {
    var one, two, logs := [e1], [e1, e2], [e1, e2, e3];
    var day := Date(2024, 1, 2);
    assert one[..0] == [] && two[..1] == one && logs[..2] == two;
    assert WithLevel(one, "ERROR") == [];
    assert WithLevel(two, "ERROR") == [e2];
    assert WithLevel(logs, "ERROR") == [e2];
    assert FilterByDate(one, day, day) == [];
    assert FilterByDate(two, day, day) == [e2];
    assert FilterByDate(logs, day, day) == [e2, e3];
  }

  /** A line without a timestamp is reported with its line feed stripped. */
  lemma GarbageLine()
    ensures ReadLine("garbage line\n") == Rejected("garbage line")
  {
    var core := "garbage line";
    assert AllSpace("\n") by {
      assert "\n"[0] == '\n';
    }
    assert AllSpace([]);
    StripSurrounded([], core, "\n");
    assert [] + core + "\n" == "garbage line\n";
  }
}
