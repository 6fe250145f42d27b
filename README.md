# Log analyzer, modelled in Dafny

This project models the core of `Log_Analyzer.py`, a small tool that reads a
text log file of lines shaped `YYYY-MM-DD HH:MM:SS LEVEL message`. It keeps
the lines that parse as log entries and reports the others. It then answers
three questions about the entries:
- how many entries each level has;
- which entry of a given level is the most recent;
- which entries fall within an inclusive range of calendar dates.

The filtered entries are written back out one per line, in the same format.

The model has six modules, one per file:

- `Wrappers` (`wrappers.dfy`): the `Option` type that stands for Python's
  "a value or `None`".
- `Timestamps` (`timestamps.dfy`): the date and time values `datetime`
  and `date`. It holds:
  - the Gregorian validity rules `datetime` enforces;
  - the lexicographic order `datetime` and `date` compare by;
  - the 19-character text form in both directions, where
    `datetime.strptime(s, "%Y-%m-%d %H:%M:%S")` reads it and `str(datetime)`
    writes it.
- `LogParser` (`log_parser.dfy`): `parse_log_line` as a matcher for the one
  fixed regular expression followed by `strptime`. It also holds the output
  format `"{ts} {level} {msg}"` and the round trips between the two.
- `LogReader` (`log_reader.dfy`): `str.strip` and the loop of `read_logs`
  as a method, specified by functions over the file's lines.
- `LogQueries` (`log_queries.dfy`):
  - `count_log_levels` as a method with a loop over a `map`;
  - `find_most_recent_entry` as a filter followed by Python's `max`;
  - `filter_logs_by_date` as an order-preserving filter.
- `Analysis` (`analysis.dfy`): how the parts compose. The file written for a
  date range reads back as exactly the entries in that range. The counts and
  the warnings account for every line. A four-line example file gives the
  expected entries, counts, most recent entry and filtered entries.

Notes on how the model reads the code:

- **The message can never be empty.** The pattern ends in `(.+)`, so an
  accepted line has at least one character after the level and its space.
  `.` does not match a line feed, so the message stops at the first line
  feed; `re.match` only anchors at the start, so anything after that feed is
  ignored.
- **Exact round trip.** A parsed line without line feeds is written back
  exactly by the output format of line 98 (`LogParser.ParseThenFormat`).
- **Ties in `find_most_recent_entry`.** `max` keeps the first of several
  equally recent entries (`LogQueries.MostRecentIsFirstLatest`).
- **When `strptime` accepts.** It is reached only with text already shaped by
  the pattern. It accepts exactly when the fields form a valid `datetime`:
  - year 1 to 9999;
  - a real month and day, leap years included;
  - hour below 24;
  - minute and second below 60.

  `%S` lets 60 and 61 through, but the `datetime` constructor then refuses
  them.
- **The level query is text.** The queried level is compared with the
  level's text: `"ERROR"` finds ERROR entries, while `"error"` or `" ERROR"`
  finds nothing.

## Model

| member | source | states |
|---|---|---|
| `Timestamps.DaysInMonth` | Log_Analyzer.py:12 | month lengths: 29 days exactly for February of a leap year, 28 exactly for February otherwise, 30 or 31 for the rest |
| `Timestamps.ValidDateTime` | Log_Analyzer.py:12 | the checks of the `datetime` constructor that `strptime` calls: year 1 to 9999, a month of 1 to 12, a day within that month's length, hour below 24, minute and second below 60 |
| `Timestamps.DateOf` | Log_Analyzer.py:58 | `.date()`: the year, month and day of a timestamp, with the time of day dropped |
| `Timestamps.Before` | Log_Analyzer.py:51 | `<` on naive `datetime` values: lexicographic on year, month, day, hour, minute and second |
| `Timestamps.DateAtMost` | Log_Analyzer.py:58 | `<=` on `date` values: lexicographic on year, month and day |
| `Timestamps.BeforeIsStrictTotalOrder` | Log_Analyzer.py:51 | the timestamp order `max` compares by is irreflexive, transitive, asymmetric and total |
| `Timestamps.DateAtMostIsTotalOrder` | Log_Analyzer.py:58 | the date order of the range test is reflexive, transitive, antisymmetric and total |
| `Timestamps.NumPad` | Log_Analyzer.py:12 | reading the zero-padded decimal form of a number gives the number back |
| `Timestamps.PadNum` | Log_Analyzer.py:12 | zero-padding the value of a digit string gives the string back |
| `Timestamps.ReadStamp` | Log_Analyzer.py:9 | the six numeric fields of a pattern-shaped stamp fit four and two digits |
| `Timestamps.FormatTimestamp` | Log_Analyzer.py:98 | `str(datetime)` yields a pattern-shaped stamp whose fields read back as the timestamp |
| `Timestamps.FormatReadStamp` | Log_Analyzer.py:9-12 | every pattern-shaped stamp is the text form of the fields read from it |
| `Timestamps.StampPieces` | Log_Analyzer.py:9 | text of the first group's shape is its six digit fields joined by `-`, `-`, a space, `:` and `:` |
| `Timestamps.ParseTimestamp` | Log_Analyzer.py:12 | `strptime` succeeds exactly when the fields form a valid `datetime`, and its result prints back as the input |
| `LogParser.TakeLine` | Log_Analyzer.py:9 | `.+` consumes the longest prefix without a line feed, ending at a line feed or at the end |
| `LogParser.LevelToken` | Log_Analyzer.py:9 | the alternation finds a level whose token starts the text, or reports that none does |
| `LogParser.MatchLogPattern` | Log_Analyzer.py:9-10 | a match has a pattern-shaped stamp taken from the first 19 characters and a non-empty message without line feeds |
| `LogParser.ParseLogLine` | Log_Analyzer.py:6-19 | every entry it returns has a valid timestamp and a non-empty message without line feeds |
| `LogParser.FormatEntry` | Log_Analyzer.py:98 | the output line is 21 characters longer than the level token and the message together |
| `LogParser.LevelAtUnique` | Log_Analyzer.py:9 | two level tokens cannot both stand after the stamp of one line |
| `LogParser.MatchLogPatternShape` | Log_Analyzer.py:9-10 | the pattern matches exactly when the line starts with stamp, space, one level token, space and a non-line-feed character |
| `LogParser.ParseLogLineAccepts` | Log_Analyzer.py:9-19 | a line is accepted exactly when it has the pattern's shape and its stamp is a valid calendar date and time |
| `LogParser.ParseLogLineFields` | Log_Analyzer.py:12-15 | the entry's level is the token in the line, its timestamp is read from the first 19 characters, and its message is the rest of the line after the level's space, up to any line feed |
| `LogParser.NoLineFeedTakesAll` | Log_Analyzer.py:9 | without a line feed `.+` takes all of the remaining text |
| `LogParser.ParseThenFormat` | Log_Analyzer.py:9-15 | writing an accepted entry out reproduces its line up to the first line feed, so a line without line feeds is reproduced exactly |
| `LogParser.FormatThenParse` | Log_Analyzer.py:98 | a well-formed entry written out, with or without a following line, parses back to the same entry |
| `LogParser.MatchParts` | Log_Analyzer.py:9-10 | a line assembled from a stamp, a level token and a message matches with those three groups |
| `LogParser.LevelTokenOf` | Log_Analyzer.py:9 | a level token followed by anything is recognised as that level |
| `LogParser.TakeLineStopsAtLineFeed` | Log_Analyzer.py:9 | `.+` stops at the line feed that ends the message |
| `LogParser.RejectsInvalidStamp` | Log_Analyzer.py:12-19 | a line whose stamp has the right shape but is not a valid date and time gives `None`, whatever follows it |
| `LogParser.CalendarRejections` | Log_Analyzer.py:12-19 | month 13, 29 February 2023 and 1900, 30 February, hour 24, second 60 and year 0 are each rejected |
| `LogParser.AcceptsLeapDay2000` | Log_Analyzer.py:12-15 | 29 February 2000, a leap year divisible by 400, is accepted |
| `LogParser.AcceptsLeapDay2024` | Log_Analyzer.py:12-15 | 29 February 2024 is accepted |
| `LogReader.Strip` | Log_Analyzer.py:30 | `line.strip()`: never longer than its input; `StripRemovesSpace` shows it keeps one contiguous stretch with non-space ends and removes only whitespace |
| `LogReader.TrimStart` | Log_Analyzer.py:30 | what remains after removing leading whitespace starts with a non-space character |
| `LogReader.TrimEnd` | Log_Analyzer.py:30 | what remains after removing trailing whitespace ends with a non-space character |
| `LogReader.TrimStartRemovesSpace` | Log_Analyzer.py:30 | the left strip keeps a suffix and removes only whitespace |
| `LogReader.TrimEndRemovesSpace` | Log_Analyzer.py:30 | the right strip keeps a prefix and removes only whitespace |
| `LogReader.StripRemovesSpace` | Log_Analyzer.py:30 | `strip` keeps one contiguous stretch with non-space ends and removes only whitespace around it |
| `LogReader.StripSurrounded` | Log_Analyzer.py:30 | whitespace around a core with non-space ends is removed exactly, whatever the padding |
| `LogReader.StripStripped` | Log_Analyzer.py:30 | stripping text that is already stripped changes nothing |
| `LogReader.ReadLine` | Log_Analyzer.py:30-34 | one iteration of the loop: the stripped line's parse when it succeeds, which is then a well-formed entry, and otherwise the stripped line as the warning text |
| `LogReader.MapLinesAt` | Log_Analyzer.py:29-30 | the outcome at each position is that of the line at that position |
| `LogReader.MapLinesAppend` | Log_Analyzer.py:29-30 | the outcomes of two stretches of lines are the outcomes of each, in order |
| `LogReader.ReadLinesAt` | Log_Analyzer.py:29-30 | each line's outcome is decided by parsing that line, stripped, on its own |
| `LogReader.ReadLinesAppend` | Log_Analyzer.py:29-30 | reading two stretches of a file gives the outcomes of each, in order |
| `LogReader.ParsedEntries` | Log_Analyzer.py:29-35 | the list `read_logs` returns: the entries of the lines that parse, in file order, never more than the lines |
| `LogReader.RejectedLines` | Log_Analyzer.py:29-34 | the warnings `read_logs` prints: the stripped lines that do not parse, in file order, never more than the lines |
| `LogReader.EntriesPlusWarnings` | Log_Analyzer.py:31-34 | every outcome becomes either an entry or a warning |
| `LogReader.EntriesAndWarningsCoverLines` | Log_Analyzer.py:29-34 | entries plus warnings number exactly the lines of the file |
| `LogReader.EntriesAppend` | Log_Analyzer.py:31-34 | entries and warnings of concatenated outcomes are concatenated, so the order is kept |
| `LogReader.ParsedEntriesAppend` | Log_Analyzer.py:29-34 | the entries and the warnings of a file are those of its parts, in file order |
| `LogReader.ParsedEntriesOne` | Log_Analyzer.py:30-34 | a single line gives its entry when its stripped text parses, and that stripped text as a warning otherwise |
| `LogReader.EntryHasOutcome` | Log_Analyzer.py:31-32 | every entry kept comes from an outcome that parsed |
| `LogReader.WarningHasOutcome` | Log_Analyzer.py:33-34 | every warning comes from an outcome that was rejected |
| `LogReader.ParsedEntriesFromLines` | Log_Analyzer.py:29-32 | every entry kept is what the parser made of one of the stripped lines, and is well formed |
| `LogReader.RejectedLinesFromLines` | Log_Analyzer.py:29-34 | every warning is the stripped text of one of the lines, and that text does not parse |
| `LogReader.ReadOneMore` | Log_Analyzer.py:30-34 | one more line appends its entry to the entries, or its stripped text to the warnings, and leaves the other list alone |
| `LogReader.ReadLogs` | Log_Analyzer.py:27-35 | the loop returns the entries and the warnings of the file's lines in file order, and together they number the lines |
| `LogQueries.LevelCounts` | Log_Analyzer.py:39-43 | the dictionary `count_log_levels` returns: a key for each level that occurs, mapped to its number of entries, and never a zero count |
| `LogQueries.LevelCountsSnoc` | Log_Analyzer.py:41-42 | one more entry adds one to its level's count, creating the key at 1 when absent |
| `LogQueries.CountLogLevels` | Log_Analyzer.py:39-43 | the loop returns the dictionary of counts of the levels that occur |
| `LogQueries.OccurrencesPositive` | Log_Analyzer.py:41-42 | a level is counted at least once exactly when some entry has it |
| `LogQueries.LevelCountsKeys` | Log_Analyzer.py:39-43 | the keys are exactly the levels that occur, each mapped to its number of entries |
| `LogQueries.LevelCountsSum` | Log_Analyzer.py:39-43 | the four counts add up to the number of entries |
| `LogQueries.LevelCountsEmpty` | Log_Analyzer.py:40 | no entries give an empty dictionary |
| `LogQueries.LevelCountsUniform` | Log_Analyzer.py:39-43 | entries that all share one level give a single key counting all of them |
| `LogQueries.OccurrencesSum` | Log_Analyzer.py:41-42 | every entry is counted under exactly one of the four levels |
| `LogQueries.OccurrencesAppend` | Log_Analyzer.py:41-42 | counting two stretches separately and adding gives the count of the whole |
| `LogQueries.LevelCountsAppend` | Log_Analyzer.py:39-43 | the dictionary of a concatenation adds the counts of the parts, level by level |
| `LogQueries.WithLevel` | Log_Analyzer.py:48 | the filtered list holds exactly the entries whose level text equals the query |
| `LogQueries.WithLevelCount` | Log_Analyzer.py:48 | filtering by a level's text keeps as many entries as that level's count |
| `LogQueries.LevelNameInjective` | Log_Analyzer.py:48 | two levels have the same text only when they are the same level |
| `LogQueries.Latest` | Log_Analyzer.py:51 | `max` returns a member that no element is later than, and every element before it is strictly earlier |
| `LogQueries.MostRecent` | Log_Analyzer.py:47-51 | `None` exactly when no entry has the level; otherwise a member of the input with that level that no entry of the level is later than |
| `LogQueries.WithLevelSnoc` | Log_Analyzer.py:48 | unfolding step of the comprehension: the level filter of a list with one more entry at the end is the filter of the list, followed by that entry when its level's text is the one asked for |
| `LogQueries.WithLevelIndex` | Log_Analyzer.py:48 | the filtered list keeps file order: an entry's predecessors of the same level are filtered before it |
| `LogQueries.MostRecentIsFirstLatest` | Log_Analyzer.py:48-51 | among equally recent entries of the level the first in the file is returned |
| `LogQueries.MostRecentAgreesWithCounts` | Log_Analyzer.py:39-51 | a level has a most recent entry exactly when it has a count |
| `LogQueries.MostRecentUnknownLevel` | Log_Analyzer.py:48-50 | a query that is not one of the four level tokens finds nothing |
| `LogQueries.InDateRange` | Log_Analyzer.py:58 | `start_date <= log[0].date() <= end_date`, both bounds inclusive |
| `LogQueries.FilterByDate` | Log_Analyzer.py:55-60 | the result holds exactly the entries whose date lies in the inclusive range |
| `LogQueries.FilterByDateSnoc` | Log_Analyzer.py:56-59 | unfolding step of the comprehension: the date filter of a list with one more entry at the end is the filter of the list, followed by that entry when its date lies in the range |
| `LogQueries.FilterByDateAppend` | Log_Analyzer.py:56-59 | filtering distributes over concatenation, so the input order is kept |
| `LogQueries.FilterByDateKeepsAll` | Log_Analyzer.py:56-59 | entries that all lie in the range are kept unchanged |
| `LogQueries.FilterByDateIdempotent` | Log_Analyzer.py:55-60 | filtering twice by the same range gives the same result as once |
| `LogQueries.FilterByDateEmptyRange` | Log_Analyzer.py:58 | a start date after the end date selects nothing |
| `LogQueries.FilterByDateOneDay` | Log_Analyzer.py:58 | a one-day range selects exactly the entries of that day |
| `Analysis.OutputLines` | Log_Analyzer.py:97-98 | the lines written to `filtered_logs.txt`: one per entry, in order, each the formatted entry followed by a line feed |
| `Analysis.OutputLinesAreFileLines` | Log_Analyzer.py:96-98 | every written line holds its only line feed at its end |
| `Analysis.FormatEntryHasNoLineFeed` | Log_Analyzer.py:98 | a well-formed entry's output line contains no line feed |
| `Analysis.ReadWrittenLine` | Log_Analyzer.py:98 | a written line, line feed included, is read back as the entry written |
| `Analysis.AllParsed` | Log_Analyzer.py:31-32 | outcomes that all parsed give their entries in order and no warning |
| `Analysis.OutputReadsBack` | Log_Analyzer.py:96-98 | reading the written lines gives back the written entries in order, with no warning |
| `Analysis.StrippedFileLine` | Log_Analyzer.py:29-30 | a stripped line of a text file holds no line feed |
| `Analysis.ParsedLineEndsInText` | Log_Analyzer.py:9-15 | the message of a line without line feeds ends where the line ends |
| `Analysis.StrippedLineEndsInText` | Log_Analyzer.py:29-30 | a message read from a stripped file line does not end in whitespace |
| `Analysis.ParsedEntriesEndInText` | Log_Analyzer.py:29-32 | every entry read from a file can be written out and read back |
| `Analysis.FilteredOutputReadsBack` | Log_Analyzer.py:94-98 | the file written for a date range reads back as exactly the entries in that range, with no warning |
| `Analysis.CountsAccountForLines` | Log_Analyzer.py:29-43 | the four level counts plus the warnings number the lines of the file |
| `Analysis.FourLineFile` | Log_Analyzer.py:27-60 | three good lines around a garbage line give three entries and one warning, two INFO and one ERROR, the ERROR entry as most recent, and the two entries of 2024-01-02 for that day |
| `Analysis.FourLineFileEntries` | Log_Analyzer.py:12-15 | the example's three entries are well formed and their messages end in text |
| `Analysis.FourLineFileRead` | Log_Analyzer.py:27-35 | the example's lines give its three entries in file order and the garbage line as a warning |
| `Analysis.MapFour` | Log_Analyzer.py:29-30 | four lines give their four outcomes in order |
| `Analysis.EntriesOfFour` | Log_Analyzer.py:31-34 | three parsed outcomes around a rejected one give three entries and one warning |
| `Analysis.FourLineFileCounts` | Log_Analyzer.py:39-43 | the example's counts are INFO 2 and ERROR 1, with no other key |
| `Analysis.FourLineFileQueries` | Log_Analyzer.py:47-60 | the example's most recent ERROR entry is the 08:30 one, and 2024-01-02 selects its two entries in file order |
| `Analysis.GarbageLine` | Log_Analyzer.py:30-34 | a line without a timestamp is reported with its line feed stripped |

## Left out

- `main` (Log_Analyzer.py:64-106) is not modelled. It prompts for the level and the dates, prints, and opens and writes `filtered_logs.txt`. The one part of it the model keeps is the output line format of line 98, together with what reading that file back gives (`Analysis.FilteredOutputReadsBack`).
- Parsing the date-range bounds with `strptime(..., "%Y-%m-%d")` (Log_Analyzer.py:92-93) is not modelled. `FilterByDate` takes the two bounds as `Date` values.
- File handling in `read_logs` is not modelled. That covers the `os.path.exists` test, the `FileNotFoundError`, opening the file and iterating its lines (Log_Analyzer.py:24-28). `ReadLogs` receives the file's lines as a sequence; a line keeps its line feed, as file iteration gives it.
- Printing warnings (Log_Analyzer.py:34) is modelled as a second output sequence that holds each stripped rejected line. The `"Warning: Skipping invalid log entry: "` prefix is not part of it.
- `CountLogLevels` returns a `map`, which has no key order. Python's dictionary remembers the order in which levels first appear, and `main` prints the counts in that order. The model does not capture that order.
- `LogReader.Strip` removes ASCII whitespace only. That is space, tab, line feed, vertical tab, form feed, carriage return and the characters 0x1C-0x1F. Python's `str.strip` also removes other Unicode whitespace.
- `Timestamps.IsDigit` accepts the ASCII digits only. Python's `\d` also matches other scripts' decimal digits, and `strptime` reads them at their value wherever its own format uses `\d`: in all four digits of the year, and in the second digit of the day, hour, minute and second. Python therefore accepts a line such as `２０２４-01-01 12:00:00 INFO x`, with year 2024, and the model rejects it.
- `strptime` is modelled only on input that the pattern has already shaped into fixed-width, zero-padded fields, because that is the only input it receives here. Its acceptance of unpadded fields such as `2024-1-5` never arises.
- The `try`/`except Exception` of `parse_log_line` (Log_Analyzer.py:7, 18-19) is modelled as an `Option` result. No other exception can arise in the modelled code.
