/**
 * The loop of `read_logs`: every line of the file is stripped of surrounding
 * whitespace and parsed; parsed entries are kept in file order and every
 * rejected line is reported. Opening and reading the file is not modelled:
 * the loop receives the file's lines as a sequence and returns the warnings
 * it would print as a second sequence.
 */
module LogReader {
  import opened Wrappers
  import opened LogParser

  /**
   * The characters `str.strip()` removes, restricted to ASCII: space,
   * tab, line feed, vertical tab, form feed, carriage return and the four
   * separators 0x1C-0x1F.
   */
  predicate IsSpace(c: char) {
    c == ' ' || (9 <= c as int <= 13) || (28 <= c as int <= 31)
  }

  predicate AllSpace(s: string) {
    forall i :: 0 <= i < |s| ==> IsSpace(s[i])
  }

  /** `s.lstrip()`: the suffix of `s` after its leading whitespace. */
  function TrimStart(s: string): (r: string)
    ensures |r| <= |s|
    ensures r == [] || !IsSpace(r[0])
  {
    if s != [] && IsSpace(s[0]) then TrimStart(s[1..]) else s
  }

  /** `s.rstrip()`: the prefix of `s` before its trailing whitespace. */
  function TrimEnd(s: string): (r: string)
    ensures |r| <= |s|
    ensures r == [] || !IsSpace(r[|r| - 1])
  {
    if s != [] && IsSpace(s[|s| - 1]) then TrimEnd(s[..|s| - 1]) else s
  }

  /** `s.strip()`. */
  function Strip(s: string): (r: string)
    ensures |r| <= |s|
  {
    TrimEnd(TrimStart(s))
  }

  /** What `lstrip` removes is leading whitespace and nothing else. */
  lemma {:induction false} TrimStartRemovesSpace(s: string)
    ensures var r := TrimStart(s);
      r == s[|s| - |r|..] && AllSpace(s[..|s| - |r|])
  {
    if s != [] && IsSpace(s[0]) {
      TrimStartRemovesSpace(s[1..]);
      var r := TrimStart(s);
      assert s[1..][..|s| - 1 - |r|] == s[1..|s| - |r|];
      assert s[..|s| - |r|] == [s[0]] + s[1..|s| - |r|];
    }
  }

  /** What `rstrip` removes is trailing whitespace and nothing else. */
  lemma {:induction false} TrimEndRemovesSpace(s: string)
    ensures var r := TrimEnd(s);
      r == s[..|r|] && AllSpace(s[|r|..])
  {
    if s != [] && IsSpace(s[|s| - 1]) {
      var n := |s| - 1;
      TrimEndRemovesSpace(s[..n]);
      var r := TrimEnd(s);
      assert s[..n][|r|..] == s[|r|..n];
      assert s[|r|..] == s[|r|..n] + [s[n]];
    }
  }

  /** `strip` keeps a contiguous stretch of `s` and removes only whitespace around it. */
  lemma StripRemovesSpace(s: string)
    ensures var r := Strip(s); r == [] || (!IsSpace(r[0]) && !IsSpace(r[|r| - 1]))
    ensures var r := Strip(s);
      exists i :: 0 <= i <= |s| - |r| && r == s[i..i + |r|] && AllSpace(s[..i]) && AllSpace(s[i + |r|..])
  {
    var t := TrimStart(s);
    var r := TrimEnd(t);
    TrimStartRemovesSpace(s);
    TrimEndRemovesSpace(t);
    var i := |s| - |t|;
    assert r == s[i..i + |r|];
    assert s[i + |r|..] == t[|r|..];
  }

  /**
   * Stripping removes exactly the whitespace around a core that neither
   * starts nor ends with whitespace: the result does not depend on how the
   * line was padded.
   */
  lemma StripSurrounded(lead: string, core: string, trail: string)
    requires AllSpace(lead) && AllSpace(trail)
    requires core == [] || (!IsSpace(core[0]) && !IsSpace(core[|core| - 1]))
    ensures Strip(lead + core + trail) == core
  {
    if core == [] {
      assert lead + core + trail == (lead + trail) + [];
      TrimStartSpaces(lead + trail, []);
    } else {
      assert lead + core + trail == lead + (core + trail);
      TrimStartSpaces(lead, core + trail);
      TrimEndSpaces(core, trail);
    }
  }

  lemma {:induction false} TrimStartSpaces(lead: string, s: string)
    requires AllSpace(lead)
    requires s == [] || !IsSpace(s[0])
    ensures TrimStart(lead + s) == s
  {
    if lead != [] {
      assert (lead + s)[1..] == lead[1..] + s;
      TrimStartSpaces(lead[1..], s);
    } else {
      assert lead + s == s;
    }
  }

  lemma {:induction false} TrimEndSpaces(s: string, trail: string)
    requires AllSpace(trail)
    requires s == [] || !IsSpace(s[|s| - 1])
    ensures TrimEnd(s + trail) == s
  {
    if trail != [] {
      var last := |trail| - 1;
      assert (s + trail)[..|s + trail| - 1] == s + trail[..last];
      TrimEndSpaces(s, trail[..last]);
    } else {
      assert s + trail == s;
    }
  }

  /** Lines that are already stripped are left alone. */
  lemma StripStripped(s: string)
    requires s == [] || (!IsSpace(s[0]) && !IsSpace(s[|s| - 1]))
    ensures Strip(s) == s
  {
    StripSurrounded([], s, []);
    assert [] + s + [] == s;
  }

  // ---------------------------------------------------------------------------
  // What the loop accumulates

  /** The fate of one line of the file: an entry, or a warning carrying the stripped text. */
  datatype LineOutcome = Parsed(entry: LogEntry) | Rejected(text: string)

  /** One iteration of the loop: `parse_log_line(line.strip())`. */
  function ReadLine(raw: string): (r: LineOutcome)
    ensures r.Parsed? ==> WellFormed(r.entry)
    ensures r.Rejected? ==> |r.text| <= |raw|
  {
    match ParseLogLine(Strip(raw))
    case Some(e) => Parsed(e)
    case None => Rejected(Strip(raw))
  }

  /** `[f(x) for x in xs]`, built up from the front as the loop does. */
  function MapLines(f: string -> LineOutcome, xs: seq<string>): (r: seq<LineOutcome>)
    ensures |r| == |xs|
  {
    if xs == [] then [] else MapLines(f, xs[..|xs| - 1]) + [f(xs[|xs| - 1])]
  }

  lemma {:induction false} MapLinesAt(f: string -> LineOutcome, xs: seq<string>, i: int)
    requires 0 <= i < |xs|
    ensures MapLines(f, xs)[i] == f(xs[i])
  {
    var n := |xs| - 1;
    if i < n {
      MapLinesAt(f, xs[..n], i);
    }
  }

  lemma {:induction false} MapLinesAppend(f: string -> LineOutcome, a: seq<string>, b: seq<string>)
    ensures MapLines(f, a + b) == MapLines(f, a) + MapLines(f, b)
  {
    if b == [] {
      assert a + b == a;
    } else {
      var n := |b| - 1;
      assert (a + b)[..|a + b| - 1] == a + b[..n];
      assert (a + b)[|a + b| - 1] == b[n];
      MapLinesAppend(f, a, b[..n]);
    }
  }

  /** The outcome of every line, in file order. */
  function ReadLines(lines: seq<string>): (r: seq<LineOutcome>)
    ensures |r| == |lines|
  {
    MapLines(ReadLine, lines)
  }

  lemma ReadLinesAt(lines: seq<string>, i: int)
    requires 0 <= i < |lines|
    ensures ReadLines(lines)[i] == ReadLine(lines[i])
  {
    MapLinesAt(ReadLine, lines, i);
  }

  lemma ReadLinesAppend(a: seq<string>, b: seq<string>)
    ensures ReadLines(a + b) == ReadLines(a) + ReadLines(b)
  {
    MapLinesAppend(ReadLine, a, b);
  }

  /** The entries among a run of outcomes, in order. */
  function Entries(rs: seq<LineOutcome>): (r: seq<LogEntry>)
    ensures |r| <= |rs|
  {
    if rs == [] then []
    else
      var n := |rs| - 1;
      match rs[n]
      case Parsed(e) => Entries(rs[..n]) + [e]
      case Rejected(_) => Entries(rs[..n])
  }

  /** The warnings among a run of outcomes, in order. */
  function Warnings(rs: seq<LineOutcome>): (r: seq<string>)
    ensures |r| <= |rs|
  {
    if rs == [] then []
    else
      var n := |rs| - 1;
      match rs[n]
      case Parsed(_) => Warnings(rs[..n])
      case Rejected(text) => Warnings(rs[..n]) + [text]
  }

  /** The entries `read_logs` returns for `lines`. */
  function ParsedEntries(lines: seq<string>): (r: seq<LogEntry>)
    ensures |r| <= |lines|
  {
    Entries(ReadLines(lines))
  }

  /** The stripped lines `read_logs` warns about for `lines`. */
  function RejectedLines(lines: seq<string>): (r: seq<string>)
    ensures |r| <= |lines|
  {
    Warnings(ReadLines(lines))
  }

  /** Every outcome is either an entry or a warning, never both and never neither. */
  lemma {:induction false} EntriesPlusWarnings(rs: seq<LineOutcome>)
    ensures |Entries(rs)| + |Warnings(rs)| == |rs|
  {
    if rs != [] {
      EntriesPlusWarnings(rs[..|rs| - 1]);
    }
  }

  /** So the entries and the warnings of `read_logs` together account for every line. */
  lemma EntriesAndWarningsCoverLines(lines: seq<string>)
    ensures |ParsedEntries(lines)| + |RejectedLines(lines)| == |lines|
  {
    EntriesPlusWarnings(ReadLines(lines));
  }

  lemma {:induction false} EntriesAppend(a: seq<LineOutcome>, b: seq<LineOutcome>)
    ensures Entries(a + b) == Entries(a) + Entries(b)
    ensures Warnings(a + b) == Warnings(a) + Warnings(b)
  {
    if b == [] {
      assert a + b == a;
    } else {
      var n := |b| - 1;
      assert (a + b)[..|a + b| - 1] == a + b[..n];
      assert (a + b)[|a + b| - 1] == b[n];
      EntriesAppend(a, b[..n]);
    }
  }

  /**
   * Reading two stretches of a file one after the other gives the entries
   * and the warnings of each, in order: the loop keeps file order.
   */
  lemma ParsedEntriesAppend(a: seq<string>, b: seq<string>)
    ensures ParsedEntries(a + b) == ParsedEntries(a) + ParsedEntries(b)
    ensures RejectedLines(a + b) == RejectedLines(a) + RejectedLines(b)
  {
    ReadLinesAppend(a, b);
    EntriesAppend(ReadLines(a), ReadLines(b));
  }

  /** A single line gives its entry when its stripped text parses, and that text as a warning otherwise. */
  lemma ParsedEntriesOne(line: string)
    ensures ParseLogLine(Strip(line)).Some? ==>
      ParsedEntries([line]) == [ParseLogLine(Strip(line)).value] && RejectedLines([line]) == []
    ensures ParseLogLine(Strip(line)).None? ==>
      ParsedEntries([line]) == [] && RejectedLines([line]) == [Strip(line)]
  {
    assert [line][..0] == [];
    var rs := ReadLines([line]);
    assert rs == [ReadLine(line)];
    assert rs[..0] == [];
  }

  lemma {:induction false} EntryHasOutcome(rs: seq<LineOutcome>, e: LogEntry)
    requires e in Entries(rs)
    ensures exists i :: 0 <= i < |rs| && rs[i] == Parsed(e)
  {
    var n := |rs| - 1;
    if rs[n] != Parsed(e) {
      EntryHasOutcome(rs[..n], e);
      var i :| 0 <= i < n && rs[..n][i] == Parsed(e);
      assert rs[i] == Parsed(e);
    }
  }

  lemma {:induction false} WarningHasOutcome(rs: seq<LineOutcome>, w: string)
    requires w in Warnings(rs)
    ensures exists i :: 0 <= i < |rs| && rs[i] == Rejected(w)
  {
    var n := |rs| - 1;
    if rs[n] != Rejected(w) {
      WarningHasOutcome(rs[..n], w);
      var i :| 0 <= i < n && rs[..n][i] == Rejected(w);
      assert rs[i] == Rejected(w);
    }
  }

  /** Every kept entry is what the parser made of one of the lines, so it is well formed. */
  lemma ParsedEntriesFromLines(lines: seq<string>, e: LogEntry)
    requires e in ParsedEntries(lines)
    ensures exists i :: 0 <= i < |lines| && ParseLogLine(Strip(lines[i])) == Some(e)
    ensures WellFormed(e)
  {
    EntryHasOutcome(ReadLines(lines), e);
    var i :| 0 <= i < |lines| && ReadLines(lines)[i] == Parsed(e);
    ReadLinesAt(lines, i);
    assert ParseLogLine(Strip(lines[i])) == Some(e);
  }

  /** Every warning is the stripped text of one of the lines, and that text does not parse. */
  lemma RejectedLinesFromLines(lines: seq<string>, w: string)
    requires w in RejectedLines(lines)
    ensures exists i :: 0 <= i < |lines| && w == Strip(lines[i])
    ensures ParseLogLine(w) == None
  {
    WarningHasOutcome(ReadLines(lines), w);
    var i :| 0 <= i < |lines| && ReadLines(lines)[i] == Rejected(w);
    ReadLinesAt(lines, i);
    assert w == Strip(lines[i]);
  }

  /** One more line adds its entry, or its stripped text as a warning, at the end. */
  lemma ReadOneMore(lines: seq<string>, i: int)
    requires 0 <= i < |lines|
    ensures ParseLogLine(Strip(lines[i])).Some? ==>
      && ParsedEntries(lines[..i + 1]) == ParsedEntries(lines[..i]) + [ParseLogLine(Strip(lines[i])).value]
      && RejectedLines(lines[..i + 1]) == RejectedLines(lines[..i])
    ensures ParseLogLine(Strip(lines[i])).None? ==>
      && ParsedEntries(lines[..i + 1]) == ParsedEntries(lines[..i])
      && RejectedLines(lines[..i + 1]) == RejectedLines(lines[..i]) + [Strip(lines[i])]
  {
    assert lines[..i + 1] == lines[..i] + [lines[i]];
    ParsedEntriesAppend(lines[..i], [lines[i]]);
    ParsedEntriesOne(lines[i]);
  }

  /**
   * The loop of `read_logs` over the file's lines: parse each stripped line,
   * append the entry to `logs` or report the stripped line.
   */
  method ReadLogs(lines: seq<string>) returns (logs: seq<LogEntry>, warnings: seq<string>)
    ensures logs == ParsedEntries(lines)
    ensures warnings == RejectedLines(lines)
    ensures |logs| + |warnings| == |lines|
  {
    logs, warnings := [], [];
    var i := 0;
    while i < |lines|
      invariant 0 <= i <= |lines|
      invariant logs == ParsedEntries(lines[..i])
      invariant warnings == RejectedLines(lines[..i])
      invariant |logs| + |warnings| == i
    {
      var line := Strip(lines[i]);
      var parsed := ParseLogLine(line);
      ReadOneMore(lines, i);
      match parsed {
        case Some(entry) =>
          logs := logs + [entry];
        case None =>
          warnings := warnings + [line];
      }
      i := i + 1;
    }
    assert lines[..i] == lines;
  }
}
