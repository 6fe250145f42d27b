/**
 * The three questions the analyzer answers about the parsed entries: how
 * many entries each level has, which entry of a level is the most recent,
 * and which entries fall within a range of calendar dates.
 */
module LogQueries {
  import opened Wrappers
  import opened Timestamps
  import opened LogParser

  const AllLevels: seq<Level> := [Info, Warning, Error, Debug]

  lemma AllLevelsListsEveryLevel(l: Level)
    ensures l in AllLevels
  {
  }

  // ---------------------------------------------------------------------------
  // count_log_levels

  /** How many entries of `logs` have level `l`. */
  function Occurrences(logs: seq<LogEntry>, l: Level): (n: nat)
    ensures n <= |logs|
  {
    if logs == [] then 0
    else
      var n := |logs| - 1;
      Occurrences(logs[..n], l) + (if logs[n].level == l then 1 else 0)
  }

  /** `counts.get(l, 0)`. */
  function Get(counts: map<Level, nat>, l: Level): nat {
    if l in counts then counts[l] else 0
  }

  /**
   * The dictionary `count_log_levels` returns: one key per level that occurs,
   * mapped to its number of entries. A level that never occurs has no key.
   */
  function LevelCounts(logs: seq<LogEntry>): (r: map<Level, nat>)
    ensures forall l :: l in r ==> r[l] > 0
  {
    map l | l in AllLevels && Occurrences(logs, l) > 0 :: Occurrences(logs, l)
  }

  /** Appending one entry adds one to its level's count, creating the key if needed. */
  lemma LevelCountsSnoc(logs: seq<LogEntry>, e: LogEntry)
    ensures LevelCounts(logs + [e]) == LevelCounts(logs)[e.level := Get(LevelCounts(logs), e.level) + 1]
  {
    var s := logs + [e];
    assert s[..|s| - 1] == logs;
    AllLevelsListsEveryLevel(e.level);
    forall l | l in AllLevels
      ensures Occurrences(s, l) == Occurrences(logs, l) + (if e.level == l then 1 else 0)
    {
    }
  }

  /** The loop of `count_log_levels`: one dictionary update per entry, in order. */
  method CountLogLevels(logs: seq<LogEntry>) returns (counts: map<Level, nat>)
    ensures counts == LevelCounts(logs)
  {
    counts := map[];
    for i := 0 to |logs|
      invariant counts == LevelCounts(logs[..i])
    {
      var level := logs[i].level;
      LevelCountsSnoc(logs[..i], logs[i]);
      assert logs[..i + 1] == logs[..i] + [logs[i]];
      counts := counts[level := Get(counts, level) + 1];
    }
    assert logs[..|logs|] == logs;
  }

  lemma {:induction false} OccurrencesPositive(logs: seq<LogEntry>, l: Level)
    ensures Occurrences(logs, l) > 0 <==> exists i :: 0 <= i < |logs| && logs[i].level == l
  {
    if logs != [] {
      var n := |logs| - 1;
      OccurrencesPositive(logs[..n], l);
      if exists i :: 0 <= i < n && logs[..n][i].level == l {
        var i :| 0 <= i < n && logs[..n][i].level == l;
        assert logs[i].level == l;
      }
      if exists i :: 0 <= i < |logs| && logs[i].level == l {
        var i :| 0 <= i < |logs| && logs[i].level == l;
        if i < n {
          assert logs[..n][i].level == l;
        }
      }
    }
  }

  /** A level is a key of the dictionary exactly when some entry has that level, and then maps to its number of entries. */
  lemma LevelCountsKeys(logs: seq<LogEntry>, l: Level)
    ensures l in LevelCounts(logs) <==> exists i :: 0 <= i < |logs| && logs[i].level == l
    ensures Get(LevelCounts(logs), l) == Occurrences(logs, l)
  {
    AllLevelsListsEveryLevel(l);
    OccurrencesPositive(logs, l);
  }

  lemma {:induction false} OccurrencesSum(logs: seq<LogEntry>)
    ensures Occurrences(logs, Info) + Occurrences(logs, Warning) + Occurrences(logs, Error) + Occurrences(logs, Debug) == |logs|
  {
    if logs != [] {
      OccurrencesSum(logs[..|logs| - 1]);
    }
  }

  /** The counts add up to the number of entries: every entry is counted once, under its own level. */
  lemma LevelCountsSum(logs: seq<LogEntry>)
    ensures var c := LevelCounts(logs);
      Get(c, Info) + Get(c, Warning) + Get(c, Error) + Get(c, Debug) == |logs|
  {
    LevelCountsKeys(logs, Info);
    LevelCountsKeys(logs, Warning);
    LevelCountsKeys(logs, Error);
    LevelCountsKeys(logs, Debug);
    OccurrencesSum(logs);
  }

  /** No entries, no keys. */
  lemma LevelCountsEmpty()
    ensures LevelCounts([]) == map[]
  {
    assert forall l :: Occurrences([], l) == 0;
  }

  lemma {:induction false} OccurrencesUniform(logs: seq<LogEntry>, l: Level, k: Level)
    requires forall i :: 0 <= i < |logs| ==> logs[i].level == l
    ensures Occurrences(logs, k) == if k == l then |logs| else 0
  {
    if logs != [] {
      OccurrencesUniform(logs[..|logs| - 1], l, k);
    }
  }

  /** Entries that all share one level give a single key counting all of them. */
  lemma LevelCountsUniform(logs: seq<LogEntry>, l: Level)
    requires logs != []
    requires forall i :: 0 <= i < |logs| ==> logs[i].level == l
    ensures LevelCounts(logs) == map[l := |logs|]
  {
    forall k
      ensures Occurrences(logs, k) == if k == l then |logs| else 0
    {
      OccurrencesUniform(logs, l, k);
    }
    AllLevelsListsEveryLevel(l);
  }

  lemma {:induction false} OccurrencesAppend(a: seq<LogEntry>, b: seq<LogEntry>, l: Level)
    ensures Occurrences(a + b, l) == Occurrences(a, l) + Occurrences(b, l)
  {
    if b == [] {
      assert a + b == a;
    } else {
      var n := |b| - 1;
      assert (a + b)[..|a + b| - 1] == a + b[..n];
      OccurrencesAppend(a, b[..n], l);
    }
  }

  /** Counting two stretches of entries separately and adding the counts gives the counts of the whole. */
  lemma LevelCountsAppend(a: seq<LogEntry>, b: seq<LogEntry>, l: Level)
    ensures Get(LevelCounts(a + b), l) == Get(LevelCounts(a), l) + Get(LevelCounts(b), l)
  {
    LevelCountsKeys(a + b, l);
    LevelCountsKeys(a, l);
    LevelCountsKeys(b, l);
    OccurrencesAppend(a, b, l);
  }

  // ---------------------------------------------------------------------------
  // find_most_recent_entry

  /** `[log for log in logs if log[1] == level]`: the level is compared by its text. */
  function WithLevel(logs: seq<LogEntry>, level: string): (r: seq<LogEntry>)
    ensures |r| <= |logs|
    ensures forall e :: e in r <==> e in logs && LevelName(e.level) == level
  {
    if logs == [] then []
    else
      var n := |logs| - 1;
      WithLevel(logs[..n], level) + (if LevelName(logs[n].level) == level then [logs[n]] else [])
  }

  /** The filtered entries of a level are exactly as many as its count. */
  lemma {:induction false} WithLevelCount(logs: seq<LogEntry>, l: Level)
    ensures |WithLevel(logs, LevelName(l))| == Occurrences(logs, l)
  {
    if logs != [] {
      WithLevelCount(logs[..|logs| - 1], l);
      LevelNameInjective(logs[|logs| - 1].level, l);
    }
  }

  lemma LevelNameInjective(a: Level, b: Level)
    ensures LevelName(a) == LevelName(b) <==> a == b
  {
  }

  /**
   * `max(s, key=timestamp)`: Python's `max` keeps the first element whose key
   * is largest, so the result is never earlier than any element and every
   * element before it is strictly earlier.
   */
  function Latest(s: seq<LogEntry>): (r: LogEntry)
    requires s != []
    ensures r in s
    ensures forall j :: 0 <= j < |s| ==> !Before(r.timestamp, s[j].timestamp)
    ensures exists k :: 0 <= k < |s| && s[k] == r && forall j :: 0 <= j < k ==> Before(s[j].timestamp, r.timestamp)
  {
    if |s| == 1 then s[0]
    else
      var m := Latest(s[1..]);
      if Before(s[0].timestamp, m.timestamp) then
        LatestOfTail(s, m);
        m
      else
        LatestKeepsHead(s, m);
        s[0]
  }

  lemma LatestOfTail(s: seq<LogEntry>, m: LogEntry)
    requires |s| > 1 && m in s[1..]
    requires forall j :: 0 <= j < |s| - 1 ==> !Before(m.timestamp, s[1..][j].timestamp)
    requires exists k :: 0 <= k < |s| - 1 && s[1..][k] == m && forall j :: 0 <= j < k ==> Before(s[1..][j].timestamp, m.timestamp)
    requires Before(s[0].timestamp, m.timestamp)
    ensures forall j :: 0 <= j < |s| ==> !Before(m.timestamp, s[j].timestamp)
    ensures exists k :: 0 <= k < |s| && s[k] == m && forall j :: 0 <= j < k ==> Before(s[j].timestamp, m.timestamp)
  {
    forall j | 0 <= j < |s|
      ensures !Before(m.timestamp, s[j].timestamp)
    {
      BeforeIsStrictTotalOrder(m.timestamp, s[0].timestamp, m.timestamp);
      if j > 0 {
        assert s[j] == s[1..][j - 1];
      }
    }
    var k :| 0 <= k < |s| - 1 && s[1..][k] == m && forall j :: 0 <= j < k ==> Before(s[1..][j].timestamp, m.timestamp);
    forall j | 0 <= j < k + 1
      ensures Before(s[j].timestamp, m.timestamp)
    {
      if j > 0 {
        assert s[j] == s[1..][j - 1];
      }
    }
    assert s[k + 1] == m;
  }

  lemma LatestKeepsHead(s: seq<LogEntry>, m: LogEntry)
    requires |s| > 1
    requires forall j :: 0 <= j < |s| - 1 ==> !Before(m.timestamp, s[1..][j].timestamp)
    requires !Before(s[0].timestamp, m.timestamp)
    ensures forall j :: 0 <= j < |s| ==> !Before(s[0].timestamp, s[j].timestamp)
  {
    forall j | 0 < j < |s|
      ensures !Before(s[0].timestamp, s[j].timestamp)
    {
      assert s[j] == s[1..][j - 1];
      BeforeIsStrictTotalOrder(s[0].timestamp, s[j].timestamp, m.timestamp);
      BeforeIsStrictTotalOrder(s[0].timestamp, m.timestamp, s[j].timestamp);
      BeforeIsStrictTotalOrder(s[j].timestamp, m.timestamp, s[0].timestamp);
    }
    BeforeIsStrictTotalOrder(s[0].timestamp, s[0].timestamp, s[0].timestamp);
  }

  /**
   * `find_most_recent_entry(logs, level)`: `None` when no entry has that
   * level's text, otherwise the latest entry of that level, the first one in
   * file order when several share the latest timestamp.
   */
  function MostRecent(logs: seq<LogEntry>, level: string): (r: Option<LogEntry>)
    ensures r.None? <==> forall e :: e in logs ==> LevelName(e.level) != level
    ensures r.Some? ==> r.value in logs && LevelName(r.value.level) == level
    ensures r.Some? ==> forall e :: e in logs && LevelName(e.level) == level ==> !Before(r.value.timestamp, e.timestamp)
  {
    var candidates := WithLevel(logs, level);
    if candidates == [] then None
    else
      var m := Latest(candidates);
      LatestIsNotBefore(candidates, m);
      Some(m)
  }

  lemma LatestIsNotBefore(s: seq<LogEntry>, m: LogEntry)
    requires forall j :: 0 <= j < |s| ==> !Before(m.timestamp, s[j].timestamp)
    ensures forall e :: e in s ==> !Before(m.timestamp, e.timestamp)
  {
    forall e | e in s
      ensures !Before(m.timestamp, e.timestamp)
    {
      var j :| 0 <= j < |s| && s[j] == e;
    }
  }

  /** One more entry at the end is kept exactly when it has the level. */
  lemma WithLevelSnoc(init: seq<LogEntry>, last: LogEntry, level: string)
    ensures WithLevel(init + [last], level)
      == WithLevel(init, level) + (if LevelName(last.level) == level then [last] else [])
  {
    var logs := init + [last];
    assert logs[..|logs| - 1] == init;
  }

  /**
   * `logs[i]` is the `k`-th entry with the level, and every entry of the level
   * before it in the file is among the first `k` filtered ones.
   */
  predicate WithLevelAt(logs: seq<LogEntry>, level: string, k: int, i: int)
    requires 0 <= k < |WithLevel(logs, level)|
  {
    && 0 <= i < |logs|
    && logs[i] == WithLevel(logs, level)[k]
    && forall j :: 0 <= j < i && LevelName(logs[j].level) == level ==> logs[j] in WithLevel(logs, level)[..k]
  }

  /** The `k`-th entry of `logs` with the level, seen from within the filtered list. */
  lemma {:induction false} WithLevelIndex(logs: seq<LogEntry>, level: string, k: int)
    requires 0 <= k < |WithLevel(logs, level)|
    ensures exists i :: WithLevelAt(logs, level, k, i)
  {
    var n := |logs| - 1;
    var init, last := logs[..n], logs[n];
    assert logs == init + [last];
    if k < |WithLevel(init, level)| {
      WithLevelIndex(init, level, k);
      var i :| WithLevelAt(init, level, k, i);
      WithLevelAtInit(init, last, level, k, i);
    } else {
      WithLevelAtLast(init, last, level, k);
    }
  }

  /** An entry found before the last one stays where it was. */
  lemma WithLevelAtInit(init: seq<LogEntry>, last: LogEntry, level: string, k: int, i: int)
    requires 0 <= k < |WithLevel(init, level)|
    requires WithLevelAt(init, level, k, i)
    ensures 0 <= k < |WithLevel(init + [last], level)|
    ensures WithLevelAt(init + [last], level, k, i)
  {
    var logs := init + [last];
    WithLevelSnoc(init, last, level);
    var f, g := WithLevel(init, level), WithLevel(logs, level);
    assert g[..k] == f[..k];
    forall j | 0 <= j < i && LevelName(logs[j].level) == level
      ensures logs[j] in g[..k]
    {
      assert logs[j] == init[j];
    }
  }

  /** The entry past all those of `init` is the last one, and it has the level. */
  lemma WithLevelAtLast(init: seq<LogEntry>, last: LogEntry, level: string, k: int)
    requires k == |WithLevel(init, level)| < |WithLevel(init + [last], level)|
    ensures WithLevelAt(init + [last], level, k, |init|)
  {
    var logs := init + [last];
    WithLevelSnoc(init, last, level);
    var f, g := WithLevel(init, level), WithLevel(logs, level);
    assert g[..k] == f;
    forall j | 0 <= j < |init| && LevelName(logs[j].level) == level
      ensures logs[j] in g[..k]
    {
      assert logs[j] == init[j];
      assert init[j] in init;
    }
  }

  /**
   * Ties are broken in file order: every entry of the level that comes before
   * the chosen one in the file is strictly earlier than it.
   */
  lemma MostRecentIsFirstLatest(logs: seq<LogEntry>, level: string)
    requires MostRecent(logs, level).Some?
    ensures var m := MostRecent(logs, level).value;
      exists i :: 0 <= i < |logs| && logs[i] == m
        && forall j :: 0 <= j < i && LevelName(logs[j].level) == level ==> Before(logs[j].timestamp, m.timestamp)
  {
    var f := WithLevel(logs, level);
    assert f != [];
    var m := Latest(f);
    var k :| 0 <= k < |f| && f[k] == m && forall j :: 0 <= j < k ==> Before(f[j].timestamp, m.timestamp);
    WithLevelIndex(logs, level, k);
    var i :| WithLevelAt(logs, level, k, i);
    EarlierAreBefore(logs[..i], f[..k], m);
    forall j | 0 <= j < i && LevelName(logs[j].level) == level
      ensures Before(logs[j].timestamp, m.timestamp)
    {
      assert logs[j] == logs[..i][j];
    }
  }

  lemma EarlierAreBefore(xs: seq<LogEntry>, ys: seq<LogEntry>, m: LogEntry)
    requires forall j :: 0 <= j < |ys| ==> Before(ys[j].timestamp, m.timestamp)
    ensures forall e :: e in ys ==> Before(e.timestamp, m.timestamp)
  {
    forall e | e in ys
      ensures Before(e.timestamp, m.timestamp)
    {
      var x :| 0 <= x < |ys| && ys[x] == e;
    }
  }

  /** The most recent entry of a level exists exactly when the level has a count. */
  lemma MostRecentAgreesWithCounts(logs: seq<LogEntry>, l: Level)
    ensures MostRecent(logs, LevelName(l)).Some? <==> l in LevelCounts(logs)
  {
    LevelCountsKeys(logs, l);
    var r := MostRecent(logs, LevelName(l));
    if r.Some? {
      LevelNameInjective(r.value.level, l);
      var i :| 0 <= i < |logs| && logs[i] == r.value;
      assert logs[i].level == l;
    }
    if l in LevelCounts(logs) {
      var i :| 0 <= i < |logs| && logs[i].level == l;
      assert logs[i] in logs;
    }
  }

  /** A query that is not one of the four level names (`"info"`, `" INFO"`) finds nothing. */
  lemma MostRecentUnknownLevel(logs: seq<LogEntry>, level: string)
    requires level !in {"INFO", "WARNING", "ERROR", "DEBUG"}
    ensures MostRecent(logs, level) == None
  {
  }

  // ---------------------------------------------------------------------------
  // filter_logs_by_date

  /** `start_date <= log[0].date() <= end_date`. */
  predicate InDateRange(e: LogEntry, start: Date, end: Date) {
    DateAtMost(start, DateOf(e.timestamp)) && DateAtMost(DateOf(e.timestamp), end)
  }

  /** `filter_logs_by_date`: the entries dated within the inclusive range, in their original order. */
  function FilterByDate(logs: seq<LogEntry>, start: Date, end: Date): (r: seq<LogEntry>)
    ensures |r| <= |logs|
    ensures forall e :: e in r <==> e in logs && InDateRange(e, start, end)
  {
    if logs == [] then []
    else
      var n := |logs| - 1;
      FilterByDate(logs[..n], start, end) + (if InDateRange(logs[n], start, end) then [logs[n]] else [])
  }

  /** Filtering distributes over concatenation, so the order of the file is kept. */
  lemma {:induction false} FilterByDateAppend(a: seq<LogEntry>, b: seq<LogEntry>, start: Date, end: Date)
    ensures FilterByDate(a + b, start, end) == FilterByDate(a, start, end) + FilterByDate(b, start, end)
  {
    if b == [] {
      assert a + b == a;
    } else {
      var n := |b| - 1;
      assert (a + b)[..|a + b| - 1] == a + b[..n];
      assert (a + b)[|a + b| - 1] == b[n];
      FilterByDateAppend(a, b[..n], start, end);
    }
  }

  /** Entries that all lie in the range are kept unchanged. */
  lemma {:induction false} FilterByDateKeepsAll(logs: seq<LogEntry>, start: Date, end: Date)
    requires forall i :: 0 <= i < |logs| ==> InDateRange(logs[i], start, end)
    ensures FilterByDate(logs, start, end) == logs
  {
    if logs != [] {
      var n := |logs| - 1;
      var init, last := logs[..n], logs[n];
      assert logs == init + [last];
      forall i | 0 <= i < |init|
        ensures InDateRange(init[i], start, end)
      {
        assert init[i] == logs[i];
      }
      FilterByDateKeepsAll(init, start, end);
      FilterByDateSnoc(init, last, start, end);
    }
  }

  /** One more entry at the end is kept exactly when it lies in the range. */
  lemma FilterByDateSnoc(init: seq<LogEntry>, last: LogEntry, start: Date, end: Date)
    ensures FilterByDate(init + [last], start, end)
      == FilterByDate(init, start, end) + (if InDateRange(last, start, end) then [last] else [])
  {
    var logs := init + [last];
    assert logs[..|logs| - 1] == init;
  }

  /** Filtering twice by the same range is filtering once. */
  lemma FilterByDateIdempotent(logs: seq<LogEntry>, start: Date, end: Date)
    ensures FilterByDate(FilterByDate(logs, start, end), start, end) == FilterByDate(logs, start, end)
  {
    var r := FilterByDate(logs, start, end);
    forall i | 0 <= i < |r|
      ensures InDateRange(r[i], start, end)
    {
      assert r[i] in r;
    }
    FilterByDateKeepsAll(r, start, end);
  }

  /** A range whose start comes after its end selects nothing. */
  lemma FilterByDateEmptyRange(logs: seq<LogEntry>, start: Date, end: Date)
    requires !DateAtMost(start, end)
    ensures FilterByDate(logs, start, end) == []
  {
    var r := FilterByDate(logs, start, end);
    if r != [] {
      assert r[0] in r;
      DateAtMostIsTotalOrder(start, DateOf(r[0].timestamp), end);
    }
  }

  /** A one-day range selects the entries of that calendar day. */
  lemma FilterByDateOneDay(logs: seq<LogEntry>, day: Date, e: LogEntry)
    ensures e in FilterByDate(logs, day, day) <==> e in logs && DateOf(e.timestamp) == day
  {
    DateAtMostIsTotalOrder(day, DateOf(e.timestamp), day);
  }
}
