/**
 * Timestamps of log records: a calendar date and time of day with second
 * precision and no time zone, the Gregorian validity rules that
 * `datetime.strptime` enforces, the ordering `datetime` and `date` compare by,
 * and the fixed `YYYY-MM-DD HH:MM:SS` text form in both directions.
 */
module Timestamps {
  import opened Wrappers

  datatype DateTime = DateTime(year: int, month: int, day: int, hour: int, minute: int, second: int)

  /** The date part of a timestamp, and the type of the date-range bounds. */
  datatype Date = Date(year: int, month: int, day: int)

  /** The range of years a Python `datetime` can hold. */
  const MinYear := 1
  const MaxYear := 9999

  predicate IsLeapYear(y: int) {
    y % 4 == 0 && (y % 100 != 0 || y % 400 == 0)
  }

  function DaysInMonth(y: int, m: int): (n: int)
    requires 1 <= m <= 12
    ensures 28 <= n <= 31
    ensures n == 29 <==> m == 2 && IsLeapYear(y)
    ensures n == 28 <==> m == 2 && !IsLeapYear(y)
  {
    if m == 2 then (if IsLeapYear(y) then 29 else 28)
    else if m == 4 || m == 6 || m == 9 || m == 11 then 30
    else 31
  }

  predicate ValidDate(d: Date) {
    && MinYear <= d.year <= MaxYear
    && 1 <= d.month <= 12
    && 1 <= d.day <= DaysInMonth(d.year, d.month)
  }

  /** What the `datetime` constructor accepts (hour < 24, minute and second < 60). */
  predicate ValidDateTime(t: DateTime) {
    && ValidDate(DateOf(t))
    && 0 <= t.hour < 24
    && 0 <= t.minute < 60
    && 0 <= t.second < 60
  }

  /** `datetime.date()`. */
  function DateOf(t: DateTime): Date {
    Date(t.year, t.month, t.day)
  }

  /** `a < b` on `datetime`: lexicographic on (year, month, day, hour, minute, second). */
  predicate Before(a: DateTime, b: DateTime) {
    || a.year < b.year
    || (a.year == b.year && a.month < b.month)
    || (a.year == b.year && a.month == b.month && a.day < b.day)
    || (DateOf(a) == DateOf(b) && a.hour < b.hour)
    || (DateOf(a) == DateOf(b) && a.hour == b.hour && a.minute < b.minute)
    || (DateOf(a) == DateOf(b) && a.hour == b.hour && a.minute == b.minute && a.second < b.second)
  }

  /** `a <= b` on `date`: lexicographic on (year, month, day). */
  predicate DateAtMost(a: Date, b: Date) {
    || a.year < b.year
    || (a.year == b.year && a.month < b.month)
    || (a.year == b.year && a.month == b.month && a.day <= b.day)
  }

  lemma BeforeIsStrictTotalOrder(a: DateTime, b: DateTime, c: DateTime)
    ensures !Before(a, a)
    ensures Before(a, b) && Before(b, c) ==> Before(a, c)
    ensures a != b ==> Before(a, b) || Before(b, a)
    ensures Before(a, b) ==> !Before(b, a)
  {
  }

  lemma DateAtMostIsTotalOrder(a: Date, b: Date, c: Date)
    ensures DateAtMost(a, a)
    ensures DateAtMost(a, b) && DateAtMost(b, c) ==> DateAtMost(a, c)
    ensures DateAtMost(a, b) && DateAtMost(b, a) ==> a == b
    ensures DateAtMost(a, b) || DateAtMost(b, a)
  {
  }

  // ---------------------------------------------------------------------------
  // Decimal digits

  predicate IsDigit(c: char) {
    '0' <= c <= '9'
  }

  predicate AllDigits(s: string) {
    forall i :: 0 <= i < |s| ==> IsDigit(s[i])
  }

  function DigitValue(c: char): (n: int)
    requires IsDigit(c)
    ensures 0 <= n < 10
  {
    c as int - '0' as int
  }

  function DigitChar(n: int): (c: char)
    requires 0 <= n < 10
    ensures IsDigit(c) && DigitValue(c) == n
  {
    (n + '0' as int) as char
  }

  function Pow10(k: nat): (p: nat)
    ensures p >= 1
  {
    if k == 0 then 1 else 10 * Pow10(k - 1)
  }

  /** The value of a string of decimal digits (`int(s)` on ASCII digits). */
  function Num(s: string): (n: nat)
    requires AllDigits(s)
    ensures n < Pow10(|s|)
  {
    if s == [] then 0 else 10 * Num(s[..|s| - 1]) + DigitValue(s[|s| - 1])
  }

  /** `"%0*d" % (w, n)` for an `n` that fits in `w` digits. */
  function Pad(n: nat, w: nat): (s: string)
    ensures |s| == w && AllDigits(s)
  {
    if w == 0 then [] else Pad(n / 10, w - 1) + [DigitChar(n % 10)]
  }

  lemma {:induction false} NumPad(n: nat, w: nat)
    requires n < Pow10(w)
    ensures Num(Pad(n, w)) == n
  {
    if w > 0 {
      var s := Pad(n, w);
      assert s[..w - 1] == Pad(n / 10, w - 1);
      NumPad(n / 10, w - 1);
    }
  }

  lemma DivMod10(q: int, d: int)
    requires 0 <= d < 10
    ensures (10 * q + d) / 10 == q && (10 * q + d) % 10 == d
  {
  }

  lemma {:induction false} PadNum(s: string)
    requires AllDigits(s)
    ensures Pad(Num(s), |s|) == s
  {
    if s != [] {
      var init, last := s[..|s| - 1], s[|s| - 1];
      PadNum(init);
      DivMod10(Num(init), DigitValue(last));
      assert Pad(Num(s), |s|) == Pad(Num(init), |s| - 1) + [DigitChar(DigitValue(last))];
      assert s == init + [last];
    }
  }

  // ---------------------------------------------------------------------------
  // The text form YYYY-MM-DD HH:MM:SS

  /** The 19 characters `\d{4}-\d{2}-\d{2} \d{2}:\d{2}:\d{2}`. */
  predicate StampShape(s: string) {
    && |s| == 19
    && AllDigits(s[..4]) && s[4] == '-'
    && AllDigits(s[5..7]) && s[7] == '-'
    && AllDigits(s[8..10]) && s[10] == ' '
    && AllDigits(s[11..13]) && s[13] == ':'
    && AllDigits(s[14..16]) && s[16] == ':'
    && AllDigits(s[17..19])
  }

  /** The six numeric fields of a shaped stamp, before any range check. */
  function ReadStamp(s: string): (t: DateTime)
    requires StampShape(s)
    ensures FitsStamp(t)
  {
    DateTime(Num(s[..4]), Num(s[5..7]), Num(s[8..10]), Num(s[11..13]), Num(s[14..16]), Num(s[17..19]))
  }

  /** Every field fits its width in the text form (four digits of year, two of the rest). */
  predicate FitsStamp(t: DateTime) {
    && 0 <= t.year < 10000
    && 0 <= t.month < 100 && 0 <= t.day < 100
    && 0 <= t.hour < 100 && 0 <= t.minute < 100 && 0 <= t.second < 100
  }

  /**
   * `str(t)` for a `datetime` without microseconds: `"%04d-%02d-%02d %02d:%02d:%02d"`.
   * Python only ever formats valid timestamps; the text form exists for any
   * fields that fit their widths.
   */
  function FormatTimestamp(t: DateTime): (s: string)
    requires FitsStamp(t)
    ensures StampShape(s) && ReadStamp(s) == t
  {
    var s := Pad(t.year, 4) + "-" + Pad(t.month, 2) + "-" + Pad(t.day, 2) + " "
             + Pad(t.hour, 2) + ":" + Pad(t.minute, 2) + ":" + Pad(t.second, 2);
    StampFields(Pad(t.year, 4), Pad(t.month, 2), Pad(t.day, 2), Pad(t.hour, 2), Pad(t.minute, 2), Pad(t.second, 2));
    NumPad(t.year, 4);
    NumPad(t.month, 2);
    NumPad(t.day, 2);
    NumPad(t.hour, 2);
    NumPad(t.minute, 2);
    NumPad(t.second, 2);
    s
  }

  /** Where each field of a stamp assembled from its parts lies. */
  lemma StampFields(y: string, mo: string, d: string, h: string, mi: string, sec: string)
    requires |y| == 4 && |mo| == |d| == |h| == |mi| == |sec| == 2
    requires AllDigits(y) && AllDigits(mo) && AllDigits(d) && AllDigits(h) && AllDigits(mi) && AllDigits(sec)
    ensures var s := y + "-" + mo + "-" + d + " " + h + ":" + mi + ":" + sec;
      && StampShape(s)
      && s[..4] == y && s[5..7] == mo && s[8..10] == d
      && s[11..13] == h && s[14..16] == mi && s[17..19] == sec
  {
    var s := y + "-" + mo + "-" + d + " " + h + ":" + mi + ":" + sec;
    assert s[..4] == y;
    assert s[5..7] == mo;
    assert s[8..10] == d;
    assert s[11..13] == h;
    assert s[14..16] == mi;
    assert s[17..19] == sec;
  }

  /** Formatting the fields read from a shaped stamp gives the stamp back. */
  lemma FormatReadStamp(s: string)
    requires StampShape(s)
    ensures FormatTimestamp(ReadStamp(s)) == s
  {
    var t := ReadStamp(s);
    PadNum(s[..4]);
    PadNum(s[5..7]);
    PadNum(s[8..10]);
    PadNum(s[11..13]);
    PadNum(s[14..16]);
    PadNum(s[17..19]);
    StampPieces(s);
    assert FormatTimestamp(t) == Pad(t.year, 4) + "-" + Pad(t.month, 2) + "-" + Pad(t.day, 2) + " "
      + Pad(t.hour, 2) + ":" + Pad(t.minute, 2) + ":" + Pad(t.second, 2);
  }

  /** A shaped stamp is its six fields joined by their separators. */
  lemma StampPieces(s: string)
    requires StampShape(s)
    ensures s == s[..4] + "-" + s[5..7] + "-" + s[8..10] + " " + s[11..13] + ":" + s[14..16] + ":" + s[17..19]
  {
  }

  /**
   * `datetime.strptime(s, "%Y-%m-%d %H:%M:%S")` on a string of the regex's
   * shape: it succeeds exactly when the fields form a valid calendar date and
   * time of day, and then gives the timestamp whose text form is `s`.
   */
  function ParseTimestamp(s: string): (r: Option<DateTime>)
    requires StampShape(s)
    ensures r.Some? <==> ValidDateTime(ReadStamp(s))
    ensures r.Some? ==> ValidDateTime(r.value) && FormatTimestamp(r.value) == s
  {
    var t := ReadStamp(s);
    if ValidDateTime(t) then
      FormatReadStamp(s);
      Some(t)
    else
      None
  }
}
