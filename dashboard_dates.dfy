/**
 * The date helpers of the request dashboard: reading the dates of the
 * exported spreadsheet ("yyyy-MM-dd" or "dd/MM/yyyy HH:mm:ss"), the start of
 * a day, the whole-day difference of two dates and the two text forms a
 * date is written in. A date value is a local calendar day with a time of
 * day; JavaScript's null date is None.
 */
module DashboardDates {
  import opened Wrappers
  import opened JsStrings
  import opened Calendar

  /** A local date-time: a calendar day and a time of day. */
  datatype Instant = Instant(day: Date, hour: nat, minute: nat, second: nat)

  /**
   * `new Date(y, m - 1, d, h, mi, s)` for fields inside their ranges; a year
   * from 0 to 99 means 1900 to 1999. Fields out of range are not normalised
   * into a neighbouring month or day here: the answer is None.
   */
  function MakeDate(y: int, m: int, d: int, h: int, mi: int, s: int): (r: Option<Instant>)
    ensures r.Some? ==> r.value.day.month == m && r.value.day.day == d
    ensures r.Some? && y >= 100 ==> r.value.day.year == y
  {
    var year := if 0 <= y <= 99 then 1900 + y else y;
    if 1 <= m <= 12 && 1 <= d <= DaysInMonth(year, m) && 0 <= h < 24 && 0 <= mi < 60 && 0 <= s < 60
    then Some(Instant(CivilDate(year, m, d), h, mi, s))
    else None
  }

  /** The "yyyy-MM-dd" branch: the text before any 'T', split on '-'. */
  function IsoBranch(s: string): Option<Instant> {
    var parts := Split(Split(s, 'T')[0], '-');
    if |parts| != 3 then None
    else
      var y := ToNumber(parts[0]);
      var m := ToNumber(parts[1]);
      var d := ToNumber(parts[2]);
      if y.None? || m.None? || d.None? then None
      else MakeDate(y.value, m.value, d.value, 0, 0, 0)
  }

  /** `timeParts[k] || 0`: a missing or empty field is 0. */
  function TimeField(time: seq<string>, k: nat): Option<nat> {
    if k >= |time| || time[k] == "" then Some(0) else ToNumber(time[k])
  }

  /** The "dd/MM/yyyy HH:mm:ss" branch: date on the left of the first space, time on its right. */
  function SlashBranch(s: string): Option<Instant> {
    var dateTime := Split(s, ' ');
    var dateParts := Split(dateTime[0], '/');
    if |dateParts| != 3 then None
    else
      var time := if |dateTime| > 1 && dateTime[1] != "" then Split(dateTime[1], ':') else [];
      var d := ToNumber(dateParts[0]);
      var m := ToNumber(dateParts[1]);
      var y := ToNumber(dateParts[2]);
      var h := TimeField(time, 0);
      var mi := TimeField(time, 1);
      var se := TimeField(time, 2);
      if d.None? || m.None? || y.None? || h.None? || mi.None? || se.None? then None
      else MakeDate(y.value, m.value, d.value, h.value, mi.value, se.value)
  }

  /**
   * `_native_safeParseDate`: nothing for a missing or empty text, then the
   * '-' form, then the '/' form. The engine's own date parser, tried last by
   * the application, is not part of this model (None).
   */
  function SafeParseDate(s: Option<string>): (r: Option<Instant>)
    ensures s.None? || s == Some("") ==> r.None?
    ensures r.Some? ==> r.value.hour < 24 && r.value.minute < 60 && r.value.second < 60
  {
    if s.None? || s.value == "" then None
    else
      var iso := if '-' in s.value then IsoBranch(s.value) else None;
      if iso.Some? then iso
      else if '/' in s.value then SlashBranch(s.value)
      else None
  }

  /** `_native_startOfDay`. */
  function StartOfDay(i: Option<Instant>): (r: Option<Instant>)
    ensures r.None? <==> i.None?
    ensures r.Some? ==> r.value.day == i.value.day && r.value.hour == 0 && r.value.minute == 0 && r.value.second == 0
  {
    if i.None? then None else Some(Instant(i.value.day, 0, 0, 0))
  }

  /** `_native_differenceInDays`: whole calendar days from `right` to `left`. */
  function DifferenceInDays(left: Option<Instant>, right: Option<Instant>): Option<int> {
    if left.None? || right.None? then None
    else Some(DayNumber(left.value.day) - DayNumber(right.value.day))
  }

  datatype DateFormat = IsoDay | ShortDay

  /** `String(n).padStart(2, "0")`. */
  function TwoDigits(n: nat): string {
    PadStart(NatToString(n), 2, '0')
  }

  /** `str.substr(-2)`. */
  function LastTwo(s: string): (r: string)
    ensures |r| <= 2 && |r| <= |s| && r == s[|s| - |r|..]
  {
    if |s| >= 2 then s[|s| - 2..] else s
  }

  /** `_native_formatDate` for the "yyyy-MM-dd" and "dd/MM/yy" forms. */
  function FormatDate(i: Option<Instant>, format: DateFormat): string {
    if i.None? then ""
    else
      var d := i.value.day;
      var yyyy := IntToString(d.year);
      if format == IsoDay then yyyy + "-" + TwoDigits(d.month) + "-" + TwoDigits(d.day)
      else TwoDigits(d.day) + "/" + TwoDigits(d.month) + "/" + LastTwo(yyyy)
  }

  /** The "YYYY-MM" month key of a date. */
  function MonthKey(d: Date): string {
    IntToString(d.year) + "-" + TwoDigits(d.month)
  }

  // ---------------------------------------------------------------- lemmas

  /** The difference is null exactly when an argument is missing, and ignores the time of day. */
  lemma DifferenceInDaysDays(a: Option<Instant>, b: Option<Instant>)
    ensures DifferenceInDays(a, b).None? <==> a.None? || b.None?
    ensures DifferenceInDays(StartOfDay(a), StartOfDay(b)) == DifferenceInDays(a, b)
    ensures a.Some? && b.Some? && a.value.day == b.value.day ==> DifferenceInDays(a, b) == Some(0)
  {
  }

  /** Swapping the arguments negates the difference; differences add up along a path. */
  lemma DifferenceInDaysAlgebra(a: Instant, b: Instant, c: Instant)
    ensures DifferenceInDays(Some(a), Some(b)).value == -DifferenceInDays(Some(b), Some(a)).value
    ensures DifferenceInDays(Some(a), Some(b)).value + DifferenceInDays(Some(b), Some(c)).value
         == DifferenceInDays(Some(a), Some(c)).value
  {
  }

  /** From a day to the next day is one day. */
  lemma DifferenceInDaysNextDay(d: Date, h: nat, h': nat)
    ensures DifferenceInDays(Some(Instant(NextDay(d), h, 0, 0)), Some(Instant(d, h', 0, 0))) == Some(1)
  {
    NextDayNumber(d);
  }

  /** Month and day are written with two digits that read back as the number. */
  lemma TwoDigitsReads(n: nat)
    requires 1 <= n <= 31
    ensures |TwoDigits(n)| == 2 && AllDigits(TwoDigits(n))
    ensures ToNumber(TwoDigits(n)) == Some(n)
  {
    ToNumberPadded(n, 2);
    PadStartZerosValue(NatToString(n), 2);
    NatToStringSmall(n);
  }

  lemma NatToStringSmall(n: nat)
    requires n < 100
    ensures |NatToString(n)| <= 2
  {
    if n >= 10 {
      assert n / 10 < 10;
      assert NatToString(n / 10) == [DigitChar(n / 10)];
    }
  }

  /** The three digit fields of "y-m-d" come back from the '-' branch's splits. */
  lemma IsoFields(y: string, m: string, dd: string)
    requires AllDigits(y) && AllDigits(m) && AllDigits(dd)
    ensures Split(Split(y + "-" + m + "-" + dd, 'T')[0], '-') == [y, m, dd]
    ensures '-' in y + "-" + m + "-" + dd
  {
    var s := y + "-" + m + "-" + dd;
    DigitsExclude(y, 'T');
    DigitsExclude(m, 'T');
    DigitsExclude(dd, 'T');
    JoinedExclude(y, m, dd, '-', 'T');
    SplitAbsent(s, 'T');
    DigitsExclude(y, '-');
    DigitsExclude(m, '-');
    DigitsExclude(dd, '-');
    SplitThree(y, m, dd, '-');
    assert s[|y|] == '-';
  }

  /**
   * Writing a date as "yyyy-MM-dd" and reading it back gives the start of the
   * same day (for years written with at least three digits: a two-digit year
   * would be read as 19xx).
   */
  lemma IsoRoundTrip(i: Instant)
    requires i.day.year >= 100
    ensures SafeParseDate(Some(FormatDate(Some(i), IsoDay))) == StartOfDay(Some(i))
  {
    var d := i.day;
    var y := NatToString(d.year);
    var m := TwoDigits(d.month);
    var dd := TwoDigits(d.day);
    TwoDigitsReads(d.month);
    TwoDigitsReads(d.day);
    ToNumberPadded(d.year, 0);
    assert PadStart(y, 0, '0') == y;
    IsoText(i);
    IsoFields(y, m, dd);
    IsoBranchOf(y, m, dd, d.year, d.month, d.day);
    MakeDateOf(d);
    ParsedByIsoBranch(y + "-" + m + "-" + dd, Some(Instant(d, 0, 0, 0)));
  }

  lemma IsoText(i: Instant)
    requires i.day.year >= 100
    ensures FormatDate(Some(i), IsoDay)
      == NatToString(i.day.year) + "-" + TwoDigits(i.day.month) + "-" + TwoDigits(i.day.day)
  {
  }

  lemma ParsedByIsoBranch(s: string, x: Option<Instant>)
    requires '-' in s && IsoBranch(s) == x && x.Some?
    ensures SafeParseDate(Some(s)) == x
  {
  }

  lemma IsoBranchOf(y: string, m: string, dd: string, yv: nat, mv: nat, dv: nat)
    requires Split(Split(y + "-" + m + "-" + dd, 'T')[0], '-') == [y, m, dd]
    requires ToNumber(y) == Some(yv) && ToNumber(m) == Some(mv) && ToNumber(dd) == Some(dv)
    ensures IsoBranch(y + "-" + m + "-" + dd) == MakeDate(yv, mv, dv, 0, 0, 0)
  {
  }

  lemma MakeDateOf(d: Date)
    requires d.year >= 100
    ensures MakeDate(d.year, d.month, d.day, 0, 0, 0) == Some(Instant(d, 0, 0, 0))
  {
  }

  /** The month key is "YYYY-MM": the year, a dash, and two month digits that read back. */
  lemma MonthKeyShape(d: Date)
    requires d.year >= 0
    ensures Split(MonthKey(d), '-') == [NatToString(d.year), TwoDigits(d.month)]
    ensures |TwoDigits(d.month)| == 2 && ToNumber(TwoDigits(d.month)) == Some(d.month)
  {
    var y := NatToString(d.year);
    var m := TwoDigits(d.month);
    TwoDigitsReads(d.month);
    DigitsExclude(y, '-');
    DigitsExclude(m, '-');
    SplitTwo(y, '-', m);
  }

  /** "dd/MM/yy" shows the day, the month and the last two digits of the year. */
  lemma ShortFormShape(i: Instant)
    requires i.day.year >= 10
    ensures Split(FormatDate(Some(i), ShortDay), '/')
      == [TwoDigits(i.day.day), TwoDigits(i.day.month), LastTwo(NatToString(i.day.year))]
    ensures AllDigits(LastTwo(NatToString(i.day.year)))
      && DigitsToNat(LastTwo(NatToString(i.day.year))) == i.day.year % 100
  {
    var d := i.day;
    var m := TwoDigits(d.month);
    var dd := TwoDigits(d.day);
    TwoDigitsReads(d.month);
    TwoDigitsReads(d.day);
    var yy := LastTwo(NatToString(d.year));
    LastTwoValue(d.year);
    ShortText(i);
    ShortFields(dd, m, yy);
  }

  lemma ShortText(i: Instant)
    requires i.day.year >= 10
    ensures FormatDate(Some(i), ShortDay)
      == TwoDigits(i.day.day) + "/" + TwoDigits(i.day.month) + "/" + LastTwo(NatToString(i.day.year))
  {
  }

  lemma ShortFields(dd: string, m: string, yy: string)
    requires AllDigits(dd) && AllDigits(m) && AllDigits(yy)
    ensures Split(dd + "/" + m + "/" + yy, '/') == [dd, m, yy]
  {
    DigitsExclude(yy, '/');
    DigitsExclude(m, '/');
    DigitsExclude(dd, '/');
    SplitThree(dd, m, yy, '/');
  }

  /** The last two decimal digits of a number of at least two digits are its value modulo 100. */
  lemma LastTwoValue(n: nat)
    requires n >= 10
    ensures AllDigits(LastTwo(NatToString(n))) && |LastTwo(NatToString(n))| == 2
    ensures DigitsToNat(LastTwo(NatToString(n))) == n % 100
  {
    var q := n / 10;
    var r := n % 10;
    var t := [DigitChar(q % 10), DigitChar(r)];
    assert NatToString(n) == NatToString(q) + [DigitChar(r)];
    if q >= 10 {
      assert NatToString(q) == NatToString(q / 10) + [DigitChar(q % 10)];
      assert NatToString(n) == NatToString(q / 10) + t;
    } else {
      assert NatToString(q) == [DigitChar(q % 10)];
      assert NatToString(n) == t;
    }
    assert LastTwo(NatToString(n)) == t;
    assert t[..1] == [DigitChar(q % 10)];
    assert [DigitChar(q % 10)][..0] == [];
    assert DigitsToNat([DigitChar(q % 10)]) == q % 10;
    assert DigitsToNat(t) == 10 * DigitsToNat(t[..1]) + DigitValue(t[1]);
    ModHundred(n);
  }

  lemma ModHundred(n: nat)
    ensures n % 100 == 10 * ((n / 10) % 10) + n % 10
  {
    var q := n / 10;
    var a, b, c := q / 10, q % 10, n % 10;
    assert n == 100 * a + (10 * b + c);
    DivUnique(n, 100, a, 10 * b + c);
  }
}
