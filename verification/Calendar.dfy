/** Epoch time to calendar fields, as `format_timestamp` (`carrier.rs`) and `iso8601_millis`
    (`logging.rs`) compute it: a loop over years, then a loop over months. */
module Calendar {
  import Words
  import opened Text

  datatype Stamp = Stamp(year: int, month: int, day: int, hour: int, minute: int, second: int)

  // ----- the Gregorian calendar -----

  predicate IsLeap(y: int) {
    y % 4 == 0 && (y % 100 != 0 || y % 400 == 0)
  }

  function DaysInYear(y: int): int {
    if IsLeap(y) then 366 else 365
  }

  /** Month lengths, January at index 0. */
  function MonthLengths(leap: bool): (d: seq<int>)
    ensures |d| == 12 && forall i | 0 <= i < 12 :: 28 <= d[i] <= 31
  {
    [31, if leap then 29 else 28, 31, 30, 31, 30, 31, 31, 30, 31, 30, 31]
  }

  predicate ValidDate(y: int, m: int, d: int) {
    1 <= m <= 12 && 1 <= d <= MonthLengths(IsLeap(y))[m - 1]
  }

  predicate ValidStamp(s: Stamp) {
    && ValidDate(s.year, s.month, s.day)
    && 0 <= s.hour < 24 && 0 <= s.minute < 60 && 0 <= s.second < 60
  }

  /** Leap days up to the end of year `y`. */
  function LeapDays(y: int): int {
    y / 4 - y / 100 + y / 400
  }

  /** Days from 1970-01-01 to a date of the proleptic Gregorian calendar, in closed form:
      years are taken to start in March, so that the leap day comes last. */
  function DaysFromCivil(y: int, m: int, d: int): int {
    var marchYear := if m <= 2 then y - 1 else y;
    var monthsSinceMarch := (m + 9) % 12;
    365 * marchYear + LeapDays(marchYear)
    + (153 * monthsSinceMarch + 2) / 5 + d - 1 - 719468
  }

  function SecondsOf(s: Stamp): int {
    86400 * DaysFromCivil(s.year, s.month, s.day) + 3600 * s.hour + 60 * s.minute + s.second
  }

  // ----- what the source computes -----

  /** Rust's `/` on `i64`, which truncates toward zero. */
  function TruncDiv(a: int, b: int): int
    requires b > 0
  {
    if a >= 0 then a / b else -(-a / b)
  }

  /** The year loop, from year `y` with `days` left. */
  function YearLoop(days: int, y: int): (int, int)
    decreases if days < 0 then 0 else days
  {
    if days < DaysInYear(y) then (y, days) else YearLoop(days - DaysInYear(y), y + 1)
  }

  /** The month loop, from month index `i` with `days` left; index 0 if it runs off the end. */
  function MonthLoop(days: int, leap: bool, i: nat): (int, int)
    requires i <= 12
    decreases 12 - i
  {
    if i == 12 then (0, days)
    else if days < MonthLengths(leap)[i] then (i, days)
    else MonthLoop(days - MonthLengths(leap)[i], leap, i + 1)
  }

  /** Year, month and day of a day number. */
  function DateOf(days: int): (int, int, int) {
    var (y, inYear) := YearLoop(days, 1970);
    var (m, inMonth) := MonthLoop(inYear, IsLeap(y), 0);
    (y, m + 1, inMonth + 1)
  }

  function Fields(secs: int): Stamp {
    var timeOfDay := secs % 86400;
    var (y, m, d) := DateOf(TruncDiv(secs, 86400));
    Stamp(y, m, d, timeOfDay / 3600, timeOfDay % 3600 / 60, timeOfDay % 60)
  }

  // ----- correctness of the loops -----

  /** Days from 1970-01-01 to January 1 of year `y`. */
  function DaysBeforeYear(y: int): int {
    365 * (y - 1970) + LeapDays(y - 1) - LeapDays(1969)
  }

  lemma DivStep(y: int, c: int)
    requires 1 < c
    ensures y / c == (y - 1) / c + if y % c == 0 then 1 else 0
  {
    if y % c == 0 {
      Words.ModUnique(y - 1, c, y / c - 1, c - 1);
    } else {
      Words.ModUnique(y - 1, c, y / c, y % c - 1);
    }
  }

  lemma LeapDaysStep(y: int)
    ensures LeapDays(y) == LeapDays(y - 1) + if IsLeap(y) then 1 else 0
  {
    DivStep(y, 4);
    DivStep(y, 100);
    DivStep(y, 400);
    Words.ModOfMod(y, 100, 400);
    Words.ModOfMod(y, 4, 100);
  }

  lemma YearStep(y: int)
    ensures DaysBeforeYear(y + 1) == DaysBeforeYear(y) + DaysInYear(y)
  {
    LeapDaysStep(y);
  }

  lemma {:induction false} YearsIncrease(y: int, z: int)
    requires y < z
    ensures DaysBeforeYear(y) + DaysInYear(y) <= DaysBeforeYear(z)
    decreases z - y
  {
    YearStep(z - 1);
    if y + 1 < z { YearsIncrease(y, z - 1); } else { YearStep(y); }
  }

  lemma {:induction false} YearLoopFindsYear(days: int, y: int)
    requires 0 <= days
    ensures var (z, rest) := YearLoop(days, y);
            && y <= z && 0 <= rest < DaysInYear(z)
            && DaysBeforeYear(z) + rest == DaysBeforeYear(y) + days
    decreases days
  {
    if days >= DaysInYear(y) {
      YearStep(y);
      YearLoopFindsYear(days - DaysInYear(y), y + 1);
    }
  }

  function DaysBeforeMonth(leap: bool, i: nat): int
    requires i <= 12
  {
    var common := [0, 31, 59, 90, 120, 151, 181, 212, 243, 273, 304, 334, 365];
    common[i] + if leap && i >= 2 then 1 else 0
  }

  lemma MonthStep(leap: bool, i: nat)
    requires i < 12
    ensures DaysBeforeMonth(leap, i + 1) == DaysBeforeMonth(leap, i) + MonthLengths(leap)[i]
  {
  }

  lemma MarchCount(i: nat)
    requires i < 12
    ensures (153 * ((i + 10) % 12) + 2) / 5
         == DaysBeforeMonth(false, i) + if i < 2 then 306 else -59
  {
    assert || i == 0 || i == 1 || i == 2 || i == 3 || i == 4 || i == 5
           || i == 6 || i == 7 || i == 8 || i == 9 || i == 10 || i == 11;
  }

  /** The closed form agrees with counting years and months one by one. */
  lemma DaysFromCivilIsCount(y: int, i: nat, d: int)
    requires i < 12
    ensures DaysFromCivil(y, i + 1, d) == DaysBeforeYear(y) + DaysBeforeMonth(IsLeap(y), i) + d - 1
    ensures 0 <= DaysBeforeMonth(IsLeap(y), i)
    ensures DaysBeforeMonth(IsLeap(y), i) + MonthLengths(IsLeap(y))[i] <= DaysInYear(y)
  {
    MarchCount(i);
    LeapDaysStep(y);
    MonthStep(IsLeap(y), i);
  }

  lemma {:induction false} MonthLoopFindsMonth(days: int, leap: bool, i: nat)
    requires i < 12 && 0 <= days
    requires DaysBeforeMonth(leap, i) + days < DaysBeforeMonth(leap, 12)
    ensures var (m, rest) := MonthLoop(days, leap, i);
            && i <= m < 12 && 0 <= rest < MonthLengths(leap)[m]
            && DaysBeforeMonth(leap, m) + rest == DaysBeforeMonth(leap, i) + days
    decreases 12 - i
  {
    MonthStep(leap, i);
    if days >= MonthLengths(leap)[i] {
      MonthLoopFindsMonth(days - MonthLengths(leap)[i], leap, i + 1);
    }
  }

  lemma TimeOfDay(t: int)
    requires 0 <= t < 86400
    ensures 3600 * (t / 3600) + 60 * (t % 3600 / 60) + t % 60 == t
    ensures 0 <= t / 3600 < 24 && 0 <= t % 3600 / 60 < 60
  {
    assert t % 3600 % 60 == t % 60;
  }

  lemma MonthRoundTrip(y: int, inYear: int)
    requires 0 <= inYear < DaysInYear(y)
    ensures var (m, inMonth) := MonthLoop(inYear, IsLeap(y), 0);
            ValidDate(y, m + 1, inMonth + 1) && DaysFromCivil(y, m + 1, inMonth + 1) == DaysBeforeYear(y) + inYear
  {
    MonthLoopFindsMonth(inYear, IsLeap(y), 0);
    var (m, inMonth) := MonthLoop(inYear, IsLeap(y), 0);
    DaysFromCivilIsCount(y, m, inMonth + 1);
  }

  lemma DateRoundTrip(days: int)
    requires 0 <= days
    ensures var (y, m, d) := DateOf(days);
            ValidDate(y, m, d) && DaysFromCivil(y, m, d) == days && 1970 <= y
  {
    YearLoopFindsYear(days, 1970);
    var (y, inYear) := YearLoop(days, 1970);
    MonthRoundTrip(y, inYear);
  }

  /** For every second from the epoch on, the fields are a date and time that exist, and the
      closed form maps them back to the same second. */
  lemma FieldsRoundTrip(secs: int)
    requires 0 <= secs
    ensures ValidStamp(Fields(secs)) && SecondsOf(Fields(secs)) == secs && 1970 <= Fields(secs).year
  {
    DateRoundTrip(secs / 86400);
    TimeOfDay(secs % 86400);
  }

  // ----- order -----

  /** Lexicographic order of the fields, most significant first. */
  predicate Before(a: Stamp, b: Stamp) {
    LexBefore(FieldList(a), FieldList(b))
  }

  function FieldList(s: Stamp): seq<int> {
    [s.year, s.month, s.day, s.hour, s.minute, s.second]
  }

  predicate LexBefore(a: seq<int>, b: seq<int>) {
    if a == [] || b == [] then a == [] && b != []
    else a[0] < b[0] || (a[0] == b[0] && LexBefore(a[1..], b[1..]))
  }

  /** The order, spelled out. */
  lemma BeforeFields(a: Stamp, b: Stamp)
    ensures Before(a, b) <==>
            a.year < b.year || (a.year == b.year && LexBefore(FieldList(a)[1..], FieldList(b)[1..]))
    ensures LexBefore(FieldList(a)[1..], FieldList(b)[1..]) <==>
            || a.month < b.month
            || (a.month == b.month
                && (|| a.day < b.day
                    || (a.day == b.day && ClockBefore(a, b))))
  {
    var u, v := FieldList(a)[1..], FieldList(b)[1..];
    assert u == [a.month, a.day, a.hour, a.minute, a.second];
    assert v == [b.month, b.day, b.hour, b.minute, b.second];
    assert u[1..] == [a.day, a.hour, a.minute, a.second] && v[1..] == [b.day, b.hour, b.minute, b.second];
    ClockFields(a, b);
  }

  predicate ClockBefore(a: Stamp, b: Stamp) {
    || a.hour < b.hour
    || (a.hour == b.hour && (a.minute < b.minute || (a.minute == b.minute && a.second < b.second)))
  }

  lemma ClockFields(a: Stamp, b: Stamp)
    ensures LexBefore([a.day, a.hour, a.minute, a.second], [b.day, b.hour, b.minute, b.second]) <==>
            a.day < b.day || (a.day == b.day && ClockBefore(a, b))
  {
    var u, v := [a.hour, a.minute, a.second], [b.hour, b.minute, b.second];
    assert [a.day, a.hour, a.minute, a.second][1..] == u && [b.day, b.hour, b.minute, b.second][1..] == v;
    assert u[1..] == [a.minute, a.second] && v[1..] == [b.minute, b.second];
    assert u[1..][1..] == [a.second] && v[1..][1..] == [b.second];
    assert LexBefore([a.second], [b.second]) <==> a.second < b.second;
    assert LexBefore(u[1..], v[1..]) <==> a.minute < b.minute || (a.minute == b.minute && a.second < b.second);
  }

  lemma {:induction false} MonthsIncrease(leap: bool, i: nat, j: nat)
    requires i < j <= 12
    ensures DaysBeforeMonth(leap, i) + MonthLengths(leap)[i] <= DaysBeforeMonth(leap, j)
    decreases j - i
  {
    MonthStep(leap, j - 1);
    if i + 1 < j { MonthsIncrease(leap, i, j - 1); }
  }

  /** The day number of a valid stamp, counted out. */
  lemma DayCount(s: Stamp)
    requires ValidStamp(s)
    ensures var days := DaysBeforeYear(s.year) + DaysBeforeMonth(IsLeap(s.year), s.month - 1) + s.day - 1;
            && 86400 * days <= SecondsOf(s) < 86400 * days + 86400
            && SecondsOf(s) == 86400 * days + ClockSeconds(s)
            && DaysBeforeYear(s.year) <= days < DaysBeforeYear(s.year) + DaysInYear(s.year)
  {
    DaysFromCivilIsCount(s.year, s.month - 1, s.day);
  }

  function ClockSeconds(s: Stamp): int {
    3600 * s.hour + 60 * s.minute + s.second
  }

  lemma EarlierYear(a: Stamp, b: Stamp)
    requires ValidStamp(a) && ValidStamp(b) && a.year < b.year
    ensures SecondsOf(a) < SecondsOf(b)
  {
    DayCount(a);
    DayCount(b);
    YearsIncrease(a.year, b.year);
  }

  lemma EarlierInYear(a: Stamp, b: Stamp)
    requires ValidStamp(a) && ValidStamp(b) && a.year == b.year
    requires a.month < b.month || (a.month == b.month && (a.day < b.day || (a.day == b.day && ClockBefore(a, b))))
    ensures SecondsOf(a) < SecondsOf(b)
  {
    DayCount(a);
    DayCount(b);
    if a.month < b.month { MonthsIncrease(IsLeap(a.year), a.month - 1, b.month - 1); }
  }

  lemma BeforeMeansEarlier(a: Stamp, b: Stamp)
    requires ValidStamp(a) && ValidStamp(b) && Before(a, b)
    ensures SecondsOf(a) < SecondsOf(b)
  {
    BeforeFields(a, b);
    if a.year < b.year { EarlierYear(a, b); } else { EarlierInYear(a, b); }
  }

  lemma BeforeIsTotal(a: Stamp, b: Stamp)
    ensures Before(a, b) || Before(b, a) || a == b
  {
    BeforeFields(a, b);
    BeforeFields(b, a);
  }

  /** Later seconds have later fields, strictly. */
  lemma FieldsStrictlyMonotone(s: int, t: int)
    requires 0 <= s < t
    ensures Before(Fields(s), Fields(t))
  {
    FieldsRoundTrip(s);
    FieldsRoundTrip(t);
    BeforeIsTotal(Fields(s), Fields(t));
    if Before(Fields(t), Fields(s)) { BeforeMeansEarlier(Fields(t), Fields(s)); }
  }

  lemma SameSecondSameStamp(a: Stamp, b: Stamp)
    requires ValidStamp(a) && ValidStamp(b) && SecondsOf(a) == SecondsOf(b)
    ensures a == b
  {
    BeforeIsTotal(a, b);
    if Before(a, b) {
      BeforeMeansEarlier(a, b);
    } else if Before(b, a) {
      BeforeMeansEarlier(b, a);
    }
  }

  /** The fields are the only valid ones: any date and time from 1970 on is what the loops
      compute for its second. */
  lemma FieldsInverse(st: Stamp)
    requires ValidStamp(st) && 0 <= SecondsOf(st)
    ensures Fields(SecondsOf(st)) == st
  {
    var secs := SecondsOf(st);
    FieldsRoundTrip(secs);
    SameSecondSameStamp(Fields(secs), st);
  }

  // ----- printing -----

  function ZeroFill(s: string, width: int): string
    decreases width - |s|
  {
    if |s| < width then ZeroFill("0" + s, width) else s
  }

  /** `{:0width}`: zeros after the sign. */
  function Pad(n: int, width: nat): string {
    if n < 0 then "-" + ZeroFill(Digits(-n), width - 1) else ZeroFill(Digits(n), width)
  }

  function Render(s: Stamp): string {
    Pad(s.year, 4) + "-" + Pad(s.month, 2) + "-" + Pad(s.day, 2) + "T"
    + Pad(s.hour, 2) + ":" + Pad(s.minute, 2) + ":" + Pad(s.second, 2)
  }

  /** `format_timestamp`. */
  method FormatTimestamp(tsMs: int) returns (r: string)
    ensures r == Render(Fields(TruncDiv(tsMs, 1000)))
  {
    var secs := TruncDiv(tsMs, 1000);
    var timeOfDay := secs % 86400;
    var hours, minutes, seconds := timeOfDay / 3600, timeOfDay % 3600 / 60, timeOfDay % 60;
    var y, m, day := TimestampDate(TruncDiv(secs, 86400));
    r := Render(Stamp(y, m, day, hours, minutes, seconds));
  }

  /** The date loops of `format_timestamp`. */
  method TimestampDate(days: int) returns (y: int, m: int, day: int)
    ensures (y, m, day) == DateOf(days)
  {
    y := 1970;
    var remaining := days;
    while true
      invariant YearLoop(remaining, y) == YearLoop(days, 1970)
      decreases remaining
    {
      var daysInYear := if IsLeap(y) then 366 else 365;
      if remaining < daysInYear { break; }
      remaining := remaining - daysInYear;
      y := y + 1;
    }
    ghost var inYear := remaining;
    var daysInMonths := MonthLengths(IsLeap(y));
    m := 0;
    for i := 0 to 12
      invariant m == 0 && MonthLoop(remaining, IsLeap(y), i) == MonthLoop(inYear, IsLeap(y), 0)
    {
      if remaining < daysInMonths[i] {
        m := i;
        break;
      }
      remaining := remaining - daysInMonths[i];
    }
    m, day := m + 1, remaining + 1;
  }

  /** `iso8601_millis`, from the seconds and milliseconds since the epoch (zero for an earlier
      clock). Its text is that of `format_timestamp`, then milliseconds and `Z`. */
  method Iso8601Millis(secs: nat, millis: nat) returns (r: string)
    ensures r == Render(Fields(secs)) + "." + Pad(millis, 3) + "Z"
  {
    var timeOfDay := secs % 86400;
    var hour, minute, second := timeOfDay / 3600, timeOfDay % 3600 / 60, timeOfDay % 60;
    var year, month, day := LogDate(secs / 86400);
    r := Render(Stamp(year, month, day, hour, minute, second)) + "." + Pad(millis, 3) + "Z";
  }

  /** The date loops of `iso8601_millis`. */
  method LogDate(days: nat) returns (year: int, month: int, day: int)
    ensures (year, month, day) == DateOf(days)
  {
    year := 1970;
    var remaining: int := days;
    while true
      invariant YearLoop(remaining, year) == YearLoop(days, 1970)
      decreases remaining
    {
      var daysInYear := if IsLeap(year) then 366 else 365;
      if remaining < daysInYear { break; }
      remaining, year := remaining - daysInYear, year + 1;
    }
    ghost var inYear := remaining;
    var daysInMonths := MonthLengths(IsLeap(year));
    var monthIdx := 0;
    for i := 0 to 12
      invariant monthIdx == 0
      invariant MonthLoop(remaining, IsLeap(year), i) == MonthLoop(inYear, IsLeap(year), 0)
    {
      if remaining < daysInMonths[i] {
        monthIdx := i;
        break;
      }
      remaining := remaining - daysInMonths[i];
    }
    month, day := monthIdx + 1, remaining + 1;
  }

  // ----- before the epoch -----

  /** The second that truncating division gives, -0.999 s giving second 0, is printed as a date
      that exists and maps back to that second exactly for timestamps after -1 s. */
  lemma TruncatedSecondFaithfulIff(tsMs: int)
    ensures var secs := TruncDiv(tsMs, 1000);
            ValidStamp(Fields(secs)) && SecondsOf(Fields(secs)) == secs <==> -1000 < tsMs
  {
    var secs := TruncDiv(tsMs, 1000);
    if secs >= 0 {
      FieldsRoundTrip(secs);
    } else {
      var days := TruncDiv(secs, 86400);
      assert YearLoop(days, 1970) == (1970, days);
      assert MonthLoop(days, false, 0) == (0, days);
      if days == 0 {
        DaysFromCivilIsCount(1970, 0, 1);
        assert SecondsOf(Fields(secs)) >= 0;
      }
    }
  }

  /** The printed stamp is a date and time that exist, and the instant falls in the second it
      names. */
  predicate NamesInstant(s: Stamp, tsMs: int) {
    ValidStamp(s) && 1000 * SecondsOf(s) <= tsMs < 1000 * SecondsOf(s) + 1000
  }

  /** Exactly the timestamps from the epoch on are printed as the right date and time. Earlier,
      the second is rounded up and, a day back, the day is wrong, zero or negative: division
      truncates while the time of day is taken with a non-negative remainder. */
  lemma PrintedRightIff(tsMs: int)
    ensures NamesInstant(Fields(TruncDiv(tsMs, 1000)), tsMs) <==> 0 <= tsMs
  {
    var secs := TruncDiv(tsMs, 1000);
    TruncatedSecondFaithfulIff(tsMs);
    if secs < 0 && ValidStamp(Fields(secs)) {
      LateWhenNegative(secs);
    }
  }

  /** Before the epoch the fields, where they exist, name a second too late. */
  lemma LateWhenNegative(secs: int)
    requires secs < 0 && ValidStamp(Fields(secs))
    ensures SecondsOf(Fields(secs)) > secs
  {
    var days := TruncDiv(secs, 86400);
    assert YearLoop(days, 1970) == (1970, days);
    assert MonthLoop(days, false, 0) == (0, days);
    DaysFromCivilIsCount(1970, 0, days + 1);
  }
}
