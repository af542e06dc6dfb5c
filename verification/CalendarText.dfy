/** The text of a timestamp: that it determines its fields, and when the order of texts is the
    order of times (section 5.6 of RFC 3339). */
module CalendarText {
  import opened Text
  import opened Calendar

  // ----- padded numbers -----

  lemma {:induction false} ZeroFillValue(s: string, width: int)
    requires IsNumeral(s)
    ensures IsNumeral(ZeroFill(s, width)) && Number(ZeroFill(s, width)) == Number(s)
    ensures |ZeroFill(s, width)| == if |s| < width then width else |s|
    decreases width - |s|
  {
    if |s| < width {
      LeadingZero(s);
      ZeroFillValue("0" + s, width);
    }
  }

  lemma {:induction false} LeadingZero(s: string)
    requires IsNumeral(s)
    ensures IsNumeral("0" + s) && Number("0" + s) == Number(s)
  {
    if s == "" {
      assert "0" + s == "0" && "0"[..0] == "";
    } else {
      LeadingZero(s[..|s| - 1]);
      assert ("0" + s)[..|"0" + s| - 1] == "0" + s[..|s| - 1];
    }
  }

  lemma {:induction false} DigitsLength(n: nat, width: nat, bound: nat)
    requires 1 <= width && bound == Power10(width)
    ensures |Digits(n)| <= width <==> n < bound
    decreases width
  {
    if width == 1 {
      if n >= 10 { DigitsNonEmpty(n / 10); }
    } else if n >= 10 {
      DigitsLength(n / 10, width - 1, Power10(width - 1));
    } else {
      PowerAtLeast(width);
    }
  }

  lemma DigitsNonEmpty(n: nat)
    ensures |Digits(n)| >= 1
  {
  }

  function Power10(n: nat): nat {
    if n == 0 then 1 else 10 * Power10(n - 1)
  }

  lemma {:induction false} PowerAtLeast(n: nat)
    requires n >= 1
    ensures Power10(n) >= 10
  {
    if n > 1 { PowerAtLeast(n - 1); }
  }

  /** A padded number is a numeral with its value, as wide as asked when it fits. */
  lemma PadIs(n: nat, width: nat)
    requires 1 <= width
    ensures IsNumeral(Pad(n, width)) && Number(Pad(n, width)) == n
    ensures |Pad(n, width)| >= width
    ensures |Pad(n, width)| == width <==> n < Power10(width)
  {
    NumberOfDigits(n);
    ZeroFillValue(Digits(n), width);
    DigitsLength(n, width, Power10(width));
  }

  // ----- order of texts -----

  predicate TextBefore(a: string, b: string) {
    if a == "" || b == "" then a == "" && b != ""
    else a[0] < b[0] || (a[0] == b[0] && TextBefore(a[1..], b[1..]))
  }

  /** Texts whose first parts are equally long are compared by them first. */
  lemma {:induction false} PartsInOrder(a: string, b: string, c: string, d: string)
    requires |a| == |b|
    ensures TextBefore(a + c, b + d) <==> TextBefore(a, b) || (a == b && TextBefore(c, d))
  {
    if a == "" {
      assert a + c == c && b + d == d;
    } else {
      assert (a + c)[1..] == a[1..] + c && (b + d)[1..] == b[1..] + d;
      PartsInOrder(a[1..], b[1..], c, d);
      assert a == [a[0]] + a[1..] && b == [b[0]] + b[1..];
    }
  }

  lemma {:induction false} NumberBound(s: string)
    requires IsNumeral(s)
    ensures Number(s) < Power10(|s|)
  {
    if s != "" { NumberBound(s[..|s| - 1]); }
  }

  /** Equally long numerals are ordered as their numbers. */
  lemma {:induction false} NumeralsInOrder(a: string, b: string)
    requires |a| == |b| && IsNumeral(a) && IsNumeral(b)
    ensures TextBefore(a, b) <==> Number(a) < Number(b)
    ensures a == b <==> Number(a) == Number(b)
  {
    if a != "" {
      var n := |a| - 1;
      var x, y := a[..n], b[..n];
      NumeralsInOrder(x, y);
      PartsInOrder(x, y, [a[n]], [b[n]]);
      assert a == x + [a[n]] && b == y + [b[n]];
      assert TextBefore([a[n]], [b[n]]) <==> a[n] < b[n];
    }
  }

  lemma PadInOrder(m: nat, n: nat, width: nat)
    requires 1 <= width && m < Power10(width) && n < Power10(width)
    ensures |Pad(m, width)| == |Pad(n, width)| == width
    ensures TextBefore(Pad(m, width), Pad(n, width)) <==> m < n
    ensures Pad(m, width) == Pad(n, width) <==> m == n
  {
    PadIs(m, width);
    PadIs(n, width);
    NumeralsInOrder(Pad(m, width), Pad(n, width));
  }

  /** A separator and a two-digit field, then the rest. */
  function Part(sep: char, n: int, rest: string): string {
    [sep] + Pad(n, 2) + rest
  }

  lemma PartInOrder(sep: char, m: nat, n: nat, c: string, d: string)
    requires m < 100 && n < 100
    ensures TextBefore(Part(sep, m, c), Part(sep, n, d)) <==> m < n || (m == n && TextBefore(c, d))
    ensures |Part(sep, m, c)| == 3 + |c|
    ensures Part(sep, m, c) == Part(sep, n, d) <==> m == n && c == d
  {
    TwoDigits();
    PadInOrder(m, n, 2);
    var a, b := Pad(m, 2), Pad(n, 2);
    PartsInOrder(a, b, c, d);
    PartsInOrder([sep], [sep], a + c, b + d);
    assert [sep] + a + c == [sep] + (a + c) && [sep] + b + d == [sep] + (b + d);
    assert !TextBefore([sep], [sep]);
    assert Part(sep, m, c)[1..3] == a && Part(sep, n, d)[1..3] == b;
    assert Part(sep, m, c)[3..] == c && Part(sep, n, d)[3..] == d;
  }

  lemma TwoDigits()
    ensures Power10(2) == 100 && Power10(4) == 10000
  {
    assert Power10(1) == 10 && Power10(3) == 1000;
  }

  function ClockText(s: Stamp): string {
    Part('T', s.hour, Part(':', s.minute, Part(':', s.second, "")))
  }

  function AfterYear(s: Stamp): string {
    Part('-', s.month, Part('-', s.day, ClockText(s)))
  }

  lemma RenderParts(s: Stamp)
    ensures Render(s) == Pad(s.year, 4) + AfterYear(s)
  {
    Regroup(Pad(s.year, 4), Pad(s.month, 2), Pad(s.day, 2), Pad(s.hour, 2), Pad(s.minute, 2), Pad(s.second, 2));
  }

  lemma Regroup(y: string, m: string, d: string, h: string, i: string, s: string)
    ensures y + "-" + m + "-" + d + "T" + h + ":" + i + ":" + s
         == y + (['-'] + m + (['-'] + d + (['T'] + h + ([':'] + i + ([':'] + s + "")))))
  {
    RegroupClock(h, i, s);
    var clock := ['T'] + h + ([':'] + i + ([':'] + s + ""));
    assert y + "-" + m + "-" + d + clock == y + (['-'] + m + (['-'] + d + clock));
    assert y + "-" + m + "-" + d + "T" + h + ":" + i + ":" + s
        == y + "-" + m + "-" + d + ("T" + h + ":" + i + ":" + s);
  }

  lemma RegroupClock(h: string, i: string, s: string)
    ensures "T" + h + ":" + i + ":" + s == ['T'] + h + ([':'] + i + ([':'] + s + ""))
  {
  }

  lemma ClockTextInOrder(a: Stamp, b: Stamp)
    requires ValidStamp(a) && ValidStamp(b)
    ensures TextBefore(ClockText(a), ClockText(b)) <==> ClockBefore(a, b)
    ensures |ClockText(a)| == 9
    ensures ClockText(a) == ClockText(b) <==> a.hour == b.hour && a.minute == b.minute && a.second == b.second
  {
    PartInOrder(':', a.second, b.second, "", "");
    PartInOrder(':', a.minute, b.minute, Part(':', a.second, ""), Part(':', b.second, ""));
    PartInOrder('T', a.hour, b.hour, Part(':', a.minute, Part(':', a.second, "")),
                Part(':', b.minute, Part(':', b.second, "")));
  }

  lemma AfterYearInOrder(a: Stamp, b: Stamp)
    requires ValidStamp(a) && ValidStamp(b)
    ensures TextBefore(AfterYear(a), AfterYear(b)) <==> LexBefore(FieldList(a)[1..], FieldList(b)[1..])
    ensures |AfterYear(a)| == 15
    ensures AfterYear(a) == AfterYear(b) <==> FieldList(a)[1..] == FieldList(b)[1..]
  {
    ClockTextInOrder(a, b);
    PartInOrder('-', a.day, b.day, ClockText(a), ClockText(b));
    PartInOrder('-', a.month, b.month, Part('-', a.day, ClockText(a)), Part('-', b.day, ClockText(b)));
    BeforeFields(a, b);
    assert FieldList(a)[1..] == [a.month, a.day, a.hour, a.minute, a.second];
    assert FieldList(b)[1..] == [b.month, b.day, b.hour, b.minute, b.second];
  }

  /** The text of a stamp determines it, in any year. */
  lemma RenderInjective(a: Stamp, b: Stamp)
    requires ValidStamp(a) && ValidStamp(b) && 0 <= a.year && 0 <= b.year
    requires Render(a) == Render(b)
    ensures a == b
  {
    RenderParts(a);
    RenderParts(b);
    AfterYearInOrder(a, b);
    AfterYearInOrder(b, a);
    PadIs(a.year, 4);
    PadIs(b.year, 4);
    SamePrefix(Pad(a.year, 4), Pad(b.year, 4), AfterYear(a), AfterYear(b));
    assert a.year == Number(Pad(a.year, 4)) == Number(Pad(b.year, 4)) == b.year;
    assert FieldList(a)[1..] == [a.month, a.day, a.hour, a.minute, a.second];
    assert FieldList(b)[1..] == [b.month, b.day, b.hour, b.minute, b.second];
  }

  lemma SamePrefix(a: string, b: string, c: string, d: string)
    requires a + c == b + d && |c| == |d|
    ensures a == b && c == d
  {
    assert |a| == |b|;
    assert a == (a + c)[..|a|] && b == (b + d)[..|b|];
    assert c == (a + c)[|a|..] && d == (b + d)[|b|..];
  }

  /** With four-digit years the order of the texts is the order of the fields. */
  lemma RenderInOrder(a: Stamp, b: Stamp)
    requires ValidStamp(a) && ValidStamp(b) && 0 <= a.year < 10000 && 0 <= b.year < 10000
    ensures TextBefore(Render(a), Render(b)) <==> Before(a, b)
  {
    TwoDigits();
    RenderParts(a);
    RenderParts(b);
    PadInOrder(a.year, b.year, 4);
    AfterYearInOrder(a, b);
    PartsInOrder(Pad(a.year, 4), Pad(b.year, 4), AfterYear(a), AfterYear(b));
    BeforeFields(a, b);
  }

  /** The last second of the year 9999. */
  const LAST_FOUR_DIGIT: int := 253402300799

  /** Up to a second, the order of the printed texts is the order of time if and only if that
      second is not later than the year 9999. */
  lemma TextOrderIff(last: int)
    requires 0 <= last
    ensures (forall s, t | 0 <= s < t <= last :: TextBefore(Render(Fields(s)), Render(Fields(t)))) <==>
            last <= LAST_FOUR_DIGIT
  {
    EndOf9999();
    if last <= LAST_FOUR_DIGIT {
      YearsInOrder(last, LAST_FOUR_DIGIT);
      forall s, t | 0 <= s < t <= last ensures TextBefore(Render(Fields(s)), Render(Fields(t))) {
        InOrderUpTo(s, t, last);
      }
    } else {
      FirstOutOfOrder();
    }
  }

  lemma EndOf9999()
    ensures Fields(LAST_FOUR_DIGIT) == Stamp(9999, 12, 31, 23, 59, 59)
    ensures Fields(LAST_FOUR_DIGIT + 1) == Stamp(10000, 1, 1, 0, 0, 0)
  {
    var a, b := Stamp(9999, 12, 31, 23, 59, 59), Stamp(10000, 1, 1, 0, 0, 0);
    assert SecondsOf(a) == LAST_FOUR_DIGIT && SecondsOf(b) == LAST_FOUR_DIGIT + 1;
    FieldsInverse(a);
    FieldsInverse(b);
  }

  lemma InOrderUpTo(s: int, t: int, last: int)
    requires 0 <= s < t <= last && Fields(last).year <= 9999
    ensures TextBefore(Render(Fields(s)), Render(Fields(t)))
  {
    YearsInOrder(s, t);
    YearsInOrder(t, last);
    RenderInOrder(Fields(s), Fields(t));
    FieldsStrictlyMonotone(s, t);
  }

  lemma YearsInOrder(s: int, t: int)
    requires 0 <= s <= t
    ensures ValidStamp(Fields(s)) && ValidStamp(Fields(t))
    ensures 1970 <= Fields(s).year <= Fields(t).year
  {
    FieldsRoundTrip(s);
    FieldsRoundTrip(t);
    if s < t {
      FieldsStrictlyMonotone(s, t);
      EarlierYearFirst(Fields(s), Fields(t));
    }
  }

  lemma EarlierYearFirst(a: Stamp, b: Stamp)
    requires Before(a, b)
    ensures a.year <= b.year
  {
    BeforeFields(a, b);
  }

  /** The last second of 9999 and the first of 10000: the later one has the smaller text. */
  lemma FirstOutOfOrder()
    ensures !TextBefore(Render(Fields(LAST_FOUR_DIGIT)), Render(Fields(LAST_FOUR_DIGIT + 1)))
  {
    var a, b := Fields(LAST_FOUR_DIGIT), Fields(LAST_FOUR_DIGIT + 1);
    EndOf9999();
    RenderParts(a);
    RenderParts(b);
    FirstDigits();
    assert Render(a)[0] == '9' && Render(b)[0] == '1';
  }

  lemma FirstDigits()
    ensures Pad(9999, 4) != "" && Pad(9999, 4)[0] == '9'
    ensures Pad(10000, 4) != "" && Pad(10000, 4)[0] == '1'
  {
    assert Digits(9) == "9" && Digits(99) == "9" + "9" && Digits(999) == "99" + "9";
    assert Digits(9999) == "999" + "9";
    assert Digits(1) == "1" && Digits(10) == "1" + "0" && Digits(100) == "10" + "0";
    assert Digits(1000) == "100" + "0" && Digits(10000) == "1000" + "0";
  }

  // ----- the layout -----

  /** A number of a given width, as it is read. */
  predicate Holds(t: string, n: int) {
    IsNumeral(t) && Number(t) == n
  }

  /** The text as RFC 3339 lays it out, read part by part. */
  predicate ReadsAs(t: string, s: Stamp) {
    && |t| == 19
    && t[4] == '-' && t[7] == '-' && t[10] == 'T' && t[13] == ':' && t[16] == ':'
    && Holds(t[..4], s.year) && Holds(t[5..7], s.month) && Holds(t[8..10], s.day)
    && Holds(t[11..13], s.hour) && Holds(t[14..16], s.minute) && Holds(t[17..], s.second)
  }

  /** The fields stand where RFC 3339 has them, up to the year 9999. */
  lemma RenderReads(s: Stamp)
    requires ValidStamp(s) && 0 <= s.year <= 9999
    ensures ReadsAs(Render(s), s)
  {
    TwoDigits();
    PadIs(s.year, 4);
    PadIs(s.month, 2);
    PadIs(s.day, 2);
    PadIs(s.hour, 2);
    PadIs(s.minute, 2);
    PadIs(s.second, 2);
    Layout(Pad(s.year, 4), Pad(s.month, 2), Pad(s.day, 2), Pad(s.hour, 2), Pad(s.minute, 2), Pad(s.second, 2));
  }

  lemma Layout(y: string, m: string, d: string, h: string, i: string, s: string)
    requires |y| == 4 && |m| == |d| == |h| == |i| == |s| == 2
    ensures var t := y + "-" + m + "-" + d + "T" + h + ":" + i + ":" + s;
            && |t| == 19 && t[4] == '-' && t[7] == '-' && t[10] == 'T' && t[13] == ':' && t[16] == ':'
            && t[..4] == y && t[5..7] == m && t[8..10] == d && t[11..13] == h && t[14..16] == i && t[17..] == s
  {
    var t := y + "-" + m + "-" + d + "T" + h + ":" + i + ":" + s;
    TwoAt(t, 5, m);
    TwoAt(t, 8, d);
    TwoAt(t, 11, h);
    TwoAt(t, 14, i);
    TwoAt(t, 17, s);
  }

  lemma TwoAt(t: string, k: nat, p: string)
    requires |p| == 2 && k + 2 <= |t| && t[k] == p[0] && t[k + 1] == p[1]
    ensures t[k..k + 2] == p
  {
  }

  /** So a timestamp from the epoch on reads as a date and time that name its second. */
  lemma TimestampReads(tsMs: int) returns (s: Stamp)
    requires 0 <= tsMs && Fields(TruncDiv(tsMs, 1000)).year <= 9999
    ensures NamesInstant(s, tsMs) && ReadsAs(Render(Fields(TruncDiv(tsMs, 1000))), s)
  {
    s := Fields(TruncDiv(tsMs, 1000));
    PrintedRightIff(tsMs);
    FieldsRoundTrip(TruncDiv(tsMs, 1000));
    RenderReads(s);
  }

  // ----- the characters of a timestamp -----

  predicate IsStampText(s: string) {
    forall i | 0 <= i < |s| :: '0' <= s[i] <= ':' || s[i] == '-' || s[i] == 'T'
  }

  lemma StampTextConcat(a: string, b: string)
    requires IsStampText(a) && IsStampText(b)
    ensures IsStampText(a + b)
  {
  }

  lemma PadIsStampText(n: int, width: nat)
    ensures IsStampText(Pad(n, width))
  {
    if n < 0 {
      FilledIsStampText(-n, width - 1);
      StampTextConcat("-", ZeroFill(Digits(-n), width - 1));
    } else {
      FilledIsStampText(n, width);
    }
  }

  lemma FilledIsStampText(n: nat, width: int)
    ensures IsStampText(ZeroFill(Digits(n), width))
  {
    NumberOfDigits(n);
    ZeroFillValue(Digits(n), width);
    NumeralIsStampText(ZeroFill(Digits(n), width));
  }

  lemma NumeralIsStampText(s: string)
    requires IsNumeral(s)
    ensures IsStampText(s)
  {
  }

  lemma PartIsStampText(sep: char, n: int, rest: string)
    requires IsStampText([sep]) && IsStampText(rest)
    ensures IsStampText(Part(sep, n, rest))
  {
    PadIsStampText(n, 2);
    StampTextConcat([sep], Pad(n, 2));
    StampTextConcat([sep] + Pad(n, 2), rest);
  }

  /** A rendered timestamp, of any fields, holds digits, minus signs, colons and `T` only. */
  lemma RenderIsStampText(s: Stamp)
    ensures IsStampText(Render(s))
  {
    RenderParts(s);
    PadIsStampText(s.year, 4);
    PartIsStampText(':', s.second, "");
    PartIsStampText(':', s.minute, Part(':', s.second, ""));
    PartIsStampText('T', s.hour, Part(':', s.minute, Part(':', s.second, "")));
    PartIsStampText('-', s.day, ClockText(s));
    PartIsStampText('-', s.month, Part('-', s.day, ClockText(s)));
    StampTextConcat(Pad(s.year, 4), AfterYear(s));
  }
}
