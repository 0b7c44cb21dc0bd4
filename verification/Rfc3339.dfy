/** Timestamps as the session store keeps them: UTC at second precision in the form of RFC 3339
    (sections 5.1 and 5.6), and the theorem that their text order is their order in time.
    An instant is a number of seconds since the start of year 0. */
module Rfc3339 {
  import opened Text
  import opened Decimals

  // ---------- the calendar ----------

  predicate IsLeap(y: nat) { y % 4 == 0 && (y % 100 != 0 || y % 400 == 0) }

  function DaysInYear(y: nat): nat { if IsLeap(y) then 366 else 365 }

  function DaysInMonth(y: nat, m: nat): nat {
    if m == 2 then (if IsLeap(y) then 29 else 28)
    else if m == 4 || m == 6 || m == 9 || m == 11 then 30
    else 31
  }

  function DaysBeforeYear(y: nat): nat {
    if y == 0 then 0 else DaysBeforeYear(y - 1) + DaysInYear(y - 1)
  }

  /** Days of the year before the first of month m (1 to 13). */
  function DaysBeforeMonth(y: nat, m: nat): nat
    requires m >= 1
  {
    if m == 1 then 0 else DaysBeforeMonth(y, m - 1) + DaysInMonth(y, m - 1)
  }

  lemma TwelveMonths(y: nat)
    ensures DaysBeforeMonth(y, 13) == DaysInYear(y)
  {
    var leap := if IsLeap(y) then 1 else 0;
    assert DaysBeforeMonth(y, 2) == 31;
    assert DaysBeforeMonth(y, 3) == 59 + leap;
    assert DaysBeforeMonth(y, 4) == 90 + leap;
    assert DaysBeforeMonth(y, 5) == 120 + leap;
    assert DaysBeforeMonth(y, 6) == 151 + leap;
    assert DaysBeforeMonth(y, 7) == 181 + leap;
    assert DaysBeforeMonth(y, 8) == 212 + leap;
    assert DaysBeforeMonth(y, 9) == 243 + leap;
    assert DaysBeforeMonth(y, 10) == 273 + leap;
    assert DaysBeforeMonth(y, 11) == 304 + leap;
    assert DaysBeforeMonth(y, 12) == 334 + leap;
  }

  /** The year a day falls in, searched from year y. */
  function YearFrom(y: nat, day: nat): (r: nat)
    requires DaysBeforeYear(y) <= day
    ensures DaysBeforeYear(r) <= day < DaysBeforeYear(r + 1)
    decreases day - DaysBeforeYear(y)
  {
    if day < DaysBeforeYear(y + 1) then y else YearFrom(y + 1, day)
  }

  function MonthFrom(y: nat, m: nat, day: nat): (r: nat)
    requires 1 <= m <= 12 && DaysBeforeMonth(y, m) <= day < DaysBeforeMonth(y, 13)
    ensures m <= r <= 12 && DaysBeforeMonth(y, r) <= day < DaysBeforeMonth(y, r + 1)
    decreases 13 - m
  {
    if day < DaysBeforeMonth(y, m + 1) then m else MonthFrom(y, m + 1, day)
  }

  datatype Civil = Civil(year: nat, month: nat, day: nat, hour: nat, minute: nat, second: nat)

  predicate Valid(c: Civil) {
    1 <= c.month <= 12 && 1 <= c.day <= DaysInMonth(c.year, c.month) && c.hour < 24 && c.minute < 60 && c.second < 60
  }

  function DayNumber(c: Civil): nat
    requires Valid(c)
  {
    DaysBeforeYear(c.year) + DaysBeforeMonth(c.year, c.month) + c.day - 1
  }

  function SecondOfDay(c: Civil): nat { c.hour * 3600 + c.minute * 60 + c.second }

  function FromCivil(c: Civil): nat
    requires Valid(c)
  {
    DayNumber(c) * 86400 + SecondOfDay(c)
  }

  function ToCivil(t: nat): (c: Civil)
    ensures Valid(c)
  {
    var day, s := t / 86400, t % 86400;
    var y := YearFrom(0, day);
    TwelveMonths(y);
    var rest := day - DaysBeforeYear(y);
    var m := MonthFrom(y, 1, rest);
    Civil(y, m, rest - DaysBeforeMonth(y, m) + 1, s / 3600, s / 60 % 60, s % 60)
  }

  /** The calendar conversion loses nothing. */
  lemma CivilRoundTrip(t: nat)
    ensures FromCivil(ToCivil(t)) == t
  {
    var s := t % 86400;
    assert s / 60 == s / 3600 * 60 + s / 60 % 60;
    TwelveMonths(ToCivil(t).year);
  }

  // ---------- order of calendar values ----------

  function Before(a: Civil, b: Civil): bool {
    if a.year != b.year then a.year < b.year
    else if a.month != b.month then a.month < b.month
    else if a.day != b.day then a.day < b.day
    else if a.hour != b.hour then a.hour < b.hour
    else if a.minute != b.minute then a.minute < b.minute
    else a.second < b.second
  }

  lemma {:induction false} YearsGrow(a: nat, b: nat)
    requires a < b
    ensures DaysBeforeYear(a) + DaysInYear(a) <= DaysBeforeYear(b)
    decreases b
  {
    if a + 1 < b { YearsGrow(a, b - 1); }
  }

  lemma {:induction false} MonthsGrow(y: nat, a: nat, b: nat)
    requires 1 <= a < b
    ensures DaysBeforeMonth(y, a) + DaysInMonth(y, a) <= DaysBeforeMonth(y, b)
    decreases b
  {
    if a + 1 < b { MonthsGrow(y, a, b - 1); }
  }

  lemma DayInsideYear(c: Civil)
    requires Valid(c)
    ensures DaysBeforeYear(c.year) <= DayNumber(c) < DaysBeforeYear(c.year) + DaysInYear(c.year)
  {
    MonthsGrow(c.year, c.month, 13);
    TwelveMonths(c.year);
  }

  lemma BeforeIsEarlier(a: Civil, b: Civil)
    requires Valid(a) && Valid(b) && Before(a, b)
    ensures FromCivil(a) < FromCivil(b)
  {
    DayInsideYear(a);
    if a.year != b.year {
      YearsGrow(a.year, b.year);
      DayInsideYear(b);
      assert DayNumber(a) < DayNumber(b);
    } else if a.month != b.month {
      MonthsGrow(a.year, a.month, b.month);
      assert DayNumber(a) < DayNumber(b);
    }
  }

  /** Calendar order is order in time. */
  lemma CivilOrder(s: nat, t: nat)
    ensures Before(ToCivil(s), ToCivil(t)) <==> s < t
  {
    var a, b := ToCivil(s), ToCivil(t);
    CivilRoundTrip(s);
    CivilRoundTrip(t);
    if Before(a, b) {
      BeforeIsEarlier(a, b);
    } else if a != b {
      BeforeIsEarlier(b, a);
    }
  }

  // ---------- decimal fields of fixed width ----------

  /** At least `width` digits, padded with zeros. */
  function Padded(n: nat, width: nat): string {
    if width <= 1 && n < 10 then [Digit(n)]
    else Padded(n / 10, if width == 0 then 0 else width - 1) + [Digit(n % 10)]
  }

  function Pow10(w: nat): nat { if w == 0 then 1 else 10 * Pow10(w - 1) }

  lemma {:induction false} PaddedLength(n: nat, width: nat)
    requires width >= 1 && n < Pow10(width)
    ensures |Padded(n, width)| == width
  {
    if width > 1 { PaddedLength(n / 10, width - 1); }
  }

  /** memcmp, which is how SQLite compares TEXT. */
  predicate TextLess(a: string, b: string)
    decreases |a|
  {
    b != "" && (a == "" || a[0] < b[0] || (a[0] == b[0] && TextLess(a[1..], b[1..])))
  }

  lemma {:induction false} TextLessConcat(a: string, a': string, b: string, b': string)
    requires |a| == |b|
    ensures TextLess(a + a', b + b') <==> TextLess(a, b) || (a == b && TextLess(a', b'))
    decreases |a|
  {
    if a == "" {
      assert a + a' == a' && b + b' == b';
    } else {
      assert (a + a')[1..] == a[1..] + a' && (b + b')[1..] == b[1..] + b';
      TextLessConcat(a[1..], a', b[1..], b');
      assert a == b <==> a[0] == b[0] && a[1..] == b[1..] by {
        assert a == [a[0]] + a[1..] && b == [b[0]] + b[1..];
      }
    }
  }

  lemma DigitOrder(c: nat, d: nat)
    requires c < 10 && d < 10
    ensures TextLess([Digit(c)], [Digit(d)]) <==> c < d
    ensures Digit(c) == Digit(d) <==> c == d
  {
  }

  /** Fixed-width fields compare as text as they compare as numbers. */
  lemma {:induction false} PaddedOrder(a: nat, b: nat, width: nat)
    requires width >= 1 && a < Pow10(width) && b < Pow10(width)
    ensures TextLess(Padded(a, width), Padded(b, width)) <==> a < b
    ensures Padded(a, width) == Padded(b, width) <==> a == b
  {
    if width == 1 {
      DigitOrder(a, b);
    } else {
      var a', b' := Padded(a / 10, width - 1), Padded(b / 10, width - 1);
      PaddedOrder(a / 10, b / 10, width - 1);
      PaddedLength(a / 10, width - 1);
      PaddedLength(b / 10, width - 1);
      DigitOrder(a % 10, b % 10);
      TextLessConcat(a', [Digit(a % 10)], b', [Digit(b % 10)]);
      assert a' + [Digit(a % 10)] == b' + [Digit(b % 10)] ==> a' == b' && Digit(a % 10) == Digit(b % 10) by {
        if a' + [Digit(a % 10)] == b' + [Digit(b % 10)] {
          assert (a' + [Digit(a % 10)])[..width - 1] == a' && (b' + [Digit(b % 10)])[..width - 1] == b';
          assert (a' + [Digit(a % 10)])[width - 1] == Digit(a % 10)
                 && (b' + [Digit(b % 10)])[width - 1] == Digit(b % 10);
        }
      }
    }
  }

  // ---------- printing ----------

  /** A field, its separator and what follows. */
  function Field(n: nat, width: nat, sep: char, rest: string): string {
    Padded(n, width) + ([sep] + rest)
  }

  function Print(c: Civil): string {
    Field(c.year, 4, '-', Field(c.month, 2, '-', Field(c.day, 2, 'T',
      Field(c.hour, 2, ':', Field(c.minute, 2, ':', Field(c.second, 2, 'Z', ""))))))
  }

  /** Format(time.RFC3339) of a UTC instant. */
  function Format(t: nat): string { Print(ToCivil(t)) }

  predicate InRange(t: nat) { ToCivil(t).year <= 9999 }

  lemma FieldOrder(a: nat, b: nat, width: nat, sep: char, x: string, y: string)
    requires width >= 1 && a < Pow10(width) && b < Pow10(width)
    ensures TextLess(Field(a, width, sep, x), Field(b, width, sep, y)) <==> a < b || (a == b && TextLess(x, y))
  {
    PaddedOrder(a, b, width);
    PaddedLength(a, width);
    PaddedLength(b, width);
    TextLessConcat(Padded(a, width), [sep] + x, Padded(b, width), [sep] + y);
    assert ([sep] + x)[1..] == x && ([sep] + y)[1..] == y;
  }

  predicate Printable(c: Civil) { Valid(c) && c.year <= 9999 }

  lemma DaysFit(y: nat, m: nat)
    ensures DaysInMonth(y, m) <= 31
    ensures Pow10(2) == 100 && Pow10(4) == 10000
  {
    assert Pow10(1) == 10;
    assert Pow10(3) == 1000;
  }

  lemma PrintOrder(a: Civil, b: Civil)
    requires Printable(a) && Printable(b)
    ensures TextLess(Print(a), Print(b)) <==> Before(a, b)
  {
    DaysFit(a.year, a.month);
    DaysFit(b.year, b.month);
    var a6, b6 := Field(a.second, 2, 'Z', ""), Field(b.second, 2, 'Z', "");
    var a5, b5 := Field(a.minute, 2, ':', a6), Field(b.minute, 2, ':', b6);
    var a4, b4 := Field(a.hour, 2, ':', a5), Field(b.hour, 2, ':', b5);
    var a3, b3 := Field(a.day, 2, 'T', a4), Field(b.day, 2, 'T', b4);
    var a2, b2 := Field(a.month, 2, '-', a3), Field(b.month, 2, '-', b3);
    FieldOrder(a.second, b.second, 2, 'Z', "", "");
    FieldOrder(a.minute, b.minute, 2, ':', a6, b6);
    FieldOrder(a.hour, b.hour, 2, ':', a5, b5);
    FieldOrder(a.day, b.day, 2, 'T', a4, b4);
    FieldOrder(a.month, b.month, 2, '-', a3, b3);
    FieldOrder(a.year, b.year, 4, '-', a2, b2);
  }

  /** In years 0 to 9999 the order of the texts is the order of the instants. */
  lemma TextOrderIsTimeOrder(s: nat, t: nat)
    requires InRange(s) && InRange(t)
    ensures TextLess(Format(s), Format(t)) <==> s < t
  {
    PrintOrder(ToCivil(s), ToCivil(t));
    CivilOrder(s, t);
  }

  // ---------- parsing ----------

  /** Reads `width` digits. */
  function ReadDigits(s: string, width: nat, value: nat): Option<(nat, string)>
    decreases width
  {
    if width == 0 then Some((value, s))
    else if s == "" || DigitValue(s[0]) == None then None
    else ReadDigits(s[1..], width - 1, value * 10 + DigitValue(s[0]).value)
  }

  function ReadField(s: string, width: nat, sep: char): Option<(nat, string)> {
    match ReadDigits(s, width, 0)
    case None => None
    case Some((n, rest)) => if rest != "" && rest[0] == sep then Some((n, rest[1..])) else None
  }

  function ParseCivil(s: string): Option<Civil> {
    match ReadField(s, 4, '-')
    case None => None
    case Some((year, s1)) =>
      match ReadField(s1, 2, '-')
      case None => None
      case Some((month, s2)) =>
        match ReadField(s2, 2, 'T')
        case None => None
        case Some((day, s3)) =>
          match ReadField(s3, 2, ':')
          case None => None
          case Some((hour, s4)) =>
            match ReadField(s4, 2, ':')
            case None => None
            case Some((minute, s5)) =>
              match ReadField(s5, 2, 'Z')
              case None => None
              case Some((second, s6)) =>
                var c := Civil(year, month, day, hour, minute, second);
                if s6 == "" && Valid(c) then Some(c) else None
  }

  /** Parse(time.RFC3339), on the UTC form without fraction that Format prints. */
  function Parse(s: string): Option<nat> {
    match ParseCivil(s)
    case None => None
    case Some(c) => Some(FromCivil(c))
  }

  lemma {:induction false} ReadDigitsConcat(a: string, b: string, m: nat, n: nat, value: nat)
    requires ReadDigits(a + b, m, value).Some? && |a| == m
    ensures ReadDigits(a + b, m + n, value) ==
            ReadDigits(ReadDigits(a + b, m, value).value.1, n, ReadDigits(a + b, m, value).value.0)
    decreases m
  {
    if m > 0 {
      assert (a + b)[1..] == a[1..] + b;
      ReadDigitsConcat(a[1..], b, m - 1, n, value * 10 + DigitValue(a[0]).value);
    }
  }

  lemma {:induction false} ReadPadded(n: nat, width: nat, rest: string)
    requires width >= 1 && n < Pow10(width)
    ensures ReadDigits(Padded(n, width) + rest, width, 0) == Some((n, rest))
    decreases width
  {
    PaddedLength(n, width);
    if width == 1 {
      DigitBack(n);
      assert ([Digit(n)] + rest)[1..] == rest;
    } else {
      var high, low := Padded(n / 10, width - 1), [Digit(n % 10)] + rest;
      PaddedLength(n / 10, width - 1);
      ReadPadded(n / 10, width - 1, low);
      assert Padded(n, width) + rest == high + low;
      ReadDigitsConcat(high, low, width - 1, 1, 0);
      DigitBack(n % 10);
      assert low[1..] == rest;
    }
  }

  lemma ReadFieldBack(n: nat, width: nat, sep: char, rest: string)
    requires width >= 1 && n < Pow10(width)
    ensures ReadField(Field(n, width, sep, rest), width, sep) == Some((n, rest))
  {
    ReadPadded(n, width, [sep] + rest);
    assert ([sep] + rest)[1..] == rest;
  }

  lemma ParsePrinted(c: Civil)
    requires Printable(c)
    ensures ParseCivil(Print(c)) == Some(c)
  {
    DaysFit(c.year, c.month);
    var c6 := Field(c.second, 2, 'Z', "");
    var c5 := Field(c.minute, 2, ':', c6);
    var c4 := Field(c.hour, 2, ':', c5);
    var c3 := Field(c.day, 2, 'T', c4);
    var c2 := Field(c.month, 2, '-', c3);
    ReadFieldBack(c.second, 2, 'Z', "");
    ReadFieldBack(c.minute, 2, ':', c6);
    ReadFieldBack(c.hour, 2, ':', c5);
    ReadFieldBack(c.day, 2, 'T', c4);
    ReadFieldBack(c.month, 2, '-', c3);
    ReadFieldBack(c.year, 4, '-', c2);
  }

  // ---------- five-digit years ----------

  lemma {:induction false} PaddedDigits(n: nat, width: nat, k: nat)
    requires k < |Padded(n, width)|
    ensures '0' <= Padded(n, width)[k] <= '9'
    decreases n, width
  {
    if !(width <= 1 && n < 10) {
      var high := Padded(n / 10, if width == 0 then 0 else width - 1);
      if k < |high| {
        PaddedDigits(n / 10, if width == 0 then 0 else width - 1, k);
      }
    }
  }

  lemma {:induction false} PaddedLong(n: nat, width: nat)
    requires width >= 1 && n >= Pow10(width)
    ensures |Padded(n, width)| > width
  {
    if width > 1 {
      PaddedLong(n / 10, width - 1);
    } else {
      assert |Padded(n / 10, 0)| > 0;
    }
  }

  lemma {:induction false} ReadDigitsRest(s: string, width: nat, value: nat)
    requires ReadDigits(s, width, value).Some?
    ensures width <= |s| && ReadDigits(s, width, value).value.1 == s[width..]
    decreases width
  {
    if width > 0 {
      ReadDigitsRest(s[1..], width - 1, value * 10 + DigitValue(s[0]).value);
    }
  }

  lemma LongYearUnread(c: Civil)
    requires c.year > 9999
    ensures ParseCivil(Print(c)) == None
  {
    DaysFit(c.year, c.month);
    var s := Print(c);
    PaddedLong(c.year, 4);
    PaddedDigits(c.year, 4, 4);
    assert s[4] == Padded(c.year, 4)[4];
    if ReadDigits(s, 4, 0).Some? {
      ReadDigitsRest(s, 4, 0);
    }
  }

  /** Parse undoes Format in years 0 to 9999, and only there. */
  lemma ParseFormat(t: nat)
    ensures Parse(Format(t)) == if InRange(t) then Some(t) else None
  {
    CivilRoundTrip(t);
    if InRange(t) {
      ParsePrinted(ToCivil(t));
    } else {
      LongYearUnread(ToCivil(t));
    }
  }

  // ---------- the calendar is the Gregorian one ----------

  /** The lengths of the months. */
  lemma MonthLengths(y: nat, m: nat)
    requires 1 <= m <= 12
    ensures DaysInMonth(y, m) == [31, if IsLeap(y) then 29 else 28, 31, 30, 31, 30, 31, 31, 30, 31, 30, 31][m - 1]
  {
  }

  lemma EveryFourth(y: nat)
    ensures (y + 4) / 4 == (y + 3) / 4 + (if y % 4 == 0 then 1 else 0)
  {
  }

  lemma EveryHundredth(y: nat)
    ensures (y + 100) / 100 == (y + 99) / 100 + (if y % 100 == 0 then 1 else 0)
  {
  }

  lemma EveryFourHundredth(y: nat)
    ensures (y + 400) / 400 == (y + 399) / 400 + (if y % 400 == 0 then 1 else 0)
  {
  }

  lemma Hundreds(q: nat)
    ensures (400 * q) % 100 == 0
  {
  }

  lemma Fours(q: nat)
    ensures (100 * q) % 4 == 0
  {
  }

  lemma Divides(y: nat)
    ensures y % 400 == 0 ==> y % 100 == 0
    ensures y % 100 == 0 ==> y % 4 == 0
  {
    Hundreds(y / 400);
    Fours(y / 100);
  }

  /** The leap years before year y. */
  function LeapYears(y: nat): int { (y + 3) / 4 - (y + 99) / 100 + (y + 399) / 400 }

  lemma LeapYearsNext(y: nat)
    ensures LeapYears(y + 1) == LeapYears(y) + (if IsLeap(y) then 1 else 0)
  {
    EveryFourth(y);
    EveryHundredth(y);
    EveryFourHundredth(y);
    Divides(y);
  }

  /** A leap day every fourth year, but not every hundredth, but every four hundredth. */
  lemma {:induction false} YearsCounted(y: nat)
    ensures DaysBeforeYear(y) == 365 * y + ((y + 3) / 4 - (y + 99) / 100 + (y + 399) / 400)
  {
    if y > 0 {
      YearsCounted(y - 1);
      LeapYearsNext(y - 1);
      assert LeapYears(y - 1 + 1) == LeapYears(y);
    }
  }

  /** The calendar conversion is onto: every calendar value is that of its instant. */
  lemma CivilBack(c: Civil)
    requires Valid(c)
    ensures ToCivil(FromCivil(c)) == c
  {
    var t := FromCivil(c);
    CivilRoundTrip(t);
    if Before(ToCivil(t), c) {
      BeforeIsEarlier(ToCivil(t), c);
    } else if ToCivil(t) != c {
      BeforeIsEarlier(c, ToCivil(t));
    }
  }

  lemma EpochFields()
    ensures Padded(1970, 4) == "1970" && Padded(1, 2) == "01" && Padded(0, 2) == "00"
  {
    assert Padded(1, 1) == "1";
    assert Padded(19, 2) == "19";
    assert Padded(197, 3) == "197";
    assert Padded(0, 1) == "0";
  }

  const UNIX_EPOCH := 62_167_219_200

  lemma EpochYear(y: nat)
    requires 1969 < y < 1971
    ensures DaysBeforeYear(y) == 719_528
  {
    YearsCounted(y);
  }

  lemma EpochDay(c: Civil)
    requires Valid(c) && 1969 < c.year < 1971 && c.month == 1 && c.day == 1
    ensures DayNumber(c) == 719_528
  {
    EpochYear(c.year);
  }

  lemma EpochIsValid(c: Civil)
    requires c.month == 1 && c.day == 1 && c.hour == 0 && c.minute == 0 && c.second == 0
    ensures Valid(c) && SecondOfDay(c) == 0
  {
  }

  lemma DaysToSeconds(c: Civil, day: nat)
    requires Valid(c) && DayNumber(c) == day && SecondOfDay(c) == 0
    ensures FromCivil(c) == day * 86400
  {
    assert DayNumber(c) * 86400 + SecondOfDay(c) == day * 86400;
  }

  lemma InstantIsThat(c: Civil, t: nat)
    requires Valid(c) && FromCivil(c) == t
    ensures ToCivil(t) == c && Format(t) == Print(c)
  {
    CivilBack(c);
  }

  lemma EpochText(c: Civil)
    requires 1969 < c.year < 1971 && c.month == 1 && c.day == 1 && c.hour == 0 && c.minute == 0 && c.second == 0
    ensures Print(c) == "1970-01-01T00:00:00Z"
  {
    EpochFields();
    assert Field(0, 2, 'Z', "") == "00Z";
    assert Field(0, 2, ':', "00Z") == "00:00Z";
    assert Field(0, 2, ':', "00:00Z") == "00:00:00Z";
    assert Field(1, 2, 'T', "00:00:00Z") == "01T00:00:00Z";
    assert Field(1, 2, '-', "01T00:00:00Z") == "01-01T00:00:00Z";
    assert Field(1970, 4, '-', "01-01T00:00:00Z") == "1970-01-01T00:00:00Z";
  }

  /** The start of 1970, in seconds from the start of year 0, and its text. */
  lemma UnixEpoch(t: nat, c: Civil)
    requires 1969 < c.year < 1971 && c.month == 1 && c.day == 1 && c.hour == 0 && c.minute == 0 && c.second == 0
    requires t == UNIX_EPOCH
    ensures ToCivil(t) == c && Format(t) == "1970-01-01T00:00:00Z"
  {
    EpochIsValid(c);
    EpochDay(c);
    var day := 719_528;
    DaysToSeconds(c, day);
    InstantIsThat(c, t);
    EpochText(c);
  }
}
