/** Calendar dates as Python's `datetime` handles them: the proleptic Gregorian calendar, day
    numbers counted as `date.toordinal()` counts them (0001-01-01 is day 1), stepping by whole
    days as `timedelta(days=...)` does, field-wise comparison, and the `strptime`/`strftime`
    formats the scrapers use. */
module Calendar {
  import opened Common
  import opened Text

  datatype Date = Date(year: int, month: int, day: int)

  /** A date with a time of day, as `strptime` returns it. */
  datatype DateTime = DateTime(date: Date, hour: int, minute: int, second: int)

  predicate IsLeap(y: int)
  {
    y % 4 == 0 && (y % 100 != 0 || y % 400 == 0)
  }

  function DaysInYear(y: int): int
  {
    if IsLeap(y) then 366 else 365
  }

  function DaysInMonth(y: int, m: int): (n: int)
    requires 1 <= m <= 12
    ensures 28 <= n <= 31
  {
    if m == 2 then (if IsLeap(y) then 29 else 28)
    else if m == 4 || m == 6 || m == 9 || m == 11 then 30
    else 31
  }

  /** A day that exists in the calendar. */
  predicate Valid(d: Date)
  {
    1 <= d.month <= 12 && 1 <= d.day <= DaysInMonth(d.year, d.month)
  }

  /** A day `datetime` can represent: years 1 to 9999 (MINYEAR to MAXYEAR). */
  predicate InRange(d: Date)
  {
    Valid(d) && 1 <= d.year <= 9999
  }

  // ---------------------------------------------------------------- day numbers

  function DaysBeforeYear(y: int): int
  {
    var x := y - 1;
    365 * x + x / 4 - x / 100 + x / 400
  }

  /** Days in the months of year y before month m (m = 13 gives the whole year), as the
      cumulative month table plus one day after February in a leap year. */
  function DaysBeforeMonth(y: int, m: int): int
    requires 1 <= m <= 13
  {
    var table := [0, 0, 31, 59, 90, 120, 151, 181, 212, 243, 273, 304, 334, 365];
    table[m] + if m > 2 && IsLeap(y) then 1 else 0
  }

  /** `date.toordinal()`. */
  function Ordinal(d: Date): int
    requires Valid(d)
  {
    DaysBeforeYear(d.year) + DaysBeforeMonth(d.year, d.month) + d.day
  }

  lemma YearLength(y: int)
    ensures DaysBeforeYear(y + 1) == DaysBeforeYear(y) + DaysInYear(y)
  {
    var x := y - 1;
    DivStep(x, 4);
    DivStep(x, 100);
    DivStep(x, 400);
  }

  /** Adding one to x raises x / k by one exactly when x + 1 is a multiple of k. */
  lemma DivStep(x: int, k: int)
    requires k > 0
    ensures (x + 1) / k - x / k == if (x + 1) % k == 0 then 1 else 0
  {
    var q, r := x / k, x % k;
    if r == k - 1 {
      DivModUnique(x + 1, k, q + 1, 0);
    } else {
      DivModUnique(x + 1, k, q, r + 1);
    }
  }

  lemma MonthsFillYear(y: int)
    ensures DaysBeforeMonth(y, 13) == DaysInYear(y)
  {
  }

  lemma {:induction false} DaysBeforeMonthBounds(y: int, m: int)
    requires 1 <= m <= 12
    ensures DaysBeforeMonth(y, m) + DaysInMonth(y, m) <= DaysInYear(y)
    ensures forall k :: m < k <= 12 ==> DaysBeforeMonth(y, m) + DaysInMonth(y, m) <= DaysBeforeMonth(y, k)
    decreases 12 - m
  {
    if m < 12 {
      DaysBeforeMonthBounds(y, m + 1);
    } else {
      MonthsFillYear(y);
    }
  }

  lemma {:induction false} DaysBeforeYearMonotone(a: int, b: int)
    requires a <= b
    ensures DaysBeforeYear(a) + (b - a) * 365 <= DaysBeforeYear(b)
    decreases b - a
  {
    if a < b {
      DaysBeforeYearMonotone(a + 1, b);
      YearLength(a);
    }
  }

  /** A valid date's day number falls inside its own year. */
  lemma OrdinalWithinYear(d: Date)
    requires Valid(d)
    ensures DaysBeforeYear(d.year) < Ordinal(d) <= DaysBeforeYear(d.year + 1)
  {
    DaysBeforeMonthBounds(d.year, d.month);
    YearLength(d.year);
  }

  /** `date.__le__`: Python compares dates field by field. */
  predicate LessEq(a: Date, b: Date)
  {
    a.year < b.year
    || (a.year == b.year && (a.month < b.month || (a.month == b.month && a.day <= b.day)))
  }

  /** Field-wise order and day-number order agree on valid dates, so day numbers are one to
      one: two valid dates with the same day number are the same date. */
  lemma OrdinalOrder(a: Date, b: Date)
    requires Valid(a) && Valid(b)
    ensures LessEq(a, b) <==> Ordinal(a) <= Ordinal(b)
    ensures Ordinal(a) == Ordinal(b) <==> a == b
  {
    if a != b {
      if LessEq(a, b) {
        OrdinalBefore(a, b);
      } else {
        OrdinalBefore(b, a);
      }
    }
  }

  /** A date strictly before another, field by field, has a smaller day number. */
  lemma OrdinalBefore(a: Date, b: Date)
    requires Valid(a) && Valid(b) && LessEq(a, b) && a != b
    ensures Ordinal(a) < Ordinal(b)
  {
    if a.year < b.year {
      OrdinalWithinYear(a);
      OrdinalWithinYear(b);
      DaysBeforeYearMonotone(a.year + 1, b.year);
    } else if a.month < b.month {
      DaysBeforeMonthBounds(a.year, a.month);
    }
  }

  // ---------------------------------------------------------------- stepping by days

  function NextDay(d: Date): (r: Date)
    requires Valid(d)
    ensures Valid(r)
  {
    if d.day < DaysInMonth(d.year, d.month) then Date(d.year, d.month, d.day + 1)
    else if d.month < 12 then Date(d.year, d.month + 1, 1)
    else Date(d.year + 1, 1, 1)
  }

  function PrevDay(d: Date): (r: Date)
    requires Valid(d)
    ensures Valid(r)
  {
    if d.day > 1 then Date(d.year, d.month, d.day - 1)
    else if d.month > 1 then Date(d.year, d.month - 1, DaysInMonth(d.year, d.month - 1))
    else Date(d.year - 1, 12, 31)
  }

  lemma NextDayOrdinal(d: Date)
    requires Valid(d)
    ensures Ordinal(NextDay(d)) == Ordinal(d) + 1
  {
    if d.day == DaysInMonth(d.year, d.month) && d.month == 12 {
      YearLength(d.year);
      MonthsFillYear(d.year);
    }
  }

  lemma PrevDayOrdinal(d: Date)
    requires Valid(d)
    ensures Ordinal(PrevDay(d)) == Ordinal(d) - 1
  {
    if d.day == 1 && d.month == 1 {
      YearLength(d.year - 1);
      MonthsFillYear(d.year - 1);
    }
  }

  /** `d + timedelta(days=k)` on the date part, k of either sign. */
  function AddDays(d: Date, k: int): (r: Date)
    requires Valid(d)
    ensures Valid(r)
    decreases if k < 0 then -k else k
  {
    if k == 0 then d
    else if k > 0 then AddDays(NextDay(d), k - 1)
    else AddDays(PrevDay(d), k + 1)
  }

  lemma {:induction false} AddDaysOrdinal(d: Date, k: int)
    requires Valid(d)
    ensures Ordinal(AddDays(d, k)) == Ordinal(d) + k
    decreases if k < 0 then -k else k
  {
    if k > 0 {
      NextDayOrdinal(d);
      AddDaysOrdinal(NextDay(d), k - 1);
    } else if k < 0 {
      PrevDayOrdinal(d);
      AddDaysOrdinal(PrevDay(d), k + 1);
    }
  }

  // ---------------------------------------------------------------- text

  /** n as exactly `width` decimal digits, zero-padded on the left. */
  function Padded(n: nat, width: nat): (s: string)
    ensures |s| == width && AllDigits(s)
  {
    if width == 0 then [] else Padded(n / 10, width - 1) + [DigitChar(n % 10)]
  }

  lemma {:induction false} PaddedValue(n: nat, width: nat)
    ensures DigitsValue(Padded(n, width)) == n % Power10(width)
  {
    if width > 0 {
      PaddedValue(n / 10, width - 1);
      var s := Padded(n, width);
      assert s[..|s| - 1] == Padded(n / 10, width - 1);
      ModDivPower(n, width - 1);
    }
  }

  lemma ModDivPower(n: nat, k: nat)
    ensures n % (10 * Power10(k)) == 10 * ((n / 10) % Power10(k)) + n % 10
  {
    var p := Power10(k);
    var q := n / 10;
    assert n == 10 * q + n % 10;
    assert q == p * (q / p) + q % p;
    assert n == (10 * p) * (q / p) + (10 * (q % p) + n % 10);
    assert 0 <= 10 * (q % p) + n % 10 < 10 * p;
    DivModUnique(n, 10 * p, q / p, 10 * (q % p) + n % 10);
  }

  lemma DivModUnique(n: int, m: int, q: int, r: int)
    requires m > 0 && 0 <= r < m && n == m * q + r
    ensures n / m == q && n % m == r
  {
    var q', r' := n / m, n % m;
    assert m * (q - q') == r' - r;
    MulBound(m, q - q');
  }

  /** A non-zero multiple of a positive m is at least m away from zero. */
  lemma MulBound(m: int, k: int)
    requires m > 0
    ensures k >= 1 ==> m * k >= m
    ensures k <= -1 ==> m * k <= -m
  {
  }

  /** `strftime('%Y-%m-%d')`. */
  function FormatYmd(d: Date): (s: string)
    requires InRange(d)
    ensures |s| == 10
  {
    Padded(d.year, 4) + "-" + Padded(d.month, 2) + "-" + Padded(d.day, 2)
  }

  /** The number of leading ASCII digits of s, at most `limit`. */
  function DigitRun(s: string, limit: nat): (n: nat)
    ensures n <= limit && n <= |s| && AllDigits(s[..n])
    ensures n < limit && n < |s| ==> !IsDigit(s[n])
  {
    if limit == 0 || s == [] || !IsDigit(s[0]) then 0
    else
      assert s[..1 + DigitRun(s[1..], limit - 1)] == [s[0]] + s[1..][..DigitRun(s[1..], limit - 1)];
      1 + DigitRun(s[1..], limit - 1)
  }

  /** A one- or two-digit field such as `%m`, `%d`, `%H`, `%M` or `%S`: the regular
      expression `strptime` builds for each accepts exactly the values from lo to hi written
      with one digit or two (with a leading zero below ten). `%d` also accepts a space and a
      single digit. Yields the value and the text after it. */
  function SmallField(s: string, lo: int, hi: int, spacePadded: bool): Option<(int, string)>
  {
    if spacePadded && |s| >= 2 && s[0] == ' ' && '1' <= s[1] <= '9'
       && (|s| == 2 || !IsDigit(s[2])) && lo <= DigitValue(s[1]) <= hi
    then Some((DigitValue(s[1]), s[2..]))
    else
      var n := DigitRun(s, 2);
      if n == 0 then None
      else
        var v := DigitsValue(s[..n]);
        if lo <= v <= hi then Some((v, s[n..])) else None
  }

  /** `%Y`: exactly four digits. */
  function YearField(s: string): Option<(int, string)>
  {
    if DigitRun(s, 4) == 4 then Some((DigitsValue(s[..4]), s[4..])) else None
  }

  /** A literal character of the format. */
  function Literal(s: string, c: char): Option<string>
  {
    if s != [] && s[0] == c then Some(s[1..]) else None
  }

  /** A space in the format: `strptime` turns it into one or more white-space characters. */
  function Spaces(s: string): Option<string>
  {
    var n := LeadCount(s, Whitespace);
    if n == 0 then None else Some(s[n..])
  }

  /** The date `strptime` builds from its fields, or its ValueError. */
  function MakeDate(y: int, m: int, d: int): Option<Date>
  {
    if 1 <= y <= 9999 && 1 <= m <= 12 && 1 <= d <= DaysInMonth(y, m)
    then Some(Date(y, m, d)) else None
  }

  /** The `%Y-%m-%d` fields at the start of s, and the text after them. */
  function YmdFields(s: string): Option<(int, int, int, string)>
  {
    match YearField(s)
    case None => None
    case Some((y, s1)) =>
      match Literal(s1, '-')
      case None => None
      case Some(s2) =>
        match SmallField(s2, 1, 12, false)
        case None => None
        case Some((m, s3)) =>
          match Literal(s3, '-')
          case None => None
          case Some(s4) =>
            match SmallField(s4, 1, 31, true)
            case None => None
            case Some((d, s5)) => Some((y, m, d, s5))
  }

  /** The `%H:%M:%S` fields at the start of s, and the text after them. */
  function HmsFields(s: string): Option<(int, int, int, string)>
  {
    match SmallField(s, 0, 23, false)
    case None => None
    case Some((hh, s1)) =>
      match Literal(s1, ':')
      case None => None
      case Some(s2) =>
        match MsFields(s2)
        case None => None
        case Some((mm, ss, rest)) => Some((hh, mm, ss, rest))
  }

  /** The `%M:%S` fields. `%S` also admits 60 and 61, which the datetime constructor rejects
      later. */
  function MsFields(s: string): Option<(int, int, string)>
  {
    match SmallField(s, 0, 59, false)
    case None => None
    case Some((mm, s1)) =>
      match Literal(s1, ':')
      case None => None
      case Some(s2) =>
        match SmallField(s2, 0, 61, false)
        case None => None
        case Some((ss, rest)) => Some((mm, ss, rest))
  }

  /** `datetime.strptime(s, '%Y-%m-%d')`; the time of day is midnight. */
  function ParseYmd(s: string): (r: Option<Date>)
    ensures r.Some? ==> InRange(r.value)
  {
    match YmdFields(s)
    case None => None
    case Some((y, m, d, rest)) => if rest != [] then None else MakeDate(y, m, d)
  }

  /** `datetime.strptime(s, '%Y-%m-%d %H:%M:%S')`. */
  function ParseYmdHms(s: string): (r: Option<DateTime>)
    ensures r.Some? ==> InRange(r.value.date)
    ensures r.Some? ==> 0 <= r.value.hour <= 23 && 0 <= r.value.minute <= 59
                        && 0 <= r.value.second <= 59
  {
    match YmdFields(s)
    case None => None
    case Some((y, m, d, s1)) =>
      match Spaces(s1)
      case None => None
      case Some(s2) =>
        match HmsFields(s2)
        case None => None
        case Some((hh, mm, ss, rest)) =>
          if rest != [] || ss > 59 then None
          else
            match MakeDate(y, m, d)
            case None => None
            case Some(date) => Some(DateTime(date, hh, mm, ss))
  }

  /** DigitRun stops at its limit when the text starts with that many digits. */
  lemma {:induction false} DigitRunFull(s: string, limit: nat)
    requires limit <= |s| && AllDigits(s[..limit])
    ensures DigitRun(s, limit) == limit
  {
    if limit > 0 {
      assert IsDigit(s[..limit][0]);
      assert s[1..][..limit - 1] == s[1..limit];
      DigitRunFull(s[1..], limit - 1);
    }
  }

  lemma YearFieldPadded(y: nat, rest: string)
    requires y < 10000
    ensures YearField(Padded(y, 4) + rest) == Some((y, rest))
  {
    var s := Padded(y, 4) + rest;
    assert s[..4] == Padded(y, 4);
    assert s[4..] == rest;
    DigitRunFull(s, 4);
    PaddedFull(y, 4);
  }

  /** A number with at most `width` digits is written in full. */
  lemma PaddedFull(n: nat, width: nat)
    requires n < Power10(width)
    ensures DigitsValue(Padded(n, width)) == n
  {
    PaddedValue(n, width);
  }

  lemma SmallFieldPadded(v: nat, rest: string, lo: int, hi: int, spacePadded: bool)
    requires lo <= v <= hi && v < 100
    ensures SmallField(Padded(v, 2) + rest, lo, hi, spacePadded) == Some((v, rest))
  {
    var s := Padded(v, 2) + rest;
    assert s[..2] == Padded(v, 2);
    assert s[2..] == rest;
    assert IsDigit(s[0]);
    DigitRunFull(s, 2);
    assert Power10(2) == 100;
    PaddedFull(v, 2);
  }

  /** The fields of a date written by `strftime('%Y-%m-%d')`, before any text. */
  lemma YmdFieldsFormatted(d: Date, rest: string)
    requires InRange(d)
    ensures YmdFields(FormatYmd(d) + rest) == Some((d.year, d.month, d.day, rest))
  {
    var t3 := "-" + (Padded(d.day, 2) + rest);
    var t1 := "-" + (Padded(d.month, 2) + t3);
    assert FormatYmd(d) + rest == Padded(d.year, 4) + t1;
    YmdFieldsPadded(d.year, d.month, d.day, rest);
  }

  lemma YmdFieldsPadded(y: nat, m: nat, d: nat, rest: string)
    requires y <= 9999 && 1 <= m <= 12 && 1 <= d <= 31
    ensures YmdFields(Padded(y, 4) + ("-" + (Padded(m, 2) + ("-" + (Padded(d, 2) + rest)))))
         == Some((y, m, d, rest))
  {
    var t3 := "-" + (Padded(d, 2) + rest);
    var t1 := "-" + (Padded(m, 2) + t3);
    YearFieldPadded(y, t1);
    assert t1[1..] == Padded(m, 2) + t3;
    SmallFieldPadded(m, t3, 1, 12, false);
    assert t3[1..] == Padded(d, 2) + rest;
    SmallFieldPadded(d, rest, 1, 31, true);
  }

  /** Parsing what `strftime('%Y-%m-%d')` wrote gives back the same date. */
  lemma ParseFormatYmd(d: Date)
    requires InRange(d)
    ensures ParseYmd(FormatYmd(d)) == Some(d)
  {
    YmdFieldsFormatted(d, "");
    assert FormatYmd(d) + "" == FormatYmd(d);
    assert MakeDate(d.year, d.month, d.day) == Some(d);
  }

  /** The fields of a time written as `%H:%M:%S`, before any text. */
  lemma HmsFieldsFormatted(hh: nat, mm: nat, ss: nat, rest: string)
    requires hh <= 23 && mm <= 59 && ss <= 59
    ensures HmsFields(Padded(hh, 2) + (":" + (Padded(mm, 2) + (":" + (Padded(ss, 2) + rest)))))
         == Some((hh, mm, ss, rest))
  {
    var tail := Padded(mm, 2) + (":" + (Padded(ss, 2) + rest));
    SmallFieldPadded(hh, ":" + tail, 0, 23, false);
    assert (":" + tail)[1..] == tail;
    MsFieldsFormatted(mm, ss, rest);
  }

  lemma MsFieldsFormatted(mm: nat, ss: nat, rest: string)
    requires mm <= 59 && ss <= 59
    ensures MsFields(Padded(mm, 2) + (":" + (Padded(ss, 2) + rest))) == Some((mm, ss, rest))
  {
    var t1 := ":" + (Padded(ss, 2) + rest);
    SmallFieldPadded(mm, t1, 0, 59, false);
    assert t1[1..] == Padded(ss, 2) + rest;
    SmallFieldPadded(ss, rest, 0, 61, false);
  }

  /** A timestamp written as `%Y-%m-%d %H:%M:%S` reads back as the same date and time. */
  lemma ParseYmdHmsFormatted(d: Date, hh: nat, mm: nat, ss: nat)
    requires InRange(d) && hh <= 23 && mm <= 59 && ss <= 59
    ensures ParseYmdHms(FormatYmd(d) + " " + Padded(hh, 2) + ":" + Padded(mm, 2) + ":" + Padded(ss, 2))
         == Some(DateTime(d, hh, mm, ss))
  {
    var time := Padded(hh, 2) + (":" + (Padded(mm, 2) + (":" + (Padded(ss, 2) + ""))));
    Regroup(FormatYmd(d), " ", Padded(hh, 2), ":", Padded(mm, 2), ":", Padded(ss, 2));
    YmdFieldsFormatted(d, " " + time);
    SpacesSingle(time);
    HmsFieldsFormatted(hh, mm, ss, "");
    ParseYmdHmsSteps(FormatYmd(d) + (" " + time), d.year, d.month, d.day, " " + time, time,
                     hh, mm, ss, d);
  }

  /** ParseYmdHms from the results of its stages. */
  lemma ParseYmdHmsSteps(text: string, y: int, m: int, day: int, s1: string, s2: string,
                         hh: int, mm: int, ss: int, date: Date)
    requires YmdFields(text) == Some((y, m, day, s1)) && Spaces(s1) == Some(s2)
    requires HmsFields(s2) == Some((hh, mm, ss, "")) && ss <= 59
    requires MakeDate(y, m, day) == Some(date)
    ensures ParseYmdHms(text) == Some(DateTime(date, hh, mm, ss))
  {
  }

  /** One space before text that does not start with white space. */
  lemma SpacesSingle(t: string)
    requires t != [] && IsDigit(t[0])
    ensures Spaces(" " + t) == Some(t)
  {
    assert LeadCount(" " + t, Whitespace) == 1 && (" " + t)[1..] == t;
  }

  lemma Regroup(a: string, b: string, c: string, d: string, e: string, f: string, g: string)
    ensures a + b + c + d + e + f + g == a + (b + (c + (d + (e + (f + (g + ""))))))
  {
    assert g + "" == g;
  }
}
