/** The date helpers of `src/lib/date-utils.ts`, over the part of JavaScript's
    `Date` they use: the local calendar date (`getFullYear`, `getMonth`,
    `getDate`) and the constructor `new Date(year, monthIndex, day)` with its
    overflow normalisation. Times of day and time zones are not modelled. */
module Dates {
  import opened Basics
  import opened Strings
  import Seqs

  /** A local calendar date: `getFullYear()`, `getMonth() + 1`, `getDate()`. */
  datatype Date = Date(year: int, month: int, day: int)

  /** Gregorian leap years (also for years before 1582 and below 1, as `Date` does). */
  predicate IsLeapYear(y: int) {
    (y % 4 == 0 && y % 100 != 0) || y % 400 == 0
  }

  function DaysInMonth(y: int, m: int): (n: int)
    requires 1 <= m <= 12
    ensures m == 2 ==> (n == 29 <==> IsLeapYear(y)) && (n == 28 <==> !IsLeapYear(y))
    ensures m != 2 ==> (n == 30 <==> m == 4 || m == 6 || m == 9 || m == 11)
    ensures m != 2 ==> (n == 31 <==> !(m == 4 || m == 6 || m == 9 || m == 11))
  {
    if m == 2 then (if IsLeapYear(y) then 29 else 28)
    else if m == 4 || m == 6 || m == 9 || m == 11 then 30
    else 31
  }

  predicate ValidDate(d: Date) {
    1 <= d.month <= 12 && 1 <= d.day <= DaysInMonth(d.year, d.month)
  }

  /** The `Date(year, monthIndex, day)` constructor reads a year 0..99 as 1900..1999. */
  function ConstructorYear(y: int): int {
    if 0 <= y <= 99 then 1900 + y else y
  }

  /** Moves a day number that lies outside month `m` of year `y` into the month
      it falls in, stepping one month at a time, as `Date` does on overflow. */
  function Normalize(y: int, m: int, d: int): (r: Date)
    requires 1 <= m <= 12
    ensures ValidDate(r)
    ensures 1 <= d <= DaysInMonth(y, m) ==> r == Date(y, m, d)
    ensures d < 1 ==> r.year * 12 + r.month < y * 12 + m
    ensures d > DaysInMonth(y, m) ==> r.year * 12 + r.month > y * 12 + m
    decreases (if d < 1 then 1 - d else 0), (if d < 1 then 0 else d)
  {
    if d < 1 then
      var py := if m == 1 then y - 1 else y;
      var pm := if m == 1 then 12 else m - 1;
      Normalize(py, pm, d + DaysInMonth(py, pm))
    else if d > DaysInMonth(y, m) then
      var ny := if m == 12 then y + 1 else y;
      var nm := if m == 12 then 1 else m + 1;
      Normalize(ny, nm, d - DaysInMonth(y, m))
    else
      Date(y, m, d)
  }

  /** `new Date(year, monthIndex, day)` read back as a calendar date: the month
      index overflows into the year (floor division), then the day into the
      neighbouring months. */
  function MakeDate(year: int, monthIndex: int, day: int): (r: Date)
    ensures ValidDate(r)
    ensures var y, m := ConstructorYear(year) + monthIndex / 12, monthIndex % 12 + 1;
      1 <= day <= DaysInMonth(y, m) ==> r == Date(y, m, day)
  {
    Normalize(ConstructorYear(year) + monthIndex / 12, monthIndex % 12 + 1, day)
  }

  /** A date the constructor needs no normalisation for comes back unchanged. */
  lemma MakeDateOfValid(d: Date)
    requires ValidDate(d) && !(0 <= d.year <= 99)
    ensures MakeDate(d.year, d.month - 1, d.day) == d
  {
  }

  /** Day 0 of month index `m` is the last day of calendar month `m`. */
  lemma LastDayOfMonth(year: int, month: int)
    requires 1 <= month <= 12
    ensures MakeDate(year, month, 0) == Date(ConstructorYear(year), month, DaysInMonth(ConstructorYear(year), month))
  {
  }

  /** `dateToString`: `<year>-<MM>-<DD>`, month (1-based) and day zero-padded.
      A valid date from year 0 on prints as text that splits at `-` into the
      year's digits and two two-digit fields that read back as the month and
      the day. */
  function DateToString(d: Date): (r: string)
    ensures ValidDate(d) && d.year >= 0 ==>
      && Split(r, '-') == [NatToString(d.year), PadStart2(NatToString(d.month)), PadStart2(NatToString(d.day))]
      && AllDigits(PadStart2(NatToString(d.month))) && ParseDigits(PadStart2(NatToString(d.month))) == d.month
      && AllDigits(PadStart2(NatToString(d.day))) && ParseDigits(PadStart2(NatToString(d.day))) == d.day
  {
    var y := IntToString(d.year);
    var mm := PadStart2(IntToString(d.month));
    var dd := PadStart2(IntToString(d.day));
    assert ValidDate(d) && d.year >= 0 ==>
      && Split(y + "-" + mm + "-" + dd, '-') == [y, mm, dd]
      && AllDigits(mm) && ParseDigits(mm) == d.month && AllDigits(dd) && ParseDigits(dd) == d.day
    by {
      if ValidDate(d) && d.year >= 0 {
        ParsePadStart2(d.month);
        ParsePadStart2(d.day);
        assert y + "-" + mm + "-" + dd == y + ['-'] + mm + ['-'] + dd;
        NoDashInDigits(y);
        NoDashInDigits(mm);
        NoDashInDigits(dd);
        SplitThree(y, mm, dd, '-');
      }
    }
    y + "-" + mm + "-" + dd
  }

  /** `Number(part)` for a part made of digits only; `None` stands for `NaN`. */
  function NumberOf(part: string): (r: Option<nat>)
    ensures r.Some? <==> AllDigits(part)
  {
    if AllDigits(part) then Some(ParseDigits(part)) else None
  }

  /** `stringToDate`: split on `-`, read three numbers, build a local date with
      a 0-based month. Fewer than three parts or a non-numeric part give an
      invalid date (`None`); parts after the third are ignored. */
  function StringToDate(s: string): (r: Option<Date>)
    ensures r.Some? ==> ValidDate(r.value)
    ensures r.Some? <==> DateFields(s).Some?
  {
    match DateFields(s)
    case Some(f) => Some(MakeDate(f.0, f.1 - 1, f.2))
    case None => None
  }

  /** `dateStr.split('-').map(Number)`, first three parts, when all three are
      numbers. */
  function DateFields(s: string): (r: Option<(nat, nat, nat)>)
  {
    var parts := Split(s, '-');
    if |parts| < 3 then None
    else
      var y, m, d := NumberOf(parts[0]), NumberOf(parts[1]), NumberOf(parts[2]);
      if y.Some? && m.Some? && d.Some? then Some((y.value, m.value, d.value))
      else None
  }

  /** `YYYY-MM-DD` with digits in the number fields. */
  predicate IsIsoDateString(s: string) {
    && |s| == 10 && s[4] == '-' && s[7] == '-'
    && AllDigits(s[..4]) && AllDigits(s[5..7]) && AllDigits(s[8..])
  }

  /** An ISO date string naming a real date with a four-digit year. */
  predicate IsCanonicalDateString(s: string) {
    && IsIsoDateString(s) && s[0] != '0'
    && ValidDate(Date(ParseDigits(s[..4]), ParseDigits(s[5..7]), ParseDigits(s[8..])))
  }

  lemma NoDashInDigits(s: string)
    requires AllDigits(s)
    ensures '-' !in s
  {
  }

  lemma SplitIsoDate(s: string)
    requires IsIsoDateString(s)
    ensures Split(s, '-') == [s[..4], s[5..7], s[8..]]
  {
    assert s == s[..4] + ['-'] + s[5..7] + ['-'] + s[8..];
    NoDashInDigits(s[..4]);
    NoDashInDigits(s[5..7]);
    NoDashInDigits(s[8..]);
    SplitThree(s[..4], s[5..7], s[8..], '-');
  }

  /** A text splitting into three digit fields is read as the date those
      numbers build. */
  lemma StringToDateOfFields(s: string, a: string, b: string, c: string)
    requires Split(s, '-') == [a, b, c]
    requires AllDigits(a) && AllDigits(b) && AllDigits(c)
    ensures StringToDate(s) == Some(MakeDate(ParseDigits(a), ParseDigits(b) - 1, ParseDigits(c)))
  {
    DateFieldsOf(s, a, b, c);
    var f := DateFields(s).value;
    assert f.0 == ParseDigits(a) && f.1 == ParseDigits(b) && f.2 == ParseDigits(c);
    StringToDateOfDateFields(s);
  }

  lemma StringToDateOfDateFields(s: string)
    requires DateFields(s).Some?
    ensures var f := DateFields(s).value;
      StringToDate(s) == Some(MakeDate(f.0, f.1 - 1, f.2))
  {
  }

  lemma DateFieldsOf(s: string, a: string, b: string, c: string)
    requires Split(s, '-') == [a, b, c]
    requires AllDigits(a) && AllDigits(b) && AllDigits(c)
    ensures DateFields(s) == Some((ParseDigits(a), ParseDigits(b), ParseDigits(c)))
  {
    assert NumberOf(a) == Some(ParseDigits(a));
    assert NumberOf(b) == Some(ParseDigits(b));
    assert NumberOf(c) == Some(ParseDigits(c));
  }

  /** Parsing a canonical date string and printing the date gives the string back. */
  lemma StringDateRoundTrip(s: string)
    requires IsCanonicalDateString(s)
    ensures StringToDate(s).Some?
    ensures DateToString(StringToDate(s).value) == s
  {
    ParseCanonical(s);
    PrintCanonicalFields(s);
  }

  /** A canonical date string reads as the date its three fields spell. */
  lemma ParseCanonical(s: string)
    requires IsCanonicalDateString(s)
    ensures StringToDate(s) == Some(Date(ParseDigits(s[..4]), ParseDigits(s[5..7]), ParseDigits(s[8..])))
  {
    SplitIsoDate(s);
    StringToDateOfFields(s, s[..4], s[5..7], s[8..]);
    ParseLeadingNonZero(s[..4]);
    MakeDateOfValid(Date(ParseDigits(s[..4]), ParseDigits(s[5..7]), ParseDigits(s[8..])));
  }

  /** Printing the date a canonical string's fields spell gives the string. */
  lemma PrintCanonicalFields(s: string)
    requires IsCanonicalDateString(s)
    ensures DateToString(Date(ParseDigits(s[..4]), ParseDigits(s[5..7]), ParseDigits(s[8..]))) == s
  {
    ParseLeadingNonZero(s[..4]);
    NatToStringParse(s[..4]);
    TwoDigitRoundTrip(s[5..7]);
    TwoDigitRoundTrip(s[8..]);
    assert s == s[..4] + "-" + s[5..7] + "-" + s[8..];
  }

  /** Printing a date from year 100 on and parsing the text gives the date back. */
  lemma DateStringRoundTrip(d: Date)
    requires ValidDate(d) && d.year >= 100
    ensures StringToDate(DateToString(d)) == Some(d)
  {
    ParseNatToString(d.year);
    StringToDateOfFields(DateToString(d), NatToString(d.year),
      PadStart2(NatToString(d.month)), PadStart2(NatToString(d.day)));
    MakeDateOfValid(d);
  }

  datatype DateRange = DateRange(startDate: string, endDate: string)

  /** `getMonthDateRange(year, month)`: the first and the last day of a month,
      the last one found as day 0 of the following month. */
  function MonthDateRange(year: int, month: int): (r: DateRange)
    ensures r.startDate == DateToString(Date(year, month, 1))
    ensures 1 <= month <= 12 ==>
      r.endDate == DateToString(Date(year, month, DaysInMonth(ConstructorYear(year), month)))
  {
    var mm := PadStart2(IntToString(month));
    var lastDay := MakeDate(year, month, 0).day;
    assert 1 <= month <= 12 ==> lastDay == DaysInMonth(ConstructorYear(year), month) by {
      if 1 <= month <= 12 {
        LastDayOfMonth(year, month);
      }
    }
    DateRange(IntToString(year) + "-" + mm + "-01",
              IntToString(year) + "-" + mm + "-" + PadStart2(IntToString(lastDay)))
  }

  /** Both ends of a month range (year 100 on) parse back to the first and the
      last day of that month. */
  lemma MonthDateRangeParses(year: int, month: int)
    requires year >= 100 && 1 <= month <= 12
    ensures StringToDate(MonthDateRange(year, month).startDate) == Some(Date(year, month, 1))
    ensures StringToDate(MonthDateRange(year, month).endDate) == Some(Date(year, month, DaysInMonth(year, month)))
  {
    DateStringRoundTrip(Date(year, month, 1));
    DateStringRoundTrip(Date(year, month, DaysInMonth(year, month)));
  }

  /** A calendar month, as `getAvailableMonths` lists them. */
  datatype YearMonth = YearMonth(year: int, month: int)

  predicate ValidMonth(ym: YearMonth) { 1 <= ym.month <= 12 }

  /** Months counted from January of year 0. */
  function MonthOrdinal(ym: YearMonth): int { ym.year * 12 + ym.month - 1 }

  lemma MonthOrdinalInjective(a: YearMonth, b: YearMonth)
    requires ValidMonth(a) && ValidMonth(b) && MonthOrdinal(a) == MonthOrdinal(b)
    ensures a == b
  {
  }

  /** `setMonth(getMonth() + 1)` on the first of a month. */
  function NextMonth(ym: YearMonth): (r: YearMonth)
    requires ValidMonth(ym)
    ensures ValidMonth(r) && MonthOrdinal(r) == MonthOrdinal(ym) + 1
  {
    if ym.month == 12 then YearMonth(ym.year + 1, 1) else YearMonth(ym.year, ym.month + 1)
  }

  /** `a <= b` between two `Date`s at the same time of day. */
  predicate DateLe(a: Date, b: Date) {
    a.year < b.year || (a.year == b.year && (a.month < b.month || (a.month == b.month && a.day <= b.day)))
  }

  /** Every month from `first` up to the month of `end`, oldest first: the
      loop of `getAvailableMonths`. */
  method MonthsFrom(first: YearMonth, end: Date) returns (ascending: seq<YearMonth>)
    requires ValidMonth(first) && ValidDate(end)
    ensures var last := YearMonth(end.year, end.month);
      |ascending| == (if MonthOrdinal(first) <= MonthOrdinal(last) then MonthOrdinal(last) - MonthOrdinal(first) + 1 else 0)
    ensures forall i :: 0 <= i < |ascending| ==>
      ValidMonth(ascending[i]) && MonthOrdinal(ascending[i]) == MonthOrdinal(first) + i
  {
    var last := YearMonth(end.year, end.month);
    ascending := [];
    var current := first;
    while DateLe(Date(current.year, current.month, 1), end)
      invariant ValidMonth(current)
      invariant MonthOrdinal(current) == MonthOrdinal(first) + |ascending|
      invariant forall i :: 0 <= i < |ascending| ==>
        ValidMonth(ascending[i]) && MonthOrdinal(ascending[i]) == MonthOrdinal(first) + i
      invariant ascending != [] ==> MonthOrdinal(current) <= MonthOrdinal(last) + 1
      decreases MonthOrdinal(last) + 1 - MonthOrdinal(current)
    {
      ascending := ascending + [current];
      current := NextMonth(current);
    }
  }

  /** A list counting down one month at a time from `last` to `first` holds
      each month of that span exactly once. */
  lemma CountdownMonths(months: seq<YearMonth>, first: YearMonth, last: YearMonth)
    requires ValidMonth(first) && ValidMonth(last)
    requires |months| == (if MonthOrdinal(first) <= MonthOrdinal(last) then MonthOrdinal(last) - MonthOrdinal(first) + 1 else 0)
    requires forall i :: 0 <= i < |months| ==> ValidMonth(months[i]) && MonthOrdinal(months[i]) == MonthOrdinal(last) - i
    ensures months != [] ==> months[0] == last && months[|months| - 1] == first
    ensures forall i :: 0 <= i < |months| - 1 ==> MonthOrdinal(months[i]) == MonthOrdinal(months[i + 1]) + 1
    ensures Seqs.NoDuplicates(months)
    ensures forall ym :: ValidMonth(ym) ==>
      (ym in months <==> MonthOrdinal(first) <= MonthOrdinal(ym) <= MonthOrdinal(last))
  {
    forall i, j | 0 <= i < j < |months|
      ensures months[i] != months[j]
    {
      assert MonthOrdinal(months[i]) != MonthOrdinal(months[j]);
    }
    forall ym | ValidMonth(ym) && MonthOrdinal(first) <= MonthOrdinal(ym) <= MonthOrdinal(last)
      ensures ym in months
    {
      var i := MonthOrdinal(last) - MonthOrdinal(ym);
      MonthOrdinalInjective(months[i], ym);
    }
    if months != [] {
      MonthOrdinalInjective(months[0], last);
      MonthOrdinalInjective(months[|months| - 1], first);
    }
  }

  /** `getAvailableMonths(startDate, endDate)` on year/month pairs: every month
      from the start's to the end's, most recent first. The start is read
      through `new Date(year, month, 1)`, so a start year 0..99 begins in the
      1900s. */
  method AvailableMonths(start: Date, end: Date) returns (months: seq<YearMonth>)
    requires ValidDate(start) && ValidDate(end)
    ensures var first := YearMonth(ConstructorYear(start.year), start.month);
            var last := YearMonth(end.year, end.month);
      && |months| == (if MonthOrdinal(first) <= MonthOrdinal(last) then MonthOrdinal(last) - MonthOrdinal(first) + 1 else 0)
      && (months != [] ==> months[0] == last && months[|months| - 1] == first)
      && (forall i :: 0 <= i < |months| ==> ValidMonth(months[i]) && MonthOrdinal(months[i]) == MonthOrdinal(last) - i)
      && (forall i :: 0 <= i < |months| - 1 ==> MonthOrdinal(months[i]) == MonthOrdinal(months[i + 1]) + 1)
      && Seqs.NoDuplicates(months)
      && (forall ym :: ValidMonth(ym) ==>
            (ym in months <==> MonthOrdinal(first) <= MonthOrdinal(ym) <= MonthOrdinal(last)))
  {
    var firstDay := MakeDate(start.year, start.month - 1, 1);
    var first := YearMonth(firstDay.year, firstDay.month);
    assert first == YearMonth(ConstructorYear(start.year), start.month);
    var ascending := MonthsFrom(first, end);
    months := Seqs.Reverse(ascending);
    CountdownMonths(months, first, YearMonth(end.year, end.month));
  }
}
