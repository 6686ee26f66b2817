/**
 * The QuantForm date (QfDate.py): a (year, month, day) record tagged with a trading
 * calendar and a day count convention.  Modelled are the constructor's validation,
 * the comparisons and their `comparable` guard, the month and year navigation helpers,
 * the 30/360 year fraction and the ISO text form.  Everything QuantLib computes from
 * serial numbers and business-day calendars is not part of this model.
 */
module QfDate {
  import opened Wrappers
  import opened Decimal

  datatype Calendar = Eurex | Frankfurt | Xetra | London | Nyse
  datatype Convention = Thirty360 | Act365 | Act360 | Business252

  /** The keys of _calendar_map. */
  function CalendarName(c: Calendar): string
  {
    match c
    case Eurex => "Eurex"
    case Frankfurt => "Frankfurt"
    case Xetra => "Xetra"
    case London => "London"
    case Nyse => "NYSE"
  }

  /** The keys of _convention_map (and _day_count_map). */
  function ConventionName(c: Convention): string
  {
    match c
    case Thirty360 => "30/360"
    case Act365 => "ACT/365"
    case Act360 => "ACT/360"
    case Business252 => "Business/252"
  }

  /** Days in a year under each convention (_day_count_map). */
  function DaysInYear(c: Convention): (n: nat)
    ensures n in {252, 360, 365}
  {
    match c
    case Thirty360 => 360
    case Act365 => 365
    case Act360 => 360
    case Business252 => 252
  }

  /** list(_calendar_map.keys()). */
  const CalendarNames: seq<string> := ["Eurex", "Frankfurt", "Xetra", "London", "NYSE"]

  /** list(_convention_map.keys()). */
  const ConventionNames: seq<string> := ["30/360", "ACT/365", "ACT/360", "Business/252"]

  /** Looking a name up in _calendar_map: the assertion on line 68 fails for any other name. */
  function ParseCalendar(name: string): (r: Result<Calendar>)
    ensures r.Ok? <==> name in CalendarNames
    ensures r.Ok? ==> CalendarName(r.value) == name
  {
    if name == "Eurex" then Ok(Eurex)
    else if name == "Frankfurt" then Ok(Frankfurt)
    else if name == "Xetra" then Ok(Xetra)
    else if name == "London" then Ok(London)
    else if name == "NYSE" then Ok(Nyse)
    else Err("Invalid calendar given!")
  }

  /** Looking a name up in _convention_map: the assertion on line 69 fails for any other name. */
  function ParseConvention(name: string): (r: Result<Convention>)
    ensures r.Ok? <==> name in ConventionNames
    ensures r.Ok? ==> ConventionName(r.value) == name
  {
    if name == "30/360" then Ok(Thirty360)
    else if name == "ACT/365" then Ok(Act365)
    else if name == "ACT/360" then Ok(Act360)
    else if name == "Business/252" then Ok(Business252)
    else Err("Invalid day count convention given!")
  }

  /** Every calendar and every convention has a listed name that looks it up again. */
  lemma NamesRoundTrip(c: Calendar, v: Convention)
    ensures CalendarName(c) in CalendarNames && ParseCalendar(CalendarName(c)) == Ok(c)
    ensures ConventionName(v) in ConventionNames && ParseConvention(ConventionName(v)) == Ok(v)
  {
  }

  predicate IsLeapYear(y: int)
  {
    y % 4 == 0 && (y % 100 != 0 || y % 400 == 0)
  }

  function MonthLength(y: int, m: int): nat
    requires 1 <= m <= 12
  {
    if m == 2 then (if IsLeapYear(y) then 29 else 28)
    else if m == 4 || m == 6 || m == 9 || m == 11 then 30
    else 31
  }

  /** The dates ql.Date(day, month, year) accepts: a Gregorian date with a year in [1901, 2199]. */
  predicate IsCalendarDate(y: int, m: int, d: int)
  {
    1901 <= y <= 2199 && 1 <= m <= 12 && 1 <= d <= MonthLength(y, m)
  }

  datatype Date = Date(year: int, month: int, day: int, calendar: Calendar, convention: Convention)

  /** A date made by the constructor. */
  predicate Valid(d: Date)
  {
    IsCalendarDate(d.year, d.month, d.day)
  }

  /** The constructor once the names are resolved: the QuantLib date must exist. */
  function Make(year: int, month: int, day: int, calendar: Calendar, convention: Convention): (r: Result<Date>)
    ensures r.Ok? <==> IsCalendarDate(year, month, day)
    ensures r.Ok? ==> r.value == Date(year, month, day, calendar, convention)
  {
    if IsCalendarDate(year, month, day) then Ok(Date(year, month, day, calendar, convention))
    else Err("invalid date")
  }

  /** The default calendar and convention of the constructor. */
  const DefaultCalendar: string := "Frankfurt"
  const DefaultConvention: string := "Business/252"

  /** QfDate.__init__: the calendar name is checked first, then the convention name, then the date. */
  function NewDate(year: int, month: int, day: int, calendar: string, convention: string): (r: Result<Date>)
    ensures calendar !in CalendarNames ==> r == Err("Invalid calendar given!")
    ensures calendar in CalendarNames && convention !in ConventionNames ==>
              r == Err("Invalid day count convention given!")
    ensures r.Ok? <==> calendar in CalendarNames && convention in ConventionNames && IsCalendarDate(year, month, day)
    ensures r.Ok? ==> Valid(r.value) && r.value.year == year && r.value.month == month && r.value.day == day
                      && CalendarName(r.value.calendar) == calendar && ConventionName(r.value.convention) == convention
  {
    var cal := ParseCalendar(calendar);
    if cal.Err? then Err(cal.msg)
    else
      var conv := ParseConvention(convention);
      if conv.Err? then Err(conv.msg)
      else Make(year, month, day, cal.value, conv.value)
  }

  /** Constructing a date again from its own fields and setting names gives the same date. */
  lemma ReconstructDate(d: Date)
    requires Valid(d)
    ensures NewDate(d.year, d.month, d.day, CalendarName(d.calendar), ConventionName(d.convention)) == Ok(d)
  {
    NamesRoundTrip(d.calendar, d.convention);
  }

  /** The `comparable` decorator: conventions are checked before calendars. */
  function Comparable(a: Date, b: Date): (o: Outcome)
    ensures o.Pass? <==> a.convention == b.convention && a.calendar == b.calendar
  {
    if a.convention != b.convention then Fail("The conventions must match!")
    else if a.calendar != b.calendar then Fail("The calendars must match!")
    else Pass
  }

  /** __eq__: componentwise on (year, month, day). */
  function Eq(a: Date, b: Date): Result<bool>
  {
    var o := Comparable(a, b);
    if o.Fail? then Err(o.msg)
    else Ok(a.year == b.year && a.month == b.month && a.day == b.day)
  }

  /** __gt__: later day in the same month, later month in the same year, or later year. */
  function Gt(a: Date, b: Date): Result<bool>
  {
    var o := Comparable(a, b);
    if o.Fail? then Err(o.msg)
    else Ok((a.year == b.year && a.month == b.month && a.day > b.day)
            || (a.year == b.year && a.month > b.month)
            || a.year > b.year)
  }

  /** __ge__: (a > b) or (a == b). */
  function Ge(a: Date, b: Date): Result<bool>
  {
    var o := Comparable(a, b);
    if o.Fail? then Err(o.msg)
    else Ok(Gt(a, b).value || Eq(a, b).value)
  }

  /** __lt__: not (a >= b). */
  function Lt(a: Date, b: Date): Result<bool>
  {
    var o := Comparable(a, b);
    if o.Fail? then Err(o.msg)
    else Ok(!Ge(a, b).value)
  }

  /** __le__: (a < b) or (a == b). */
  function Le(a: Date, b: Date): Result<bool>
  {
    var o := Comparable(a, b);
    if o.Fail? then Err(o.msg)
    else Ok(Lt(a, b).value || Eq(a, b).value)
  }

  /**
   * A day number that grows with the date: 31 days per month and 12 months per year
   * leave no overlaps between months.
   */
  function OrdinalKey(d: Date): int
  {
    d.year * 372 + d.month * 31 + d.day
  }

  /** Every comparison fails exactly when the `comparable` guard fails, with the guard's message. */
  lemma ComparisonsGuarded(a: Date, b: Date)
    ensures Comparable(a, b).Fail? ==>
      var e := Err(Comparable(a, b).msg);
      Eq(a, b) == e && Gt(a, b) == e && Ge(a, b) == e && Lt(a, b) == e && Le(a, b) == e
    ensures Comparable(a, b).Pass? ==> Eq(a, b).Ok? && Gt(a, b).Ok? && Ge(a, b).Ok? && Lt(a, b).Ok? && Le(a, b).Ok?
  {
  }

  /** On dates the constructor accepts, `>` is the order of the day key, and `==` its equality. */
  lemma {:induction false} OrderIsChronological(a: Date, b: Date)
    requires Valid(a) && Valid(b) && Comparable(a, b).Pass?
    ensures Gt(a, b) == Ok(OrdinalKey(a) > OrdinalKey(b))
    ensures Eq(a, b) == Ok(OrdinalKey(a) == OrdinalKey(b))
  {
    if a.year > b.year {
      assert OrdinalKey(a) >= (b.year + 1) * 372 + 32 > OrdinalKey(b);
    } else if a.year < b.year {
      assert OrdinalKey(b) >= (a.year + 1) * 372 + 32 > OrdinalKey(a);
    }
  }

  /** Exactly one of <, == and > holds between comparable dates, and <=, >= are their unions. */
  lemma Trichotomy(a: Date, b: Date)
    requires Comparable(a, b).Pass?
    ensures Lt(a, b).value || Eq(a, b).value || Gt(a, b).value
    ensures !(Lt(a, b).value && Eq(a, b).value) && !(Lt(a, b).value && Gt(a, b).value)
    ensures !(Eq(a, b).value && Gt(a, b).value)
    ensures Le(a, b).value <==> Lt(a, b).value || Eq(a, b).value
    ensures Ge(a, b).value <==> Gt(a, b).value || Eq(a, b).value
    ensures Lt(a, b).value <==> Gt(b, a).value
  {
  }

  /** `<` is transitive between dates sharing calendar and convention. */
  lemma LtTransitive(a: Date, b: Date, c: Date)
    requires Comparable(a, b).Pass? && Comparable(b, c).Pass?
    requires Lt(a, b) == Ok(true) && Lt(b, c) == Ok(true)
    ensures Lt(a, c) == Ok(true)
  {
  }

  /** next_month_start: the first of the following month, crossing into the next year after December. */
  function NextMonthStart(d: Date): (r: Result<Date>)
    ensures r.Ok? ==> r.value.calendar == d.calendar && r.value.convention == d.convention && r.value.day == 1
    ensures d.month == 12 ==> r == Make(d.year + 1, 1, 1, d.calendar, d.convention)
    ensures d.month != 12 ==> r == Make(d.year, d.month + 1, 1, d.calendar, d.convention)
  {
    if d.month == 12 then Make(d.year + 1, 1, 1, d.calendar, d.convention)
    else Make(d.year, d.month + 1, 1, d.calendar, d.convention)
  }

  /** this_month_start: the first of the date's own month. */
  function ThisMonthStart(d: Date): Result<Date>
  {
    Make(d.year, d.month, 1, d.calendar, d.convention)
  }

  /** prev_month_start: the first of the preceding month, crossing into the previous year before January. */
  function PrevMonthStart(d: Date): (r: Result<Date>)
    ensures r.Ok? ==> r.value.calendar == d.calendar && r.value.convention == d.convention && r.value.day == 1
    ensures d.month == 1 ==> r == Make(d.year - 1, 12, 1, d.calendar, d.convention)
    ensures d.month != 1 ==> r == Make(d.year, d.month - 1, 1, d.calendar, d.convention)
  {
    if d.month == 1 then Make(d.year - 1, 12, 1, d.calendar, d.convention)
    else Make(d.year, d.month - 1, 1, d.calendar, d.convention)
  }

  /**
   * For a constructed date: the month starts exist exactly when QuantLib's year range
   * allows them, the date lies in [this month's start, next month's start), the previous
   * month starts before it, and stepping forward then back returns to this month's start.
   */
  lemma {:induction false} MonthNavigation(d: Date)
    requires Valid(d)
    ensures ThisMonthStart(d).Ok?
    ensures NextMonthStart(d).Ok? <==> !(d.year == 2199 && d.month == 12)
    ensures PrevMonthStart(d).Ok? <==> !(d.year == 1901 && d.month == 1)
    ensures Le(ThisMonthStart(d).value, d) == Ok(true)
    ensures NextMonthStart(d).Ok? ==> Lt(d, NextMonthStart(d).value) == Ok(true)
    ensures PrevMonthStart(d).Ok? ==> Lt(PrevMonthStart(d).value, d) == Ok(true)
    ensures NextMonthStart(d).Ok? ==> PrevMonthStart(NextMonthStart(d).value) == ThisMonthStart(d)
  {
    if d.month == 12 && d.year < 2199 {
      var n := NextMonthStart(d).value;
      assert n == Date(d.year + 1, 1, 1, d.calendar, d.convention);
      assert PrevMonthStart(n) == Make(d.year, 12, 1, d.calendar, d.convention);
    }
  }

  function NextYearStart(d: Date): Result<Date>
  {
    Make(d.year + 1, 1, 1, d.calendar, d.convention)
  }

  function ThisYearStart(d: Date): Result<Date>
  {
    Make(d.year, 1, 1, d.calendar, d.convention)
  }

  function PrevYearStart(d: Date): Result<Date>
  {
    Make(d.year - 1, 1, 1, d.calendar, d.convention)
  }

  function NextYearEnd(d: Date): Result<Date>
  {
    Make(d.year + 1, 12, 31, d.calendar, d.convention)
  }

  function ThisYearEnd(d: Date): Result<Date>
  {
    Make(d.year, 12, 31, d.calendar, d.convention)
  }

  function PrevYearEnd(d: Date): Result<Date>
  {
    Make(d.year - 1, 12, 31, d.calendar, d.convention)
  }

  /**
   * For a constructed date: this year's start and end exist and enclose it, the previous
   * year ends before it and the next one starts after it (when QuantLib's range has them),
   * and each year's end comes just before the next year's start.
   */
  lemma YearNavigation(d: Date)
    requires Valid(d)
    ensures ThisYearStart(d).Ok? && ThisYearEnd(d).Ok?
    ensures Le(ThisYearStart(d).value, d) == Ok(true) && Le(d, ThisYearEnd(d).value) == Ok(true)
    ensures PrevYearStart(d).Ok? <==> PrevYearEnd(d).Ok?
    ensures PrevYearEnd(d).Ok? <==> d.year > 1901
    ensures NextYearStart(d).Ok? <==> NextYearEnd(d).Ok?
    ensures NextYearStart(d).Ok? <==> d.year < 2199
    ensures PrevYearEnd(d).Ok? ==> Lt(PrevYearStart(d).value, PrevYearEnd(d).value) == Ok(true)
    ensures PrevYearEnd(d).Ok? ==> Lt(PrevYearEnd(d).value, ThisYearStart(d).value) == Ok(true)
    ensures NextYearStart(d).Ok? ==> Lt(ThisYearEnd(d).value, NextYearStart(d).value) == Ok(true)
    ensures NextYearStart(d).Ok? ==> Lt(NextYearStart(d).value, NextYearEnd(d).value) == Ok(true)
    ensures NextYearStart(d).Ok? ==> Lt(d, NextYearStart(d).value) == Ok(true)
  {
  }

  /** The 30/360 day count between two dates: every month has 30 days and every year 360. */
  function Days30(d: Date): int
  {
    360 * d.year + 30 * d.month + d.day
  }

  /** The 30/360 lambda of _convention_map, called as (end, start). */
  function Thirty360Fraction(end: Date, start: Date): real
  {
    (360 * (end.year - start.year) + 30 * (end.month - start.month) + (end.day - start.day)) as real / 360.0
  }

  /**
   * timedelta under 30/360: the year fraction from `a` to `b`, negated lambda when `a`
   * is the later date.  Comparing dates of different settings fails.
   */
  function TimeDelta(a: Date, b: Date): (r: Result<real>)
    requires a.convention == Thirty360
    ensures r.Ok? <==> Comparable(a, b).Pass?
    ensures r.Ok? ==> r.value == (Days30(b) - Days30(a)) as real / 360.0
  {
    var o := Comparable(a, b);
    if o.Fail? then Err(o.msg)
    else if Gt(a, b).value then Ok(-Thirty360Fraction(a, b))
    else Ok(Thirty360Fraction(b, a))
  }

  /** Swapping the dates negates the year fraction. */
  lemma TimeDeltaAntisymmetric(a: Date, b: Date)
    requires a.convention == Thirty360 && b.convention == Thirty360
    ensures TimeDelta(a, b).Ok? <==> TimeDelta(b, a).Ok?
    ensures TimeDelta(a, b).Ok? ==> TimeDelta(b, a).value == -TimeDelta(a, b).value
  {
  }

  /** Python's `{:02}` format of an int: zero-padded to width two after an optional sign. */
  function TwoDigits(i: int): string
  {
    if i < 0 then IntToString(i) else PadLeft(NatToString(i), 2, '0')
  }

  /** __str__: YYYY-MM-DD. */
  function Str(d: Date): string
  {
    IntToString(d.year) + "-" + TwoDigits(d.month) + "-" + TwoDigits(d.day)
  }

  /** A month or day number formats as two digits that read back as the number. */
  lemma {:induction false} TwoDigitsLayout(i: int)
    requires 1 <= i <= 31
    ensures |TwoDigits(i)| == 2 && AllDigits(TwoDigits(i)) && DigitsValue(TwoDigits(i)) == i
  {
    NatToStringLength(i, 2);
    NatToStringValue(i);
    PadLeftValue(NatToString(i), 2);
  }

  /** A year QuantLib accepts formats as four digits that read back as the year. */
  lemma {:induction false} YearLayout(y: int)
    requires 1901 <= y <= 2199
    ensures |IntToString(y)| == 4 && AllDigits(IntToString(y)) && DigitsValue(IntToString(y)) == y
  {
    NatToStringLength(y, 4);
    NatToStringLengthAtLeast(y, 4);
    NatToStringValue(y);
  }

  lemma ConcatFields(y: string, m: string, d: string)
    requires |y| == 4 && |m| == 2 && |d| == 2
    ensures var s := y + "-" + m + "-" + d;
      |s| == 10 && s[4] == '-' && s[7] == '-' && s[..4] == y && s[5..7] == m && s[8..] == d
  {
  }

  /**
   * The text of a constructed date is ten characters, dashes at positions 4 and 7, and
   * the digit groups read back as the year, month and day.
   */
  lemma {:induction false} StrLayout(d: Date)
    requires Valid(d)
    ensures var s := Str(d);
      |s| == 10 && s[4] == '-' && s[7] == '-'
      && AllDigits(s[..4]) && DigitsValue(s[..4]) == d.year
      && AllDigits(s[5..7]) && DigitsValue(s[5..7]) == d.month
      && AllDigits(s[8..]) && DigitsValue(s[8..]) == d.day
  {
    YearLayout(d.year);
    TwoDigitsLayout(d.month);
    TwoDigitsLayout(d.day);
    ConcatFields(IntToString(d.year), TwoDigits(d.month), TwoDigits(d.day));
  }
}
