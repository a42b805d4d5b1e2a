/** HTTP dates (src/util.cc): the closed-form day count of `parse_http_date`, the fixed-width text of
    `http_date`, and the proof that one inverts the other (section 5.6.7 of RFC 9110). */
module HttpDates {
  import opened Sequences
  import opened Numerals
  import opened Options

  /** `struct tm`: months from 0, years from 1900, Sunday is day 0 of the week. */
  datatype Tm = Tm(sec: nat, min: nat, hour: nat, mday: nat, mon: nat, year: int, wday: nat)

  // ----- the calendar, counted one by one -------------------------------------------------

  predicate IsLeapYear(y: int) {
    y % 4 == 0 && (y % 100 != 0 || y % 400 == 0)
  }

  function YearLength(y: int): nat {
    if IsLeapYear(y) then 366 else 365
  }

  function MonthLength(y: int, mon: nat): nat
    requires mon < 12
  {
    if mon == 1 then (if IsLeapYear(y) then 29 else 28)
    else if mon == 3 || mon == 5 || mon == 8 || mon == 10 then 30 else 31
  }

  ghost function DaysBeforeYear(y: int): nat
    requires y >= 1970
    decreases y
  {
    if y == 1970 then 0 else DaysBeforeYear(y - 1) + YearLength(y - 1)
  }

  ghost function DaysBeforeMonth(y: int, mon: nat): nat
    requires mon <= 12
  {
    if mon == 0 then 0 else DaysBeforeMonth(y, mon - 1) + MonthLength(y, mon - 1)
  }

  ghost function LeapYearsSince1970(y: int): nat
    requires y >= 1970
    decreases y
  {
    if y == 1970 then 0 else LeapYearsSince1970(y - 1) + if IsLeapYear(y - 1) then 1 else 0
  }

  // ----- the closed form ------------------------------------------------------------------

  /** Integer division of C: towards zero. */
  function Div(a: int, b: int): int
    requires b > 0
  {
    if a >= 0 then a / b else -((-a) / b)
  }

  function CountLeapYear(y: int): int {
    Div(y - 1, 4) - Div(y - 1, 100) + Div(y - 1, 400)
  }

  const DAYSUM: seq<nat> := [0, 31, 59, 90, 120, 151, 181, 212, 243, 273, 304, 334]

  function DayCount(tm: Tm): int
    requires tm.mon < 12
  {
    (tm.year - 70) * 365 + (CountLeapYear(tm.year + 1900) - CountLeapYear(1970)) + DAYSUM[tm.mon] + tm.mday - 1
    + if tm.mon >= 2 && IsLeapYear(tm.year + 1900) then 1 else 0
  }

  /** `parse_http_date` on what strptime read: 0 if it read nothing. */
  function ParseTm(read: Option<Tm>): int {
    match read
    case None => 0
    case Some(tm) =>
      if tm.mon > 11 then -1
      else (DayCount(tm) * 24 + tm.hour) * 3600 + tm.min * 60 + tm.sec
  }

  lemma LeapStep(y: int)
    requires y >= 1970
    ensures CountLeapYear(y + 1) - CountLeapYear(y) == if IsLeapYear(y) then 1 else 0
  {
    assert y / 4 - (y - 1) / 4 == if y % 4 == 0 then 1 else 0;
    assert y / 100 - (y - 1) / 100 == if y % 100 == 0 then 1 else 0;
    assert y / 400 - (y - 1) / 400 == if y % 400 == 0 then 1 else 0;
    assert y % 400 == 0 ==> y % 100 == 0;
    assert y % 100 == 0 ==> y % 4 == 0;
  }

  lemma {:induction false} LeapCountIsClosed(y: int)
    requires y >= 1970
    ensures CountLeapYear(y) - CountLeapYear(1970) == LeapYearsSince1970(y)
    ensures DaysBeforeYear(y) == (y - 1970) * 365 + LeapYearsSince1970(y)
    decreases y
  {
    if y > 1970 {
      LeapCountIsClosed(y - 1);
      LeapStep(y - 1);
    }
  }

  lemma DaysumIsTheMonths(y: int, mon: nat)
    requires mon < 12
    ensures DaysBeforeMonth(y, mon) == DAYSUM[mon] + if mon >= 2 && IsLeapYear(y) then 1 else 0
    decreases mon
  {
    if mon > 0 {
      DaysumIsTheMonths(y, mon - 1);
    }
  }

  /** The closed form counts the days from 1970-01-01, year by year and month by month. */
  lemma DayCountIsExact(tm: Tm)
    requires tm.year >= 70 && tm.mon < 12
    ensures DayCount(tm) == DaysBeforeYear(tm.year + 1900) + DaysBeforeMonth(tm.year + 1900, tm.mon) + tm.mday - 1
  {
    LeapCountIsClosed(tm.year + 1900);
    DaysumIsTheMonths(tm.year + 1900, tm.mon);
  }

  // ----- gmtime ---------------------------------------------------------------------------

  ghost function DayNumber(tm: Tm): int
    requires tm.year >= 70 && tm.mon < 12
  {
    DaysBeforeYear(tm.year + 1900) + DaysBeforeMonth(tm.year + 1900, tm.mon) + tm.mday - 1
  }

  /** The broken-down time of a timestamp; 1970-01-01 was a Thursday. */
  ghost predicate IsBrokenDown(t: nat, tm: Tm) {
    && tm.sec < 60 && tm.min < 60 && tm.hour < 24
    && tm.year >= 70 && tm.mon < 12 && 1 <= tm.mday <= MonthLength(tm.year + 1900, tm.mon)
    && t == ((DayNumber(tm) * 24 + tm.hour) * 60 + tm.min) * 60 + tm.sec
    && tm.wday == (DayNumber(tm) + 4) % 7
  }

  /** The year and the day in it, counting from a year. */
  function YearOf(days: nat, y: int): (r: (int, nat))
    requires y >= 1970
    ensures r.0 >= y && r.1 < YearLength(r.0)
    ensures DaysBeforeYear(y) + days == DaysBeforeYear(r.0) + r.1
    decreases days
  {
    if days < YearLength(y) then (y, days) else YearOf(days - YearLength(y), y + 1)
  }

  lemma YearIsTheMonths(y: int)
    ensures DaysBeforeMonth(y, 12) == YearLength(y)
  {
    DaysumIsTheMonths(y, 11);
  }

  function MonthOf(days: nat, y: int, mon: nat): (r: (nat, nat))
    requires mon < 12 && DaysBeforeMonth(y, mon) + days < YearLength(y)
    ensures r.0 < 12 && r.1 < MonthLength(y, r.0)
    ensures DaysBeforeMonth(y, mon) + days == DaysBeforeMonth(y, r.0) + r.1
    decreases 12 - mon
  {
    YearIsTheMonths(y);
    if days < MonthLength(y, mon) then (mon, days)
    else
      assert DaysBeforeMonth(y, mon + 1) == DaysBeforeMonth(y, mon) + MonthLength(y, mon);
      MonthOf(days - MonthLength(y, mon), y, mon + 1)
  }

  function Gmtime(t: nat): (tm: Tm)
    ensures IsBrokenDown(t, tm)
  {
    var (minutes, sec) := (t / 60, t % 60);
    var (hours, min) := (minutes / 60, minutes % 60);
    var (days, hour) := (hours / 24, hours % 24);
    var (y, yday) := YearOf(days, 1970);
    var (mon, mday) := MonthOf(yday, y, 0);
    Tm(sec, min, hour, mday + 1, mon, y - 1900, (days + 4) % 7)
  }

  lemma {:induction false} YearsGrow(y: int, z: int)
    requires 1970 <= y < z
    ensures DaysBeforeYear(y) + YearLength(y) <= DaysBeforeYear(z)
    decreases z
  {
    if y < z - 1 {
      YearsGrow(y, z - 1);
    }
  }

  lemma {:induction false} MonthsGrow(y: int, m: nat, n: nat)
    requires m < n <= 12
    ensures DaysBeforeMonth(y, m) + MonthLength(y, m) <= DaysBeforeMonth(y, n)
    decreases n
  {
    if m < n - 1 {
      MonthsGrow(y, m, n - 1);
    }
  }

  /** A timestamp has one broken-down time. */
  lemma BrokenDownIsUnique(t: nat, a: Tm, b: Tm)
    requires IsBrokenDown(t, a) && IsBrokenDown(t, b)
    ensures a == b
  {
    assert DayNumber(a) == DayNumber(b) && a.hour == b.hour && a.min == b.min && a.sec == b.sec;
    DayBounds(a);
    DayBounds(b);
    if a.year < b.year {
      YearsGrow(a.year + 1900, b.year + 1900);
    } else if b.year < a.year {
      YearsGrow(b.year + 1900, a.year + 1900);
    }
    var y := a.year + 1900;
    if a.mon < b.mon {
      MonthsGrow(y, a.mon, b.mon);
    } else if b.mon < a.mon {
      MonthsGrow(y, b.mon, a.mon);
    }
  }

  lemma DayBounds(tm: Tm)
    requires tm.year >= 70 && tm.mon < 12 && 1 <= tm.mday <= MonthLength(tm.year + 1900, tm.mon)
    ensures var y := tm.year + 1900;
            DaysBeforeYear(y) <= DayNumber(tm) < DaysBeforeYear(y) + YearLength(y)
  {
    var y := tm.year + 1900;
    YearIsTheMonths(y);
    if tm.mon < 11 {
      MonthsGrow(y, tm.mon, 12);
    }
  }

  /** The closed form inverts gmtime. */
  lemma ParseInvertsGmtime(t: nat, tm: Tm)
    requires IsBrokenDown(t, tm)
    ensures ParseTm(Some(tm)) == t
  {
    DayCountIsExact(tm);
  }

  const YEAR_10000: nat := 253_402_300_800

  /** Before the year 10000 the year has four digits and the `int` arithmetic does not overflow. */
  lemma FourDigitYears(t: nat, tm: Tm)
    requires IsBrokenDown(t, tm)
    ensures t < YEAR_10000 <==> tm.year + 1900 < 10000
    ensures t < YEAR_10000 ==> 0 <= DayCount(tm) * 24 + tm.hour < 0x8000_0000
  {
    ParseInvertsGmtime(t, tm);
    LeapCountIsClosed(10000);
    assert DaysBeforeYear(10000) == 2_932_897;
    DayBounds(tm);
    if tm.year + 1900 < 9999 {
      YearsGrow(tm.year + 1900, 9999);
    } else if tm.year + 1900 > 10000 {
      YearsGrow(10000, tm.year + 1900);
    }
  }

  // ----- the text -------------------------------------------------------------------------

  const MONTH: seq<string> :=
    ["Jan", "Feb", "Mar", "Apr", "May", "Jun", "Jul", "Aug", "Sep", "Oct", "Nov", "Dec"]
  const DAY_OF_WEEK: seq<string> := ["Sun", "Mon", "Tue", "Wed", "Thu", "Fri", "Sat"]

  function Digit(n: nat): char {
    '0' + (n % 10) as char
  }

  function Digits(n: nat, len: nat): (s: string)
    ensures |s| == len
  {
    if len == 0 then "" else Digits(n / 10, len - 1) + [Digit(n)]
  }

  function Pow10(len: nat): nat {
    if len == 0 then 1 else 10 * Pow10(len - 1)
  }

  lemma {:induction false} NumberOfDigits(n: nat, len: nat)
    requires n < Pow10(len)
    ensures (forall k :: 0 <= k < len ==> '0' <= Digits(n, len)[k] <= '9') && Number(Digits(n, len)) == n
  {
    if len > 0 {
      NumberOfDigits(n / 10, len - 1);
      assert Digits(n, len)[..len - 1] == Digits(n / 10, len - 1);
    }
  }

  /** `write_uint`: the digits from the last to the first, in place. */
  method WriteUint(n: nat, out: array<char>, at: nat, len: nat) returns (next: nat)
    requires len > 0 && at + len <= out.Length
    modifies out
    ensures next == at + len
    ensures out[..next] == old(out[..at]) + Digits(n, len)
    ensures forall k :: next <= k < out.Length ==> out[k] == old(out[k])
  {
    var p, m := at + len - 1, n;
    while p >= at
      invariant at - 1 <= p < at + len
      invariant Digits(n, len) == Digits(m, p + 1 - at) + out[p + 1..at + len]
      invariant out[..at] == old(out[..at])
      invariant forall k :: at + len <= k < out.Length ==> out[k] == old(out[k])
      decreases p + 1 - at
    {
      out[p] := '0' + (m % 10) as char;
      assert Digits(m, p + 1 - at) == Digits(m / 10, p - at) + [Digit(m)];
      assert out[p..at + len] == [Digit(m)] + out[p + 1..at + len];
      p, m := p - 1, m / 10;
    }
    next := at + len;
  }

  function DayName(wday: nat): (s: string)
    requires wday < 7
    ensures |s| == 3
  {
    DAY_OF_WEEK[wday]
  }

  function MonthName(mon: nat): (s: string)
    requires mon < 12
    ensures |s| == 3
  {
    MONTH[mon]
  }

  predicate Printable(tm: Tm) {
    tm.wday < 7 && tm.mon < 12 && tm.year + 1900 >= 0
  }

  /** The 29 characters of a date. */
  function DateText(tm: Tm): (s: string)
    requires Printable(tm)
    ensures |s| == 29
  {
    DayName(tm.wday) + ", " + Digits(tm.mday, 2) + " " + MonthName(tm.mon) + " " + Digits(tm.year + 1900, 4) + " "
    + Digits(tm.hour, 2) + ":" + Digits(tm.min, 2) + ":" + Digits(tm.sec, 2) + " GMT"
  }

  method Put(s: string, out: array<char>, at: nat) returns (next: nat)
    requires at + |s| <= out.Length
    modifies out
    ensures next == at + |s|
    ensures out[..next] == old(out[..at]) + s
    ensures forall k :: next <= k < out.Length ==> out[k] == old(out[k])
  {
    for i := 0 to |s|
      invariant out[at..at + i] == s[..i]
      invariant out[..at] == old(out[..at])
      invariant forall k :: at + |s| <= k < out.Length ==> out[k] == old(out[k])
    {
      out[at + i] := s[i];
    }
    next := at + |s|;
  }

  lemma AssocEight(s: string, a: string, b: string, c: string, d: string, e: string, f: string, g: string, h: string)
    ensures s + a + b + c + d + e + f + g + h == s + (a + b + c + d + e + f + g + h)
  {
    Assoc(s, a, b);
    Assoc(s, a + b, c);
    Assoc(s, a + b + c, d);
    Assoc(s, a + b + c + d, e);
    Assoc(s, a + b + c + d + e, f);
    Assoc(s, a + b + c + d + e + f, g);
    Assoc(s, a + b + c + d + e + f + g, h);
  }

  /** `http_date`: fills exactly the 29 characters it is given. */
  method HttpDate(tm: Tm, res: array<char>, at: nat)
    requires Printable(tm) && at + 29 <= res.Length
    modifies res
    ensures res[..at + 29] == old(res[..at]) + DateText(tm)
    ensures forall k :: at + 29 <= k < res.Length ==> res[k] == old(res[k])
  {
    hide Digits, DayName, MonthName;
    var p := PutDay(tm, res, at);
    p := PutTime(tm, res, p);
    ghost var day :=
      DayName(tm.wday) + ", " + Digits(tm.mday, 2) + " " + MonthName(tm.mon) + " " + Digits(tm.year + 1900, 4) + " ";
    ghost var before := old(res[..at]);
    Assoc(before, day, Digits(tm.hour, 2));
    Assoc(before, day + Digits(tm.hour, 2), ":");
    Assoc(before, day + Digits(tm.hour, 2) + ":", Digits(tm.min, 2));
    Assoc(before, day + Digits(tm.hour, 2) + ":" + Digits(tm.min, 2), ":");
    Assoc(before, day + Digits(tm.hour, 2) + ":" + Digits(tm.min, 2) + ":", Digits(tm.sec, 2));
    Assoc(before, day + Digits(tm.hour, 2) + ":" + Digits(tm.min, 2) + ":" + Digits(tm.sec, 2), " GMT");
  }

  method PutDay(tm: Tm, res: array<char>, at: nat) returns (p: nat)
    requires Printable(tm) && at + 17 <= res.Length
    modifies res
    ensures p == at + 17 && forall k :: p <= k < res.Length ==> res[k] == old(res[k])
    ensures res[..p] == old(res[..at])
      + (DayName(tm.wday) + ", " + Digits(tm.mday, 2) + " " + MonthName(tm.mon) + " " + Digits(tm.year + 1900, 4) + " ")
  {
    hide Digits, DayName, MonthName;
    p := Put(DayName(tm.wday), res, at);
    p := Put(", ", res, p);
    p := WriteUint(tm.mday, res, p, 2);
    p := Put(" ", res, p);
    p := Put(MonthName(tm.mon), res, p);
    p := Put(" ", res, p);
    p := WriteUint(tm.year + 1900, res, p, 4);
    p := Put(" ", res, p);
    AssocEight(old(res[..at]), DayName(tm.wday), ", ", Digits(tm.mday, 2), " ",
               MonthName(tm.mon), " ", Digits(tm.year + 1900, 4), " ");
  }

  method PutTime(tm: Tm, res: array<char>, at: nat) returns (p: nat)
    requires at + 12 <= res.Length
    modifies res
    ensures p == at + 12 && forall k :: p <= k < res.Length ==> res[k] == old(res[k])
    ensures res[..p] == old(res[..at]) + Digits(tm.hour, 2) + ":" + Digits(tm.min, 2) + ":" + Digits(tm.sec, 2) + " GMT"
  {
    hide Digits, DayName, MonthName;
    p := WriteUint(tm.hour, res, at, 2);
    p := Put(":", res, p);
    p := WriteUint(tm.min, res, p, 2);
    p := Put(":", res, p);
    p := WriteUint(tm.sec, res, p, 2);
    p := Put(" GMT", res, p);
  }

  // ----- reading it back ------------------------------------------------------------------

  function NameIndex(names: seq<string>, s: string): Option<nat>
    decreases |names|
  {
    if names == [] then None
    else if names[0] == s then Some(0)
    else match NameIndex(names[1..], s) case None => None case Some(i) => Some(i + 1)
  }

  function ReadNumber(s: string): Option<nat> {
    if forall k :: 0 <= k < |s| ==> '0' <= s[k] <= '9' then Some(Number(s)) else None
  }

  /** What strptime reads from text of the fixed form. */
  function ReadDate(s: string): Option<Tm> {
    if |s| != 29 || s[3..5] != ", " || s[7..8] != " " || s[11..12] != " " || s[16..17] != " "
       || s[19..20] != ":" || s[22..23] != ":" || s[25..] != " GMT" then None
    else
      match (NameIndex(DAY_OF_WEEK, s[..3]), ReadNumber(s[5..7]), NameIndex(MONTH, s[8..11]), ReadNumber(s[12..16]))
      case (Some(wday), Some(mday), Some(mon), Some(year)) =>
        (match (ReadNumber(s[17..19]), ReadNumber(s[20..22]), ReadNumber(s[23..25]))
         case (Some(hour), Some(min), Some(sec)) => Some(Tm(sec, min, hour, mday, mon, year - 1900, wday))
         case _ => None)
      case _ => None
  }

  lemma {:induction false} IndexOfName(names: seq<string>, i: nat)
    requires i < |names| && forall j :: 0 <= j < i ==> names[j] != names[i]
    ensures NameIndex(names, names[i]) == Some(i)
    decreases i
  {
    if i > 0 {
      assert names[1..][i - 1] == names[i];
      IndexOfName(names[1..], i - 1);
    }
  }

  lemma DaysDiffer(i: nat, j: nat)
    requires i < j < 7
    ensures DAY_OF_WEEK[i] != DAY_OF_WEEK[j]
  {
    var (a, b) := (DAY_OF_WEEK[i], DAY_OF_WEEK[j]);
    assert a[0] != b[0] || a[1] != b[1];
  }

  /** The second and third letters tell months apart. */
  lemma MonthsDiffer(i: nat, j: nat)
    requires i < j < 12
    ensures MONTH[i] != MONTH[j]
  {
    var (a, b) := (MONTH[i], MONTH[j]);
    assert a[1] != b[1] || a[2] != b[2];
  }

  lemma NamesAreDistinct(wday: nat, mon: nat)
    requires wday < 7 && mon < 12
    ensures NameIndex(DAY_OF_WEEK, DAY_OF_WEEK[wday]) == Some(wday)
    ensures NameIndex(MONTH, MONTH[mon]) == Some(mon)
  {
    hide NameIndex;
    forall j: nat | j < wday ensures DAY_OF_WEEK[j] != DAY_OF_WEEK[wday] {
      DaysDiffer(j, wday);
    }
    forall j: nat | j < mon ensures MONTH[j] != MONTH[mon] {
      MonthsDiffer(j, mon);
    }
    IndexOfName(DAY_OF_WEEK, wday);
    IndexOfName(MONTH, mon);
  }

  lemma ReadsItsDigits(n: nat, len: nat)
    requires n < Pow10(len)
    ensures ReadNumber(Digits(n, len)) == Some(n)
  {
    NumberOfDigits(n, len);
  }

  lemma TextFields(tm: Tm)
    requires Printable(tm)
    ensures var s := DateText(tm);
      && s[..3] == DayName(tm.wday) && s[3..5] == ", " && s[5..7] == Digits(tm.mday, 2) && s[7..8] == " "
      && s[8..11] == MonthName(tm.mon) && s[11..12] == " " && s[12..16] == Digits(tm.year + 1900, 4) && s[16..17] == " "
      && s[17..19] == Digits(tm.hour, 2) && s[19..20] == ":" && s[20..22] == Digits(tm.min, 2) && s[22..23] == ":"
      && s[23..25] == Digits(tm.sec, 2) && s[25..] == " GMT"
  {
  }

  lemma ReadsBack(tm: Tm)
    requires Printable(tm) && tm.year + 1900 < 10000
    requires tm.mday < 100 && tm.hour < 100 && tm.min < 100 && tm.sec < 100
    ensures ReadDate(DateText(tm)) == Some(tm)
  {
    TextFields(tm);
    NamesAreDistinct(tm.wday, tm.mon);
    assert Pow10(2) == 100 && Pow10(4) == 10000;
    ReadsItsDigits(tm.mday, 2);
    ReadsItsDigits(tm.year + 1900, 4);
    ReadsItsDigits(tm.hour, 2);
    ReadsItsDigits(tm.min, 2);
    ReadsItsDigits(tm.sec, 2);
  }

  /** For every timestamp from 1970 to the end of the year 9999, parsing the text of its date gives the
      timestamp back. */
  lemma ParseInvertsHttpDate(t: nat)
    requires t < YEAR_10000
    ensures ParseTm(ReadDate(DateText(Gmtime(t)))) == t
  {
    var tm := Gmtime(t);
    FourDigitYears(t, tm);
    ReadsBack(tm);
    ParseInvertsGmtime(t, tm);
  }

  // ----- known dates ----------------------------------------------------------------------

  /** Text that strptime cannot read counts as the beginning of 1970. */
  lemma UnreadableIsTheEpoch(s: string)
    requires ReadDate(s) == None
    ensures ParseTm(ReadDate(s)) == 0
  {
  }

  lemma NamesLiterally()
    ensures [DayName(0), DayName(1), DayName(2), DayName(3), DayName(4), DayName(5), DayName(6)]
         == ["Sun", "Mon", "Tue", "Wed", "Thu", "Fri", "Sat"]
    ensures [MonthName(0), MonthName(1), MonthName(2), MonthName(3), MonthName(4), MonthName(5)]
         == ["Jan", "Feb", "Mar", "Apr", "May", "Jun"]
    ensures [MonthName(6), MonthName(7), MonthName(8), MonthName(9), MonthName(10), MonthName(11)]
         == ["Jul", "Aug", "Sep", "Oct", "Nov", "Dec"]
  {
  }

  lemma KnownDate(t: nat, tm: Tm)
    requires tm.sec < 60 && tm.min < 60 && tm.hour < 24 && tm.year >= 70 && tm.mon < 12
    requires 1 <= tm.mday <= MonthLength(tm.year + 1900, tm.mon)
    requires t == ((DayCount(tm) * 24 + tm.hour) * 60 + tm.min) * 60 + tm.sec && tm.wday == (DayCount(tm) + 4) % 7
    ensures Gmtime(t) == tm
  {
    hide DayCount, Gmtime;
    DayCountIsExact(tm);
    BrokenDownIsUnique(t, Gmtime(t), tm);
  }

  lemma TwoDigits(n: nat)
    requires n < 100
    ensures Digits(n, 2) == ['0' + (n / 10) as char, '0' + (n % 10) as char]
  {
    assert Digits(n / 10, 1) == Digits(n / 10 / 10, 0) + [Digit(n / 10)];
  }

  lemma FourDigits(n: nat)
    requires n < 10000
    ensures Digits(n, 4) == ['0' + (n / 1000) as char, '0' + (n / 100 % 10) as char,
                             '0' + (n / 10 % 10) as char, '0' + (n % 10) as char]
  {
    TwoDigits(n / 100);
    assert Digits(n / 10, 3) == Digits(n / 100, 2) + [Digit(n / 10)];
    assert Digits(n, 4) == Digits(n / 10, 3) + [Digit(n)];
  }

  /** The text, its fields in place. */
  lemma TextLiterally(tm: Tm)
    requires Printable(tm) && tm.year + 1900 < 10000
    requires tm.mday < 100 && tm.hour < 100 && tm.min < 100 && tm.sec < 100
    ensures var (y, s) := (tm.year + 1900, DateText(tm));
            && s[..5] == DayName(tm.wday) + ", "
            && s[5..8] == ['0' + (tm.mday / 10) as char, '0' + (tm.mday % 10) as char, ' ']
            && s[8..12] == MonthName(tm.mon) + " "
            && s[12..17] == ['0' + (y / 1000) as char, '0' + (y / 100 % 10) as char,
                             '0' + (y / 10 % 10) as char, '0' + (y % 10) as char, ' ']
            && s[17..20] == ['0' + (tm.hour / 10) as char, '0' + (tm.hour % 10) as char, ':']
            && s[20..23] == ['0' + (tm.min / 10) as char, '0' + (tm.min % 10) as char, ':']
            && s[23..] == ['0' + (tm.sec / 10) as char, '0' + (tm.sec % 10) as char] + " GMT"
  {
    hide Digits, DayName, MonthName;
    TextFields(tm);
    TwoDigits(tm.mday);
    FourDigits(tm.year + 1900);
    TwoDigits(tm.hour);
    TwoDigits(tm.min);
    TwoDigits(tm.sec);
    hide DateText;
    var s := DateText(tm);
    assert s[..5] == s[..3] + s[3..5];
    assert s[5..8] == s[5..7] + s[7..8];
    assert s[8..12] == s[8..11] + s[11..12];
    assert s[12..17] == s[12..16] + s[16..17];
    assert s[17..20] == s[17..19] + s[19..20];
    assert s[20..23] == s[20..22] + s[22..23];
    assert s[23..] == s[23..25] + s[25..];
  }

  /** The beginning of 1970, the example of section 5.6.7 of RFC 9110, and days around the ends of two
      Februaries, of which only the first is long. */
  lemma KnownDates(t: nat)
    ensures t == 0 ==> Gmtime(t) == Tm(0, 0, 0, 1, 0, 70, 4)
    ensures t == 784_111_777 ==> Gmtime(t) == Tm(37, 49, 8, 6, 10, 94, 0)
    ensures t == 951_782_400 ==> Gmtime(t) == Tm(0, 0, 0, 29, 1, 100, 2)
    ensures t == 4_107_542_400 ==> Gmtime(t) == Tm(0, 0, 0, 1, 2, 200, 1)
  {
    hide Gmtime;
    if t == 0 {
      KnownDate(t, Tm(0, 0, 0, 1, 0, 70, 4));
    } else if t == 784_111_777 {
      KnownDate(t, Tm(37, 49, 8, 6, 10, 94, 0));
    } else if t == 951_782_400 {
      KnownDate(t, Tm(0, 0, 0, 29, 1, 100, 2));
    } else if t == 4_107_542_400 {
      KnownDate(t, Tm(0, 0, 0, 1, 2, 200, 1));
    }
  }
}
