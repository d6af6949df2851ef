// HTTP dates: ngx_parse_http_time in its three forms, and the closed formula for the
// seconds since the epoch against counting the days.

module HttpTime {
  import opened Options

  // The month counts from 0.
  datatype Date = Date(year: nat, month: nat, day: nat, hour: nat, min: nat, sec: nat)

  const WORD: int := 0x1_0000_0000_0000_0000

  // -------- counting days --------

  predicate Leap(year: nat) {
    year % 4 == 0 && (year % 100 != 0 || year % 400 == 0)
  }

  function MonthLength(month: nat, leap: bool): nat
    requires month < 12
  {
    if month == 1 then (if leap then 29 else 28)
    else if month == 3 || month == 5 || month == 8 || month == 10 then 30
    else 31
  }

  function DaysBeforeMonth(month: nat, leap: bool): nat
    requires month <= 12
  {
    if month == 0 then 0 else DaysBeforeMonth(month - 1, leap) + MonthLength(month - 1, leap)
  }

  // The days from January 1 of year 1 to January 1 of the year. Year 0 is a leap year.
  function DaysBeforeYear(year: nat): int {
    if year == 0 then -366
    else if year == 1 then 0
    else DaysBeforeYear(year - 1) + if Leap(year - 1) then 366 else 365
  }

  ghost predicate Valid(d: Date) {
    && 1 <= d.year && d.month < 12 && 1 <= d.day <= MonthLength(d.month, Leap(d.year))
    && d.hour < 24 && d.min < 60 && d.sec < 60
  }

  // What the digits of a date can say.
  predicate Fields(d: Date) {
    d.year <= 9999 && d.month < 12 && d.day < 100 && d.hour < 100 && d.min < 100 && d.sec < 100
  }

  // The days since January 1, 1970, one year and one month at a time.
  function DayNumber(d: Date): int
    requires d.month < 12
  {
    DaysBeforeYear(d.year) - DaysBeforeYear(1970) + DaysBeforeMonth(d.month, Leap(d.year)) + d.day - 1
  }

  function Seconds(d: Date): int
    requires d.month < 12
  {
    DayNumber(d) * 86400 + d.hour * 3600 + d.min * 60 + d.sec
  }

  // -------- the closed formula --------

  // A word taken as signed.
  function Signed(x: int): int {
    if x >= WORD / 2 then x - WORD else x
  }

  // The year starts in March. Year 0 wraps round when it is moved back.
  function GaussYear(d: Date): nat {
    if d.month <= 1 then (if d.year == 0 then WORD - 1 else d.year - 1) else d.year
  }

  function GaussMonth(d: Date): nat {
    if d.month <= 1 then d.month + 11 else d.month - 1
  }

  function GaussDays(d: Date): int {
    var year, month := GaussYear(d), GaussMonth(d);
    365 * year + year / 4 - year / 100 + year / 400 + 367 * month / 12 - 30 + d.day - 1 - 719527 + 31 + 28
  }

  function Gauss(d: Date): int {
    Signed((GaussDays(d) * 86400 + d.hour * 3600 + d.min * 60 + d.sec) % WORD)
  }

  lemma {:induction false} YearsClosed(year: nat)
    ensures DaysBeforeYear(year) == 365 * (year - 1) + (year - 1) / 4 - (year - 1) / 100 + (year - 1) / 400
  {
    hide Leap;
    if year > 1 {
      YearsClosed(year - 1);
      LeapStep(year - 1);
    }
  }

  lemma YearZero()
    ensures Leap(0)
  {
  }

  lemma LeapStep(x: nat)
    requires 1 <= x
    ensures x / 4 - x / 100 + x / 400
         == (x - 1) / 4 - (x - 1) / 100 + (x - 1) / 400 + (if Leap(x) then 1 else 0)
  {
    DivStep(x, 4);
    DivStep(x, 100);
    DivStep(x, 400);
    Divisors(x);
  }

  lemma Divisors(x: nat)
    ensures x % 400 == 0 ==> x % 100 == 0
    ensures x % 100 == 0 ==> x % 4 == 0
  {
    if x % 400 == 0 {
      Multiple(4 * (x / 400), 100);
    }
    if x % 100 == 0 {
      Multiple(25 * (x / 100), 4);
    }
  }

  lemma Multiple(q: nat, k: nat)
    requires k == 4 || k == 100
    ensures q * k % k == 0
  {
  }

  lemma DivStep(x: nat, k: nat)
    requires 1 <= x && (k == 4 || k == 100 || k == 400)
    ensures x / k == (x - 1) / k + if x % k == 0 then 1 else 0
  {
  }

  lemma MonthsClosed(month: nat)
    requires month < 12
    ensures month >= 2 ==> DaysBeforeMonth(month, false) == 59 + 367 * (month - 1) / 12 - 30
    ensures month >= 2 ==> DaysBeforeMonth(month, true) == 60 + 367 * (month - 1) / 12 - 30
    ensures month == 0 ==>
              DaysBeforeMonth(month, false) == DaysBeforeMonth(month, true) == 0 == 367 * 11 / 12 - 30 - 306
    ensures month == 1 ==>
              DaysBeforeMonth(month, false) == DaysBeforeMonth(month, true) == 31 == 367 * 12 / 12 - 30 - 306
  {
    forall leap
      ensures DaysBeforeMonth(1, leap) == 31
      ensures var l := if leap then 1 else 0;
              && DaysBeforeMonth(2, leap) == 59 + l && DaysBeforeMonth(3, leap) == 90 + l
              && DaysBeforeMonth(4, leap) == 120 + l && DaysBeforeMonth(5, leap) == 151 + l
              && DaysBeforeMonth(6, leap) == 181 + l && DaysBeforeMonth(7, leap) == 212 + l
              && DaysBeforeMonth(8, leap) == 243 + l && DaysBeforeMonth(9, leap) == 273 + l
              && DaysBeforeMonth(10, leap) == 304 + l && DaysBeforeMonth(11, leap) == 334 + l
    {
      MonthStarts(leap);
    }
  }

  lemma MonthStarts(leap: bool)
    ensures DaysBeforeMonth(1, leap) == 31
    ensures var l := if leap then 1 else 0;
            && DaysBeforeMonth(2, leap) == 59 + l && DaysBeforeMonth(3, leap) == 90 + l
            && DaysBeforeMonth(4, leap) == 120 + l && DaysBeforeMonth(5, leap) == 151 + l
            && DaysBeforeMonth(6, leap) == 181 + l && DaysBeforeMonth(7, leap) == 212 + l
            && DaysBeforeMonth(8, leap) == 243 + l && DaysBeforeMonth(9, leap) == 273 + l
            && DaysBeforeMonth(10, leap) == 304 + l && DaysBeforeMonth(11, leap) == 334 + l
  {
    var d1, d2, d3 := DaysBeforeMonth(1, leap), DaysBeforeMonth(2, leap), DaysBeforeMonth(3, leap);
    var d4, d5, d6 := DaysBeforeMonth(4, leap), DaysBeforeMonth(5, leap), DaysBeforeMonth(6, leap);
    var d7, d8, d9 := DaysBeforeMonth(7, leap), DaysBeforeMonth(8, leap), DaysBeforeMonth(9, leap);
  }

  // January and February of year 0 go to the largest word as a year.
  predicate Wraps(d: Date) {
    d.year == 0 && d.month <= 1
  }

  // The formula counts the days, of whatever day number.
  lemma GaussCounts(d: Date)
    requires d.month < 12 && !Wraps(d)
    ensures GaussDays(d) == DayNumber(d)
  {
    hide DaysBeforeMonth, DaysBeforeYear, Leap;
    YearsClosed(d.year);
    YearsClosed(1970);
    MonthsClosed(d.month);
    assert Leap(0) by {
      YearZero();
    }
    if d.month >= 2 && d.year > 0 {
      LeapStep(d.year);
    }
  }

  // For every date of four year digits the closed formula counts the seconds, but for the
  // first two months of year 0, which come out 10368 seconds late.
  lemma GaussExact(d: Date)
    requires Fields(d)
    ensures Gauss(d) == Seconds(d) + (if Wraps(d) then 10368 else 0)
  {
    hide DaysBeforeMonth, DaysBeforeYear, GaussYear, GaussMonth;
    if Wraps(d) {
      GaussWraps(d);
    } else {
      GaussCounts(d);
      DayRange(d);
      Small(GaussDays(d) * 86400 + d.hour * 3600 + d.min * 60 + d.sec);
    }
  }

  lemma Small(x: int)
    requires -WORD / 2 < x < WORD / 2
    ensures Signed(x % WORD) == x
  {
    if x >= 0 {
      assert x % WORD == x;
    } else {
      assert x % WORD == x + WORD;
    }
  }

  lemma GaussWraps(d: Date)
    requires Fields(d) && Wraps(d)
    ensures Gauss(d) == Seconds(d) + 10368
  {
    hide DaysBeforeMonth, DaysBeforeYear;
    DayRange(d);
    WrappedDays(d);
    Shifted(GaussDays(d) * 86400 + d.hour * 3600 + d.min * 60 + d.sec, Seconds(d) + 10368);
  }

  lemma WrappedDays(d: Date)
    requires Fields(d) && Wraps(d)
    ensures GaussDays(d) * 86400 == DayNumber(d) * 86400 + 10368 + 31556952 * WORD
  {
    hide DaysBeforeMonth, DaysBeforeYear;
    YearsClosed(0);
    YearsClosed(1970);
    MonthsClosed(d.month);
    var y := WORD - 1;
    assert y / 4 == 4611686018427387903 && y / 100 == 184467440737095516 && y / 400 == 46116860184273879;
  }

  lemma Shifted(x: int, t: int)
    requires x == t + 31556952 * WORD && -WORD / 2 < t < WORD / 2
    ensures Signed(x % WORD) == t
  {
    Small(t);
    Turns(t, 31556952);
  }

  lemma {:induction false} Turns(t: int, k: int)
    ensures (t + k * WORD) % WORD == t % WORD
  {
  }

  lemma GaussCorrect(d: Date)
    requires Valid(d) && d.year <= 9999
    ensures Gauss(d) == Seconds(d)
    ensures d.year >= 1970 ==> Seconds(d) >= 0
  {
    hide DaysBeforeMonth, DaysBeforeYear, Gauss;
    GaussExact(d);
    DayRange(d);
  }

  lemma DayRange(d: Date)
    requires Fields(d)
    ensures -800000 < DayNumber(d) < 4000000
    ensures d.year >= 1970 && d.day >= 1 ==> DayNumber(d) >= 0
  {
    hide DaysBeforeMonth, DaysBeforeYear;
    YearsClosed(d.year);
    YearsClosed(1970);
    MonthStarts(Leap(d.year));
    MonthsClosed(d.month);
  }

  // -------- order --------

  predicate Earlier(c: Date, d: Date) {
    c.year < d.year || (c.year == d.year &&
    (c.month < d.month || (c.month == d.month &&
    (c.day < d.day || (c.day == d.day &&
    (c.hour < d.hour || (c.hour == d.hour &&
    (c.min < d.min || (c.min == d.min && c.sec < d.sec)))))))))
  }

  lemma {:induction false} MonthsMonotone(m: nat, n: nat, leap: bool)
    requires m <= n <= 12
    ensures DaysBeforeMonth(m, leap) <= DaysBeforeMonth(n, leap)
  {
    if m < n {
      MonthsMonotone(m, n - 1, leap);
    }
  }

  lemma {:induction false} YearsMonotone(y: nat, z: nat)
    requires y <= z
    ensures DaysBeforeYear(y) <= DaysBeforeYear(z)
  {
    if y < z {
      YearsMonotone(y, z - 1);
    }
  }

  lemma WholeYear(leap: bool)
    ensures DaysBeforeMonth(12, leap) == if leap then 366 else 365
  {
    MonthStarts(leap);
    assert DaysBeforeMonth(12, leap) == DaysBeforeMonth(11, leap) + MonthLength(11, leap);
  }

  lemma DaysIncrease(c: Date, d: Date)
    requires Valid(c) && Valid(d)
    requires c.year < d.year || (c.year == d.year && (c.month < d.month || (c.month == d.month && c.day < d.day)))
    ensures DayNumber(c) < DayNumber(d)
  {
    var leap := Leap(c.year);
    assert DaysBeforeMonth(c.month + 1, leap) == DaysBeforeMonth(c.month, leap) + MonthLength(c.month, leap);
    if c.year < d.year {
      MonthsMonotone(c.month + 1, 12, leap);
      WholeYear(leap);
      YearsMonotone(c.year + 1, d.year);
    } else if c.month < d.month {
      MonthsMonotone(c.month + 1, d.month, leap);
    }
  }

  // Later dates have larger times.
  lemma StrictlyMonotone(c: Date, d: Date)
    requires Valid(c) && Valid(d) && Earlier(c, d) && c.year <= 9999 && d.year <= 9999
    ensures Gauss(c) < Gauss(d)
  {
    hide DaysBeforeMonth, DaysBeforeYear, Gauss, DayNumber;
    GaussCorrect(c);
    GaussCorrect(d);
    if c.year == d.year && c.month == d.month && c.day == d.day {
      SameDay(c, d);
    } else {
      DaysIncrease(c, d);
    }
  }

  lemma SameDay(c: Date, d: Date)
    requires c.year == d.year && c.month == d.month && c.day == d.day && c.month < 12
    ensures DayNumber(c) == DayNumber(d)
  {
  }

  // -------- parsing --------

  predicate Digit(c: char) {
    '0' <= c <= '9'
  }

  function Value(c: char): nat
    requires Digit(c)
  {
    c as int - '0' as int
  }

  function MonthOf(c0: char, c1: char, c2: char): Option<nat> {
    match c0
    case 'J' => Some(if c1 == 'a' then 0 else if c2 == 'n' then 5 else 6)
    case 'F' => Some(1)
    case 'M' => Some(if c2 == 'r' then 2 else 4)
    case 'A' => Some(if c1 == 'p' then 3 else 7)
    case 'S' => Some(8)
    case 'O' => Some(9)
    case 'N' => Some(10)
    case 'D' => Some(11)
    case _ => None
  }

  // The number of the n digits at position p.
  function Number(t: string, p: nat, n: nat): Option<nat>
    requires p + n <= |t| && 1 <= n
  {
    if !Digit(t[p + n - 1]) then None
    else if n == 1 then Some(Value(t[p]))
    else match Number(t, p, n - 1)
      case None => None
      case Some(high) => Some(high * 10 + Value(t[p + n - 1]))
  }

  // hh:mm:ss at position p
  function Clock(t: string, p: nat): Option<(nat, nat, nat)>
    requires p + 8 <= |t|
  {
    var h, m, s := Number(t, p, 2), Number(t, p + 3, 2), Number(t, p + 6, 2);
    if h.Some? && t[p + 2] == ':' && m.Some? && t[p + 5] == ':' && s.Some?
    then Some((h.value, m.value, s.value)) else None
  }

  // The checks of the fields, and the time.
  function Finish(d: Date): Option<int>
    requires d.month < 12
  {
    if d.hour > 23 || d.min > 59 || d.sec > 59 then None
    else if d.day == 29 && d.month == 1 then
      if d.year % 4 != 0 || (d.year % 100 == 0 && d.year % 400 != 0) then None else Some(Gauss(d))
    else if d.day > MonthLength(d.month, false) then None
    else Some(Gauss(d))
  }

  // "10 Nov 2002 23:50:13"
  function Rfc822(t: string): Option<int>
    requires |t| >= 20
  {
    var day, year, clock := Number(t, 0, 2), Number(t, 7, 4), Clock(t, 12);
    var month := MonthOf(t[3], t[4], t[5]);
    if day.Some? && t[2] == ' ' && month.Some? && t[6] == ' ' && year.Some? && t[11] == ' ' && clock.Some?
    then Finish(Date(year.value, month.value, day.value, clock.value.0, clock.value.1, clock.value.2)) else None
  }

  // "10-Dec-02 23:50:13"
  function Rfc850(t: string): Option<int>
    requires |t| >= 18
  {
    var day, year, clock := Number(t, 0, 2), Number(t, 7, 2), Clock(t, 10);
    var month := MonthOf(t[3], t[4], t[5]);
    if day.Some? && t[2] == '-' && month.Some? && t[6] == '-' && year.Some? && t[9] == ' ' && clock.Some?
    then Finish(Date(year.value + (if year.value < 70 then 2000 else 1900), month.value, day.value,
                     clock.value.0, clock.value.1, clock.value.2)) else None
  }

  // "Dec 10 23:50:13 2002" and "Dec  1 23:50:13 2002"; what is between month and day is
  // not looked at.
  function Isoc(t: string): Option<int>
    requires |t| >= 18
  {
    var month := MonthOf(t[0], t[1], t[2]);
    var p := if t[4] == ' ' then 5 else 4;
    if month.None? || !Digit(t[p]) then None
    else
      var two := t[p + 1] != ' ';
      var day := if two then Number(t, p, 2) else Number(t, p, 1);
      var q := if two then p + 2 else p + 1;
      if day.None? || |t| - q < 14 || t[q] != ' ' then None
      else
        var clock, year := Clock(t, q + 1), Number(t, q + 10, 4);
        if clock.Some? && t[q + 9] == ' ' && year.Some?
        then Finish(Date(year.value, month.value, day.value, clock.value.0, clock.value.1, clock.value.2)) else None
  }

  function ParseRest(t: string, isoc: bool): Option<int> {
    if |t| < 18 then None
    else if isoc then Isoc(t)
    else if t[2] == ' ' then (if |t| < 20 then None else Rfc822(t))
    else Rfc850(t)
  }

  // Behind the first comma or space, and the spaces after it; a space means the third form.
  function Start(s: string): (string, bool) {
    if s == [] then ([], false)
    else if s[0] == ',' then (SkipSpaces(s[1..]), false)
    else if s[0] == ' ' then (SkipSpaces(s[1..]), true)
    else Start(s[1..])
  }

  function SkipSpaces(s: string): string {
    if s != [] && s[0] == ' ' then SkipSpaces(s[1..]) else s
  }

  // ngx_parse_http_time
  method Parse(value: string) returns (r: Option<int>)
    ensures r == ParseRest(Start(value).0, Start(value).1)
  {
    var isoc := false;
    var p := 0;
    assert value[0..] == value;
    while p < |value|
      invariant p <= |value| && !isoc && Start(value) == Start(value[p..])
    {
      if value[p] == ',' {
        break;
      }
      if value[p] == ' ' {
        isoc := true;
        break;
      }
      assert value[p..][1..] == value[p + 1..];
      p := p + 1;
    }
    if p == |value| {
      return None;
    }
    assert value[p..][1..] == value[p + 1..];
    p := p + 1;
    while p < |value| && value[p] == ' '
      invariant p <= |value| && Start(value) == (SkipSpaces(value[p..]), isoc)
    {
      assert value[p..][1..] == value[p + 1..];
      p := p + 1;
    }
    r := ParseRest(value[p..], isoc);
  }

  // -------- the three forms of one date --------

  function Char(n: nat): char
    requires n < 10
  {
    (n + '0' as int) as char
  }

  function Mon(month: nat): string
    requires month < 12
    ensures |Mon(month)| == 3
  {
    match month
    case 0 => "Jan" case 1 => "Feb" case 2 => "Mar" case 3 => "Apr" case 4 => "May" case 5 => "Jun"
    case 6 => "Jul" case 7 => "Aug" case 8 => "Sep" case 9 => "Oct" case 10 => "Nov" case _ => "Dec"
  }

  function Form822(d: Date): string
    requires Fields(d)
  {
    var m := Mon(d.month);
    [Char(d.day / 10), Char(d.day % 10), ' ', m[0], m[1], m[2], ' ',
     Char(d.year / 1000), Char(d.year / 100 % 10), Char(d.year / 10 % 10), Char(d.year % 10), ' ',
     Char(d.hour / 10), Char(d.hour % 10), ':', Char(d.min / 10), Char(d.min % 10), ':',
     Char(d.sec / 10), Char(d.sec % 10)]
  }

  function Form850(d: Date): string
    requires Fields(d)
  {
    var m, y := Mon(d.month), d.year % 100;
    [Char(d.day / 10), Char(d.day % 10), '-', m[0], m[1], m[2], '-', Char(y / 10), Char(y % 10), ' ',
     Char(d.hour / 10), Char(d.hour % 10), ':', Char(d.min / 10), Char(d.min % 10), ':',
     Char(d.sec / 10), Char(d.sec % 10)]
  }

  function FormIsoc(d: Date): string
    requires Fields(d)
  {
    var m := Mon(d.month);
    [m[0], m[1], m[2], ' ', if d.day < 10 then ' ' else Char(d.day / 10), Char(d.day % 10), ' ',
     Char(d.hour / 10), Char(d.hour % 10), ':', Char(d.min / 10), Char(d.min % 10), ':',
     Char(d.sec / 10), Char(d.sec % 10), ' ',
     Char(d.year / 1000), Char(d.year / 100 % 10), Char(d.year / 10 % 10), Char(d.year % 10)]
  }

  lemma MonthBack(month: nat)
    requires month < 12
    ensures MonthOf(Mon(month)[0], Mon(month)[1], Mon(month)[2]) == Some(month)
  {
  }

  // -------- what a string spells --------

  ghost predicate At2(t: string, p: nat, n: nat) {
    p + 2 <= |t| && n < 100 && t[p] == Char(n / 10) && t[p + 1] == Char(n % 10)
  }

  ghost predicate At4(t: string, p: nat, n: nat) {
    && p + 4 <= |t| && n < 10000 && t[p] == Char(n / 1000) && t[p + 1] == Char(n / 100 % 10)
    && t[p + 2] == Char(n / 10 % 10) && t[p + 3] == Char(n % 10)
  }

  ghost predicate ClockAt(t: string, p: nat, d: Date) {
    At2(t, p, d.hour) && At2(t, p + 3, d.min) && At2(t, p + 6, d.sec) && t[p + 2] == ':' && t[p + 5] == ':'
  }

  ghost predicate Spells822(t: string, d: Date) {
    && |t| >= 20 && At2(t, 0, d.day) && t[2] == ' ' && MonthOf(t[3], t[4], t[5]) == Some(d.month) && t[6] == ' '
    && At4(t, 7, d.year) && t[11] == ' ' && ClockAt(t, 12, d)
  }

  ghost predicate Spells850(t: string, d: Date) {
    && |t| >= 18 && At2(t, 0, d.day) && t[2] == '-' && MonthOf(t[3], t[4], t[5]) == Some(d.month) && t[6] == '-'
    && 1970 <= d.year <= 2069 && At2(t, 7, d.year % 100) && t[9] == ' ' && ClockAt(t, 10, d)
  }

  // The rest of the third form, behind the day.
  ghost predicate SpellsTail(t: string, q: nat, d: Date) {
    q + 14 <= |t| && t[q] == ' ' && ClockAt(t, q + 1, d) && t[q + 9] == ' ' && At4(t, q + 10, d.year)
  }

  ghost predicate SpellsIsoc(t: string, d: Date) {
    && |t| >= 18 && MonthOf(t[0], t[1], t[2]) == Some(d.month)
    && var p := if t[4] == ' ' then 5 else 4;
       if t[p + 1] == ' ' then d.day < 10 && t[p] == Char(d.day) && SpellsTail(t, p + 1, d)
       else At2(t, p, d.day) && SpellsTail(t, p + 2, d)
  }

  ghost predicate Spells(t: string, isoc: bool, d: Date) {
    if isoc then SpellsIsoc(t, d) else Spells822(t, d) || Spells850(t, d)
  }

  lemma OneIff(t: string, p: nat)
    requires p < |t|
    ensures Number(t, p, 1).Some? ==> Number(t, p, 1).value < 10 && t[p] == Char(Number(t, p, 1).value)
    ensures forall n :: 0 <= n < 10 && t[p] == Char(n) ==> Number(t, p, 1) == Some(n)
  {
  }

  lemma TwoIff(t: string, p: nat)
    requires p + 2 <= |t|
    ensures Number(t, p, 2).Some? ==> At2(t, p, Number(t, p, 2).value)
    ensures forall n: nat :: At2(t, p, n) ==> Number(t, p, 2) == Some(n)
  {
    OneIff(t, p);
    assert Number(t, p, 2).Some? ==> Number(t, p, 1).Some?;
    forall n: nat | At2(t, p, n)
      ensures Number(t, p, 2) == Some(n)
    {
      assert Number(t, p, 1) == Some(n / 10);
    }
  }

  lemma NumberSnoc(t: string, p: nat, k: nat, high: nat, digit: nat)
    requires 1 <= k && p + k + 1 <= |t| && Number(t, p, k) == Some(high) && digit < 10 && t[p + k] == Char(digit)
    ensures Number(t, p, k + 1) == Some(high * 10 + digit)
  {
  }

  lemma FourDigits(t: string, p: nat, n: nat)
    requires At4(t, p, n)
    ensures Number(t, p, 4) == Some(n)
  {
    hide Number;
    Decimals(n);
    OneIff(t, p);
    NumberSnoc(t, p, 1, n / 1000, n / 100 % 10);
    NumberSnoc(t, p, 2, n / 100, n / 10 % 10);
    NumberSnoc(t, p, 3, n / 10, n % 10);
  }

  lemma Decimals(n: nat)
    requires n <= 9999
    ensures 0 <= n / 1000 <= 9 && n / 100 == 10 * (n / 1000) + n / 100 % 10
    ensures n / 10 == 10 * (n / 100) + n / 10 % 10 && n == 10 * (n / 10) + n % 10
  {
    var a, b := n / 100, n / 10;
    assert n == 1000 * (a / 10) + 100 * (a % 10) + n % 100;
    assert n == 100 * (b / 10) + 10 * (b % 10) + n % 10;
  }

  lemma FourIff(t: string, p: nat)
    requires p + 4 <= |t|
    ensures Number(t, p, 4).Some? ==> At4(t, p, Number(t, p, 4).value)
    ensures forall n: nat :: At4(t, p, n) ==> Number(t, p, 4) == Some(n)
  {
    forall n: nat | At4(t, p, n)
      ensures Number(t, p, 4) == Some(n)
    {
      FourDigits(t, p, n);
    }
    if Number(t, p, 4).Some? {
      assert Number(t, p, 3).Some? && Number(t, p, 2).Some? && Number(t, p, 1).Some?;
      Weights(Value(t[p]), Value(t[p + 1]), Value(t[p + 2]), Value(t[p + 3]));
    }
  }

  lemma Weights(a: nat, b: nat, c: nat, e: nat)
    requires a < 10 && b < 10 && c < 10 && e < 10
    ensures
      var n := ((a * 10 + b) * 10 + c) * 10 + e;
      n < 10000 && n / 1000 == a && n / 100 % 10 == b && n / 10 % 10 == c && n % 10 == e
  {
    var n := ((a * 10 + b) * 10 + c) * 10 + e;
    assert n / 10 == (a * 10 + b) * 10 + c;
    assert n / 100 == a * 10 + b;
  }

  lemma ClockIff(t: string, p: nat)
    requires p + 8 <= |t|
    ensures Clock(t, p).Some? ==>
              var c := Clock(t, p).value;
              At2(t, p, c.0) && At2(t, p + 3, c.1) && At2(t, p + 6, c.2) && t[p + 2] == ':' && t[p + 5] == ':'
    ensures forall d: Date :: ClockAt(t, p, d) ==> Clock(t, p) == Some((d.hour, d.min, d.sec))
  {
    hide Number, At2;
    TwoIff(t, p);
    TwoIff(t, p + 3);
    TwoIff(t, p + 6);
  }

  // What a string spells is what is read.
  lemma SpellsRead(t: string, isoc: bool, d: Date)
    requires Spells(t, isoc, d) && d.month < 12
    ensures ParseRest(t, isoc) == Finish(d)
  {
    hide Finish, Number, At2, At4, MonthOf, Clock, ClockAt, SpellsIsoc;
    if isoc {
      IsocRead(t, d);
    } else {
      TwoIff(t, 0);
      if Spells822(t, d) {
        FourIff(t, 7);
        ClockIff(t, 12);
      } else {
        TwoIff(t, 7);
        ClockIff(t, 10);
        assert d.year % 100 + (if d.year % 100 < 70 then 2000 else 1900) == d.year;
      }
    }
  }

  lemma IsocRead(t: string, d: Date)
    requires SpellsIsoc(t, d) && d.month < 12
    ensures |t| >= 18 && Isoc(t) == Finish(d)
  {
    hide Finish, Number, At4, MonthOf, Clock, ClockAt;
    var p := if t[4] == ' ' then 5 else 4;
    var q := if t[p + 1] == ' ' then p + 1 else p + 2;
    OneIff(t, p);
    TwoIff(t, p);
    FirstDigit(t, p);
    ClockIff(t, q + 1);
    FourIff(t, q + 10);
  }

  lemma FirstDigit(t: string, p: nat)
    requires p + 2 <= |t|
    ensures forall n: nat :: At2(t, p, n) ==> Digit(t[p])
    ensures forall n: nat :: n < 10 && t[p] == Char(n) ==> Digit(t[p])
    ensures Number(t, p, 1).Some? ==> Digit(t[p])
  {
  }

  lemma MonthBound(c0: char, c1: char, c2: char)
    ensures MonthOf(c0, c1, c2).Some? ==> MonthOf(c0, c1, c2).value < 12
  {
  }

  // A string that is accepted spells a date.
  lemma ReadSpells(t: string, isoc: bool) returns (d: Date)
    requires ParseRest(t, isoc).Some?
    ensures d.month < 12 && Spells(t, isoc, d)
  {
    hide Finish, Number, At2, At4, MonthOf, Clock, SpellsIsoc;
    if isoc {
      d := IsocSpells(t);
    } else {
      MonthBound(t[3], t[4], t[5]);
      TwoIff(t, 0);
      var day, month := Number(t, 0, 2), MonthOf(t[3], t[4], t[5]);
      if t[2] == ' ' {
        FourIff(t, 7);
        ClockIff(t, 12);
        var c := Clock(t, 12).value;
        d := Date(Number(t, 7, 4).value, month.value, day.value, c.0, c.1, c.2);
      } else {
        TwoIff(t, 7);
        ClockIff(t, 10);
        var c, y := Clock(t, 10).value, Number(t, 7, 2).value;
        TwoBound(t, 7, y);
        d := Date(y + (if y < 70 then 2000 else 1900), month.value, day.value, c.0, c.1, c.2);
      }
    }
  }

  lemma TwoBound(t: string, p: nat, n: nat)
    requires At2(t, p, n)
    ensures n < 100
  {
  }

  lemma IsocSpells(t: string) returns (d: Date)
    requires |t| >= 18 && Isoc(t).Some?
    ensures d.month < 12 && SpellsIsoc(t, d)
  {
    hide Finish, Number, At2, At4, MonthOf, Clock;
    MonthBound(t[0], t[1], t[2]);
    var p := if t[4] == ' ' then 5 else 4;
    var q := if t[p + 1] == ' ' then p + 1 else p + 2;
    OneIff(t, p);
    TwoIff(t, p);
    ClockIff(t, q + 1);
    FourIff(t, q + 10);
    var c, day := Clock(t, q + 1).value, if t[p + 1] == ' ' then Number(t, p, 1) else Number(t, p, 2);
    d := Date(Number(t, q + 10, 4).value, MonthOf(t[0], t[1], t[2]).value, day.value, c.0, c.1, c.2);
  }

  // Just these dates are let through; day 0 is one of every month.
  ghost predicate Passes(d: Date) {
    d.month < 12 && d.day <= MonthLength(d.month, Leap(d.year)) && d.hour < 24 && d.min < 60 && d.sec < 60
  }

  lemma FinishExact(d: Date)
    requires Fields(d)
    ensures Finish(d) == if Passes(d) then Some(Seconds(d) + (if Wraps(d) then 10368 else 0)) else None
    ensures Valid(d) <==> Passes(d) && d.day > 0 && d.year > 0
  {
    hide Gauss, Seconds;
    GaussExact(d);
  }

  lemma SpellsFields(t: string, isoc: bool, d: Date)
    requires Spells(t, isoc, d) && d.month < 12
    ensures Fields(d)
  {
    hide MonthOf, Char;
  }

  // The parser accepts just the strings that spell a date which passes, and gives its time.
  lemma Accepted(t: string, isoc: bool)
    ensures ParseRest(t, isoc).Some? <==> exists d :: Spells(t, isoc, d) && Passes(d)
    ensures forall d :: Spells(t, isoc, d) && Passes(d) ==>
              ParseRest(t, isoc) == Some(Seconds(d) + (if Wraps(d) then 10368 else 0))
  {
    hide ParseRest, Spells, Finish, Seconds, Fields;
    forall d | Spells(t, isoc, d) && d.month < 12
      ensures ParseRest(t, isoc) == if Passes(d) then Some(Seconds(d) + (if Wraps(d) then 10368 else 0)) else None
    {
      SpellsRead(t, isoc, d);
      SpellsFields(t, isoc, d);
      FinishExact(d);
    }
    if ParseRest(t, isoc).Some? {
      var d := ReadSpells(t, isoc);
      assert Spells(t, isoc, d) && Passes(d);
    }
  }

  // -------- the three forms of a date --------

  lemma Back822(d: Date, rest: string)
    requires Fields(d)
    ensures Spells(Form822(d) + rest, false, d)
  {
    hide Mon, MonthOf, Char;
    MonthBack(d.month);
  }

  lemma Back850(d: Date, rest: string)
    requires Fields(d) && 1970 <= d.year <= 2069
    ensures Spells(Form850(d) + rest, false, d)
  {
    hide Mon, MonthOf, Char;
    MonthBack(d.month);
  }

  lemma BackIsoc(d: Date, rest: string)
    requires Fields(d)
    ensures Spells(FormIsoc(d) + rest, true, d)
  {
    hide Mon, MonthOf;
    MonthBack(d.month);
  }

  // The day name before the comma or the space is not looked at.
  predicate DayName(w: string) {
    ',' !in w && ' ' !in w
  }

  lemma {:induction false} StartAfter(w: string, c: char, rest: string)
    requires DayName(w) && (c == ',' || c == ' ')
    ensures Start(w + [c] + rest) == (SkipSpaces(rest), c == ' ')
  {
    var s := w + [c] + rest;
    if w == [] {
      assert s == [c] + rest && s[1..] == rest;
    } else {
      assert w[0] in w && s[0] == w[0] && s[1..] == w[1..] + [c] + rest;
      assert forall x :: x in w[1..] ==> x in w;
      StartAfter(w[1..], c, rest);
    }
  }

  // All three forms of a date give its time.
  lemma ThreeForms(d: Date, w: string, rest: string)
    requires Valid(d) && d.year <= 9999 && DayName(w)
    ensures ParseRest(Start(w + ", " + Form822(d) + rest).0, Start(w + ", " + Form822(d) + rest).1) == Some(Seconds(d))
    ensures 1970 <= d.year <= 2069 ==>
              ParseRest(Start(w + ", " + Form850(d) + rest).0, Start(w + ", " + Form850(d) + rest).1)
              == Some(Seconds(d))
    ensures ParseRest(Start(w + " " + FormIsoc(d) + rest).0, Start(w + " " + FormIsoc(d) + rest).1) == Some(Seconds(d))
  {
    hide ParseRest, Seconds, Start, Finish, Spells;
    Spaced(w, ',', " " + Form822(d) + rest, Form822(d) + rest);
    Back822(d, rest);
    Accepted(Form822(d) + rest, false);
    assert w + ", " + Form822(d) + rest == w + [','] + (" " + Form822(d) + rest);
    if 1970 <= d.year <= 2069 {
      Spaced(w, ',', " " + Form850(d) + rest, Form850(d) + rest);
      Back850(d, rest);
      Accepted(Form850(d) + rest, false);
      assert w + ", " + Form850(d) + rest == w + [','] + (" " + Form850(d) + rest);
    }
    Spaced(w, ' ', FormIsoc(d) + rest, FormIsoc(d) + rest);
    BackIsoc(d, rest);
    Accepted(FormIsoc(d) + rest, true);
    assert w + " " + FormIsoc(d) + rest == w + [' '] + (FormIsoc(d) + rest);
  }

  lemma Spaced(w: string, c: char, s: string, t: string)
    requires DayName(w) && (c == ',' || c == ' ') && (s == t || s == " " + t) && t != [] && t[0] != ' '
    ensures Start(w + [c] + s) == (t, c == ' ')
  {
    StartAfter(w, c, s);
    assert s == " " + t ==> s[1..] == t;
  }

  // -------- dates that are no dates --------

  lemma Passing(t: string, d: Date)
    requires |t| > 0 && t[0] != ' ' && Spells822(t, d) && Passes(d)
    ensures
      var s := Start("Mon, " + t);
      ParseRest(s.0, s.1) == Some(Seconds(d) + (if Wraps(d) then 10368 else 0))
  {
    hide ParseRest, Seconds, Start, Finish, Spells822, Passes;
    Spaced("Mon", ',', " " + t, t);
    assert "Mon, " + t == "Mon" + [','] + (" " + t);
    assert Spells(t, false, d);
    Accepted(t, false);
  }

  // Day 0 is the day before the first one.
  method DayZero() returns (r: Option<int>)
    ensures r == Some(-86400)
  {
    var t := "00 Jan 1970 00:00:00 GMT";
    DayZeroTime();
    Passing(t, Date(1970, 0, 0, 0, 0, 0));
    r := Parse("Mon, " + t);
  }

  lemma DayZeroTime()
    ensures
      var d := Date(1970, 0, 0, 0, 0, 0);
      Spells822("00 Jan 1970 00:00:00 GMT", d) && Passes(d) && Seconds(d) == -86400
  {
    hide DaysBeforeYear;
  }

  // The first second of year 0 comes out 10368 seconds late.
  method YearNought() returns (r: Option<int>)
    ensures r == Some(-719528 * 86400 + 10368)
  {
    var t := "01 Jan 0000 00:00:00 GMT";
    YearNoughtText();
    YearNoughtTime();
    Passing(t, Date(0, 0, 1, 0, 0, 0));
    r := Parse("Mon, " + t);
  }

  lemma YearNoughtText()
    ensures Spells822("01 Jan 0000 00:00:00 GMT", Date(0, 0, 1, 0, 0, 0))
  {
    hide MonthOf, Char;
    January();
    var t := "01 Jan 0000 00:00:00 GMT";
    assert At2(t, 0, 1) && At4(t, 7, 0);
    assert ClockAt(t, 12, Date(0, 0, 1, 0, 0, 0));
  }

  lemma January()
    ensures MonthOf('J', 'a', 'n') == Some(0) && Char(0) == '0' && Char(1) == '1'
  {
  }

  lemma YearNoughtTime()
    ensures Passes(Date(0, 0, 1, 0, 0, 0)) && Seconds(Date(0, 0, 1, 0, 0, 0)) == -719528 * 86400
  {
    hide DaysBeforeYear;
    YearsClosed(0);
    YearsClosed(1970);
  }
}
