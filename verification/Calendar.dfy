/** The civil-calendar arithmetic of rotation and the UTC bucket boundaries. */
module Calendar {
  /** C division of 64-bit integers: it truncates toward zero. */
  function CDiv(a: int, b: int): int
    requires b > 0
  {
    if a >= 0 then a / b else -((-a) / b)
  }

  /** The remainder that goes with it: it has the sign of `a`. */
  function CMod(a: int, b: int): int
    requires b > 0
  {
    a - CDiv(a, b) * b
  }

  datatype Date = Date(y: int, m: int, d: int)

  predicate Leap(y: int) { y % 4 == 0 && (y % 100 != 0 || y % 400 == 0) }

  function DaysInMonth(y: int, m: int): int
    requires 1 <= m <= 12
  {
    if m == 2 then (if Leap(y) then 29 else 28)
    else if m == 4 || m == 6 || m == 9 || m == 11 then 30
    else 31
  }

  predicate ValidDate(x: Date) { 1 <= x.m <= 12 && 1 <= x.d <= DaysInMonth(x.y, x.m) }

  // ---------------------------------------------------------------- the two conversions

  function DaysFromCivil(x: Date): int {
    var y := if x.m <= 2 then x.y - 1 else x.y;
    var era := CDiv(if y >= 0 then y else y - 399, 400);
    var yoe := y - era * 400;
    var shift := x.m + if x.m > 2 then -3 else 9;
    var doy := (153 * shift + 2) / 5 + x.d - 1;
    var doe := yoe * 365 + yoe / 4 - yoe / 100 + doy;
    era * 146097 + doe - 719468
  }

  function YearOfEra(doe: int): int {
    CDiv(doe - CDiv(doe, 1460) + CDiv(doe, 36524) - CDiv(doe, 146096), 365)
  }

  function CivilFromDays(day: int): Date {
    var z := day + 719468;
    var era := CDiv(if z >= 0 then z else z - 146096, 146097);
    var doe := z - era * 146097;
    var yoe := YearOfEra(doe);
    var doy := doe - (365 * yoe + CDiv(yoe, 4) - CDiv(yoe, 100));
    var mp := CDiv(5 * doy + 2, 153);
    var m := mp + if mp < 10 then 3 else -9;
    Date(yoe + era * 400 + (if m <= 2 then 1 else 0), m, doy - CDiv(153 * mp + 2, 5) + 1)
  }

  // ---------------------------------------------------------------- days of an era

  /** A year of the era, counted from March, as centuries, four-year cycles and the rest. */
  predicate EraYear(c: int, q: int, r: int) { 0 <= c < 4 && 0 <= q < 25 && 0 <= r < 4 }

  /** The last day of such a year: 365 when the February it ends with has 29 days. */
  function LastDay(c: int, q: int, r: int): int { if r == 3 && (q != 24 || c == 3) then 365 else 364 }

  function DayOfEra(c: int, q: int, r: int, doy: int): int { 36524 * c + 1461 * q + 365 * r + doy }

  lemma YearIsRecovered(c: int, q: int, r: int, doy: int)
    requires EraYear(c, q, r) && 0 <= doy <= LastDay(c, q, r)
    ensures 0 <= DayOfEra(c, q, r, doy) < 146097
    ensures YearOfEra(DayOfEra(c, q, r, doy)) == 100 * c + 4 * q + r
  {
    var doe := DayOfEra(c, q, r, doy);
    var t := 24 * c + q + 365 * r + doy;
    var carry := if t >= 1460 then 1 else 0;
    assert doe / 1460 == 25 * c + q + carry by {
      assert doe == 1460 * (25 * c + q) + t;
    }
    assert doe / 36524 - doe / 146096 == c;
  }

  lemma SplitYear(yoe: int) returns (c: int, q: int, r: int)
    requires 0 <= yoe < 400
    ensures EraYear(c, q, r) && yoe == 100 * c + 4 * q + r
    ensures yoe / 4 == 25 * c + q && yoe / 100 == c
    ensures Leap(yoe + 1) <==> LastDay(c, q, r) == 365
  {
    c := yoe / 100;
    q := yoe % 100 / 4;
    r := yoe % 4;
  }

  lemma SplitDay(doe: int) returns (c: int, q: int, r: int, doy: int)
    requires 0 <= doe < 146097
    ensures EraYear(c, q, r) && 0 <= doy <= LastDay(c, q, r) && doe == DayOfEra(c, q, r, doy)
  {
    c := if doe == 146096 then 3 else doe / 36524;
    var rem := doe - 36524 * c;
    q := rem / 1461;
    var rem2 := rem - 1461 * q;
    r := if rem2 == 1460 then 3 else rem2 / 365;
    doy := rem2 - 365 * r;
  }

  // ---------------------------------------------------------------- months of a year

  /** Months counted from March: where month `s` starts in the year. */
  function MonthStart(s: int): int { (153 * s + 2) / 5 }

  function ShiftedLength(s: int, lastDay: int): int {
    if s == 11 then lastDay - 336
    else if s == 1 || s == 3 || s == 6 || s == 8 then 30
    else 31
  }

  lemma MonthIsRecovered(s: int, d: int, lastDay: int)
    requires 0 <= s < 12 && 364 <= lastDay <= 365 && 1 <= d <= ShiftedLength(s, lastDay)
    ensures var doy := MonthStart(s) + d - 1;
            0 <= doy <= lastDay && (5 * doy + 2) / 153 == s
  {
    assert s == 0 || s == 1 || s == 2 || s == 3 || s == 4 || s == 5
           || s == 6 || s == 7 || s == 8 || s == 9 || s == 10 || s == 11;
  }

  lemma MonthIsFound(doy: int, lastDay: int)
    requires 364 <= lastDay <= 365 && 0 <= doy <= lastDay
    ensures var s := (5 * doy + 2) / 153;
            0 <= s < 12 && 1 <= doy - MonthStart(s) + 1 <= ShiftedLength(s, lastDay)
  {
    var s := (5 * doy + 2) / 153;
    assert s == 0 || s == 1 || s == 2 || s == 3 || s == 4 || s == 5
           || s == 6 || s == 7 || s == 8 || s == 9 || s == 10 || s == 11;
  }

  // ---------------------------------------------------------------- both views of a day

  /** A date and a day number described by the same era, year of era and day of year. */
  ghost predicate Same(x: Date, day: int, era: int, c: int, q: int, r: int, s: int) {
    && EraYear(c, q, r) && 0 <= s < 12
    && x.m == (if s < 10 then s + 3 else s - 9)
    && x.y == 400 * era + 100 * c + 4 * q + r + (if s < 10 then 0 else 1)
    && 1 <= x.d <= ShiftedLength(s, LastDay(c, q, r))
    && day == 146097 * era + DayOfEra(c, q, r, MonthStart(s) + x.d - 1) - 719468
  }

  lemma EraOfYear(y: int, era: int, yoe: int)
    requires y == 400 * era + yoe && 0 <= yoe < 400
    ensures CDiv(if y >= 0 then y else y - 399, 400) == era
  {
  }

  lemma EraOfDay(z: int, era: int, doe: int)
    requires z == 146097 * era + doe && 0 <= doe < 146097
    ensures CDiv(if z >= 0 then z else z - 146096, 146097) == era
  {
  }

  lemma LeapOfEra(era: int, yoe: int)
    ensures Leap(400 * era + yoe) == Leap(yoe)
  {
    Shift4(100 * era, yoe);
    Shift100(4 * era, yoe);
    Shift400(era, yoe);
  }

  lemma Shift4(k: int, x: int)
    ensures (4 * k + x) % 4 == x % 4
  {
  }

  lemma Shift100(k: int, x: int)
    ensures (100 * k + x) % 100 == x % 100
  {
  }

  lemma Shift400(k: int, x: int)
    ensures (400 * k + x) % 400 == x % 400
  {
  }

  lemma SameValid(x: Date, day: int, era: int, c: int, q: int, r: int, s: int)
    requires Same(x, day, era, c, q, r, s)
    ensures ValidDate(x)
  {
    if s == 11 {
      var yoe := 100 * c + 4 * q + r;
      var c', q', r' := SplitYear(yoe);
      LeapOfEra(era, yoe + 1);
    }
  }

  lemma SameDays(x: Date, day: int, era: int, c: int, q: int, r: int, s: int)
    requires Same(x, day, era, c, q, r, s)
    ensures DaysFromCivil(x) == day
  {
    hide Leap, LastDay, ShiftedLength, CDiv;
    var yoe := 100 * c + 4 * q + r;
    assert yoe / 4 == 25 * c + q && yoe / 100 == c;
    EraOfYear(400 * era + yoe, era, yoe);
  }

  /** CivilFromDays when its intermediate values are known. */
  lemma CivilSteps(day: int, era: int, doe: int, yoe: int, doy: int, s: int)
    requires day + 719468 == 146097 * era + doe && 0 <= doe < 146097 && YearOfEra(doe) == yoe >= 0
    requires doe == 365 * yoe + yoe / 4 - yoe / 100 + doy && doy >= 0 && (5 * doy + 2) / 153 == s
    ensures var m := s + if s < 10 then 3 else -9;
            CivilFromDays(day) == Date(yoe + era * 400 + (if m <= 2 then 1 else 0), m, doy - MonthStart(s) + 1)
  {
    hide YearOfEra;
    EraOfDay(day + 719468, era, doe);
  }

  lemma SameCivil(x: Date, day: int, era: int, c: int, q: int, r: int, s: int)
    requires Same(x, day, era, c, q, r, s)
    ensures CivilFromDays(day) == x
  {
    hide Leap, LastDay, ShiftedLength, CDiv, YearOfEra, CivilFromDays;
    var doy := MonthStart(s) + x.d - 1;
    LastDayIs(c, q, r);
    MonthIsRecovered(s, x.d, LastDay(c, q, r));
    YearIsRecovered(c, q, r, doy);
    var yoe := 100 * c + 4 * q + r;
    assert yoe / 4 == 25 * c + q && yoe / 100 == c;
    CivilSteps(day, era, DayOfEra(c, q, r, doy), yoe, doy, s);
  }

  lemma LastDayIs(c: int, q: int, r: int)
    ensures 364 <= LastDay(c, q, r) <= 365
  {
  }

  lemma SplitDate(x: Date) returns (day: int, era: int, c: int, q: int, r: int, s: int)
    requires ValidDate(x)
    ensures Same(x, day, era, c, q, r, s)
  {
    var y := if x.m <= 2 then x.y - 1 else x.y;
    era := y / 400;
    var yoe := y % 400;
    c, q, r := SplitYear(yoe);
    LeapOfEra(era, yoe + 1);
    s := if x.m > 2 then x.m - 3 else x.m + 9;
    day := 146097 * era + DayOfEra(c, q, r, MonthStart(s) + x.d - 1) - 719468;
  }

  lemma SplitDayNumber(day: int) returns (x: Date, era: int, c: int, q: int, r: int, s: int)
    ensures Same(x, day, era, c, q, r, s)
  {
    var z := day + 719468;
    era := z / 146097;
    var doy;
    c, q, r, doy := SplitDay(z % 146097);
    s := (5 * doy + 2) / 153;
    MonthIsFound(doy, LastDay(c, q, r));
    var m := if s < 10 then s + 3 else s - 9;
    x := Date(400 * era + 100 * c + 4 * q + r + (if s < 10 then 0 else 1), m, doy - MonthStart(s) + 1);
  }

  // ---------------------------------------------------------------- main results

  /** The conversions are inverse on every valid date. */
  lemma DateRoundTrip(x: Date)
    requires ValidDate(x)
    ensures CivilFromDays(DaysFromCivil(x)) == x
  {
    var day, era, c, q, r, s := SplitDate(x);
    SameDays(x, day, era, c, q, r, s);
    SameCivil(x, day, era, c, q, r, s);
  }

  /** And on every day number, before and after 1970. */
  lemma DayRoundTrip(day: int)
    ensures ValidDate(CivilFromDays(day)) && DaysFromCivil(CivilFromDays(day)) == day
  {
    var x, era, c, q, r, s := SplitDayNumber(day);
    SameDays(x, day, era, c, q, r, s);
    SameCivil(x, day, era, c, q, r, s);
    SameValid(x, day, era, c, q, r, s);
  }

  function NextMonth(y: int, m: int): Date { if m == 12 then Date(y + 1, 1, 1) else Date(y, m + 1, 1) }

  function NextDay(x: Date): Date
    requires ValidDate(x)
  {
    if x.d < DaysInMonth(x.y, x.m) then x.(d := x.d + 1) else NextMonth(x.y, x.m)
  }

  /** A month later is as many days later as the month has. */
  lemma MonthLength(y: int, m: int)
    requires 1 <= m <= 12
    ensures DaysFromCivil(NextMonth(y, m)) == DaysFromCivil(Date(y, m, 1)) + DaysInMonth(y, m)
  {
    var day, era, c, q, r, s := SplitDate(Date(y, m, 1));
    SameDays(Date(y, m, 1), day, era, c, q, r, s);
    var next, era', c', q', r', s' := SplitDate(NextMonth(y, m));
    SameDays(NextMonth(y, m), next, era', c', q', r', s');
    hide Same, DaysFromCivil, DaysInMonth;
    if s < 11 {
      WithinYear(y, m, day, era, c, q, r, s, next, era', c', q', r', s');
    } else {
      AcrossYears(y, m, day, era, c, q, r, s, next, era', c', q', r', s');
    }
  }

  lemma WithinYear(y: int, m: int, day: int, era: int, c: int, q: int, r: int, s: int,
                   next: int, era': int, c': int, q': int, r': int, s': int)
    requires 1 <= m <= 12 && s < 11
    requires Same(Date(y, m, 1), day, era, c, q, r, s) && Same(NextMonth(y, m), next, era', c', q', r', s')
    ensures next == day + DaysInMonth(y, m)
  {
    hide LastDay, ShiftedLength, DaysInMonth, MonthStart;
    SameYear(era, c, q, r, era', c', q', r');
    ShortMonth(y, m, s, c, q, r);
  }

  lemma AcrossYears(y: int, m: int, day: int, era: int, c: int, q: int, r: int, s: int,
                    next: int, era': int, c': int, q': int, r': int, s': int)
    requires 1 <= m <= 12 && s == 11
    requires Same(Date(y, m, 1), day, era, c, q, r, s) && Same(NextMonth(y, m), next, era', c', q', r', s')
    ensures next == day + DaysInMonth(y, m)
  {
    hide LastDay, ShiftedLength, DaysInMonth, EraYear;
    FollowingYear(era, c, q, r, era', c', q', r');
    FebruaryLength(y, era, c, q, r);
    assert MonthStart(11) == 337 && MonthStart(0) == 0;
  }

  lemma SameYear(era: int, c: int, q: int, r: int, era': int, c': int, q': int, r': int)
    requires EraYear(c, q, r) && EraYear(c', q', r')
    requires 400 * era + 100 * c + 4 * q + r == 400 * era' + 100 * c' + 4 * q' + r'
    ensures era == era' && c == c' && q == q' && r == r'
  {
  }

  lemma ShortMonth(y: int, m: int, s: int, c: int, q: int, r: int)
    requires 1 <= m <= 12 && 0 <= s < 11 && m == (if s < 10 then s + 3 else s - 9)
    ensures MonthStart(s + 1) == MonthStart(s) + DaysInMonth(y, m)
  {
    assert s == 0 || s == 1 || s == 2 || s == 3 || s == 4 || s == 5
           || s == 6 || s == 7 || s == 8 || s == 9 || s == 10;
  }

  lemma CycleYear(c: int, q: int, r: int)
    requires r < 3
    ensures DayOfEra(c, q, r + 1, 0) == DayOfEra(c, q, r, 364) + 1 && LastDay(c, q, r) == 364
  {
  }

  lemma CycleEnd(c: int, q: int)
    requires q < 24
    ensures DayOfEra(c, q + 1, 0, 0) == DayOfEra(c, q, 3, 365) + 1 && LastDay(c, q, 3) == 365
  {
  }

  lemma CenturyEnd(c: int)
    requires c < 3
    ensures DayOfEra(c + 1, 0, 0, 0) == DayOfEra(c, 24, 3, 364) + 1 && LastDay(c, 24, 3) == 364
  {
  }

  lemma EraEnd(c: int, q: int, r: int)
    requires c == 3 && q == 24 && r == 3
    ensures DayOfEra(c, q, r, 0) == 145731
  {
    assert 36524 * c == 109572;
    assert 1461 * q == 35064;
  }

  lemma EraStart()
    ensures DayOfEra(0, 0, 0, 0) == 0 && LastDay(3, 24, 3) == 365
  {
  }

  lemma DayLast(c: int, q: int, r: int)
    ensures DayOfEra(c, q, r, LastDay(c, q, r)) == DayOfEra(c, q, r, 0) + LastDay(c, q, r)
  {
  }

  /** The year after: the next of the cycle, the first of the next cycle, of the next
      century, or of the next era. */
  lemma YearAfter(c: int, q: int, r: int) returns (era': int, c': int, q': int, r': int)
    requires EraYear(c, q, r)
    ensures EraYear(c', q', r') && 100 * c + 4 * q + r + 1 == 400 * era' + 100 * c' + 4 * q' + r'
    ensures 146097 * era' + DayOfEra(c', q', r', 0) == DayOfEra(c, q, r, LastDay(c, q, r)) + 1
  {
    hide DayOfEra, LastDay;
    if r < 3 {
      CycleYear(c, q, r);
      return 0, c, q, r + 1;
    }
    if q < 24 {
      CycleEnd(c, q);
      return 0, c, q + 1, 0;
    }
    if c < 3 {
      CenturyEnd(c);
      return 0, c + 1, 0, 0;
    }
    EraEnd(c, q, r);
    EraStart();
    DayLast(c, q, r);
    return 1, 0, 0, 0;
  }

  lemma FollowingYear(era: int, c: int, q: int, r: int, era': int, c': int, q': int, r': int)
    requires EraYear(c, q, r) && EraYear(c', q', r')
    requires 400 * era + 100 * c + 4 * q + r + 1 == 400 * era' + 100 * c' + 4 * q' + r'
    ensures 146097 * era' + DayOfEra(c', q', r', 0) == 146097 * era + DayOfEra(c, q, r, LastDay(c, q, r)) + 1
  {
    hide EraYear, DayOfEra, LastDay;
    var e, x, y, z := YearAfter(c, q, r);
    SameYear(era + e, x, y, z, era', c', q', r');
  }

  lemma FebruaryLength(y: int, era: int, c: int, q: int, r: int)
    requires EraYear(c, q, r) && y == 400 * era + 100 * c + 4 * q + r + 1
    ensures DaysInMonth(y, 2) == LastDay(c, q, r) - 336
  {
    var c', q', r' := SplitYear(100 * c + 4 * q + r);
    SameYear(0, c, q, r, 0, c', q', r');
    LeapOfEra(era, 100 * c + 4 * q + r + 1);
  }

  lemma SameMonth(x: Date)
    requires ValidDate(x)
    ensures DaysFromCivil(x) == DaysFromCivil(Date(x.y, x.m, 1)) + x.d - 1
  {
  }

  /** What makes the numbers a calendar: 1970-01-01 is day 0 and the next date is the next
      day. */
  lemma NextDayIsNextNumber(x: Date)
    requires ValidDate(x)
    ensures DaysFromCivil(NextDay(x)) == DaysFromCivil(x) + 1
    ensures DaysFromCivil(Date(1970, 1, 1)) == 0
  {
    hide DaysFromCivil, DaysInMonth;
    Epoch();
    SameMonth(x);
    MonthLength(x.y, x.m);
    if x.d < DaysInMonth(x.y, x.m) { SameMonth(NextDay(x)); }
  }

  lemma Epoch()
    ensures DaysFromCivil(Date(1970, 1, 1)) == 0
  {
  }

  // ---------------------------------------------------------------- bucket boundaries

  datatype Unit = Hour | Day | Week | Month

  const DAY: int := 86400

  /** hpu_rotate_next_boundary, UTC branch. */
  function NextBoundary(ts: int, unit: Unit): int {
    var day := CDiv(ts, DAY);
    match unit
    case Hour => (CDiv(ts, 3600) + 1) * 3600
    case Day => (day + 1) * DAY
    case Week =>
      var wday := CMod(day + 4, 7);
      var boundary := (day + CMod(1 - wday + 7, 7)) * DAY;
      if boundary <= ts then boundary + 7 * DAY else boundary
    case Month =>
      var x := CivilFromDays(day);
      var m := x.m + 1;
      DaysFromCivil(if m > 12 then Date(x.y + 1, 1, 1) else Date(x.y, m, 1)) * DAY
  }

  /** The instants at which a bucket of the unit starts; day 0 was a Thursday. */
  predicate Starts(unit: Unit, t: int) {
    match unit
    case Hour => t % 3600 == 0
    case Day => t % DAY == 0
    case Week => t % DAY == 0 && (t / DAY) % 7 == 4
    case Month => t % DAY == 0 && CivilFromDays(t / DAY).d == 1
  }

  /** Full hours, midnights, midnights of whole weeks after Monday 5 January 1970, and
      midnights of a first of the month. */
  lemma StartsMeans(t: int)
    ensures Starts(Hour, t) <==> t % 3600 == 0
    ensures Starts(Day, t) <==> t % (24 * 3600) == 0
    ensures Starts(Week, t) <==> (t - 24 * 3600 * DaysFromCivil(Date(1970, 1, 5))) % (7 * 24 * 3600) == 0
    ensures Starts(Month, t) <==> exists y, m | 1 <= m <= 12 :: t == 24 * 3600 * DaysFromCivil(Date(y, m, 1))
  {
    FirstMonday();
    Weeks(t);
    MonthStarts(t);
    hide DaysFromCivil, CivilFromDays;
  }

  lemma FirstMonday()
    ensures DaysFromCivil(Date(1970, 1, 5)) == 4
  {
  }

  lemma MonthStarts(t: int)
    ensures Starts(Month, t) <==> exists y, m | 1 <= m <= 12 :: t == 24 * 3600 * DaysFromCivil(Date(y, m, 1))
  {
    hide DaysFromCivil, CivilFromDays;
    if Starts(Month, t) {
      DayRoundTrip(t / DAY);
      var x := CivilFromDays(t / DAY);
      assert t == 24 * 3600 * DaysFromCivil(Date(x.y, x.m, 1));
    }
    forall y, m | 1 <= m <= 12 && t == 24 * 3600 * DaysFromCivil(Date(y, m, 1)) ensures Starts(Month, t) {
      DateRoundTrip(Date(y, m, 1));
      assert t / DAY == DaysFromCivil(Date(y, m, 1));
    }
  }

  lemma Weeks(t: int)
    ensures t % 86400 == 0 && (t / 86400) % 7 == 4 <==> (t - 4 * 86400) % (7 * 86400) == 0
  {
  }

  lemma NoMultipleBetween(k: int, n: int, t: int)
    requires n > 0 && k * n < t < (k + 1) * n
    ensures t % n != 0
  {
    var j := t / n;
    if j <= k { MulMono(j, k, n); } else { MulMono(k + 1, j, n); }
  }

  lemma MulMono(a: int, b: int, n: int)
    requires a <= b && n > 0
    ensures a * n <= b * n
  {
  }

  lemma MonthRun(day: int, t: int)
    requires var x := CivilFromDays(day); day < t < DaysFromCivil(NextMonth(x.y, x.m))
    ensures CivilFromDays(t).d != 1
  {
    hide DaysFromCivil, CivilFromDays, DaysInMonth;
    var x := CivilFromDays(day);
    DayRoundTrip(day);
    MonthLength(x.y, x.m);
    SameMonth(x);
    var later := x.(d := x.d + (t - day));
    SameMonth(later);
    DateRoundTrip(later);
  }

  lemma MonthBoundary(day: int)
    ensures var x := CivilFromDays(day); var b := DaysFromCivil(NextMonth(x.y, x.m));
            day < b && CivilFromDays(b).d == 1
  {
    hide DaysFromCivil, CivilFromDays;
    var x := CivilFromDays(day);
    DayRoundTrip(day);
    MonthLength(x.y, x.m);
    SameMonth(x);
    DateRoundTrip(NextMonth(x.y, x.m));
  }

  lemma WeekBoundary(day: int, ts: int)
    requires day == ts / DAY && ts >= 0
    ensures var b := NextBoundary(ts, Week); b % DAY == 0 && day < b / DAY <= day + 7 && (b / DAY) % 7 == 4
  {
    var ahead := (1 - (day + 4) % 7 + 7) % 7;
    assert CMod(day + 4, 7) == (day + 4) % 7 && CMod(1 - (day + 4) % 7 + 7, 7) == ahead;
    var b := (day + ahead) * DAY;
    assert b / DAY == day + ahead && (b + 7 * DAY) / DAY == day + ahead + 7;
    assert (day + ahead) % 7 == 4 && (day + ahead + 7) % 7 == 4;
  }

  lemma HourIsLeast(ts: int)
    requires ts >= 0
    ensures IsLeast(ts, Hour)
  {
    forall t | ts < t < NextBoundary(ts, Hour) ensures !Starts(Hour, t) { NoMultipleBetween(ts / 3600, 3600, t); }
  }

  lemma DayIsLeast(ts: int)
    requires ts >= 0
    ensures IsLeast(ts, Day)
  {
    forall t | ts < t < NextBoundary(ts, Day) ensures !Starts(Day, t) { NoMultipleBetween(ts / DAY, DAY, t); }
  }

  lemma WeekIsLeast(ts: int)
    requires ts >= 0
    ensures IsLeast(ts, Week)
  {
    var b := NextBoundary(ts, Week);
    WeekBoundary(ts / DAY, ts);
    hide NextBoundary;
    forall t | ts < t < b ensures !Starts(Week, t) {
      if t % DAY == 0 { assert ts / DAY < t / DAY < b / DAY; }
    }
  }

  lemma MonthIsLeast(ts: int)
    requires ts >= 0
    ensures IsLeast(ts, Month)
  {
    hide DaysFromCivil, CivilFromDays;
    var b := NextBoundary(ts, Month);
    var x := CivilFromDays(ts / DAY);
    DayRoundTrip(ts / DAY);
    MonthBoundary(ts / DAY);
    assert b == DaysFromCivil(NextMonth(x.y, x.m)) * DAY;
    forall t | ts < t < b ensures !Starts(Month, t) {
      if t % DAY == 0 { MonthRun(ts / DAY, t / DAY); }
    }
  }

  ghost predicate IsLeast(ts: int, unit: Unit) {
    var b := NextBoundary(ts, unit);
    b > ts && Starts(unit, b) && forall t | ts < t < b :: !Starts(unit, t)
  }

  /** For every instant from 1970 on, the next boundary is the least start of a bucket
      strictly after it. */
  lemma NextBoundaryIsLeast(ts: int, unit: Unit)
    requires ts >= 0
    ensures var b := NextBoundary(ts, unit);
            b > ts && Starts(unit, b) && forall t | ts < t < b :: !Starts(unit, t)
  {
    hide NextBoundary, Starts;
    match unit
    case Hour => HourIsLeast(ts);
    case Day => DayIsLeast(ts);
    case Week => WeekIsLeast(ts);
    case Month => MonthIsLeast(ts);
  }
}
