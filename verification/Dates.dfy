// Civil dates (esp32-embedder/worker/kw.c:230-298): the day numbers of Gregorian dates, both ways, and the
// timestamps made of them.
module Dates {
  import opened Bytes

  // ---- the calendar ------------------------------------------------------------------------------------

  datatype Date = Date(y: int, m: int, d: int)

  predicate Leap(y: int) {
    y % 4 == 0 && (y % 100 != 0 || y % 400 == 0)
  }

  function MonthLength(y: int, m: int): int {
    if m == 2 then if Leap(y) then 29 else 28
    else if m == 4 || m == 6 || m == 9 || m == 11 then 30 else 31
  }

  predicate Real(t: Date) {
    1 <= t.m <= 12 && 1 <= t.d <= MonthLength(t.y, t.m)
  }

  function NextDay(t: Date): Date {
    if t.d < MonthLength(t.y, t.m) then t.(d := t.d + 1)
    else if t.m < 12 then Date(t.y, t.m + 1, 1)
    else Date(t.y + 1, 1, 1)
  }

  // ---- the code's arithmetic -----------------------------------------------------------------------------

  // C's division, towards zero.
  function Div(a: int, b: int): int
    requires b > 0
  {
    if a >= 0 then a / b else -(-a / b)
  }

  function Era(y: int): int { Div(if y >= 0 then y else y - 399, 400) }

  // kw_days_from_civil
  function DaysFromCivil(t: Date): int {
    var y := if t.m <= 2 then t.y - 1 else t.y;
    var era := Era(y);
    var yoe := y - era * 400;
    var doy := (153 * (t.m + if t.m > 2 then -3 else 9) + 2) / 5 + t.d - 1;
    var doe := yoe * 365 + yoe / 4 - yoe / 100 + doy;
    era * 146097 + doe - 719468
  }

  // civil_from_days
  function CivilFromDays(days: int): Date {
    var z := days + 719468;
    var era := Div(if z >= 0 then z else z - 146096, 146097);
    DateInEra(era, z - era * 146097)
  }

  function DateInEra(era: int, doe: int): Date {
    var yoe := (doe - doe / 1460 + doe / 36524 - doe / 146096) / 365;
    DateInYear(era, yoe, doe - (365 * yoe + yoe / 4 - yoe / 100))
  }

  function DateInYear(era: int, yoe: int, doy: int): Date {
    var mp := (5 * doy + 2) / 153;
    var m := if mp < 10 then mp + 3 else mp - 9;
    Date(yoe + era * 400 + (if m <= 2 then 1 else 0), m, doy - (153 * mp + 2) / 5 + 1)
  }

  // ---- years that begin in March -----------------------------------------------------------------------------

  lemma FloorDiv(a: int, b: int)
    requires b == 400 || b == 146097
    ensures Div(if a >= 0 then a else a - (b - 1), b) == a / b
  {
  }

  // The day of a March year a month begins on.
  function Begins(mp: int): int { (153 * mp + 2) / 5 }

  lemma MonthsFit(y: int, mp: int)
    requires 0 <= mp <= 10
    ensures var m := if mp < 10 then mp + 3 else mp - 9;
      Begins(mp + 1) == Begins(mp) + MonthLength(if m <= 2 then y + 1 else y, m)
    ensures Begins(11) == 337 && Begins(0) == 0
  {
  }

  // A day of a March year, by month and day, and back.
  lemma MonthBack(mp: int, d: int, doy: int)
    requires 0 <= mp <= 11 && 1 <= d <= 31 && doy == Begins(mp) + d - 1 && (if mp < 11 then doy < Begins(mp + 1) else doy <= 365)
    ensures (5 * doy + 2) / 153 == mp
  {
    assert mp == 0 || mp == 1 || mp == 2 || mp == 3 || mp == 4 || mp == 5 || mp == 6 || mp == 7 || mp == 8 || mp == 9 || mp == 10 || mp == 11;
  }

  // The days of four hundred March years before year yoe of them.
  function YearBegins(yoe: int): int { 365 * yoe + yoe / 4 - yoe / 100 }

  // 36524 days a century, 1461 four years, 365 a year.
  lemma YearParts(c: int, b: int, a: int)
    requires 0 <= c <= 3 && 0 <= b <= 24 && 0 <= a <= 3
    ensures YearBegins(100 * c + 4 * b + a) == 36524 * c + 1461 * b + 365 * a
  {
    assert (100 * c + 4 * b + a) / 4 == 25 * c + b;
    assert (100 * c + 4 * b + a) / 100 == c;
  }

  lemma LeapParts(era: int, c: int, b: int, a: int)
    requires 0 <= c <= 3 && 0 <= b <= 24 && 0 <= a <= 3
    ensures Leap(400 * era + 100 * c + 4 * b + a + 1) <==> a == 3 && (b < 24 || c == 3)
  {
    var y := 400 * era + 100 * c + 4 * b + a + 1;
    assert y == 4 * (100 * era + 25 * c + b) + (a + 1);
    Mod4(100 * era + 25 * c + b, a + 1);
    assert y == 100 * (4 * era + c) + (4 * b + a + 1);
    Mod100(4 * era + c, 4 * b + a + 1);
    Mod400(era, 100 * c + 4 * b + a + 1);
  }

  lemma Mod4(k: int, x: int)
    requires 1 <= x <= 4
    ensures (4 * k + x) % 4 == if x == 4 then 0 else x
  {
  }

  lemma Mod100(k: int, x: int)
    requires 1 <= x <= 100
    ensures (100 * k + x) % 100 == if x == 100 then 0 else x
  {
  }

  lemma Mod400(k: int, x: int)
    requires 1 <= x <= 400
    ensures (400 * k + x) % 400 == if x == 400 then 0 else x
  {
  }

  // How often 1460 days and a century go into a day of four hundred years.
  lemma LeapsBefore(c: int, b: int, a: int, doy: int)
    requires 0 <= c <= 3 && 0 <= b <= 24 && 0 <= a <= 3 && 0 <= doy <= 365
    ensures (36524 * c + 1461 * b + 365 * a + doy) / 1460 == 25 * c + b + if 24 * c + b + 365 * a + doy >= 1460 then 1 else 0
  {
    var s := 24 * c + b + 365 * a + doy;
    assert 36524 * c + 1461 * b + 365 * a + doy == 1460 * (25 * c + b) + s && 0 <= s < 2920;
  }

  lemma CenturiesBefore(c: int, r: int)
    requires 0 <= c <= 3 && 0 <= r <= 36524 && (r == 36524 ==> c == 3)
    ensures (36524 * c + r) / 36524 - (36524 * c + r) / 146096 == c
  {
    assert (36524 * c + r) / 36524 == if r == 36524 then c + 1 else c;
  }

  // The year of a day, by the code's division: off by one nowhere.
  lemma YearBack(c: int, b: int, a: int, doy: int)
    requires 0 <= c <= 3 && 0 <= b <= 24 && 0 <= a <= 3
    requires 0 <= doy <= 364 || (doy == 365 && a == 3 && (b < 24 || c == 3))
    ensures var doe := 36524 * c + 1461 * b + 365 * a + doy;
      && 0 <= doe < 146097
      && (doe - doe / 1460 + doe / 36524 - doe / 146096) / 365 == 100 * c + 4 * b + a
  {
    LeapsBefore(c, b, a, doy);
    CenturiesBefore(c, 1461 * b + 365 * a + doy);
    var e := if 24 * c + b + 365 * a + doy >= 1460 then 1 else 0;
    Years(100 * c + 4 * b + a, doy - e);
  }

  lemma Years(n: int, k: int)
    requires 0 <= k < 365
    ensures (365 * n + k) / 365 == n
  {
  }

  // ---- there and back -------------------------------------------------------------------------------------

  // A date by its March year's place in four hundred, its month from March, and its day.
  datatype Place = Place(era: int, c: int, b: int, a: int, mp: int, d: int)

  predicate Proper(p: Place) {
    && 0 <= p.c <= 3 && 0 <= p.b <= 24 && 0 <= p.a <= 3 && 0 <= p.mp <= 11
    && 1 <= p.d <= MonthLength(DateOf(p).y, DateOf(p).m)
  }

  function DateOf(p: Place): Date {
    var m := if p.mp < 10 then p.mp + 3 else p.mp - 9;
    Date(400 * p.era + 100 * p.c + 4 * p.b + p.a + (if m <= 2 then 1 else 0), m, p.d)
  }

  function PlaceOf(t: Date): Place {
    var y := if t.m <= 2 then t.y - 1 else t.y;
    var r := y % 400;
    Place(y / 400, r / 100, r % 100 / 4, r % 4, if t.m > 2 then t.m - 3 else t.m + 9, t.d)
  }

  function DayOf(p: Place): int {
    p.era * 146097 + 36524 * p.c + 1461 * p.b + 365 * p.a + Begins(p.mp) + p.d - 1 - 719468
  }

  lemma Placed(t: Date)
    requires Real(t)
    ensures Proper(PlaceOf(t)) && DateOf(PlaceOf(t)) == t
  {
    hide Leap;
    var y := if t.m <= 2 then t.y - 1 else t.y;
    var r := y % 400;
    assert r % 100 % 4 == r % 4 by { Quarter(r); }
    assert y == 400 * (y / 400) + 100 * (r / 100) + 4 * (r % 100 / 4) + r % 4;
  }

  lemma Quarter(r: int)
    requires 0 <= r
    ensures r % 100 % 4 == r % 4
  {
    assert r == 100 * (r / 100) + r % 100;
    assert r == 4 * (25 * (r / 100)) + r % 100;
  }

  lemma DayIs(p: Place)
    requires Proper(p)
    ensures DaysFromCivil(DateOf(p)) == DayOf(p)
  {
    hide MonthLength, Div;
    var t := DateOf(p);
    var y := 400 * p.era + 100 * p.c + 4 * p.b + p.a;
    FloorDiv(y, 400);
    YearParts(p.c, p.b, p.a);
    assert y / 400 == p.era;
  }

  // The day within its March year, and that the year has it.
  lemma DayInYear(p: Place)
    requires Proper(p)
    ensures var doy := Begins(p.mp) + p.d - 1;
      && 0 <= doy && (p.mp < 11 ==> doy < Begins(p.mp + 1))
      && (doy <= 364 || (doy == 365 && p.a == 3 && (p.b < 24 || p.c == 3)))
  {
    LeapParts(p.era, p.c, p.b, p.a);
    if p.mp < 11 {
      MonthsFit(400 * p.era + 100 * p.c + 4 * p.b + p.a, p.mp);
    }
  }

  lemma DateBack(p: Place)
    requires Proper(p)
    ensures CivilFromDays(DayOf(p)) == DateOf(p)
  {
    hide DateInEra, DayOf, DateOf, Div, Proper, Begins;
    EraBack(p);
    InEra(p);
  }

  lemma InEra(p: Place)
    requires Proper(p)
    ensures DateInEra(p.era, 36524 * p.c + 1461 * p.b + 365 * p.a + (Begins(p.mp) + p.d - 1)) == DateOf(p)
  {
    hide MonthLength, Leap, Begins, Proper, DateInYear, DateOf;
    DayInYear(p);
    ShortMonths(p);
    YearBack(p.c, p.b, p.a, Begins(p.mp) + p.d - 1);
    YearParts(p.c, p.b, p.a);
    InYear(p);
  }

  lemma InYear(p: Place)
    requires Proper(p)
    ensures DateInYear(p.era, 100 * p.c + 4 * p.b + p.a, Begins(p.mp) + p.d - 1) == DateOf(p)
  {
    hide MonthLength, Leap, Begins, Proper;
    DayInYear(p);
    ShortMonths(p);
    MonthBack(p.mp, p.d, Begins(p.mp) + p.d - 1);
    BeginsIs(p.mp);
  }

  lemma BeginsIs(mp: int)
    ensures Begins(mp) == (153 * mp + 2) / 5
  {
  }

  // The code's era of a day.
  lemma EraBack(p: Place)
    requires Proper(p)
    ensures var z := DayOf(p) + 719468;
      && Div(if z >= 0 then z else z - 146096, 146097) == p.era
      && z - p.era * 146097 == 36524 * p.c + 1461 * p.b + 365 * p.a + (Begins(p.mp) + p.d - 1)
  {
    hide MonthLength, Div, Leap, Begins, Proper;
    DayInYear(p);
    ShortMonths(p);
    FloorDiv(DayOf(p) + 719468, 146097);
    EraOf(p.era, 36524 * p.c + 1461 * p.b + 365 * p.a + (Begins(p.mp) + p.d - 1));
    YearBack(p.c, p.b, p.a, Begins(p.mp) + p.d - 1);
  }

  lemma EraOf(era: int, doe: int)
    ensures 0 <= doe < 146097 ==> (era * 146097 + doe) / 146097 == era
  {
  }

  lemma ShortMonths(p: Place)
    requires Proper(p)
    ensures 0 <= p.mp <= 11 && 0 <= p.c <= 3 && 0 <= p.b <= 24 && 0 <= p.a <= 3
    ensures 1 <= p.d <= 31 && (p.mp == 11 ==> Begins(p.mp) + p.d - 1 <= 365)
  {
  }

  // Every real date comes back from its day number.
  lemma DatesBack(t: Date)
    requires Real(t)
    ensures CivilFromDays(DaysFromCivil(t)) == t
  {
    hide DaysFromCivil, CivilFromDays, Proper, DateOf;
    Placed(t);
    DayIs(PlaceOf(t));
    DateBack(PlaceOf(t));
  }

  // The day after has the next number.
  lemma NextNumber(t: Date)
    requires Real(t)
    ensures Real(NextDay(t)) && DaysFromCivil(NextDay(t)) == DaysFromCivil(t) + 1
  {
    hide DaysFromCivil, Leap;
    Placed(t);
    Placed(NextDay(t));
    DayIs(PlaceOf(t));
    DayIs(PlaceOf(NextDay(t)));
    NextPlace(t);
  }

  lemma NextPlace(t: Date)
    requires Real(t)
    ensures DayOf(PlaceOf(NextDay(t))) == DayOf(PlaceOf(t)) + 1
  {
    hide Begins, Leap;
    if t.d == MonthLength(t.y, t.m) {
      if t.m == 2 {
        NextYear(t);
      } else {
        NextMonth(t);
      }
    }
  }

  lemma NextMonth(t: Date)
    requires Real(t) && t.d == MonthLength(t.y, t.m) && t.m != 2
    ensures DayOf(PlaceOf(NextDay(t))) == DayOf(PlaceOf(t)) + 1
  {
    hide Begins, Leap;
    var p := PlaceOf(t);
    MonthsFit(if t.m <= 2 then t.y - 1 else t.y, p.mp);
    assert PlaceOf(NextDay(t)) == p.(mp := p.mp + 1, d := 1);
  }

  lemma NextYear(t: Date)
    requires Real(t) && t.d == MonthLength(t.y, t.m) && t.m == 2
    ensures DayOf(PlaceOf(NextDay(t))) == DayOf(PlaceOf(t)) + 1
  {
    hide Leap, PlaceOf, Begins;
    LastOfYear(t);
    MonthsFit(0, 0);
    YearOn(t.y - 1);
    FromMarch(t);
  }

  // February's last day, in its March year.
  lemma LastOfYear(t: Date)
    requires Real(t) && t.d == MonthLength(t.y, t.m) && t.m == 2
    ensures var p := PlaceOf(t);
      && p.mp == 11 && 0 <= p.c <= 3 && 0 <= p.b <= 24 && 0 <= p.a <= 3
      && p.d == if p.a == 3 && (p.b < 24 || p.c == 3) then 29 else 28
  {
    hide Leap;
    var p := PlaceOf(t);
    Placed(t);
    LeapParts(p.era, p.c, p.b, p.a);
  }

  lemma FromMarch(t: Date)
    requires t.m == 2
    ensures PlaceOf(t) == PlaceOf(Date(t.y - 1, 3, 1)).(mp := 11, d := t.d)
    ensures PlaceOf(Date(t.y - 1, 3, 1)).mp == 0 && PlaceOf(Date(t.y - 1, 3, 1)).d == 1
  {
  }

  // A year's place in four hundred, from what it is made of.
  lemma PartsAre(era: int, c: int, b: int, a: int, y: int)
    requires 0 <= c <= 3 && 0 <= b <= 24 && 0 <= a <= 3 && y == 400 * era + 100 * c + 4 * b + a
    ensures y / 400 == era && y % 400 / 100 == c && y % 400 % 100 / 4 == b && y % 400 % 4 == a
  {
    var r := 100 * c + 4 * b + a;
    assert y % 400 == r;
    assert r == 4 * (25 * c + b) + a;
  }

  // The place of the March year after.
  lemma YearOn(y: int)
    ensures var p, n := PlaceOf(Date(y, 3, 1)), PlaceOf(Date(y + 1, 3, 1));
      if p.a < 3 then n == p.(a := p.a + 1)
      else if p.b < 24 then n == p.(a := 0, b := p.b + 1)
      else if p.c < 3 then n == p.(a := 0, b := 0, c := p.c + 1)
      else n == p.(a := 0, b := 0, c := 0, era := p.era + 1)
  {
    hide Leap;
    Placed(Date(y, 3, 1));
    var p := PlaceOf(Date(y, 3, 1));
    var n := if p.a < 3 then p.(a := p.a + 1)
             else if p.b < 24 then p.(a := 0, b := p.b + 1)
             else if p.c < 3 then p.(a := 0, b := 0, c := p.c + 1)
             else p.(a := 0, b := 0, c := 0, era := p.era + 1);
    PartsAre(n.era, n.c, n.b, n.a, y + 1);
  }

  // Every day number is a real date's.
  lemma {:induction false} Later(t: Date, n: nat) returns (u: Date)
    requires Real(t)
    ensures Real(u) && DaysFromCivil(u) == DaysFromCivil(t) + n
    decreases n
  {
    hide DaysFromCivil, Leap, MonthLength;
    if n == 0 {
      u := t;
    } else {
      NextNumber(t);
      u := Later(NextDay(t), n - 1);
    }
  }

  lemma NumbersBack(days: int)
    ensures Real(CivilFromDays(days)) && DaysFromCivil(CivilFromDays(days)) == days
  {
    hide CivilFromDays, DaysFromCivil, Leap;
    var era := (days + 719468) / 146097;
    var start := Date(400 * era, 3, 1);
    EraStarts(era);
    var t := Later(start, days - DaysFromCivil(start));
    DatesBack(t);
  }

  lemma EraStarts(era: int)
    ensures DaysFromCivil(Date(400 * era, 3, 1)) == era * 146097 - 719468
  {
    FloorDiv(400 * era, 400);
    assert 400 * era / 400 == era;
  }

  // ---- timestamps ---------------------------------------------------------------------------------------------

  function Char(n: int): char
    requires 0 <= n < 10
  {
    '0' + n as char
  }

  // %02d and %04d
  function Two(n: int): (s: string)
    requires 0 <= n < 100
    ensures |s| == 2
  {
    [Char(n / 10), Char(n % 10)]
  }

  function Four(n: int): (s: string)
    requires 0 <= n < 10000
    ensures |s| == 4
  {
    [Char(n / 1000), Char(n / 100 % 10), Char(n / 10 % 10), Char(n % 10)]
  }

  predicate Digital(c: char) { '0' <= c <= '9' }

  function Digits(s: string): int {
    if s == "" then 0
    else
      var before := Digits(s[..|s| - 1]);
      var c := s[|s| - 1];
      if before < 0 || !Digital(c) then -1 else before * 10 + (c as int - '0' as int)
  }

  // digits
  method ReadDigits(s: string) returns (v: int)
    ensures v == Digits(s)
  {
    v := 0;
    var i := 0;
    while i < |s|
      invariant 0 <= i <= |s| && v == Digits(s[..i]) && v >= 0
    {
      if !Digital(s[i]) {
        NotDigits(s, i);
        return -1;
      }
      assert s[..i + 1][..i] == s[..i];
      v := v * 10 + (s[i] as int - '0' as int);
      i := i + 1;
    }
    assert s[..i] == s;
  }

  lemma {:induction false} NotDigits(s: string, i: nat)
    requires i < |s| && !Digital(s[i])
    ensures Digits(s) == -1
    decreases |s|
  {
    if i < |s| - 1 {
      NotDigits(s[..|s| - 1], i);
    }
  }

  // Where a fraction of a second ends: after its digits, if there is one.
  function FractionEnd(s: string, i: nat): (j: nat)
    requires i <= |s|
    ensures i <= j <= |s|
    decreases |s| - i
  {
    if i < |s| && Digital(s[i]) then FractionEnd(s, i + 1) else i
  }

  function Rest(s: string): string
    requires |s| >= 19
  {
    if |s| > 19 && s[19] == '.' then s[FractionEnd(s, 20)..] else s[19..]
  }

  function IsoValue(s: string): int {
    if |s| < 20 || s[4] != '-' || s[7] != '-' || s[10] != 'T' || s[13] != ':' || s[16] != ':' then -1
    else
      var y, mo, d, h, mi, se := Digits(s[..4]), Digits(s[5..7]), Digits(s[8..10]), Digits(s[11..13]), Digits(s[14..16]), Digits(s[17..19]);
      if y < 0 || mo < 1 || mo > 12 || d < 1 || d > 31 || h < 0 || h > 23 || mi < 0 || mi > 59 || se < 0 || se > 60 then -1
      else if Rest(s) != "Z" && Rest(s) != "+00:00" then -1
      else DaysFromCivil(Date(y, mo, d)) * 86400 + h * 3600 + mi * 60 + se
  }

  // kw_parse_iso8601
  method ParseIso(s: string) returns (t: int)
    ensures t == IsoValue(s)
  {
    hide DaysFromCivil, Digits;
    if |s| < 20 || s[4] != '-' || s[7] != '-' || s[10] != 'T' || s[13] != ':' || s[16] != ':' { return -1; }
    var y := ReadDigits(s[..4]);
    var mo := ReadDigits(s[5..7]);
    var d := ReadDigits(s[8..10]);
    var h := ReadDigits(s[11..13]);
    var mi := ReadDigits(s[14..16]);
    var se := ReadDigits(s[17..19]);
    if y < 0 || mo < 1 || mo > 12 || d < 1 || d > 31 || h < 0 || h > 23 || mi < 0 || mi > 59 || se < 0 || se > 60 { return -1; }
    var p := 19;
    if s[p] == '.' {
      p := p + 1;
      while p < |s| && Digital(s[p])
        invariant 20 <= p <= |s| && FractionEnd(s, p) == FractionEnd(s, 20)
      {
        p := p + 1;
      }
    }
    if s[p..] != "Z" && s[p..] != "+00:00" { return -1; }
    return DaysFromCivil(Date(y, mo, d)) * 86400 + h * 3600 + mi * 60 + se;
  }

  function DayNumber(t: int): int {
    Div(if t >= 0 then t else t - 86399, 86400)
  }

  // kw_amz_date and kw_ymd, of the years they have four digits for
  function AmzDate(t: int): string
    requires 0 <= CivilFromDays(DayNumber(t)).y < 10000
  {
    Clock(t);
    var c, s := CivilFromDays(DayNumber(t)), t - DayNumber(t) * 86400;
    Four(c.y) + Two(c.m) + Two(c.d) + "T" + Two(s / 3600) + Two(s / 60 % 60) + Two(s % 60) + "Z"
  }

  function Ymd(t: int): string
    requires 0 <= CivilFromDays(DayNumber(t)).y < 10000
  {
    Clock(t);
    var c := CivilFromDays(DayNumber(t));
    Four(c.y) + "-" + Two(c.m) + "-" + Two(c.d)
  }

  lemma Clock(t: int)
    ensures 0 <= t - DayNumber(t) * 86400 < 86400
    ensures Real(CivilFromDays(DayNumber(t)))
  {
    NumbersBack(DayNumber(t));
  }

  datatype Time = Time(h: int, mi: int, se: int)

  predicate Telling(c: Time) {
    0 <= c.h <= 23 && 0 <= c.mi <= 59 && 0 <= c.se <= 59
  }

  // The six numbers of a timestamp, as far as the parser asks: any month has 31 days, any minute 61 seconds.
  datatype Fields = Fields(y: int, mo: int, d: int, h: int, mi: int, se: int)

  predicate InRange(f: Fields) {
    && 0 <= f.y < 10000 && 1 <= f.mo <= 12 && 1 <= f.d <= 31
    && 0 <= f.h <= 23 && 0 <= f.mi <= 59 && 0 <= f.se <= 60
  }

  function FieldsOf(t: Date, c: Time): (f: Fields)
    ensures Real(t) && 0 <= t.y < 10000 && Telling(c) ==> InRange(f)
  {
    Fields(t.y, t.m, t.d, c.h, c.mi, c.se)
  }

  function Written(f: Fields, tail: string): string
    requires InRange(f)
  {
    Four(f.y) + "-" + Two(f.mo) + "-" + Two(f.d) + "T" + Two(f.h) + ":" + Two(f.mi) + ":" + Two(f.se) + tail
  }

  function SecondOf(f: Fields): int {
    DaysFromCivil(Date(f.y, f.mo, f.d)) * 86400 + f.h * 3600 + f.mi * 60 + f.se
  }

  function Iso(t: Date, c: Time, tail: string): string
    requires Real(t) && 0 <= t.y < 10000 && Telling(c)
  {
    Written(FieldsOf(t, c), tail)
  }

  // What may follow the seconds.
  predicate Tail(tail: string) {
    tail == "Z" || tail == "+00:00" ||
    (|tail| > 1 && tail[0] == '.' && (tail[FractionEnd(tail, 1)..] == "Z" || tail[FractionEnd(tail, 1)..] == "+00:00"))
  }

  lemma TwoBack(n: int)
    requires 0 <= n < 100
    ensures Digits(Two(n)) == n
  {
    hide Digits;
    OneDigit(n / 10);
    DigitMore([Char(n / 10)], n % 10);
    assert Two(n) == [Char(n / 10)] + [Char(n % 10)];
  }

  lemma FourBack(n: int)
    requires 0 <= n < 10000
    ensures Digits(Four(n)) == n
  {
    var a, b, c, d := n / 1000, n / 100 % 10, n / 10 % 10, n % 10;
    hide Digits, Char;
    OneDigit(a);
    DigitMore([Char(a)], b);
    assert [Char(a), Char(b)] == [Char(a)] + [Char(b)];
    DigitMore([Char(a), Char(b)], c);
    assert [Char(a), Char(b), Char(c)] == [Char(a), Char(b)] + [Char(c)];
    DigitMore([Char(a), Char(b), Char(c)], d);
    assert Four(n) == [Char(a), Char(b), Char(c)] + [Char(d)];
    Tens(n);
    Tens(n / 10);
    Tens(n / 100);
    assert n / 10 / 10 == n / 100 && n / 100 / 10 == n / 1000;
  }

  lemma Tens(n: int)
    ensures n == n / 10 * 10 + n % 10
  {
  }

  lemma OneDigit(a: int)
    requires 0 <= a < 10
    ensures Digits([Char(a)]) == a
  {
    assert [Char(a)][..0] == "";
  }

  lemma DigitMore(s: string, a: int)
    requires 0 <= a < 10 && Digits(s) >= 0
    ensures Digits(s + [Char(a)]) == Digits(s) * 10 + a
  {
    assert (s + [Char(a)])[..|s|] == s;
  }

  lemma {:induction false} FractionShift(s: string, tail: string, i: nat)
    requires |s| >= 19 && s[19..] == tail && 19 + i <= |s|
    ensures i <= |tail| && FractionEnd(s, 19 + i) == 19 + FractionEnd(tail, i)
    decreases |tail| - i
  {
    if i < |tail| {
      assert s[19 + i] == tail[i];
      if Digital(tail[i]) {
        FractionShift(s, tail, i + 1);
      }
    }
  }

  lemma WrittenParts(f: Fields, tail: string)
    requires InRange(f) && Tail(tail)
    ensures var s := Written(f, tail);
      && |s| >= 20 && s[..4] == Four(f.y) && s[4] == '-' && s[5..7] == Two(f.mo) && s[7] == '-' && s[8..10] == Two(f.d) && s[10] == 'T'
      && s[11..13] == Two(f.h) && s[13] == ':' && s[14..16] == Two(f.mi) && s[16] == ':' && s[17..19] == Two(f.se) && s[19..] == tail
  {
    hide Two, Four;
  }

  lemma WrittenReads(f: Fields, tail: string)
    requires InRange(f) && Tail(tail)
    ensures IsoValue(Written(f, tail)) == SecondOf(f)
  {
    hide Two, Four, Written, DaysFromCivil, Digits;
    WrittenParts(f, tail);
    FourBack(f.y);
    TwoBack(f.mo);
    TwoBack(f.d);
    TwoBack(f.h);
    TwoBack(f.mi);
    TwoBack(f.se);
    var s := Written(f, tail);
    if tail[0] == '.' {
      FractionShift(s, tail, 1);
      assert s[19..][FractionEnd(tail, 1)..] == s[19 + FractionEnd(tail, 1)..];
    }
  }

  lemma TwoForth(s: string)
    requires |s| == 2 && Digits(s) >= 0
    ensures Digits(s) < 100 && s == Two(Digits(s))
  {
    assert s[..1][..0] == "";
    assert Digits(s[..1]) == s[0] as int - '0' as int;
  }

  lemma FourForth(s: string)
    requires |s| == 4 && Digits(s) >= 0
    ensures Digits(s) < 10000 && s == Four(Digits(s))
  {
    hide Digits;
    var n := Digits(s);
    assert s[..3][..2] == s[..2] && s[..2][..1] == s[..1] && s[..1][..0] == "";
    LastDigit(s);
    LastDigit(s[..3]);
    LastDigit(s[..2]);
    LastDigit(s[..1]);
    NoDigits();
    assert n / 10 == Digits(s[..3]) && n / 100 == Digits(s[..2]) && n / 1000 == Digits(s[..1]);
  }

  lemma NoDigits()
    ensures Digits("") == 0
  {
  }

  lemma LastDigit(s: string)
    requires s != "" && Digits(s) >= 0
    ensures Digits(s[..|s| - 1]) >= 0 && s[|s| - 1] == Char(Digits(s) % 10) && Digits(s) / 10 == Digits(s[..|s| - 1])
  {
    hide Digits;
    DigitsOn(s);
    var c := s[|s| - 1];
    TensAndOnes(Digits(s[..|s| - 1]), c as int - '0' as int);
    assert '0' + (c as int - '0' as int) as char == c;
  }

  lemma DigitsOn(s: string)
    requires s != "" && Digits(s) >= 0
    ensures Digits(s[..|s| - 1]) >= 0 && Digital(s[|s| - 1])
    ensures Digits(s) == Digits(s[..|s| - 1]) * 10 + (s[|s| - 1] as int - '0' as int)
  {
  }

  lemma TensAndOnes(a: nat, d: nat)
    requires d < 10
    ensures (a * 10 + d) / 10 == a && (a * 10 + d) % 10 == d
  {
  }

  // The text is one the parser takes: its numbers in range, and what follows them as it should be.
  ghost predicate Taken(s: string) {
    exists f, tail :: InRange(f) && Tail(tail) && s == Written(f, tail)
  }

  // What the parser has found in order is there in writing.
  lemma PartsWrite(s: string, f: Fields)
    requires |s| >= 20 && InRange(f) && s[4] == '-' && s[7] == '-' && s[10] == 'T' && s[13] == ':' && s[16] == ':'
    requires s[..4] == Four(f.y) && s[5..7] == Two(f.mo) && s[8..10] == Two(f.d)
    requires s[11..13] == Two(f.h) && s[14..16] == Two(f.mi) && s[17..19] == Two(f.se)
    ensures s == Written(f, s[19..])
  {
    hide Two, Four;
    assert s == s[..4] + [s[4]] + s[5..7] + [s[7]] + s[8..10] + [s[10]] + s[11..13] + [s[13]] + s[14..16] + [s[16]] + s[17..19] + s[19..];
  }

  lemma TailIs(s: string)
    requires |s| >= 20 && (Rest(s) == "Z" || Rest(s) == "+00:00")
    ensures Tail(s[19..])
  {
    var tail := s[19..];
    if s[19] == '.' {
      FractionShift(s, tail, 1);
      assert tail[FractionEnd(tail, 1)..] == s[19 + FractionEnd(tail, 1)..];
    }
  }

  // Exactly which texts are read, and as what: six numbers in range, with a fraction of a second or none, in
  // UTC, as the second they make; every other text as -1.
  lemma IsoAccepts(s: string)
    ensures forall f, tail :: InRange(f) && Tail(tail) && s == Written(f, tail) ==> IsoValue(s) == SecondOf(f)
    ensures !Taken(s) ==> IsoValue(s) == -1
  {
    forall f, tail | InRange(f) && Tail(tail) && s == Written(f, tail)
      ensures IsoValue(s) == SecondOf(f)
    {
      WrittenReads(f, tail);
    }
    if IsoValue(s) != -1 {
      ReadIsWritten(s);
    }
  }

  lemma ReadIsWritten(s: string)
    requires IsoValue(s) != -1
    ensures Taken(s)
  {
    hide Two, Four, Written, DaysFromCivil, Digits, Rest, Tail;
    var f := Fields(Digits(s[..4]), Digits(s[5..7]), Digits(s[8..10]), Digits(s[11..13]), Digits(s[14..16]), Digits(s[17..19]));
    FourForth(s[..4]);
    TwoForth(s[5..7]);
    TwoForth(s[8..10]);
    TwoForth(s[11..13]);
    TwoForth(s[14..16]);
    TwoForth(s[17..19]);
    PartsWrite(s, f);
    TailIs(s);
  }

  // A day its month has not is one of the next month: 30 February is 1 or 2 March.
  lemma DayRunsOver(y: int, m: int, d: int)
    requires 1 <= m <= 12 && MonthLength(y, m) < d <= 31
    ensures var next := Date(if m == 12 then y + 1 else y, if m == 12 then 1 else m + 1, d - MonthLength(y, m));
      Real(next) && DaysFromCivil(Date(y, m, d)) == DaysFromCivil(next)
  {
    hide DaysFromCivil, Leap;
    var last := Date(y, m, MonthLength(y, m));
    NextNumber(last);
    DaysOn(y, m, MonthLength(y, m), d);
    DaysOn(NextDay(last).y, NextDay(last).m, 1, d - MonthLength(y, m));
  }

  lemma DaysOn(y: int, m: int, a: int, b: int)
    ensures DaysFromCivil(Date(y, m, b)) == DaysFromCivil(Date(y, m, a)) + b - a
  {
    hide Era;
  }

  // And a second 60 is the first of the next minute.
  lemma SecondRunsOver(f: Fields)
    requires f.se == 60
    ensures SecondOf(f) == SecondOf(f.(se := 59)) + 1
    ensures f.mi < 59 ==> SecondOf(f) == SecondOf(f.(mi := f.mi + 1, se := 0))
  {
    hide DaysFromCivil;
  }

  // A real date and time, written down, is read as its second.
  lemma IsoReads(t: Date, c: Time, tail: string)
    requires Real(t) && 0 <= t.y < 10000 && Telling(c) && Tail(tail)
    ensures IsoValue(Iso(t, c, tail)) == DaysFromCivil(t) * 86400 + c.h * 3600 + c.mi * 60 + c.se
  {
    hide IsoValue, DaysFromCivil, Leap, Tail, Written;
    WrittenReads(FieldsOf(t, c), tail);
  }

  // And printed again it is the same date and time, digit for digit.
  lemma IsoRoundTrip(t: Date, c: Time, tail: string)
    requires Real(t) && 0 <= t.y < 10000 && Telling(c) && Tail(tail)
    ensures var v := IsoValue(Iso(t, c, tail));
      && CivilFromDays(DayNumber(v)) == t
      && AmzDate(v) == Four(t.y) + Two(t.m) + Two(t.d) + "T" + Two(c.h) + Two(c.mi) + Two(c.se) + "Z"
      && Ymd(v) == Four(t.y) + "-" + Two(t.m) + "-" + Two(t.d)
  {
    hide Two, Four, Iso, DaysFromCivil, CivilFromDays, IsoValue, Leap;
    IsoReads(t, c, tail);
    DatesBack(t);
    Seconds(DaysFromCivil(t), c);
  }

  lemma Seconds(days: int, c: Time)
    requires Telling(c)
    ensures var v := days * 86400 + c.h * 3600 + c.mi * 60 + c.se;
      DayNumber(v) == days && (v - days * 86400) / 3600 == c.h && (v - days * 86400) / 60 % 60 == c.mi && (v - days * 86400) % 60 == c.se
  {
    hide DayNumber;
    var s := c.h * 3600 + c.mi * 60 + c.se;
    DayFloor(days * 86400 + s);
    WholeDays(days, s);
    ClockBack(c);
  }

  lemma WholeDays(days: int, s: int)
    requires 0 <= s < 86400
    ensures (days * 86400 + s) / 86400 == days
  {
  }

  lemma ClockBack(c: Time)
    requires Telling(c)
    ensures var s := c.h * 3600 + c.mi * 60 + c.se;
      0 <= s < 86400 && s / 3600 == c.h && s / 60 % 60 == c.mi && s % 60 == c.se
  {
    var s := c.h * 3600 + c.mi * 60 + c.se;
    assert s / 60 == c.h * 60 + c.mi;
  }

  lemma DayFloor(t: int)
    ensures DayNumber(t) == t / 86400
  {
  }

  // The answer for what cannot be read is also the answer for one text's numbers that can be, and no other's.
  lemma MinusOne(f: Fields, tail: string)
    requires InRange(f) && Tail(tail)
    ensures IsoValue(Written(f, tail)) == -1 <==> f == Fields(1969, 12, 31, 23, 59, 59)
  {
    hide IsoValue, Written, DaysFromCivil, Tail;
    WrittenReads(f, tail);
    var days := DaysFromCivil(Date(f.y, f.mo, f.d));
    if days == -1 { DayBeforeAll(Date(f.y, f.mo, f.d)); }
    LastSecond(days, f);
    LastOf1969();
  }

  lemma LastSecond(days: int, f: Fields)
    requires 0 <= f.h <= 23 && 0 <= f.mi <= 59 && 0 <= f.se <= 60
    ensures days * 86400 + f.h * 3600 + f.mi * 60 + f.se == -1 <==> days == -1 && f.h == 23 && f.mi == 59 && f.se == 59
  {
  }

  // Of all days the parser takes, real or not, one is the last before 1970.
  lemma DayBeforeAll(t: Date)
    requires 1 <= t.m <= 12 && 1 <= t.d <= 31 && DaysFromCivil(t) == -1
    ensures t == Date(1969, 12, 31)
  {
    hide DaysFromCivil, CivilFromDays, Leap;
    LastOf1969();
    if MonthLength(t.y, t.m) < t.d {
      DayRunsOver(t.y, t.m, t.d);
      var next := Date(if t.m == 12 then t.y + 1 else t.y, if t.m == 12 then 1 else t.m + 1, t.d - MonthLength(t.y, t.m));
      DatesBack(next);
    } else {
      DatesBack(t);
    }
  }

  lemma LastOf1969()
    ensures DaysFromCivil(Date(1969, 12, 31)) == -1 && CivilFromDays(-1) == Date(1969, 12, 31)
  {
    hide CivilFromDays;
    var t := Date(1969, 12, 31);
    DatesBack(t);
    FloorDiv(1969, 400);
    assert DaysFromCivil(t) == -1;
  }
}
