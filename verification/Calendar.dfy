/** The date a count of days falls on: the closed form the signer computes,
    and the calendar that goes forward one day at a time. */
module Calendar {
  import opened Orders
  import opened Arithmetic

  datatype Date = Date(year: int, month: int, day: int)

  predicate IsLeap(year: int) {
    year % 4 == 0 && (year % 100 != 0 || year % 400 == 0)
  }

  function MonthLength(year: int, month: int): int {
    if month == 2 then (if IsLeap(year) then 29 else 28)
    else if month == 4 || month == 6 || month == 9 || month == 11 then 30
    else 31
  }

  predicate IsDate(d: Date) {
    1 <= d.month <= 12 && 1 <= d.day <= MonthLength(d.year, d.month)
  }

  function NextDay(d: Date): Date {
    if d.day < MonthLength(d.year, d.month) then Date(d.year, d.month, d.day + 1)
    else if d.month < 12 then Date(d.year, d.month + 1, 1)
    else Date(d.year + 1, 1, 1)
  }

  /** The date reached from 1970-01-01 by going forward `n` times. */
  function DayAfter(n: nat): Date {
    if n == 0 then Date(1970, 1, 1) else NextDay(DayAfter(n - 1))
  }

  // The closed form. Years count from March, so that a leap day is the last
  // day of its year, and four hundred of them are an era.

  const ERA: nat := 146_097

  /** A day by its era, the year of that era and the day of that year. */
  datatype Place = Place(era: int, year: int, ofYear: int)

  function YearOfEra(ofEra: int): int {
    (ofEra - ofEra / 1460 + ofEra / 36_524 - ofEra / 146_096) / 365
  }

  /** The days of an era before its year `y`. */
  function Before(y: int): int {
    365 * y + y / 4 - y / 100
  }

  function PlaceOf(days: nat): Place {
    var shifted := days + 719_468;
    var ofEra := shifted % ERA;
    var year := YearOfEra(ofEra);
    Place(shifted / ERA, year, ofEra - Before(year))
  }

  function DateOf(p: Place): Date {
    var mp := (5 * p.ofYear + 2) / 153;
    var day := p.ofYear - (153 * mp + 2) / 5 + 1;
    var month := if mp < 10 then mp + 3 else mp - 9;
    var year := p.year + p.era * 400;
    Date(if month <= 2 then year + 1 else year, month, day)
  }

  function Civil(days: nat): Date {
    DateOf(PlaceOf(days))
  }

  // Where the years of an era begin.

  function YearLength(year: int): int {
    if IsLeap(year + 1) then 366 else 365
  }

  /** The place is a day of its year, and its year one of the era's. */
  predicate IsPlace(p: Place) {
    0 <= p.era && 0 <= p.year < 400 && 0 <= p.ofYear < YearLength(p.year)
  }

  function NextPlace(p: Place): Place {
    if p.ofYear + 1 < YearLength(p.year) then p.(ofYear := p.ofYear + 1)
    else if p.year < 399 then Place(p.era, p.year + 1, 0)
    else Place(p.era + 1, 0, 0)
  }

  /** A year of an era as a century, a cycle of four years and a year of it. */
  function YearOf(c: int, q: int, t: int): int {
    100 * c + 4 * q + t
  }

  predicate AreParts(c: int, q: int, t: int) {
    0 <= c < 4 && 0 <= q < 25 && 0 <= t < 4
  }

  lemma YearStarts(c: int, q: int, t: int)
    requires AreParts(c, q, t)
    ensures Before(YearOf(c, q, t)) == 36_524 * c + 1461 * q + 365 * t
  {
    Quotient(YearOf(c, q, t), 4, 25 * c + q);
    Quotient(YearOf(c, q, t), 100, c);
  }

  lemma YearLengths(c: int, q: int, t: int)
    requires AreParts(c, q, t)
    ensures YearLength(YearOf(c, q, t)) == if t == 3 && (q < 24 || c == 3) then 366 else 365
  {
    var year := YearOf(c, q, t) + 1;
    Quotient(year, 4, if t < 3 then 25 * c + q else 25 * c + q + 1);
    Quotient(year, 100, if t == 3 && q == 24 then c + 1 else c);
    Quotient(year, 400, if t == 3 && q == 24 && c == 3 then 1 else 0);
  }

  /** The closed form names the year a day of an era is in. */
  lemma YearOfDay(c: int, q: int, t: int, u: int)
    requires AreParts(c, q, t)
    requires 0 <= u < if t == 3 && (q < 24 || c == 3) then 366 else 365
    ensures YearOfEra(36_524 * c + 1461 * q + 365 * t + u) == YearOf(c, q, t)
  {
    var ofEra := 36_524 * c + 1461 * q + 365 * t + u;
    var fours := 25 * c + q + if 24 * c + q + 365 * t + u >= 1460 then 1 else 0;
    var last := if ofEra == 146_096 then 1 else 0;
    Quotient(ofEra, 1460, fours);
    Quotient(ofEra, 36_524, c + last);
    Quotient(ofEra, 146_096, last);
    Quotient(ofEra - fours + (c + last) - last, 365, YearOf(c, q, t));
  }

  lemma EveryYear(year: int) returns (c: int, q: int, t: int)
    requires 0 <= year < 400
    ensures AreParts(c, q, t) && year == YearOf(c, q, t)
  {
    c := year / 100;
    q := (year - 100 * c) / 4;
    t := year - 100 * c - 4 * q;
  }

  /** A place's own day has that place. */
  lemma PlaceOfIs(days: nat, p: Place)
    requires IsPlace(p)
    requires days + 719_468 == ERA * p.era + Before(p.year) + p.ofYear
    ensures PlaceOf(days) == p
  {
    var c, q, t := EveryYear(p.year);
    YearStarts(c, q, t);
    YearLengths(c, q, t);
    YearOfDay(c, q, t, p.ofYear);
    Quotient(days + 719_468, ERA, p.era);
  }

  lemma NextYearStarts(year: int)
    requires 0 <= year < 400
    ensures year < 399 ==> Before(year + 1) == Before(year) + YearLength(year)
    ensures year == 399 ==> Before(year) + YearLength(year) == ERA
  {
    var c, q, t := EveryYear(year);
    YearStarts(c, q, t);
    YearLengths(c, q, t);
    if t < 3 {
      YearStarts(c, q, t + 1);
    } else if q < 24 {
      YearStarts(c, q + 1, 0);
    } else if c < 3 {
      YearStarts(c + 1, 0, 0);
    }
  }

  /** Every day has a place, and the day after it has the next one. */
  lemma {:induction false} PlacesStep(days: nat)
    ensures IsPlace(PlaceOf(days))
    ensures days + 719_468 == ERA * PlaceOf(days).era + Before(PlaceOf(days).year) + PlaceOf(days).ofYear
    ensures PlaceOf(days + 1) == NextPlace(PlaceOf(days))
  {
    if days == 0 {
      PlaceOfIs(0, Place(4, 369, 306));
    } else {
      PlacesStep(days - 1);
      PlaceMoves(days - 1, PlaceOf(days - 1));
    }
    PlaceMoves(days, PlaceOf(days));
  }

  lemma PlaceMoves(days: nat, p: Place)
    requires IsPlace(p)
    requires days + 719_468 == ERA * p.era + Before(p.year) + p.ofYear
    ensures IsPlace(NextPlace(p))
    ensures days + 1 + 719_468 == ERA * NextPlace(p).era + Before(NextPlace(p).year) + NextPlace(p).ofYear
    ensures PlaceOf(days + 1) == NextPlace(p)
  {
    NextYearStarts(p.year);
    PlaceOfIs(days + 1, NextPlace(p));
  }

  // The months of a year, and the calendar over all of them.

  /** The twelve months of a March year begin where the closed form puts them. */
  lemma DatesWithin(p: Place, leap: bool)
    requires 0 <= p.ofYear < if leap then 366 else 365
    ensures var d := DateOf(p);
            && 1 <= d.month <= 12
            && d.year == p.year + p.era * 400 + (if d.month <= 2 then 1 else 0)
            && 1 <= d.day
            && (d.month != 2 ==> d.day <= MonthLength(1, d.month))
            && (d.month == 2 ==> d.day <= if leap then 29 else 28)
  {
  }

  /** One day further in a March year of either length. */
  lemma NextWithin(p: Place, leap: bool)
    requires 0 <= p.ofYear && p.ofYear + 1 < if leap then 366 else 365
    ensures var d, n := DateOf(p), DateOf(p.(ofYear := p.ofYear + 1));
            var length := if d.month == 2 then (if leap then 29 else 28) else MonthLength(1, d.month);
            && (d.day < length ==> n == d.(day := d.day + 1))
            && (d.day >= length ==>
                  n == if d.month < 12 then Date(d.year, d.month + 1, 1) else Date(d.year + 1, 1, 1))
  {
  }

  lemma LastAndFirst(p: Place, leap: bool, next: Place)
    requires p.ofYear + 1 == if leap then 366 else 365
    requires next.ofYear == 0 && next.era * 400 + next.year == p.era * 400 + p.year + 1
    ensures DateOf(p) == Date(p.year + p.era * 400 + 1, 2, if leap then 29 else 28)
    ensures DateOf(next) == Date(p.year + p.era * 400 + 1, 3, 1)
  {
  }

  lemma LeapAgain(era: nat, year: int)
    ensures IsLeap(year + era * 400) <==> IsLeap(year)
  {
    var y := year + era * 400;
    Quotient(y, 4, year / 4 + 100 * era);
    Quotient(y, 100, year / 100 + 4 * era);
    Quotient(y, 400, year / 400 + era);
  }

  /** The next place is the next day. */
  lemma DatesStep(p: Place)
    requires IsPlace(p)
    ensures IsDate(DateOf(p))
    ensures DateOf(NextPlace(p)) == NextDay(DateOf(p))
  {
    var leap := IsLeap(p.year + 1);
    LeapAgain(p.era, p.year + 1);
    DatesWithin(p, leap);
    if p.ofYear + 1 < YearLength(p.year) {
      NextWithin(p, leap);
    } else {
      LastAndFirst(p, leap, NextPlace(p));
    }
  }

  lemma CivilStep(days: nat)
    ensures IsDate(Civil(days))
    ensures Civil(days + 1) == NextDay(Civil(days))
  {
    PlacesStep(days);
    DatesStep(PlaceOf(days));
  }

  lemma CivilStart()
    ensures Civil(0) == Date(1970, 1, 1)
  {
    PlaceOfIs(0, Place(4, 369, 306));
  }

  lemma {:induction false} SteppingIsTheCalendar(f: nat -> Date, days: nat)
    requires f(0) == Date(1970, 1, 1)
    requires forall n: nat :: f(n + 1) == NextDay(f(n))
    ensures f(days) == DayAfter(days)
  {
    if days != 0 {
      SteppingIsTheCalendar(f, days - 1);
      assert f((days - 1) + 1) == NextDay(f(days - 1));
    }
  }

  /** The closed form is the calendar under the rule of four, a hundred and
      four hundred, for every count of days. */
  lemma CivilIsTheCalendar(days: nat)
    ensures Civil(days) == DayAfter(days)
  {
    CivilStart();
    forall n: nat
      ensures Civil(n + 1) == NextDay(Civil(n))
    {
      CivilStep(n);
    }
    SteppingIsTheCalendar(Civil, days);
  }

  function CompareDates(a: Date, b: Date): Order {
    Or(CompareInts(a.year, b.year), Or(CompareInts(a.month, b.month), CompareInts(a.day, b.day)))
  }

  lemma {:induction false} LaterDaysCompareLater(a: nat, b: nat)
    requires a < b
    ensures CompareDates(DayAfter(a), DayAfter(b)) == Less
    decreases b - a
  {
    if a < b - 1 {
      LaterDaysCompareLater(a, b - 1);
    }
  }

  /** Dates are ordered as the day counts are, so no two days share a date. */
  lemma DatesCompareAsDays(a: nat, b: nat)
    ensures CompareDates(Civil(a), Civil(b)) == CompareInts(a, b)
  {
    CivilIsTheCalendar(a);
    CivilIsTheCalendar(b);
    if a < b {
      LaterDaysCompareLater(a, b);
    } else if b < a {
      LaterDaysCompareLater(b, a);
    }
  }
}
