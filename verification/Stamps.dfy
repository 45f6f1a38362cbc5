/** The one format a signed request writes time in. */
module Stamps {
  import opened Orders
  import opened Arithmetic
  import opened Decimals
  import opened Calendar

  const DAY: nat := 86_400

  /** Unix seconds of 10000-01-01, the first moment with five digits of year. */
  const FIVE_DIGITS: nat := 253_402_300_800

  lemma {:induction false} DatesAreFromTheEpochOn(days: nat)
    ensures IsDate(DayAfter(days)) && 1970 <= DayAfter(days).year
  {
    if days > 0 {
      DatesAreFromTheEpochOn(days - 1);
    }
  }

  lemma CivilIsFromTheEpochOn(days: nat)
    ensures IsDate(Civil(days)) && 1970 <= Civil(days).year
  {
    CivilIsTheCalendar(days);
    DatesAreFromTheEpochOn(days);
  }

  /** The time of day, as it ends a stamp. */
  function Clock(seconds: nat): string {
    Padded(2, seconds / 3600) + (Padded(2, (seconds % 3600) / 60) + (Padded(2, seconds % 60) + "Z"))
  }

  /** `20260807T032800Z` for a date and the seconds into it. */
  function Written(d: Date, seconds: nat): string
    requires IsDate(d) && 0 <= d.year
  {
    Padded(4, d.year) + (Padded(2, d.month) + (Padded(2, d.day) + ("T" + Clock(seconds))))
  }

  function Stamp(unix: nat): string {
    CivilIsFromTheEpochOn(unix / DAY);
    Written(Civil(unix / DAY), unix % DAY)
  }

  lemma PowersOfTen()
    ensures Power(2) == 100 && Power(4) == 10_000
  {
    assert Power(1) == 10;
    assert Power(3) == 1000;
  }

  lemma InTwo(d: nat, s: nat, t: nat)
    requires 0 < d
    ensures Or(CompareInts(s / d, t / d), CompareInts(s % d, t % d)) == CompareInts(s, t)
  {
    assert s == d * (s / d) + s % d && t == d * (t / d) + t % d;
    Multiplied(d, s / d + 1, t / d);
    Multiplied(d, t / d + 1, s / d);
  }

  lemma MinuteOfHour(s: nat)
    ensures s % 3600 % 60 == s % 60
  {
    var h := s / 3600;
    assert s == 60 * (60 * h + s % 3600 / 60) + s % 3600 % 60;
    Quotient(s, 60, 60 * h + s % 3600 / 60);
  }

  lemma ClockFieldsCompare(s: nat, t: nat)
    ensures Or(CompareInts(s / 3600, t / 3600),
               Or(CompareInts((s % 3600) / 60, (t % 3600) / 60), CompareInts(s % 60, t % 60)))
         == CompareInts(s, t)
  {
    MinuteOfHour(s);
    MinuteOfHour(t);
    InTwo(60, s % 3600, t % 3600);
    InTwo(3600, s, t);
  }

  lemma ClocksCompare(s: nat, t: nat)
    requires s < DAY && t < DAY
    ensures CompareTexts(Clock(s), Clock(t)) == CompareInts(s, t)
  {
    PowersOfTen();
    LexEqualTexts("Z");
    PaddedThen(2, s % 60, t % 60, "Z", "Z");
    PaddedThen(2, (s % 3600) / 60, (t % 3600) / 60, Padded(2, s % 60) + "Z", Padded(2, t % 60) + "Z");
    PaddedThen(2, s / 3600, t / 3600,
               Padded(2, (s % 3600) / 60) + (Padded(2, s % 60) + "Z"),
               Padded(2, (t % 3600) / 60) + (Padded(2, t % 60) + "Z"));
    ClockFieldsCompare(s, t);
  }

  lemma LexEqualTexts(a: string)
    ensures CompareTexts(a, a) == Equal
  {
    TextsAreTotal();
  }

  /** With four digits of year every field is as wide in one stamp as in
      another. */
  lemma WrittenCompares(a: Date, s: nat, b: Date, t: nat)
    requires IsDate(a) && 0 <= a.year <= 9999 && s < DAY
    requires IsDate(b) && 0 <= b.year <= 9999 && t < DAY
    ensures CompareTexts(Written(a, s), Written(b, t)) == Or(CompareDates(a, b), CompareInts(s, t))
  {
    PowersOfTen();
    ClocksCompare(s, t);
    LexEqualTexts("T");
    Joining("T", Clock(s), "T", Clock(t));
    PaddedThen(2, a.day, b.day, "T" + Clock(s), "T" + Clock(t));
    PaddedThen(2, a.month, b.month, Padded(2, a.day) + ("T" + Clock(s)), Padded(2, b.day) + ("T" + Clock(t)));
    PaddedThen(4, a.year, b.year,
               Padded(2, a.month) + (Padded(2, a.day) + ("T" + Clock(s))),
               Padded(2, b.month) + (Padded(2, b.day) + ("T" + Clock(t))));
  }

  lemma FiveDigitsStart()
    ensures Civil(FIVE_DIGITS / DAY) == Date(10_000, 1, 1) && FIVE_DIGITS % DAY == 0
  {
    assert FIVE_DIGITS / DAY == 2_932_897;
    PlaceOfIs(2_932_897, Place(24, 399, 306));
  }

  lemma FourDigitsUntil(unix: nat)
    requires unix < FIVE_DIGITS
    ensures Civil(unix / DAY).year <= 9999
  {
    FiveDigitsStart();
    DatesCompareAsDays(unix / DAY, FIVE_DIGITS / DAY);
    CivilIsFromTheEpochOn(unix / DAY);
  }

  /** Through the year 9999 stamps compare as texts the way their seconds do. */
  lemma StampsCompare(a: nat, b: nat)
    requires a < FIVE_DIGITS && b < FIVE_DIGITS
    ensures CompareTexts(Stamp(a), Stamp(b)) == CompareInts(a, b)
  {
    FourDigitsUntil(a);
    FourDigitsUntil(b);
    CivilIsFromTheEpochOn(a / DAY);
    CivilIsFromTheEpochOn(b / DAY);
    WrittenCompares(Civil(a / DAY), a % DAY, Civil(b / DAY), b % DAY);
    DatesCompareAsDays(a / DAY, b / DAY);
    InTwo(DAY, a, b);
  }

  /** The first stamp of the year 10000 reads as one before the epoch's. */
  lemma FiveDigitsReadAsEarlier()
    ensures CompareTexts(Stamp(0), Stamp(FIVE_DIGITS)) == Greater
  {
    FiveDigitsStart();
    CivilStart();
    assert Decimal(1970) == "1970";
    assert Decimal(10_000) == "10000";
    Joining("19", Stamp(0)[2..], "10", Stamp(FIVE_DIGITS)[2..]);
    assert Stamp(0) == "19" + Stamp(0)[2..];
    assert Stamp(FIVE_DIGITS) == "10" + Stamp(FIVE_DIGITS)[2..];
  }

  /** Text order is time order before a moment. */
  ghost predicate OrderedBefore(stamp: nat -> string, until: nat) {
    forall a: nat, b: nat :: a < until && b < until ==> CompareTexts(stamp(a), stamp(b)) == CompareInts(a, b)
  }

  lemma OrderedIff(stamp: nat -> string, limit: nat, until: nat)
    requires 0 < limit && OrderedBefore(stamp, limit) && CompareTexts(stamp(0), stamp(limit)) == Greater
    ensures OrderedBefore(stamp, until) <==> until <= limit
  {
  }

  lemma StampsAreOrdered()
    ensures OrderedBefore(Stamp, FIVE_DIGITS)
  {
    forall a: nat, b: nat | a < FIVE_DIGITS && b < FIVE_DIGITS
      ensures CompareTexts(Stamp(a), Stamp(b)) == CompareInts(a, b)
    {
      StampsCompare(a, b);
    }
  }

  /** Text order is time order exactly until the start of the year 10000. */
  lemma StampsAreOrderedIff(until: nat)
    ensures OrderedBefore(Stamp, until) <==> until <= FIVE_DIGITS
  {
    StampsAreOrdered();
    FiveDigitsReadAsEarlier();
    OrderedIff(Stamp, FIVE_DIGITS, until);
  }

  // What a stamp says.

  /** These characters of a stamp are digits, and this is the number they are. */
  predicate HasField(stamp: string, from: nat, to: nat, n: int) {
    && from <= to <= |stamp| && AreDigits(stamp[from..to])
    && Spelled(10, DigitValues(stamp[from..to])) == n
  }

  /** A field as wide as this that is the number. */
  predicate IsField(text: string, width: nat, n: int) {
    |text| == width && AreDigits(text) && Spelled(10, DigitValues(text)) == n
  }

  lemma PaddedIsField(width: nat, n: nat)
    requires 0 < width && n < Power(width)
    ensures IsField(Padded(width, n), width, n)
  {
    PaddedIsFixed(width, n);
    FixedSpells(width, n);
  }

  lemma Slices(stamp: string, y: string, m: string, d: string, h: string, i: string, s: string)
    requires |y| == 4 && |m| == 2 && |d| == 2 && |h| == 2 && |i| == 2 && |s| == 2
    requires stamp == y + (m + (d + ("T" + (h + (i + (s + "Z"))))))
    ensures |stamp| == 16 && stamp[8] == 'T' && stamp[15] == 'Z'
    ensures stamp[0..4] == y && stamp[4..6] == m && stamp[6..8] == d
    ensures stamp[9..11] == h && stamp[11..13] == i && stamp[13..15] == s
  {
  }

  /** A stamp whose fields are these numbers. */
  ghost predicate IsStampOf(stamp: string, year: int, month: int, day: int, hour: int, minute: int, second: int) {
    && |stamp| == 16 && stamp[8] == 'T' && stamp[15] == 'Z'
    && HasField(stamp, 0, 4, year) && HasField(stamp, 4, 6, month) && HasField(stamp, 6, 8, day)
    && HasField(stamp, 9, 11, hour) && HasField(stamp, 11, 13, minute) && HasField(stamp, 13, 15, second)
  }

  lemma FieldsMakeAStamp(stamp: string, y: string, m: string, d: string, h: string, i: string, s: string,
                         year: int, month: int, day: int, hour: int, minute: int, second: int)
    requires IsField(y, 4, year) && IsField(m, 2, month) && IsField(d, 2, day)
    requires IsField(h, 2, hour) && IsField(i, 2, minute) && IsField(s, 2, second)
    requires stamp == y + (m + (d + ("T" + (h + (i + (s + "Z"))))))
    ensures IsStampOf(stamp, year, month, day, hour, minute, second)
  {
    Slices(stamp, y, m, d, h, i, s);
  }

  lemma FieldsFit(d: Date, seconds: nat)
    requires IsDate(d) && 0 <= d.year <= 9999 && seconds < DAY
    ensures d.year < Power(4) && 0 <= d.month < Power(2) && 0 <= d.day < Power(2)
    ensures seconds / 3600 < Power(2) && seconds % 3600 / 60 < Power(2) && seconds % 60 < Power(2)
  {
    PowersOfTen();
  }

  lemma WrittenSays(d: Date, seconds: nat)
    requires IsDate(d) && 0 <= d.year <= 9999 && seconds < DAY
    ensures IsStampOf(Written(d, seconds), d.year, d.month, d.day, seconds / 3600, seconds % 3600 / 60, seconds % 60)
  {
    FieldsFit(d, seconds);
    PaddedIsField(4, d.year);
    PaddedIsField(2, d.month);
    PaddedIsField(2, d.day);
    PaddedIsField(2, seconds / 3600);
    PaddedIsField(2, seconds % 3600 / 60);
    PaddedIsField(2, seconds % 60);
    FieldsMakeAStamp(
      Written(d, seconds), Padded(4, d.year), Padded(2, d.month), Padded(2, d.day),
      Padded(2, seconds / 3600), Padded(2, seconds % 3600 / 60), Padded(2, seconds % 60),
      d.year, d.month, d.day, seconds / 3600, seconds % 3600 / 60, seconds % 60);
  }

  /** A stamp of a moment before the year 10000 is sixteen characters, `T` and `Z` in
      their places, and its digits are the date of the day in the calendar and the
      time of that day. */
  lemma StampSays(unix: nat)
    requires unix < FIVE_DIGITS
    ensures var date, seconds := DayAfter(unix / 86_400), unix % 86_400;
            IsStampOf(Stamp(unix), date.year, date.month, date.day, seconds / 3600, seconds % 3600 / 60, seconds % 60)
  {
    CivilIsTheCalendar(unix / DAY);
    CivilIsFromTheEpochOn(unix / DAY);
    FourDigitsUntil(unix);
    WrittenSays(Civil(unix / DAY), unix % DAY);
  }
}
