/** Canonical timestamps (internal/db/timestamps.go): the text every event time is stored as, and the reader for
  the shapes found in old rows. Parsing follows the rules of Go's time.Parse for the five layouts listed there. */
module Timestamps {
  import opened Common
  import opened Text
  import opened Calendar

  /** A UTC instant: whole seconds since the first of January of year 0, and nanoseconds within the second. */
  datatype Instant = Instant(second: int, nano: int)

  // ---------------------------------------------------------------------------------------------------
  // Formatting
  // ---------------------------------------------------------------------------------------------------

  function Digit(n: int): char
    requires 0 <= n < 10
  {
    ('0' as int + n) as char
  }

  predicate IsDigit(c: char) {
    '0' <= c <= '9'
  }

  function DigitValue(c: char): (n: int)
    requires IsDigit(c)
    ensures 0 <= n < 10 && Digit(n) == c
  {
    c as int - '0' as int
  }

  function Pow10(width: nat): (p: int)
    ensures p > 0
  {
    if width == 0 then 1 else 10 * Pow10(width - 1)
  }

  /** `n` in exactly `width` decimal digits. */
  function Pad(n: nat, width: nat): (s: string)
    ensures |s| == width
    ensures forall i :: 0 <= i < |s| ==> IsDigit(s[i])
  {
    if width == 0 then "" else Pad(n / 10, width - 1) + [Digit(n % 10)]
  }

  /** `n` in as many digits as it needs. */
  function Decimal(n: nat): (s: string)
    ensures |s| >= 1
    ensures forall i :: 0 <= i < |s| ==> IsDigit(s[i])
  {
    if n < 10 then [Digit(n)] else Decimal(n / 10) + [Digit(n % 10)]
  }

  lemma FiveDigits(n: nat)
    requires n >= 10000
    ensures |Decimal(n)| >= 5
  {
    assert |Decimal(n / 1000)| >= 2 && n / 10 / 10 / 10 == n / 1000;
    assert |Decimal(n / 100)| >= 3 && n / 10 / 10 == n / 100;
    assert |Decimal(n / 10)| >= 4;
  }

  function YearText(year: int): string {
    if year < 0 then "-" + (if -year < 10000 then Pad(-year, 4) else Decimal(-year))
    else if year < 10000 then Pad(year, 4)
    else Decimal(year)
  }

  function SecondText(c: Civil): string
    requires ValidCivil(c)
  {
    Pad(c.second, 2) + "Z"
  }

  function MinuteText(c: Civil): string
    requires ValidCivil(c)
  {
    Pad(c.minute, 2) + (":" + SecondText(c))
  }

  function HourText(c: Civil): string
    requires ValidCivil(c)
  {
    Pad(c.hour, 2) + (":" + MinuteText(c))
  }

  function DayText(c: Civil): string
    requires ValidCivil(c)
  {
    Pad(c.date.day, 2) + ("T" + HourText(c))
  }

  function MonthText(c: Civil): string
    requires ValidCivil(c)
  {
    Pad(c.date.month, 2) + ("-" + DayText(c))
  }

  function CivilText(c: Civil): string
    requires ValidCivil(c)
  {
    YearText(c.date.year) + ("-" + MonthText(c))
  }

  /** FormatTimestamp. */
  function Format(t: Instant): string {
    CivilText(CivilOf(t.second))
  }

  /** The instants whose UTC year is 0000 to 9999, the years RFC 3339 can write. */
  predicate InRange(t: Instant) {
    0 <= t.second < DaysBeforeYear(10000) * SECONDS_PER_DAY
  }

  lemma InRangeYears(t: Instant)
    ensures InRange(t) <==> 0 <= CivilOf(t.second).date.year <= 9999
  {
    var c := CivilOf(t.second);
    var day := DayNumber(c.date);
    assert day * SECONDS_PER_DAY <= t.second < (day + 1) * SECONDS_PER_DAY;
    DayWithinYear(c.date);
    if c.date.year < 0 {
      YearsIncrease(c.date.year + 1, 0);
    } else if c.date.year > 9999 {
      YearsIncrease(10000, c.date.year);
    } else {
      YearsIncrease(0, c.date.year);
      YearsIncrease(c.date.year + 1, 10000);
    }
  }

  // ---------------------------------------------------------------------------------------------------
  // Text order is time order (section 5.1 of RFC 3339)
  // ---------------------------------------------------------------------------------------------------

  lemma LessCons(c: char, d: char, s: string, t: string)
    ensures Less([c] + s, [d] + t) <==> c < d || (c == d && Less(s, t))
    ensures [c] + s == [d] + t <==> c == d && s == t
  {
    assert ([c] + s)[1..] == s && ([d] + t)[1..] == t;
    assert ([c] + s)[0] == c && ([d] + t)[0] == d;
  }

  lemma PadShift(n: nat, width: nat, s: string)
    requires width > 0
    ensures Pad(n, width) + s == Pad(n / 10, width - 1) + ([Digit(n % 10)] + s)
  {
  }

  /** Texts that start with fields of the same width compare field first. */
  lemma {:induction false} PaddedOrder(n: nat, m: nat, width: nat, s: string, t: string)
    requires n < Pow10(width) && m < Pow10(width)
    ensures Less(Pad(n, width) + s, Pad(m, width) + t) <==> n < m || (n == m && Less(s, t))
    ensures Pad(n, width) + s == Pad(m, width) + t <==> n == m && s == t
  {
    if width == 0 {
      assert Pad(n, 0) + s == s && Pad(m, 0) + t == t;
    } else {
      PadShift(n, width, s);
      PadShift(m, width, t);
      LessCons(Digit(n % 10), Digit(m % 10), s, t);
      PaddedOrder(n / 10, m / 10, width - 1, [Digit(n % 10)] + s, [Digit(m % 10)] + t);
    }
  }

  lemma PowersOfTen()
    ensures Pow10(2) == 100 && Pow10(4) == 10000
  {
    assert Pow10(1) == 10;
    assert Pow10(3) == 10 * Pow10(2);
  }

  lemma HourOrder(a: Civil, b: Civil)
    requires ValidCivil(a) && ValidCivil(b)
    ensures Less(HourText(a), HourText(b)) <==>
      a.hour < b.hour || (a.hour == b.hour &&
        (a.minute < b.minute || (a.minute == b.minute && a.second < b.second)))
    ensures HourText(a) == HourText(b) <==> a.hour == b.hour && a.minute == b.minute && a.second == b.second
  {
    PowersOfTen();
    PaddedOrder(a.second, b.second, 2, "Z", "Z");
    LessIrreflexive("Z");
    LessCons(':', ':', SecondText(a), SecondText(b));
    PaddedOrder(a.minute, b.minute, 2, ":" + SecondText(a), ":" + SecondText(b));
    LessCons(':', ':', MinuteText(a), MinuteText(b));
    PaddedOrder(a.hour, b.hour, 2, ":" + MinuteText(a), ":" + MinuteText(b));
  }

  lemma DayOrder(a: Civil, b: Civil)
    requires ValidCivil(a) && ValidCivil(b)
    ensures Less(DayText(a), DayText(b)) <==>
      a.date.day < b.date.day || (a.date.day == b.date.day && Less(HourText(a), HourText(b)))
    ensures DayText(a) == DayText(b) <==> a.date.day == b.date.day && HourText(a) == HourText(b)
  {
    PowersOfTen();
    LessCons('T', 'T', HourText(a), HourText(b));
    PaddedOrder(a.date.day, b.date.day, 2, "T" + HourText(a), "T" + HourText(b));
  }

  lemma MonthOrder(a: Civil, b: Civil)
    requires ValidCivil(a) && ValidCivil(b)
    ensures Less(MonthText(a), MonthText(b)) <==>
      a.date.month < b.date.month || (a.date.month == b.date.month && Less(DayText(a), DayText(b)))
    ensures MonthText(a) == MonthText(b) <==> a.date.month == b.date.month && DayText(a) == DayText(b)
  {
    PowersOfTen();
    LessCons('-', '-', DayText(a), DayText(b));
    PaddedOrder(a.date.month, b.date.month, 2, "-" + DayText(a), "-" + DayText(b));
  }

  lemma YearOrder(a: Civil, b: Civil)
    requires ValidCivil(a) && ValidCivil(b)
    requires 0 <= a.date.year <= 9999 && 0 <= b.date.year <= 9999
    ensures Less(CivilText(a), CivilText(b)) <==>
      a.date.year < b.date.year || (a.date.year == b.date.year && Less(MonthText(a), MonthText(b)))
    ensures CivilText(a) == CivilText(b) <==> a.date.year == b.date.year && MonthText(a) == MonthText(b)
  {
    PowersOfTen();
    LessCons('-', '-', MonthText(a), MonthText(b));
    PaddedOrder(a.date.year, b.date.year, 4, "-" + MonthText(a), "-" + MonthText(b));
  }

  lemma CivilTextOrder(a: Civil, b: Civil)
    requires ValidCivil(a) && ValidCivil(b)
    requires 0 <= a.date.year <= 9999 && 0 <= b.date.year <= 9999
    ensures Less(CivilText(a), CivilText(b)) <==> CivilLess(a, b)
    ensures CivilText(a) == CivilText(b) <==> a == b
  {
    HourOrder(a, b);
    DayOrder(a, b);
    MonthOrder(a, b);
    YearOrder(a, b);
  }

  /** For the years 0000 to 9999 comparing stored texts is comparing seconds. */
  lemma FormatIsOrderEmbedding(a: Instant, b: Instant)
    requires InRange(a) && InRange(b)
    ensures Less(Format(a), Format(b)) <==> a.second < b.second
    ensures Format(a) == Format(b) <==> a.second == b.second
  {
    InRangeYears(a);
    InRangeYears(b);
    CivilTextOrder(CivilOf(a.second), CivilOf(b.second));
    CivilOrder(CivilOf(a.second), CivilOf(b.second));
  }

  lemma FirstDigits(n: nat)
    requires n == 10000
    ensures Decimal(n)[0] == '1' && Pad(n - 1, 4)[0] == '9'
  {
    assert Decimal(1)[0] == '1';
    assert Decimal(10)[0] == '1';
    assert Decimal(100)[0] == '1';
    assert Decimal(1000)[0] == '1';
    assert Pad(9, 1)[0] == '9';
    assert Pad(99, 2)[0] == '9';
    assert Pad(999, 3)[0] == '9';
  }

  lemma EdgeOfRange(year: int, second: int)
    requires second == DaysBeforeYear(year) * SECONDS_PER_DAY
    ensures CivilOf(second) == Civil(Date(year, 1, 1), 0, 0, 0)
    ensures CivilOf(second - 1) == Civil(Date(year - 1, 12, 31), 23, 59, 59)
  {
    hide DaysBeforeYear, IsLeap;
    LastDayOfYear(year);
    CivilRoundTrip(Civil(Date(year, 1, 1), 0, 0, 0));
    CivilRoundTrip(Civil(Date(year - 1, 12, 31), 23, 59, 59));
  }

  lemma LastDayOfYear(year: int)
    ensures DayNumber(Date(year, 1, 1)) == DaysBeforeYear(year)
    ensures DayNumber(Date(year - 1, 12, 31)) == DaysBeforeYear(year) - 1
  {
    MonthsFillYear(year - 1);
    YearStep(year - 1);
  }

  lemma FirstCharacterOrder(a: string, b: string)
    requires a != [] && b != [] && a[0] < b[0]
    ensures Less(a, b)
  {
  }

  lemma EdgeText(c: Civil, d: Civil, year: int)
    requires ValidCivil(c) && ValidCivil(d) && c.date.year == year == 10000 && d.date.year == year - 1
    ensures Less(CivilText(c), CivilText(d))
  {
    FirstDigits(year);
    FirstCharacterOrder(CivilText(c), CivilText(d));
  }

  lemma EdgeYears(year: int, second: int)
    requires second == DaysBeforeYear(year) * SECONDS_PER_DAY
    ensures CivilOf(second).date.year == year && CivilOf(second - 1).date.year == year - 1
  {
    EdgeOfRange(year, second);
  }

  // ---------------------------------------------------------------------------------------------------
  // Exactly where text order is time order
  // ---------------------------------------------------------------------------------------------------

  /** The first second of year -1, and the first of year 10000. */
  function OrderedFrom(): int {
    DaysBeforeYear(-1) * SECONDS_PER_DAY
  }

  function OrderedUpTo(): int {
    DaysBeforeYear(10000) * SECONDS_PER_DAY
  }

  /** Comparing the stored texts of two seconds is comparing the seconds. */
  predicate OrdersAlike(a: int, b: int) {
    (Less(Format(Instant(a, 0)), Format(Instant(b, 0))) <==> a < b) &&
    (Format(Instant(a, 0)) == Format(Instant(b, 0)) <==> a == b)
  }

  lemma OrderedYears(second: int)
    ensures OrderedFrom() <= second < OrderedUpTo() <==> -1 <= CivilOf(second).date.year <= 9999
  {
    var c := CivilOf(second);
    DayOfSecond(c, second);
    DayWithinYear(c.date);
    if c.date.year < -1 {
      YearsIncrease(c.date.year + 1, -1);
    } else if c.date.year > 9999 {
      YearsIncrease(10000, c.date.year);
    } else {
      YearsIncrease(-1, c.date.year);
      YearsIncrease(c.date.year + 1, 10000);
    }
  }

  lemma DayOfSecond(c: Civil, second: int)
    requires ValidCivil(c) && SecondOf(c) == second
    ensures DayNumber(c.date) * SECONDS_PER_DAY <= second < (DayNumber(c.date) + 1) * SECONDS_PER_DAY
  {
  }

  /** A minus sign sorts before every digit, so year -1 comes before the years 0000 to 9999. */
  lemma MinusFirst(a: Civil, b: Civil)
    requires ValidCivil(a) && ValidCivil(b) && a.date.year == -1 && 0 <= b.date.year <= 9999
    ensures Less(CivilText(a), CivilText(b)) && CivilText(a) != CivilText(b)
  {
    assert CivilText(a)[0] == '-' && IsDigit(CivilText(b)[0]);
    FirstCharacterOrder(CivilText(a), CivilText(b));
  }

  lemma WithinYearBeforeZero(a: Civil, b: Civil, year: int)
    requires ValidCivil(a) && ValidCivil(b) && a.date.year == b.date.year == year
    ensures Less(CivilText(a), CivilText(b)) <==> CivilLess(a, b)
    ensures CivilText(a) == CivilText(b) <==> a == b
  {
    HourOrder(a, b);
    DayOrder(a, b);
    MonthOrder(a, b);
    LessCons('-', '-', MonthText(a), MonthText(b));
    LessCommonPrefix(YearText(year), "-" + MonthText(a), "-" + MonthText(b));
    SamePrefix(YearText(year), "-" + MonthText(a), "-" + MonthText(b));
  }

  lemma SamePrefix(p: string, a: string, b: string)
    ensures p + a == p + b <==> a == b
  {
    assert (p + a)[|p|..] == a && (p + b)[|p|..] == b;
  }

  lemma OrderFromYearMinusOne(a: Civil, b: Civil)
    requires ValidCivil(a) && ValidCivil(b) && -1 <= a.date.year <= 9999 && -1 <= b.date.year <= 9999
    ensures Less(CivilText(a), CivilText(b)) <==> CivilLess(a, b)
    ensures CivilText(a) == CivilText(b) <==> a == b
  {
    hide CivilText, Less, ValidCivil;
    if a.date.year == b.date.year {
      WithinYearBeforeZero(a, b, a.date.year);
    } else if a.date.year == -1 {
      MinusFirst(a, b);
      LessAsymmetricTexts(CivilText(a), CivilText(b));
    } else if b.date.year == -1 {
      MinusFirst(b, a);
      LessAsymmetricTexts(CivilText(b), CivilText(a));
    } else {
      CivilTextOrder(a, b);
    }
  }

  lemma LessAsymmetricTexts(a: string, b: string)
    requires Less(a, b)
    ensures !Less(b, a)
  {
    LessAsymmetric(a, b);
  }

  lemma OrderedWithin(a: int, b: int)
    requires OrderedFrom() <= a < OrderedUpTo() && OrderedFrom() <= b < OrderedUpTo()
    ensures OrdersAlike(a, b)
  {
    hide OrderedFrom, OrderedUpTo, Less, CivilText, CivilLess, DaysBeforeYear, IsLeap;
    OrderedYears(a);
    OrderedYears(b);
    OrderFromYearMinusOne(CivilOf(a), CivilOf(b));
    CivilOrder(CivilOf(a), CivilOf(b));
  }

  lemma PadSmall(n: nat, width: nat)
    requires n < 10 && width > 0
    ensures Pad(n, width) == Pad(0, width - 1) + [Digit(n)]
  {
  }

  lemma SmallNegativeYear(year: int)
    requires -10 < year < 0
    ensures YearText(year) == "-" + Pad(0, 3) + [Digit(-year)]
  {
    PadSmall(-year, 4);
  }

  lemma SplitText(c: Civil, front: string, digit: char)
    requires ValidCivil(c) && YearText(c.date.year) == front + [digit]
    ensures CivilText(c) == front + ([digit] + ("-" + MonthText(c)))
  {
    hide YearText, MonthText;
  }

  /** The last second of year -2 sorts after the first of year -1. */
  lemma LowerEdgeText(c: Civil, d: Civil)
    requires ValidCivil(c) && ValidCivil(d) && c.date.year == -2 && d.date.year == -1
    ensures Less(CivilText(d), CivilText(c))
  {
    hide CivilText, MonthText, YearText, Pad;
    SmallNegativeYear(c.date.year);
    SmallNegativeYear(d.date.year);
    SplitText(c, "-" + Pad(0, 3), '2');
    SplitText(d, "-" + Pad(0, 3), '1');
    FirstCharacterOrder(['1'] + ("-" + MonthText(d)), ['2'] + ("-" + MonthText(c)));
    LessCommonPrefix("-" + Pad(0, 3), ['1'] + ("-" + MonthText(d)), ['2'] + ("-" + MonthText(c)));
  }

  lemma LowerEdge(year: int, first: int)
    requires year == -1 && first == DaysBeforeYear(year) * SECONDS_PER_DAY
    ensures !OrdersAlike(first - 1, first)
  {
    hide Less, CivilText, DaysBeforeYear, IsLeap;
    EdgeYears(year, first);
    LowerEdgeText(CivilOf(first - 1), CivilOf(first));
    LessAsymmetricTexts(Format(Instant(first, 0)), Format(Instant(first - 1, 0)));
  }

  lemma UpperEdge(year: int, next: int)
    requires year == 10000 && next == DaysBeforeYear(year) * SECONDS_PER_DAY
    ensures !OrdersAlike(next - 1, next)
  {
    hide Less, CivilText, DaysBeforeYear, IsLeap;
    EdgeYears(year, next);
    EdgeText(CivilOf(next), CivilOf(next - 1), year);
    LessAsymmetricTexts(Format(Instant(next, 0)), Format(Instant(next - 1, 0)));
  }

  ghost predicate OrderedThroughout(lo: int, hi: int) {
    forall a, b :: lo <= a <= hi && lo <= b <= hi ==> OrdersAlike(a, b)
  }

  /** A stretch of time that meets the years -1 to 9999 sorts as text exactly if it lies within them. */
  lemma TextOrderIsTimeOrderIff(lo: int, hi: int)
    requires lo <= hi && lo < OrderedUpTo() && OrderedFrom() <= hi
    ensures OrderedThroughout(lo, hi) <==> OrderedFrom() <= lo && hi < OrderedUpTo()
  {
    hide OrdersAlike, DaysBeforeYear;
    if OrderedFrom() <= lo && hi < OrderedUpTo() {
      forall a, b | lo <= a <= hi && lo <= b <= hi
        ensures OrdersAlike(a, b)
      {
        OrderedWithin(a, b);
      }
    } else {
      LowerEdge(-1, OrderedFrom());
      UpperEdge(10000, OrderedUpTo());
    }
  }

  // ---------------------------------------------------------------------------------------------------
  // Buckets
  // ---------------------------------------------------------------------------------------------------

  /** SQL substr(created_at, 1, 13) || ':00:00Z', and substr(created_at, 1, 10). */
  function HourBucket(createdAt: string): string {
    (if |createdAt| <= 13 then createdAt else createdAt[..13]) + ":00:00Z"
  }

  function DayBucket(createdAt: string): string {
    if |createdAt| <= 10 then createdAt else createdAt[..10]
  }

  function DatePart(d: Date): string
    requires ValidDate(d)
  {
    YearText(d.year) + "-" + Pad(d.month, 2) + "-" + Pad(d.day, 2)
  }

  lemma DateThenClock(c: Civil)
    requires ValidCivil(c)
    ensures CivilText(c) == DatePart(c.date) + ("T" + HourText(c))
    ensures 0 <= c.date.year <= 9999 ==> |DatePart(c.date)| == 10
  {
  }

  lemma HourThenMinute(c: Civil)
    requires ValidCivil(c) && 0 <= c.date.year <= 9999
    ensures CivilText(c) == DatePart(c.date) + "T" + Pad(c.hour, 2) + (":" + MinuteText(c))
    ensures |DatePart(c.date) + "T" + Pad(c.hour, 2)| == 13
  {
    DateThenClock(c);
  }

  lemma ZeroMinutes(c: Civil)
    requires ValidCivil(c) && c.minute == 0 && c.second == 0
    ensures MinuteText(c) == "00:00Z"
  {
    assert Pad(0, 1) == "0" && Pad(0, 2) == "00";
  }

  lemma HourRemainder(a: int, hours: int, rest: int)
    requires a == 3600 * hours + rest && 0 <= rest < 3600
    ensures a % 3600 == rest
  {
  }

  function HourStart(c: Civil): Civil {
    c.(minute := 0, second := 0)
  }

  lemma HourStartSecond(c: Civil)
    requires ValidCivil(c)
    ensures SecondOf(HourStart(c)) == SecondOf(c) - SecondOf(c) % 3600
  {
    HourRemainder(SecondOf(c), 24 * DayNumber(c.date) + c.hour, c.minute * 60 + c.second);
  }

  lemma TruncatedHour(t: Instant, second: int)
    requires second == t.second - t.second % 3600
    ensures CivilOf(second) == HourStart(CivilOf(t.second))
  {
    hide DaysBeforeYear, IsLeap;
    var c := CivilOf(t.second);
    HourStartSecond(c);
    CivilRoundTrip(HourStart(c));
  }

  lemma HourBucketOfText(c: Civil)
    requires ValidCivil(c) && 0 <= c.date.year <= 9999
    ensures HourBucket(CivilText(c)) == CivilText(HourStart(c))
  {
    var h := HourStart(c);
    HourThenMinute(c);
    HourThenMinute(h);
    ZeroMinutes(h);
    TakePrefix(DatePart(c.date) + "T" + Pad(c.hour, 2), ":" + MinuteText(c));
    assert ":" + "00:00Z" == ":00:00Z";
  }

  /** The hour bucket of a stored time is the stored form of the time truncated to the hour. */
  lemma HourBucketTruncates(t: Instant, second: int)
    requires InRange(t) && second == t.second - t.second % 3600
    ensures HourBucket(Format(t)) == Format(Instant(second, 0))
  {
    InRangeYears(t);
    TruncatedHour(t, second);
    HourBucketOfText(CivilOf(t.second));
  }

  lemma TakePrefix(prefix: string, rest: string)
    ensures (prefix + rest)[..|prefix|] == prefix
  {
  }

  /** Two stored times share a day bucket exactly when they fall on the same UTC day. */
  lemma DayBucketIsTheDay(a: Instant, b: Instant)
    requires InRange(a) && InRange(b)
    ensures DayBucket(Format(a)) == DayBucket(Format(b)) <==> a.second / SECONDS_PER_DAY == b.second / SECONDS_PER_DAY
  {
    InRangeYears(a);
    InRangeYears(b);
    var c := CivilOf(a.second);
    var d := CivilOf(b.second);
    DateThenClock(c);
    DateThenClock(d);
    assert DayBucket(Format(a)) == DatePart(c.date) && DayBucket(Format(b)) == DatePart(d.date);
    DatePartInjective(c.date, d.date);
    DateOrder(c.date, d.date);
  }

  lemma DatePartInjective(a: Date, b: Date)
    requires ValidDate(a) && ValidDate(b) && 0 <= a.year <= 9999 && 0 <= b.year <= 9999
    ensures DatePart(a) == DatePart(b) <==> a == b
  {
    var c := Civil(a, 0, 0, 0);
    var d := Civil(b, 0, 0, 0);
    DateThenClock(c);
    DateThenClock(d);
    HourOrder(c, d);
    CivilTextOrder(c, d);
  }

  // ---------------------------------------------------------------------------------------------------
  // Parsing
  // ---------------------------------------------------------------------------------------------------

  /** The pieces a layout is made of. */
  datatype Chunk =
    | Year | Month | Day | Hour | Minute | Second
    | Fraction     // ".999999999": optional, any number of digits
    | ZoneOrZ      // "Z07:00"
    | ShortOffset  // "-07"
    | ColonOffset  // "-07:00"
    | Mark(c: char)

  datatype Layout = End | Then(chunk: Chunk, rest: Layout)

  function FromMinute(zone: Layout): Layout {
    Then(Minute, Then(Mark(':'), Then(Second, zone)))
  }

  function FromDay(separator: char, zone: Layout): Layout {
    Then(Day, Then(Mark(separator), Then(Hour, Then(Mark(':'), FromMinute(zone)))))
  }

  function DateTime(separator: char, zone: Layout): Layout {
    Then(Year, Then(Mark('-'), Then(Month, Then(Mark('-'), FromDay(separator, zone)))))
  }

  const NANO_ZONE := Then(Fraction, Then(ZoneOrZ, End))

  /** storedTimestampLayouts, in the order tried. */
  const STORED_LAYOUTS: seq<Layout> :=
    [ DateTime('T', NANO_ZONE),
      DateTime(' ', End),
      DateTime(' ', Then(Fraction, Then(ShortOffset, End))),
      DateTime(' ', Then(Fraction, Then(ColonOffset, End))),
      DateTime(' ', Then(ShortOffset, End)) ]

  /** What has been read so far; `offset` is the zone offset in seconds. */
  datatype Fields = Fields(year: int, month: int, day: int, hour: int, minute: int, second: int, nano: int, offset: int)

  const NO_FIELDS := Fields(0, 1, 1, 0, 0, 0, 0, 0)

  /** A number read from the front of a text, and the rest of the text. */
  datatype Read = Read(n: int, rest: string)

  lemma NextDigit(v: string, r: Read, width: nat, n: int)
    requires width > 0 && 0 <= r.n < Pow10(width - 1) && v == Pad(r.n, width - 1) + r.rest
    requires r.rest != "" && IsDigit(r.rest[0]) && n == 10 * r.n + DigitValue(r.rest[0])
    ensures 0 <= n < Pow10(width) && v == Pad(n, width) + r.rest[1..]
  {
    assert n / 10 == r.n && n % 10 == DigitValue(r.rest[0]);
    PadShift(n, width, r.rest[1..]);
    hide Pad;
    assert r.rest == [r.rest[0]] + r.rest[1..];
  }

  /** A field of exactly `width` digits. */
  function ReadFixed(v: string, width: nat): (r: Option<Read>)
    ensures r.Some? ==> 0 <= r.value.n < Pow10(width) && v == Pad(r.value.n, width) + r.value.rest
    decreases width
  {
    if width == 0 then Some(Read(0, v))
    else
      match ReadFixed(v, width - 1)
      case None => None
      case Some(r) =>
        if r.rest == "" || !IsDigit(r.rest[0]) then None
        else
          var n := 10 * r.n + DigitValue(r.rest[0]);
          NextDigit(v, r, width, n);
          Some(Read(n, r.rest[1..]))
  }

  /** A field of two digits, or of one when the next character is not a digit. */
  function ReadLoose(v: string): (r: Option<Read>) {
    if v == "" || !IsDigit(v[0]) then None
    else if |v| == 1 || !IsDigit(v[1]) then Some(Read(DigitValue(v[0]), v[1..]))
    else ReadFixed(v, 2)
  }

  function DigitRun(v: string): (n: nat)
    ensures n <= |v|
  {
    if v == "" || !IsDigit(v[0]) then 0 else 1 + DigitRun(v[1..])
  }

  function SkipSpaces(v: string): string {
    if v != "" && v[0] == ' ' then SkipSpaces(v[1..]) else v
  }

  /** The value of the first nine of the digits after the point, in nanoseconds. */
  function Nanos(digits: string, places: nat): int {
    if places == 0 then 0
    else if digits == "" || !IsDigit(digits[0]) then 0
    else DigitValue(digits[0]) * Pow10(places - 1) + Nanos(digits[1..], places - 1)
  }

  predicate StartsFraction(v: string) {
    |v| >= 2 && v[0] in ".," && IsDigit(v[1])
  }

  /** An optional fraction of a second. */
  function ReadFraction(v: string): Read {
    if StartsFraction(v) then Read(Nanos(v[1..], 9), v[1 + DigitRun(v[1..])..]) else Read(0, v)
  }

  /** A signed offset, its minutes written with a colon or left out. */
  function ReadOffset(v: string, colon: bool): Option<Read> {
    var width := if colon then 6 else 3;
    if |v| < width || v[0] !in "+-" || (colon && v[3] != ':') then None
    else
      match ReadFixed(v[1..3], 2)
      case None => None
      case Some(h) =>
        match if colon then ReadFixed(v[4..6], 2) else Some(Read(0, ""))
        case None => None
        case Some(m) =>
          if h.n > 24 || m.n > 60 then None
          else
            var offset := (h.n * 60 + m.n) * 60;
            Some(Read(if v[0] == '-' then -offset else offset, v[width..]))
  }

  datatype Progress = Progress(rest: string, fields: Fields)

  /** One chunk. A fraction may follow the seconds even where the layout has none. */
  function ReadChunk(c: Chunk, fractionNext: bool, v: string, f: Fields): Option<Progress> {
    match c
    case Year =>
      (match ReadFixed(v, 4)
       case None => None
       case Some(r) => Some(Progress(r.rest, f.(year := r.n))))
    case Month =>
      (match ReadFixed(v, 2)
       case None => None
       case Some(r) => if 1 <= r.n <= 12 then Some(Progress(r.rest, f.(month := r.n))) else None)
    case Day =>
      (match ReadFixed(v, 2)
       case None => None
       case Some(r) => Some(Progress(r.rest, f.(day := r.n))))
    case Hour =>
      (match ReadLoose(v)
       case None => None
       case Some(r) => if r.n < 24 then Some(Progress(r.rest, f.(hour := r.n))) else None)
    case Minute =>
      (match ReadFixed(v, 2)
       case None => None
       case Some(r) => if r.n < 60 then Some(Progress(r.rest, f.(minute := r.n))) else None)
    case Second =>
      (match ReadFixed(v, 2)
       case None => None
       case Some(r) =>
         if r.n >= 60 then None
         else if fractionNext then Some(Progress(r.rest, f.(second := r.n)))
         else
           var nanos := ReadFraction(r.rest);
           Some(Progress(nanos.rest, f.(second := r.n, nano := nanos.n))))
    case Fraction =>
      var r := ReadFraction(v);
      Some(Progress(r.rest, if StartsFraction(v) then f.(nano := r.n) else f))
    case ZoneOrZ =>
      if v != "" && v[0] == 'Z' then Some(Progress(v[1..], f.(offset := 0)))
      else ReadOffsetInto(v, true, f)
    case ShortOffset => ReadOffsetInto(v, false, f)
    case ColonOffset => ReadOffsetInto(v, true, f)
    case Mark(m) =>
      if m == ' ' then
        if v != "" && v[0] != ' ' then None else Some(Progress(SkipSpaces(v), f))
      else if v != "" && v[0] == m then Some(Progress(v[1..], f))
      else None
  }

  function ReadOffsetInto(v: string, colon: bool, f: Fields): Option<Progress> {
    match ReadOffset(v, colon)
    case None => None
    case Some(r) => Some(Progress(r.rest, f.(offset := r.n)))
  }

  /** A whole layout: every chunk in turn, with nothing left over. */
  function ReadLayout(layout: Layout, v: string, f: Fields): Option<Fields>
    decreases layout
  {
    match layout
    case End => if v == "" then Some(f) else None
    case Then(chunk, rest) =>
      match ReadChunk(chunk, rest.Then? && rest.chunk.Fraction?, v, f)
      case None => None
      case Some(p) => ReadLayout(rest, p.rest, p.fields)
  }

  predicate SensibleFields(f: Fields) {
    ValidCivil(Civil(Date(f.year, f.month, f.day), f.hour, f.minute, f.second))
  }

  /** One attempt of time.Parse, converted to UTC. */
  function ParseLayout(layout: Layout, raw: string): Option<Instant> {
    match ReadLayout(layout, raw, NO_FIELDS)
    case None => None
    case Some(f) =>
      if !SensibleFields(f) then None
      else Some(Instant(SecondOf(Civil(Date(f.year, f.month, f.day), f.hour, f.minute, f.second)) - f.offset, f.nano))
  }

  function FirstParse(layouts: seq<Layout>, raw: string): Option<Instant> {
    if layouts == [] then None
    else
      var t := ParseLayout(layouts[0], raw);
      if t.Some? then t else FirstParse(layouts[1..], raw)
  }

  /** ParseStoredTimestamp. */
  function Parse(raw: string): Option<Instant> {
    FirstParse(STORED_LAYOUTS, raw)
  }

  // ---------------------------------------------------------------------------------------------------
  // Parsing inverts formatting
  // ---------------------------------------------------------------------------------------------------

  lemma LastDigit(n: nat, width: nat)
    requires width > 0 && n < Pow10(width)
    ensures n / 10 < Pow10(width - 1) && IsDigit(Digit(n % 10)) && 10 * (n / 10) + DigitValue(Digit(n % 10)) == n
  {
  }

  lemma ReadOneMore(v: string, width: nat, r: Read)
    requires width > 0 && ReadFixed(v, width - 1) == Some(r) && r.rest != "" && IsDigit(r.rest[0])
    ensures ReadFixed(v, width) == Some(Read(10 * r.n + DigitValue(r.rest[0]), r.rest[1..]))
  {
  }

  lemma {:induction false} ReadPadded(n: nat, width: nat, rest: string)
    requires n < Pow10(width)
    ensures ReadFixed(Pad(n, width) + rest, width) == Some(Read(n, rest))
  {
    if width == 0 {
      assert Pad(n, 0) + rest == rest;
    } else {
      hide Pad, ReadFixed, Pow10, Digit;
      var more := [Digit(n % 10)] + rest;
      LastDigit(n, width);
      PadShift(n, width, rest);
      ReadPadded(n / 10, width - 1, more);
      ReadOneMore(Pad(n, width) + rest, width, Read(n / 10, more));
      assert more[0] == Digit(n % 10) && more[1..] == rest;
    }
  }

  lemma ReadPaddedLoose(n: nat, rest: string)
    requires n < 100
    ensures ReadLoose(Pad(n, 2) + rest) == Some(Read(n, rest))
  {
    PowersOfTen();
    ReadPadded(n, 2, rest);
  }

  lemma ReadMark(c: char, rest: Layout, v: string, f: Fields)
    requires c != ' '
    ensures ReadLayout(Then(Mark(c), rest), [c] + v, f) == ReadLayout(rest, v, f)
  {
    hide Pow10, Pad, ReadFixed, ReadLoose, ReadFraction, ReadOffset, ReadOffsetInto;
    assert ([c] + v)[1..] == v;
  }

  lemma ReadZulu(f: Fields)
    ensures ReadLayout(NANO_ZONE, "Z", f) == Some(f.(offset := 0))
  {
    assert ReadLayout(Then(ZoneOrZ, End), "Z", f) == ReadLayout(End, "", f.(offset := 0));
  }

  lemma ReadSecond(n: nat, f: Fields)
    requires n < 60
    ensures ReadLayout(Then(Second, NANO_ZONE), Pad(n, 2) + "Z", f) == Some(f.(second := n, offset := 0))
  {
    PowersOfTen();
    hide ReadFixed, Pad, ReadOffset, Pow10;
    ReadPadded(n, 2, "Z");
    ReadZulu(f.(second := n));
  }

  lemma ReadFromMinute(c: Civil, f: Fields)
    requires ValidCivil(c)
    ensures ReadLayout(FromMinute(NANO_ZONE), MinuteText(c), f) ==
      Some(f.(minute := c.minute, second := c.second, offset := 0))
  {
    PowersOfTen();
    hide ReadFixed, ReadFraction, ReadOffset, Pad;
    var f1 := f.(minute := c.minute);
    ReadSecond(c.second, f1);
    ReadMark(':', Then(Second, NANO_ZONE), SecondText(c), f1);
    ReadPadded(c.minute, 2, ":" + SecondText(c));
  }

  lemma ReadFromDay(c: Civil, f: Fields)
    requires ValidCivil(c)
    ensures ReadLayout(FromDay('T', NANO_ZONE), DayText(c), f) ==
      Some(f.(day := c.date.day, hour := c.hour, minute := c.minute, second := c.second, offset := 0))
  {
    hide ReadFixed;
    PowersOfTen();
    var f1 := f.(day := c.date.day);
    var f2 := f1.(hour := c.hour);
    ReadFromMinute(c, f2);
    ReadMark(':', FromMinute(NANO_ZONE), MinuteText(c), f2);
    ReadPaddedLoose(c.hour, ":" + MinuteText(c));
    ReadMark('T', Then(Hour, Then(Mark(':'), FromMinute(NANO_ZONE))), HourText(c), f1);
    ReadPadded(c.date.day, 2, "T" + HourText(c));
  }

  lemma ReadCivil(c: Civil)
    requires ValidCivil(c) && 0 <= c.date.year <= 9999
    ensures ReadLayout(DateTime('T', NANO_ZONE), CivilText(c), NO_FIELDS) ==
      Some(Fields(c.date.year, c.date.month, c.date.day, c.hour, c.minute, c.second, 0, 0))
  {
    PowersOfTen();
    var f1 := NO_FIELDS.(year := c.date.year);
    var f2 := f1.(month := c.date.month);
    var rest := FromDay('T', NANO_ZONE);
    ReadFromDay(c, f2);
    ReadMark('-', rest, DayText(c), f2);
    ReadPadded(c.date.month, 2, "-" + DayText(c));
    ReadMark('-', Then(Month, Then(Mark('-'), rest)), MonthText(c), f1);
    ReadPadded(c.date.year, 4, "-" + MonthText(c));
  }

  predicate StartsWithYear(raw: string) {
    var y := ReadFixed(raw, 4);
    y.Some? && y.value.rest != "" && y.value.rest[0] == '-'
  }

  lemma NeedsYear(separator: char, zone: Layout, raw: string)
    requires !StartsWithYear(raw)
    ensures ParseLayout(DateTime(separator, zone), raw).None?
  {
    var rest := Then(Month, Then(Mark('-'), FromDay(separator, zone)));
    if ReadLayout(Then(Year, Then(Mark('-'), rest)), raw, NO_FIELDS).Some? {
      var n, w := StepYear(Then(Mark('-'), rest), raw, NO_FIELDS);
      StepMark('-', rest, w, NO_FIELDS.(year := n));
      assert false;
    }
  }

  lemma NoYearNoParse(raw: string)
    requires !StartsWithYear(raw)
    ensures Parse(raw).None?
  {
    hide ReadLayout, ParseLayout, StartsWithYear;
    NeedsYear('T', NANO_ZONE, raw);
    NeedsYear(' ', End, raw);
    NeedsYear(' ', Then(Fraction, Then(ShortOffset, End)), raw);
    NeedsYear(' ', Then(Fraction, Then(ColonOffset, End)), raw);
    NeedsYear(' ', Then(ShortOffset, End), raw);
    NoneOfThem(STORED_LAYOUTS, raw);
  }

  lemma {:induction false} NoneOfThem(layouts: seq<Layout>, raw: string)
    requires forall i :: 0 <= i < |layouts| ==> ParseLayout(layouts[i], raw).None?
    ensures FirstParse(layouts, raw).None?
  {
    if layouts != [] {
      NoneOfThem(layouts[1..], raw);
    }
  }

  /** What is read back from a formatted time: the same second exactly when the year has four digits. A year
      outside 0000-9999 is written in a form no layout accepts. */
  lemma ParseInvertsFormat(t: Instant)
    ensures Parse(Format(t)) == if InRange(t) then Some(Instant(t.second, 0)) else None
  {
    InRangeYears(t);
    if InRange(t) {
      FirstLayoutReads(t);
    } else {
      LongYearUnread(CivilOf(t.second));
      NoYearNoParse(Format(t));
    }
  }

  lemma FirstLayoutReads(t: Instant)
    requires InRange(t)
    ensures Parse(Format(t)) == Some(Instant(t.second, 0))
  {
    InRangeYears(t);
    ReadCivil(CivilOf(t.second));
    assert ParseLayout(STORED_LAYOUTS[0], Format(t)) == Some(Instant(t.second, 0));
  }

  lemma LongYearUnread(c: Civil)
    requires ValidCivil(c) && !(0 <= c.date.year <= 9999)
    ensures !StartsWithYear(CivilText(c))
  {
    var text := CivilText(c);
    if c.date.year < 0 {
      assert text[0] == '-';
      FirstCharacterRead(text, 4);
    } else {
      FiveDigits(c.date.year);
      assert IsDigit(text[4]);
      var r := ReadFixed(text, 4);
      if r.Some? && r.value.rest != "" {
        assert text[4] == r.value.rest[0];
      }
    }
  }

  lemma {:induction false} FirstCharacterRead(v: string, width: nat)
    requires width > 0 && v != "" && !IsDigit(v[0])
    ensures ReadFixed(v, width).None?
  {
    if width > 1 {
      FirstCharacterRead(v, width - 1);
    }
  }

  // ---------------------------------------------------------------------------------------------------
  // The LIKE shape
  // ---------------------------------------------------------------------------------------------------

  /** canonicalTimestampLike; an underscore stands for any one character. */
  const CANONICAL_LIKE := "____-__-__T__:__:__Z"

  /** One character against one pattern character. SQLite folds ASCII case, PostgreSQL does not. */
  predicate LikeChar(p: char, c: char, fold: bool) {
    p == '_' || p == c || (fold && 'A' <= p <= 'Z' && c as int == p as int + 32)
  }

  /** created_at LIKE canonicalTimestampLike. */
  predicate LikeCanonical(s: string, fold: bool) {
    |s| == |CANONICAL_LIKE| && forall i :: 0 <= i < |s| ==> LikeChar(CANONICAL_LIKE[i], s[i], fold)
  }

  function AsciiUpper(s: string): string {
    seq(|s|, i requires 0 <= i < |s| => if 'a' <= s[i] <= 'z' then (s[i] as int - 32) as char else s[i])
  }

  /** What SQLite matches is what PostgreSQL matches in capitals. */
  lemma FoldedLikeIff(s: string)
    ensures LikeCanonical(s, true) <==> LikeCanonical(AsciiUpper(s), false)
  {
    forall i | 0 <= i < |s| && |s| == |CANONICAL_LIKE|
      ensures LikeChar(CANONICAL_LIKE[i], s[i], true) <==> LikeChar(CANONICAL_LIKE[i], AsciiUpper(s)[i], false)
    {
      assert CANONICAL_LIKE[i] in "_-:TZ";
    }
  }

  lemma CivilShape(c: Civil)
    requires ValidCivil(c) && 0 <= c.date.year <= 9999
    ensures var s := CivilText(c);
      |s| == 20 && s[4] == s[7] == '-' && s[10] == 'T' && s[13] == s[16] == ':' && s[19] == 'Z'
  {
  }

  /** FormatTimestamp writes the canonical shape exactly for the years 0000 to 9999. */
  lemma ShapeIffInRange(t: Instant, fold: bool)
    ensures LikeCanonical(Format(t), fold) <==> InRange(t)
  {
    hide DaysBeforeYear, IsLeap, DayNumber, InRange;
    InRangeYears(t);
    var c := CivilOf(t.second);
    if InRange(t) {
      CivilShape(c);
    } else {
      if c.date.year > 9999 {
        FiveDigits(c.date.year);
      } else if c.date.year <= -10000 {
        FiveDigits(-c.date.year);
      }
      assert |YearText(c.date.year)| >= 5;
    }
  }

  lemma StepYear(rest: Layout, v: string, f: Fields) returns (n: nat, w: string)
    requires ReadLayout(Then(Year, rest), v, f).Some?
    ensures n < 10000 && v == Pad(n, 4) + w && ReadFixed(v, 4) == Some(Read(n, w))
    ensures ReadLayout(Then(Year, rest), v, f) == ReadLayout(rest, w, f.(year := n))
  {
    PowersOfTen();
    var r := ReadFixed(v, 4).value;
    n, w := r.n, r.rest;
  }

  lemma StepTwoDigits(c: Chunk, rest: Layout, v: string, f: Fields) returns (n: nat, w: string)
    requires c.Month? || c.Day? || c.Minute? || (c.Second? && rest.Then? && rest.chunk.Fraction?)
    requires ReadLayout(Then(c, rest), v, f).Some?
    ensures n < 100 && v == Pad(n, 2) + w
    ensures ReadLayout(Then(c, rest), v, f) == ReadLayout(rest, w,
      if c.Month? then f.(month := n) else if c.Day? then f.(day := n)
      else if c.Minute? then f.(minute := n) else f.(second := n))
  {
    PowersOfTen();
    var r := ReadFixed(v, 2).value;
    n, w := r.n, r.rest;
  }

  lemma StepMark(m: char, rest: Layout, v: string, f: Fields)
    requires m != ' ' && ReadLayout(Then(Mark(m), rest), v, f).Some?
    ensures v != "" && v[0] == m && ReadLayout(Then(Mark(m), rest), v, f) == ReadLayout(rest, v[1..], f)
  {
    hide Pow10, Pad, ReadFixed, ReadLoose, ReadFraction, ReadOffset, ReadOffsetInto, Nanos, DigitRun;
  }

  lemma StepYearDash(rest: Layout, v: string, f: Fields) returns (n: nat, w: string)
    requires ReadLayout(Then(Year, Then(Mark('-'), rest)), v, f).Some?
    ensures n < 10000 && v == Pad(n, 4) + ("-" + w)
    ensures ReadLayout(Then(Year, Then(Mark('-'), rest)), v, f) == ReadLayout(rest, w, f.(year := n))
  {
    hide ReadChunk, Pad, ReadLayout, ReadFixed;
    n, w := StepYear(Then(Mark('-'), rest), v, f);
    StepMark('-', rest, w, f.(year := n));
    assert w == ['-'] + w[1..];
    w := w[1..];
  }

  lemma StepMonthDash(rest: Layout, v: string, f: Fields) returns (n: nat, w: string)
    requires ReadLayout(Then(Month, Then(Mark('-'), rest)), v, f).Some?
    ensures n < 100 && v == Pad(n, 2) + ("-" + w)
    ensures ReadLayout(Then(Month, Then(Mark('-'), rest)), v, f) == ReadLayout(rest, w, f.(month := n))
  {
    hide ReadChunk, Pad, ReadLayout, ReadFixed;
    n, w := StepTwoDigits(Month, Then(Mark('-'), rest), v, f);
    StepMark('-', rest, w, f.(month := n));
    assert w == "-" + w[1..];
    w := w[1..];
  }

  lemma StepMinuteColon(rest: Layout, v: string, f: Fields) returns (n: nat, w: string)
    requires ReadLayout(Then(Minute, Then(Mark(':'), rest)), v, f).Some?
    ensures n < 100 && v == Pad(n, 2) + (":" + w)
    ensures ReadLayout(Then(Minute, Then(Mark(':'), rest)), v, f) == ReadLayout(rest, w, f.(minute := n))
  {
    hide ReadChunk, Pad, ReadLayout, ReadFixed;
    n, w := StepTwoDigits(Minute, Then(Mark(':'), rest), v, f);
    StepMark(':', rest, w, f.(minute := n));
    assert w == ":" + w[1..];
    w := w[1..];
  }

  lemma MinuteNeedsDigit(rest: Layout, v: string, f: Fields)
    requires v != "" && !IsDigit(v[0])
    ensures ReadLayout(Then(Minute, rest), v, f).None?
  {
    FirstCharacterRead(v, 2);
  }

  lemma ColonMinuteNeedsDigit(rest: Layout, v: string, f: Fields)
    requires |v| >= 2 && v[1] == ':'
    ensures ReadLayout(Then(Mark(':'), Then(Minute, rest)), v, f).None?
  {
    hide Pad, ReadFixed, ReadLoose, ReadFraction, ReadOffset, ReadOffsetInto;
    if v[0] == ':' {
      MinuteNeedsDigit(rest, v[1..], f);
    }
  }

  lemma HourThen(rest: Layout, v: string, f: Fields) returns (n: nat, w: string)
    requires ReadLayout(Then(Hour, rest), v, f).Some?
    ensures n < 100 && v != "" && (if |v| > 1 && IsDigit(v[1]) then v == Pad(n, 2) + w else w == v[1..])
    ensures ReadLayout(Then(Hour, rest), v, f) == ReadLayout(rest, w, f.(hour := n))
  {
    PowersOfTen();
    var r := ReadLoose(v).value;
    n, w := r.n, r.rest;
  }

  /** The hour is written with two digits wherever a colon follows two places on. */
  lemma StepHourColon(rest: Layout, v: string, f: Fields) returns (n: nat, w: string)
    requires |v| >= 3 && v[2] == ':'
    requires ReadLayout(Then(Hour, Then(Mark(':'), Then(Minute, rest))), v, f).Some?
    ensures n < 100 && v == Pad(n, 2) + (":" + w)
    ensures ReadLayout(Then(Hour, Then(Mark(':'), Then(Minute, rest))), v, f) ==
      ReadLayout(Then(Minute, rest), w, f.(hour := n))
  {
    var colon := Then(Mark(':'), Then(Minute, rest));
    n, w := HourThen(colon, v, f);
    if !IsDigit(v[1]) {
      ColonMinuteNeedsDigit(rest, w, f.(hour := n));
      assert false;
    }
    StepMark(':', Then(Minute, rest), w, f.(hour := n));
    assert w == ":" + w[1..];
    w := w[1..];
  }

  lemma StepSecondZ(v: string, f: Fields) returns (n: nat)
    requires |v| == 3 && ReadLayout(Then(Second, NANO_ZONE), v, f).Some?
    ensures n < 100 && v == Pad(n, 2) + "Z"
    ensures ReadLayout(Then(Second, NANO_ZONE), v, f) == Some(f.(second := n, offset := 0))
  {
    var w;
    n, w := StepTwoDigits(Second, NANO_ZONE, v, f);
    SingleZ(w, f.(second := n));
  }

  lemma SingleZ(w: string, f: Fields)
    requires |w| == 1 && ReadLayout(NANO_ZONE, w, f).Some?
    ensures w == "Z" && ReadLayout(NANO_ZONE, w, f) == Some(f.(offset := 0))
  {
    assert ReadLayout(NANO_ZONE, w, f) == ReadLayout(Then(ZoneOrZ, End), w, f);
    assert w == "Z";
    ReadZulu(f);
  }

  /** The date, when a layout reads `raw`. */
  lemma StepDate(rest: Layout, raw: string) returns (y: nat, m: nat, d: nat, w: string)
    requires ReadLayout(Then(Year, Then(Mark('-'), Then(Month, Then(Mark('-'), Then(Day, rest))))), raw, NO_FIELDS).Some?
    ensures y < 10000 && m < 100 && d < 100
    ensures raw == Pad(y, 4) + ("-" + (Pad(m, 2) + ("-" + (Pad(d, 2) + w))))
    ensures |raw| == 10 + |w| && w == raw[10..]
    ensures ReadLayout(Then(Year, Then(Mark('-'), Then(Month, Then(Mark('-'), Then(Day, rest))))), raw, NO_FIELDS) ==
      ReadLayout(rest, w, NO_FIELDS.(year := y, month := m, day := d))
  {
    hide ReadChunk, Pad;
    y, w := StepYearDash(Then(Month, Then(Mark('-'), Then(Day, rest))), raw, NO_FIELDS);
    m, w := StepMonthDash(Then(Day, rest), w, NO_FIELDS.(year := y));
    d, w := StepTwoDigits(Day, rest, w, NO_FIELDS.(year := y, month := m));
  }

  lemma ShapeMarks(raw: string, fold: bool)
    requires LikeCanonical(raw, fold)
    ensures |raw| == 20 && raw[10] != ' ' && raw[13] == ':'
  {
    assert LikeChar(CANONICAL_LIKE[10], raw[10], fold);
    assert LikeChar(CANONICAL_LIKE[13], raw[13], fold);
  }

  lemma ShapeNeedsT(raw: string, fold: bool, zone: Layout)
    requires LikeCanonical(raw, fold)
    ensures ParseLayout(DateTime(' ', zone), raw).None?
  {
    var rest := FromDay(' ', zone).rest;
    if ReadLayout(DateTime(' ', zone), raw, NO_FIELDS).Some? {
      var y, m, d, w := StepDate(rest, raw);
      ShapeMarks(raw, fold);
      SpaceNeeded(rest.rest, w, NO_FIELDS.(year := y, month := m, day := d));
    }
  }

  lemma SpaceNeeded(rest: Layout, v: string, f: Fields)
    requires v != "" && v[0] != ' '
    ensures ReadLayout(Then(Mark(' '), rest), v, f).None?
  {
    hide ReadFixed, ReadLoose, ReadFraction, ReadOffset, ReadOffsetInto;
  }

  /** The clock part of a text of the canonical shape, when the first layout reads it. */
  lemma StepClock(v: string, f: Fields) returns (h: nat, m: nat, s: nat)
    requires |v| == 9 && v[2] == ':'
    requires ReadLayout(Then(Hour, Then(Mark(':'), FromMinute(NANO_ZONE))), v, f).Some?
    ensures h < 100 && m < 100 && s < 100
    ensures v == Pad(h, 2) + (":" + (Pad(m, 2) + (":" + (Pad(s, 2) + "Z"))))
    ensures ReadLayout(Then(Hour, Then(Mark(':'), FromMinute(NANO_ZONE))), v, f) ==
      Some(f.(hour := h, minute := m, second := s, offset := 0))
  {
    var w;
    h, w := StepHourColon(Then(Mark(':'), Then(Second, NANO_ZONE)), v, f);
    m, w := StepMinuteColon(Then(Second, NANO_ZONE), w, f.(hour := h));
    s := StepSecondZ(w, f.(hour := h, minute := m));
  }

  lemma ParseOfFields(layout: Layout, raw: string, c: Civil)
    requires ReadLayout(layout, raw, NO_FIELDS) ==
      Some(Fields(c.date.year, c.date.month, c.date.day, c.hour, c.minute, c.second, 0, 0))
    requires ParseLayout(layout, raw).Some?
    ensures ValidCivil(c) && ParseLayout(layout, raw) == Some(Instant(SecondOf(c), 0))
  {
  }

  lemma TextOfParts(c: Civil, raw: string, clock: string)
    requires ValidCivil(c) && 0 <= c.date.year <= 9999
    requires clock == Pad(c.hour, 2) + (":" + (Pad(c.minute, 2) + (":" + (Pad(c.second, 2) + "Z"))))
    requires raw == Pad(c.date.year, 4) + ("-" + (Pad(c.date.month, 2) + ("-" + (Pad(c.date.day, 2) + ("T" + clock)))))
    ensures raw == CivilText(c)
  {
    assert clock == HourText(c);
    assert "T" + clock == "T" + HourText(c);
  }

  lemma ShapeFields(raw: string, fold: bool, fromHour: Layout) returns (c: Civil, clock: string)
    requires fromHour == Then(Hour, Then(Mark(':'), FromMinute(NANO_ZONE)))
    requires LikeCanonical(raw, fold)
    requires ReadLayout(Then(Year, Then(Mark('-'), Then(Month, Then(Mark('-'), Then(Day, Then(Mark('T'), fromHour)))))),
      raw, NO_FIELDS).Some?
    ensures 0 <= c.date.year < 10000
    ensures c.date.month >= 0 && c.date.day >= 0 && c.hour >= 0 && c.minute >= 0 && c.second >= 0
    ensures clock == Pad(c.hour, 2) + (":" + (Pad(c.minute, 2) + (":" + (Pad(c.second, 2) + "Z"))))
    ensures raw == Pad(c.date.year, 4) + ("-" + (Pad(c.date.month, 2) + ("-" + (Pad(c.date.day, 2) + ("T" + clock)))))
    ensures ReadLayout(Then(Year, Then(Mark('-'), Then(Month, Then(Mark('-'), Then(Day, Then(Mark('T'), fromHour)))))),
      raw, NO_FIELDS) == Some(Fields(c.date.year, c.date.month, c.date.day, c.hour, c.minute, c.second, 0, 0))
  {
    hide ReadLayout, ReadChunk, Pad, LikeCanonical;
    var y, mo, d, w := StepDate(Then(Mark('T'), fromHour), raw);
    var f := NO_FIELDS.(year := y, month := mo, day := d);
    StepMark('T', fromHour, w, f);
    ShapeMarks(raw, fold);
    clock := w[1..];
    var h, mi, s := StepClock(clock, f);
    c := Civil(Date(y, mo, d), h, mi, s);
    assert w == "T" + clock;
  }

  lemma ShapeReadsAsText(raw: string, fold: bool)
    requires LikeCanonical(raw, fold) && ParseLayout(DateTime('T', NANO_ZONE), raw).Some?
    ensures Format(ParseLayout(DateTime('T', NANO_ZONE), raw).value) == raw
  {
    var c, clock := ShapeFields(raw, fold, FromDay('T', NANO_ZONE).rest.rest);
    ParseOfFields(DateTime('T', NANO_ZONE), raw, c);
    CivilRoundTrip(c);
    TextOfParts(c, raw, clock);
  }

  /** On a text of the canonical shape only the first layout can succeed. */
  lemma ShapeUsesFirstLayout(raw: string, fold: bool)
    requires LikeCanonical(raw, fold)
    ensures Parse(raw) == ParseLayout(STORED_LAYOUTS[0], raw)
  {
    hide LikeCanonical, ReadLayout, ParseLayout;
    ShapeNeedsT(raw, fold, End);
    ShapeNeedsT(raw, fold, Then(Fraction, Then(ShortOffset, End)));
    ShapeNeedsT(raw, fold, Then(Fraction, Then(ColonOffset, End)));
    ShapeNeedsT(raw, fold, Then(ShortOffset, End));
    NoneOfThem(STORED_LAYOUTS[1..], raw);
  }

  /** A stored text of the canonical shape that reads as a time is the canonical text of that time. */
  lemma ShapeThatParsesIsCanonical(raw: string, fold: bool)
    requires LikeCanonical(raw, fold) && Parse(raw).Some?
    ensures Format(Parse(raw).value) == raw
  {
    ShapeUsesFirstLayout(raw, fold);
    ShapeReadsAsText(raw, fold);
  }
}
