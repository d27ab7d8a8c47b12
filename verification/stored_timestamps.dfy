/** Every text ParseStoredTimestamp reads (internal/db/timestamps.go), written down as a grammar of its own: a local
  calendar reading, an optional fraction and a zone. Parsing is the inverse of writing: a text is read exactly if it is
  written so, and what is read is the instant it was written for. */
module StoredTimestamps {
  import opened Common
  import opened Calendar
  import opened Timestamps

  /** How far local time is ahead of UTC, or behind it. */
  datatype Offset = Offset(ahead: bool, hours: int, minutes: int)

  datatype Zone =
    | Zulu            // "Z"
    | Unzoned         // nothing: UTC
    | Short(o: Offset)  // "+02", "-07"
    | Long(o: Offset)   // "+05:30"

  /** A point and digits, and the nanoseconds they stand for. */
  datatype Fraction = Whole | Part(point: char, digits: string, nano: int)

  /** A written time: `spaces` counts the spaces between date and clock, none standing for a 'T'. */
  datatype Writing = Writing(local: Civil, spaces: nat, shortHour: bool, fraction: Fraction, zone: Zone)

  const NINE_ZEROS := "000000000"

  predicate SoundFraction(f: Fraction) {
    f.Part? ==>
      && f.point in ".," && f.digits != [] && AllDigits(f.digits)
      && 0 <= f.nano < Pow10(9) && Pad(f.nano, 9) == (f.digits + NINE_ZEROS)[..9]
  }

  predicate AllDigits(s: string) {
    forall i :: 0 <= i < |s| ==> IsDigit(s[i])
  }

  /** An offset is written in whole hours and minutes, of which Go reads up to 24 and 60. */
  predicate SoundOffset(o: Offset) {
    0 <= o.hours <= 24 && 0 <= o.minutes <= 60
  }

  predicate SoundZone(z: Zone) {
    match z
    case Short(o) => SoundOffset(o) && o.minutes == 0
    case Long(o) => SoundOffset(o)
    case _ => true
  }

  /** After a 'T' comes "Z" or a long offset, after spaces anything but "Z". */
  predicate Sound(w: Writing) {
    && ValidCivil(w.local) && 0 <= w.local.date.year <= 9999
    && (w.shortHour ==> w.local.hour < 10)
    && SoundFraction(w.fraction) && SoundZone(w.zone)
    && (if w.spaces == 0 then w.zone.Zulu? || w.zone.Long? else !w.zone.Zulu?)
  }

  function OffsetSeconds(o: Offset): int {
    (if o.ahead then 1 else -1) * (o.hours * 3600 + o.minutes * 60)
  }

  function ZoneSeconds(z: Zone): int {
    match z
    case Short(o) => OffsetSeconds(o)
    case Long(o) => OffsetSeconds(o)
    case _ => 0
  }

  /** The instant a text was written for: local time less what it is ahead of UTC. */
  function Meaning(w: Writing): Instant
    requires ValidCivil(w.local)
  {
    Instant(SecondOf(w.local) - ZoneSeconds(w.zone), if w.fraction.Part? then w.fraction.nano else 0)
  }

  function OffsetText(o: Offset, long: bool): string
    requires SoundOffset(o)
  {
    [if o.ahead then '+' else '-'] + (Pad(o.hours, 2) + if long then ":" + Pad(o.minutes, 2) else "")
  }

  function ZoneText(z: Zone): string
    requires SoundZone(z)
  {
    match z
    case Zulu => "Z"
    case Unzoned => ""
    case Short(o) => OffsetText(o, false)
    case Long(o) => OffsetText(o, true)
  }

  function FractionText(f: Fraction): string {
    if f.Part? then [f.point] + f.digits else ""
  }

  function Spaces(n: nat): string {
    if n == 0 then "" else " " + Spaces(n - 1)
  }

  function HourDigits(w: Writing): string
    requires Sound(w)
  {
    if w.shortHour then [Digit(w.local.hour)] else Pad(w.local.hour, 2)
  }

  function SecondsText(w: Writing): string
    requires Sound(w)
  {
    Pad(w.local.second, 2) + (FractionText(w.fraction) + ZoneText(w.zone))
  }

  function ClockText(w: Writing): string
    requires Sound(w)
  {
    HourDigits(w) + (":" + (Pad(w.local.minute, 2) + (":" + SecondsText(w))))
  }

  function SeparatedText(w: Writing): string
    requires Sound(w)
  {
    (if w.spaces == 0 then "T" else Spaces(w.spaces)) + ClockText(w)
  }

  function Text(w: Writing): string
    requires Sound(w)
  {
    var d := w.local.date;
    Pad(d.year, 4) + ("-" + (Pad(d.month, 2) + ("-" + (Pad(d.day, 2) + SeparatedText(w)))))
  }

  // ---------------------------------------------------------------------------------------------------
  // Digits of a fraction
  // ---------------------------------------------------------------------------------------------------

  predicate EndsDigits(rest: string) {
    rest == "" || !IsDigit(rest[0])
  }

  lemma {:induction false} RunOfDigits(digits: string, rest: string)
    requires AllDigits(digits) && EndsDigits(rest)
    ensures DigitRun(digits + rest) == |digits|
  {
    if digits == [] {
      assert digits + rest == rest;
    } else {
      assert (digits + rest)[1..] == digits[1..] + rest;
      RunOfDigits(digits[1..], rest);
    }
  }

  lemma {:induction false} TakeRun(v: string)
    ensures AllDigits(v[..DigitRun(v)]) && EndsDigits(v[DigitRun(v)..])
  {
    if v != "" && IsDigit(v[0]) {
      TakeRun(v[1..]);
      var n := DigitRun(v[1..]);
      assert v[..n + 1] == [v[0]] + v[1..][..n] && v[n + 1..] == v[1..][n..];
    }
  }

  function Zeros(n: nat): string {
    if n == 0 then "" else "0" + Zeros(n - 1)
  }

  lemma {:induction false} ZerosAreDigits(n: nat)
    ensures |Zeros(n)| == n && AllDigits(Zeros(n)) && Nanos(Zeros(n), n) == 0
  {
    if n > 0 {
      ZerosAreDigits(n - 1);
      assert Zeros(n)[1..] == Zeros(n - 1);
    }
  }

  /** Digits are worth what they are worth filled up with zeros, or cut off, to the places that count. */
  lemma {:induction false} NanosFilledUp(digits: string, rest: string, places: nat)
    requires AllDigits(digits) && EndsDigits(rest)
    ensures |digits + Zeros(places)| >= places
    ensures Nanos(digits + rest, places) == Nanos((digits + Zeros(places))[..places], places)
  {
    ZerosAreDigits(places);
    if places > 0 {
      var filled := (digits + Zeros(places))[..places];
      if digits == [] {
        assert digits + rest == rest && filled == Zeros(places);
      } else {
        NanosFilledUp(digits[1..], rest, places - 1);
        ZerosAreDigits(places - 1);
        ZerosGrow(places - 1);
        hide Zeros, Pow10;
        assert (digits + rest)[1..] == digits[1..] + rest;
        assert filled[1..] == (digits[1..] + Zeros(places - 1))[..places - 1];
      }
    }
  }

  lemma {:induction false} ZerosGrow(n: nat)
    ensures Zeros(n + 1) == Zeros(n) + "0"
  {
    if n > 0 {
      ZerosGrow(n - 1);
      assert Zeros(n + 1) == "0" + (Zeros(n - 1) + "0");
    }
  }

  lemma NineZeros()
    ensures Zeros(9) == NINE_ZEROS
  {
    assert Zeros(3) == "000";
    assert Zeros(6) == "000000";
  }

  lemma {:induction false} NanosOfPad(n: nat, width: nat, rest: string, places: nat)
    requires width <= places && n < Pow10(width)
    ensures Nanos(Pad(n, width) + rest, places) == n * Pow10(places - width) + Nanos(rest, places - width)
  {
    if width == 0 {
      assert Pad(n, 0) + rest == rest;
    } else {
      var more := [Digit(n % 10)] + rest;
      LastDigit(n, width);
      PadShift(n, width, rest);
      NanosOfPad(n / 10, width - 1, more, places);
      OneMorePlace(n / 10, n % 10, places - width);
      FirstDigitCounts(n % 10, rest, more, places - width + 1);
      hide Pad, Pow10, Nanos;
    }
  }

  lemma FirstDigitCounts(digit: nat, rest: string, more: string, places: nat)
    requires digit < 10 && places > 0 && more == [Digit(digit)] + rest
    ensures Nanos(more, places) == digit * Pow10(places - 1) + Nanos(rest, places - 1)
  {
    assert more[1..] == rest;
  }

  lemma OneMorePlace(tens: int, units: int, places: nat)
    ensures tens * Pow10(places + 1) + units * Pow10(places) == (10 * tens + units) * Pow10(places)
  {
  }

  function NanoOf(f: Fraction): int {
    if f.Part? then f.nano else 0
  }

  lemma {:induction false} DigitsRead(v: string, width: nat)
    requires width <= |v| && AllDigits(v[..width])
    ensures ReadFixed(v, width).Some? && ReadFixed(v, width).value.rest == v[width..]
  {
    if width > 0 {
      assert v[..width][..width - 1] == v[..width - 1];
      DigitsRead(v, width - 1);
      assert v[width - 1..][0] == v[..width][width - 1];
    }
  }

  lemma NumberOf(digits: string) returns (n: nat)
    requires AllDigits(digits)
    ensures n < Pow10(|digits|) && digits == Pad(n, |digits|) && Nanos(digits, |digits|) == n
  {
    var width := |digits|;
    assert digits[..width] == digits;
    DigitsRead(digits, width);
    n := ReadFixed(digits, width).value.n;
    assert digits[width..] == "" && Pad(n, width) + "" == Pad(n, width);
    NanosOfPad(n, width, "", width);
  }

  /** The first nine digits after the point, filled up with zeros, are the nanoseconds. */
  lemma NanosAreTheFirstNine(digits: string, rest: string) returns (nano: nat)
    requires AllDigits(digits) && EndsDigits(rest)
    ensures nano < Pow10(9) && Pad(nano, 9) == (digits + NINE_ZEROS)[..9]
    ensures Nanos(digits + rest, 9) == nano
  {
    hide Nanos, Pow10, Pad, Zeros;
    NineZeros();
    NanosFilledUp(digits, rest, 9);
    nano := NumberOf((digits + NINE_ZEROS)[..9]);
  }

  lemma {:induction false} PadsDiffer(n: nat, m: nat, width: nat)
    requires n < Pow10(width) && m < Pow10(width) && Pad(n, width) == Pad(m, width)
    ensures n == m
  {
    PaddedOrder(n, m, width, "", "");
    assert Pad(n, width) + "" == Pad(m, width) + "";
  }

  predicate EndsFraction(rest: string) {
    rest == "" || (!IsDigit(rest[0]) && rest[0] !in ".,")
  }

  lemma FractionRead(f: Fraction, rest: string)
    requires SoundFraction(f) && EndsFraction(rest)
    ensures ReadFraction(FractionText(f) + rest) == Read(NanoOf(f), rest)
    ensures StartsFraction(FractionText(f) + rest) <==> f.Part?
  {
    var v := FractionText(f) + rest;
    if f.Part? {
      PartRead(f, rest);
    } else {
      assert v == rest;
    }
  }

  lemma FractionAt(point: char, tail: string, v: string)
    requires v == [point] + tail && point in ".," && tail != "" && IsDigit(tail[0])
    ensures StartsFraction(v) && ReadFraction(v) == Read(Nanos(tail, 9), tail[DigitRun(tail)..])
  {
    hide Nanos, DigitRun;
    assert v[1..] == tail && v[1 + DigitRun(tail)..] == tail[DigitRun(tail)..];
  }

  lemma PartRead(f: Fraction, rest: string)
    requires SoundFraction(f) && f.Part? && EndsFraction(rest)
    ensures ReadFraction(FractionText(f) + rest) == Read(f.nano, rest) && StartsFraction(FractionText(f) + rest)
  {
    hide Pad, Pow10, Nanos, DigitRun, ReadFixed, Zeros, ReadFraction, StartsFraction;
    var nano := NanosAreTheFirstNine(f.digits, rest);
    PadsDiffer(nano, f.nano, 9);
    RunOfDigits(f.digits, rest);
    FractionAt(f.point, f.digits + rest, FractionText(f) + rest);
    assert (f.digits + rest)[|f.digits|..] == rest;
  }

  lemma FractionWritten(v: string) returns (f: Fraction, rest: string)
    ensures SoundFraction(f) && v == FractionText(f) + rest
    ensures ReadFraction(v) == Read(NanoOf(f), rest) && (StartsFraction(v) <==> f.Part?)
  {
    if StartsFraction(v) {
      f, rest := PartWritten(v);
    } else {
      f, rest := Whole, v;
    }
  }

  lemma PartWritten(v: string) returns (f: Fraction, rest: string)
    requires StartsFraction(v)
    ensures f.Part? && SoundFraction(f) && v == FractionText(f) + rest && ReadFraction(v) == Read(f.nano, rest)
  {
    PointAndDigit(v);
    hide *;
    var point, tail := v[0], v[1..];
    FractionAt(point, tail, v);
    TakeRun(tail);
    SomeDigits(tail);
    var n := DigitRun(tail);
    rest := tail[n..];
    var nano := NanosAreTheFirstNine(tail[..n], rest);
    assert tail == tail[..n] + rest;
    f := Part(point, tail[..n], nano);
    PartIsSound(f, v, rest);
  }

  lemma PointAndDigit(v: string)
    requires StartsFraction(v)
    ensures |v| >= 2 && v == [v[0]] + v[1..] && v[0] in ".," && IsDigit(v[1..][0])
  {
  }

  lemma PartIsSound(f: Fraction, v: string, rest: string)
    requires f.Part? && f.point in ".," && f.digits != [] && AllDigits(f.digits)
    requires 0 <= f.nano < Pow10(9) && Pad(f.nano, 9) == (f.digits + NINE_ZEROS)[..9]
    requires v == [f.point] + (f.digits + rest)
    ensures SoundFraction(f) && v == FractionText(f) + rest
  {
    hide Pad, Pow10, AllDigits;
  }

  lemma SomeDigits(v: string)
    requires v != "" && IsDigit(v[0])
    ensures DigitRun(v) > 0
  {
  }

  // ---------------------------------------------------------------------------------------------------
  // Zones
  // ---------------------------------------------------------------------------------------------------

  lemma TwoDigits(n: nat)
    requires n < 100
    ensures ReadFixed(Pad(n, 2), 2) == Some(Read(n, ""))
  {
    PowersOfTen();
    ReadPadded(n, 2, "");
    assert Pad(n, 2) + "" == Pad(n, 2);
  }

  function OffsetOf(sign: char, h: string, m: string, long: bool): string {
    [sign] + (h + if long then ":" + m else "")
  }

  lemma OffsetParts(sign: char, h: string, m: string, long: bool, rest: string, v: string)
    requires |h| == 2 && |m| == 2 && v == OffsetOf(sign, h, m, long) + rest
    ensures |v| >= 3 && v[0] == sign && v[1..3] == h
    ensures long ==> |v| >= 6 && v[3] == ':' && v[4..6] == m && v[6..] == rest
    ensures !long ==> v[3..] == rest
  {
  }

  lemma ReadParts(v: string, long: bool, h: nat, m: nat)
    requires |v| >= (if long then 6 else 3) && v[0] in "+-" && h <= 24 && m <= 60 && (long || m == 0)
    requires ReadFixed(v[1..3], 2) == Some(Read(h, ""))
    requires long ==> v[3] == ':' && ReadFixed(v[4..6], 2) == Some(Read(m, ""))
    ensures ReadOffset(v, long) ==
      Some(Read(OffsetSeconds(Offset(v[0] == '+', h, m)), if long then v[6..] else v[3..]))
  {
    hide ReadFixed;
  }

  lemma OffsetRead(o: Offset, long: bool, rest: string)
    requires SoundOffset(o) && (long || o.minutes == 0)
    ensures ReadOffset(OffsetText(o, long) + rest, long) == Some(Read(OffsetSeconds(o), rest))
  {
    var sign, h, m := if o.ahead then '+' else '-', Pad(o.hours, 2), Pad(o.minutes, 2);
    var v := OffsetText(o, long) + rest;
    TwoDigits(o.hours);
    TwoDigits(o.minutes);
    hide Pad, ReadFixed, Pow10, ReadOffset;
    OffsetParts(sign, h, m, long, rest, v);
    ReadParts(v, long, o.hours, o.minutes);
    assert Offset(v[0] == '+', o.hours, o.minutes) == o;
  }

  lemma LongReadAsShort(o: Offset)
    requires SoundOffset(o)
    ensures ReadOffset(OffsetText(o, true), false).Some? ==> ReadOffset(OffsetText(o, true), false).value.rest != ""
    ensures ReadOffset(OffsetText(o, false), true).None?
  {
    hide ReadFixed;
  }

  lemma TwoRead(s: string) returns (n: nat)
    requires |s| == 2 && ReadFixed(s, 2).Some?
    ensures ReadFixed(s, 2) == Some(Read(n, "")) && s == Pad(n, 2)
  {
    var r := ReadFixed(s, 2).value;
    n := r.n;
    assert |r.rest| == 0;
  }

  lemma OffsetWritten(v: string, long: bool) returns (o: Offset)
    requires ReadOffset(v, long).Some?
    ensures SoundOffset(o) && (long || o.minutes == 0)
    ensures v == OffsetText(o, long) + ReadOffset(v, long).value.rest
    ensures ReadOffset(v, long).value.n == OffsetSeconds(o)
  {
    hide ReadFixed, Pad, Pow10;
    var h := TwoRead(v[1..3]);
    var rest := ReadOffset(v, long).value.rest;
    if long {
      var m := TwoRead(v[4..6]);
      o := Offset(v[0] == '+', h, m);
      assert v == [v[0]] + (v[1..3] + (":" + v[4..6])) + rest;
    } else {
      o := Offset(v[0] == '+', h, 0);
      assert v == [v[0]] + (v[1..3] + "") + rest;
    }
  }

  // ---------------------------------------------------------------------------------------------------
  // What each layout reads
  // ---------------------------------------------------------------------------------------------------

  const Z_OR_LONG := Then(ZoneOrZ, End)
  const SHORT := Then(ShortOffset, End)
  const LONG := Then(ColonOffset, End)

  predicate ZoneLayout(zone: Layout) {
    zone == Z_OR_LONG || zone == End || zone == SHORT || zone == LONG
  }

  predicate Fits(zone: Layout, z: Zone) {
    if zone == Z_OR_LONG then z.Zulu? || z.Long?
    else if zone == End then z.Unzoned?
    else if zone == SHORT then z.Short?
    else z.Long?
  }

  lemma ZoneRead(zone: Layout, z: Zone, f: Fields)
    requires ZoneLayout(zone) && SoundZone(z) && f.offset == 0
    ensures ReadLayout(zone, ZoneText(z), f) == if Fits(zone, z) then Some(f.(offset := ZoneSeconds(z))) else None
  {
    hide ReadFixed, ReadOffset, OffsetText, Pad;
    if z.Short? || z.Long? {
      var long := z.Long?;
      OffsetRead(z.o, long, "");
      LongReadAsShort(z.o);
      assert OffsetText(z.o, long) + "" == OffsetText(z.o, long);
      assert |OffsetText(z.o, long)| >= 3 && OffsetText(z.o, long)[0] in "+-" by {
        OffsetSign(z.o, long);
      }
    }
    assert ReadOffset("", true).None? && ReadOffset("", false).None? by {
      TooShort("");
    }
    assert ReadOffset("Z", true).None? && ReadOffset("Z", false).None? by {
      TooShort("Z");
    }
  }

  lemma OffsetSign(o: Offset, long: bool)
    requires SoundOffset(o)
    ensures |OffsetText(o, long)| >= 3 && OffsetText(o, long)[0] in "+-"
  {
  }

  lemma TooShort(v: string)
    requires |v| < 3
    ensures ReadOffset(v, true).None? && ReadOffset(v, false).None?
  {
  }

  lemma ZoneWritten(zone: Layout, v: string, f: Fields) returns (z: Zone)
    requires ZoneLayout(zone) && f.offset == 0 && ReadLayout(zone, v, f).Some?
    ensures SoundZone(z) && Fits(zone, z) && v == ZoneText(z)
    ensures ReadLayout(zone, v, f) == Some(f.(offset := ZoneSeconds(z)))
  {
    hide ReadFixed, ReadOffset, OffsetText, Pad;
    if zone == End {
      z := Unzoned;
    } else if zone == Z_OR_LONG && v != "" && v[0] == 'Z' {
      z := Zulu;
    } else {
      var long := zone != SHORT;
      var o := OffsetWritten(v, long);
      z := if long then Long(o) else Short(o);
      assert OffsetText(o, long) + "" == OffsetText(o, long);
    }
  }

  /** The layout of the seconds: a fraction is read where the layout names one, and where it names none. */
  function Seconds(zone: Layout, fractional: bool): Layout {
    Then(Second, if fractional then Then(Fraction, zone) else zone)
  }

  lemma TwoDigitsThen(n: nat, v: string)
    requires n < 100
    ensures ReadFixed(Pad(n, 2) + v, 2) == Some(Read(n, v))
  {
    PowersOfTen();
    ReadPadded(n, 2, v);
  }

  lemma OneChunk(c: Chunk, rest: Layout, v: string, f: Fields)
    ensures ReadLayout(Then(c, rest), v, f) ==
      var p := ReadChunk(c, rest.Then? && rest.chunk.Fraction?, v, f);
      if p.Some? then ReadLayout(rest, p.value.rest, p.value.fields) else None
  {
  }

  lemma SecondAndFraction(zone: Layout, fractional: bool, n: nat, v: string, f: Fields)
    requires ZoneLayout(zone) && n < 60 && f.nano == 0
    ensures ReadLayout(Seconds(zone, fractional), Pad(n, 2) + v, f) ==
      ReadLayout(zone, ReadFraction(v).rest, f.(second := n, nano := ReadFraction(v).n))
  {
    hide ReadLayout, ReadFixed, Pad, Pow10, ReadOffset, ReadOffsetInto, Nanos, DigitRun;
    TwoDigitsThen(n, v);
    OneChunk(Second, Seconds(zone, fractional).rest, Pad(n, 2) + v, f);
    OneChunk(Fraction, zone, v, f.(second := n));
  }

  lemma SecondsRead(w: Writing, zone: Layout, fractional: bool, f: Fields)
    requires Sound(w) && ZoneLayout(zone) && f.nano == 0 && f.offset == 0
    ensures ReadLayout(Seconds(zone, fractional), SecondsText(w), f) ==
      if Fits(zone, w.zone)
      then Some(f.(second := w.local.second, nano := NanoOf(w.fraction), offset := ZoneSeconds(w.zone)))
      else None
  {
    ZoneEndsFraction(w.zone);
    FractionRead(w.fraction, ZoneText(w.zone));
    SecondAndFraction(zone, fractional, w.local.second, FractionText(w.fraction) + ZoneText(w.zone), f);
    ZoneRead(zone, w.zone, f.(second := w.local.second, nano := NanoOf(w.fraction)));
  }

  lemma ZoneEndsFraction(z: Zone)
    requires SoundZone(z)
    ensures EndsFraction(ZoneText(z))
  {
    if z.Short? || z.Long? {
      OffsetSign(z.o, z.Long?);
    }
  }

  lemma SecondDigits(rest: Layout, v: string, f: Fields) returns (n: nat, w: string)
    requires ReadLayout(Then(Second, rest), v, f).Some?
    ensures n < 60 && v == Pad(n, 2) + w
  {
    var r := ReadFixed(v, 2).value;
    n, w := r.n, r.rest;
  }

  lemma SecondsWritten(zone: Layout, fractional: bool, v: string, f: Fields)
    returns (n: nat, part: Fraction, z: Zone)
    requires ZoneLayout(zone) && f.nano == 0 && f.offset == 0
    requires ReadLayout(Seconds(zone, fractional), v, f).Some?
    ensures n < 60 && SoundFraction(part) && SoundZone(z) && Fits(zone, z)
    ensures v == Pad(n, 2) + (FractionText(part) + ZoneText(z))
    ensures ReadLayout(Seconds(zone, fractional), v, f) ==
      Some(f.(second := n, nano := NanoOf(part), offset := ZoneSeconds(z)))
  {
    hide ReadLayout, Pad, SoundFraction, ReadFraction;
    var w, rest;
    n, w := SecondDigits(Seconds(zone, fractional).rest, v, f);
    SecondAndFraction(zone, fractional, n, w, f);
    part, rest := FractionWritten(w);
    z := ZoneWritten(zone, rest, f.(second := n, nano := NanoOf(part)));
  }

  /** From the hour on. */
  function Clock(zone: Layout, fractional: bool): Layout {
    Then(Hour, Then(Mark(':'), Then(Minute, Then(Mark(':'), Seconds(zone, fractional)))))
  }

  lemma HourDigitsRead(w: Writing, v: string)
    requires Sound(w) && v != "" && !IsDigit(v[0])
    ensures ReadLoose(HourDigits(w) + v) == Some(Read(w.local.hour, v))
  {
    if w.shortHour {
      hide Pad, ReadFixed;
      assert ([Digit(w.local.hour)] + v)[1..] == v;
    } else {
      ReadPaddedLoose(w.local.hour, v);
    }
  }

  lemma HourRead(w: Writing, rest: Layout, v: string, f: Fields)
    requires Sound(w) && v != "" && !IsDigit(v[0])
    ensures ReadLayout(Then(Hour, rest), HourDigits(w) + v, f) == ReadLayout(rest, v, f.(hour := w.local.hour))
  {
    hide ReadLayout, ReadLoose, HourDigits, ReadOffset, ReadOffsetInto, ReadFraction;
    HourDigitsRead(w, v);
    OneChunk(Hour, rest, HourDigits(w) + v, f);
  }

  lemma MinuteRead(n: nat, rest: Layout, v: string, f: Fields)
    requires n < 60
    ensures ReadLayout(Then(Minute, rest), Pad(n, 2) + v, f) == ReadLayout(rest, v, f.(minute := n))
  {
    hide ReadLayout, ReadFixed, Pad, ReadOffset, ReadOffsetInto, ReadFraction;
    TwoDigitsThen(n, v);
    OneChunk(Minute, rest, Pad(n, 2) + v, f);
  }

  lemma ClockRead(w: Writing, zone: Layout, fractional: bool, f: Fields)
    requires Sound(w) && ZoneLayout(zone) && f.nano == 0 && f.offset == 0
    ensures ReadLayout(Clock(zone, fractional), ClockText(w), f) ==
      if Fits(zone, w.zone)
      then Some(f.(hour := w.local.hour, minute := w.local.minute, second := w.local.second,
                   nano := NanoOf(w.fraction), offset := ZoneSeconds(w.zone)))
      else None
  {
    hide ReadLayout, HourDigits, SecondsText, Pad, Fits;
    var seconds := Seconds(zone, fractional);
    var f1 := f.(hour := w.local.hour);
    var f2 := f1.(minute := w.local.minute);
    var minutes := Pad(w.local.minute, 2) + (":" + SecondsText(w));
    HourRead(w, Then(Mark(':'), Then(Minute, Then(Mark(':'), seconds))), ":" + minutes, f);
    ReadMark(':', Then(Minute, Then(Mark(':'), seconds)), minutes, f1);
    MinuteRead(w.local.minute, Then(Mark(':'), seconds), ":" + SecondsText(w), f1);
    ReadMark(':', seconds, SecondsText(w), f2);
    SecondsRead(w, zone, fractional, f2);
  }

  lemma HourWritten(rest: Layout, v: string, f: Fields) returns (n: nat, short: bool, w: string)
    requires ReadLayout(Then(Hour, rest), v, f).Some?
    ensures n < 24 && (short ==> n < 10) && v == (if short then [Digit(n)] else Pad(n, 2)) + w
    ensures ReadLayout(Then(Hour, rest), v, f) == ReadLayout(rest, w, f.(hour := n))
  {
    PowersOfTen();
    var r := ReadLoose(v).value;
    n, short, w := r.n, |v| == 1 || !IsDigit(v[1]), r.rest;
    hide ReadFixed, Pad, Pow10;
  }

  lemma MinuteWritten(rest: Layout, v: string, f: Fields) returns (n: nat, w: string)
    requires ReadLayout(Then(Minute, rest), v, f).Some?
    ensures n < 60 && v == Pad(n, 2) + w
    ensures ReadLayout(Then(Minute, rest), v, f) == ReadLayout(rest, w, f.(minute := n))
  {
    var r := ReadFixed(v, 2).value;
    n, w := r.n, r.rest;
  }

  lemma ColonWritten(rest: Layout, v: string, f: Fields) returns (w: string)
    requires ReadLayout(Then(Mark(':'), rest), v, f).Some?
    ensures v == ":" + w && ReadLayout(Then(Mark(':'), rest), v, f) == ReadLayout(rest, w, f)
  {
    StepMark(':', rest, v, f);
    w := v[1..];
  }

  lemma ClockWritten(zone: Layout, fractional: bool, v: string, f: Fields) returns (w: Writing)
    requires ZoneLayout(zone) && f.nano == 0 && f.offset == 0 && ReadLayout(Clock(zone, fractional), v, f).Some?
    ensures 0 <= w.local.hour < 24 && 0 <= w.local.minute < 60 && 0 <= w.local.second < 60
    ensures (w.shortHour ==> w.local.hour < 10) && SoundFraction(w.fraction) && SoundZone(w.zone) && Fits(zone, w.zone)
    ensures v == (if w.shortHour then [Digit(w.local.hour)] else Pad(w.local.hour, 2)) +
                 (":" + (Pad(w.local.minute, 2) +
                         (":" + (Pad(w.local.second, 2) + (FractionText(w.fraction) + ZoneText(w.zone))))))
    ensures ReadLayout(Clock(zone, fractional), v, f) ==
      Some(f.(hour := w.local.hour, minute := w.local.minute, second := w.local.second,
              nano := NanoOf(w.fraction), offset := ZoneSeconds(w.zone)))
  {
    hide ReadLayout, Pad, SoundFraction, FractionText, ZoneText, Fits;
    var seconds := Seconds(zone, fractional);
    var h, short, v1 := HourWritten(Clock(zone, fractional).rest, v, f);
    var f1 := f.(hour := h);
    var v2 := ColonWritten(Then(Minute, Then(Mark(':'), seconds)), v1, f1);
    var m, v3 := MinuteWritten(Then(Mark(':'), seconds), v2, f1);
    var f2 := f1.(minute := m);
    var v4 := ColonWritten(seconds, v3, f2);
    var n, part, z := SecondsWritten(zone, fractional, v4, f2);
    w := Writing(Civil(Date(0, 0, 0), h, m, n), 0, short, part, z);
  }

  // ---------------------------------------------------------------------------------------------------
  // Reading is the inverse of writing
  // ---------------------------------------------------------------------------------------------------

  function DateThen(c: Civil): Fields {
    NO_FIELDS.(year := c.date.year, month := c.date.month, day := c.date.day)
  }

  lemma {:induction false} SpacesSkipped(n: nat, v: string)
    requires v != "" && v[0] != ' '
    ensures SkipSpaces(Spaces(n) + v) == v
  {
    if n == 0 {
      assert Spaces(0) + v == v;
    } else {
      assert (Spaces(n) + v)[1..] == Spaces(n - 1) + v;
      SpacesSkipped(n - 1, v);
    }
  }

  lemma {:induction false} SpacesCounted(v: string) returns (n: nat)
    ensures v == Spaces(n) + SkipSpaces(v) && (v != "" && v[0] == ' ' ==> n > 0)
  {
    n := 0;
    if v != "" && v[0] == ' ' {
      n := SpacesCounted(v[1..]);
      n := n + 1;
      assert v == " " + v[1..];
    }
  }

  lemma ClockStarts(w: Writing)
    requires Sound(w)
    ensures ClockText(w) != "" && IsDigit(ClockText(w)[0])
  {
  }

  lemma SeparatorRead(w: Writing, separator: char, rest: Layout, f: Fields)
    requires Sound(w) && (separator == 'T' || separator == ' ')
    ensures ReadLayout(Then(Mark(separator), rest), SeparatedText(w), f) ==
      if (separator == 'T') == (w.spaces == 0) then ReadLayout(rest, ClockText(w), f) else None
  {
    ClockStarts(w);
    hide ReadLayout, ClockText;
    OneChunk(Mark(separator), rest, SeparatedText(w), f);
    SpacesSkipped(w.spaces, ClockText(w));
    assert w.spaces == 0 ==> SeparatedText(w)[1..] == ClockText(w);
  }

  lemma FieldRead(c: Chunk, n: int, rest: Layout, v: string, f: Fields)
    requires (c.Month? && 1 <= n <= 12) || (c.Day? && 0 <= n < 100) || (c.Year? && 0 <= n < 10000)
    ensures ReadLayout(Then(c, rest), Pad(n, if c.Year? then 4 else 2) + v, f) == ReadLayout(rest, v,
      if c.Year? then f.(year := n) else if c.Month? then f.(month := n) else f.(day := n))
  {
    var width := if c.Year? then 4 else 2;
    PowersOfTen();
    ReadPadded(n, width, v);
    hide ReadLayout, ReadFixed, Pad, Pow10, ReadOffset, ReadOffsetInto, ReadFraction;
    OneChunk(c, rest, Pad(n, width) + v, f);
  }

  lemma DateRead(w: Writing, rest: Layout)
    requires Sound(w)
    ensures ReadLayout(Then(Year, Then(Mark('-'), Then(Month, Then(Mark('-'), Then(Day, rest))))), Text(w), NO_FIELDS) ==
      ReadLayout(rest, SeparatedText(w), DateThen(w.local))
  {
    hide ReadLayout, Pad, SeparatedText;
    var d := w.local.date;
    var f1 := NO_FIELDS.(year := d.year);
    var f2 := f1.(month := d.month);
    var days := Pad(d.day, 2) + SeparatedText(w);
    var months := Pad(d.month, 2) + ("-" + days);
    FieldRead(Year, d.year, Then(Mark('-'), Then(Month, Then(Mark('-'), Then(Day, rest)))), "-" + months, NO_FIELDS);
    ReadMark('-', Then(Month, Then(Mark('-'), Then(Day, rest))), months, f1);
    FieldRead(Month, d.month, Then(Mark('-'), Then(Day, rest)), "-" + days, f1);
    ReadMark('-', Then(Day, rest), days, f2);
    FieldRead(Day, d.day, rest, SeparatedText(w), f2);
  }

  /** A layout of the list, by what it is made of. */
  function LayoutOf(separator: char, zone: Layout, fractional: bool): Layout {
    DateTime(separator, if fractional then Then(Fraction, zone) else zone)
  }

  lemma LayoutShape(separator: char, zone: Layout, fractional: bool)
    ensures LayoutOf(separator, zone, fractional) ==
      Then(Year, Then(Mark('-'), Then(Month, Then(Mark('-'), Then(Day, Then(Mark(separator), Clock(zone, fractional)))))))
  {
  }

  lemma LayoutRead(w: Writing, separator: char, zone: Layout, fractional: bool)
    requires Sound(w) && ZoneLayout(zone) && (separator == 'T' || separator == ' ')
    ensures ParseLayout(LayoutOf(separator, zone, fractional), Text(w)) ==
      if (separator == 'T') == (w.spaces == 0) && Fits(zone, w.zone) then Some(Meaning(w)) else None
  {
    hide *;
    var clock := Clock(zone, fractional);
    LayoutShape(separator, zone, fractional);
    DateRead(w, Then(Mark(separator), clock));
    SeparatorRead(w, separator, clock, DateThen(w.local));
    NothingYet(w);
    ClockRead(w, zone, fractional, DateThen(w.local));
    FieldsMean(w, LayoutOf(separator, zone, fractional), Text(w));
  }

  /** All that is read of a written time. */
  function FieldsOf(w: Writing): Fields {
    DateThen(w.local).(hour := w.local.hour, minute := w.local.minute, second := w.local.second,
                       nano := NanoOf(w.fraction), offset := ZoneSeconds(w.zone))
  }

  lemma NothingYet(w: Writing)
    ensures DateThen(w.local).nano == 0 && DateThen(w.local).offset == 0
    ensures FieldsOf(w) == DateThen(w.local).(hour := w.local.hour, minute := w.local.minute, second := w.local.second,
                                              nano := NanoOf(w.fraction), offset := ZoneSeconds(w.zone))
  {
  }

  lemma FieldsMean(w: Writing, layout: Layout, raw: string)
    requires Sound(w)
    ensures ReadLayout(layout, raw, NO_FIELDS) == None ==> ParseLayout(layout, raw) == None
    ensures ReadLayout(layout, raw, NO_FIELDS) == Some(FieldsOf(w)) ==> ParseLayout(layout, raw) == Some(Meaning(w))
  {
    hide ReadLayout, SecondOf, SoundFraction, SoundZone, ZoneSeconds;
  }

  lemma LayoutWritten(raw: string, separator: char, zone: Layout, fractional: bool) returns (w: Writing)
    requires ZoneLayout(zone) && separator == (if zone == Z_OR_LONG then 'T' else ' ')
    requires ParseLayout(LayoutOf(separator, zone, fractional), raw).Some?
    ensures Sound(w) && Text(w) == raw
    ensures ParseLayout(LayoutOf(separator, zone, fractional), raw) == Some(Meaning(w))
  {
    hide ReadLayout, Pad, SoundFraction, FractionText, ZoneText, SecondOf;
    var clock := Clock(zone, fractional);
    var y, m, d, v := StepDate(Then(Mark(separator), clock), raw);
    var n, v1 := SeparatorWritten(separator, clock, v, NO_FIELDS.(year := y, month := m, day := d));
    w := ClockWritten(zone, fractional, v1, NO_FIELDS.(year := y, month := m, day := d));
    w := w.(local := w.local.(date := Date(y, m, d)), spaces := n);
    assert SensibleFields(NO_FIELDS.(year := y, month := m, day := d, hour := w.local.hour,
                                          minute := w.local.minute, second := w.local.second));
  }

  lemma SeparatorWritten(separator: char, rest: Layout, v: string, f: Fields) returns (n: nat, w: string)
    requires separator == 'T' || separator == ' '
    requires rest.Then? && rest.chunk.Hour? && ReadLayout(Then(Mark(separator), rest), v, f).Some?
    ensures (n == 0) == (separator == 'T') && v == (if n == 0 then "T" else Spaces(n)) + w
    ensures ReadLayout(Then(Mark(separator), rest), v, f) == ReadLayout(rest, w, f)
  {
    hide ReadLayout;
    OneChunk(Mark(separator), rest, v, f);
    if separator == 'T' {
      n, w := 0, v[1..];
    } else {
      OneChunk(Hour, rest.rest, "", f);
      n := SpacesCounted(v);
      w := SkipSpaces(v);
    }
  }

  /** Every text written by the grammar is read as the instant it was written for. */
  lemma WrittenIsRead(w: Writing)
    requires Sound(w)
    ensures Parse(Text(w)) == Some(Meaning(w))
  {
    hide ParseLayout, Text, Meaning, SoundFraction, SoundZone;
    LayoutRead(w, 'T', Z_OR_LONG, true);
    LayoutRead(w, ' ', End, false);
    LayoutRead(w, ' ', SHORT, true);
    LayoutRead(w, ' ', LONG, true);
    FiveLayouts(Text(w));
  }

  lemma FiveLayouts(raw: string)
    ensures Parse(raw) ==
      var first := ParseLayout(LayoutOf('T', Z_OR_LONG, true), raw);
      var second := ParseLayout(LayoutOf(' ', End, false), raw);
      var third := ParseLayout(LayoutOf(' ', SHORT, true), raw);
      var fourth := ParseLayout(LayoutOf(' ', LONG, true), raw);
      if first.Some? then first else if second.Some? then second else if third.Some? then third
      else if fourth.Some? then fourth else ParseLayout(LayoutOf(' ', SHORT, false), raw)
  {
    hide ParseLayout;
    var l := STORED_LAYOUTS;
    assert l[0] == LayoutOf('T', Z_OR_LONG, true) && l[1] == LayoutOf(' ', End, false);
    assert l[2] == LayoutOf(' ', SHORT, true) && l[3] == LayoutOf(' ', LONG, true);
    assert l[4] == LayoutOf(' ', SHORT, false);
    hide LayoutOf, FirstParse;
    assert l[1..] == [l[1], l[2], l[3], l[4]] && l[2..] == [l[2], l[3], l[4]] && l[3..] == [l[3], l[4]];
    FirstOrRest(l, raw);
    FirstOrRest(l[1..], raw);
    FirstOrRest(l[2..], raw);
    FirstOrRest(l[3..], raw);
    FirstOrRest(l[4..], raw);
  }

  lemma FirstOrRest(layouts: seq<Layout>, raw: string)
    requires layouts != []
    ensures FirstParse(layouts, raw) ==
      if ParseLayout(layouts[0], raw).Some? then ParseLayout(layouts[0], raw) else FirstParse(layouts[1..], raw)
    ensures |layouts| == 1 ==> FirstParse(layouts, raw) == ParseLayout(layouts[0], raw)
  {
  }

  /** Every text that is read is one the grammar writes, for the instant read. */
  lemma ReadIsWritten(raw: string) returns (w: Writing)
    requires Parse(raw).Some?
    ensures Sound(w) && Text(w) == raw && Parse(raw) == Some(Meaning(w))
  {
    hide ParseLayout, Text, Meaning, SoundFraction, SoundZone;
    FiveLayouts(raw);
    if ParseLayout(LayoutOf('T', Z_OR_LONG, true), raw).Some? {
      w := LayoutWritten(raw, 'T', Z_OR_LONG, true);
    } else if ParseLayout(LayoutOf(' ', End, false), raw).Some? {
      w := LayoutWritten(raw, ' ', End, false);
    } else if ParseLayout(LayoutOf(' ', SHORT, true), raw).Some? {
      w := LayoutWritten(raw, ' ', SHORT, true);
    } else if ParseLayout(LayoutOf(' ', LONG, true), raw).Some? {
      w := LayoutWritten(raw, ' ', LONG, true);
    } else {
      w := LayoutWritten(raw, ' ', SHORT, false);
    }
  }

  ghost predicate WrittenFor(raw: string, t: Instant) {
    exists w: Writing :: Sound(w) && Text(w) == raw && Meaning(w) == t
  }

  /** A stored text is read as an instant if and only if it is a way to write that instant. */
  lemma ParseIffWritten(raw: string, t: Instant)
    ensures Parse(raw) == Some(t) <==> WrittenFor(raw, t)
  {
    hide Text, Meaning, Parse;
    if Parse(raw) == Some(t) {
      var w := ReadIsWritten(raw);
    }
    if WrittenFor(raw, t) {
      var w: Writing :| Sound(w) && Text(w) == raw && Meaning(w) == t;
      WrittenIsRead(w);
    }
  }

  /** An instant written in local time, with its offset and to the nanosecond. */
  function InZone(t: Instant, zone: Zone, spaces: nat): Writing
    requires 0 <= t.nano < Pow10(9)
  {
    Writing(CivilOf(t.second + ZoneSeconds(zone)), spaces, false,
            if t.nano == 0 then Whole else Part('.', Pad(t.nano, 9), t.nano), zone)
  }

  /** Whatever zone an instant is written in, reading gives back the instant itself. */
  lemma ReadsBackInAnyZone(t: Instant, zone: Zone, spaces: nat)
    requires 0 <= t.nano < Pow10(9) && SoundZone(zone)
    requires if spaces == 0 then zone.Zulu? || zone.Long? else !zone.Zulu?
    requires 0 <= CivilOf(t.second + ZoneSeconds(zone)).date.year <= 9999
    ensures Sound(InZone(t, zone, spaces)) && Parse(Text(InZone(t, zone, spaces))) == Some(t)
  {
    hide Pad, Pow10, Text, Parse, CivilOf, ZoneSeconds, SoundZone, SoundFraction, SecondOf, ValidDate;
    SoundInZone(t, zone, spaces, InZone(t, zone, spaces));
    WrittenIsRead(InZone(t, zone, spaces));
  }

  lemma SoundInZone(t: Instant, zone: Zone, spaces: nat, w: Writing)
    requires 0 <= t.nano < Pow10(9) && SoundZone(zone) && w == InZone(t, zone, spaces)
    requires if spaces == 0 then zone.Zulu? || zone.Long? else !zone.Zulu?
    requires 0 <= CivilOf(t.second + ZoneSeconds(zone)).date.year <= 9999
    ensures Sound(w) && Meaning(w) == t
  {
    hide Pad, Pow10, CivilOf, ZoneSeconds, SoundZone, SoundFraction, SecondOf, ValidDate;
    NoFraction();
    NineDigits(t.nano);
  }

  lemma NoFraction()
    ensures SoundFraction(Whole)
  {
  }

  lemma NineDigits(nano: int)
    requires 0 <= nano < Pow10(9)
    ensures SoundFraction(Part('.', Pad(nano, 9), nano))
  {
    hide Pad, Pow10;
    assert (Pad(nano, 9) + NINE_ZEROS)[..9] == Pad(nano, 9);
  }
}
