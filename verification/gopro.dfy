/**
  The GoPro telemetry post-processing: once the GPMF parser has located its
  tokens (the GPS fix status, the GPS5 samples with their scale, the DOP with
  its scale, the UTC time text and the device name), the reader chooses a
  sub-sample, derives hemisphere and altitude references, converts
  coordinates to degree/minute/second triples and speed to km/h, and writes
  them to the metadata sink in a fixed order.

  The GPMF lookups are inputs (a Lookups record); the reader is a class whose
  one mutable field is the sink's write log.
 */
module GoPro {
  import opened Bytes
  import opened Exif
  import Iso6709

  const TWO31: int := 0x8000_0000

  /** One GPS5 sample (or its scale): latitude, longitude, altitude, 2-D speed and 3-D speed, as raw signed integers. */
  datatype Gps5 = Gps5(lat: int, lon: int, alt: int, speed2: int, speed3: int)

  /** The GPS5 token: its samples (their number is the token's repeat count) and the SCAL token before it. */
  datatype GpsToken = GpsToken(samples: seq<Gps5>, scale: Gps5)

  /** The GPSP token's value and the SCAL token before it. */
  datatype DopToken = DopToken(dop: nat, scale: nat)

  /**
    What the GPMF parser finds in one telemetry sample: whether it could be
    initialised, and each token the reader looks for, if present.
   */
  datatype Lookups = Lookups(
    initOk: bool,
    fix: Option<nat>,
    gps: Option<GpsToken>,
    dop: Option<DopToken>,
    utc: Option<string>,
    deviceName: Option<string>)

  // ---------------------------------------------------------------- fourCC text

  /**
    The four bytes of a 32-bit code, most significant first, each read as a
    Latin-1 character. Shifting right by 8, 16 or 24 bits and masking with
    255 is taking the quotient by 256 once, twice or three times and the
    remainder by 256; the int's two's-complement bits are u = fourCC mod 2^32.
   */
  function FourCCStr(fourCC: int): (s: string)
    requires -TWO31 <= fourCC < TWO31
    ensures |s| == 4 && forall i :: 0 <= i < 4 ==> s[i] as int < 256
  {
    var u := fourCC % TWO32;
    [ (((u / 256) / 256) / 256 % 256) as char,
      ((u / 256) / 256 % 256) as char,
      (u / 256 % 256) as char,
      (u % 256) as char ]
  }

  /** Four Latin-1 characters packed back into a signed 32-bit code, the first one most significant. */
  function PackFourCC(s: string): (x: int)
    requires |s| == 4 && forall i :: 0 <= i < 4 ==> s[i] as int < 256
    ensures -TWO31 <= x < TWO31
  {
    var u := ((s[0] as int * 256 + s[1] as int) * 256 + s[2] as int) * 256 + s[3] as int;
    if u < TWO31 then u else u - TWO32
  }

  /** Re-packing the four characters gives back the original code. */
  lemma FourCCRoundTrip(x: int)
    requires -TWO31 <= x < TWO31
    ensures PackFourCC(FourCCStr(x)) == x
  {
    var u := x % TWO32;
    var a1 := u / 256;
    var a2 := a1 / 256;
    var a3 := a2 / 256;
    assert a3 < 256;
    var s := FourCCStr(x);
    assert s[0] as int == a3 && s[1] as int == a2 % 256 && s[2] as int == a1 % 256 && s[3] as int == u % 256;
    assert a3 * 256 + a2 % 256 == a2;
    assert a2 * 256 + a1 % 256 == a1;
    assert a1 * 256 + u % 256 == u;
  }

  /** And the text of a packed code is the text it was packed from. */
  lemma FourCCTextRoundTrip(s: string)
    requires |s| == 4 && forall i :: 0 <= i < 4 ==> s[i] as int < 256
    ensures FourCCStr(PackFourCC(s)) == s
  {
    var a2 := s[0] as int * 256 + s[1] as int;
    var a1 := a2 * 256 + s[2] as int;
    var u := a1 * 256 + s[3] as int;
    assert PackFourCC(s) % TWO32 == u;
    assert u / 256 == a1 && u % 256 == s[3] as int;
    assert a1 / 256 == a2 && a1 % 256 == s[2] as int;
    assert a2 / 256 == s[0] as int && a2 % 256 == s[1] as int;
    var t := FourCCStr(PackFourCC(s));
    assert t[0] == s[0] && t[1] == s[1] && t[2] == s[2] && t[3] == s[3];
  }

  // ---------------------------------------------------------------- sub-sample choice

  function Min(a: int, b: int): int
  {
    if a <= b then a else b
  }

  /** For n > 0: t / (1000 / n), computed exactly, rounds down to t * n / 1000. */
  lemma FloorOfQuotient(t: nat, n: nat)
    requires n > 0
    ensures (t as real / (1000.0 / n as real)).Floor == t * n / 1000
  {
    var q := t * n / 1000;
    assert q * 1000 <= t * n < q * 1000 + 1000;
    var r := t as real / (1000.0 / n as real);
    assert r == (t * n) as real / 1000.0;
    assert q as real <= r < q as real + 1.0;
  }

  /**
    The GPS sub-sample chosen for a millisecond offset t into a token of n
    samples: floor(t / (1000 / n)), clamped so that it never exceeds n. A
    token of no samples gives 0 (the division is by infinity).
   */
  function SubSampleIndex(t: nat, n: nat): (i: nat)
    ensures i <= n
    ensures n > 0 ==> i == Min((t as real / (1000.0 / n as real)).Floor, n)
  {
    if n == 0 then 0
    else
      FloorOfQuotient(t, n);
      Min(t * n / 1000, n)
  }

  /** Inside the first second the index names one of the samples; from the first full second on it is n itself, one past the last sample. */
  lemma SubSampleIndexRange(t: nat, n: nat)
    requires n > 0
    ensures t < 1000 ==> SubSampleIndex(t, n) < n
    ensures t >= 1000 ==> SubSampleIndex(t, n) == n
  {
    if t < 1000 {
      assert t * n < 1000 * n;
    } else {
      assert t * n >= 1000 * n;
    }
  }

  /**
    The sub-sample the handler evidently means to read: the computed index,
    but never past the last sample. It agrees with SubSampleIndex inside the
    first second and names the last sample from then on.
   */
  function SampleIndex(t: nat, n: nat): (i: nat)
    requires n > 0
    ensures i < n
    ensures t < 1000 ==> i == SubSampleIndex(t, n)
    ensures t >= 1000 ==> i == n - 1
  {
    SubSampleIndexRange(t, n);
    Min(SubSampleIndex(t, n), n - 1)
  }

  // ---------------------------------------------------------------- GPS writes

  function Abs(x: int): nat
  {
    if x < 0 then -x else x
  }

  /**
    What the GPS handler needs to be well-defined: the token holds a sample,
    and the latitude and longitude scales are not 0.
   */
  predicate GpsReadable(g: GpsToken)
  {
    |g.samples| > 0 && g.scale.lat != 0 && g.scale.lon != 0
  }

  /** Speed is written only when the 2-D speed is positive: m/s times 3.6, written as 36/10, then the unit "K". */
  function SpeedEntries(speed2: int, scale: int): seq<Entry>
  {
    if speed2 > 0 then
      [Entry(GPSSpeed, URational(Rational(speed2 * 36, scale * 10))), Entry(GPSSpeedRef, Str("K"))]
    else []
  }

  /** The hemisphere references: the names of the (latitude, longitude) pair are crossed, so each reference is taken from the other field. */
  function ReferenceEntries(s: Gps5): seq<Entry>
  {
    [ Entry(GPSLatitudeRef, Str(if s.lon < 0 then "S" else "N")),
      Entry(GPSLongitudeRef, Str(if s.lat < 0 then "W" else "E")) ]
  }

  /** The coordinates handed to the degree/minute/second loop: each absolute value over its scale. */
  function Coordinates(s: Gps5, scale: Gps5): seq<(Key, real)>
    requires scale.lat != 0 && scale.lon != 0
  {
    [(GPSLatitude, Abs(s.lat) as real / scale.lat as real), (GPSLongitude, Abs(s.lon) as real / scale.lon as real)]
  }

  /** The latitude and longitude writes of the handler's two-element loop. */
  function DmsWrites(comps: seq<(Key, real)>): (es: seq<Entry>)
    ensures |es| == |comps|
    ensures forall i :: 0 <= i < |comps| ==> es[i] == Entry(comps[i].0, DmsValue(ToDms(comps[i].1)))
  {
    if comps == [] then [] else DmsWrites(comps[..|comps| - 1]) + [Entry(comps[|comps| - 1].0, DmsValue(ToDms(comps[|comps| - 1].1)))]
  }

  /** The altitude reference (1 below sea level, 0 otherwise) and the absolute altitude over its scale. */
  function AltitudeEntries(alt: int, scale: int): seq<Entry>
  {
    [Entry(GPSAltitudeRef, U16(if alt < 0 then 1 else 0)), Entry(GPSAltitude, URational(Rational(Abs(alt), scale)))]
  }

  /** Everything the GPS handler writes for the chosen sample, in order. */
  function GpsEntries(t: nat, g: GpsToken): seq<Entry>
    requires GpsReadable(g)
  {
    var s := g.samples[SampleIndex(t, |g.samples|)];
    ReferenceEntries(s) + DmsWrites(Coordinates(s, g.scale))
    + AltitudeEntries(s.alt, g.scale.alt) + SpeedEntries(s.speed2, g.scale.speed2)
  }

  /** The chosen sample. */
  function ChosenSample(t: nat, g: GpsToken): Gps5
    requires GpsReadable(g)
  {
    g.samples[SampleIndex(t, |g.samples|)]
  }

  /**
    The hemisphere references as written: LatitudeRef is "S" exactly when the
    sample's longitude is negative, LongitudeRef is "W" exactly when its
    latitude is negative.
   */
  lemma GpsReferencesCrossed(s: Gps5)
    ensures var es := ReferenceEntries(s);
            && (es[0] == Entry(GPSLatitudeRef, Str("S")) <==> s.lon < 0)
            && (es[0] == Entry(GPSLatitudeRef, Str("N")) <==> s.lon >= 0)
            && (es[1] == Entry(GPSLongitudeRef, Str("W")) <==> s.lat < 0)
            && (es[1] == Entry(GPSLongitudeRef, Str("E")) <==> s.lat >= 0)
  {
    assert "S" != "N" && "W" != "E";
  }

  /**
    With positive scales the coordinates are written as non-negative
    degree/minute/second triples, latitude first, each bounding
    |value| / scale from below to within one arc-second.
   */
  lemma GpsCoordinates(s: Gps5, scale: Gps5)
    requires scale.lat > 0 && scale.lon > 0
    ensures var es := DmsWrites(Coordinates(s, scale));
            && |es| == 2 && es[0].key == GPSLatitude && es[1].key == GPSLongitude
            && (forall i :: 0 <= i < 2 ==>
                  es[i].value.Triple? && es[i].value.first.num >= 0 && es[i].value.second.num >= 0 && es[i].value.third.num >= 0)
            && es[0].value == DmsValue(ToDms(Abs(s.lat) as real / scale.lat as real))
            && es[1].value == DmsValue(ToDms(Abs(s.lon) as real / scale.lon as real))
  {
    DmsOfNonNegative(Abs(s.lat) as real / scale.lat as real);
    DmsOfNonNegative(Abs(s.lon) as real / scale.lon as real);
  }

  /**
    The altitude reference is 1 exactly when the altitude is negative, the
    written numerator is never negative, and the two together give back the
    signed altitude.
   */
  lemma GpsAltitude(alt: int, scale: int)
    ensures var es := AltitudeEntries(alt, scale);
            && es[0].key == GPSAltitudeRef && es[1].key == GPSAltitude
            && es[0].value.U16? && es[1].value.URational?
            && (es[0].value.u == 1 <==> alt < 0)
            && (es[0].value.u == 0 <==> alt >= 0)
            && es[1].value.r.num >= 0 && es[1].value.r.den == scale
            && (if es[0].value.u == 1 then -es[1].value.r.num else es[1].value.r.num) == alt
  {
  }

  /**
    Speed entries exist exactly when the 2-D speed is positive; then the
    written ratio is the speed in km/h: 3.6 times speed2 / scale.
   */
  lemma SpeedConversion(speed2: int, scale: int)
    requires scale != 0
    ensures |SpeedEntries(speed2, scale)| == (if speed2 > 0 then 2 else 0)
    ensures speed2 > 0 ==>
              var r := SpeedEntries(speed2, scale)[0].value.r;
              r.num as real / r.den as real == 3.6 * (speed2 as real / scale as real)
  {
    if speed2 > 0 {
      var r := Rational(speed2 * 36, scale * 10);
      assert r.num as real == 36.0 * speed2 as real;
      assert r.den as real == 10.0 * scale as real;
    }
  }

  /** The keys the GPS handler writes: the six position keys always, the two speed keys only for a positive 2-D speed. */
  lemma GpsKeys(t: nat, g: GpsToken)
    requires GpsReadable(g)
    ensures KeysOf(GpsEntries(t, g)) ==
              {GPSLatitudeRef, GPSLongitudeRef, GPSLatitude, GPSLongitude, GPSAltitudeRef, GPSAltitude}
              + (if ChosenSample(t, g).speed2 > 0 then {GPSSpeed, GPSSpeedRef} else {})
  {
    var s := ChosenSample(t, g);
    var r, c, a, v := ReferenceEntries(s), DmsWrites(Coordinates(s, g.scale)), AltitudeEntries(s.alt, g.scale.alt),
                      SpeedEntries(s.speed2, g.scale.speed2);
    KeysOfConcat(r, c);
    KeysOfConcat(r + c, a);
    KeysOfConcat(r + c + a, v);
    KeysOfPair(r);
    KeysOfPair(c);
    KeysOfPair(a);
    if s.speed2 > 0 {
      KeysOfPair(v);
    }
  }

  // ---------------------------------------------------------------- DOP, time, device name

  /** The DOP is written as dop / scale when its token is found. */
  function DopEntries(d: Option<DopToken>): (es: seq<Entry>)
    ensures d.None? ==> es == []
    ensures d.Some? ==> es == [Entry(GPSDOP, URational(Rational(d.value.dop, d.value.scale)))]
  {
    match d
    case None => []
    case Some(t) => [Entry(GPSDOP, URational(Rational(t.dop, t.scale)))]
  }

  /** The century Qt gives a two-digit "yy" year when it parses a date: 1900 to 1999. */
  const QtTwoDigitYearBase: int := 1900

  /** The century of the UTC text GPMF records: 2000 to 2099. */
  const GpsYearBase: int := 2000

  datatype DateTime = DateTime(year: int, month: int, day: int, hour: int, minute: int, second: int, msec: int)

  predicate IsLeapYear(y: int)
  {
    y % 4 == 0 && (y % 100 != 0 || y % 400 == 0)
  }

  function DaysInMonth(y: int, m: int): int
    requires 1 <= m <= 12
  {
    if m == 2 then (if IsLeapYear(y) then 29 else 28)
    else if m == 4 || m == 6 || m == 9 || m == 11 then 30
    else 31
  }

  /** A date and time of day that exist in the Gregorian calendar. */
  predicate ValidDateTime(d: DateTime)
  {
    && 1 <= d.month <= 12 && 1 <= d.day <= DaysInMonth(d.year, d.month)
    && 0 <= d.hour < 24 && 0 <= d.minute < 60 && 0 <= d.second < 60 && 0 <= d.msec < 1000
  }

  /** The shape of the format "yyMMddhhmmss.zzz": twelve digits, a point, three digits. */
  predicate GpsTimeShape(s: string)
  {
    |s| == 16 && s[12] == '.' && forall k :: 0 <= k < 16 && k != 12 ==> Iso6709.IsDigit(s[k])
  }

  function Pow10(n: nat): nat
  {
    if n == 0 then 1 else 10 * Pow10(n - 1)
  }

  lemma {:induction false} DigitsValueBelow(t: string)
    requires Iso6709.AllDigits(t)
    ensures Iso6709.DigitsValue(t) < Pow10(|t|)
  {
    if t != [] {
      DigitsValueBelow(t[..|t| - 1]);
    }
  }

  /** The number written by the n digits at s[i..i + n]. */
  function Field(s: string, i: nat, n: nat): (v: nat)
    requires i + n <= |s| && forall k :: i <= k < i + n ==> Iso6709.IsDigit(s[k])
    ensures v < Pow10(n)
  {
    var t := s[i..i + n];
    assert forall j :: 0 <= j < n ==> t[j] == s[i + j];
    DigitsValueBelow(t);
    Iso6709.DigitsValue(t)
  }

  /** The text parsed with the format "yyMMddhhmmss.zzz", its two-digit year counted from base: a date and time when the text has that shape and names a real instant. */
  function ParseWithBase(s: string, base: int): (r: Option<DateTime>)
    ensures r.Some? ==> GpsTimeShape(s) && ValidDateTime(r.value)
    ensures r.Some? ==> base <= r.value.year < base + 100
  {
    if !GpsTimeShape(s) then None
    else
      var d := DateTime(base + Field(s, 0, 2), Field(s, 2, 2), Field(s, 4, 2),
                        Field(s, 6, 2), Field(s, 8, 2), Field(s, 10, 2), Field(s, 13, 3));
      if ValidDateTime(d) then Some(d) else None
  }

  /** Qt's parse of the UTC text, as coded: the two-digit year is put in 1900 to 1999. */
  function AsWrittenParseGpsTime(s: string): (r: Option<DateTime>)
    ensures r.Some? ==> GpsTimeShape(s) && ValidDateTime(r.value)
    ensures r.Some? ==> QtTwoDigitYearBase <= r.value.year < QtTwoDigitYearBase + 100
  {
    ParseWithBase(s, QtTwoDigitYearBase)
  }

  /** The UTC text parsed with its two-digit year in 2000 to 2099, the century the receiver reports. */
  function ParseGpsTime(s: string): (r: Option<DateTime>)
    ensures r.Some? ==> GpsTimeShape(s) && ValidDateTime(r.value)
    ensures r.Some? ==> GpsYearBase <= r.value.year < GpsYearBase + 100
  {
    ParseWithBase(s, GpsYearBase)
  }

  /**
    The two parses differ only by the century, except for 29 February of
    year 00: 2000 is a leap year and 1900 is not, so only the corrected
    parse accepts that day.
   */
  lemma CenturyShift(s: string)
    ensures AsWrittenParseGpsTime(s).Some? ==>
              ParseGpsTime(s) == Some(AsWrittenParseGpsTime(s).value.(year := AsWrittenParseGpsTime(s).value.year + 100))
    ensures ParseGpsTime(s).Some? && AsWrittenParseGpsTime(s).None? <==>
              ParseGpsTime(s).Some? && ParseGpsTime(s).value.year == GpsYearBase
              && ParseGpsTime(s).value.month == 2 && ParseGpsTime(s).value.day == 29
  {
    if GpsTimeShape(s) {
      var yy := Field(s, 0, 2);
      assert (1900 + yy) % 100 == (2000 + yy) % 100 == yy;
      assert (1900 + yy) % 4 == (2000 + yy) % 4;
      assert yy != 0 ==> (IsLeapYear(1900 + yy) <==> IsLeapYear(2000 + yy));
      assert !IsLeapYear(1900) && IsLeapYear(2000);
    }
  }

  function Digit(n: int): char
    requires 0 <= n < 10
  {
    ('0' as int + n) as char
  }

  /** A number below 100 as two decimal digits. */
  function Pad2(n: int): string
    requires 0 <= n < 100
  {
    [Digit(n / 10), Digit(n % 10)]
  }

  /** A number below 10000 as four decimal digits. */
  function Pad4(n: int): string
    requires 0 <= n < 10000
  {
    Pad2(n / 100) + Pad2(n % 100)
  }

  /** The date as "yyyy:MM:dd". */
  function DateText(d: DateTime): string
    requires ValidDateTime(d) && 0 <= d.year < 10000
  {
    Pad4(d.year) + ":" + Pad2(d.month) + ":" + Pad2(d.day)
  }

  /** The time of day as "hh:mm:ss". */
  function TimeText(d: DateTime): string
    requires ValidDateTime(d)
  {
    Pad2(d.hour) + ":" + Pad2(d.minute) + ":" + Pad2(d.second)
  }

  /** The date and time writes: both when the UTC text parses, neither otherwise. */
  function GpsTimeEntries(utc: Option<string>): (es: seq<Entry>)
    ensures |es| == 0 || |es| == 2
    ensures |es| == 2 <==> utc.Some? && ParseGpsTime(utc.value).Some?
    ensures |es| == 2 ==> es[0].key == GPSDateStamp && es[1].key == GPSTimeStamp
  {
    match utc
    case None => []
    case Some(s) =>
      match ParseGpsTime(s)
      case None => []
      case Some(d) => [Entry(GPSDateStamp, Str(DateText(d))), Entry(GPSTimeStamp, Str(TimeText(d)))]
  }

  /** Two digits read as a number and written back as two digits are the same two digits. */
  lemma Pad2OfDigits(s: string, i: nat)
    requires i + 2 <= |s| && Iso6709.IsDigit(s[i]) && Iso6709.IsDigit(s[i + 1])
    ensures Field(s, i, 2) < 100 && Pad2(Field(s, i, 2)) == s[i..i + 2]
  {
    var t := s[i..i + 2];
    var hi, lo := t[0] as int - '0' as int, t[1] as int - '0' as int;
    var t1 := t[..1];
    assert t1[..0] == [] && t1[0] == t[0] && t[..|t| - 1] == t1;
    assert Iso6709.DigitsValue(t1) == hi;
    assert Iso6709.DigitsValue(t) == hi * 10 + lo;
  }

  /**
    The written date and time are the digits of the UTC text rearranged: the
    date is "20", the two year digits, then month and day; the time is hours,
    minutes and seconds; the milliseconds are dropped.
   */
  lemma GpsTimeText(s: string)
    requires ParseGpsTime(s).Some?
    ensures GpsTimeEntries(Some(s)) ==
              [ Entry(GPSDateStamp, Str("20" + s[0..2] + ":" + s[2..4] + ":" + s[4..6])),
                Entry(GPSTimeStamp, Str(s[6..8] + ":" + s[8..10] + ":" + s[10..12])) ]
  {
    DateDigits(s, GpsYearBase);
    assert Pad2(20) == "20";
    TimeDigits(s, GpsYearBase);
  }

  /** As coded, the written date starts with "19": a 2016 text is written as 1916. */
  lemma AsWrittenGpsTimeText(s: string)
    requires AsWrittenParseGpsTime(s).Some?
    ensures DateText(AsWrittenParseGpsTime(s).value) == "19" + s[0..2] + ":" + s[2..4] + ":" + s[4..6]
    ensures TimeText(AsWrittenParseGpsTime(s).value) == s[6..8] + ":" + s[8..10] + ":" + s[10..12]
  {
    DateDigits(s, QtTwoDigitYearBase);
    assert Pad2(19) == "19";
    TimeDigits(s, QtTwoDigitYearBase);
  }

  /** The date text is the century's two digits, then the text's year, month and day digits. */
  lemma DateDigits(s: string, base: int)
    requires 0 <= base <= 9900 && base % 100 == 0
    requires ParseWithBase(s, base).Some?
    ensures DateText(ParseWithBase(s, base).value) == Pad2(base / 100) + s[0..2] + ":" + s[2..4] + ":" + s[4..6]
  {
    var d := ParseWithBase(s, base).value;
    Pad2OfDigits(s, 0);
    Pad2OfDigits(s, 2);
    Pad2OfDigits(s, 4);
    var yy := Field(s, 0, 2);
    assert d.year == base + yy;
    assert (base + yy) / 100 == base / 100 && (base + yy) % 100 == yy;
  }

  lemma TimeDigits(s: string, base: int)
    requires ParseWithBase(s, base).Some?
    ensures TimeText(ParseWithBase(s, base).value) == s[6..8] + ":" + s[8..10] + ":" + s[10..12]
  {
    Pad2OfDigits(s, 6);
    Pad2OfDigits(s, 8);
    Pad2OfDigits(s, 10);
  }

  /** The device name writes: Make "GoPro", then Model, when the name token is found. */
  function DeviceEntries(name: Option<string>): (es: seq<Entry>)
    ensures name.None? ==> es == []
    ensures name.Some? ==> es == [Entry(ImageMake, Str("GoPro")), Entry(ImageModel, Str(name.value))]
  {
    match name
    case None => []
    case Some(m) => [Entry(ImageMake, Str("GoPro")), Entry(ImageModel, Str(m))]
  }

  /** The device name handler writes Make and Model together, and only when the name token is found. */
  lemma DeviceKeys(name: Option<string>)
    ensures KeysOf(DeviceEntries(name)) == if name.Some? then {ImageMake, ImageModel} else {}
  {
    if name.Some? {
      KeysOfPair(DeviceEntries(name));
    }
  }

  // ---------------------------------------------------------------- extract

  /** The fix token was found and its value is nonzero. */
  predicate Fixed(l: Lookups)
  {
    l.fix.Some? && l.fix.value != 0
  }

  /** The GPS handler runs only after a successful init and a fix; it must then be well-defined. */
  predicate ExtractReady(l: Lookups)
  {
    l.initOk && Fixed(l) && l.gps.Some? ==> GpsReadable(l.gps.value)
  }

  /** The GPS handler's writes followed by ProcessingMethod "GPS", when there is a GPS5 token. */
  function GpsPart(t: nat, l: Lookups): seq<Entry>
    requires l.gps.Some? ==> GpsReadable(l.gps.value)
  {
    if l.gps.Some? then GpsEntries(t, l.gps.value) + [Entry(GPSProcessingMethod, Str("GPS"))] else []
  }

  /** The GPS part of extraction, run only with a fix. */
  function FixEntries(t: nat, l: Lookups): seq<Entry>
    requires Fixed(l) && (l.gps.Some? ==> GpsReadable(l.gps.value))
  {
    GpsPart(t, l) + DopEntries(l.dop) + GpsTimeEntries(l.utc)
  }

  /** All writes of one extraction, in order. */
  function ExtractEntries(t: nat, l: Lookups): seq<Entry>
    requires ExtractReady(l)
  {
    if !l.initOk then []
    else (if Fixed(l) then FixEntries(t, l) else []) + DeviceEntries(l.deviceName)
  }

  /** The keys that the GPS, DOP and time handlers can write. */
  const FixKeySet: set<Key> :=
    {GPSLatitudeRef, GPSLongitudeRef, GPSLatitude, GPSLongitude, GPSAltitudeRef, GPSAltitude,
     GPSSpeed, GPSSpeedRef, GPSProcessingMethod, GPSDOP, GPSDateStamp, GPSTimeStamp}

  /** The GPS handler's writes plus ProcessingMethod: position keys only, and only with a GPS5 token. */
  lemma GpsPartKeys(t: nat, l: Lookups)
    requires l.gps.Some? ==> GpsReadable(l.gps.value)
    ensures KeysOf(GpsPart(t, l)) <= FixKeySet - {GPSDOP, GPSDateStamp, GPSTimeStamp}
    ensures GPSProcessingMethod in KeysOf(GpsPart(t, l)) <==> l.gps.Some?
    ensures GPSLatitudeRef in KeysOf(GpsPart(t, l)) <==> l.gps.Some?
  {
    if l.gps.Some? {
      var pm := [Entry(GPSProcessingMethod, Str("GPS"))];
      GpsKeys(t, l.gps.value);
      KeysOfConcat(GpsEntries(t, l.gps.value), pm);
      KeysOfSingle(pm);
    }
  }

  /** The time handler writes DateStamp and TimeStamp together or not at all. */
  lemma TimeKeys(utc: Option<string>)
    ensures KeysOf(GpsTimeEntries(utc)) ==
              if utc.Some? && ParseGpsTime(utc.value).Some? then {GPSDateStamp, GPSTimeStamp} else {}
  {
    var u := GpsTimeEntries(utc);
    if |u| == 2 {
      KeysOfPair(u);
    }
  }

  /** The DOP handler writes the DOP key alone, and only when its token is found. */
  lemma DopKeys(d: Option<DopToken>)
    ensures KeysOf(DopEntries(d)) == if d.Some? then {GPSDOP} else {}
  {
    if d.Some? {
      KeysOfSingle(DopEntries(d));
    }
  }

  /**
    With a fix the handlers together write only GPS keys; ProcessingMethod and
    the position exactly when there is a GPS5 token, the DOP exactly when its
    token is found, and the date exactly when the UTC text parses.
   */
  lemma FixKeys(t: nat, l: Lookups)
    requires Fixed(l) && (l.gps.Some? ==> GpsReadable(l.gps.value))
    ensures KeysOf(FixEntries(t, l)) <= FixKeySet
    ensures GPSProcessingMethod in KeysOf(FixEntries(t, l)) <==> l.gps.Some?
    ensures GPSLatitudeRef in KeysOf(FixEntries(t, l)) <==> l.gps.Some?
    ensures GPSDOP in KeysOf(FixEntries(t, l)) <==> l.dop.Some?
    ensures GPSDateStamp in KeysOf(FixEntries(t, l)) <==> l.utc.Some? && ParseGpsTime(l.utc.value).Some?
  {
    var g := GpsPart(t, l);
    var d := DopEntries(l.dop);
    var u := GpsTimeEntries(l.utc);
    KeysOfConcat(g + d, u);
    KeysOfConcat(g, d);
    GpsPartKeys(t, l);
    DopKeys(l.dop);
    TimeKeys(l.utc);
    assert KeysOf(FixEntries(t, l)) == KeysOf(g) + KeysOf(d) + KeysOf(u);
  }

  /**
    What extraction writes: nothing when the parser cannot be initialised;
    otherwise the GPS position (and ProcessingMethod "GPS") only with a fix
    and a GPS5 token, the DOP and the time only with a fix, and Make and Model
    whenever the device name is found, fix or no fix.
   */
  lemma ExtractKeys(t: nat, l: Lookups)
    requires ExtractReady(l)
    ensures !l.initOk ==> ExtractEntries(t, l) == []
    ensures GPSProcessingMethod in KeysOf(ExtractEntries(t, l)) <==> l.initOk && Fixed(l) && l.gps.Some?
    ensures GPSLatitudeRef in KeysOf(ExtractEntries(t, l)) <==> l.initOk && Fixed(l) && l.gps.Some?
    ensures GPSDOP in KeysOf(ExtractEntries(t, l)) <==> l.initOk && Fixed(l) && l.dop.Some?
    ensures GPSDateStamp in KeysOf(ExtractEntries(t, l)) <==>
              l.initOk && Fixed(l) && l.utc.Some? && ParseGpsTime(l.utc.value).Some?
    ensures ImageMake in KeysOf(ExtractEntries(t, l)) <==> l.initOk && l.deviceName.Some?
  {
    if l.initOk {
      var f := if Fixed(l) then FixEntries(t, l) else [];
      var n := DeviceEntries(l.deviceName);
      assert ExtractEntries(t, l) == f + n;
      KeysOfConcat(f, n);
      if Fixed(l) {
        FixKeys(t, l);
      }
      DeviceKeys(l.deviceName);
      assert ImageMake !in FixKeySet;
    }
  }


  // ---------------------------------------------------------------- the reader

  class GoproReader {
    /** The offset into the telemetry sample, in milliseconds. */
    const timeStamp: nat
    /** What the GPMF parser finds in the sample. */
    const lookups: Lookups
    /** The log of writes to the metadata sink. */
    var exifData: seq<Entry>

    constructor (timeStamp: nat, lookups: Lookups, exifData: seq<Entry>)
      ensures this.timeStamp == timeStamp && this.lookups == lookups && this.exifData == exifData
    {
      this.timeStamp := timeStamp;
      this.lookups := lookups;
      this.exifData := exifData;
    }

    /** One write to the sink. */
    method Add(key: Key, value: ExifValue)
      modifies this`exifData
      ensures exifData == old(exifData) + [Entry(key, value)]
    {
      exifData := exifData + [Entry(key, value)];
    }

    /** GoproReader::gpsFix: the fix token is found and nonzero. */
    method GpsFix() returns (fixed: bool)
      ensures fixed <==> lookups.fix.Some? && lookups.fix.value != 0
    {
      match lookups.fix
      case None =>
        fixed := false;
      case Some(fixType) =>
        fixed := fixType != 0;
    }

    /** GoproReader::handleGPS */
    method HandleGps() returns (found: bool)
      requires lookups.gps.Some? ==> GpsReadable(lookups.gps.value)
      modifies this`exifData
      ensures found == lookups.gps.Some?
      ensures exifData == old(exifData) + (if found then GpsEntries(timeStamp, lookups.gps.value) else [])
    {
      if lookups.gps.None? {
        return false;
      }
      var token := lookups.gps.value;
      var scal := token.scale;
      var gpsSamples := |token.samples|;
      var sample := SubSampleIndex(timeStamp, gpsSamples);
      if sample >= gpsSamples {
        sample := gpsSamples - 1;
      }
      var gps := token.samples[sample];
      ghost var start := exifData;

      var lat, lon := AddReferences(gps);
      var comps := [(GPSLatitude, lat as real / scal.lat as real), (GPSLongitude, lon as real / scal.lon as real)];
      assert comps == Coordinates(gps, scal);
      ghost var r := exifData[|start|..];
      assert exifData == start + r;
      AddDms(comps);
      ghost var c := DmsWrites(comps);
      AppendAssociates(start, r, c);
      AddAltitude(gps.alt, scal.alt);
      ghost var a := AltitudeEntries(gps.alt, scal.alt);
      AppendAssociates(start, r + c, a);
      AddSpeed(gps.speed2, scal.speed2);
      ghost var v := SpeedEntries(gps.speed2, scal.speed2);
      AppendAssociates(start, r + c + a, v);
      assert GpsEntries(timeStamp, token) == r + c + a + v;
      return true;
    }

    /** The hemisphere references of handleGPS; the two coordinates come back negated when negative. */
    method AddReferences(gps: Gps5) returns (lat: int, lon: int)
      modifies this`exifData
      ensures exifData == old(exifData) + ReferenceEntries(gps)
      ensures lat == Abs(gps.lat) && lon == Abs(gps.lon)
    {
      lat, lon := gps.lat, gps.lon;
      if lon < 0 {
        Add(GPSLatitudeRef, Str("S"));
        lon := -lon;
      } else {
        Add(GPSLatitudeRef, Str("N"));
      }
      if lat < 0 {
        Add(GPSLongitudeRef, Str("W"));
        lat := -lat;
      } else {
        Add(GPSLongitudeRef, Str("E"));
      }
    }

    /** The degree/minute/second loop of handleGPS over its (key, decimal degrees) pairs. */
    method AddDms(comps: seq<(Key, real)>)
      modifies this`exifData
      ensures exifData == old(exifData) + DmsWrites(comps)
    {
      for i := 0 to |comps|
        invariant exifData == old(exifData) + DmsWrites(comps[..i])
      {
        var decDeg := comps[i].1;
        Add(comps[i].0, DmsValue(ToDms(decDeg)));
        assert comps[..i + 1] == comps[..i] + [comps[i]];
      }
      assert comps[..|comps|] == comps;
    }

    /** The altitude writes of handleGPS. */
    method AddAltitude(alt: int, scale: int)
      modifies this`exifData
      ensures exifData == old(exifData) + AltitudeEntries(alt, scale)
    {
      var a := alt;
      if a < 0 {
        Add(GPSAltitudeRef, U16(1));
        a := -a;
      } else {
        Add(GPSAltitudeRef, U16(0));
      }
      Add(GPSAltitude, URational(Rational(a, scale)));
    }

    /** The speed writes of handleGPS. */
    method AddSpeed(speed2: int, scale: int)
      modifies this`exifData
      ensures exifData == old(exifData) + SpeedEntries(speed2, scale)
    {
      if speed2 > 0 {
        Add(GPSSpeed, URational(Rational(speed2 * 36, scale * 10)));
        Add(GPSSpeedRef, Str("K"));
      }
    }

    /** GoproReader::handleDOP */
    method HandleDop()
      modifies this`exifData
      ensures exifData == old(exifData) + DopEntries(lookups.dop)
    {
      if lookups.dop.Some? {
        var t := lookups.dop.value;
        Add(GPSDOP, URational(Rational(t.dop, t.scale)));
      }
    }

    /** GoproReader::handleGPSTime */
    method HandleGpsTime()
      modifies this`exifData
      ensures exifData == old(exifData) + GpsTimeEntries(lookups.utc)
    {
      if lookups.utc.Some? {
        var date := ParseGpsTime(lookups.utc.value);
        if date.Some? {
          Add(GPSDateStamp, Str(DateText(date.value)));
          Add(GPSTimeStamp, Str(TimeText(date.value)));
        }
      }
    }

    /** GoproReader::handleDeviceName */
    method HandleDeviceName()
      modifies this`exifData
      ensures exifData == old(exifData) + DeviceEntries(lookups.deviceName)
    {
      if lookups.deviceName.Some? {
        Add(ImageMake, Str("GoPro"));
        Add(ImageModel, Str(lookups.deviceName.value));
      }
    }

    /** The part of GoproReader::extract that runs with a fix: the GPS, DOP and time handlers in that order. */
    method HandleFix()
      requires Fixed(lookups) && (lookups.gps.Some? ==> GpsReadable(lookups.gps.value))
      modifies this`exifData
      ensures exifData == old(exifData) + FixEntries(timeStamp, lookups)
    {
      var found := HandleGps();
      if found {
        Add(GPSProcessingMethod, Str("GPS"));
      }
      ghost var g := GpsPart(timeStamp, lookups);
      assert exifData == old(exifData) + g;
      HandleDop();
      ghost var d := DopEntries(lookups.dop);
      AppendAssociates(old(exifData), g, d);
      HandleGpsTime();
      AppendAssociates(old(exifData), g + d, GpsTimeEntries(lookups.utc));
    }

    /** GoproReader::extract */
    method Extract()
      requires ExtractReady(lookups)
      modifies this`exifData
      ensures exifData == old(exifData) + ExtractEntries(timeStamp, lookups)
    {
      if !lookups.initOk {
        return;
      }
      var fixed := GpsFix();
      if fixed {
        HandleFix();
      }
      ghost var f := if fixed then FixEntries(timeStamp, lookups) else [];
      assert exifData == old(exifData) + f;
      HandleDeviceName();
      AppendAssociates(old(exifData), f, DeviceEntries(lookups.deviceName));
    }
  }
}
