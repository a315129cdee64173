/**
  The QuickTime location item (type 0xA9 'x' 'y' 'z'): an ISO 6709 string such
  as "+37.1234-122.5678/" split into a latitude and a longitude text, the two
  hemisphere references, and one degree/minute/second triple per axis.

  LocationEntries splits where the longitude starts and converts magnitudes;
  the AsWritten members keep the reader's own split (the last '-', else the
  last '+') and its signed conversion, with lemmas showing where they differ.
 */
module Iso6709 {
  import opened Exif

  /** The last index of c in s, or -1 when s has none. */
  function LastIndexOf(s: string, c: char): (i: int)
    ensures -1 <= i < |s|
    ensures i >= 0 ==> s[i] == c
    ensures forall j :: i < j < |s| ==> s[j] != c
  {
    if |s| == 0 then -1
    else if s[|s| - 1] == c then |s| - 1
    else LastIndexOf(s[..|s| - 1], c)
  }

  predicate HasSign(s: string)
  {
    '-' in s || '+' in s
  }

  /** The split point as the reader computes it: the last '-' if there is one, otherwise the last '+'. */
  function AsWrittenSeparator(s: string): (sep: int)
    requires HasSign(s)
    ensures 0 <= sep < |s|
    ensures '-' in s ==> s[sep] == '-' && forall j :: sep < j < |s| ==> s[j] != '-'
    ensures '-' !in s ==> s[sep] == '+' && forall j :: sep < j < |s| ==> s[j] != '+'
  {
    var minus := LastIndexOf(s, '-');
    if minus == -1 then LastIndexOf(s, '+') else minus
  }

  predicate IsSign(c: char)
  {
    c == '-' || c == '+'
  }

  /** The first index from i on that holds a sign character, or |s| when none does. */
  function FirstSignFrom(s: string, i: nat): (k: nat)
    requires i <= |s|
    ensures i <= k <= |s|
    ensures k < |s| ==> IsSign(s[k])
    ensures forall j :: i <= j < k ==> !IsSign(s[j])
    decreases |s| - i
  {
    if i == |s| then i else if IsSign(s[i]) then i else FirstSignFrom(s, i + 1)
  }

  /** Whether a sign character follows the latitude's own sign: the text names a longitude. */
  predicate HasLongitude(s: string)
  {
    |s| > 0 && FirstSignFrom(s, 1) < |s|
  }

  /**
    The split point between latitude and longitude: the first sign character
    after the first character. Every ISO 6709 coordinate starts with its sign,
    so this is where the longitude starts whatever the signs of the two are.
   */
  function Separator(s: string): (sep: nat)
    requires HasLongitude(s)
    ensures 1 <= sep < |s| && IsSign(s[sep])
    ensures forall j :: 1 <= j < sep ==> !IsSign(s[j])
  {
    FirstSignFrom(s, 1)
  }

  /** Where the longitude text ends: at the next sign (the start of an altitude), or at the end of the text. */
  function LongitudeEnd(s: string, sep: nat): (end: nat)
    requires sep < |s|
    ensures sep < end <= |s|
    ensures end < |s| ==> IsSign(s[end])
    ensures forall j :: sep < j < end ==> !IsSign(s[j])
  {
    FirstSignFrom(s, sep + 1)
  }

  /** The text with one trailing '/' removed, if it ends in one. */
  function ChopSlash(text: string): (s: string)
    ensures if |text| > 0 && text[|text| - 1] == '/' then text == s + "/" else s == text
  {
    if |text| > 0 && text[|text| - 1] == '/' then text[..|text| - 1] else text
  }

  predicate IsDigit(c: char)
  {
    '0' <= c <= '9'
  }

  predicate AllDigits(s: string)
  {
    forall i :: 0 <= i < |s| ==> IsDigit(s[i])
  }

  function DigitsValue(s: string): nat
    requires AllDigits(s)
  {
    if s == [] then 0 else DigitsValue(s[..|s| - 1]) * 10 + (s[|s| - 1] as int - '0' as int)
  }

  /** The value of the digits after a decimal point. */
  function FractionValue(s: string): (r: real)
    requires AllDigits(s)
    ensures 0.0 <= r <= 1.0
  {
    if s == [] then 0.0 else ((s[0] as int - '0' as int) as real + FractionValue(s[1..])) / 10.0
  }

  /** The first index of c in s, or -1 when s has none. */
  function IndexOf(s: string, c: char): (i: int)
    ensures -1 <= i < |s|
    ensures i >= 0 ==> s[i] == c && forall j :: 0 <= j < i ==> s[j] != c
    ensures i == -1 ==> c !in s
  {
    if |s| == 0 then -1
    else if s[0] == c then 0
    else var k := IndexOf(s[1..], c); if k == -1 then -1 else k + 1
  }

  /** Digits, optionally with one decimal point, and at least one digit. */
  function UnsignedDecimal(s: string): Option<real>
  {
    var dot := IndexOf(s, '.');
    if dot == -1 then
      if |s| > 0 && AllDigits(s) then Some(DigitsValue(s) as real) else None
    else
      var whole, frac := s[..dot], s[dot + 1..];
      if AllDigits(whole) && AllDigits(frac) && |whole| + |frac| > 0
      then Some(DigitsValue(whole) as real + FractionValue(frac))
      else None
  }

  /** A decimal number with an optional sign; 0 when the text is not one (as toDouble reports failure). */
  function ParseDecimal(s: string): real
  {
    var body := if |s| > 0 && (s[0] == '-' || s[0] == '+') then s[1..] else s;
    match UnsignedDecimal(body)
    case None => 0.0
    case Some(v) => if |s| > 0 && s[0] == '-' then -v else v
  }

  function AbsReal(x: real): (r: real)
    ensures r >= 0.0 && (r == x || r == -x)
  {
    if x < 0.0 then -x else x
  }

  /**
    The four writes for one location text, split where the longitude starts;
    nothing when the text names no longitude.
   */
  function LocationEntries(text: string): (es: seq<Entry>)
    ensures var s := ChopSlash(text);
            HasLongitude(s) ==> |es| == 4 && es == LocationParts(s, Separator(s), LongitudeEnd(s, Separator(s)))
    ensures !HasLongitude(ChopSlash(text)) ==> es == []
  {
    var s := ChopSlash(text);
    if HasLongitude(s) then LocationParts(s, Separator(s), LongitudeEnd(s, Separator(s))) else []
  }

  /**
    The writes for a location text whose longitude is s[sep..end]: latitude
    reference from the first character, longitude reference from the character
    at sep, and the two triples from the magnitudes of s[..sep] and s[sep..end].
   */
  function LocationParts(s: string, sep: nat, end: nat): (es: seq<Entry>)
    requires 0 < sep < end <= |s|
    ensures |es| == 4
    ensures es[0].key == GPSLatitudeRef && es[1].key == GPSLongitudeRef
    ensures es[2].key == GPSLatitude && es[3].key == GPSLongitude
  {
    [ Entry(GPSLatitudeRef, Str(if s[0] == '-' then "S" else "N")),
      Entry(GPSLongitudeRef, Str(if s[sep] == '+' then "E" else "W")),
      Entry(GPSLatitude, DmsValue(ToDms(AbsReal(ParseDecimal(s[..sep]))))),
      Entry(GPSLongitude, DmsValue(ToDms(AbsReal(ParseDecimal(s[sep..end]))))) ]
  }

  /** The four writes as the reader makes them: split at the last '-' (else the last '+'), nothing without a sign. */
  function AsWrittenLocationEntries(text: string): (es: seq<Entry>)
    ensures var s := ChopSlash(text);
            HasSign(s) ==> |es| == 4 && es == AsWrittenLocationParts(s, AsWrittenSeparator(s))
    ensures !HasSign(ChopSlash(text)) ==> es == []
  {
    var s := ChopSlash(text);
    if HasSign(s) then AsWrittenLocationParts(s, AsWrittenSeparator(s)) else []
  }

  /** The reader's writes for a split at sep: both parts converted with their signs, the longitude running to the end. */
  function AsWrittenLocationParts(s: string, sep: nat): (es: seq<Entry>)
    requires sep < |s|
    ensures |es| == 4
    ensures es[0].key == GPSLatitudeRef && es[1].key == GPSLongitudeRef
    ensures es[2].key == GPSLatitude && es[3].key == GPSLongitude
  {
    [ Entry(GPSLatitudeRef, Str(if s[0] == '-' then "S" else "N")),
      Entry(GPSLongitudeRef, Str(if s[sep] == '+' then "E" else "W")),
      Entry(GPSLatitude, DmsValue(ToDms(ParseDecimal(s[..sep])))),
      Entry(GPSLongitude, DmsValue(ToDms(ParseDecimal(s[sep..])))) ]
  }

  /**
    The references: latitude "S" exactly when the text starts with '-', and
    longitude "W" exactly when the longitude starts with '-', "E" exactly when
    it starts with '+'.
   */
  lemma LocationReferences(text: string)
    requires HasLongitude(ChopSlash(text))
    ensures var s := ChopSlash(text);
            var es := LocationEntries(text);
            && (es[0] == Entry(GPSLatitudeRef, Str("S")) <==> s[0] == '-')
            && (es[0] == Entry(GPSLatitudeRef, Str("N")) <==> s[0] != '-')
            && (es[1] == Entry(GPSLongitudeRef, Str("W")) <==> s[Separator(s)] == '-')
            && (es[1] == Entry(GPSLongitudeRef, Str("E")) <==> s[Separator(s)] == '+')
  {
    assert "E" != "W" && "S" != "N";
  }

  /**
    The references as the reader's split makes them: latitude "S" exactly when
    the text starts with '-', and longitude "E" exactly when the text holds no
    '-' at all (a '-' anywhere, even in an altitude, makes it "W").
   */
  lemma AsWrittenLocationReferences(text: string)
    requires HasSign(ChopSlash(text))
    ensures var s := ChopSlash(text);
            var es := AsWrittenLocationEntries(text);
            && es[0] == Entry(GPSLatitudeRef, Str(if s[0] == '-' then "S" else "N"))
            && (es[1] == Entry(GPSLongitudeRef, Str("E")) <==> '-' !in s)
            && (es[1] == Entry(GPSLongitudeRef, Str("W")) <==> '-' in s)
  {
    var s := ChopSlash(text);
    var sep := AsWrittenSeparator(s);
    assert "E" != "W";
  }

  /** Every value a location item writes fits the sink's unsigned kinds. */
  lemma LocationUnsigned(text: string)
    ensures forall i :: 0 <= i < |LocationEntries(text)| ==> Unsigned(LocationEntries(text)[i].value)
  {
    var s := ChopSlash(text);
    if HasLongitude(s) {
      var sep := Separator(s);
      var end := LongitudeEnd(s, sep);
      DmsOfNonNegative(AbsReal(ParseDecimal(s[..sep])));
      DmsOfNonNegative(AbsReal(ParseDecimal(s[sep..end])));
    }
  }

  /**
    The reader's conversion keeps the sign: a western longitude gives negative
    whole degrees, which the sink's unsigned triple cannot hold.
   */
  lemma AsWrittenSignedDegrees(s: string, sep: nat)
    requires sep < |s| && ParseDecimal(s[sep..]) < 0.0
    ensures AsWrittenLocationParts(s, sep)[3].value.first.num < 0
    ensures !Unsigned(AsWrittenLocationParts(s, sep)[3].value)
  {
  }

  /** The four keys a location item writes. */
  const LocationKeySet: set<Key> := {GPSLatitudeRef, GPSLongitudeRef, GPSLatitude, GPSLongitude}

  /** Every write of a location item goes to one of the four GPS location keys, and an item writes all four or none. */
  lemma LocationKeys(text: string)
    ensures KeysOf(LocationEntries(text)) <= LocationKeySet
    ensures |LocationEntries(text)| == 0 || |LocationEntries(text)| == 4
  {
    var es := LocationEntries(text);
    if es != [] {
      LocationKeysOfFour(es);
    }
  }

  /** A log of the four location writes, in the order an item makes them, touches exactly the four location keys. */
  lemma LocationKeysOfFour(es: seq<Entry>)
    requires |es| == 4
    requires es[0].key == GPSLatitudeRef && es[1].key == GPSLongitudeRef
    requires es[2].key == GPSLatitude && es[3].key == GPSLongitude
    ensures KeysOf(es) == LocationKeySet
  {
    KeysOfConcat(es[..2], es[2..]);
    assert es[..2] + es[2..] == es;
    KeysOfPair(es[..2]);
    KeysOfPair(es[2..]);
  }

  lemma ParseLatitudeExample()
    ensures ParseDecimal("+37.1234") == 37.1234
  {
    assert "+37.1234"[1..] == "37.1234";
    LatitudeDigitsExample();
  }

  lemma LatitudeDigitsExample()
    ensures UnsignedDecimal("37.1234") == Some(37.1234)
  {
    var body := "37.1234";
    assert body[2] == '.' && body[0] != '.' && body[1] != '.';
    assert body[..2] == "37" && body[3..] == "1234";
    assert DigitsValue("37") == 37 by { assert "37"[..1] == "3"; }
    FractionExample("1234", 0.1234);
    UnsignedSplit(body, 2);
  }

  lemma ParseLongitudeExample()
    ensures ParseDecimal("-122.5678") == -122.5678
  {
    assert "-122.5678"[1..] == "122.5678";
    LongitudeDigitsExample();
  }

  lemma LongitudeDigitsExample()
    ensures UnsignedDecimal("122.5678") == Some(122.5678)
  {
    var body := "122.5678";
    assert body[3] == '.' && body[0] != '.' && body[1] != '.' && body[2] != '.';
    assert body[..3] == "122" && body[4..] == "5678";
    assert DigitsValue("122") == 122 by { assert "122"[..2] == "12" && "12"[..1] == "1"; }
    FractionExample("5678", 0.5678);
    UnsignedSplit(body, 3);
  }

  /** The first c in s is at i when s[i] is c and no earlier character is. */
  lemma {:induction false} IndexOfIs(s: string, c: char, i: nat)
    requires i < |s| && s[i] == c && forall j :: 0 <= j < i ==> s[j] != c
    ensures IndexOf(s, c) == i
  {
    if i > 0 {
      assert s[0] != c;
      IndexOfIs(s[1..], c, i - 1);
    }
  }

  /** A text split at its first '.' into digits before and after reads as the whole part plus the fraction. */
  lemma UnsignedSplit(s: string, dot: nat)
    requires 0 < dot < |s| && s[dot] == '.' && forall j :: 0 <= j < dot ==> s[j] != '.'
    requires AllDigits(s[..dot]) && AllDigits(s[dot + 1..])
    ensures UnsignedDecimal(s) == Some(DigitsValue(s[..dot]) as real + FractionValue(s[dot + 1..]))
  {
    IndexOfIs(s, '.', dot);
  }

  /** The four digits after a decimal point, read one digit at a time. */
  lemma FractionExample(f: string, v: real)
    requires |f| == 4 && AllDigits(f)
    requires v == (f[0] as int - '0' as int) as real / 10.0 + (f[1] as int - '0' as int) as real / 100.0
                + (f[2] as int - '0' as int) as real / 1000.0 + (f[3] as int - '0' as int) as real / 10000.0
    ensures FractionValue(f) == v
  {
    var d0, d1, d2, d3 := (f[0] as int - '0' as int) as real, (f[1] as int - '0' as int) as real,
                          (f[2] as int - '0' as int) as real, (f[3] as int - '0' as int) as real;
    assert f[3..][1..] == [];
    assert FractionValue(f[3..]) == d3 / 10.0;
    assert f[2..][1..] == f[3..];
    assert FractionValue(f[2..]) == (d2 + d3 / 10.0) / 10.0;
    assert f[1..][1..] == f[2..];
    assert FractionValue(f[1..]) == (d1 + (d2 + d3 / 10.0) / 10.0) / 10.0;
  }

  /*
    The examples below take their text as a parameter fixed by the requires
    clause rather than as a literal in the ensures clause: a literal argument
    lets the verifier unfold the whole parse on its own, which costs far more
    than the step-by-step proof.
   */

  /**
    The item text "+37.1234-122.5678/" gives latitude reference "N", longitude
    reference "W", latitude 37 deg 7 min 24 sec and longitude 122 deg 34 min
    4 sec.
   */
  lemma LocationExample(text: string)
    requires text == "+37.1234-122.5678/"
    ensures LocationEntries(text) ==
      [ Entry(GPSLatitudeRef, Str("N")),
        Entry(GPSLongitudeRef, Str("W")),
        Entry(GPSLatitude, DmsValue(Dms(37, 7, 24))),
        Entry(GPSLongitude, DmsValue(Dms(122, 34, 4))) ]
  {
    var s := text[..17];
    assert ChopSlash(text) == s;
    assert s == "+37.1234-122.5678";
    SeparatorExample();
    ExampleParts(s);
  }

  /** A trailing altitude changes nothing: "+37.1234-122.5678+030.000/" writes what "+37.1234-122.5678/" does. */
  lemma AltitudeExample(text: string)
    requires text == "+37.1234-122.5678+030.000/"
    ensures LocationEntries(text) ==
      [ Entry(GPSLatitudeRef, Str("N")),
        Entry(GPSLongitudeRef, Str("W")),
        Entry(GPSLatitude, DmsValue(Dms(37, 7, 24))),
        Entry(GPSLongitude, DmsValue(Dms(122, 34, 4))) ]
  {
    var s := text[..25];
    assert ChopSlash(text) == s;
    assert s == "+37.1234-122.5678+030.000";
    AltitudeSeparatorExample();
    assert s[..17] == "+37.1234-122.5678";
    ExampleParts(s);
  }

  /** The corrected writes of a text that starts with the latitude "+37.1234" and the longitude "-122.5678". */
  lemma ExampleParts(s: string)
    requires 17 <= |s| && s[..17] == "+37.1234-122.5678"
    ensures LocationParts(s, 8, 17) ==
      [ Entry(GPSLatitudeRef, Str("N")),
        Entry(GPSLongitudeRef, Str("W")),
        Entry(GPSLatitude, DmsValue(Dms(37, 7, 24))),
        Entry(GPSLongitude, DmsValue(Dms(122, 34, 4))) ]
  {
    assert s[0] == '+' && s[8] == '-';
    assert ParseDecimal(s[..8]) == 37.1234 by {
      assert s[..8] == "+37.1234";
      ParseLatitudeExample();
    }
    assert ParseDecimal(s[8..17]) == -122.5678 by {
      assert s[8..17] == "-122.5678";
      ParseLongitudeExample();
    }
    PartsOf(s, 8, 17, 37.1234, -122.5678);
    assert AbsReal(-122.5678) == 122.5678;
    DmsExample();
  }

  /** The corrected writes for a split, given what its two texts parse to. */
  lemma PartsOf(s: string, sep: nat, end: nat, lat: real, lon: real)
    requires 0 < sep < end <= |s| && ParseDecimal(s[..sep]) == lat && ParseDecimal(s[sep..end]) == lon
    ensures LocationParts(s, sep, end) ==
      [ Entry(GPSLatitudeRef, Str(if s[0] == '-' then "S" else "N")),
        Entry(GPSLongitudeRef, Str(if s[sep] == '+' then "E" else "W")),
        Entry(GPSLatitude, DmsValue(ToDms(AbsReal(lat)))),
        Entry(GPSLongitude, DmsValue(ToDms(AbsReal(lon)))) ]
  {
  }

  /**
    The reader's writes for "+37.1234-122.5678/": the longitude keeps its sign,
    so its whole degrees are floor(-122.5678) = -123.
   */
  lemma AsWrittenLocationExample(text: string)
    requires text == "+37.1234-122.5678/"
    ensures AsWrittenLocationEntries(text) ==
      [ Entry(GPSLatitudeRef, Str("N")),
        Entry(GPSLongitudeRef, Str("W")),
        Entry(GPSLatitude, DmsValue(Dms(37, 7, 24))),
        Entry(GPSLongitude, DmsValue(Dms(-123, 25, 55))) ]
  {
    var s := text[..17];
    assert ChopSlash(text) == s;
    assert s == "+37.1234-122.5678";
    SeparatorExample();
    assert s[0] == '+' && s[8] == '-';
    assert ParseDecimal(s[..8]) == 37.1234 by {
      assert s[..8] == "+37.1234";
      ParseLatitudeExample();
    }
    assert ParseDecimal(s[8..]) == -122.5678 by {
      assert s[8..] == "-122.5678";
      ParseLongitudeExample();
    }
    AsWrittenPartsOf(s, 8, 37.1234, -122.5678);
    DmsExample();
  }

  /**
    When an altitude follows the longitude (as in "+37.1234-122.5678+030.000/"),
    the reader's longitude text runs on into it and no longer parses, so the
    longitude is written as 0 deg 0 min 0 sec.
   */
  lemma AsWrittenAltitudeLosesLongitude(s: string, dot: nat)
    requires HasSign(s)
    requires var sep := AsWrittenSeparator(s);
             sep + 1 < dot < LongitudeEnd(s, sep) < |s| && s[dot] == '.' && forall j :: sep < j < dot ==> s[j] != '.'
    ensures AsWrittenLocationParts(s, AsWrittenSeparator(s))[3] == Entry(GPSLongitude, DmsValue(Dms(0, 0, 0)))
  {
    var sep := AsWrittenSeparator(s);
    LongitudeRunsOn(s, sep, dot, LongitudeEnd(s, sep));
    assert ToDms(0.0) == Dms(0, 0, 0);
  }

  /** A signed text from sep on whose first '.' is followed by another sign does not parse. */
  lemma LongitudeRunsOn(s: string, sep: nat, dot: nat, end: nat)
    requires sep + 1 < dot < end < |s| && IsSign(s[sep]) && IsSign(s[end])
    requires s[dot] == '.' && forall j :: sep < j < dot ==> s[j] != '.'
    ensures ParseDecimal(s[sep..]) == 0.0
  {
    var lon := s[sep..];
    assert forall j :: 1 <= j < dot - sep ==> lon[j] == s[sep + j];
    SignedNotDecimal(lon, dot - sep, end - sep);
  }

  /**
    The item text "-33.8688+151.2093/", a southern and eastern location, gives
    "S", "E", latitude 33 deg 52 min 7 sec and longitude 151 deg 12 min 33 sec.
   */
  lemma SouthernExample(text: string)
    requires text == "-33.8688+151.2093/"
    ensures LocationEntries(text) ==
      [ Entry(GPSLatitudeRef, Str("S")),
        Entry(GPSLongitudeRef, Str("E")),
        Entry(GPSLatitude, DmsValue(Dms(33, 52, 7))),
        Entry(GPSLongitude, DmsValue(Dms(151, 12, 33))) ]
  {
    var s := text[..17];
    assert ChopSlash(text) == s;
    assert s == "-33.8688+151.2093";
    SouthernSeparatorExample();
    SouthernParts(s);
  }

  /** The corrected writes of a text that starts with the latitude "-33.8688" and the longitude "+151.2093". */
  lemma SouthernParts(s: string)
    requires 17 <= |s| && s[..17] == "-33.8688+151.2093"
    ensures LocationParts(s, 8, 17) ==
      [ Entry(GPSLatitudeRef, Str("S")),
        Entry(GPSLongitudeRef, Str("E")),
        Entry(GPSLatitude, DmsValue(Dms(33, 52, 7))),
        Entry(GPSLongitude, DmsValue(Dms(151, 12, 33))) ]
  {
    assert s[0] == '-' && s[8] == '+';
    assert ParseDecimal(s[..8]) == -33.8688 by {
      assert s[..8] == "-33.8688";
      ParseSouthExample();
    }
    assert ParseDecimal(s[8..17]) == 151.2093 by {
      assert s[8..17] == "+151.2093";
      ParseEastExample();
    }
    PartsOf(s, 8, 17, -33.8688, 151.2093);
    assert AbsReal(-33.8688) == 33.8688;
    DmsExample();
  }

  /**
    The reader's writes for "-33.8688+151.2093/": the only '-' is the first
    character, so the split is at 0; the latitude text is empty and the
    longitude text is the whole string, neither parses, and the item writes
    "S", "W" and two zero triples.
   */
  lemma AsWrittenSouthernSplit(text: string)
    requires text == "-33.8688+151.2093/"
    ensures AsWrittenLocationEntries(text) ==
      [ Entry(GPSLatitudeRef, Str("S")),
        Entry(GPSLongitudeRef, Str("W")),
        Entry(GPSLatitude, DmsValue(Dms(0, 0, 0))),
        Entry(GPSLongitude, DmsValue(Dms(0, 0, 0))) ]
  {
    var s := text[..17];
    assert ChopSlash(text) == s;
    assert s == "-33.8688+151.2093";
    SouthernSeparatorExample();
    AsWrittenSouthernParts(s);
  }

  /** The reader's writes for a split at 0 of a text that is "-33.8688+151.2093". */
  lemma AsWrittenSouthernParts(s: string)
    requires |s| == 17 && s[..17] == "-33.8688+151.2093"
    ensures AsWrittenLocationParts(s, 0) ==
      [ Entry(GPSLatitudeRef, Str("S")),
        Entry(GPSLongitudeRef, Str("W")),
        Entry(GPSLatitude, DmsValue(Dms(0, 0, 0))),
        Entry(GPSLongitude, DmsValue(Dms(0, 0, 0))) ]
  {
    assert s[0] == '-' && s[3] == '.' && s[8] == '+' && s[1] != '.' && s[2] != '.';
    assert ParseDecimal(s[..0]) == 0.0 by {
      assert s[..0] == "";
    }
    assert ParseDecimal(s[0..]) == 0.0 by {
      assert s[0..] == s;
      SignedNotDecimal(s, 3, 8);
    }
    AsWrittenPartsOf(s, 0, 0.0, 0.0);
    assert ToDms(0.0) == Dms(0, 0, 0);
  }

  /** The reader's writes for a split at sep, given what its two texts parse to. */
  lemma AsWrittenPartsOf(s: string, sep: nat, lat: real, lon: real)
    requires sep < |s| && ParseDecimal(s[..sep]) == lat && ParseDecimal(s[sep..]) == lon
    ensures AsWrittenLocationParts(s, sep) ==
      [ Entry(GPSLatitudeRef, Str(if s[0] == '-' then "S" else "N")),
        Entry(GPSLongitudeRef, Str(if s[sep] == '+' then "E" else "W")),
        Entry(GPSLatitude, DmsValue(ToDms(lat))),
        Entry(GPSLongitude, DmsValue(ToDms(lon))) ]
  {
  }

  /** A signed text whose first '.' is at dot and which holds a non-digit at bad, after the dot, reads as 0. */
  lemma SignedNotDecimal(t: string, dot: nat, bad: nat)
    requires 1 < dot < bad < |t| && IsSign(t[0]) && t[dot] == '.' && forall j :: 1 <= j < dot ==> t[j] != '.'
    requires !IsDigit(t[bad])
    ensures ParseDecimal(t) == 0.0
  {
    NotDecimal(t[1..], dot - 1, bad - 1);
  }

  /** A text whose first '.' is at dot and which holds a non-digit at bad, after the dot, is no decimal. */
  lemma NotDecimal(s: string, dot: nat, bad: nat)
    requires 0 < dot < bad < |s| && s[dot] == '.' && forall j :: 0 <= j < dot ==> s[j] != '.'
    requires !IsDigit(s[bad])
    ensures UnsignedDecimal(s) == None
  {
    IndexOfIs(s, '.', dot);
    assert s[dot + 1..][bad - dot - 1] == s[bad];
  }

  lemma SeparatorExample()
    ensures HasSign("+37.1234-122.5678") && AsWrittenSeparator("+37.1234-122.5678") == 8
    ensures HasLongitude("+37.1234-122.5678") && Separator("+37.1234-122.5678") == 8
    ensures LongitudeEnd("+37.1234-122.5678", 8) == 17
  {
    var s := "+37.1234-122.5678";
    assert s[8] == '-';
    var sep := AsWrittenSeparator(s);
    assert forall j :: 8 < j < |s| ==> s[j] != '-';
    FirstSignIs(s, 1, 8);
    FirstSignIs(s, 9, 17);
  }

  lemma AltitudeSeparatorExample()
    ensures HasSign("+37.1234-122.5678+030.000") && AsWrittenSeparator("+37.1234-122.5678+030.000") == 8
    ensures HasLongitude("+37.1234-122.5678+030.000") && Separator("+37.1234-122.5678+030.000") == 8
    ensures LongitudeEnd("+37.1234-122.5678+030.000", 8) == 17
  {
    var s := "+37.1234-122.5678+030.000";
    assert s[8] == '-';
    var sep := AsWrittenSeparator(s);
    assert forall j :: 8 < j < |s| ==> s[j] != '-';
    FirstSignIs(s, 1, 8);
    FirstSignIs(s, 9, 17);
  }

  lemma SouthernSeparatorExample()
    ensures HasLongitude("-33.8688+151.2093") && Separator("-33.8688+151.2093") == 8
    ensures LongitudeEnd("-33.8688+151.2093", 8) == 17
    ensures HasSign("-33.8688+151.2093") && AsWrittenSeparator("-33.8688+151.2093") == 0
  {
    var s := "-33.8688+151.2093";
    assert s[0] == '-';
    var sep := AsWrittenSeparator(s);
    assert forall j :: 0 < j < |s| ==> s[j] != '-';
    FirstSignIs(s, 1, 8);
    FirstSignIs(s, 9, 17);
  }

  /** The first sign from i on is at k when s[k] is one (or k is the end) and none lies between. */
  lemma {:induction false} FirstSignIs(s: string, i: nat, k: nat)
    requires i <= k <= |s| && (k < |s| ==> IsSign(s[k]))
    requires forall j :: i <= j < k ==> !IsSign(s[j])
    ensures FirstSignFrom(s, i) == k
    decreases k - i
  {
    if i < k {
      FirstSignIs(s, i + 1, k);
    }
  }

  lemma ParseSouthExample()
    ensures ParseDecimal("-33.8688") == -33.8688
  {
    assert "-33.8688"[1..] == "33.8688";
    SouthDigitsExample();
  }

  lemma SouthDigitsExample()
    ensures UnsignedDecimal("33.8688") == Some(33.8688)
  {
    var body := "33.8688";
    assert body[2] == '.' && body[0] != '.' && body[1] != '.';
    assert body[..2] == "33" && body[3..] == "8688";
    assert DigitsValue("33") == 33 by { assert "33"[..1] == "3"; }
    FractionExample("8688", 0.8688);
    UnsignedSplit(body, 2);
  }

  lemma ParseEastExample()
    ensures ParseDecimal("+151.2093") == 151.2093
  {
    assert "+151.2093"[1..] == "151.2093";
    EastDigitsExample();
  }

  lemma EastDigitsExample()
    ensures UnsignedDecimal("151.2093") == Some(151.2093)
  {
    var body := "151.2093";
    assert body[3] == '.' && body[0] != '.' && body[1] != '.' && body[2] != '.';
    assert body[..3] == "151" && body[4..] == "2093";
    assert DigitsValue("151") == 151 by { assert "151"[..2] == "15" && "15"[..1] == "1"; }
    FractionExample("2093", 0.2093);
    UnsignedSplit(body, 3);
  }

  lemma DmsExample()
    ensures ToDms(37.1234) == Dms(37, 7, 24)
    ensures ToDms(122.5678) == Dms(122, 34, 4)
    ensures ToDms(-122.5678) == Dms(-123, 25, 55)
    ensures ToDms(33.8688) == Dms(33, 52, 7)
    ensures ToDms(151.2093) == Dms(151, 12, 33)
    ensures ToDms(0.0) == Dms(0, 0, 0)
  {
  }
}
