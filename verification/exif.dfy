/**
  The metadata sink every reader writes into, seen as the ordered log of the
  writes it receives, and the degree/minute/second conversion shared by the
  container's location string and the GoPro telemetry.
 */
module Exif {

  datatype Option<T> = None | Some(value: T)

  /** An Exif rational: numerator over denominator. */
  datatype Rational = Rational(num: int, den: int)

  /** The value kinds the readers write. */
  datatype ExifValue =
    | U16(u: int)
    | Str(s: string)
    | URational(r: Rational)
    | Triple(first: Rational, second: Rational, third: Rational)

  /** One write to the sink: a key and its value. */
  datatype Entry = Entry(key: Key, value: ExifValue)

  /** The sink keys the readers write to. */
  datatype Key =
    | GPSLatitudeRef | GPSLongitudeRef | GPSLatitude | GPSLongitude
    | GPSAltitudeRef | GPSAltitude | GPSSpeed | GPSSpeedRef | GPSDOP
    | GPSDateStamp | GPSTimeStamp | GPSProcessingMethod
    | ImageMake | ImageModel

  /** The dotted tag path each key stands for in the sink. */
  function KeyPath(k: Key): string
  {
    match k
    case GPSLatitudeRef => "Exif.GPSInfo.GPSLatitudeRef"
    case GPSLongitudeRef => "Exif.GPSInfo.GPSLongitudeRef"
    case GPSLatitude => "Exif.GPSInfo.GPSLatitude"
    case GPSLongitude => "Exif.GPSInfo.GPSLongitude"
    case GPSAltitudeRef => "Exif.GPSInfo.GPSAltitudeRef"
    case GPSAltitude => "Exif.GPSInfo.GPSAltitude"
    case GPSSpeed => "Exif.GPSInfo.GPSSpeed"
    case GPSSpeedRef => "Exif.GPSInfo.GPSSpeedRef"
    case GPSDOP => "Exif.GPSInfo.GPSDOP"
    case GPSDateStamp => "Exif.GPSInfo.GPSDateStamp"
    case GPSTimeStamp => "Exif.GPSInfo.GPSTimeStamp"
    case GPSProcessingMethod => "Exif.GPSInfo.GPSProcessingMethod"
    case ImageMake => "Exif.Image.Make"
    case ImageModel => "Exif.Image.Model"
  }

  /** The set of keys a log of writes touches. */
  function KeysOf(es: seq<Entry>): (ks: set<Key>)
    ensures forall i :: 0 <= i < |es| ==> es[i].key in ks
  {
    if es == [] then {} else KeysOf(es[..|es| - 1]) + {es[|es| - 1].key}
  }

  /** The keys of a log are the keys of its two halves. */
  lemma {:induction false} KeysOfConcat(a: seq<Entry>, b: seq<Entry>)
    ensures KeysOf(a + b) == KeysOf(a) + KeysOf(b)
  {
    if b == [] {
      assert a + b == a;
    } else {
      var c := a + b;
      assert c[..|c| - 1] == a + b[..|b| - 1];
      KeysOfConcat(a, b[..|b| - 1]);
    }
  }

  /** The keys of a two-entry log. */
  lemma KeysOfPair(es: seq<Entry>)
    requires |es| == 2
    ensures KeysOf(es) == {es[0].key, es[1].key}
  {
    KeysOfSingle(es[..1]);
  }

  /** A log whose every entry has its key in ks touches no key outside ks. */
  lemma {:induction false} KeysWithin(es: seq<Entry>, ks: set<Key>)
    requires forall i :: 0 <= i < |es| ==> es[i].key in ks
    ensures KeysOf(es) <= ks
  {
    if es != [] {
      KeysWithin(es[..|es| - 1], ks);
    }
  }

  /** The keys of a one-entry log. */
  lemma KeysOfSingle(es: seq<Entry>)
    requires |es| == 1
    ensures KeysOf(es) == {es[0].key}
  {
    assert es[..0] == [];
  }

  /** Appending to a log in two steps is appending the two pieces at once. */
  lemma AppendAssociates<T>(a: seq<T>, b: seq<T>, c: seq<T>)
    ensures (a + b) + c == a + (b + c)
  {
  }

  /** Whole degrees, minutes and seconds, each truncated towards minus infinity. */
  datatype Dms = Dms(deg: int, min: int, sec: int)

  /**
    deg = floor(d), min = floor((d - deg) * 60), sec = floor((d - deg - min/60) * 3600),
    computed exactly. The three parts never overstate d, and understate it by
    less than one arc-second.
   */
  function ToDms(d: real): (r: Dms)
    ensures r.deg as real <= d < r.deg as real + 1.0
    ensures 0 <= r.min < 60 && 0 <= r.sec < 60
    ensures r.deg as real + r.min as real / 60.0 + r.sec as real / 3600.0 <= d
    ensures d < r.deg as real + r.min as real / 60.0 + (r.sec + 1) as real / 3600.0
  {
    var deg := d.Floor;
    var min := ((d - deg as real) * 60.0).Floor;
    var sec := ((d - deg as real - min as real / 60.0) * 3600.0).Floor;
    Dms(deg, min, sec)
  }

  /** The triple written to the sink: each part over denominator 1. */
  function DmsValue(t: Dms): (v: ExifValue)
    ensures v.Triple? && v.first.den == 1 && v.second.den == 1 && v.third.den == 1
    ensures v.first.num == t.deg && v.second.num == t.min && v.third.num == t.sec
  {
    Triple(Rational(t.deg, 1), Rational(t.min, 1), Rational(t.sec, 1))
  }

  /**
    Whether a value fits the sink's unsigned kinds: a URational or a triple of
    them holds no negative numerator or denominator.
   */
  predicate Unsigned(v: ExifValue)
  {
    match v
    case URational(r) => r.num >= 0 && r.den >= 0
    case Triple(a, b, c) => a.num >= 0 && a.den >= 0 && b.num >= 0 && b.den >= 0 && c.num >= 0 && c.den >= 0
    case _ => true
  }

  /** For a non-negative value every written part is non-negative, as an unsigned rational needs. */
  lemma DmsOfNonNegative(d: real)
    requires d >= 0.0
    ensures ToDms(d).deg >= 0 && ToDms(d).min >= 0 && ToDms(d).sec >= 0
    ensures Unsigned(DmsValue(ToDms(d)))
  {
  }

  /** Two test vectors: 12.5 degrees is 12 deg 30 min 0 sec, and 45.25 degrees is 45 deg 15 min 0 sec. */
  lemma DmsExamples()
    ensures ToDms(12.5) == Dms(12, 30, 0)
    ensures ToDms(45.25) == Dms(45, 15, 0)
  {
  }
}
