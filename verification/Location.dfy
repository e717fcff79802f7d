/** The integer part of LOC records (RFC 1876 section 2): biased thousandths of a second of arc, and
    altitude in centimetres above a base 100000 m below sea level. */
module Location {
  import opened Wire

  const LOC_BIAS: nat := 0x8000_0000
  const LOC_LAT_MAX: nat := 90 * 3600000
  const LOC_LNG_MAX: nat := 180 * 3600000
  const LOC_ALT_BIAS: int := 10000000

  /** `nw` is north for a latitude, and west for a longitude. */
  datatype Angle = Angle(deg: nat, min: nat, sec: nat, frac: nat, nw: bool)

  datatype Position = Position(latitude: Angle, longitude: Angle, altitude: int)

  /** The three words of a record. */
  datatype Coded = Coded(latitude: uint32, longitude: uint32, altitude: uint32)

  function Word(n: int): uint32 {
    n % 0x1_0000_0000
  }

  /** Thousandths of a second. */
  function Total(a: Angle): nat {
    a.deg * 3600000 + a.min * 60000 + a.sec * 1000 + a.frac
  }

  /** `v` is a 32-bit variable, so the sum is cut to it before the bias is applied. */
  function Biased(a: Angle, above: bool): uint32 {
    var v := Word(Total(a));
    if above then Word(v + LOC_BIAS) else Word(LOC_BIAS - v)
  }

  /** The altitude is converted to unsigned before the base is added. */
  function Raised(altitude: int): uint32 {
    Word(Word(altitude) + LOC_ALT_BIAS)
  }

  /** The coordinates of encode_rr_loc. */
  function Encode(p: Position): Coded {
    Coded(Biased(p.latitude, p.latitude.nw), Biased(p.longitude, !p.longitude.nw), Raised(p.altitude))
  }

  /** dloc_angle: three divisions, least part first. */
  function Split(v: nat, nw: bool): Angle {
    var s := v / 1000;
    var m := s / 60;
    Angle(m / 60, m % 60, s % 60, v % 1000, nw)
  }

  /** Distance from the bias, whichever side of it. */
  function Distance(v: uint32): nat {
    if v >= LOC_BIAS then v - LOC_BIAS else LOC_BIAS - v
  }

  /** The coordinates of decode_rr_loc. */
  function Decode(c: Coded): Result<Position> {
    var lat, lng := Distance(c.latitude), Distance(c.longitude);
    if lat > LOC_LAT_MAX then Err(FormatError)
    else if lng > LOC_LNG_MAX then Err(FormatError)
    else Ok(Position(Split(lat, c.latitude >= LOC_BIAS), Split(lng, c.longitude < LOC_BIAS), c.altitude - LOC_ALT_BIAS))
  }

  /** Minutes, seconds and thousandths below the next unit. */
  predicate Sexagesimal(a: Angle) {
    a.min < 60 && a.sec < 60 && a.frac < 1000
  }

  /** Splitting finds the one way to write a total in degrees, minutes, seconds and thousandths. */
  lemma SplitIsUnique(v: nat, a: Angle)
    ensures Split(v, a.nw) == a <==> Sexagesimal(a) && Total(a) == v
  {
    var s := v / 1000;
    var m := s / 60;
    assert v == s * 1000 + v % 1000 && s == m * 60 + s % 60 && m == m / 60 * 60 + m % 60;
    assert Total(Split(v, a.nw)) == v;
    if Sexagesimal(a) && Total(a) == v {
      assert v == ((a.deg * 60 + a.min) * 60 + a.sec) * 1000 + a.frac;
      assert s == (a.deg * 60 + a.min) * 60 + a.sec;
      assert m == a.deg * 60 + a.min;
    }
  }

  /** A coordinate that can come back: a real angle within `max`, and zero only on the side the
      decoder takes zero to be on. */
  predicate Restorable(a: Angle, above: bool, max: nat) {
    Sexagesimal(a) && Total(a) <= max && (Total(a) == 0 ==> above)
  }

  lemma WordIs(n: int, q: int, r: int)
    requires n == q * 0x1_0000_0000 + r && 0 <= r < 0x1_0000_0000
    ensures Word(n) == r
  {
  }

  lemma WordAdd(n: int, k: int)
    ensures Word(Word(n) + k) == Word(n + k)
    ensures Word(k - Word(n)) == Word(k - n)
  {
    var q := n / 0x1_0000_0000;
    assert n == q * 0x1_0000_0000 + Word(n);
    var m, l := Word(n) + k, k - Word(n);
    WordIs(n + k, q + m / 0x1_0000_0000, Word(m));
    WordIs(k - n, l / 0x1_0000_0000 - q, Word(l));
  }

  lemma CoordinateRoundTrip(a: Angle, above: bool, max: nat)
    requires max <= LOC_LNG_MAX
    ensures var v := Biased(a, above);
            (Distance(v) <= max && Split(Distance(v), a.nw) == a && (v >= LOC_BIAS <==> above))
            <==> Restorable(a, above, max)
  {
    hide Split, Total;
    var t := Total(a);
    SplitIsUnique(Distance(Biased(a, above)), a);
    if t <= max {
      WordIs(t, 0, t);
      WordIs(t + LOC_BIAS, 0, t + LOC_BIAS);
      WordIs(LOC_BIAS - t, 0, LOC_BIAS - t);
    }
  }

  lemma AltitudeRoundTrip(a: int)
    ensures Raised(a) - LOC_ALT_BIAS == a <==> -LOC_ALT_BIAS <= a <= 0xFFFF_FFFF - LOC_ALT_BIAS
  {
    WordAdd(a, LOC_ALT_BIAS);
    if -LOC_ALT_BIAS <= a <= 0xFFFF_FFFF - LOC_ALT_BIAS {
      WordIs(a + LOC_ALT_BIAS, 0, a + LOC_ALT_BIAS);
    }
  }

  /** Decoding restores a position exactly when both angles are real and in range, zero latitude is
      north, zero longitude is east, and the altitude is between 100000 m below and what 32 bits of
      centimetres reach above that. */
  lemma PositionRoundTrip(p: Position)
    ensures Decode(Encode(p)) == Ok(p) <==>
            && Restorable(p.latitude, p.latitude.nw, LOC_LAT_MAX)
            && Restorable(p.longitude, !p.longitude.nw, LOC_LNG_MAX)
            && -LOC_ALT_BIAS <= p.altitude <= 0xFFFF_FFFF - LOC_ALT_BIAS
  {
    var c := Encode(p);
    assert forall v, nw :: Split(v, nw).nw == nw;
    hide Biased, Raised, Split, Distance, Restorable;
    CoordinateRoundTrip(p.latitude, p.latitude.nw, LOC_LAT_MAX);
    CoordinateRoundTrip(p.longitude, !p.longitude.nw, LOC_LNG_MAX);
    AltitudeRoundTrip(p.altitude);
  }

  lemma EquatorBytes(above: bool)
    ensures Biased(Angle(0, 0, 0, 0, above), above) == LOC_BIAS
  {
    WordIs(0, 0, 0);
    WordIs(LOC_BIAS, 0, LOC_BIAS);
  }

  /** The equator given as south is written as the equator given as north, and comes back as that. */
  lemma SouthernEquator(p: Position, q: Position)
    requires p.latitude == Angle(0, 0, 0, 0, false) && q == p.(latitude := Angle(0, 0, 0, 0, true))
    requires Decode(Encode(q)) == Ok(q)
    ensures Decode(Encode(p)) == Ok(q)
  {
    hide Biased, Raised, Decode;
    EquatorBytes(true);
    EquatorBytes(false);
  }

  /* ---- The words on the wire ---- */

  /** The words of a real position: 0x8000_0000 for the equator and the prime meridian, one more for
      each thousandth of a second north or east and one less south or west, and 10000000 for sea level. */
  lemma WordsWritten(p: Position)
    requires p.latitude.min < 60 && p.latitude.sec < 60 && p.latitude.frac < 1000 && p.latitude.deg <= 180
    requires p.longitude.min < 60 && p.longitude.sec < 60 && p.longitude.frac < 1000 && p.longitude.deg <= 180
    requires -10000000 <= p.altitude < 4284967296
    ensures var a, o := p.latitude, p.longitude;
            var north := ((a.deg * 60 + a.min) * 60 + a.sec) * 1000 + a.frac;
            var west := ((o.deg * 60 + o.min) * 60 + o.sec) * 1000 + o.frac;
            Encode(p) == Coded(if a.nw then 2147483648 + north else 2147483648 - north,
                               if o.nw then 2147483648 - west else 2147483648 + west,
                               10000000 + p.altitude)
  {
    var north, west := Total(p.latitude), Total(p.longitude);
    AngleWord(p.latitude, p.latitude.nw);
    AngleWord(p.longitude, !p.longitude.nw);
    WordAdd(p.altitude, 10000000);
    WordIs(p.altitude + 10000000, 0, p.altitude + 10000000);
  }

  lemma AngleWord(a: Angle, above: bool)
    requires Total(a) < 2147483648
    ensures Biased(a, above) == if above then 2147483648 + Total(a) else 2147483648 - Total(a)
  {
    hide Total;
    WordIs(Total(a), 0, Total(a));
    WordIs(2147483648 + Total(a), 0, 2147483648 + Total(a));
    WordIs(2147483648 - Total(a), 0, 2147483648 - Total(a));
  }

  /** Which three words are read, and what they are read as: at most 90 degrees of latitude and 180
      of longitude on either side. */
  lemma WordsRead(c: Coded)
    ensures Decode(c).Ok? <==>
              && 2147483648 - 324000000 <= c.latitude <= 2147483648 + 324000000
              && 2147483648 - 648000000 <= c.longitude <= 2147483648 + 648000000
    ensures Decode(c).Err? ==> Decode(c).rc == FormatError
    ensures Decode(c).Ok? ==>
              var p := Decode(c).value;
              var a, o := p.latitude, p.longitude;
              var north := ((a.deg * 60 + a.min) * 60 + a.sec) * 1000 + a.frac;
              var west := ((o.deg * 60 + o.min) * 60 + o.sec) * 1000 + o.frac;
              && a.min < 60 && a.sec < 60 && a.frac < 1000 && o.min < 60 && o.sec < 60 && o.frac < 1000
              && c.latitude == (if a.nw then 2147483648 + north else 2147483648 - north)
              && c.longitude == (if o.nw then 2147483648 - west else 2147483648 + west)
              && c.altitude == 10000000 + p.altitude
  {
    if Decode(c).Ok? {
      var p := Decode(c).value;
      SplitIsUnique(Distance(c.latitude), p.latitude);
      SplitIsUnique(Distance(c.longitude), p.longitude);
    }
  }
}
