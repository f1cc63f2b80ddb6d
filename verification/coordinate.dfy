/**
 * `parse_nmea_lat_lon`: NMEA packs a coordinate as `ddmm.mmmm` (latitude) or
 * `dddmm.mmmm` (longitude); the whole degrees are the value divided by 100
 * and truncated, the rest are minutes, and decimal degrees are
 * degrees + minutes / 60, negated for the southern or western hemisphere.
 */
module Coordinate {
  import opened Wrappers
  import opened NumericText

  /**
   * `int(raw / 100)`: the whole-degree part, the number of whole hundreds in the
   * field, counted toward zero.
   */
  function Degrees(raw: real): (deg: int)
    ensures raw >= 0.0 ==> 0 <= deg && deg as real * 100.0 <= raw < deg as real * 100.0 + 100.0
    ensures raw < 0.0 ==> deg <= 0 && deg as real * 100.0 - 100.0 < raw <= deg as real * 100.0
  {
    Trunc(raw / 100.0)
  }

  /** `raw - deg * 100`: the minutes part, of the field's sign, not checked against 60. */
  function Minutes(raw: real): (min: real)
    ensures raw >= 0.0 ==> 0.0 <= min < 100.0
    ensures raw < 0.0 ==> -100.0 < min <= 0.0
  {
    raw - Degrees(raw) as real * 100.0
  }

  /** Unsigned decimal degrees of one packed coordinate: whole degrees plus less than 100/60 of a degree. */
  function DecimalDegrees(raw: real): (r: real)
    ensures raw >= 0.0 ==> Degrees(raw) as real <= r < Degrees(raw) as real + 100.0 / 60.0
    ensures raw < 0.0 ==> Degrees(raw) as real - 100.0 / 60.0 < r <= Degrees(raw) as real
  {
    Degrees(raw) as real + Minutes(raw) / 60.0
  }

  /** The result pair of `parse_nmea_lat_lon`: `(latitude, longitude)` or `(None, None)`. */
  type LatLon = (Option<real>, Option<real>)

  /**
   * Latitude first: a latitude field that is not a number fails the call
   * before the longitude field is looked at. Either failure yields
   * `(None, None)`, never one coordinate alone.
   */
  function ParseLatLon(lat: string, latDir: string, lon: string, lonDir: string): (r: LatLon)
    ensures r.0.Some? == r.1.Some?
  {
    match ParseFloat(lat)
    case None => (None, None)
    case Some(rawLat) =>
      var latitude := if latDir == "S" then -DecimalDegrees(rawLat) else DecimalDegrees(rawLat);
      match ParseFloat(lon)
      case None => (None, None)
      case Some(rawLon) =>
        var longitude := if lonDir == "W" then -DecimalDegrees(rawLon) else DecimalDegrees(rawLon);
        (Some(latitude), Some(longitude))
  }

  // ---------------------------------------------------------------------------
  // The conversion of one axis

  /**
   * For a non-negative field the degrees are a natural number, the minutes lie
   * in [0, 100) and together rebuild the field, and the decimal value lies in
   * [deg, deg + 100/60).
   */
  lemma DecompositionBounds(raw: real)
    requires raw >= 0.0
    ensures Degrees(raw) >= 0
    ensures 0.0 <= Minutes(raw) < 100.0
    ensures raw == Degrees(raw) as real * 100.0 + Minutes(raw)
    ensures Degrees(raw) as real <= DecimalDegrees(raw) < Degrees(raw) as real + 100.0 / 60.0
  {
  }

  /**
   * Packing `deg` degrees and `min` minutes as `deg * 100 + min` and converting
   * gives `deg + min / 60` back; minutes from 60 up to 100 are converted the
   * same way rather than rejected.
   */
  lemma PackedRoundTrip(deg: nat, min: real)
    requires 0.0 <= min < 100.0
    ensures Degrees(deg as real * 100.0 + min) == deg
    ensures Minutes(deg as real * 100.0 + min) == min
    ensures DecimalDegrees(deg as real * 100.0 + min) == deg as real + min / 60.0
  {
  }

  /** Truncation toward zero makes the conversion odd: a negative field converts to the negated value. */
  lemma DecimalDegreesOdd(raw: real)
    ensures DecimalDegrees(-raw) == -DecimalDegrees(raw)
  {
  }

  /** A positive field gives a positive value; zero gives zero. */
  lemma DecimalDegreesPositive(raw: real)
    requires raw >= 0.0
    ensures DecimalDegrees(raw) >= 0.0
    ensures DecimalDegrees(raw) == 0.0 <==> raw == 0.0
  {
  }

  /** Two distinct fields can name the same position, since minutes of 60 or more are accepted. */
  lemma MinutesNotRejected()
    ensures DecimalDegrees(4875.0) == DecimalDegrees(4915.0) == 49.25
  {
  }

  // ---------------------------------------------------------------------------
  // parse_nmea_lat_lon

  /** The call fails exactly when one of the two numeric fields is not a number. */
  lemma AllOrNothing(lat: string, latDir: string, lon: string, lonDir: string)
    ensures ParseLatLon(lat, latDir, lon, lonDir) == (None, None)
        <==> ParseFloat(lat).None? || ParseFloat(lon).None?
  {
  }

  /** On success each coordinate is its field's decimal degrees, up to sign. */
  lemma Magnitudes(lat: string, latDir: string, lon: string, lonDir: string)
    requires ParseLatLon(lat, latDir, lon, lonDir).0.Some?
    ensures ParseFloat(lat).Some? && ParseFloat(lon).Some?
    ensures var r := ParseLatLon(lat, latDir, lon, lonDir);
      (r.0.value == DecimalDegrees(ParseFloat(lat).value) || r.0.value == -DecimalDegrees(ParseFloat(lat).value)) &&
      (r.1.value == DecimalDegrees(ParseFloat(lon).value) || r.1.value == -DecimalDegrees(ParseFloat(lon).value))
  {
  }

  /**
   * The latitude is negated exactly when its indicator is the string "S";
   * "N", "", "s" or anything else leaves the converted field as it is. For a
   * positive field the latitude is therefore negative exactly for "S".
   */
  lemma LatitudeSign(lat: string, latDir: string, lon: string, lonDir: string)
    requires ParseFloat(lat).Some? && ParseFloat(lat).value != 0.0 && ParseFloat(lon).Some?
    ensures ParseLatLon(lat, latDir, lon, lonDir).0.Some?
    ensures ParseLatLon(lat, latDir, lon, lonDir).0.value == -DecimalDegrees(ParseFloat(lat).value) <==> latDir == "S"
    ensures ParseFloat(lat).value > 0.0 ==> (ParseLatLon(lat, latDir, lon, lonDir).0.value < 0.0 <==> latDir == "S")
  {
    NonZeroField(ParseFloat(lat).value);
  }

  /** The longitude is negated exactly when its indicator is the string "W". */
  lemma LongitudeSign(lat: string, latDir: string, lon: string, lonDir: string)
    requires ParseFloat(lat).Some? && ParseFloat(lon).Some? && ParseFloat(lon).value != 0.0
    ensures ParseLatLon(lat, latDir, lon, lonDir).1.Some?
    ensures ParseLatLon(lat, latDir, lon, lonDir).1.value == -DecimalDegrees(ParseFloat(lon).value) <==> lonDir == "W"
    ensures ParseFloat(lon).value > 0.0 ==> (ParseLatLon(lat, latDir, lon, lonDir).1.value < 0.0 <==> lonDir == "W")
  {
    NonZeroField(ParseFloat(lon).value);
  }

  /** A non-zero field converts to a non-zero value of the same sign. */
  lemma NonZeroField(raw: real)
    requires raw != 0.0
    ensures DecimalDegrees(raw) != 0.0
    ensures raw > 0.0 ==> DecimalDegrees(raw) > 0.0
    ensures raw < 0.0 ==> DecimalDegrees(raw) < 0.0
  {
    if raw > 0.0 {
      DecimalDegreesPositive(raw);
    } else {
      DecimalDegreesPositive(-raw);
      DecimalDegreesOdd(raw);
    }
  }

  /** The latitude does not depend on the longitude's indicator, nor the longitude on the latitude's. */
  lemma IndicatorsIndependent(lat: string, latDir: string, latDir': string, lon: string, lonDir: string, lonDir': string)
    ensures ParseLatLon(lat, latDir, lon, lonDir).0 == ParseLatLon(lat, latDir, lon, lonDir').0
    ensures ParseLatLon(lat, latDir, lon, lonDir).1 == ParseLatLon(lat, latDir', lon, lonDir).1
  {
  }

  /**
   * Both axes go through the same conversion: exchanging the two numeric
   * fields (with indicators that negate alike) exchanges the two results.
   */
  lemma AxesAlike(lat: string, latDir: string, lon: string, lonDir: string)
    requires (latDir == "S") == (lonDir == "W")
    ensures var r := ParseLatLon(lat, latDir, lon, lonDir);
      ParseLatLon(lon, latDir, lat, lonDir) == (r.1, r.0)
  {
  }

  /** The digit values inside the latitude field `4807.038`. */
  lemma LatitudeDigits()
    ensures AllDigits("4807") && AllDigits("038")
    ensures IntValue("4807") == 4807 && FracValue("038") == 0.038
  {
    assert IntValue("4807") == 4807 by {
      assert "4"[..0] == "" && IntValue("4") == 4;
      assert "48"[..1] == "4" && IntValue("48") == 48;
      assert "480"[..2] == "48" && IntValue("480") == 480;
      assert "4807"[..3] == "480";
    }
    assert FracValue("038") == 0.038 by {
      assert "038"[1..] == "38" && "38"[1..] == "8" && "8"[1..] == "";
    }
  }

  lemma ParseLatitudeField(s: string)
    requires s == "4807.038"
    ensures ParseFloat(s) == Some(4807.038)
  {
    assert s == "4807" + "." + "038";
    LatitudeDigits();
    ParseDecimal("4807", "038");
  }

  /** The digit values inside the longitude field `01131.000`. */
  lemma LongitudeDigits()
    ensures AllDigits("01131") && AllDigits("000")
    ensures IntValue("01131") == 1131 && FracValue("000") == 0.0
  {
    assert IntValue("01131") == 1131 by {
      assert "0"[..0] == "" && IntValue("0") == 0;
      assert "01"[..1] == "0" && IntValue("01") == 1;
      assert "011"[..2] == "01" && IntValue("011") == 11;
      assert "0113"[..3] == "011" && IntValue("0113") == 113;
      assert "01131"[..4] == "0113";
    }
    assert FracValue("000") == 0.0 by {
      assert "000"[1..] == "00" && "00"[1..] == "0" && "0"[1..] == "";
    }
  }

  lemma ParseLongitudeField(s: string)
    requires s == "01131.000"
    ensures ParseFloat(s) == Some(1131.0)
  {
    assert s == "01131" + "." + "000";
    LongitudeDigits();
    ParseDecimal("01131", "000");
  }

  /** The fix from a typical GGA sentence: 4807.038 N, 01131.000 E. */
  lemma ExampleNorthEast(lat: string, lon: string)
    requires lat == "4807.038" && lon == "01131.000"
    ensures ParseLatLon(lat, "N", lon, "E") == (Some(48.0 + 7.038 / 60.0), Some(11.0 + 31.0 / 60.0))
  {
    ParseLatitudeField(lat);
    ParseLongitudeField(lon);
    PackedRoundTrip(48, 7.038);
    PackedRoundTrip(11, 31.0);
  }

  /** An empty latitude field, as in a sentence sent before the receiver has a fix, fails the whole call. */
  lemma ExampleEmptyField(latDir: string, lon: string, lonDir: string)
    ensures ParseLatLon("", latDir, lon, lonDir) == (None, None)
  {
  }
}
