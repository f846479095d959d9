/** `BusStop`: one catalog stop with its distance from the reference point, and its display line
    `nameTc + " " + <rounded metres> + "m"`. */
module BusStops {
  import opened Geometry
  import opened Decimal

  /** The seven fields of a `BusStop`. The distance is kept as its square (see `Geometry`). */
  datatype StopFields = StopFields(
    stopID: string,
    nameEn: string,
    nameTc: string,
    nameSc: string,
    lat: string,
    lon: string,
    distance: SquaredDegrees)

  /** The display line of `toString`, from the fields. */
  function Label(f: StopFields): string {
    f.nameTc + " " + DecimalString(RoundedMetres(f.distance)) + "m"
  }

  /** The line is the traditional Chinese name, one space, the rounded distance in whole metres
      as decimal digits, and "m"; reading the digits back gives the rounded metres. */
  lemma LabelParts(f: StopFields)
    ensures var s := Label(f);
      var digits := s[|f.nameTc| + 1 .. |s| - 1];
      && |s| >= |f.nameTc| + 3
      && s[..|f.nameTc|] == f.nameTc
      && s[|f.nameTc|] == ' '
      && s[|s| - 1] == 'm'
      && AllDigits(digits)
      && DecimalValue(digits) == RoundedMetres(f.distance)
  {
    var s := Label(f);
    var n := DecimalString(RoundedMetres(f.distance));
    assert s == f.nameTc + [' '] + n + ['m'];
    assert s[|f.nameTc| + 1 .. |s| - 1] == n;
    DecimalRoundTrip(RoundedMetres(f.distance));
  }

  /** Two stops with the same name and distance show the same line; the stop id, the other names
      and the coordinates play no part. */
  lemma LabelDependsOnNameAndDistance(f: StopFields, g: StopFields)
    ensures Label(f) == Label(g) <==> f.nameTc == g.nameTc && RoundedMetres(f.distance) == RoundedMetres(g.distance)
  {
    LabelParts(f);
    LabelParts(g);
    if Label(f) == Label(g) {
      LabelSplit(f.nameTc, g.nameTc, DecimalString(RoundedMetres(f.distance)), DecimalString(RoundedMetres(g.distance)));
      DecimalStringInjective(RoundedMetres(f.distance), RoundedMetres(g.distance));
    }
  }

  /** A name followed by a space and a numeral splits back into the same name and numeral: the
      name cannot absorb digits because the numeral comes after the last space. */
  lemma LabelSplit(a: string, b: string, m: string, n: string)
    requires AllDigits(m) && AllDigits(n)
    requires a + " " + m + "m" == b + " " + n + "m"
    ensures a == b && m == n
  {
    var s := a + " " + m + "m";
    assert forall i :: |a| < i < |s| ==> s[i] != ' ' by {
      forall i | |a| < i < |s| ensures s[i] != ' ' {
        if i < |s| - 1 { assert s[i] == m[i - |a| - 1]; }
      }
    }
    assert forall i :: |b| < i < |s| ==> s[i] != ' ' by {
      forall i | |b| < i < |s| ensures s[i] != ' ' {
        if i < |s| - 1 { assert s[i] == n[i - |b| - 1]; }
      }
    }
    assert s[|a|] == ' ' && s[|b|] == ' ';
    assert |a| == |b|;
    assert a == s[..|a|] && b == s[..|b|];
    assert m == s[|a| + 1 .. |s| - 1] && n == s[|b| + 1 .. |s| - 1];
  }

  /** `Math.round(d * 111.139 * 1000)` for the stop's distance `d` (the non-negative root of the
      stored square): the largest integer at most `d * 111139 + 1/2`. */
  lemma LabelForDistance(f: StopFields, d: real)
    requires 0.0 <= d && d * d == f.distance
    ensures var m := (d * MetresPerDegree as real + 0.5).Floor;
      m >= 0 && Label(f) == f.nameTc + " " + DecimalString(m) + "m"
  {
    RoundedMetresOfDistance(d);
  }

  /** A `BusStop` object. Getters are the fields of `Fields()`; each setter replaces one field. */
  class BusStop {
    var stopID: string
    var nameEn: string
    var nameTc: string
    var nameSc: string
    var lat: string
    var lon: string
    var distance: SquaredDegrees

    function Fields(): StopFields
      reads this
    {
      StopFields(stopID, nameEn, nameTc, nameSc, lat, lon, distance)
    }

    /** `new BusStop()`: the Java fields start as `null`, here as empty strings and distance 0. */
    constructor ()
      ensures Fields() == StopFields("", "", "", "", "", "", 0.0)
    {
      stopID, nameEn, nameTc, nameSc, lat, lon, distance := "", "", "", "", "", "", 0.0;
    }

    method SetStopID(v: string)
      modifies this
      ensures Fields() == old(Fields()).(stopID := v)
    {
      stopID := v;
    }

    method SetNameEn(v: string)
      modifies this
      ensures Fields() == old(Fields()).(nameEn := v)
    {
      nameEn := v;
    }

    method SetNameTc(v: string)
      modifies this
      ensures Fields() == old(Fields()).(nameTc := v)
    {
      nameTc := v;
    }

    method SetNameSc(v: string)
      modifies this
      ensures Fields() == old(Fields()).(nameSc := v)
    {
      nameSc := v;
    }

    method SetLat(v: string)
      modifies this
      ensures Fields() == old(Fields()).(lat := v)
    {
      lat := v;
    }

    method SetLon(v: string)
      modifies this
      ensures Fields() == old(Fields()).(lon := v)
    {
      lon := v;
    }

    method SetDistance(v: SquaredDegrees)
      modifies this
      ensures Fields() == old(Fields()).(distance := v)
    {
      distance := v;
    }

    /** `toString()`: the traditional Chinese name, a space, the digits of the rounded metres,
        and "m". */
    function ToString(): (s: string)
      reads this
      ensures |s| >= |nameTc| + 3 && s[..|nameTc|] == nameTc && s[|nameTc|] == ' ' && s[|s| - 1] == 'm'
      ensures AllDigits(s[|nameTc| + 1 .. |s| - 1]) && DecimalValue(s[|nameTc| + 1 .. |s| - 1]) == RoundedMetres(distance)
    {
      LabelParts(Fields());
      Label(Fields())
    }
  }
}
