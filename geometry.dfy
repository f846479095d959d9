/** The plane distance used to rank bus stops, and the conversion of a distance in degrees
    to whole metres used to display a stop.

    The source computes `Math.sqrt(Math.pow(latDiff, 2) + Math.pow(lonDiff, 2))`. Reals have
    no square root here, so the model keeps the SQUARED distance and proves that everything
    the source derives from the distance (its comparator, its rounded metres) is determined
    by the square in the same way. */
module Geometry {

  /** A point in decimal degrees. */
  datatype LatLon = LatLon(lat: real, lon: real)

  /** A non-negative real: a squared distance. */
  type SquaredDegrees = r: real | 0.0 <= r

  /** Metres per degree the display applies: `111.139 * 1000`. */
  const MetresPerDegree: nat := 111139

  lemma PositiveProduct(a: real, b: real)
    requires a > 0.0 && b > 0.0
    ensures a * b > 0.0
  {
  }

  lemma SumOfSquaresNonNegative(a: real, b: real)
    ensures a * a + b * b >= 0.0
  {
  }

  /** `latDiff^2 + lonDiff^2`: the square of the source's plane distance; a stop at the
      reference point is at distance zero. */
  function SquaredDistance(p: LatLon, q: LatLon): (d: SquaredDegrees)
    ensures p == q ==> d == 0.0
  {
    SumOfSquaresNonNegative(p.lat - q.lat, p.lon - q.lon);
    (p.lat - q.lat) * (p.lat - q.lat) + (p.lon - q.lon) * (p.lon - q.lon)
  }

  lemma ProductPositive(s: real, a: real, b: real)
    requires a > 0.0 && b > 0.0 && s == a * b
    ensures s > 0.0
  {
  }

  lemma SquarePositive(s: real, x: real)
    requires x != 0.0 && s == x * x
    ensures s > 0.0
  {
    if x > 0.0 {
      ProductPositive(s, x, x);
    } else {
      assert x * x == (-x) * (-x);
      ProductPositive(s, -x, -x);
    }
  }

  lemma SumPositive(s: real, u: real, v: real)
    requires s == u + v && u >= 0.0 && v >= 0.0 && (u > 0.0 || v > 0.0)
    ensures s > 0.0
  {
  }

  /** The distance is zero exactly when the stop lies on the reference point. */
  lemma SquaredDistanceZeroIff(p: LatLon, q: LatLon)
    ensures SquaredDistance(p, q) == 0.0 <==> p == q
  {
    var dLat, dLon := p.lat - q.lat, p.lon - q.lon;
    if p != q {
      if dLat != 0.0 {
        SquarePositive(dLat * dLat, dLat);
      } else {
        SquarePositive(dLon * dLon, dLon);
      }
      SumPositive(SquaredDistance(p, q), dLat * dLat, dLon * dLon);
    }
  }

  /** Swapping the reference point and the stop does not change the distance. */
  lemma SquaredDistanceSymmetric(p: LatLon, q: LatLon)
    ensures SquaredDistance(p, q) == SquaredDistance(q, p)
  {
    NegatedSquare(p.lat - q.lat);
    NegatedSquare(p.lon - q.lon);
  }

  lemma NegatedSquare(x: real)
    ensures (-x) * (-x) == x * x
  {
  }

  /** The comparator of `sortDistanceArray`: -1, 0 or 1 as `x` is below, equal to or above `y`. */
  function Compare(x: real, y: real): (c: int)
    ensures -1 <= c <= 1
    ensures c < 0 <==> x < y
    ensures c == 0 <==> x == y
  {
    if x < y then -1 else if x == y then 0 else 1
  }

  lemma SquareMonotone(a: real, b: real)
    requires 0.0 <= a && 0.0 <= b
    ensures a < b <==> a * a < b * b
    ensures a == b <==> a * a == b * b
  {
    if a < b {
      SquareStrictlyMonotone(a, b);
    } else if b < a {
      SquareStrictlyMonotone(b, a);
    }
  }

  lemma SquareStrictlyMonotone(a: real, b: real)
    requires 0.0 <= a < b
    ensures a * a < b * b
  {
    assert b * b - a * a == (b - a) * (b + a);
    PositiveProduct(b - a, b + a);
  }

  /** Comparing two plane distances, as the source does, gives the same answer as comparing
      their squares, as the model does; so both orders of the stops are the same. */
  lemma CompareOfSquares(d1: real, d2: real)
    requires 0.0 <= d1 && 0.0 <= d2
    ensures Compare(d1 * d1, d2 * d2) == Compare(d1, d2)
  {
    SquareMonotone(d1, d2);
  }

  /** The integer square root. */
  function IntSqrt(n: nat): (r: nat)
    ensures r * r <= n < (r + 1) * (r + 1)
    decreases n
  {
    if n == 0 then 0
    else
      var h := IntSqrt(n / 4);
      RootStep(n, h);
      if (2 * h + 1) * (2 * h + 1) <= n then 2 * h + 1 else 2 * h
  }

  /** The root of `n` is twice the root of `n / 4`, or one more. */
  lemma RootStep(n: nat, h: nat)
    requires h * h <= n / 4 < (h + 1) * (h + 1)
    ensures var r := if (2 * h + 1) * (2 * h + 1) <= n then 2 * h + 1 else 2 * h;
      r * r <= n < (r + 1) * (r + 1)
  {
    assert 4 * (h * h) <= n by {
      assert 4 * (h * h) <= 4 * (n / 4);
    }
    assert n < 4 * ((h + 1) * (h + 1)) by {
      assert n / 4 + 1 <= (h + 1) * (h + 1);
    }
    assert (2 * h) * (2 * h) == 4 * (h * h);
    assert (2 * h + 2) * (2 * h + 2) == 4 * ((h + 1) * (h + 1));
  }

  /** `4 * K^2 * d2` where `K` is `MetresPerDegree`: the square of twice the distance in metres. */
  function TwiceMetresSquared(d2: SquaredDegrees): (t: real)
    ensures t >= 0.0
  {
    4.0 * (MetresPerDegree * MetresPerDegree) as real * d2
  }

  /** `Math.round(distance * 111.139 * 1000)`, computed from the squared distance: the `m`
      with `m - 1/2 <= D*K < m + 1/2` for `D` the distance, stated with squares. */
  function RoundedMetres(d2: SquaredDegrees): (m: nat)
    ensures m == 0 || ((2 * m - 1) * (2 * m - 1)) as real <= TwiceMetresSquared(d2)
    ensures TwiceMetresSquared(d2) < ((2 * m + 1) * (2 * m + 1)) as real
  {
    var t := TwiceMetresSquared(d2);
    var r := IntSqrt(t.Floor);
    RoundedRootBounds(t, r);
    (r + 1) / 2
  }

  /** Halving the integer root of `floor(t)`, rounding up, gives the bounds `RoundedMetres` promises. */
  lemma RoundedRootBounds(t: real, r: nat)
    requires t >= 0.0 && r * r <= t.Floor < (r + 1) * (r + 1)
    ensures var m := (r + 1) / 2;
      && (m == 0 || ((2 * m - 1) * (2 * m - 1)) as real <= t)
      && t < ((2 * m + 1) * (2 * m + 1)) as real
  {
    var m := (r + 1) / 2;
    MulMonotone(r + 1, 2 * m + 1);
    if m >= 1 {
      MulMonotone(2 * m - 1, r);
    }
  }

  lemma MulMonotone(a: nat, b: nat)
    requires a <= b
    ensures a * a <= b * b
  {
    assert a * a <= a * b;
  }

  /** The two bounds of `RoundedMetres` single out one number. */
  lemma RoundedMetresUnique(d2: SquaredDegrees, m: nat)
    requires m == 0 || ((2 * m - 1) * (2 * m - 1)) as real <= TwiceMetresSquared(d2)
    requires TwiceMetresSquared(d2) < ((2 * m + 1) * (2 * m + 1)) as real
    ensures m == RoundedMetres(d2)
  {
    var n := RoundedMetres(d2);
    if m < n {
      MulMonotone(2 * m + 1, 2 * n - 1);
    } else if n < m {
      MulMonotone(2 * n + 1, 2 * m - 1);
    }
  }

  /** For the distance `d` itself (any `d >= 0` whose square is `d2`), `RoundedMetres` is
      `floor(d * 111139 + 0.5)`, which is what `Math.round` returns. */
  lemma RoundedMetresOfDistance(d: real)
    requires 0.0 <= d
    ensures RoundedMetres(d * d) == (d * MetresPerDegree as real + 0.5).Floor
  {
    var x := d * MetresPerDegree as real;
    var m := (x + 0.5).Floor;
    assert 0 <= m;
    assert TwiceMetresSquared(d * d) == (2.0 * x) * (2.0 * x);
    assert 2.0 * x < (2 * m + 1) as real;
    SquareMonotone(2.0 * x, (2 * m + 1) as real);
    if m >= 1 {
      assert ((2 * m - 1) as real) <= 2.0 * x;
      SquareMonotone((2 * m - 1) as real, 2.0 * x);
    }
    RoundedMetresUnique(d * d, m);
  }
}
