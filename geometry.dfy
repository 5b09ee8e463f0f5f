/**
 * Coordinates and the numeric primitives of the hotspot and target
 * computations: means of coordinate columns and `np.max` of distances.
 * Floating point is modelled by exact real arithmetic.
 */
module Geometry {

  /** A latitude/longitude pair in degrees. */
  datatype Coord = Coord(lat: real, lon: real)

  /**
   * Great-circle distance in kilometres between two coordinates given in
   * degrees (`haversine_distances` on `np.radians` of both, times 6371).
   * The trigonometry itself is not part of this model.
   */
  type Distance = (Coord, Coord) -> real

  /** One field of the geolocation widget's answer: a missing key, a null value, or a number. */
  datatype Field = Missing | Null | Value(x: real)


  /** The dictionary `streamlit_geolocation()` returns; `None` for the whole answer is `Option.None`. */
  datatype Location = Location(latitude: Field, longitude: Field)

  /** The same point with its longitude negated: the sign flip between stored and drawn longitudes. */
  function Mirror(p: Coord): Coord
  {
    Coord(p.lat, -p.lon)
  }

  function Sum(xs: seq<real>): real
  {
    if xs == [] then 0.0 else xs[0] + Sum(xs[1..])
  }

  /** `Series.mean()` of a non-empty column. */
  function Mean(xs: seq<real>): real
    requires |xs| > 0
  {
    Sum(xs) / (|xs| as real)
  }

  /** `np.max`: the largest element, which is one of the elements. */
  function Max(xs: seq<real>): (m: real)
    requires |xs| > 0
    ensures forall k :: 0 <= k < |xs| ==> xs[k] <= m
    ensures exists k :: 0 <= k < |xs| && xs[k] == m
  {
    if |xs| == 1 then xs[0]
    else
      var rest := Max(xs[1..]);
      assert forall k :: 1 <= k < |xs| ==> xs[k] == xs[1..][k - 1];
      if xs[0] < rest then rest else xs[0]
  }

  /** The smallest element, which is one of the elements. */
  function Min(xs: seq<real>): (m: real)
    requires |xs| > 0
    ensures forall k :: 0 <= k < |xs| ==> m <= xs[k]
    ensures exists k :: 0 <= k < |xs| && xs[k] == m
  {
    if |xs| == 1 then xs[0]
    else
      var rest := Min(xs[1..]);
      assert forall k :: 1 <= k < |xs| ==> xs[k] == xs[1..][k - 1];
      if rest < xs[0] then rest else xs[0]
  }

  /** The latitude column of a list of points. */
  function Lats(ps: seq<Coord>): (r: seq<real>)
    ensures |r| == |ps| && forall k :: 0 <= k < |ps| ==> r[k] == ps[k].lat
  {
    seq(|ps|, k requires 0 <= k < |ps| => ps[k].lat)
  }

  /** The longitude column of a list of points. */
  function Lons(ps: seq<Coord>): (r: seq<real>)
    ensures |r| == |ps| && forall k :: 0 <= k < |ps| ==> r[k] == ps[k].lon
  {
    seq(|ps|, k requires 0 <= k < |ps| => ps[k].lon)
  }

  /** `cluster_points.mean().values`: the column-wise arithmetic mean of the points. */
  function Centroid(ps: seq<Coord>): Coord
    requires |ps| > 0
  {
    Coord(Mean(Lats(ps)), Mean(Lons(ps)))
  }

  /** The distance of every point to one fixed point. */
  function DistancesTo(ps: seq<Coord>, c: Coord, dist: Distance): (r: seq<real>)
    ensures |r| == |ps| && forall k :: 0 <= k < |ps| ==> r[k] == dist(ps[k], c)
  {
    seq(|ps|, k requires 0 <= k < |ps| => dist(ps[k], c))
  }

  lemma {:induction false} SumBounds(xs: seq<real>, lo: real, hi: real)
    requires forall k :: 0 <= k < |xs| ==> lo <= xs[k] <= hi
    ensures (|xs| as real) * lo <= Sum(xs) <= (|xs| as real) * hi
  {
    if xs != [] {
      assert forall k :: 0 <= k < |xs[1..]| ==> xs[1..][k] == xs[k + 1];
      SumBounds(xs[1..], lo, hi);
    }
  }

  /** A mean lies between the smallest and the largest element. */
  lemma MeanWithinBounds(xs: seq<real>)
    requires |xs| > 0
    ensures Min(xs) <= Mean(xs) <= Max(xs)
  {
    MeanBetween(xs, Min(xs), Max(xs));
  }

  lemma MeanBetween(xs: seq<real>, lo: real, hi: real)
    requires |xs| > 0
    requires forall k :: 0 <= k < |xs| ==> lo <= xs[k] <= hi
    ensures lo <= Mean(xs) <= hi
  {
    SumBounds(xs, lo, hi);
    QuotientBounds(Sum(xs), |xs| as real, lo, hi);
  }

  lemma QuotientBounds(s: real, n: real, lo: real, hi: real)
    requires n > 0.0 && n * lo <= s <= n * hi
    ensures lo <= s / n <= hi
  {
    var q := s / n;
    assert s == n * q;
  }

  lemma {:induction false} SumNegated(xs: seq<real>, ys: seq<real>)
    requires |xs| == |ys|
    requires forall k :: 0 <= k < |xs| ==> ys[k] == -xs[k]
    ensures Sum(ys) == -Sum(xs)
  {
    if xs != [] {
      assert forall k :: 0 <= k < |xs[1..]| ==> ys[1..][k] == -xs[1..][k];
      SumNegated(xs[1..], ys[1..]);
    }
  }

  /**
   * Negating the mean of the stored longitudes gives the mean of the negated
   * longitudes: the centroid of the mirrored points is the mirrored centroid.
   */
  lemma CentroidOfMirrored(ps: seq<Coord>)
    requires |ps| > 0
    ensures Centroid(seq(|ps|, k requires 0 <= k < |ps| => Mirror(ps[k]))) == Mirror(Centroid(ps))
  {
    var qs := seq(|ps|, k requires 0 <= k < |ps| => Mirror(ps[k]));
    assert Lats(qs) == Lats(ps);
    SumNegated(Lons(ps), Lons(qs));
    NegatedQuotient(Sum(Lons(ps)), |ps| as real);
    assert Mean(Lons(qs)) == -Mean(Lons(ps));
  }

  lemma NegatedQuotient(s: real, n: real)
    requires n != 0.0
    ensures (-s) / n == -(s / n)
  {
  }
}
