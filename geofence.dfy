/** The campus geofence of the report form: an even-odd ray-casting test of
    a point against a polygon given as (latitude, longitude) pairs. The
    point's latitude plays the role of `x` and its longitude of `y`; the
    edge that ends at vertex `i` starts at the previous vertex, cyclically.
    Coordinates are exact reals. */
module Geofence {

  datatype Vertex = Vertex(lat: real, lon: real)
  datatype Point = Point(latitude: real, longitude: real)

  /** The index of the vertex before `i`, wrapping to the last one. */
  function Prev(n: nat, i: nat): nat
    requires i < n
  {
    if i == 0 then n - 1 else i - 1
  }

  /** Whether the edge from `vj` to `vi` straddles the point's longitude and
      meets that longitude at a latitude beyond the point's. The first test
      guarantees the divisor is not zero. */
  function Crosses(p: Point, vi: Vertex, vj: Vertex): bool {
    (vi.lon > p.longitude) != (vj.lon > p.longitude)
    && p.latitude < (vj.lat - vi.lat) * (p.longitude - vi.lon) / (vj.lon - vi.lon) + vi.lat
  }

  function Bit(b: bool): nat {
    if b then 1 else 0
  }

  /** The number of crossing edges among those ending at vertices `0..k`. */
  function Crossings(p: Point, poly: seq<Vertex>, k: nat): nat
    requires k <= |poly|
  {
    if k == 0 then 0
    else Crossings(p, poly, k - 1) + Bit(Crosses(p, poly[k - 1], poly[Prev(|poly|, k - 1)]))
  }

  /** The even-odd rule: inside when an odd number of edges cross. */
  function Inside(p: Point, poly: seq<Vertex>): bool {
    Crossings(p, poly, |poly|) % 2 == 1
  }

  /** `isPointInPolygon`: one pass over the edges, flipping `inside` at each
      crossing. */
  method IsPointInPolygon(p: Point, polygon: seq<Vertex>) returns (inside: bool)
    ensures inside == Inside(p, polygon)
  {
    inside := false;
    var i := 0;
    var j := |polygon| - 1;
    while i < |polygon|
      invariant 0 <= i <= |polygon|
      invariant i < |polygon| ==> j == Prev(|polygon|, i)
      invariant inside == (Crossings(p, polygon, i) % 2 == 1)
    {
      var intersect := Crosses(p, polygon[i], polygon[j]);
      if intersect {
        inside := !inside;
      }
      j := i;
      i := i + 1;
    }
  }

  /** An edge whose two ends share a longitude never crosses; this covers
      the zero-length edge made by repeating the first vertex at the end. */
  lemma {:induction false} LevelEdgeNeverCrosses(p: Point, vi: Vertex, vj: Vertex)
    requires vi.lon == vj.lon
    ensures !Crosses(p, vi, vj)
  {
  }

  /** Both directions of one edge meet a given longitude at the same
      latitude. */
  lemma {:induction false} EdgeSymmetric(p: Point, a: Vertex, b: Vertex)
    ensures Crosses(p, a, b) == Crosses(p, b, a)
  {
    if (a.lon > p.longitude) != (b.lon > p.longitude) {
      var s, d, y := b.lat - a.lat, b.lon - a.lon, p.longitude;
      var fromB := (a.lat - b.lat) * (y - b.lon) / (a.lon - b.lon);
      var fromA := s * (y - a.lon) / d;
      NegatedQuotient(s * (y - b.lon), d);
      assert (a.lat - b.lat) * (y - b.lon) == -(s * (y - b.lon));
      assert fromB == s * (y - b.lon) / d;
      QuotientDifference(s, y - b.lon, y - a.lon, d);
      assert (y - b.lon) - (y - a.lon) == -d;
      ScaledQuotient(s, d);
      assert fromB - fromA == -s;
    }
  }

  lemma {:induction false} NegatedQuotient(x: real, d: real)
    requires d != 0.0
    ensures -x / -d == x / d
  {
  }

  lemma {:induction false} QuotientDifference(s: real, u: real, v: real, d: real)
    requires d != 0.0
    ensures s * u / d - s * v / d == s * (u - v) / d
  {
    assert s * u - s * v == s * (u - v);
  }

  lemma {:induction false} ScaledQuotient(s: real, d: real)
    requires d != 0.0
    ensures s * -d / d == -s
  {
    assert s * -d == -s * d;
  }

  /** A polygon of fewer than three vertices encloses nothing: with two
      vertices both edges are the same segment and cross together. */
  lemma {:induction false} DegeneratePolygonOutside(p: Point, poly: seq<Vertex>)
    requires |poly| < 3
    ensures !Inside(p, poly)
  {
    if |poly| == 1 {
      assert Crossings(p, poly, 1) == Bit(Crosses(p, poly[0], poly[0]));
    } else if |poly| == 2 {
      EdgeSymmetric(p, poly[0], poly[1]);
      assert Crossings(p, poly, 1) == Bit(Crosses(p, poly[0], poly[1]));
      assert Crossings(p, poly, 2) == Bit(Crosses(p, poly[0], poly[1])) + Bit(Crosses(p, poly[1], poly[0]));
    }
  }

  /** With no edge straddling the point's longitude nothing crosses. */
  lemma {:induction false} NoStraddleNoCrossing(p: Point, poly: seq<Vertex>, k: nat)
    requires k <= |poly|
    requires (forall v :: v in poly ==> v.lon > p.longitude) || (forall v :: v in poly ==> v.lon <= p.longitude)
    ensures Crossings(p, poly, k) == 0
  {
    if k > 0 {
      NoStraddleNoCrossing(p, poly, k - 1);
      assert poly[k - 1] in poly && poly[Prev(|poly|, k - 1)] in poly;
    }
  }

  lemma {:induction false} ProductSign(x: real, y: real)
    ensures x > 0.0 && y > 0.0 ==> x * y > 0.0
    ensures x < 0.0 && y > 0.0 ==> x * y < 0.0
    ensures x < 0.0 && y < 0.0 ==> x * y > 0.0
    ensures x > 0.0 && y < 0.0 ==> x * y < 0.0
  {
  }

  lemma {:induction false} RatioInUnit(a: real, b: real)
    requires (0.0 <= a <= b && b > 0.0) || (b <= a <= 0.0 && b < 0.0)
    ensures 0.0 <= a / b <= 1.0
  {
    var q := a / b;
    assert q * b == a;
    assert (q - 1.0) * b == q * b - b;
    ProductSign(q, b);
    ProductSign(q - 1.0, b);
  }

  lemma {:induction false} ScaleAtMost(c: real, t: real)
    requires 0.0 <= t <= 1.0
    ensures c >= 0.0 ==> c * t <= c
    ensures c < 0.0 ==> c * t <= 0.0
  {
    if c >= 0.0 {
      assert c * (1.0 - t) >= 0.0;
    }
  }

  /** A straddling edge meets the point's longitude at a latitude no greater
      than the larger of its two ends' latitudes. */
  lemma {:induction false} CrossingBetweenEnds(p: Point, vi: Vertex, vj: Vertex)
    requires (vi.lon > p.longitude) != (vj.lon > p.longitude)
    ensures var m := (vj.lat - vi.lat) * (p.longitude - vi.lon) / (vj.lon - vi.lon) + vi.lat;
      (m <= vi.lat || m <= vj.lat)
  {
    var n, d := p.longitude - vi.lon, vj.lon - vi.lon;
    RatioInUnit(n, d);
    var t := n / d;
    var c := vj.lat - vi.lat;
    assert c * n / d == c * t;
    ScaleAtMost(c, t);
  }

  lemma {:induction false} FarEdgeNoCrossing(p: Point, vi: Vertex, vj: Vertex)
    requires p.latitude >= vi.lat && p.latitude >= vj.lat
    ensures !Crosses(p, vi, vj)
  {
    if (vi.lon > p.longitude) != (vj.lon > p.longitude) {
      CrossingBetweenEnds(p, vi, vj);
      var m := (vj.lat - vi.lat) * (p.longitude - vi.lon) / (vj.lon - vi.lon) + vi.lat;
      assert m <= p.latitude;
    }
  }

  lemma {:induction false} FarLatitudeNoCrossing(p: Point, poly: seq<Vertex>, k: nat)
    requires k <= |poly|
    requires forall v :: v in poly ==> p.latitude >= v.lat
    ensures Crossings(p, poly, k) == 0
  {
    if k > 0 {
      FarLatitudeNoCrossing(p, poly, k - 1);
      var vi, vj := poly[k - 1], poly[Prev(|poly|, k - 1)];
      assert vi in poly && vj in poly;
      FarEdgeNoCrossing(p, vi, vj);
    }
  }

  /** A point whose longitude is at least every vertex's, or below every
      vertex's, or whose latitude is at least every vertex's, is outside. */
  lemma {:induction false} OutsideBoundingBox(p: Point, poly: seq<Vertex>)
    requires || (forall v :: v in poly ==> p.longitude >= v.lon)
             || (forall v :: v in poly ==> p.longitude < v.lon)
             || (forall v :: v in poly ==> p.latitude >= v.lat)
    ensures !Inside(p, poly)
  {
    if forall v :: v in poly ==> p.latitude >= v.lat {
      FarLatitudeNoCrossing(p, poly, |poly|);
    } else {
      NoStraddleNoCrossing(p, poly, |poly|);
    }
  }

  /** On a polygon closed by repeating its first vertex, the edges other
      than the closing pair agree with those of the open polygon. */
  lemma {:induction false} ClosedPrefix(p: Point, poly: seq<Vertex>, k: nat)
    requires |poly| >= 2 && poly[0] == poly[|poly| - 1]
    requires 1 <= k <= |poly| - 1
    ensures var open := poly[..|poly| - 1];
      Crossings(p, poly, k) + Bit(Crosses(p, poly[0], poly[|poly| - 2])) == Crossings(p, open, k)
  {
    var open := poly[..|poly| - 1];
    if k == 1 {
      LevelEdgeNeverCrosses(p, poly[0], poly[|poly| - 1]);
    } else {
      ClosedPrefix(p, poly, k - 1);
      assert open[k - 1] == poly[k - 1] && open[k - 2] == poly[k - 2];
    }
  }

  /** Repeating the first vertex at the end, as the campus constant does,
      does not change the answer. */
  lemma {:induction false} ClosingVertexIrrelevant(p: Point, poly: seq<Vertex>)
    requires |poly| >= 2 && poly[0] == poly[|poly| - 1]
    ensures Inside(p, poly) == Inside(p, poly[..|poly| - 1])
  {
    var n := |poly|;
    var open := poly[..n - 1];
    var c0 := Bit(Crosses(p, poly[0], poly[n - 2]));
    ClosedPrefix(p, poly, n - 1);
    assert Crossings(p, poly, n) == Crossings(p, poly, n - 1) + c0;
    assert Crossings(p, poly, n) == Crossings(p, open, n - 1);
  }

  /** The campus outline: six corners, the first repeated to close it. */
  const CampusPolygon: seq<Vertex> := [
    Vertex(19.022028, 72.869722),
    Vertex(19.021528, 72.872333),
    Vertex(19.0211667, 72.8722222),
    Vertex(19.020861, 72.871222),
    Vertex(19.0205556, 72.8705556),
    Vertex(19.020833, 72.869556),
    Vertex(19.022028, 72.869722)
  ]

  /** Example: a point in the middle of the campus is admitted. */
  lemma {:induction false} CampusAdmitsCentre()
    ensures Inside(Point(19.0213, 72.8710), CampusPolygon)
  {
    var p := Point(19.0213, 72.8710);
    var c := CampusPolygon;
    assert !Crosses(p, c[0], c[6]);
    assert Crosses(p, c[1], c[0]);
    assert !Crosses(p, c[2], c[1]);
    assert !Crosses(p, c[3], c[2]);
    assert !Crosses(p, c[4], c[3]);
    assert !Crosses(p, c[5], c[4]);
    assert !Crosses(p, c[6], c[5]);
    assert Crossings(p, c, 7) == 1;
  }

  /** Example: a point a few kilometres away is refused. */
  lemma {:induction false} CampusRefusesDistantPoint()
    ensures !Inside(Point(19.05, 72.90), CampusPolygon)
  {
    OutsideBoundingBox(Point(19.05, 72.90), CampusPolygon);
  }
}
