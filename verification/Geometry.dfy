/**
  Polygon bounds and containment, over exact real numbers.  A point or vertex is a (latitude,
  longitude) pair.
*/
module Geometry {
  import opened Wrappers

  const EPSILON: real := 0.000000001

  datatype Point = Point(lat: real, lon: real)

  datatype Bounds = Bounds(minLat: real, maxLat: real, minLon: real, maxLon: real)

  datatype Edge = Edge(start: Point, end: Point)

  function Min(a: real, b: real): real {
    if a <= b then a else b
  }

  function Max(a: real, b: real): real {
    if a <= b then b else a
  }

  function Abs(a: real): real {
    if a < 0.0 then -a else a
  }

  predicate Contains(b: Bounds, p: Point) {
    b.minLat <= p.lat <= b.maxLat && b.minLon <= p.lon <= b.maxLon
  }

  /** The smallest box around the points. */
  ghost predicate IsBoundsOf(b: Bounds, points: seq<Point>) {
    && (forall i :: 0 <= i < |points| ==> Contains(b, points[i]))
    && (exists i :: 0 <= i < |points| && points[i].lat == b.minLat)
    && (exists i :: 0 <= i < |points| && points[i].lat == b.maxLat)
    && (exists i :: 0 <= i < |points| && points[i].lon == b.minLon)
    && (exists i :: 0 <= i < |points| && points[i].lon == b.maxLon)
  }

  method PolygonBounds(points: seq<Point>) returns (r: Option<Bounds>)
    ensures r.None? <==> points == []
    ensures r.Some? ==> IsBoundsOf(r.value, points)
  {
    if |points| == 0 {
      return None;
    }
    var first := points[0];
    var b := Bounds(first.lat, first.lat, first.lon, first.lon);
    for i := 1 to |points|
      invariant IsBoundsOf(b, points[..i])
    {
      var p := points[i];
      ghost var before := b;
      b := Bounds(Min(b.minLat, p.lat), Max(b.maxLat, p.lat), Min(b.minLon, p.lon), Max(b.maxLon, p.lon));
      assert points[..i + 1] == points[..i] + [p];
      BoundsGrow(before, points[..i], p, b);
    }
    assert points[..|points|] == points;
    r := Some(b);
  }

  lemma BoundsGrow(b: Bounds, points: seq<Point>, p: Point, b': Bounds)
    requires IsBoundsOf(b, points)
    requires b' == Bounds(Min(b.minLat, p.lat), Max(b.maxLat, p.lat), Min(b.minLon, p.lon), Max(b.maxLon, p.lon))
    ensures IsBoundsOf(b', points + [p])
  {
    var all := points + [p];
    var i :| 0 <= i < |points| && points[i].lat == b.minLat;
    var j :| 0 <= j < |points| && points[j].lat == b.maxLat;
    var k :| 0 <= k < |points| && points[k].lon == b.minLon;
    var l :| 0 <= l < |points| && points[l].lon == b.maxLon;
    assert all[i] == points[i] && all[j] == points[j] && all[k] == points[k] && all[l] == points[l] && all[|points|] == p;
  }

  // ---------------------------------------------------------------- edges

  function Cross(p: Point, e: Edge): real {
    (p.lat - e.start.lat) * (e.end.lon - e.start.lon) - (p.lon - e.start.lon) * (e.end.lat - e.start.lat)
  }

  /** `point_on_segment`: near the line, and in the segment's box widened by EPSILON. */
  predicate OnSegment(p: Point, e: Edge) {
    && Abs(Cross(p, e)) <= EPSILON
    && Min(e.start.lat, e.end.lat) - EPSILON <= p.lat <= Max(e.start.lat, e.end.lat) + EPSILON
    && Min(e.start.lon, e.end.lon) - EPSILON <= p.lon <= Max(e.start.lon, e.end.lon) + EPSILON
  }

  predicate Straddles(p: Point, e: Edge) {
    (e.end.lat > p.lat) != (e.start.lat > p.lat)
  }

  /** Where the edge's line meets the point's latitude. */
  function Intercept(p: Point, e: Edge): real
    requires Straddles(p, e)
  {
    (e.start.lon - e.end.lon) * (p.lat - e.end.lat) / (e.start.lat - e.end.lat) + e.end.lon
  }

  predicate Crosses(p: Point, e: Edge) {
    Straddles(p, e) && p.lon <= Intercept(p, e)
  }

  /** The ring's edges in the order the loop meets them; the first one closes the ring. */
  function Edges(polygon: seq<Point>): seq<Edge> {
    seq(|polygon|, i requires 0 <= i < |polygon| =>
      Edge(if i == 0 then polygon[|polygon| - 1] else polygon[i - 1], polygon[i]))
  }

  /** Whether an odd number of the edges is crossed by the eastward ray. */
  predicate OddCrossings(p: Point, es: seq<Edge>) {
    if es == [] then false else OddCrossings(p, es[..|es| - 1]) != Crosses(p, es[|es| - 1])
  }

  predicate OnBoundary(p: Point, es: seq<Edge>) {
    exists i :: 0 <= i < |es| && OnSegment(p, es[i])
  }

  /** Containment by the even-odd rule, boundary included. */
  predicate Inside(p: Point, polygon: seq<Point>) {
    3 <= |polygon| && (OnBoundary(p, Edges(polygon)) || OddCrossings(p, Edges(polygon)))
  }

  method PointInPolygon(p: Point, polygon: seq<Point>) returns (r: bool)
    ensures r == Inside(p, polygon)
    ensures |polygon| < 3 ==> !r
  {
    if |polygon| < 3 {
      return false;
    }
    var inside := false;
    var previous := polygon[|polygon| - 1];
    ghost var es := Edges(polygon);
    for i := 0 to |polygon|
      invariant previous == if i == 0 then polygon[|polygon| - 1] else polygon[i - 1]
      invariant inside == OddCrossings(p, es[..i])
      invariant forall k :: 0 <= k < i ==> !OnSegment(p, es[k])
    {
      var current := polygon[i];
      var e := Edge(previous, current);
      assert e == es[i] && es[..i + 1][..i] == es[..i];
      if OnSegment(p, e) {
        return true;
      }
      if Crosses(p, e) {
        inside := !inside;
      }
      previous := current;
    }
    assert es[..|polygon|] == es;
    r := inside;
  }

  // ---------------------------------------------------------------- the ray's intercept

  /** A straddling edge meets the latitude between its ends' longitudes. */
  lemma InterceptBetween(p: Point, e: Edge, lo: real, hi: real)
    requires Straddles(p, e)
    requires lo <= e.start.lon <= hi && lo <= e.end.lon <= hi
    ensures lo <= Intercept(p, e) <= hi
  {
    var num, den, width := p.lat - e.end.lat, e.start.lat - e.end.lat, e.start.lon - e.end.lon;
    var t := num / den;
    Fraction(num, den, t);
    Scaled(width, num, den, t);
    Convex(e.start.lon, e.end.lon, t, lo, hi);
  }

  lemma Fraction(num: real, den: real, t: real)
    requires den != 0.0 && t == num / den
    requires if den > 0.0 then 0.0 <= num <= den else den <= num <= 0.0
    ensures t * den == num && 0.0 <= t <= 1.0
  {
    assert t * den == num;
    if t < 0.0 {
      NegativeFactor(t, den);
    }
    if t > 1.0 {
      NegativeFactor(1.0 - t, den);
      assert (1.0 - t) * den == den - num;
    }
  }

  /** A negative factor turns the sign. */
  lemma NegativeFactor(a: real, b: real)
    requires a < 0.0
    ensures (b > 0.0 ==> a * b < 0.0) && (b < 0.0 ==> a * b > 0.0)
  {
  }

  lemma Scaled(width: real, num: real, den: real, t: real)
    requires den != 0.0 && t * den == num
    ensures width * num / den == width * t
  {
    var x, y := width * num, width * t;
    assert y * den == x;
    Cancel(x, y, den);
  }

  lemma Cancel(x: real, y: real, den: real)
    requires den != 0.0 && y * den == x
    ensures x / den == y
  {
  }

  lemma Convex(a: real, b: real, t: real, lo: real, hi: real)
    requires 0.0 <= t <= 1.0 && lo <= a <= hi && lo <= b <= hi
    ensures lo <= (a - b) * t + b <= hi
  {
    var d := a - b;
    var p := d * t;
    Part(d, t, p);
    Between(a, b, d, p, lo, hi);
  }

  /** A fraction of `d` lies between zero and `d`. */
  lemma Part(d: real, t: real, p: real)
    requires 0.0 <= t <= 1.0 && p == d * t
    ensures 0.0 <= p <= d || d <= p <= 0.0
  {
    var q := d * (1.0 - t);
    assert p + q == d;
    SameSign(d, t, p);
    SameSign(d, 1.0 - t, q);
  }

  lemma SameSign(d: real, t: real, p: real)
    requires 0.0 <= t && p == d * t
    ensures (d >= 0.0 ==> p >= 0.0) && (d <= 0.0 ==> p <= 0.0)
  {
  }

  lemma Between(a: real, b: real, d: real, p: real, lo: real, hi: real)
    requires d == a - b && (0.0 <= p <= d || d <= p <= 0.0) && lo <= a <= hi && lo <= b <= hi
    ensures lo <= p + b <= hi
  {
  }

  // ---------------------------------------------------------------- crossings and boundary, in coordinates

  /** The point of the edge's line at parameter `t`, 0 at its start and 1 at its end. */
  function Along(e: Edge, t: real): Point {
    Point(e.start.lat + t * (e.end.lat - e.start.lat), e.start.lon + t * (e.end.lon - e.start.lon))
  }

  /** An edge is crossed exactly if the latitude lies between its ends, the lower end included and the upper not, and
      some point of the edge at that latitude is not west of the point. */
  lemma CrossesExactly(p: Point, e: Edge)
    ensures Crosses(p, e) <==>
              && (e.start.lat <= p.lat < e.end.lat || e.end.lat <= p.lat < e.start.lat)
              && exists t :: 0.0 <= t <= 1.0 && Along(e, t).lat == p.lat && p.lon <= Along(e, t).lon
  {
    if Straddles(p, e) {
      var num, den := p.lat - e.start.lat, e.end.lat - e.start.lat;
      var t := num / den;
      Fraction(num, den, t);
      InterceptAlong(p, e, t);
      forall u | Along(e, u).lat == p.lat ensures u == t {
        SameParameter(den, u, t);
      }
    }
  }

  lemma SameParameter(d: real, u: real, t: real)
    requires d != 0.0 && u * d == t * d
    ensures u == t
  {
    Cancel(t * d, u, d);
    Cancel(t * d, t, d);
  }

  /** The crossing longitude is that of the edge's point at the latitude. */
  lemma InterceptAlong(p: Point, e: Edge, t: real)
    requires Straddles(p, e) && t * (e.end.lat - e.start.lat) == p.lat - e.start.lat
    ensures Along(e, t).lat == p.lat && Intercept(p, e) == Along(e, t).lon
  {
    var width, num, den := e.start.lon - e.end.lon, p.lat - e.end.lat, e.start.lat - e.end.lat;
    var s := 1.0 - t;
    assert s * den == num by {
      assert s * den == den - t * den;
    }
    Scaled(width, num, den, s);
    assert width * s == width - width * t;
    assert width * t == -(t * (e.end.lon - e.start.lon));
  }

  /** The cross product of a point measures its offset from the edge's line: seen from the start, go `s` times the
      edge along and `r` times the edge, turned by a right angle, aside. */
  lemma CrossMeasuresOffset(e: Edge, s: real, r: real)
    ensures var u, v := e.end.lat - e.start.lat, e.end.lon - e.start.lon;
            Cross(Point(e.start.lat + s * u + r * v, e.start.lon + s * v - r * u), e) == r * (u * u + v * v)
  {
    var u, v := e.end.lat - e.start.lat, e.end.lon - e.start.lon;
    OffsetAlgebra(u, v, s, r);
  }

  lemma OffsetAlgebra(u: real, v: real, s: real, r: real)
    ensures (s * u + r * v) * v - (s * v - r * u) * u == r * (u * u + v * v)
  {
    assert (s * u + r * v) * v == s * u * v + r * v * v;
    assert (s * v - r * u) * u == s * v * u - r * u * u;
  }

  /** Every point of an edge is on it. */
  lemma EdgeIsOnSegment(e: Edge, t: real)
    requires 0.0 <= t <= 1.0
    ensures OnSegment(Along(e, t), e)
  {
    var u, v := e.end.lat - e.start.lat, e.end.lon - e.start.lon;
    CrossMeasuresOffset(e, t, 0.0);
    Part(u, t, u * t);
    Part(v, t, v * t);
    assert u * t == t * u && v * t == t * v;
  }

  /** A point is on an edge exactly if it lies within 0.000000001 of the edge's box and its cross product does of zero. */
  lemma OnSegmentExactly(p: Point, e: Edge)
    ensures OnSegment(p, e) <==>
              && -0.000000001 <= Cross(p, e) <= 0.000000001
              && (e.start.lat <= p.lat + 0.000000001 || e.end.lat <= p.lat + 0.000000001)
              && (p.lat <= e.start.lat + 0.000000001 || p.lat <= e.end.lat + 0.000000001)
              && (e.start.lon <= p.lon + 0.000000001 || e.end.lon <= p.lon + 0.000000001)
              && (p.lon <= e.start.lon + 0.000000001 || p.lon <= e.end.lon + 0.000000001)
  {
  }

  /** For each edge whether the ray to the east crosses it. */
  ghost function Crossed(p: Point, es: seq<Edge>): seq<bool> {
    seq(|es|, i requires 0 <= i < |es| => Crosses(p, es[i]))
  }

  ghost function Places(flags: seq<bool>): set<int> {
    set i | 0 <= i < |flags| && flags[i]
  }

  lemma OnePlaceMore(flags: seq<bool>, flag: bool)
    ensures |Places(flags + [flag])| == |Places(flags)| + if flag then 1 else 0
  {
    assert Places(flags + [flag]) == Places(flags) + if flag then {|flags|} else {};
  }

  /** Odd means that the edges crossed are odd in number. */
  lemma {:induction false} OddCrossingsCount(p: Point, es: seq<Edge>)
    ensures OddCrossings(p, es) <==> |Places(Crossed(p, es))| % 2 == 1
  {
    if es != [] {
      var init, last := es[..|es| - 1], Crosses(p, es[|es| - 1]);
      OddCrossingsCount(p, init);
      OnePlaceMore(Crossed(p, init), last);
      assert Crossed(p, es) == Crossed(p, init) + [last];
    }
  }

  // ---------------------------------------------------------------- straddles of a closed ring

  predicate OddStraddles(p: Point, es: seq<Edge>) {
    if es == [] then false else OddStraddles(p, es[..|es| - 1]) != Straddles(p, es[|es| - 1])
  }

  lemma {:induction false} ChainStraddles(p: Point, polygon: seq<Point>, i: nat)
    requires 0 < i <= |polygon|
    ensures OddStraddles(p, Edges(polygon)[..i]) <==> (polygon[i - 1].lat > p.lat) != (polygon[|polygon| - 1].lat > p.lat)
  {
    var es := Edges(polygon);
    if i == 1 {
      assert es[..1][..0] == [];
    } else {
      ChainStraddles(p, polygon, i - 1);
      assert es[..i][..i - 1] == es[..i - 1];
    }
  }

  /** A closed ring straddles any latitude an even number of times. */
  lemma RingStraddlesEvenly(p: Point, polygon: seq<Point>)
    requires polygon != []
    ensures !OddStraddles(p, Edges(polygon))
  {
    ChainStraddles(p, polygon, |polygon|);
    assert Edges(polygon)[..|polygon|] == Edges(polygon);
  }

  /** West of every vertex each straddling edge is crossed. */
  lemma {:induction false} WestCrossesAll(p: Point, es: seq<Edge>, west: real)
    requires p.lon < west && forall i :: 0 <= i < |es| ==> west <= es[i].start.lon && west <= es[i].end.lon
    ensures OddCrossings(p, es) == OddStraddles(p, es)
  {
    if es != [] {
      WestCrossesAll(p, es[..|es| - 1], west);
      var e := es[|es| - 1];
      if Straddles(p, e) {
        InterceptBetween(p, e, west, Max(e.start.lon, e.end.lon));
      }
    }
  }

  lemma {:induction false} SomeEdgeCrossed(p: Point, es: seq<Edge>)
    requires OddCrossings(p, es)
    ensures exists i :: 0 <= i < |es| && Crosses(p, es[i])
  {
    var n := |es| - 1;
    if !Crosses(p, es[n]) {
      SomeEdgeCrossed(p, es[..n]);
      var i :| 0 <= i < n && Crosses(p, es[..n][i]);
      assert Crosses(p, es[i]);
    }
  }

  // ---------------------------------------------------------------- containment implies bounds

  /** Every point the polygon contains lies in the polygon's bounds widened by EPSILON, and off the
      boundary in the bounds themselves. */
  lemma InsideImpliesBounds(p: Point, polygon: seq<Point>, b: Bounds)
    requires Inside(p, polygon) && IsBoundsOf(b, polygon)
    ensures b.minLat - 0.000000001 <= p.lat <= b.maxLat + 0.000000001 && b.minLon - 0.000000001 <= p.lon <= b.maxLon + 0.000000001
    ensures !OnBoundary(p, Edges(polygon)) ==> b.minLat <= p.lat <= b.maxLat && b.minLon <= p.lon <= b.maxLon
  {
    var es := Edges(polygon);
    assert forall i :: 0 <= i < |es| ==> Contains(b, es[i].start) && Contains(b, es[i].end);
    if OnBoundary(p, es) {
      var i :| 0 <= i < |es| && OnSegment(p, es[i]);
      assert Contains(b, es[i].start) && Contains(b, es[i].end);
    } else {
      SomeEdgeCrossed(p, es);
      var i :| 0 <= i < |es| && Crosses(p, es[i]);
      InterceptBetween(p, es[i], b.minLon, b.maxLon);
      if p.lon < b.minLon {
        WestCrossesAll(p, es, b.minLon);
        RingStraddlesEvenly(p, polygon);
      }
    }
  }

  // ---------------------------------------------------------------- choice of the first vertex

  lemma {:induction false} OddCrossingsConcat(p: Point, xs: seq<Edge>, ys: seq<Edge>)
    ensures OddCrossings(p, xs + ys) == (OddCrossings(p, xs) != OddCrossings(p, ys))
  {
    if ys == [] {
      assert xs + ys == xs;
    } else {
      OddCrossingsConcat(p, xs, ys[..|ys| - 1]);
      assert (xs + ys)[..|xs + ys| - 1] == xs + ys[..|ys| - 1];
    }
  }

  lemma OnBoundaryConcat(p: Point, xs: seq<Edge>, ys: seq<Edge>)
    ensures OnBoundary(p, xs + ys) <==> OnBoundary(p, xs) || OnBoundary(p, ys)
  {
    var all := xs + ys;
    assert forall i :: 0 <= i < |xs| ==> all[i] == xs[i];
    assert forall i :: 0 <= i < |ys| ==> all[|xs| + i] == ys[i];
    assert forall i :: |xs| <= i < |all| ==> all[i] == ys[i - |xs|];
  }

  lemma EdgesRotate(polygon: seq<Point>, k: nat)
    requires k <= |polygon|
    ensures Edges(polygon[k..] + polygon[..k]) == Edges(polygon)[k..] + Edges(polygon)[..k]
  {
  }

  /** Starting the ring at another vertex does not change what it contains. */
  lemma RotationKeepsInside(p: Point, polygon: seq<Point>, k: nat)
    requires k <= |polygon|
    ensures Inside(p, polygon[k..] + polygon[..k]) == Inside(p, polygon)
  {
    var es := Edges(polygon);
    EdgesRotate(polygon, k);
    assert es == es[..k] + es[k..];
    OddCrossingsConcat(p, es[..k], es[k..]);
    OddCrossingsConcat(p, es[k..], es[..k]);
    OnBoundaryConcat(p, es[..k], es[k..]);
    OnBoundaryConcat(p, es[k..], es[..k]);
  }

  // ---------------------------------------------------------------- a repeated first vertex

  lemma EdgesClosed(polygon: seq<Point>)
    requires polygon != []
    ensures var es := Edges(polygon);
            Edges(polygon + [polygon[0]]) == [Edge(polygon[0], polygon[0])] + (es[1..] + es[..1])
  {
  }

  /** A ring that repeats its first vertex contains the same points, and those within EPSILON of that vertex. */
  lemma RepeatedVertex(p: Point, polygon: seq<Point>)
    requires 3 <= |polygon|
    ensures Inside(p, polygon + [polygon[0]]) <==> Inside(p, polygon) || OnSegment(p, Edge(polygon[0], polygon[0]))
  {
    var es, dot := Edges(polygon), Edge(polygon[0], polygon[0]);
    EdgesClosed(polygon);
    assert es == es[..1] + es[1..];
    assert [dot][..0] == [] && OddCrossings(p, [dot]) == false;
    OddCrossingsConcat(p, [dot], es[1..] + es[..1]);
    OddCrossingsConcat(p, es[1..], es[..1]);
    OddCrossingsConcat(p, es[..1], es[1..]);
    OnBoundaryConcat(p, [dot], es[1..] + es[..1]);
    OnBoundaryConcat(p, es[1..], es[..1]);
    OnBoundaryConcat(p, es[..1], es[1..]);
    assert OnBoundary(p, [dot]) <==> OnSegment(p, dot) by {
      assert [dot][0] == dot;
    }
  }
}
