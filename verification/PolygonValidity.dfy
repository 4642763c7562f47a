/**
  Acceptance of LAT...LON polygons: the ring is closed, and rejected when two non-neighbouring
  edges cross.  Coordinates are exact reals.
*/
module PolygonValidity {
  import opened Wrappers
  import opened Geometry

  datatype Issue = InvalidCount | SelfIntersecting

  /** `orientation`, with x the longitude and y the latitude. */
  function Orientation(first: Point, second: Point, third: Point): real {
    (second.lat - first.lat) * (third.lon - second.lon) - (second.lon - first.lon) * (third.lat - second.lat)
  }

  predicate SegmentsIntersect(e: Edge, f: Edge) {
    && Orientation(e.start, e.end, f.start) * Orientation(e.start, e.end, f.end) < 0.0
    && Orientation(f.start, f.end, e.start) * Orientation(f.start, f.end, e.end) < 0.0
  }

  /** The edge from vertex `i` to the next. */
  function EdgeAt(points: seq<Point>, i: nat): Edge
    requires i + 1 < |points|
  {
    Edge(points[i], points[i + 1])
  }

  /** Edges `i < j` of a closed ring of `n` edges that share no vertex. */
  predicate Apart(i: nat, j: nat, n: int) {
    i + 1 < j < n && !(i == 0 && j == n - 1)
  }

  ghost predicate HasCrossing(points: seq<Point>) {
    exists i: nat, j: nat :: Apart(i, j, |points| - 1) && SegmentsIntersect(EdgeAt(points, i), EdgeAt(points, j))
  }

  method HasSelfIntersection(points: seq<Point>) returns (r: bool)
    ensures r <==> HasCrossing(points)
  {
    var n := if |points| == 0 then 0 else |points| - 1;
    for i := 0 to n
      invariant forall k: nat, l: nat :: k < i && Apart(k, l, n) ==> !SegmentsIntersect(EdgeAt(points, k), EdgeAt(points, l))
    {
      for j := i + 1 to n
        invariant forall l: nat :: l < j && Apart(i, l, n) ==> !SegmentsIntersect(EdgeAt(points, i), EdgeAt(points, l))
      {
        if j == i + 1 || (i == 0 && j == n - 1) {
          continue;
        }
        if SegmentsIntersect(EdgeAt(points, i), EdgeAt(points, j)) {
          assert Apart(i, j, n);
          return true;
        }
      }
    }
    r := false;
  }

  function Closed(points: seq<Point>): seq<Point>
    requires points != []
  {
    if points[0] != points[|points| - 1] then points + [points[0]] else points
  }

  /** A ring of four points or fewer has no two edges apart, so skipping its test loses nothing:
      a polygon is accepted exactly when it has three points and no two edges apart cross. */
  method ValidatePolygon(points: seq<Point>) returns (r: Result<seq<Point>, Issue>)
    ensures r == if |points| < 3 then Err(InvalidCount)
                 else if HasCrossing(Closed(points)) then Err(SelfIntersecting)
                 else Ok(Closed(points))
  {
    if |points| < 3 {
      return Err(InvalidCount);
    }
    var ring := points;
    if ring[0] != ring[|ring| - 1] {
      ring := ring + [ring[0]];
    }
    if |ring| > 4 {
      var crossing := HasSelfIntersection(ring);
      if crossing {
        return Err(SelfIntersecting);
      }
    }
    r := Ok(ring);
  }

  // ---------------------------------------------------------------- what the sign test means

  /** The point a fraction `s` along the first edge is the point a fraction `t` along the second. */
  predicate MeetAt(e: Edge, f: Edge, s: real, t: real) {
    && e.start.lon + s * (e.end.lon - e.start.lon) == f.start.lon + t * (f.end.lon - f.start.lon)
    && e.start.lat + s * (e.end.lat - e.start.lat) == f.start.lat + t * (f.end.lat - f.start.lat)
  }

  function Determinant(e: Edge, f: Edge): real {
    (e.end.lon - e.start.lon) * (f.end.lat - f.start.lat) - (e.end.lat - e.start.lat) * (f.end.lon - f.start.lon)
  }

  /** The edges are not parallel and meet strictly inside both. */
  ghost predicate ProperlyCross(e: Edge, f: Edge) {
    Determinant(e, f) != 0.0 && exists s: real, t: real :: 0.0 < s < 1.0 && 0.0 < t < 1.0 && MeetAt(e, f, s, t)
  }

  /** The four orientations in terms of the edges' directions and the offset between their starts. */
  lemma Orientations(e: Edge, f: Edge)
    ensures var d := Determinant(e, f);
            && Orientation(e.start, e.end, f.start) - Orientation(e.start, e.end, f.end) == d
            && Orientation(f.start, f.end, e.end) - Orientation(f.start, f.end, e.start) == d
    ensures var ux, uy := e.end.lon - e.start.lon, e.end.lat - e.start.lat;
            var vx, vy := f.end.lon - f.start.lon, f.end.lat - f.start.lat;
            var wx, wy := f.start.lon - e.start.lon, f.start.lat - e.start.lat;
            && Orientation(e.start, e.end, f.start) == wx * uy - wy * ux
            && Orientation(f.start, f.end, e.start) == -(wx * vy - wy * vx)
  {
    var ux, uy := e.end.lon - e.start.lon, e.end.lat - e.start.lat;
    var vx, vy := f.end.lon - f.start.lon, f.end.lat - f.start.lat;
    var wx, wy := f.start.lon - e.start.lon, f.start.lat - e.start.lat;
    assert f.start.lon - e.end.lon == wx - ux && f.start.lat - e.end.lat == wy - uy;
    assert f.end.lon - e.end.lon == wx + vx - ux && f.end.lat - e.end.lat == wy + vy - uy;
    assert e.start.lon - f.end.lon == -wx - vx && e.start.lat - f.end.lat == -wy - vy;
    assert e.end.lon - f.end.lon == ux - wx - vx && e.end.lat - f.end.lat == uy - wy - vy;
  }

  lemma OppositeSigns(a: real, b: real)
    requires a * b < 0.0
    ensures a != b && 0.0 < a / (a - b) < 1.0
  {
    if a > 0.0 {
      assert b < 0.0;
    } else {
      assert a < 0.0 && b > 0.0;
    }
  }

  /** Cramer's rule for the meeting point. */
  lemma Solve(ux: real, uy: real, vx: real, vy: real, wx: real, wy: real, d: real, s: real, t: real)
    requires d == ux * vy - uy * vx
    requires d != 0.0 && s * d == wx * vy - wy * vx && t * d == wx * uy - wy * ux
    ensures s * ux - t * vx == wx && s * uy - t * vy == wy
  {
    calc {
      d * (s * ux - t * vx);
      (s * d) * ux - (t * d) * vx;
      (wx * vy - wy * vx) * ux - (wx * uy - wy * ux) * vx;
      d * wx;
    }
    calc {
      d * (s * uy - t * vy);
      (s * d) * uy - (t * d) * vy;
      (wx * vy - wy * vx) * uy - (wx * uy - wy * ux) * vy;
      d * wy;
    }
  }

  lemma SignsImplyCrossing(e: Edge, f: Edge)
    requires SegmentsIntersect(e, f)
    ensures ProperlyCross(e, f)
  {
    Orientations(e, f);
    var o1, o2 := Orientation(e.start, e.end, f.start), Orientation(e.start, e.end, f.end);
    var o3, o4 := Orientation(f.start, f.end, e.start), Orientation(f.start, f.end, e.end);
    OppositeSigns(o1, o2);
    OppositeSigns(o3, o4);
    var s, t, d := o3 / (o3 - o4), o1 / (o1 - o2), Determinant(e, f);
    assert s * d == -o3 && t * d == o1;
    Solve(e.end.lon - e.start.lon, e.end.lat - e.start.lat, f.end.lon - f.start.lon, f.end.lat - f.start.lat,
          f.start.lon - e.start.lon, f.start.lat - e.start.lat, d, s, t);
    assert MeetAt(e, f, s, t);
  }

  /** Values a fraction of `d` apart on either side of zero. */
  lemma FractionSigns(a: real, b: real, d: real, t: real)
    requires d != 0.0 && 0.0 < t < 1.0 && a == t * d && b == a - d
    ensures a * b < 0.0
  {
    assert d * d > 0.0;
    assert t * (1.0 - t) > 0.0;
    var p, q := t * (1.0 - t), d * d;
    assert p * q > 0.0;
    assert b == -((1.0 - t) * d);
    assert (t * d) * ((1.0 - t) * d) == p * q;
  }

  /** The offset between the starts, resolved along both directions. */
  lemma Resolve(ux: real, uy: real, vx: real, vy: real, wx: real, wy: real, s: real, t: real)
    requires wx == s * ux - t * vx && wy == s * uy - t * vy
    ensures wx * uy - wy * ux == t * (ux * vy - uy * vx)
    ensures wx * vy - wy * vx == s * (ux * vy - uy * vx)
  {
  }

  lemma CrossingOrientations(e: Edge, f: Edge, s: real, t: real)
    requires MeetAt(e, f, s, t)
    ensures var d := Determinant(e, f);
            && Orientation(e.start, e.end, f.start) == t * d
            && Orientation(e.start, e.end, f.end) == Orientation(e.start, e.end, f.start) - d
            && -Orientation(f.start, f.end, e.start) == s * d
            && -Orientation(f.start, f.end, e.end) == -Orientation(f.start, f.end, e.start) - d
  {
    Orientations(e, f);
    Resolve(e.end.lon - e.start.lon, e.end.lat - e.start.lat, f.end.lon - f.start.lon, f.end.lat - f.start.lat,
            f.start.lon - e.start.lon, f.start.lat - e.start.lat, s, t);
  }

  lemma CrossingSigns(o1: real, o2: real, o3: real, o4: real, d: real, s: real, t: real)
    requires d != 0.0 && 0.0 < s < 1.0 && 0.0 < t < 1.0
    requires o1 == t * d && o2 == o1 - d && -o3 == s * d && -o4 == -o3 - d
    ensures o1 * o2 < 0.0 && o3 * o4 < 0.0
  {
    FractionSigns(o1, o2, d, t);
    FractionSigns(-o3, -o4, d, s);
    assert o3 * o4 == (-o3) * (-o4);
  }

  lemma CrossingImpliesSigns(e: Edge, f: Edge)
    requires ProperlyCross(e, f)
    ensures SegmentsIntersect(e, f)
  {
    var s, t :| 0.0 < s < 1.0 && 0.0 < t < 1.0 && MeetAt(e, f, s, t);
    var o1, o2 := Orientation(e.start, e.end, f.start), Orientation(e.start, e.end, f.end);
    var o3, o4 := Orientation(f.start, f.end, e.start), Orientation(f.start, f.end, e.end);
    CrossingOrientations(e, f, s, t);
    CrossingSigns(o1, o2, o3, o4, Determinant(e, f), s, t);
    Conclude(e, f, o1, o2, o3, o4);
  }

  lemma Conclude(e: Edge, f: Edge, o1: real, o2: real, o3: real, o4: real)
    requires o1 == Orientation(e.start, e.end, f.start) && o2 == Orientation(e.start, e.end, f.end)
    requires o3 == Orientation(f.start, f.end, e.start) && o4 == Orientation(f.start, f.end, e.end)
    requires o1 * o2 < 0.0 && o3 * o4 < 0.0
    ensures SegmentsIntersect(e, f)
  {
    SameProduct(o1, o2, Orientation(e.start, e.end, f.start), Orientation(e.start, e.end, f.end));
    SameProduct(o3, o4, Orientation(f.start, f.end, e.start), Orientation(f.start, f.end, e.end));
  }

  lemma SameProduct(a: real, b: real, c: real, d: real)
    requires a == c && b == d
    ensures a * b == c * d
  {
  }

  /** The sign test holds exactly for edges that properly cross. */
  lemma SignTestIsExact(e: Edge, f: Edge)
    ensures SegmentsIntersect(e, f) <==> ProperlyCross(e, f)
  {
    if SegmentsIntersect(e, f) {
      SignsImplyCrossing(e, f);
    }
    if ProperlyCross(e, f) {
      CrossingImpliesSigns(e, f);
    }
  }

  /** Two edges that share no vertex, with another edge between them on both sides of the ring, properly cross. */
  ghost predicate CrossAt(ring: seq<Point>, i: nat, j: nat) {
    i + 2 <= j < |ring| - 1 && j - i <= |ring| - 3 && ProperlyCross(Edge(ring[i], ring[i + 1]), Edge(ring[j], ring[j + 1]))
  }

  /** A polygon of three points or more is accepted exactly if, once closed, no two such edges properly cross. */
  lemma AcceptedRings(points: seq<Point>)
    requires 3 <= |points|
    ensures var ring := Closed(points);
            && ring[0] == ring[|ring| - 1] && points <= ring && |ring| <= |points| + 1
            && (!HasCrossing(ring) <==> forall i: nat, j: nat :: !CrossAt(ring, i, j))
  {
    var ring := Closed(points);
    if HasCrossing(ring) {
      var i, j := CrossingPair(ring);
    } else {
      forall i: nat, j: nat ensures !CrossAt(ring, i, j) {
        NoCrossingPair(ring, i, j);
      }
    }
  }

  lemma CrossingPair(ring: seq<Point>) returns (i: nat, j: nat)
    requires HasCrossing(ring)
    ensures CrossAt(ring, i, j)
  {
    i, j :| Apart(i, j, |ring| - 1) && SegmentsIntersect(EdgeAt(ring, i), EdgeAt(ring, j));
    SignTestIsExact(EdgeAt(ring, i), EdgeAt(ring, j));
  }

  lemma NoCrossingPair(ring: seq<Point>, i: nat, j: nat)
    requires !HasCrossing(ring)
    ensures !CrossAt(ring, i, j)
  {
    if i + 2 <= j < |ring| - 1 && j - i <= |ring| - 3 {
      assert Apart(i, j, |ring| - 1);
      SignTestIsExact(EdgeAt(ring, i), EdgeAt(ring, j));
    }
  }

  /** The ring that is returned contains exactly the points of the polygon that was given, and those within EPSILON of
      its first vertex. */
  lemma ClosedContains(p: Point, points: seq<Point>)
    requires 3 <= |points|
    ensures Inside(p, Closed(points)) <==> Inside(p, points) || OnSegment(p, Edge(points[0], points[0]))
  {
    if points[0] != points[|points| - 1] {
      RepeatedVertex(p, points);
    } else {
      assert Edges(points)[0] == Edge(points[0], points[0]);
    }
  }
}
