/** 2025 day 9: red tiles at integer points. Part 1 finds the largest
    rectangle with two red tiles at opposite corners; part 2 asks that the
    rectangle also lie inside the rectilinear loop the red tiles trace, in
    order and back to the first. */
module RedTiles {

  type Point = (int, int)

  /** A polygon edge from one red tile to the next. */
  type Edge = (Point, Point)

  function Abs(v: int): nat {
    if v < 0 then -v else v
  }

  function Min(a: int, b: int): int {
    if a <= b then a else b
  }

  function Max(a: int, b: int): int {
    if a >= b then a else b
  }

  /** Tiles in the rectangle with corners `p` and `q`, borders included. */
  function Area(p: Point, q: Point): int {
    (Abs(q.0 - p.0) + 1) * (Abs(q.1 - p.1) + 1)
  }

  /** Part 2's area formula, on the rectangle's sides `rx1 <= rx2`, `ry1 <= ry2`. */
  function SpanArea(rx1: int, ry1: int, rx2: int, ry2: int): int {
    (rx2 - rx1 + 1) * (ry2 - ry1 + 1)
  }

  /** Part 2 measures the same area as part 1. */
  lemma SpanIsArea(p: Point, q: Point)
    ensures SpanArea(Min(p.0, q.0), Min(p.1, q.1), Max(p.0, q.0), Max(p.1, q.1)) == Area(p, q)
  {
  }

  // ---------------------------------------------------------------------
  // Part 1
  // ---------------------------------------------------------------------

  /** Tiles `i < j` can be opposite corners: they differ in both x and y, and
      in part 2 the rectangle must also lie inside the loop. */
  ghost predicate Candidate(red: seq<Point>, i: int, j: int, inside: bool)
  {
    0 <= i < j < |red| && red[i].0 != red[j].0 && red[i].1 != red[j].1
    && (inside ==> InsideLoop(red, i, j))
  }

  /** The rectangle spanned by tiles `i` and `j` lies inside the loop. */
  ghost predicate InsideLoop(red: seq<Point>, i: int, j: int)
    requires 0 <= i < |red| && 0 <= j < |red|
  {
    RectangleInside(Edges(red), Min(red[i].0, red[j].0), Min(red[i].1, red[j].1),
                    Max(red[i].0, red[j].0), Max(red[i].1, red[j].1))
  }

  /** `m` is the largest candidate area, or 0 when there is no candidate. */
  ghost predicate IsLargest(red: seq<Point>, m: int, inside: bool)
  {
    m >= 0
    && (forall i, j :: Candidate(red, i, j, inside) ==> Area(red[i], red[j]) <= m)
    && (m == 0 || exists i, j :: Candidate(red, i, j, inside) && Area(red[i], red[j]) == m)
  }

  /** Every candidate pair `(a, b)` that the pair loops have visited before
      reaching `(i, j)` has area at most `m`, and `m` is one of them or 0. */
  ghost predicate LargestSoFar(red: seq<Point>, m: int, inside: bool, i: int, j: int)
  {
    m >= 0
    && (forall a, b :: Candidate(red, a, b, inside) && (a < i || (a == i && b < j)) ==> Area(red[a], red[b]) <= m)
    && (m == 0 || exists a, b :: Candidate(red, a, b, inside) && Area(red[a], red[b]) == m)
  }

  lemma LargestStep(red: seq<Point>, m: int, inside: bool, i: int, j: int, m': int)
    requires LargestSoFar(red, m, inside, i, j) && 0 <= i < j < |red|
    requires m' == if Candidate(red, i, j, inside) then Max(m, Area(red[i], red[j])) else m
    ensures LargestSoFar(red, m', inside, i, j + 1)
  {
  }

  lemma LargestRowDone(red: seq<Point>, m: int, inside: bool, i: int)
    requires LargestSoFar(red, m, inside, i, |red|) && 0 <= i
    ensures LargestSoFar(red, m, inside, i + 1, i + 2)
  {
  }

  lemma LargestDone(red: seq<Point>, m: int, inside: bool)
    requires LargestSoFar(red, m, inside, |red|, |red| + 1)
    ensures IsLargest(red, m, inside)
  {
  }

  /** `solve_part1`: the pairwise loop over the red tiles. */
  method LargestRectangle(red: seq<Point>) returns (maxArea: int)
    ensures IsLargest(red, maxArea, false)
  {
    maxArea := 0;
    var n := |red|;
    for i := 0 to n
      invariant LargestSoFar(red, maxArea, false, i, i + 1)
    {
      for j := i + 1 to n
        invariant LargestSoFar(red, maxArea, false, i, j)
      {
        var (x1, y1) := red[i];
        var (x2, y2) := red[j];
        ghost var m := maxArea;
        if x1 != x2 && y1 != y2 {
          var area := Area((x1, y1), (x2, y2));
          maxArea := Max(maxArea, area);
        }
        LargestStep(red, m, false, i, j, maxArea);
      }
      LargestRowDone(red, maxArea, false, i);
    }
    LargestDone(red, maxArea, false);
  }

  // ---------------------------------------------------------------------
  // The loop of red tiles
  // ---------------------------------------------------------------------

  /** Edge `i` joins tile `i` to the next one, the last edge back to tile 0. */
  function Edges(red: seq<Point>): (edges: seq<Edge>)
    ensures |edges| == |red|
  {
    seq(|red|, i requires 0 <= i < |red| => (red[i], red[(i + 1) % |red|]))
  }

  /** The edge loop of `solve_part2`. */
  method BuildEdges(red: seq<Point>) returns (edges: seq<Edge>)
    ensures edges == Edges(red)
  {
    var n := |red|;
    edges := [];
    for i := 0 to n
      invariant edges == Edges(red)[..i]
    {
      edges := edges + [(red[i], red[(i + 1) % n])];
    }
  }

  /** The edges form one closed chain: each edge starts where the previous one
      ends, and the last returns to the first tile. */
  lemma EdgesClosed(red: seq<Point>)
    requires |red| >= 1
    ensures Edges(red)[0].0 == red[0] && Edges(red)[|red| - 1].1 == red[0]
    ensures forall i :: 0 < i < |red| ==> Edges(red)[i].0 == Edges(red)[i - 1].1
  {
    var n := |red|;
    assert (n - 1 + 1) % n == 0;
    forall i | 0 < i < n
      ensures Edges(red)[i].0 == Edges(red)[i - 1].1
    {
      assert (i - 1 + 1) % n == i;
    }
  }

  /** The edge test of `point_in_polygon`: a vertical edge (equal x) holds the
      points of its column between its ends; any other edge is treated as
      horizontal, holding the points of its first end's row between its ends. */
  predicate OnEdge(e: Edge, x: int, y: int)
  {
    var ((x1, y1), (x2, y2)) := e;
    if x1 == x2 then x == x1 && Min(y1, y2) <= y <= Max(y1, y2)
    else y == y1 && Min(x1, x2) <= x <= Max(x1, x2)
  }

  /** The ray cast to the right of `(x, y)` crosses the vertical edge `e`. */
  predicate Crosses(e: Edge, x: int, y: int)
  {
    var ((x1, y1), (x2, y2)) := e;
    x1 == x2 && x1 > x && Min(y1, y2) <= y < Max(y1, y2)
  }

  /** How many edges the ray to the right of `(x, y)` crosses. */
  function Crossings(edges: seq<Edge>, x: int, y: int): nat
  {
    if edges == [] then 0
    else Crossings(edges[..|edges| - 1], x, y) + (if Crosses(edges[|edges| - 1], x, y) then 1 else 0)
  }

  ghost predicate OnBoundary(edges: seq<Edge>, x: int, y: int)
  {
    exists k :: 0 <= k < |edges| && OnEdge(edges[k], x, y)
  }

  /** Inside or on the loop: on some edge, or an odd number of crossings. */
  ghost predicate PointInside(edges: seq<Edge>, x: int, y: int)
  {
    OnBoundary(edges, x, y) || Crossings(edges, x, y) % 2 == 1
  }

  /** `point_in_polygon`: first the boundary scan, then the ray count. */
  method PointInPolygon(edges: seq<Edge>, x: int, y: int) returns (inside: bool)
    ensures inside <==> PointInside(edges, x, y)
    ensures OnBoundary(edges, x, y) ==> inside
  {
    for k := 0 to |edges|
      invariant forall l :: 0 <= l < k ==> !OnEdge(edges[l], x, y)
    {
      var ((x1, y1), (x2, y2)) := edges[k];
      if x1 == x2 {
        if x == x1 && Min(y1, y2) <= y <= Max(y1, y2) {
          return true;
        }
      } else {
        if y == y1 && Min(x1, x2) <= x <= Max(x1, x2) {
          return true;
        }
      }
    }
    var crossings := 0;
    for k := 0 to |edges|
      invariant crossings == Crossings(edges[..k], x, y)
    {
      assert edges[..k + 1][..k] == edges[..k];
      var ((x1, y1), (x2, y2)) := edges[k];
      if x1 == x2 && x1 > x {
        if Min(y1, y2) <= y < Max(y1, y2) {
          crossings := crossings + 1;
        }
      }
    }
    assert edges[..|edges|] == edges;
    inside := crossings % 2 == 1;
  }

  /** Every red tile is on the boundary, so it passes the point test. */
  lemma TileOnBoundary(red: seq<Point>, i: int)
    requires 0 <= i < |red|
    ensures OnBoundary(Edges(red), red[i].0, red[i].1)
    ensures PointInside(Edges(red), red[i].0, red[i].1)
  {
    assert OnEdge(Edges(red)[i], red[i].0, red[i].1);
  }

  /** Edge `e` passes through the open inside of the rectangle
      `[rx1, rx2] x [ry1, ry2]`: its line is strictly between two sides and its
      span overlaps the rectangle's open span the other way. */
  predicate Cuts(e: Edge, rx1: int, ry1: int, rx2: int, ry2: int)
  {
    var ((x1, y1), (x2, y2)) := e;
    if x1 == x2 then rx1 < x1 < rx2 && Min(y1, y2) < ry2 && Max(y1, y2) > ry1
    else ry1 < y1 < ry2 && Min(x1, x2) < rx2 && Max(x1, x2) > rx1
  }

  /** All four corners pass the point test and no edge cuts through. */
  ghost predicate RectangleInside(edges: seq<Edge>, rx1: int, ry1: int, rx2: int, ry2: int)
  {
    PointInside(edges, rx1, ry1) && PointInside(edges, rx1, ry2)
    && PointInside(edges, rx2, ry1) && PointInside(edges, rx2, ry2)
    && forall k :: 0 <= k < |edges| ==> !Cuts(edges[k], rx1, ry1, rx2, ry2)
  }

  /** `rectangle_in_polygon`: the corners in order, then every edge. */
  method RectangleInPolygon(edges: seq<Edge>, rx1: int, ry1: int, rx2: int, ry2: int) returns (inside: bool)
    ensures inside <==> RectangleInside(edges, rx1, ry1, rx2, ry2)
  {
    var corners := [(rx1, ry1), (rx1, ry2), (rx2, ry1), (rx2, ry2)];
    for c := 0 to 4
      invariant forall l :: 0 <= l < c ==> PointInside(edges, corners[l].0, corners[l].1)
    {
      var (cx, cy) := corners[c];
      var ok := PointInPolygon(edges, cx, cy);
      if !ok {
        return false;
      }
    }
    for k := 0 to |edges|
      invariant forall l :: 0 <= l < k ==> !Cuts(edges[l], rx1, ry1, rx2, ry2)
    {
      var ((x1, y1), (x2, y2)) := edges[k];
      if x1 == x2 {
        if rx1 < x1 < rx2 {
          if Min(y1, y2) < ry2 && Max(y1, y2) > ry1 {
            return false;
          }
        }
      } else {
        if ry1 < y1 < ry2 {
          if Min(x1, x2) < rx2 && Max(x1, x2) > rx1 {
            return false;
          }
        }
      }
    }
    assert corners[0] == (rx1, ry1) && corners[1] == (rx1, ry2);
    assert corners[2] == (rx2, ry1) && corners[3] == (rx2, ry2);
    return true;
  }

  // ---------------------------------------------------------------------
  // Part 2
  // ---------------------------------------------------------------------

  /** `solve_part2`: the same pairs and areas, keeping only rectangles inside
      the loop. */
  method LargestInsideRectangle(red: seq<Point>) returns (maxArea: int)
    ensures IsLargest(red, maxArea, true)
  {
    var edges := BuildEdges(red);
    maxArea := 0;
    var n := |red|;
    for i := 0 to n
      invariant LargestSoFar(red, maxArea, true, i, i + 1)
    {
      for j := i + 1 to n
        invariant LargestSoFar(red, maxArea, true, i, j)
      {
        var (x1, y1) := red[i];
        var (x2, y2) := red[j];
        ghost var m := maxArea;
        if x1 == x2 || y1 == y2 {
          LargestStep(red, m, true, i, j, maxArea);
          continue;
        }
        var rx1, rx2 := Min(x1, x2), Max(x1, x2);
        var ry1, ry2 := Min(y1, y2), Max(y1, y2);
        var inside := RectangleInPolygon(edges, rx1, ry1, rx2, ry2);
        assert inside == InsideLoop(red, i, j);
        if inside {
          var area := SpanArea(rx1, ry1, rx2, ry2);
          SpanIsArea(red[i], red[j]);
          maxArea := Max(maxArea, area);
        }
        LargestStep(red, m, true, i, j, maxArea);
      }
      LargestRowDone(red, maxArea, true, i);
    }
    LargestDone(red, maxArea, true);
  }

  /** Part 2 filters the candidates of part 1, so its answer is never larger. */
  lemma InsideAtMostAll(red: seq<Point>, all: int, inside: int)
    requires IsLargest(red, all, false) && IsLargest(red, inside, true)
    ensures inside <= all
  {
    if inside != 0 {
      var i, j :| Candidate(red, i, j, true) && Area(red[i], red[j]) == inside;
      assert Candidate(red, i, j, false);
    }
  }

  /** Opposite corners always span at least a 2 by 2 rectangle, so a positive
      answer comes from a real rectangle and 0 means there was no candidate. */
  lemma NoCandidateMeansZero(red: seq<Point>, m: int, inside: bool)
    requires IsLargest(red, m, inside)
    ensures m == 0 <==> forall i, j :: !Candidate(red, i, j, inside)
  {
    forall i, j | Candidate(red, i, j, inside)
      ensures Area(red[i], red[j]) >= 4
    {
      AreaAtLeastFour(red[i], red[j]);
    }
  }

  /** Helper for `NoCandidateMeansZero`. */
  lemma AreaAtLeastFour(p: Point, q: Point)
    requires p.0 != q.0 && p.1 != q.1
    ensures Area(p, q) >= 4
  {
    var dx, dy := Abs(q.0 - p.0) + 1, Abs(q.1 - p.1) + 1;
    assert dx >= 2 && dy >= 2;
    assert dx * dy >= 2 * dy;
  }
}
