/** The line drawing of inkui (draw_line in graphics/primitives.rs): which points
    its loop visits.  What is painted around each point is left out. */
module DrawLine {

  datatype Point = Point(x: int, y: int)

  function Abs(a: int): (r: nat) {
    if a < 0 then -a else a
  }

  function Max(a: int, b: int): int {
    if a < b then b else a
  }

  predicate Within(bound: int, v: int) {
    -bound <= v <= bound
  }

  /** How far the point i pixels along x and j along y is off the line that runs dx
      by dy pixels. */
  function Offset(dx: int, dy: int, i: int, j: int): int {
    j * dx - i * dy
  }

  /** How far p is from the ideal line from a to b, measured along the shorter axis
      in units of half the longer extent: at most one such unit is half a pixel. */
  predicate Near(a: Point, b: Point, p: Point) {
    var (dx, dy) := (Abs(b.x - a.x), Abs(b.y - a.y));
    var (i, j) := (Abs(p.x - a.x), Abs(p.y - a.y));
    Within(Max(dx, dy), 2 * Offset(dx, dy, i, j))
  }

  predicate Between(a: int, b: int, c: int) {
    a <= c <= b || b <= c <= a
  }

  /** From p to q is one step: it goes on along the longer axis, and not back, and
      by at most one pixel, along the other. */
  predicate OneStep(a: Point, b: Point, p: Point, q: Point) {
    var (i, j) := (Abs(q.x - a.x) - Abs(p.x - a.x), Abs(q.y - a.y) - Abs(p.y - a.y));
    && 0 <= i <= 1 && 0 <= j <= 1
    && (if Abs(b.x - a.x) >= Abs(b.y - a.y) then i == 1 else j == 1)
  }

  /** Every point is as near to the line as half a pixel, and inside the box that
      the two ends span. */
  predicate AllNear(a: Point, b: Point, points: seq<Point>) {
    forall k | 0 <= k < |points| ::
      Near(a, b, points[k]) && Between(a.x, b.x, points[k].x) && Between(a.y, b.y, points[k].y)
  }

  predicate Connected(a: Point, b: Point, points: seq<Point>) {
    forall k | 0 <= k < |points| - 1 :: OneStep(a, b, points[k], points[k + 1])
  }

  /** The point reached after i steps along x and j steps along y. */
  function After(a: Point, b: Point, i: int, j: int): Point {
    Point(if a.x < b.x then a.x + i else a.x - i, if a.y < b.y then a.y + j else a.y - j)
  }

  /** i and j steps have been made, and the point reached is near the line. */
  predicate Reached(a: Point, b: Point, i: int, j: int) {
    var (dx, dy) := (Abs(b.x - a.x), Abs(b.y - a.y));
    0 <= i <= dx && 0 <= j <= dy && Within(Max(dx, dy), 2 * Offset(dx, dy, i, j))
  }

  method Line(x0: nat, y0: nat, x1: nat, y1: nat) returns (points: seq<Point>)
    ensures |points| == Max(Abs(x1 - x0), Abs(y1 - y0)) + 1
    ensures points[0] == Point(x0, y0) && points[|points| - 1] == Point(x1, y1)
    ensures AllNear(Point(x0, y0), Point(x1, y1), points)
    ensures Connected(Point(x0, y0), Point(x1, y1), points)
  {
    hide Offset, Reached, AllNear, Connected, OneStep, Near, Between, Within, Stepped, Max, After;
    var dx: int := Abs(x1 - x0);
    var dy: int := 0 - Abs(y1 - y0);
    var sx := if x0 < x1 then 1 else -1;
    var sy := if y0 < y1 then 1 else -1;
    var err := dx + dy;
    var x: int, y: int := x0, y0;
    ghost var (a, b) := (Point(x0, y0), Point(x1, y1));
    ghost var i: int, j: int := 0, 0;
    points := [];
    Start(a, b);
    while true
      invariant Reached(a, b, i, j) && Point(x, y) == After(a, b, i, j)
      invariant err == Offset(dx, -dy, i, j) + dx + dy
      invariant |points| == if dx >= -dy then i else j
      invariant AllNear(a, b, points) && Connected(a, b, points + [Point(x, y)])
      invariant (points + [Point(x, y)])[0] == a
      decreases dx - dy - i - j
    {
      points := points + [Point(x, y)];
      Record(a, b, points, i, j);
      AtEnd(a, b, i, j);
      if x == x1 && y == y1 {
        break;
      }
      var e2 := 2 * err;
      ghost var (i0, j0) := (i, j);
      if e2 >= dy {
        err, x, i := err + dy, x + sx, i + 1;
      }
      if e2 <= dx {
        err, y, j := err + dx, y + sy, j + 1;
      }
      Step(dx, -dy, i0, j0);
      Moved(a, b, i0, j0);
      Onwards(a, b, points, i0, j0, i, j);
    }
  }

  lemma Start(a: Point, b: Point)
    ensures Reached(a, b, 0, 0) && After(a, b, 0, 0) == a
    ensures Offset(Abs(b.x - a.x), Abs(b.y - a.y), 0, 0) == 0
    ensures AllNear(a, b, []) && Connected(a, b, [] + [a])
  {
  }

  /** The end is reached when all steps along both axes have been made. */
  lemma AtEnd(a: Point, b: Point, i: int, j: int)
    requires Reached(a, b, i, j)
    ensures After(a, b, i, j) == b <==> i == Abs(b.x - a.x) && j == Abs(b.y - a.y)
    ensures var (dx, dy) := (Abs(b.x - a.x), Abs(b.y - a.y));
            && 0 <= i <= dx && 0 <= j <= dy && Within(Max(dx, dy), 2 * Offset(dx, dy, i, j))
            && Max(dx, dy) == if dx >= dy then dx else dy
  {
  }

  /** A point reached is one that may be recorded. */
  lemma Record(a: Point, b: Point, points: seq<Point>, i: int, j: int)
    requires Reached(a, b, i, j) && |points| > 0 && points[|points| - 1] == After(a, b, i, j)
    requires AllNear(a, b, points[..|points| - 1])
    ensures AllNear(a, b, points)
  {
    hide Near, Between;
    Placed(a, b, i, j);
    forall k | 0 <= k < |points|
      ensures Near(a, b, points[k]) && Between(a.x, b.x, points[k].x) && Between(a.y, b.y, points[k].y)
    {
      if k < |points| - 1 {
        assert points[k] == points[..|points| - 1][k];
      }
    }
  }

  lemma Placed(a: Point, b: Point, i: int, j: int)
    requires Reached(a, b, i, j)
    ensures var p := After(a, b, i, j);
            && Near(a, b, p) && Between(a.x, b.x, p.x) && Between(a.y, b.y, p.y)
            && Abs(p.x - a.x) == i && Abs(p.y - a.y) == j
  {
  }

  lemma Onwards(a: Point, b: Point, points: seq<Point>, i: int, j: int, i': int, j': int)
    requires Reached(a, b, i, j) && Stepped(Abs(b.x - a.x), Abs(b.y - a.y), i, j, i', j')
    requires |points| > 0 && points[|points| - 1] == After(a, b, i, j) && Connected(a, b, points)
    ensures Reached(a, b, i', j') && Connected(a, b, points + [After(a, b, i', j')])
    ensures if Abs(b.x - a.x) >= Abs(b.y - a.y) then i' == i + 1 else j' == j + 1
  {
    assert Reached(a, b, i', j');
    assert OneStep(a, b, After(a, b, i, j), After(a, b, i', j')) by {
      Placed(a, b, i, j);
      Placed(a, b, i', j');
    }
  }

  lemma Moved(a: Point, b: Point, i: int, j: int)
    ensures var (sx, sy) := (if a.x < b.x then 1 else -1, if a.y < b.y then 1 else -1);
            var p := After(a, b, i, j);
            && After(a, b, i + 1, j) == Point(p.x + sx, p.y)
            && After(a, b, i, j + 1) == Point(p.x, p.y + sy)
            && After(a, b, i + 1, j + 1) == Point(p.x + sx, p.y + sy)
  {
  }

  /** A good step: near the line again, not past either end, and along the longer
      axis. */
  predicate Stepped(dx: int, dy: int, i: int, j: int, i': int, j': int) {
    && i <= i' <= i + 1 && j <= j' <= j + 1 && i' <= dx && j' <= dy
    && Within(Max(dx, dy), 2 * Offset(dx, dy, i', j'))
    && (if dx >= dy then i' == i + 1 else j' == j + 1)
  }

  /** The error term decides for a good step, and is brought up to date by it. */
  lemma Step(dx: int, dy: int, i: int, j: int)
    requires 0 <= i <= dx && 0 <= j <= dy && !(i == dx && j == dy)
    requires Within(Max(dx, dy), 2 * Offset(dx, dy, i, j))
    ensures var e2 := 2 * (Offset(dx, dy, i, j) + dx - dy);
            var (i', j') := (if e2 >= -dy then i + 1 else i, if e2 <= dx then j + 1 else j);
            && Stepped(dx, dy, i, j, i', j')
            && Offset(dx, dy, i', j')
               == Offset(dx, dy, i, j) + (if e2 >= -dy then -dy else 0) + (if e2 <= dx then dx else 0)
  {
    hide Offset;
    Along(dx, dy, i, j);
    if dx >= dy {
      Ends(dx, dy, i, j);
    } else {
      assert Offset(dx, dy, i, j) == -Offset(dy, dx, j, i) by { Turned(dx, dy, i, j); }
      Ends(dy, dx, j, i);
    }
  }

  lemma Along(dx: int, dy: int, i: int, j: int)
    ensures Offset(dx, dy, i + 1, j) == Offset(dx, dy, i, j) - dy
    ensures Offset(dx, dy, i, j + 1) == Offset(dx, dy, i, j) + dx
    ensures Offset(dx, dy, i + 1, j + 1) == Offset(dx, dy, i, j) - dy + dx
  {
  }

  lemma Turned(dx: int, dy: int, i: int, j: int)
    ensures Offset(dx, dy, i, j) == -Offset(dy, dx, j, i)
  {
  }

  /** Near the line, the end along the longer axis is reached only together with
      the other end, and from the end along the shorter axis the line has fallen
      behind by at least one step. */
  lemma Ends(long: int, short: int, i: int, j: int)
    requires 0 <= short <= long && 0 <= i <= long && 0 <= j <= short
    ensures i == long && j < short ==> Offset(long, short, i, j) <= -long
    ensures j == short && i < long ==> Offset(long, short, i, j) >= short
  {
    if i == long && j < short {
      AtLeastOnce(long, short - j);
      assert Offset(long, short, long, j) == -(long * (short - j));
    }
    if j == short && i < long {
      AtLeastOnce(short, long - i);
      assert Offset(long, short, i, short) == short * (long - i);
    }
  }

  lemma AtLeastOnce(n: nat, times: int)
    requires times >= 1
    ensures n * times >= n
  {
    assert n * times == n * (times - 1) + n;
  }
}
