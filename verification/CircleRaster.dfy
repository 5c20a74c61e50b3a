/** The circle loop (src/backend_ast/sdl.c:1947-1968). */
module CircleRaster {

  type Point = (int, int)

  /** The eight points of a step, in the order they are drawn. */
  ghost function Eight(c: Point, x: int, y: int): seq<Point> {
    [(c.0 + x, c.1 + y), (c.0 - x, c.1 + y), (c.0 + x, c.1 - y), (c.0 - x, c.1 - y),
     (c.0 + y, c.1 + x), (c.0 - y, c.1 + x), (c.0 + y, c.1 - x), (c.0 - y, c.1 - x)]
  }

  ghost function AllEight(c: Point, arc: seq<Point>): (ps: seq<Point>)
    ensures |ps| == 8 * |arc|
  {
    if arc == [] then [] else AllEight(c, arc[..|arc| - 1]) + Eight(c, arc[|arc| - 1].0, arc[|arc| - 1].1)
  }

  // ---- the drawn points, said by their coordinates

  ghost function Abs(n: int): nat {
    if n < 0 then -n else n
  }

  /** The offsets of q from the center are those of p up to sign and order. */
  ghost predicate SameUpToReflection(c: Point, p: Point, q: Point) {
    var (px, py, qx, qy) := (Abs(p.0 - c.0), Abs(p.1 - c.1), Abs(q.0 - c.0), Abs(q.1 - c.1));
    (px == qx && py == qy) || (px == qy && py == qx)
  }

  /** The mirror images of p in both axes and in the diagonal through the center are there. */
  ghost predicate MirroredIn(c: Point, ps: seq<Point>, p: Point) {
    (2 * c.0 - p.0, p.1) in ps && (p.0, 2 * c.1 - p.1) in ps && (c.0 + (p.1 - c.1), c.1 + (p.0 - c.0)) in ps
  }

  ghost predicate Symmetric(c: Point, ps: seq<Point>) {
    forall p {:trigger MirroredIn(c, ps, p)} :: p in ps ==> MirroredIn(c, ps, p)
  }

  /** p is the i-th step, moved to the center, up to reflection. */
  ghost predicate FromStep(c: Point, arc: seq<Point>, i: nat, p: Point) {
    i < |arc| && SameUpToReflection(c, p, (c.0 + arc[i].0, c.1 + arc[i].1))
  }

  /** Every step is drawn, moved to the center, and everything drawn is a step up to reflection. */
  ghost predicate DrawnFrom(c: Point, arc: seq<Point>, ps: seq<Point>) {
    && (forall i :: 0 <= i < |arc| ==> (c.0 + arc[i].0, c.1 + arc[i].1) in ps)
    && forall p :: p in ps ==> exists i: nat :: FromStep(c, arc, i, p)
  }

  /** How far the square of the distance may be off the square of the radius: hi and lo are the larger and the smaller
      offset. */
  ghost predicate Near(c: Point, r: int, p: Point) {
    var dx, dy := p.0 - c.0, p.1 - c.1;
    var hi, lo := if Abs(dx) < Abs(dy) then Abs(dy) else Abs(dx), if Abs(dx) < Abs(dy) then Abs(dx) else Abs(dy);
    hi <= r && -2 * (hi + lo) <= dx * dx + dy * dy - r * r <= 4 - 2 * lo
  }

  lemma InEight(c: Point, x: int, y: int, p: Point)
    ensures p in Eight(c, x, y) <==>
      ((p.0 == c.0 + x || p.0 == c.0 - x) && (p.1 == c.1 + y || p.1 == c.1 - y)) ||
      ((p.0 == c.0 + y || p.0 == c.0 - y) && (p.1 == c.1 + x || p.1 == c.1 - x))
  {
    var e := Eight(c, x, y);
    assert e[0] in e && e[1] in e && e[2] in e && e[3] in e && e[4] in e && e[5] in e && e[6] in e && e[7] in e;
  }

  lemma EightMirrored(c: Point, x: int, y: int, p: Point)
    requires p in Eight(c, x, y)
    ensures MirroredIn(c, Eight(c, x, y), p)
  {
    hide Eight;
    InEight(c, x, y, p);
    InEight(c, x, y, (2 * c.0 - p.0, p.1));
    InEight(c, x, y, (p.0, 2 * c.1 - p.1));
    InEight(c, x, y, (c.0 + (p.1 - c.1), c.1 + (p.0 - c.0)));
  }

  lemma MirroredMore(c: Point, a: seq<Point>, b: seq<Point>, p: Point)
    ensures MirroredIn(c, a, p) || MirroredIn(c, b, p) ==> MirroredIn(c, a + b, p)
  {
  }

  lemma {:induction false} AllSymmetric(c: Point, arc: seq<Point>)
    ensures Symmetric(c, AllEight(c, arc))
  {
    hide MirroredIn, Eight;
    if arc != [] {
      var front, last := arc[..|arc| - 1], arc[|arc| - 1];
      var before, now := AllEight(c, front), Eight(c, last.0, last.1);
      AllSymmetric(c, front);
      forall p | p in before + now
        ensures MirroredIn(c, before + now, p)
      {
        MirroredMore(c, before, now, p);
        if p in now { EightMirrored(c, last.0, last.1, p); }
      }
    }
  }

  lemma EightFrom(c: Point, x: int, y: int, p: Point)
    ensures (c.0 + x, c.1 + y) in Eight(c, x, y)
    ensures p in Eight(c, x, y) ==> SameUpToReflection(c, p, (c.0 + x, c.1 + y))
  {
    hide Eight;
    InEight(c, x, y, (c.0 + x, c.1 + y));
    InEight(c, x, y, p);
  }

  lemma FromStepMore(c: Point, arc: seq<Point>, i: nat, p: Point)
    requires arc != [] && FromStep(c, arc[..|arc| - 1], i, p)
    ensures FromStep(c, arc, i, p)
  {
    hide SameUpToReflection;
  }

  lemma {:induction false} AllFrom(c: Point, arc: seq<Point>)
    ensures DrawnFrom(c, arc, AllEight(c, arc))
  {
    hide Eight, SameUpToReflection, FromStep;
    if arc != [] {
      var front, last := arc[..|arc| - 1], arc[|arc| - 1];
      var before, now := AllEight(c, front), Eight(c, last.0, last.1);
      AllFrom(c, front);
      EightFrom(c, last.0, last.1, c);
      forall i | 0 <= i < |arc|
        ensures (c.0 + arc[i].0, c.1 + arc[i].1) in before + now
      {
        if i < |front| { assert front[i] == arc[i] && (c.0 + front[i].0, c.1 + front[i].1) in before; }
      }
      forall p | p in before + now
        ensures exists i: nat :: FromStep(c, arc, i, p)
      {
        if p in before {
          var i: nat :| FromStep(c, front, i, p);
          FromStepMore(c, arc, i, p);
        } else {
          LastStep(c, arc, p);
        }
      }
    }
  }

  lemma LastStep(c: Point, arc: seq<Point>, p: Point)
    requires arc != [] && p in Eight(c, arc[|arc| - 1].0, arc[|arc| - 1].1)
    ensures FromStep(c, arc, |arc| - 1, p)
  {
    EightFrom(c, arc[|arc| - 1].0, arc[|arc| - 1].1, p);
    hide Eight, SameUpToReflection;
  }

  lemma ReflectedNear(c: Point, r: int, p: Point, x: int, y: int)
    requires OnArc(r, (x, y)) && SameUpToReflection(c, p, (c.0 + x, c.1 + y))
    ensures Near(c, r, p)
  {
    var dx, dy := p.0 - c.0, p.1 - c.1;
    SquareOfAbs(dx);
    SquareOfAbs(dy);
  }

  lemma SquareOfAbs(n: int)
    ensures n * n == Abs(n) * Abs(n)
  {
  }

  /** What is drawn, once its steps are on the arc. */
  lemma DrawnNear(c: Point, r: int, arc: seq<Point>, ps: seq<Point>)
    requires DrawnFrom(c, arc, ps) && forall i :: 0 <= i < |arc| ==> OnArc(r, arc[i])
    ensures forall p :: p in ps ==> Near(c, r, p)
  {
    hide OnArc, FromStep, Near;
    forall p | p in ps
      ensures Near(c, r, p)
    {
      var i: nat :| FromStep(c, arc, i, p);
      StepInside(c, arc, i, p);
      StepNear(c, r, arc, i, p);
    }
  }

  lemma StepInside(c: Point, arc: seq<Point>, i: nat, p: Point)
    requires FromStep(c, arc, i, p)
    ensures i < |arc|
  {
    hide SameUpToReflection;
  }

  lemma StepNear(c: Point, r: int, arc: seq<Point>, i: nat, p: Point)
    requires FromStep(c, arc, i, p) && OnArc(r, arc[i])
    ensures Near(c, r, p)
  {
    hide OnArc, SameUpToReflection, Near;
    ReflectedNear(c, r, p, arc[i].0, arc[i].1);
  }

  /** What the error term stands for. */
  ghost function ErrorAt(r: int, x: int, y: int): int {
    x * x + (y + 1) * (y + 1) - r * r - 1
  }

  /** Close to the circle, in the octant where x is not below y. */
  ghost predicate OnArc(r: int, p: Point) {
    && 0 <= p.1 <= p.0 <= r
    && -2 * (p.0 + p.1) <= p.0 * p.0 + p.1 * p.1 - r * r <= 4 - 2 * p.1
  }

  /** The step that the error decides: up while it is not positive, then in if it has become so. */
  ghost function NextPoint(r: int, p: Point): Point {
    var y := if ErrorAt(r, p.0, p.1) <= 0 then p.1 + 1 else p.1;
    (if ErrorAt(r, p.0, y) > 0 then p.0 - 1 else p.0, y)
  }

  /** The next point, no more than one pixel away in each coordinate. */
  ghost predicate StepsTo(r: int, p: Point, q: Point) {
    q == NextPoint(r, p) && (q.0 == p.0 || q.0 == p.0 - 1) && (q.1 == p.1 || q.1 == p.1 + 1) && p != q
  }

  ghost predicate Connected(r: int, arc: seq<Point>) {
    forall i, j :: 0 <= i < |arc| && j == i + 1 < |arc| ==> StepsTo(r, arc[i], arc[j])
  }

  ghost predicate Loop(r: int, x: int, y: int, err: int) {
    && 0 <= y <= x + 2 && -1 <= x <= r
    && err == ErrorAt(r, x, y) && -2 * x <= err <= 4
  }

  lemma Starts(r: int)
    requires r >= 0
    ensures Loop(r, r, 0, 0)
  {
  }

  lemma StepUp(r: int, x: int, y: int)
    ensures ErrorAt(r, x, y + 1) == ErrorAt(r, x, y) + 2 * (y + 1) + 1
  {
  }

  lemma StepIn(r: int, x: int, y: int)
    ensures ErrorAt(r, x - 1, y) == ErrorAt(r, x, y) - (2 * (x - 1) + 1)
  {
  }

  lemma Square(r: int)
    ensures r * r >= 0
  {
  }

  /** On the axis x == 0 the error is not positive, so x never becomes smaller there while y is not above it. */
  lemma PositiveOffAxis(r: int, x: int, y: int, err: int)
    requires Loop(r, x, y, err) && x >= y && err > 0
    ensures x > 0
  {
    Square(r);
    assert x == 0 ==> y == 0 && err == 0 - r * r;
  }

  lemma Plotted(r: int, x: int, y: int, err: int)
    requires Loop(r, x, y, err) && x >= y
    ensures OnArc(r, (x, y))
  {
    assert (y + 1) * (y + 1) == y * y + 2 * y + 1;
  }

  method PlotEight(points: seq<Point>, center: Point, x: int, y: int) returns (points': seq<Point>)
    ensures points' == points + Eight(center, x, y)
  {
    points' := points + [(center.0 + x, center.1 + y)];
    points' := points' + [(center.0 - x, center.1 + y)];
    points' := points' + [(center.0 + x, center.1 - y)];
    points' := points' + [(center.0 - x, center.1 - y)];
    points' := points' + [(center.0 + y, center.1 + x)];
    points' := points' + [(center.0 - y, center.1 + x)];
    points' := points' + [(center.0 + y, center.1 - x)];
    points' := points' + [(center.0 - y, center.1 - x)];
  }

  method Advance(x0: int, y0: int, err0: int, ghost r: int) returns (x: int, y: int, err: int)
    requires Loop(r, x0, y0, err0) && x0 >= y0
    ensures Loop(r, x, y, err) && StepsTo(r, (x0, y0), (x, y)) && x - y < x0 - y0
  {
    x, y, err := x0, y0, err0;
    if err > 0 { PositiveOffAxis(r, x, y, err); }
    hide ErrorAt;
    if err <= 0 {
      StepUp(r, x, y);
      y := y + 1;
      err := err + 2 * y + 1;
    }
    if err > 0 {
      StepIn(r, x, y);
      x := x - 1;
      err := err - (2 * x + 1);
    }
  }

  /** For every radius that is not negative the loop ends. The steps start on the axis, each is close to the circle and
      the next after the one before, and they go on until the diagonal is reached. */
  method DrawCircle(center: Point, radius: int) returns (points: seq<Point>, ghost arc: seq<Point>)
    ensures radius < 0 ==> points == []
    ensures radius >= 0 ==> arc != [] && arc[0] == (radius, 0) && Connected(radius, arc)
    ensures forall i :: 0 <= i < |arc| ==> OnArc(radius, arc[i])
    ensures radius >= 0 ==> var n := NextPoint(radius, arc[|arc| - 1]); n.0 < n.1
    ensures radius >= 0 ==> arc[|arc| - 1].0 - arc[|arc| - 1].1 <= 1
    ensures Symmetric(center, points) && DrawnFrom(center, arc, points) && |points| == 8 * |arc|
    ensures forall p :: p in points ==> Near(center, radius, p)
  {
    points, arc := [], [];
    AllSymmetric(center, arc);
    AllFrom(center, arc);
    if radius < 0 {
      return;
    }
    var x, y, err := radius, 0, 0;
    Starts(radius);
    assert Connected(radius, [(x, y)]);
    hide ErrorAt, OnArc, Loop, Connected, StepsTo, NextPoint, Eight, Symmetric, DrawnFrom, Near;
    while x >= y
      invariant Loop(radius, x, y, err)
      invariant points == AllEight(center, arc) && forall i :: 0 <= i < |arc| ==> OnArc(radius, arc[i])
      invariant Connected(radius, arc + [(x, y)]) && (arc + [(x, y)])[0] == (radius, 0)
      invariant arc == [] ==> x >= y
      invariant arc != [] ==> (x, y) == NextPoint(radius, arc[|arc| - 1])
      invariant arc != [] && x < y ==> arc[|arc| - 1].0 - arc[|arc| - 1].1 <= 1
      decreases x - y
    {
      Plotted(radius, x, y, err);
      points := PlotEight(points, center, x, y);
      ghost var now := arc + [(x, y)];
      assert now[..|arc|] == arc;
      var x', y', err' := Advance(x, y, err, radius);
      NextStep(radius, (x, y), (x', y'));
      ConnectedSnoc(radius, now, (x', y'));
      arc := now;
      x, y, err := x', y', err';
    }
    ConnectedFront(radius, arc, (x, y));
    AllSymmetric(center, arc);
    AllFrom(center, arc);
    DrawnNear(center, radius, arc, points);
  }

  /** When the loop goes up and when it goes in, said by the square of the distance one pixel up. */
  lemma StepRule(r: int, p: Point, q: Point)
    requires StepsTo(r, p, q)
    ensures q.1 == p.1 + 1 <==> p.0 * p.0 + (p.1 + 1) * (p.1 + 1) <= r * r + 1
    ensures q.0 == p.0 - 1 <==> p.0 * p.0 + (q.1 + 1) * (q.1 + 1) > r * r + 1
  {
  }

  lemma NextStep(r: int, p: Point, q: Point)
    requires StepsTo(r, p, q)
    ensures q == NextPoint(r, p) && q.0 - q.1 >= p.0 - p.1 - 2
  {
  }

  lemma ConnectedSnoc(r: int, arc: seq<Point>, q: Point)
    requires arc != [] && Connected(r, arc) && StepsTo(r, arc[|arc| - 1], q)
    ensures Connected(r, arc + [q])
  {
    hide StepsTo;
  }

  lemma ConnectedFront(r: int, arc: seq<Point>, q: Point)
    requires Connected(r, arc + [q])
    ensures Connected(r, arc)
  {
    hide StepsTo;
    var all := arc + [q];
    forall i, j | 0 <= i < |arc| && j == i + 1 < |arc|
      ensures StepsTo(r, arc[i], arc[j])
    {
      assert all[i] == arc[i] && all[j] == arc[j];
    }
  }
}
