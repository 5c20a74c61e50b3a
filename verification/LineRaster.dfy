/** drawLineSegment (src/backend_ast/graphics_3d_backend_ios.c:1078-1108) on integer end points. */
module LineRaster {

  type Pixel = (int, int)

  function Abs(x: int): nat {
    if x < 0 then -x else x
  }

  function Max(a: nat, b: nat): nat {
    if a > b then a else b
  }

  function Toward(a: int, b: int): int {
    if a < b then 1 else -1
  }

  /** `i * e / d` to the nearest integer, halves upwards. */
  ghost function Nearest(i: nat, e: nat, d: nat): nat
    requires d > 0
  {
    (2 * i * e + d) / (2 * d)
  }

  /** The pixel of the ideal line from `p` to `q` at step `i` of the longer axis. */
  ghost function LinePoint(p: Pixel, q: Pixel, i: nat): Pixel
  {
    var dx, dy := Abs(q.0 - p.0), Abs(q.1 - p.1);
    var sx, sy := Toward(p.0, q.0), Toward(p.1, q.1);
    if dx == 0 && dy == 0 then p
    else if dx >= dy then (p.0 + sx * i, p.1 + sy * Nearest(i, dy, dx))
    else (p.0 + sx * Nearest(i, dx, dy), p.1 + sy * i)
  }

  ghost function Steps(p: Pixel, q: Pixel): nat {
    Max(Abs(q.0 - p.0), Abs(q.1 - p.1))
  }

  /** Y is `X * e / d` to the nearest integer, said without division. */
  ghost predicate Near(x: nat, y: nat, e: nat, d: nat) {
    d * (2 * y - 1) <= 2 * x * e < d * (2 * y + 1)
  }

  lemma NearIsNearest(x: nat, y: nat, e: nat, d: nat)
    requires d > 0 && Near(x, y, e, d)
    ensures y == Nearest(x, e, d)
  {
    var n := 2 * x * e + d;
    assert 2 * d * y <= n < 2 * d * (y + 1);
    DivideExactly(n, 2 * d, y);
  }

  lemma DivideExactly(n: nat, m: nat, k: nat)
    requires m > 0 && m * k <= n < m * (k + 1)
    ensures n / m == k
  {
    var q, r := n / m, n % m;
    assert n == m * q + r && 0 <= r < m;
    assert q < k ==> m * (q + 1) <= m * k;
    assert q > k ==> m * (k + 1) <= m * q;
  }

  /** What `err` holds once `x` columns and `y` rows have been crossed. */
  ghost function ErrAt(dx: nat, e: nat, x: nat, y: nat): int {
    dx * (y + 1) - e * (x + 1)
  }

  lemma ErrSteps(dx: nat, e: nat, x: nat, y: nat)
    ensures ErrAt(dx, e, x + 1, y) == ErrAt(dx, e, x, y) - e
    ensures ErrAt(dx, e, x, y + 1) == ErrAt(dx, e, x, y) + dx
  {
  }

  /** One step along the longer axis, `x`: `err` tells whether the shorter axis moves too. */
  lemma StepLonger(x: nat, y: nat, e: nat, d: nat, err: int)
    requires e <= d && d > 0 && Near(x, y, e, d)
    requires err == ErrAt(d, e, x, y)
    ensures 2 * err + e >= 0
    ensures if 2 * err <= d then Near(x + 1, y + 1, e, d) else Near(x + 1, y, e, d)
  {
    assert 2 * err == 2 * d * y + 2 * d - 2 * x * e - 2 * e;
    assert 2 * (x + 1) * e == 2 * x * e + 2 * e;
    assert d * (2 * (y + 1) - 1) == 2 * d * y + d;
    assert d * (2 * (y + 1) + 1) == 2 * d * y + 3 * d;
  }

  /** The same with the roles of the axes exchanged, where ties are broken by the other comparison. */
  lemma StepShorter(x: nat, y: nat, e: nat, d: nat, err: int)
    requires d < e && Near(y, x, d, e)
    requires err == ErrAt(d, e, x, y)
    ensures 2 * err <= d
    ensures if 2 * err + e >= 0 then Near(y + 1, x + 1, d, e) else Near(y + 1, x, d, e)
  {
    assert 2 * err == 2 * y * d + 2 * d - 2 * e * x - 2 * e;
    assert 2 * (y + 1) * d == 2 * y * d + 2 * d;
    assert e * (2 * (x + 1) - 1) == 2 * e * x + e;
    assert e * (2 * (x + 1) + 1) == 2 * e * x + 3 * e;
  }

  lemma CancelFactor(d: int, a: int, b: int)
    requires d > 0
    ensures d * a <= d * b ==> a <= b
    ensures d * a < d * b ==> a < b
  {
    var k := a - b;
    assert d * a == d * b + d * k;
    if k > 0 {
      assert d * k > 0;
    }
  }

  lemma NearAtEnd(d: nat, y: nat, e: nat)
    requires d > 0 && Near(d, y, e, d)
    ensures y == e
  {
    assert 2 * d * e == d * (2 * e);
    CancelFactor(d, 2 * y - 1, 2 * e);
    CancelFactor(d, 2 * e, 2 * y + 1);
  }

  /** After `i` steps `x` columns and `y` rows have been crossed. */
  ghost predicate Reached(dx: nat, e: nat, x: nat, y: nat, i: nat) {
    if dx == 0 && e == 0 then x == y == i == 0
    else if dx >= e then x == i && Near(x, y, e, dx)
    else y == i && Near(y, x, dx, e)
  }

  /** `x` steps of `s` from `a`. */
  ghost function Walked(a: int, s: int, x: nat): int {
    a + s * x
  }

  lemma ReachedStart(dx: nat, e: nat)
    ensures Reached(dx, e, 0, 0, 0) && ErrAt(dx, e, 0, 0) == dx - e
  {
  }

  lemma ReachedPoint(p: Pixel, q: Pixel, x: nat, y: nat, i: nat)
    requires Reached(Abs(q.0 - p.0), Abs(q.1 - p.1), x, y, i)
    ensures (Walked(p.0, Toward(p.0, q.0), x), Walked(p.1, Toward(p.1, q.1), y)) == LinePoint(p, q, i)
  {
    var dx, e := Abs(q.0 - p.0), Abs(q.1 - p.1);
    if dx >= e && dx > 0 {
      NearIsNearest(x, y, e, dx);
    } else if e > 0 {
      NearIsNearest(y, x, dx, e);
    }
  }

  lemma ReachedEnd(dx: nat, e: nat, x: nat, y: nat)
    requires Reached(dx, e, x, y, Max(dx, e))
    ensures x == dx && y == e
  {
    if dx >= e && dx > 0 {
      NearAtEnd(dx, y, e);
    } else if e > 0 {
      NearAtEnd(e, x, dx);
    }
  }

  lemma ReachedStep(dx: nat, e: nat, x: nat, y: nat, i: nat, err: int)
    requires Reached(dx, e, x, y, i) && i < Max(dx, e) && err == ErrAt(dx, e, x, y)
    ensures var x' := if 2 * err + e >= 0 then x + 1 else x;
      var y' := if 2 * err <= dx then y + 1 else y;
      var err' := err - (if 2 * err + e >= 0 then e else 0) + (if 2 * err <= dx then dx else 0);
      Reached(dx, e, x', y', i + 1) && err' == ErrAt(dx, e, x', y')
  {
    hide ErrAt, Near;
    if dx >= e {
      StepLonger(x, y, e, dx, err);
    } else {
      StepShorter(x, y, e, dx, err);
    }
    ErrSteps(dx, e, x, y);
    ErrSteps(dx, e, x + 1, y);
  }

  lemma AddSteps(a: int, s: int, x: nat)
    ensures Walked(a, s, 0) == a && Walked(a, s, x + 1) == Walked(a, s, x) + s
  {
  }

  /** The loop draws exactly the points of the ideal line, from one end to the other. */
  method DrawLineSegment(p: Pixel, q: Pixel) returns (pixels: seq<Pixel>)
    ensures |pixels| == Steps(p, q) + 1
    ensures forall i :: 0 <= i < |pixels| ==> pixels[i] == LinePoint(p, q, i)
  {
    hide LinePoint, Reached, Walked, ErrAt, Toward, Abs;
    var x0, y0, x1, y1 := p.0, p.1, q.0, q.1;
    var dx := Abs(x1 - x0);
    var sx := Toward(x0, x1);
    var dy: int := 0 - Abs(y1 - y0);
    var sy := Toward(y0, y1);
    var err := dx + dy;
    var steps := Max(dx, -dy);
    pixels := [];
    ghost var x: nat, y: nat, e: nat := 0, 0, Abs(q.1 - p.1);
    ReachedStart(dx, e);
    AddSteps(p.0, sx, 0);
    AddSteps(p.1, sy, 0);
    var i := 0;
    while i <= steps
      invariant 0 <= i <= steps && |pixels| == i
      invariant x0 == Walked(p.0, sx, x) && y0 == Walked(p.1, sy, y)
      invariant err == ErrAt(dx, e, x, y)
      invariant Reached(dx, e, x, y, i)
      invariant forall j :: 0 <= j < i ==> pixels[j] == LinePoint(p, q, j)
      decreases steps - i
    {
      ReachedPoint(p, q, x, y, i);
      pixels := pixels + [(x0, y0)];
      if i == steps {
        ReachedEnd(dx, e, x, y);
        WalkedAll(p.0, q.0);
        WalkedAll(p.1, q.1);
      }
      if x0 == x1 && y0 == y1 {
        SameEnd(p, q, x, y, i);
        break;
      }
      var e2 := 2 * err;
      assert i < steps;
      ReachedStep(dx, e, x, y, i, err);
      AddSteps(p.0, sx, x);
      AddSteps(p.1, sy, y);
      if e2 >= dy {
        err := err + dy;
        x0 := x0 + sx;
        x := x + 1;
      }
      if e2 <= dx {
        err := err + dx;
        y0 := y0 + sy;
        y := y + 1;
      }
      i := i + 1;
    }
  }

  lemma WalkedAll(a: int, b: int)
    ensures Walked(a, Toward(a, b), Abs(b - a)) == b
  {
  }

  lemma SameEnd(p: Pixel, q: Pixel, x: nat, y: nat, i: nat)
    requires Reached(Abs(q.0 - p.0), Abs(q.1 - p.1), x, y, i)
    requires Walked(p.0, Toward(p.0, q.0), x) == q.0 && Walked(p.1, Toward(p.1, q.1), y) == q.1
    ensures i == Steps(p, q)
  {
  }

  lemma NearestIsNear(i: nat, e: nat, d: nat)
    requires d > 0
    ensures Near(i, Nearest(i, e, d), e, d)
  {
    var n, y: int := 2 * i * e + d, Nearest(i, e, d);
    assert 2 * d * y <= n < 2 * d * y + 2 * d;
    assert d * (2 * y - 1) == 2 * d * y - d;
    assert d * (2 * y + 1) == 2 * d * y + d;
  }

  lemma NearestEnds(e: nat, d: nat)
    requires d > 0
    ensures Nearest(0, e, d) == 0 && Nearest(d, e, d) == e
  {
    NearestIsNear(0, e, d);
    NearestIsNear(d, e, d);
    assert Near(0, 0, e, d);
    NearIsNearest(0, 0, e, d);
    NearAtEnd(d, Nearest(d, e, d), e);
  }

  lemma NearestSteps(i: nat, e: nat, d: nat)
    requires d > 0 && e <= d
    ensures Nearest(i, e, d) <= Nearest(i + 1, e, d) <= Nearest(i, e, d) + 1
  {
    var y := Nearest(i, e, d);
    NearestIsNear(i, e, d);
    hide Near, Nearest;
    StepLonger(i, y, e, d, ErrAt(d, e, i, y));
    NearIsNearest(i + 1, if 2 * ErrAt(d, e, i, y) <= d then y + 1 else y, e, d);
  }

  /** A point is within half a pixel of the ideal line on the shorter axis; half-way between two points it is the one
      further on. */
  ghost predicate WithinHalf(d: nat, e: nat, i: nat, y: nat) {
    0 < 2 * (d * y - i * e) + d <= 2 * d
  }

  lemma NearestWithinHalf(d: nat, e: nat, i: nat)
    requires d > 0
    ensures WithinHalf(d, e, i, Nearest(i, e, d))
  {
    var y: int := Nearest(i, e, d);
    NearestIsNear(i, e, d);
    assert d * (2 * y - 1) == 2 * (d * y) - d;
    assert d * (2 * y + 1) == 2 * (d * y) + d;
    assert 2 * i * e == 2 * (i * e);
  }

  ghost predicate Neighbours(a: Pixel, b: Pixel) {
    Max(Abs(b.0 - a.0), Abs(b.1 - a.1)) == 1
  }

  lemma StepsApart(a: int, s: int, x: nat, x': nat)
    requires s == 1 || s == -1
    requires x <= x' <= x + 1
    ensures Abs((a + s * x') - (a + s * x)) == x' - x
  {
  }

  /** The points drawn join the two ends ... */
  lemma LineEnds(p: Pixel, q: Pixel)
    ensures LinePoint(p, q, 0) == p && LinePoint(p, q, Steps(p, q)) == q
  {
    var dx, dy := Abs(q.0 - p.0), Abs(q.1 - p.1);
    if dx > 0 || dy > 0 {
      NearestEnds(if dx >= dy then dy else dx, Max(dx, dy));
    }
    WalkedAll(p.0, q.0);
    WalkedAll(p.1, q.1);
  }

  /** ... through neighbours, each one step further along the longer axis ... */
  lemma LineNeighbours(p: Pixel, q: Pixel, i: nat)
    requires i < Steps(p, q)
    ensures Neighbours(LinePoint(p, q, i), LinePoint(p, q, i + 1))
  {
    var dx, dy := Abs(q.0 - p.0), Abs(q.1 - p.1);
    var sx, sy := Toward(p.0, q.0), Toward(p.1, q.1);
    if dx >= dy {
      NearestSteps(i, dy, dx);
      StepsApart(p.0, sx, i, i + 1);
      StepsApart(p.1, sy, Nearest(i, dy, dx), Nearest(i + 1, dy, dx));
    } else {
      NearestSteps(i, dx, dy);
      StepsApart(p.1, sy, i, i + 1);
      StepsApart(p.0, sx, Nearest(i, dx, dy), Nearest(i + 1, dx, dy));
    }
    hide Nearest, Abs;
  }

  /** ... and within half a pixel of the ideal line on the shorter one. */
  lemma LineWithinHalf(p: Pixel, q: Pixel, i: nat) returns (y: nat)
    requires Steps(p, q) > 0
    ensures if Abs(q.0 - p.0) >= Abs(q.1 - p.1)
            then LinePoint(p, q, i) == (p.0 + Toward(p.0, q.0) * i, p.1 + Toward(p.1, q.1) * y) &&
                 WithinHalf(Abs(q.0 - p.0), Abs(q.1 - p.1), i, y)
            else LinePoint(p, q, i) == (p.0 + Toward(p.0, q.0) * y, p.1 + Toward(p.1, q.1) * i) &&
                 WithinHalf(Abs(q.1 - p.1), Abs(q.0 - p.0), i, y)
  {
    var dx, dy := Abs(q.0 - p.0), Abs(q.1 - p.1);
    var d, e := Max(dx, dy), if dx >= dy then dy else dx;
    y := Nearest(i, e, d);
    NearestWithinHalf(d, e, i);
    hide Nearest, WithinHalf, Abs;
  }
}
