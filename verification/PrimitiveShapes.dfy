/** Quad strips and polygons drawn as strips and fans: do the same vertices make the same shape
    (src/backend_ast/graphics_3d_backend_ios.c:1822-1828, 1400-1417)? */
module PrimitiveShapes {
  import DisplayList
  import opened PrimitiveAssembly

  /** The primitives the renderer has a path for, by their numbers in OpenGL. */
  ghost function KindOf(primitive: nat): Kind {
    match primitive
    case 4 => Triangles
    case 5 => TriangleStrip
    case 6 => TriangleFan
    case 7 => Quads
    case _ => OtherKind
  }

  /** How the renderer takes what it is asked to draw. */
  ghost function DrawnAs(primitive: nat): Kind {
    KindOf(DisplayList.Drawable(primitive))
  }

  /** Triangles, strips, fans and quads are drawn as what they are. */
  lemma OthersStay(primitive: nat)
    requires primitive != 8 && primitive != 9
    ensures DrawnAs(primitive) == KindOf(primitive)
  {
  }

  // ---- quad strips

  /** Each two vertices behind the first two close a quad; one left over closes none. */
  ghost function QuadsInStrip(n: nat): nat {
    if n < 4 then 0 else n / 2 - 1
  }

  /** Quad i goes round the vertices 2i, 2i + 1, 2i + 3 and 2i + 2. */
  ghost predicate RoundQuad(i: nat, a: nat, b: nat) {
    || (a == 2 * i && b == 2 * i + 1) || (a == 2 * i + 1 && b == 2 * i + 3)
    || (a == 2 * i + 3 && b == 2 * i + 2) || (a == 2 * i + 2 && b == 2 * i)
  }

  /** An edge of one of two triangles that is not cancelled by the other passing it in the other direction. */
  ghost predicate Outlines(t: Tri, u: Tri, a: nat, b: nat) {
    (Winds(t, a, b) && !Winds(u, b, a)) || (Winds(u, a, b) && !Winds(t, b, a))
  }

  /** Two triangles of a quad strip are one of its quads, facing the same way. */
  lemma QuadOfStrip(n: nat, i: nat, a: nat, b: nat)
    requires i < QuadsInStrip(n)
    ensures 2 * i + 1 < TriCount(DrawnAs(8), n)
    ensures Outlines(TriAt(DrawnAs(8), 2 * i), TriAt(DrawnAs(8), 2 * i + 1), a, b) <==> RoundQuad(i, a, b)
  {
    assert TriAt(DrawnAs(8), 2 * i) == (2 * i, 2 * i + 1, 2 * i + 2);
    assert TriAt(DrawnAs(8), 2 * i + 1) == (2 * i + 2, 2 * i + 1, 2 * i + 3);
  }

  /** A quad strip has no triangle beside those of its quads exactly if no vertex is left over: with three or more
      vertices and an odd one at the end, a triangle is drawn that is not part of it. */
  lemma QuadStripIff(n: nat)
    ensures TriCount(DrawnAs(8), n) == 2 * QuadsInStrip(n) <==> n % 2 == 0 || n == 1
    ensures TriCount(DrawnAs(8), n) <= 2 * QuadsInStrip(n) + 1
  {
    assert DrawnAs(8) == TriangleStrip;
  }

  // ---- polygons

  ghost predicate InFan(n: nat, a: nat, b: nat) {
    exists i: nat :: i < TriCount(DrawnAs(9), n) && Winds(TriAt(DrawnAs(9), i), a, b)
  }

  lemma FanEdge(n: nat, a: nat, b: nat)
    requires n >= 3
    ensures InFan(n, a, b) <==>
      || (1 <= a && b == a + 1 && b < n) || (a == 0 && 1 <= b < n - 1) || (b == 0 && 2 <= a < n)
  {
    assert DrawnAs(9) == TriangleFan;
    if 1 <= a && b == a + 1 && b < n { assert Winds(TriAt(DrawnAs(9), a - 1), a, b); }
    if a == 0 && 1 <= b < n - 1 { assert Winds(TriAt(DrawnAs(9), b - 1), a, b); }
    if b == 0 && 2 <= a < n { assert Winds(TriAt(DrawnAs(9), a - 2), a, b); }
  }

  /** The triangles of a polygon fill it: the edges not passed in both directions go round all its vertices in order. */
  lemma PolygonOutline(n: nat, a: nat, b: nat)
    requires n >= 3
    ensures InFan(n, a, b) && !InFan(n, b, a) <==> a < n && b == if a == n - 1 then 0 else a + 1
  {
    FanEdge(n, a, b);
    FanEdge(n, b, a);
    hide InFan;
  }
}
