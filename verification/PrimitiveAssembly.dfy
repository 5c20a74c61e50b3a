/** Turning immediate-mode vertices into triangles (src/backend_ast/graphics_3d_backend_ios.c:1258-1263, 1308-1573):
    the Metal path, the indexed SDL path and the software rasteriser. */
module PrimitiveAssembly {
  import opened MetalQueue

  datatype Kind = Triangles | TriangleStrip | TriangleFan | Quads | OtherKind

  type Tri = (nat, nat, nat)

  ghost function StripTri(i: nat): Tri {
    if i % 2 == 0 then (i, i + 1, i + 2) else (i + 1, i, i + 2)
  }

  ghost function QuadTri(i: nat): Tri {
    var base := 4 * (i / 2);
    if i % 2 == 0 then (base, base + 1, base + 2) else (base, base + 2, base + 3)
  }

  function TriCount(kind: Kind, n: nat): nat {
    match kind
    case Triangles => n / 3
    case TriangleStrip => if n >= 3 then n - 2 else 0
    case TriangleFan => if n >= 3 then n - 2 else 0
    case Quads => (n / 4) * 2
    case OtherKind => 0
  }

  /** The i-th triangle that `kind` cuts out of its vertices. */
  ghost function TriAt(kind: Kind, i: nat): Tri {
    match kind
    case Triangles => (3 * i, 3 * i + 1, 3 * i + 2)
    case TriangleStrip => StripTri(i)
    case TriangleFan => (0, i + 1, i + 2)
    case Quads => QuadTri(i)
    case OtherKind => (0, 0, 0)
  }

  ghost predicate InRange(t: Tri, n: nat) {
    t.0 < n && t.1 < n && t.2 < n
  }

  lemma TriInRange(kind: Kind, n: nat, i: nat)
    requires i < TriCount(kind, n)
    ensures InRange(TriAt(kind, i), n)
  {
  }

  predicate AllValid(vs: seq<Vertex>, t: Tri)
    requires InRange(t, |vs|)
  {
    vs[t.0].valid && vs[t.1].valid && vs[t.2].valid
  }

  /** The first `k` triangles, those with a rejected vertex left out. */
  ghost function Kept(kind: Kind, vs: seq<Vertex>, k: nat): (ts: seq<Tri>)
    requires k <= TriCount(kind, |vs|)
    ensures |ts| <= k && forall t :: t in ts ==> InRange(t, |vs|)
  {
    if k == 0 then []
    else
      TriInRange(kind, |vs|, k - 1);
      Kept(kind, vs, k - 1) + (if AllValid(vs, TriAt(kind, k - 1)) then [TriAt(kind, k - 1)] else [])
  }

  lemma KeptNext(kind: Kind, vs: seq<Vertex>, k: nat, t: Tri)
    requires k < TriCount(kind, |vs|) && t == TriAt(kind, k)
    ensures InRange(t, |vs|)
    ensures Kept(kind, vs, k + 1) == Kept(kind, vs, k) + if AllValid(vs, t) then [t] else []
  {
    TriInRange(kind, |vs|, k);
  }

  lemma KeptNone(kind: Kind, vs: seq<Vertex>)
    ensures Kept(kind, vs, 0) == []
  {
  }

  /** The two halves of quad `b`. */
  lemma QuadHalves(n: nat, b: nat)
    requires 4 * b + 3 < n
    ensures 2 * b + 1 < TriCount(Quads, n)
    ensures TriAt(Quads, 2 * b) == (4 * b, 4 * b + 1, 4 * b + 2)
    ensures TriAt(Quads, 2 * b + 1) == (4 * b, 4 * b + 2, 4 * b + 3)
  {
    assert (2 * b) / 2 == b && (2 * b + 1) / 2 == b;
  }

  lemma QuadsDone(n: nat, b: nat)
    requires 4 * b <= n + 3 && 4 * b + 3 >= n && 2 * b <= TriCount(Quads, n)
    ensures TriCount(Quads, n) == 2 * b
  {
  }

  /** What every path has to draw. */
  ghost function Assembled(kind: Kind, vs: seq<Vertex>): seq<Tri> {
    Kept(kind, vs, TriCount(kind, |vs|))
  }

  lemma {:induction false} FanNeedsCenter(vs: seq<Vertex>, k: nat)
    requires k <= TriCount(TriangleFan, |vs|) && (|vs| > 0 ==> !vs[0].valid)
    ensures Kept(TriangleFan, vs, k) == []
  {
    if k > 0 {
      FanNeedsCenter(vs, k - 1);
    }
  }

  /** A triangle of the primitive, by its indices into n vertices. */
  ghost predicate Cuts(kind: Kind, n: nat, t: Tri) {
    match kind
    case Triangles => t.0 % 3 == 0 && t.1 == t.0 + 1 && t.2 == t.0 + 2 && t.2 < n
    case TriangleStrip =>
      && 2 <= t.2 < n
      && if t.2 % 2 == 0 then t.0 == t.2 - 2 && t.1 == t.2 - 1 else t.0 == t.2 - 1 && t.1 == t.2 - 2
    case TriangleFan => t.0 == 0 && t.1 >= 1 && t.2 == t.1 + 1 && t.2 < n
    case Quads =>
      && t.0 % 4 == 0 && t.0 + 3 < n
      && ((t.1 == t.0 + 1 && t.2 == t.0 + 2) || (t.1 == t.0 + 2 && t.2 == t.0 + 3))
    case OtherKind => false
  }

  /** Its place among the triangles of the primitive. */
  ghost function PlaceOf(kind: Kind, t: Tri): (i: int) {
    match kind
    case Triangles => t.0 / 3
    case TriangleStrip => t.2 - 2
    case TriangleFan => t.2 - 2
    case Quads => t.0 / 4 * 2 + if t.1 == t.0 + 1 then 0 else 1
    case OtherKind => 0
  }

  lemma CutsIff(kind: Kind, n: nat, t: Tri)
    ensures Cuts(kind, n, t) <==>
      0 <= PlaceOf(kind, t) < TriCount(kind, n) && TriAt(kind, PlaceOf(kind, t)) == t
  {
  }

  lemma CutAt(kind: Kind, n: nat, i: nat)
    requires i < TriCount(kind, n)
    ensures Cuts(kind, n, TriAt(kind, i)) && PlaceOf(kind, TriAt(kind, i)) == i
  {
  }

  lemma PlacesRise(kind: Kind, n: nat, t: Tri, u: Tri)
    requires Cuts(kind, n, t) && Cuts(kind, n, u) && PlaceOf(kind, t) < PlaceOf(kind, u)
    ensures t.2 < u.2
  {
  }

  lemma {:induction false} KeptAre(kind: Kind, vs: seq<Vertex>, k: nat, t: Tri)
    requires k <= TriCount(kind, |vs|)
    ensures t in Kept(kind, vs, k) <==>
      Cuts(kind, |vs|, t) && PlaceOf(kind, t) < k && InRange(t, |vs|) && AllValid(vs, t)
  {
    CutsIff(kind, |vs|, t);
    if k > 0 {
      KeptAre(kind, vs, k - 1, t);
      CutAt(kind, |vs|, k - 1);
      TriInRange(kind, |vs|, k - 1);
    }
    hide Cuts, PlaceOf, TriAt, TriCount;
  }

  ghost predicate Rising(ts: seq<Tri>) {
    forall i, j :: 0 <= i < j < |ts| ==> ts[i].2 < ts[j].2
  }

  lemma KeptBelow(kind: Kind, vs: seq<Vertex>, k: nat, t: Tri)
    requires k < TriCount(kind, |vs|) && t in Kept(kind, vs, k)
    ensures t.2 < TriAt(kind, k).2
  {
    hide Kept, Cuts, PlaceOf, TriAt, TriCount, AllValid;
    KeptAre(kind, vs, k, t);
    CutAt(kind, |vs|, k);
    PlacesRise(kind, |vs|, t, TriAt(kind, k));
  }

  lemma {:induction false} KeptRise(kind: Kind, vs: seq<Vertex>, k: nat)
    requires k <= TriCount(kind, |vs|)
    ensures Rising(Kept(kind, vs, k))
  {
    if k > 0 {
      var front, last := Kept(kind, vs, k - 1), TriAt(kind, k - 1);
      KeptNext(kind, vs, k - 1, last);
      hide *;
      KeptRise(kind, vs, k - 1);
      forall t | t in front
        ensures t.2 < last.2
      {
        KeptBelow(kind, vs, k - 1, t);
      }
      RisingSnoc(front, last);
      assert front + [] == front;
    }
  }

  lemma RisingSnoc(front: seq<Tri>, last: Tri)
    requires Rising(front) && forall t :: t in front ==> t.2 < last.2
    ensures Rising(front + [last])
  {
  }

  /** What is assembled are the triangles of the primitive with three accepted vertices, in the order of their last
      vertices, each once. */
  lemma AssembledAre(kind: Kind, vs: seq<Vertex>)
    ensures var ts := Assembled(kind, vs);
      && (forall t :: t in ts <==> Cuts(kind, |vs|, t) && InRange(t, |vs|) && AllValid(vs, t))
      && Rising(ts)
  {
    forall t
      ensures t in Assembled(kind, vs) <==> Cuts(kind, |vs|, t) && InRange(t, |vs|) && AllValid(vs, t)
    {
      KeptAre(kind, vs, TriCount(kind, |vs|), t);
      CutsIff(kind, |vs|, t);
      hide Cuts, PlaceOf, TriAt, TriCount, Kept;
    }
    KeptRise(kind, vs, TriCount(kind, |vs|));
    hide Cuts, TriAt, TriCount, Kept, Rising;
  }

  /** The edge from a to b, in the direction of the triangle. */
  ghost predicate Winds(t: Tri, a: nat, b: nat) {
    (a == t.0 && b == t.1) || (a == t.1 && b == t.2) || (a == t.2 && b == t.0)
  }

  /** Neighbours in a strip pass their common edge in opposite directions: all of them face the same way. */
  lemma StripWindsAlike(vs: seq<Vertex>, t: Tri, u: Tri)
    requires t in Assembled(TriangleStrip, vs) && u in Assembled(TriangleStrip, vs) && u.2 == t.2 + 1
    ensures t.2 > 0
    ensures var p, q: nat := t.2 - 1, t.2; (Winds(t, p, q) && Winds(u, q, p)) || (Winds(t, q, p) && Winds(u, p, q))
  {
    AssembledAre(TriangleStrip, vs);
    assert Cuts(TriangleStrip, |vs|, t) && Cuts(TriangleStrip, |vs|, u);
    hide Assembled, AllValid;
  }

  // ---- the indexed path: triples of indices into a buffer

  method EmitIndexed(vs: seq<Vertex>, t: Tri, tris: array<Tri>, out: nat) returns (out': nat)
    requires InRange(t, |vs|) && out < tris.Length
    modifies tris
    ensures out <= out' <= out + 1 && tris[..out'] == old(tris[..out]) + if AllValid(vs, t) then [t] else []
  {
    if !AllValid(vs, t) {
      return out;
    }
    tris[out] := t;
    return out + 1;
  }

  method IndexedTriangles(vs: seq<Vertex>, tris: array<Tri>) returns (out: nat)
    requires TriCount(Triangles, |vs|) <= tris.Length
    modifies tris
    ensures out <= tris.Length && tris[..out] == Assembled(Triangles, vs)
  {
    hide Kept;
    KeptNone(Triangles, vs);
    out := 0;
    var i := 0;
    ghost var k: nat := 0;
    while i + 2 < |vs|
      invariant i == 3 * k && k <= TriCount(Triangles, |vs|)
      invariant out <= k && tris[..out] == Kept(Triangles, vs, k)
    {
      KeptNext(Triangles, vs, k, (i, i + 1, i + 2));
      out := EmitIndexed(vs, (i, i + 1, i + 2), tris, out);
      i, k := i + 3, k + 1;
    }
  }

  method IndexedTriangleStrip(vs: seq<Vertex>, tris: array<Tri>) returns (out: nat)
    requires TriCount(TriangleStrip, |vs|) <= tris.Length
    modifies tris
    ensures out <= tris.Length && tris[..out] == Assembled(TriangleStrip, vs)
  {
    hide Kept;
    KeptNone(TriangleStrip, vs);
    out := 0;
    var i := 0;
    ghost var k: nat := 0;
    while i + 2 < |vs|
      invariant i == k && k <= TriCount(TriangleStrip, |vs|)
      invariant out <= k && tris[..out] == Kept(TriangleStrip, vs, k)
    {
      var aIndex, bIndex := if i % 2 == 0 then i else i + 1, if i % 2 == 0 then i + 1 else i;
      KeptNext(TriangleStrip, vs, k, (aIndex, bIndex, i + 2));
      out := EmitIndexed(vs, (aIndex, bIndex, i + 2), tris, out);
      i, k := i + 1, k + 1;
    }
  }

  method IndexedTriangleFan(vs: seq<Vertex>, tris: array<Tri>) returns (out: nat)
    requires TriCount(TriangleFan, |vs|) <= tris.Length
    modifies tris
    ensures out <= tris.Length && tris[..out] == Assembled(TriangleFan, vs)
  {
    hide Kept;
    KeptNone(TriangleFan, vs);
    out := 0;
    if |vs| == 0 || !vs[0].valid {
      FanNeedsCenter(vs, TriCount(TriangleFan, |vs|));
      return;
    }
    var i := 1;
    ghost var k: nat := 0;
    while i + 1 < |vs|
      invariant i == k + 1 && k <= TriCount(TriangleFan, |vs|)
      invariant out <= k && tris[..out] == Kept(TriangleFan, vs, k)
    {
      KeptNext(TriangleFan, vs, k, (0, i, i + 1));
      out := EmitIndexed(vs, (0, i, i + 1), tris, out);
      i, k := i + 1, k + 1;
    }
  }

  method IndexedQuads(vs: seq<Vertex>, tris: array<Tri>) returns (out: nat)
    requires TriCount(Quads, |vs|) <= tris.Length
    modifies tris
    ensures out <= tris.Length && tris[..out] == Assembled(Quads, vs)
  {
    hide Kept, TriAt, TriCount;
    KeptNone(Quads, vs);
    out := 0;
    var i := 0;
    ghost var k: nat, b: nat := 0, 0;
    while i + 3 < |vs|
      invariant i == 2 * k && i == 4 * b && i <= |vs| && k <= TriCount(Quads, |vs|)
      invariant out <= k && tris[..out] == Kept(Quads, vs, k)
    {
      QuadHalves(|vs|, b);
      KeptNext(Quads, vs, k, (i, i + 1, i + 2));
      KeptNext(Quads, vs, k + 1, (i, i + 2, i + 3));
      out := EmitIndexed(vs, (i, i + 1, i + 2), tris, out);
      assert tris[..out] == Kept(Quads, vs, k + 1);
      out := EmitIndexed(vs, (i, i + 2, i + 3), tris, out);
      i, k, b := i + 4, k + 2, b + 1;
    }
    QuadsDone(|vs|, b);
  }

  method AssembleIndexed(kind: Kind, vs: seq<Vertex>, tris: array<Tri>) returns (out: nat)
    requires TriCount(kind, |vs|) <= tris.Length
    modifies tris
    ensures out <= tris.Length && tris[..out] == Assembled(kind, vs)
  {
    match kind {
      case Triangles => out := IndexedTriangles(vs, tris);
      case TriangleStrip => out := IndexedTriangleStrip(vs, tris);
      case TriangleFan => out := IndexedTriangleFan(vs, tris);
      case Quads => out := IndexedQuads(vs, tris);
      case OtherKind => out := 0;
    }
  }

  // ---- the software path: every triangle is handed to the rasteriser, which drops the invalid ones

  /** The test at the head of the rasteriser; what it fills in is not part of this model. */
  method RasterizeTriangle(vs: seq<Vertex>, t: Tri, drawn: seq<Tri>) returns (drawn': seq<Tri>)
    requires InRange(t, |vs|)
    ensures drawn' == drawn + if AllValid(vs, t) then [t] else []
  {
    if !vs[t.0].valid || !vs[t.1].valid || !vs[t.2].valid {
      return drawn;
    }
    return drawn + [t];
  }

  method RasterizeTriangles(vs: seq<Vertex>) returns (drawn: seq<Tri>)
    ensures drawn == Assembled(Triangles, vs)
  {
    hide Kept;
    KeptNone(Triangles, vs);
    drawn := [];
    var i := 0;
    ghost var k: nat := 0;
    while i + 2 < |vs|
      invariant i == 3 * k && k <= TriCount(Triangles, |vs|)
      invariant drawn == Kept(Triangles, vs, k)
    {
      KeptNext(Triangles, vs, k, (i, i + 1, i + 2));
      drawn := RasterizeTriangle(vs, (i, i + 1, i + 2), drawn);
      i, k := i + 3, k + 1;
    }
  }

  method RasterizeTriangleStrip(vs: seq<Vertex>) returns (drawn: seq<Tri>)
    ensures drawn == Assembled(TriangleStrip, vs)
  {
    hide Kept;
    KeptNone(TriangleStrip, vs);
    drawn := [];
    var i := 0;
    ghost var k: nat := 0;
    while i + 2 < |vs|
      invariant i == k && k <= TriCount(TriangleStrip, |vs|)
      invariant drawn == Kept(TriangleStrip, vs, k)
    {
      var aIndex, bIndex := if i % 2 == 0 then i else i + 1, if i % 2 == 0 then i + 1 else i;
      KeptNext(TriangleStrip, vs, k, (aIndex, bIndex, i + 2));
      drawn := RasterizeTriangle(vs, (aIndex, bIndex, i + 2), drawn);
      i, k := i + 1, k + 1;
    }
  }

  method RasterizeTriangleFan(vs: seq<Vertex>) returns (drawn: seq<Tri>)
    ensures drawn == Assembled(TriangleFan, vs)
  {
    hide Kept;
    KeptNone(TriangleFan, vs);
    drawn := [];
    var i := 1;
    ghost var k: nat := 0;
    while i + 1 < |vs|
      invariant i == k + 1 && k <= TriCount(TriangleFan, |vs|)
      invariant drawn == Kept(TriangleFan, vs, k)
    {
      KeptNext(TriangleFan, vs, k, (0, i, i + 1));
      drawn := RasterizeTriangle(vs, (0, i, i + 1), drawn);
      i, k := i + 1, k + 1;
    }
  }

  method RasterizeQuads(vs: seq<Vertex>) returns (drawn: seq<Tri>)
    ensures drawn == Assembled(Quads, vs)
  {
    hide Kept, TriAt, TriCount;
    KeptNone(Quads, vs);
    drawn := [];
    var i := 0;
    ghost var k: nat, b: nat := 0, 0;
    while i + 3 < |vs|
      invariant i == 2 * k && i == 4 * b && i <= |vs| && k <= TriCount(Quads, |vs|)
      invariant drawn == Kept(Quads, vs, k)
    {
      QuadHalves(|vs|, b);
      KeptNext(Quads, vs, k, (i, i + 1, i + 2));
      KeptNext(Quads, vs, k + 1, (i, i + 2, i + 3));
      drawn := RasterizeTriangle(vs, (i, i + 1, i + 2), drawn);
      assert drawn == Kept(Quads, vs, k + 1);
      drawn := RasterizeTriangle(vs, (i, i + 2, i + 3), drawn);
      i, k, b := i + 4, k + 2, b + 1;
    }
    QuadsDone(|vs|, b);
  }

  method RasterizeAll(kind: Kind, vs: seq<Vertex>) returns (drawn: seq<Tri>)
    ensures drawn == Assembled(kind, vs)
  {
    match kind {
      case Triangles => drawn := RasterizeTriangles(vs);
      case TriangleStrip => drawn := RasterizeTriangleStrip(vs);
      case TriangleFan => drawn := RasterizeTriangleFan(vs);
      case Quads => drawn := RasterizeQuads(vs);
      case OtherKind => drawn := [];
    }
  }

  // ---- the Metal path: corners written behind the queue of the frame

  ghost function CornersOf(vs: seq<Vertex>, ts: seq<Tri>): (cs: seq<Vertex>)
    requires forall t :: t in ts ==> InRange(t, |vs|)
    ensures |cs| == 3 * |ts|
  {
    if ts == [] then []
    else
      var t := ts[|ts| - 1];
      assert t in ts && InRange(t, |vs|);
      CornersOf(vs, ts[..|ts| - 1]) + [vs[t.0], vs[t.1], vs[t.2]]
  }

  lemma CornersSnoc(vs: seq<Vertex>, ts: seq<Tri>, t: Tri)
    requires InRange(t, |vs|) && forall t :: t in ts ==> InRange(t, |vs|)
    ensures forall u :: u in ts + [t] ==> InRange(u, |vs|)
    ensures CornersOf(vs, ts + [t]) == CornersOf(vs, ts) + [vs[t.0], vs[t.1], vs[t.2]]
  {
    assert (ts + [t])[..|ts|] == ts;
  }

  method EmitCorners(vs: seq<Vertex>, t: Tri, dst: array<Vertex>, base: nat, out: nat, ghost ts: seq<Tri>)
    returns (out': nat)
    requires InRange(t, |vs|) && base + out + 3 <= dst.Length && forall u :: u in ts ==> InRange(u, |vs|)
    requires dst[base..base + out] == CornersOf(vs, ts)
    modifies dst
    ensures out <= out' <= out + 3 && dst[..base] == old(dst[..base])
    ensures var ts' := ts + if AllValid(vs, t) then [t] else [];
      (forall u :: u in ts' ==> InRange(u, |vs|)) && dst[base..base + out'] == CornersOf(vs, ts')
  {
    if !AllValid(vs, t) {
      assert ts + [] == ts;
      return out;
    }
    dst[base + out] := vs[t.0];
    dst[base + out + 1] := vs[t.1];
    dst[base + out + 2] := vs[t.2];
    CornersSnoc(vs, ts, t);
    assert dst[base..base + out + 3] == old(dst[base..base + out]) + [vs[t.0], vs[t.1], vs[t.2]];
    return out + 3;
  }

  method CornersTriangles(vs: seq<Vertex>, dst: array<Vertex>, base: nat) returns (out: nat)
    requires base + 3 * TriCount(Triangles, |vs|) <= dst.Length
    modifies dst
    ensures out <= 3 * TriCount(Triangles, |vs|) && dst[..base] == old(dst[..base])
    ensures dst[base..base + out] == CornersOf(vs, Assembled(Triangles, vs))
  {
    hide Kept;
    KeptNone(Triangles, vs);
    out := 0;
    var i := 0;
    ghost var k: nat := 0;
    while i + 2 < |vs|
      invariant i == 3 * k && k <= TriCount(Triangles, |vs|)
      invariant out <= 3 * k && dst[..base] == old(dst[..base])
      invariant dst[base..base + out] == CornersOf(vs, Kept(Triangles, vs, k))
    {
      KeptNext(Triangles, vs, k, (i, i + 1, i + 2));
      out := EmitCorners(vs, (i, i + 1, i + 2), dst, base, out, Kept(Triangles, vs, k));
      i, k := i + 3, k + 1;
    }
  }

  method CornersTriangleStrip(vs: seq<Vertex>, dst: array<Vertex>, base: nat) returns (out: nat)
    requires base + 3 * TriCount(TriangleStrip, |vs|) <= dst.Length
    modifies dst
    ensures out <= 3 * TriCount(TriangleStrip, |vs|) && dst[..base] == old(dst[..base])
    ensures dst[base..base + out] == CornersOf(vs, Assembled(TriangleStrip, vs))
  {
    hide Kept;
    KeptNone(TriangleStrip, vs);
    out := 0;
    var i := 0;
    ghost var k: nat := 0;
    while i + 2 < |vs|
      invariant i == k && k <= TriCount(TriangleStrip, |vs|)
      invariant out <= 3 * k && dst[..base] == old(dst[..base])
      invariant dst[base..base + out] == CornersOf(vs, Kept(TriangleStrip, vs, k))
    {
      var aIndex, bIndex := if i % 2 == 0 then i else i + 1, if i % 2 == 0 then i + 1 else i;
      KeptNext(TriangleStrip, vs, k, (aIndex, bIndex, i + 2));
      out := EmitCorners(vs, (aIndex, bIndex, i + 2), dst, base, out, Kept(TriangleStrip, vs, k));
      i, k := i + 1, k + 1;
    }
  }

  method CornersTriangleFan(vs: seq<Vertex>, dst: array<Vertex>, base: nat) returns (out: nat)
    requires base + 3 * TriCount(TriangleFan, |vs|) <= dst.Length
    modifies dst
    ensures out <= 3 * TriCount(TriangleFan, |vs|) && dst[..base] == old(dst[..base])
    ensures dst[base..base + out] == CornersOf(vs, Assembled(TriangleFan, vs))
  {
    hide Kept;
    KeptNone(TriangleFan, vs);
    out := 0;
    if |vs| == 0 || !vs[0].valid {
      FanNeedsCenter(vs, TriCount(TriangleFan, |vs|));
      return;
    }
    var i := 1;
    ghost var k: nat := 0;
    while i + 1 < |vs|
      invariant i == k + 1 && k <= TriCount(TriangleFan, |vs|)
      invariant out <= 3 * k && dst[..base] == old(dst[..base])
      invariant dst[base..base + out] == CornersOf(vs, Kept(TriangleFan, vs, k))
    {
      KeptNext(TriangleFan, vs, k, (0, i, i + 1));
      out := EmitCorners(vs, (0, i, i + 1), dst, base, out, Kept(TriangleFan, vs, k));
      i, k := i + 1, k + 1;
    }
  }

  method CornersQuads(vs: seq<Vertex>, dst: array<Vertex>, base: nat) returns (out: nat)
    requires base + 3 * TriCount(Quads, |vs|) <= dst.Length
    modifies dst
    ensures out <= 3 * TriCount(Quads, |vs|) && dst[..base] == old(dst[..base])
    ensures dst[base..base + out] == CornersOf(vs, Assembled(Quads, vs))
  {
    hide Kept, TriAt, TriCount;
    KeptNone(Quads, vs);
    out := 0;
    var i := 0;
    ghost var k: nat, b: nat := 0, 0;
    while i + 3 < |vs|
      invariant i == 2 * k && i == 4 * b && i <= |vs| && k <= TriCount(Quads, |vs|)
      invariant out <= 3 * k && dst[..base] == old(dst[..base])
      invariant dst[base..base + out] == CornersOf(vs, Kept(Quads, vs, k))
    {
      QuadHalves(|vs|, b);
      out := EmitQuad(vs, i, dst, base, out, k);
      i, k, b := i + 4, k + 2, b + 1;
    }
    QuadsDone(|vs|, b);
  }

  /** The two triangles of the quad that starts at i. */
  method EmitQuad(vs: seq<Vertex>, i: nat, dst: array<Vertex>, base: nat, out: nat, ghost k: nat) returns (out': nat)
    requires i + 3 < |vs| && k + 2 <= TriCount(Quads, |vs|) && base + 3 * TriCount(Quads, |vs|) <= dst.Length
    requires TriAt(Quads, k) == (i, i + 1, i + 2) && TriAt(Quads, k + 1) == (i, i + 2, i + 3)
    requires out <= 3 * k && dst[base..base + out] == CornersOf(vs, Kept(Quads, vs, k))
    modifies dst
    ensures out' <= 3 * (k + 2) && dst[..base] == old(dst[..base])
    ensures dst[base..base + out'] == CornersOf(vs, Kept(Quads, vs, k + 2))
  {
    hide Kept, TriAt, TriCount;
    KeptNext(Quads, vs, k, (i, i + 1, i + 2));
    out' := EmitCorners(vs, (i, i + 1, i + 2), dst, base, out, Kept(Quads, vs, k));
    KeptNext(Quads, vs, k + 1, (i, i + 2, i + 3));
    out' := EmitCorners(vs, (i, i + 2, i + 3), dst, base, out', Kept(Quads, vs, k + 1));
  }

  /** Corners of every kept triangle, from `base` on; below `base` nothing changes. */
  method BuildCorners(kind: Kind, vs: seq<Vertex>, dst: array<Vertex>, base: nat) returns (out: nat)
    requires base + 3 * TriCount(kind, |vs|) <= dst.Length
    modifies dst
    ensures out <= 3 * TriCount(kind, |vs|) && dst[..base] == old(dst[..base])
    ensures dst[base..base + out] == CornersOf(vs, Assembled(kind, vs))
  {
    hide TriCount, Kept, Assembled, CornersOf;
    match kind {
      case Triangles => out := CornersTriangles(vs, dst, base);
      case TriangleStrip => out := CornersTriangleStrip(vs, dst, base);
      case TriangleFan => out := CornersTriangleFan(vs, dst, base);
      case Quads => out := CornersQuads(vs, dst, base);
      case OtherKind =>
        out := 0;
        OthersHaveNone(vs);
    }
  }

  lemma OthersHaveNone(vs: seq<Vertex>)
    ensures CornersOf(vs, Assembled(OtherKind, vs)) == []
  {
  }

  /** The primitives a list of triangles stands for. */
  ghost function TrianglePrimitives(vs: seq<Vertex>, ts: seq<Tri>, state: DrawState): (ps: seq<Primitive>)
    requires forall t :: t in ts ==> InRange(t, |vs|)
    ensures |ps| == |ts|
    ensures forall i :: 0 <= i < |ts| ==>
      InRange(ts[i], |vs|) && ps[i] == Primitive(false, state, [vs[ts[i].0], vs[ts[i].1], vs[ts[i].2]])
  {
    if ts == [] then []
    else
      var t := ts[|ts| - 1];
      assert t in ts && InRange(t, |vs|);
      TrianglePrimitives(vs, ts[..|ts| - 1], state) + [Primitive(false, state, [vs[t.0], vs[t.1], vs[t.2]])]
  }

  lemma OneChunk(state: DrawState, a: Vertex, b: Vertex, c: Vertex)
    ensures Chunks(false, state, [a, b, c]) == [Primitive(false, state, [a, b, c])]
  {
    assert [a, b, c][..3] == [a, b, c] && [a, b, c][3..] == [];
    assert Chunks(false, state, []) == [];
  }

  /** The corner list, cut in threes by the graphics library, is the triangle list again. */
  lemma {:induction false} CornersDrawTheTriangles(vs: seq<Vertex>, ts: seq<Tri>, state: DrawState)
    requires forall t :: t in ts ==> InRange(t, |vs|)
    ensures Chunks(false, state, CornersOf(vs, ts)) == TrianglePrimitives(vs, ts, state)
  {
    if ts != [] {
      var front, t := ts[..|ts| - 1], ts[|ts| - 1];
      assert t in ts && InRange(t, |vs|);
      CornersDrawTheTriangles(vs, front, state);
      hide Chunks;
      ChunksConcat(false, state, CornersOf(vs, front), [vs[t.0], vs[t.1], vs[t.2]]);
      OneChunk(state, vs[t.0], vs[t.1], vs[t.2]);
    }
  }

  /** The Metal branch of the triangle renderer: one queued draw, built in place behind the queue. */
  method RenderTrianglesMetal(q: MetalQueue, kind: Kind, vs: seq<Vertex>, state: DrawState)
    requires q.Valid()
    modifies q, q.buffer
    ensures q.Valid() && (q.buffer == old(q.buffer) || fresh(q.buffer))
    ensures q.Drawn() == Coalesce(old(q.Drawn()), Draw(false, state, CornersOf(vs, Assembled(kind, vs))))
  {
    hide *;
    var maxTriCount := TriCount(kind, |vs|);
    if maxTriCount == 0 {
      NothingKept(kind, vs, old(q.Drawn()), state);
      return;
    }
    q.EnsureVertexCapacity(q.queued + 3 * maxTriCount);
    q.Parts();
    var out := BuildCorners(kind, vs, q.buffer, q.queued);
    q.Restore();
    if out == 0 {
      NoCorners(old(q.Drawn()), state);
      return;
    }
    q.QueueDraw(q.buffer, q.queued, out, false, state);
  }

  lemma NoCorners(draws: seq<Draw>, state: DrawState)
    ensures Coalesce(draws, Draw(false, state, [])) == draws
  {
  }

  lemma NothingKept(kind: Kind, vs: seq<Vertex>, draws: seq<Draw>, state: DrawState)
    requires TriCount(kind, |vs|) == 0
    ensures Coalesce(draws, Draw(false, state, CornersOf(vs, Assembled(kind, vs)))) == draws
  {
    hide Coalesce;
    NoCorners(draws, state);
  }

  /** One more batch of triangles on an aligned queue: the frame gains exactly the assembled triangles. */
  lemma MetalDrawsTheAssembled(draws: seq<Draw>, kind: Kind, vs: seq<Vertex>, state: DrawState)
    requires forall d :: d in draws ==> Aligned(d)
    ensures var after := Coalesce(draws, Draw(false, state, CornersOf(vs, Assembled(kind, vs))));
      Primitives(after) == Primitives(draws) + TrianglePrimitives(vs, Assembled(kind, vs), state) &&
      forall d :: d in after ==> Aligned(d)
  {
    var ts := Assembled(kind, vs);
    var d := Draw(false, state, CornersOf(vs, ts));
    assert Aligned(d);
    hide *;
    CornersDrawTheTriangles(vs, ts, state);
    CoalesceDrawsTheSame(draws, d);
    CoalesceAligned(draws, d);
  }
}
