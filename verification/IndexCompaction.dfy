/** Index compaction for the indexed path (src/backend_ast/graphics_3d_backend_ios.c:1485-1531):
    one index buffer holds a remap table and, behind it, the indices handed to the renderer. */
module IndexCompaction {
  import opened MetalQueue
  import opened PrimitiveAssembly

  /** The source indices of the triangles, three per triangle. */
  ghost function Flat(ts: seq<Tri>): (f: seq<nat>)
    ensures |f| == 3 * |ts|
  {
    if ts == [] then [] else
      var t := ts[|ts| - 1];
      Flat(ts[..|ts| - 1]) + [t.0, t.1, t.2]
  }

  lemma FlatNext(ts: seq<Tri>, k: nat)
    requires k < |ts|
    ensures Flat(ts[..k + 1]) == ((Flat(ts[..k]) + [ts[k].0]) + [ts[k].1]) + [ts[k].2]
  {
    assert ts[..k + 1][..k] == ts[..k];
  }

  lemma {:induction false} FlatAt(ts: seq<Tri>, k: nat)
    requires k < |ts|
    ensures Flat(ts)[3 * k..3 * k + 3] == [ts[k].0, ts[k].1, ts[k].2]
  {
    if k < |ts| - 1 {
      FlatAt(ts[..|ts| - 1], k);
      assert Flat(ts)[3 * k..3 * k + 3] == Flat(ts[..|ts| - 1])[3 * k..3 * k + 3];
    }
  }

  /** The source vertices in the order of their first use. */
  ghost function FirstUse(flat: seq<nat>): (order: seq<nat>)
    ensures |order| <= |flat|
  {
    if flat == [] then []
    else
      var order := FirstUse(flat[..|flat| - 1]);
      var last := flat[|flat| - 1];
      if last in order then order else order + [last]
  }

  lemma FirstUseNext(flat: seq<nat>, src: nat)
    ensures FirstUse(flat + [src]) == if src in FirstUse(flat) then FirstUse(flat) else FirstUse(flat) + [src]
  {
    assert (flat + [src])[..|flat|] == flat;
  }

  /** Every used vertex is listed, no other, and none twice. */
  lemma {:induction false} FirstUseOnce(flat: seq<nat>)
    ensures forall v :: v in FirstUse(flat) <==> v in flat
    ensures forall i, j :: 0 <= i < j < |FirstUse(flat)| ==> FirstUse(flat)[i] != FirstUse(flat)[j]
  {
    if flat != [] {
      var front, last := flat[..|flat| - 1], flat[|flat| - 1];
      FirstUseOnce(front);
      assert flat == front + [last];
      FirstUseNext(front, last);
      hide FirstUse;
    }
  }

  /** Of two vertices the one listed first is used first. */
  lemma {:induction false} FirstUseOrder(flat: seq<nat>, i: nat, j: nat) returns (k: nat)
    requires i < j < |FirstUse(flat)|
    ensures k < |flat| && flat[k] == FirstUse(flat)[i] && FirstUse(flat)[j] !in flat[..k + 1]
  {
    var front, last := flat[..|flat| - 1], flat[|flat| - 1];
    FirstUseOnce(front);
    FirstUseNext(front, last);
    assert flat == front + [last];
    if j < |FirstUse(front)| {
      k := FirstUseOrder(front, i, j);
      assert flat[..k + 1] == front[..k + 1];
    } else {
      assert FirstUse(front)[i] in front && last !in front;
      k :| 0 <= k < |front| && front[k] == FirstUse(front)[i];
      assert forall v :: v in flat[..k + 1] ==> v in front;
    }
  }

  /** Distinct naturals below n are at most n. */
  lemma {:induction false} Distinct(s: seq<nat>, n: nat)
    requires forall i, j :: 0 <= i < j < |s| ==> s[i] != s[j]
    requires forall v :: v in s ==> v < n
    ensures |s| <= n
  {
    if s != [] {
      assert s[0] in s;
      if n - 1 in s {
        var k :| 0 <= k < |s| && s[k] == n - 1;
        var rest := s[..k] + s[k + 1..];
        forall v | v in rest
          ensures v < n - 1
        {
          var j :| 0 <= j < |rest| && rest[j] == v;
          var i := if j < k then j else j + 1;
          assert v == s[i] && s[i] in s && s[i] != s[k];
        }
        Distinct(rest, n - 1);
      } else {
        Distinct(s, n - 1);
      }
    }
  }

  ghost predicate VertsOf(vs: seq<Vertex>, order: seq<nat>, verts: seq<Vertex>) {
    |verts| == |order| && forall j :: 0 <= j < |order| ==> order[j] < |vs| && verts[j] == vs[order[j]]
  }

  ghost predicate Inverse(n: nat, order: seq<nat>, remap: seq<int>) {
    && |remap| == n
    && (forall j :: 0 <= j < |order| ==> order[j] < n && remap[order[j]] == j)
    && forall i :: 0 <= i < n && i !in order ==> remap[i] == -1
  }

  ghost predicate Resolves(flat: seq<nat>, order: seq<nat>, indices: seq<int>) {
    && |indices| == |flat|
    && forall k :: 0 <= k < |flat| ==> 0 <= indices[k] < |order| && order[indices[k]] == flat[k]
  }

  /** `verts` holds every used vertex once, `remap` is the inverse of its order, and every index finds its source. */
  ghost predicate Compacted(vs: seq<Vertex>, flat: seq<nat>, remap: seq<int>, indices: seq<int>, verts: seq<Vertex>) {
    var order := FirstUse(flat);
    VertsOf(vs, order, verts) && Inverse(|vs|, order, remap) && Resolves(flat, order, indices)
  }

  lemma KnownVertex(vs: seq<Vertex>, flat: seq<nat>, src: nat, remap: seq<int>, indices: seq<int>, verts: seq<Vertex>)
    requires Compacted(vs, flat, remap, indices, verts) && src < |vs| && remap[src] >= 0
    ensures Compacted(vs, flat + [src], remap, indices + [remap[src]], verts)
  {
    FirstUseNext(flat, src);
    hide FirstUse;
    var order := FirstUse(flat);
    assert src in order;
    assert Resolves(flat + [src], order, indices + [remap[src]]);
  }

  lemma NewVertex(vs: seq<Vertex>, flat: seq<nat>, src: nat, remap: seq<int>, indices: seq<int>, verts: seq<Vertex>)
    requires Compacted(vs, flat, remap, indices, verts) && src < |vs| && remap[src] < 0
    ensures Compacted(vs, flat + [src], remap[src := |verts|], indices + [|verts|], verts + [vs[src]])
  {
    FirstUseNext(flat, src);
    hide FirstUse;
    var order := FirstUse(flat);
    assert src !in order;
    assert VertsOf(vs, order + [src], verts + [vs[src]]);
    assert Inverse(|vs|, order + [src], remap[src := |verts|]);
    assert Resolves(flat + [src], order + [src], indices + [|verts|]);
  }

  lemma CompactedSizes(vs: seq<Vertex>, flat: seq<nat>, remap: seq<int>, indices: seq<int>, verts: seq<Vertex>)
    requires Compacted(vs, flat, remap, indices, verts)
    ensures |remap| == |vs| && |indices| == |flat| && |verts| == |FirstUse(flat)|
    ensures forall i :: 0 <= i < |remap| ==> remap[i] < |verts|
  {
    hide FirstUse;
    forall i | 0 <= i < |remap|
      ensures remap[i] < |verts|
    {
      if i in FirstUse(flat) {
        var j :| 0 <= j < |FirstUse(flat)| && FirstUse(flat)[j] == i;
      }
    }
  }

  /** Whoever dereferences an index gets the vertex the triangle named. */
  lemma CompactedDraws(vs: seq<Vertex>, flat: seq<nat>, remap: seq<int>, indices: seq<int>, verts: seq<Vertex>, k: nat)
    requires Compacted(vs, flat, remap, indices, verts) && k < |flat|
    ensures |indices| == |flat| && SameCorner(vs, flat[k], verts, indices[k])
  {
    hide FirstUse;
  }

  /** Room for one vertex more: not every vertex has been used when one comes up unmapped. */
  lemma RoomLeft(vs: seq<Vertex>, flat: seq<nat>, src: nat, remap: seq<int>, indices: seq<int>, verts: seq<Vertex>)
    requires Compacted(vs, flat, remap, indices, verts) && src < |vs| && remap[src] < 0
    ensures |verts| < |vs|
  {
    var order := FirstUse(flat);
    FirstUseOnce(flat);
    hide FirstUse;
    assert src !in order;
    Distinct(order + [src], |vs|);
  }

  lemma NothingYet(vs: seq<Vertex>, remap: seq<int>)
    requires |remap| == |vs| && forall i :: 0 <= i < |remap| ==> remap[i] == -1
    ensures Compacted(vs, [], remap, [], [])
  {
  }

  /** One corner: look up its slot, or give it the next one. */
  method EmitIndex(vs: seq<Vertex>, src: nat, verts: array<Vertex>, vertexCount: nat, ib: array<int>, at: nat,
                   ghost flat: seq<nat>)
    returns (count': nat)
    requires src < |vs| <= verts.Length && at == |vs| + |flat| < ib.Length && vertexCount <= |vs|
    requires Compacted(vs, flat, ib[..|vs|], ib[|vs|..at], verts[..vertexCount])
    modifies verts, ib
    ensures count' <= |vs|
    ensures Compacted(vs, flat + [src], ib[..|vs|], ib[|vs|..at + 1], verts[..count'])
  {
    hide *;
    var n := |vs|;
    ghost var remap, indices, old_verts := ib[..n], ib[n..at], verts[..vertexCount];
    CompactedSizes(vs, flat, remap, indices, old_verts);
    count' := vertexCount;
    var dstIndex := ib[src];
    if dstIndex < 0 {
      RoomLeft(vs, flat, src, remap, indices, old_verts);
      NewVertex(vs, flat, src, remap, indices, old_verts);
      dstIndex := count';
      count' := count' + 1;
      ib[src] := dstIndex;
      verts[dstIndex] := vs[src];
      assert ib[..n] == remap[src := dstIndex] && verts[..count'] == old_verts + [vs[src]];
    } else {
      KnownVertex(vs, flat, src, remap, indices, old_verts);
    }
    assert ib[n..at] == indices;
    ghost var remap' := ib[..n];
    ib[at] := dstIndex;
    assert ib[..n] == remap' && ib[n..at + 1] == indices + [dstIndex];
  }

  method ClearRemap(vs: seq<Vertex>, ib: array<int>)
    requires |vs| <= ib.Length
    modifies ib
    ensures Compacted(vs, [], ib[..|vs|], ib[|vs|..|vs|], [])
  {
    hide *;
    for i := 0 to |vs|
      invariant forall j :: 0 <= j < i ==> ib[j] == -1
    {
      ib[i] := -1;
    }
    assert ib[|vs|..|vs|] == [];
    NothingYet(vs, ib[..|vs|]);
  }

  method EmitTriangle(vs: seq<Vertex>, t: Tri, verts: array<Vertex>, vertexCount: nat, ib: array<int>, at: nat,
                      ghost flat: seq<nat>)
    returns (count': nat)
    requires t.0 < |vs| && t.1 < |vs| && t.2 < |vs| <= verts.Length
    requires at == |vs| + |flat| && at + 3 <= ib.Length && vertexCount <= |vs|
    requires Compacted(vs, flat, ib[..|vs|], ib[|vs|..at], verts[..vertexCount])
    modifies verts, ib
    ensures count' <= |vs|
    ensures Compacted(vs, ((flat + [t.0]) + [t.1]) + [t.2], ib[..|vs|], ib[|vs|..at + 3], verts[..count'])
  {
    hide *;
    count' := EmitIndex(vs, t.0, verts, vertexCount, ib, at, flat);
    count' := EmitIndex(vs, t.1, verts, count', ib, at + 1, flat + [t.0]);
    count' := EmitIndex(vs, t.2, verts, count', ib, at + 2, (flat + [t.0]) + [t.1]);
  }

  lemma AllTriangles(ts: seq<Tri>)
    ensures Flat(ts[..0]) == [] && ts[..|ts|] == ts
  {
  }

  /** The whole loop nest; `ib` holds the remap table and, from |vs| on, the indices. */
  method Compact(vs: seq<Vertex>, tris: array<Tri>, triCount: nat, verts: array<Vertex>, ib: array<int>)
    returns (vertexCount: nat)
    requires triCount <= tris.Length && forall t :: t in tris[..triCount] ==> InRange(t, |vs|)
    requires |vs| <= verts.Length && |vs| + 3 * triCount <= ib.Length
    modifies verts, ib
    ensures vertexCount <= |vs|
    ensures Compacted(vs, Flat(tris[..triCount]), ib[..|vs|], ib[|vs|..|vs| + 3 * triCount], verts[..vertexCount])
  {
    hide Compacted, Flat;
    ghost var ts := tris[..triCount];
    ClearRemap(vs, ib);
    AllTriangles(ts);
    vertexCount := 0;
    assert verts[..0] == [];
    for i := 0 to triCount
      invariant vertexCount <= |vs|
      invariant Compacted(vs, Flat(ts[..i]), ib[..|vs|], ib[|vs|..|vs| + 3 * i], verts[..vertexCount])
    {
      assert ts[i] in ts && InRange(ts[i], |vs|);
      FlatNext(ts, i);
      vertexCount := EmitTriangle(vs, tris[i], verts, vertexCount, ib, |vs| + 3 * i, Flat(ts[..i]));
    }
    AllTriangles(ts);
  }

  ghost predicate SameCorner(vs: seq<Vertex>, src: nat, verts: seq<Vertex>, index: int) {
    0 <= index < |verts| && src < |vs| && verts[index] == vs[src]
  }

  lemma FlatCorners(ts: seq<Tri>, k: nat)
    requires k < |ts|
    ensures 3 * k + 2 < |Flat(ts)|
    ensures Flat(ts)[3 * k] == ts[k].0 && Flat(ts)[3 * k + 1] == ts[k].1 && Flat(ts)[3 * k + 2] == ts[k].2
  {
    FlatAt(ts, k);
    var f := Flat(ts);
    hide Flat;
    assert f[3 * k] == f[3 * k..3 * k + 3][0] && f[3 * k + 1] == f[3 * k..3 * k + 3][1];
    assert f[3 * k + 2] == f[3 * k..3 * k + 3][2];
  }

  /** What the renderer draws from the compacted buffers is what the triangles name in the source vertices. */
  lemma CompactedTriangle(vs: seq<Vertex>, ts: seq<Tri>, remap: seq<int>, indices: seq<int>, verts: seq<Vertex>, k: nat)
    requires Compacted(vs, Flat(ts), remap, indices, verts) && k < |ts|
    ensures 3 * k + 2 < |indices|
    ensures SameCorner(vs, ts[k].0, verts, indices[3 * k])
    ensures SameCorner(vs, ts[k].1, verts, indices[3 * k + 1])
    ensures SameCorner(vs, ts[k].2, verts, indices[3 * k + 2])
  {
    hide *;
    var flat := Flat(ts);
    CompactedSizes(vs, flat, remap, indices, verts);
    FlatCorners(ts, k);
    CompactedDraws(vs, flat, remap, indices, verts, 3 * k);
    CompactedDraws(vs, flat, remap, indices, verts, 3 * k + 1);
    CompactedDraws(vs, flat, remap, indices, verts, 3 * k + 2);
  }

  /** The primitives a renderer draws that takes three indices at a time. */
  ghost function IndexedPrimitives(verts: seq<Vertex>, indices: seq<int>, state: DrawState): (ps: seq<Primitive>)
    requires |indices| % 3 == 0 && forall k :: 0 <= k < |indices| ==> 0 <= indices[k] < |verts|
    ensures |ps| == |indices| / 3
  {
    seq(|indices| / 3, k requires 0 <= k < |indices| / 3 =>
      Primitive(false, state, [verts[indices[3 * k]], verts[indices[3 * k + 1]], verts[indices[3 * k + 2]]]))
  }

  ghost predicate IndicesInside(indices: seq<int>, verts: seq<Vertex>) {
    |indices| % 3 == 0 && forall k :: 0 <= k < |indices| ==> 0 <= indices[k] < |verts|
  }

  lemma InThrees(n: nat)
    ensures 3 * n % 3 == 0 && 3 * n / 3 == n
  {
  }

  lemma InsideEach(vs: seq<Vertex>, flat: seq<nat>, remap: seq<int>, indices: seq<int>, verts: seq<Vertex>)
    requires Compacted(vs, flat, remap, indices, verts)
    ensures |indices| == |flat| && forall k :: 0 <= k < |indices| ==> 0 <= indices[k] < |verts|
  {
    hide FirstUse, Inverse;
  }

  lemma IndicesFrom(indices: seq<int>, verts: seq<Vertex>)
    requires |indices| % 3 == 0 && forall k :: 0 <= k < |indices| ==> 0 <= indices[k] < |verts|
    ensures IndicesInside(indices, verts)
  {
  }

  lemma CompactedInside(vs: seq<Vertex>, ts: seq<Tri>, remap: seq<int>, indices: seq<int>, verts: seq<Vertex>)
    requires Compacted(vs, Flat(ts), remap, indices, verts)
    ensures |indices| == 3 * |ts| && IndicesInside(indices, verts)
  {
    hide Flat;
    InsideEach(vs, Flat(ts), remap, indices, verts);
    hide *;
    InThrees(|ts|);
    IndicesFrom(indices, verts);
  }

  lemma CompactedPrimitives(vs: seq<Vertex>, ts: seq<Tri>, remap: seq<int>, indices: seq<int>, verts: seq<Vertex>,
                            state: DrawState)
    requires Compacted(vs, Flat(ts), remap, indices, verts) && forall t :: t in ts ==> InRange(t, |vs|)
    ensures IndicesInside(indices, verts)
    ensures IndexedPrimitives(verts, indices, state) == TrianglePrimitives(vs, ts, state)
  {
    CompactedInside(vs, ts, remap, indices, verts);
    hide Compacted, Flat, TrianglePrimitives;
    var drawn, named := IndexedPrimitives(verts, indices, state), TrianglePrimitives(vs, ts, state);
    forall k | 0 <= k < |ts|
      ensures drawn[k] == named[k]
    {
      CompactedTriangle(vs, ts, remap, indices, verts, k);
    }
  }

  /** The indexed branch of the triangle renderer, from the vertices of immediate mode to what the library draws. */
  method RenderTrianglesIndexed(kind: Kind, vs: seq<Vertex>, tris: array<Tri>, verts: array<Vertex>, ib: array<int>,
                                ghost state: DrawState)
    returns (triCount: nat, vertexCount: nat)
    requires TriCount(kind, |vs|) <= tris.Length && |vs| <= verts.Length
    requires |vs| + 3 * TriCount(kind, |vs|) <= ib.Length
    modifies tris, verts, ib
    ensures triCount <= TriCount(kind, |vs|) && vertexCount <= |vs|
    ensures var indices := ib[|vs|..|vs| + 3 * triCount];
      IndicesInside(indices, verts[..vertexCount]) &&
      IndexedPrimitives(verts[..vertexCount], indices, state) == TrianglePrimitives(vs, Assembled(kind, vs), state)
  {
    AssembledInside(kind, vs);
    hide *;
    triCount := AssembleIndexed(kind, vs, tris);
    vertexCount := Compact(vs, tris, triCount, verts, ib);
    CompactedPrimitives(vs, Assembled(kind, vs), ib[..|vs|], ib[|vs|..|vs| + 3 * triCount], verts[..vertexCount],
                        state);
  }

  lemma AssembledInside(kind: Kind, vs: seq<Vertex>)
    ensures |Assembled(kind, vs)| <= TriCount(kind, |vs|)
    ensures forall t :: t in Assembled(kind, vs) ==> InRange(t, |vs|)
  {
  }
}
