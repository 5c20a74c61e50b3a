/** Turning immediate-mode vertices into line segments (src/backend_ast/graphics_3d_backend_ios.c:1110-1256). */
module LineAssembly {
  import opened MetalQueue

  /** Any other primitive is drawn as separate lines. */
  datatype LineKind = LineStrip | LineLoop | SeparateLines

  type Segment = (nat, nat)

  ghost predicate InRange(s: Segment, n: nat) {
    s.0 < n && s.1 < n
  }

  /** Fewer than two vertices draw nothing. */
  function SegmentCount(kind: LineKind, n: nat): nat {
    match kind
    case LineStrip => if n >= 2 then n - 1 else 0
    case LineLoop => if n >= 2 then n else 0
    case SeparateLines => n / 2
  }

  ghost function SegmentAt(kind: LineKind, n: nat, i: nat): Segment {
    match kind
    case LineStrip => (i, i + 1)
    case LineLoop => if i + 1 < n then (i, i + 1) else (i, 0)
    case SeparateLines => (2 * i, 2 * i + 1)
  }

  lemma SegmentInRange(kind: LineKind, n: nat, i: nat)
    requires i < SegmentCount(kind, n)
    ensures InRange(SegmentAt(kind, n, i), n)
  {
  }

  predicate BothValid(vs: seq<Vertex>, s: Segment)
    requires InRange(s, |vs|)
  {
    vs[s.0].valid && vs[s.1].valid
  }

  /** The first k segments, those with a rejected end left out. */
  ghost function Kept(kind: LineKind, vs: seq<Vertex>, k: nat): (ss: seq<Segment>)
    requires k <= SegmentCount(kind, |vs|)
    ensures |ss| <= k && forall s :: s in ss ==> InRange(s, |vs|)
  {
    if k == 0 then []
    else
      SegmentInRange(kind, |vs|, k - 1);
      var s := SegmentAt(kind, |vs|, k - 1);
      Kept(kind, vs, k - 1) + (if BothValid(vs, s) then [s] else [])
  }

  ghost function Segments(kind: LineKind, vs: seq<Vertex>): seq<Segment> {
    Kept(kind, vs, SegmentCount(kind, |vs|))
  }

  lemma KeptNext(kind: LineKind, vs: seq<Vertex>, k: nat, s: Segment)
    requires k < SegmentCount(kind, |vs|) && s == SegmentAt(kind, |vs|, k)
    ensures InRange(s, |vs|)
    ensures Kept(kind, vs, k + 1) == Kept(kind, vs, k) + if BothValid(vs, s) then [s] else []
  {
    SegmentInRange(kind, |vs|, k);
  }

  lemma KeptNone(kind: LineKind, vs: seq<Vertex>)
    ensures Kept(kind, vs, 0) == []
  {
  }

  /** A segment of the primitive, by its indices into n vertices: from a vertex to the next one, and in a loop from the
      last to the first. */
  ghost predicate Joins(kind: LineKind, n: nat, s: Segment) {
    match kind
    case LineStrip => s.1 == s.0 + 1 && s.1 < n
    case LineLoop => n >= 2 && s.0 < n && s.1 == if s.0 == n - 1 then 0 else s.0 + 1
    case SeparateLines => s.0 % 2 == 0 && s.1 == s.0 + 1 && s.1 < n
  }

  lemma JoinsIff(kind: LineKind, n: nat, s: Segment)
    ensures Joins(kind, n, s) <==>
      PlaceOf(kind, s) < SegmentCount(kind, n) && SegmentAt(kind, n, PlaceOf(kind, s)) == s
  {
  }

  ghost function PlaceOf(kind: LineKind, s: Segment): nat {
    if kind == SeparateLines then s.0 / 2 else s.0
  }

  lemma {:induction false} KeptAre(kind: LineKind, vs: seq<Vertex>, k: nat, s: Segment)
    requires k <= SegmentCount(kind, |vs|)
    ensures s in Kept(kind, vs, k) <==>
      Joins(kind, |vs|, s) && PlaceOf(kind, s) < k && InRange(s, |vs|) && BothValid(vs, s)
  {
    JoinsIff(kind, |vs|, s);
    if k > 0 {
      KeptAre(kind, vs, k - 1, s);
      JoinsIff(kind, |vs|, SegmentAt(kind, |vs|, k - 1));
      SegmentPlace(kind, |vs|, k - 1);
      SegmentInRange(kind, |vs|, k - 1);
    }
    hide Joins, PlaceOf, SegmentAt, SegmentCount;
  }

  lemma SegmentPlace(kind: LineKind, n: nat, i: nat)
    requires i < SegmentCount(kind, n)
    ensures PlaceOf(kind, SegmentAt(kind, n, i)) == i
  {
  }

  ghost predicate Rising(ss: seq<Segment>) {
    forall i, j :: 0 <= i < j < |ss| ==> ss[i].0 < ss[j].0
  }

  lemma {:induction false} KeptRise(kind: LineKind, vs: seq<Vertex>, k: nat)
    requires k <= SegmentCount(kind, |vs|)
    ensures Rising(Kept(kind, vs, k))
  {
    if k > 0 {
      var front, last := Kept(kind, vs, k - 1), SegmentAt(kind, |vs|, k - 1);
      KeptRise(kind, vs, k - 1);
      SegmentPlace(kind, |vs|, k - 1);
      forall s | s in front
        ensures s.0 < last.0
      {
        KeptAre(kind, vs, k - 1, s);
        hide Kept, Joins, SegmentAt, SegmentCount, BothValid;
      }
      assert Kept(kind, vs, k) == front || Kept(kind, vs, k) == front + [last];
      hide Kept, PlaceOf, SegmentAt, SegmentCount, BothValid;
    }
  }

  /** What is drawn are the segments of the primitive with two accepted ends, in the order of their first ends, each
      once. */
  lemma SegmentsAre(kind: LineKind, vs: seq<Vertex>)
    ensures var ss := Segments(kind, vs);
      && (forall s :: s in ss <==> Joins(kind, |vs|, s) && InRange(s, |vs|) && BothValid(vs, s))
      && Rising(ss)
  {
    forall s
      ensures s in Segments(kind, vs) <==> Joins(kind, |vs|, s) && InRange(s, |vs|) && BothValid(vs, s)
    {
      KeptAre(kind, vs, SegmentCount(kind, |vs|), s);
      JoinsIff(kind, |vs|, s);
      hide Kept, Joins, SegmentAt, SegmentCount, BothValid;
    }
    KeptRise(kind, vs, SegmentCount(kind, |vs|));
    hide Kept, Joins, SegmentAt, SegmentCount, BothValid, Rising;
  }

  // ---- the paths that draw each segment as they come to it

  method DrawSegment(vs: seq<Vertex>, s: Segment, drawn: seq<Segment>) returns (drawn': seq<Segment>)
    requires InRange(s, |vs|)
    ensures drawn' == drawn + if BothValid(vs, s) then [s] else []
  {
    if !vs[s.0].valid || !vs[s.1].valid {
      return drawn;
    }
    return drawn + [s];
  }

  method DrawConnected(vs: seq<Vertex>, loop: bool) returns (drawn: seq<Segment>)
    requires |vs| >= 2
    ensures drawn == Segments(if loop then LineLoop else LineStrip, vs)
  {
    ghost var kind := if loop then LineLoop else LineStrip;
    hide Kept;
    KeptNone(kind, vs);
    drawn := [];
    for i := 1 to |vs|
      invariant drawn == Kept(kind, vs, i - 1)
    {
      KeptNext(kind, vs, i - 1, (i - 1, i));
      drawn := DrawSegment(vs, (i - 1, i), drawn);
    }
    if loop {
      KeptNext(kind, vs, |vs| - 1, (|vs| - 1, 0));
      drawn := DrawSegment(vs, (|vs| - 1, 0), drawn);
    }
  }

  method DrawSeparate(vs: seq<Vertex>) returns (drawn: seq<Segment>)
    ensures drawn == Segments(SeparateLines, vs)
  {
    hide Kept;
    KeptNone(SeparateLines, vs);
    drawn := [];
    var i: nat := 0;
    ghost var k: nat := 0;
    while i + 1 < |vs|
      invariant i == 2 * k && k <= SegmentCount(SeparateLines, |vs|)
      invariant drawn == Kept(SeparateLines, vs, k)
    {
      KeptNext(SeparateLines, vs, k, (i, i + 1));
      drawn := DrawSegment(vs, (i, i + 1), drawn);
      i, k := i + 2, k + 1;
    }
  }

  method DrawLines(kind: LineKind, vs: seq<Vertex>) returns (drawn: seq<Segment>)
    ensures drawn == Segments(kind, vs)
  {
    if |vs| < 2 {
      KeptNone(kind, vs);
      return [];
    }
    match kind {
      case LineStrip => drawn := DrawConnected(vs, false);
      case LineLoop => drawn := DrawConnected(vs, true);
      case SeparateLines => drawn := DrawSeparate(vs);
    }
  }

  // ---- the Metal path

  ghost function EndsOf(vs: seq<Vertex>, ss: seq<Segment>): (cs: seq<Vertex>)
    requires forall s :: s in ss ==> InRange(s, |vs|)
    ensures |cs| == 2 * |ss|
  {
    if ss == [] then []
    else
      var s := ss[|ss| - 1];
      assert s in ss && InRange(s, |vs|);
      EndsOf(vs, ss[..|ss| - 1]) + [vs[s.0], vs[s.1]]
  }

  lemma EndsSnoc(vs: seq<Vertex>, ss: seq<Segment>, s: Segment)
    requires InRange(s, |vs|) && forall u :: u in ss ==> InRange(u, |vs|)
    ensures forall u :: u in ss + [s] ==> InRange(u, |vs|)
    ensures EndsOf(vs, ss + [s]) == EndsOf(vs, ss) + [vs[s.0], vs[s.1]]
  {
    assert (ss + [s])[..|ss|] == ss;
  }

  method EmitEnds(vs: seq<Vertex>, s: Segment, dst: array<Vertex>, base: nat, out: nat, ghost ss: seq<Segment>)
    returns (out': nat)
    requires InRange(s, |vs|) && base + out + 2 <= dst.Length && forall u :: u in ss ==> InRange(u, |vs|)
    requires dst[base..base + out] == EndsOf(vs, ss)
    modifies dst
    ensures out <= out' <= out + 2 && dst[..base] == old(dst[..base])
    ensures var ss' := ss + if BothValid(vs, s) then [s] else [];
      (forall u :: u in ss' ==> InRange(u, |vs|)) && dst[base..base + out'] == EndsOf(vs, ss')
  {
    if !BothValid(vs, s) {
      assert ss + [] == ss;
      return out;
    }
    dst[base + out] := vs[s.0];
    dst[base + out + 1] := vs[s.1];
    EndsSnoc(vs, ss, s);
    assert dst[base..base + out + 2] == old(dst[base..base + out]) + [vs[s.0], vs[s.1]];
    return out + 2;
  }

  /** The segments between neighbours. */
  method BuildChain(vs: seq<Vertex>, ghost kind: LineKind, dst: array<Vertex>, base: nat) returns (out: nat)
    requires |vs| >= 2 && kind != SeparateLines && base + 2 * (|vs| - 1) <= dst.Length
    modifies dst
    ensures out <= 2 * (|vs| - 1) && dst[..base] == old(dst[..base])
    ensures dst[base..base + out] == EndsOf(vs, Kept(kind, vs, |vs| - 1))
  {
    hide Kept;
    KeptNone(kind, vs);
    out := 0;
    for i := 1 to |vs|
      invariant out <= 2 * (i - 1) && dst[..base] == old(dst[..base])
      invariant dst[base..base + out] == EndsOf(vs, Kept(kind, vs, i - 1))
    {
      KeptNext(kind, vs, i - 1, (i - 1, i));
      out := EmitEnds(vs, (i - 1, i), dst, base, out, Kept(kind, vs, i - 1));
    }
  }

  method BuildConnected(vs: seq<Vertex>, loop: bool, dst: array<Vertex>, base: nat) returns (out: nat)
    requires |vs| >= 2 && base + 2 * SegmentCount(if loop then LineLoop else LineStrip, |vs|) <= dst.Length
    modifies dst
    ensures out <= 2 * SegmentCount(if loop then LineLoop else LineStrip, |vs|) && dst[..base] == old(dst[..base])
    ensures dst[base..base + out] == EndsOf(vs, Segments(if loop then LineLoop else LineStrip, vs))
  {
    ghost var kind := if loop then LineLoop else LineStrip;
    hide Kept;
    out := BuildChain(vs, kind, dst, base);
    if loop {
      KeptNext(kind, vs, |vs| - 1, (|vs| - 1, 0));
      out := EmitEnds(vs, (|vs| - 1, 0), dst, base, out, Kept(kind, vs, |vs| - 1));
    }
  }

  method BuildSeparate(vs: seq<Vertex>, dst: array<Vertex>, base: nat) returns (out: nat)
    requires base + 2 * SegmentCount(SeparateLines, |vs|) <= dst.Length
    modifies dst
    ensures out <= 2 * SegmentCount(SeparateLines, |vs|) && dst[..base] == old(dst[..base])
    ensures dst[base..base + out] == EndsOf(vs, Segments(SeparateLines, vs))
  {
    hide Kept;
    KeptNone(SeparateLines, vs);
    out := 0;
    var i: nat := 0;
    ghost var k: nat := 0;
    while i + 1 < |vs|
      invariant i == 2 * k && k <= SegmentCount(SeparateLines, |vs|)
      invariant out <= 2 * k && dst[..base] == old(dst[..base])
      invariant dst[base..base + out] == EndsOf(vs, Kept(SeparateLines, vs, k))
    {
      KeptNext(SeparateLines, vs, k, (i, i + 1));
      out := EmitEnds(vs, (i, i + 1), dst, base, out, Kept(SeparateLines, vs, k));
      i, k := i + 2, k + 1;
    }
  }

  method BuildEnds(kind: LineKind, vs: seq<Vertex>, dst: array<Vertex>, base: nat) returns (out: nat)
    requires |vs| >= 2 && base + 2 * SegmentCount(kind, |vs|) <= dst.Length
    modifies dst
    ensures out <= 2 * SegmentCount(kind, |vs|) && dst[..base] == old(dst[..base])
    ensures dst[base..base + out] == EndsOf(vs, Segments(kind, vs))
  {
    match kind {
      case LineStrip => out := BuildConnected(vs, false, dst, base);
      case LineLoop => out := BuildConnected(vs, true, dst, base);
      case SeparateLines => out := BuildSeparate(vs, dst, base);
    }
  }

  ghost function SegmentPrimitives(vs: seq<Vertex>, ss: seq<Segment>, state: DrawState): (ps: seq<Primitive>)
    requires forall s :: s in ss ==> InRange(s, |vs|)
    ensures |ps| == |ss|
    ensures forall i :: 0 <= i < |ss| ==>
      InRange(ss[i], |vs|) && ps[i] == Primitive(true, state, [vs[ss[i].0], vs[ss[i].1]])
  {
    if ss == [] then []
    else
      var s := ss[|ss| - 1];
      assert s in ss && InRange(s, |vs|);
      SegmentPrimitives(vs, ss[..|ss| - 1], state) + [Primitive(true, state, [vs[s.0], vs[s.1]])]
  }

  lemma OneChunk(state: DrawState, a: Vertex, b: Vertex)
    ensures Chunks(true, state, [a, b]) == [Primitive(true, state, [a, b])]
  {
    assert [a, b][..2] == [a, b] && [a, b][2..] == [];
    assert Chunks(true, state, []) == [];
  }

  /** The list of ends, cut in twos by the graphics library, is the list of segments again. */
  lemma {:induction false} EndsDrawTheSegments(vs: seq<Vertex>, ss: seq<Segment>, state: DrawState)
    requires forall s :: s in ss ==> InRange(s, |vs|)
    ensures Chunks(true, state, EndsOf(vs, ss)) == SegmentPrimitives(vs, ss, state)
  {
    if ss != [] {
      var front, s := ss[..|ss| - 1], ss[|ss| - 1];
      assert s in ss && InRange(s, |vs|);
      EndsDrawTheSegments(vs, front, state);
      hide Chunks;
      ChunksConcat(true, state, EndsOf(vs, front), [vs[s.0], vs[s.1]]);
      OneChunk(state, vs[s.0], vs[s.1]);
    }
  }

  /** One more batch of lines on an aligned queue: the frame gains exactly the segments. */
  lemma MetalDrawsTheSegments(draws: seq<Draw>, kind: LineKind, vs: seq<Vertex>, state: DrawState)
    requires forall d :: d in draws ==> Aligned(d)
    ensures var after := Coalesce(draws, Draw(true, state, EndsOf(vs, Segments(kind, vs))));
      Primitives(after) == Primitives(draws) + SegmentPrimitives(vs, Segments(kind, vs), state) &&
      forall d :: d in after ==> Aligned(d)
  {
    var ss := Segments(kind, vs);
    var d := Draw(true, state, EndsOf(vs, ss));
    assert Aligned(d);
    hide *;
    EndsDrawTheSegments(vs, ss, state);
    CoalesceDrawsTheSame(draws, d);
    CoalesceAligned(draws, d);
  }

  lemma NothingQueued(draws: seq<Draw>, state: DrawState)
    ensures Coalesce(draws, Draw(true, state, [])) == draws
  {
  }

  lemma NothingKept(kind: LineKind, vs: seq<Vertex>)
    requires |vs| < 2
    ensures EndsOf(vs, Segments(kind, vs)) == []
  {
  }

  method RenderLinesMetal(q: MetalQueue, kind: LineKind, vs: seq<Vertex>, state: DrawState)
    requires q.Valid()
    modifies q, q.buffer
    ensures q.Valid() && (q.buffer == old(q.buffer) || fresh(q.buffer))
    ensures q.Drawn() == Coalesce(old(q.Drawn()), Draw(true, state, EndsOf(vs, Segments(kind, vs))))
  {
    hide *;
    NothingQueued(old(q.Drawn()), state);
    if |vs| < 2 {
      NothingKept(kind, vs);
      return;
    }
    var segmentCount := SegmentCount(kind, |vs|);
    q.EnsureVertexCapacity(q.queued + 2 * segmentCount);
    q.Parts();
    var out := BuildEnds(kind, vs, q.buffer, q.queued);
    q.Restore();
    if out == 0 {
      assert q.buffer[q.queued..q.queued] == [];
      return;
    }
    q.QueueDraw(q.buffer, q.queued, out, true, state);
  }
}
