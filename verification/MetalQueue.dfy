/** The per-frame queue of Metal draws (src/backend_ast/graphics_3d_backend_ios.c:301-428):
    draws are appended to one vertex buffer, and a draw that agrees with the last command is merged into it. */
module MetalQueue {

  /** A transformed vertex; what it carries beside the validity flag never decides which primitives are drawn. */
  datatype Vertex = Vertex(valid: bool, data: int)

  datatype DrawState = DrawState(depthTest: bool, depthWrite: bool, depthFunc: nat,
                                 blend: bool, blendSrc: nat, blendDst: nat)

  datatype Command = Command(firstVertex: nat, vertexCount: nat, lines: bool, state: DrawState)

  /** What reaches the graphics library. */
  datatype Draw = Draw(lines: bool, state: DrawState, vertices: seq<Vertex>)

  /** One primitive with the state it is drawn in. */
  datatype Primitive = Primitive(lines: bool, state: DrawState, corners: seq<Vertex>)

  function Corners(lines: bool): nat {
    if lines then 2 else 3
  }

  /** The library draws corners in order, an incomplete last primitive not at all. */
  ghost function Chunks(lines: bool, state: DrawState, vs: seq<Vertex>): seq<Primitive>
    decreases |vs|
  {
    if |vs| < Corners(lines) then []
    else [Primitive(lines, state, vs[..Corners(lines)])] + Chunks(lines, state, vs[Corners(lines)..])
  }

  ghost function Primitives(draws: seq<Draw>): seq<Primitive> {
    if draws == [] then []
    else Primitives(draws[..|draws| - 1]) + Chunks(Last(draws).lines, Last(draws).state, Last(draws).vertices)
  }

  ghost function Last<T>(s: seq<T>): T
    requires s != []
  {
    s[|s| - 1]
  }

  ghost predicate Aligned(d: Draw) {
    |d.vertices| % Corners(d.lines) == 0
  }

  /** What queueing `d` after `draws` leaves to be drawn. */
  ghost function Coalesce(draws: seq<Draw>, d: Draw): seq<Draw> {
    if d.vertices == [] then draws
    else if draws != [] && Last(draws).lines == d.lines && Last(draws).state == d.state
    then draws[..|draws| - 1] + [Last(draws).(vertices := Last(draws).vertices + d.vertices)]
    else draws + [d]
  }

  ghost function CoalesceAll(draws: seq<Draw>): seq<Draw> {
    if draws == [] then [] else Coalesce(CoalesceAll(draws[..|draws| - 1]), Last(draws))
  }

  lemma Peel(n: nat, k: nat)
    requires 0 < n && (k == 2 || k == 3) && n % k == 0
    ensures n >= k && (n - k) % k == 0
  {
  }

  lemma FirstChunk(lines: bool, state: DrawState, a: seq<Vertex>, b: seq<Vertex>)
    requires |a| >= Corners(lines)
    ensures Chunks(lines, state, a + b) ==
      [Primitive(lines, state, a[..Corners(lines)])] + Chunks(lines, state, a[Corners(lines)..] + b)
  {
    var k := Corners(lines);
    assert (a + b)[..k] == a[..k] && (a + b)[k..] == a[k..] + b;
  }

  lemma {:induction false} ChunksConcat(lines: bool, state: DrawState, a: seq<Vertex>, b: seq<Vertex>)
    requires |a| % Corners(lines) == 0
    ensures Chunks(lines, state, a + b) == Chunks(lines, state, a) + Chunks(lines, state, b)
    decreases |a|
  {
    var k := Corners(lines);
    if a == [] {
      assert a + b == b;
    } else {
      Peel(|a|, k);
      FirstChunk(lines, state, a, b);
      FirstChunk(lines, state, a, []);
      ChunksConcat(lines, state, a[k..], b);
      hide Chunks;
      assert a + [] == a && a[k..] + [] == a[k..];
    }
  }

  lemma PrimitivesSnoc(draws: seq<Draw>, d: Draw)
    ensures Primitives(draws + [d]) == Primitives(draws) + Chunks(d.lines, d.state, d.vertices)
  {
    assert (draws + [d])[..|draws|] == draws;
  }

  lemma MergedDrawsTheSame(front: seq<Draw>, last: Draw, d: Draw)
    requires Aligned(last) && last.lines == d.lines && last.state == d.state
    ensures Primitives(front + [last.(vertices := last.vertices + d.vertices)]) ==
      Primitives(front + [last]) + Chunks(d.lines, d.state, d.vertices)
  {
    ChunksConcat(d.lines, d.state, last.vertices, d.vertices);
    hide *;
    var merged := last.(vertices := last.vertices + d.vertices);
    PrimitivesSnoc(front, merged);
    PrimitivesSnoc(front, last);
    assert Primitives(front + [merged]) == Primitives(front) + Chunks(d.lines, d.state, last.vertices + d.vertices);
  }

  /** Merging an aligned batch with the next draw changes no primitive and no state. */
  lemma CoalesceDrawsTheSame(draws: seq<Draw>, d: Draw)
    requires forall e :: e in draws ==> Aligned(e)
    ensures Primitives(Coalesce(draws, d)) == Primitives(draws) + Chunks(d.lines, d.state, d.vertices)
  {
    assert d.vertices == [] ==> Chunks(d.lines, d.state, d.vertices) == [];
    hide Chunks, Primitives, Aligned;
    if d.vertices != [] {
      if draws != [] && Last(draws).lines == d.lines && Last(draws).state == d.state {
        assert Last(draws) in draws && draws == draws[..|draws| - 1] + [Last(draws)];
        MergedDrawsTheSame(draws[..|draws| - 1], Last(draws), d);
      } else {
        PrimitivesSnoc(draws, d);
      }
    }
  }

  lemma SumOfMultiples(a: nat, b: nat, k: nat)
    requires (k == 2 || k == 3) && a % k == 0 && b % k == 0
    ensures (a + b) % k == 0
  {
  }

  lemma MergedAligned(last: Draw, d: Draw)
    requires Aligned(last) && Aligned(d) && last.lines == d.lines
    ensures Aligned(last.(vertices := last.vertices + d.vertices))
  {
    SumOfMultiples(|last.vertices|, |d.vertices|, Corners(d.lines));
  }

  lemma CoalesceAligned(draws: seq<Draw>, d: Draw)
    requires Aligned(d) && forall e :: e in draws ==> Aligned(e)
    ensures forall e :: e in Coalesce(draws, d) ==> Aligned(e)
  {
    hide Aligned;
    if draws != [] {
      assert Last(draws) in draws;
      if Last(draws).lines == d.lines { MergedAligned(Last(draws), d); }
    }
  }

  /** Over any sequence of aligned draws, flushing the batches draws what drawing them one by one would. */
  lemma {:induction false} BatchingDrawsTheSame(draws: seq<Draw>)
    requires forall d :: d in draws ==> Aligned(d)
    ensures Primitives(CoalesceAll(draws)) == Primitives(draws)
    ensures forall d :: d in CoalesceAll(draws) ==> Aligned(d)
  {
    if draws != [] {
      BatchingDrawsTheSame(draws[..|draws| - 1]);
      CoalesceDrawsTheSame(CoalesceAll(draws[..|draws| - 1]), Last(draws));
      CoalesceAligned(CoalesceAll(draws[..|draws| - 1]), Last(draws));
    }
  }

  /** No two neighbouring batches could have been merged. */
  lemma {:induction false} BatchesAreMaximal(draws: seq<Draw>, i: nat)
    requires i + 1 < |CoalesceAll(draws)|
    ensures var b := CoalesceAll(draws); b[i].lines != b[i + 1].lines || b[i].state != b[i + 1].state
  {
    var before := CoalesceAll(draws[..|draws| - 1]);
    if i + 1 < |before| {
      BatchesAreMaximal(draws[..|draws| - 1], i);
    }
  }

  /** Were a batch not aligned, merging could lose a primitive: a stray vertex before a triangle shifts its corners. */
  lemma UnalignedBatchDiffers(st: DrawState, a: Vertex, b: Vertex, c: Vertex, d: Vertex)
    requires a != b
    ensures var draws := [Draw(false, st, [a])];
      Primitives(Coalesce(draws, Draw(false, st, [b, c, d]))) != Primitives(draws) + Chunks(false, st, [b, c, d])
  {
    hide Chunks, Primitives, Coalesce;
    var one := Draw(false, st, [a]);
    FirstCorner(st, [a, b, c, d]);
    FirstCorner(st, [b, c, d]);
    MergedStray(st, a, [b, c, d]);
    assert [a] + [b, c, d] == [a, b, c, d];
  }

  lemma MergedStray(st: DrawState, a: Vertex, vs: seq<Vertex>)
    requires vs != []
    ensures var draws := [Draw(false, st, [a])];
      Primitives(draws) == [] && Primitives(Coalesce(draws, Draw(false, st, vs))) == Chunks(false, st, [a] + vs)
  {
    var one, all := Draw(false, st, [a]), Draw(false, st, [a] + vs);
    assert Coalesce([one], Draw(false, st, vs)) == [] + [all];
    assert [one] == [] + [one];
    assert Chunks(false, st, [a]) == [] && Primitives([]) == [];
    hide Chunks, Primitives, Coalesce;
    PrimitivesSnoc([], one);
    PrimitivesSnoc([], all);
  }

  lemma FirstCorner(st: DrawState, vs: seq<Vertex>)
    requires |vs| >= 3
    ensures Chunks(false, st, vs) != [] && Chunks(false, st, vs)[0].corners == vs[..3]
    ensures vs[..3][0] == vs[0]
  {
  }

  /** The commands tile the queued vertices in order, with no gap and no overlap. */
  ghost predicate Tiles(commands: seq<Command>, queued: nat) {
    && StartOf(commands, 0, queued) == 0
    && forall i :: 0 <= i < |commands| ==>
         commands[i].vertexCount > 0 &&
         commands[i].firstVertex + commands[i].vertexCount == StartOf(commands, i + 1, queued)
  }

  /** Where batch `i` starts, the one after the last at the end of the queue. */
  ghost function StartOf(commands: seq<Command>, i: nat, queued: nat): nat {
    if i < |commands| then commands[i].firstVertex else queued
  }

  lemma {:induction false} TileInside(commands: seq<Command>, queued: nat, i: nat)
    requires Tiles(commands, queued) && i < |commands|
    ensures commands[i].firstVertex + commands[i].vertexCount <= queued
    decreases |commands| - i
  {
    if i + 1 < |commands| {
      TileInside(commands, queued, i + 1);
    }
  }

  ghost predicate Inside(commands: seq<Command>, n: nat) {
    forall i :: 0 <= i < |commands| ==> commands[i].firstVertex + commands[i].vertexCount <= n
  }

  lemma TilesInside(commands: seq<Command>, queued: nat)
    requires Tiles(commands, queued)
    ensures Inside(commands, queued)
  {
    forall i | 0 <= i < |commands|
      ensures commands[i].firstVertex + commands[i].vertexCount <= queued
    {
      TileInside(commands, queued, i);
    }
  }

  ghost function DrawOf(c: Command, vs: seq<Vertex>): Draw
    requires c.firstVertex + c.vertexCount <= |vs|
  {
    Draw(c.lines, c.state, vs[c.firstVertex..c.firstVertex + c.vertexCount])
  }

  /** What the commands draw out of the buffer contents `vs`. */
  ghost function DrawsOf(commands: seq<Command>, vs: seq<Vertex>): (draws: seq<Draw>)
    requires Inside(commands, |vs|)
    ensures |draws| == |commands| && forall i :: 0 <= i < |draws| ==> draws[i] == DrawOf(commands[i], vs)
  {
    seq(|commands|, i requires 0 <= i < |commands| => DrawOf(commands[i], vs))
  }

  /** What queueing does to the commands. */
  ghost function Queued(commands: seq<Command>, queued: nat, count: nat, lines: bool, state: DrawState): seq<Command> {
    if commands != [] && Last(commands).lines == lines && Last(commands).state == state
    then commands[..|commands| - 1] + [Last(commands).(vertexCount := Last(commands).vertexCount + count)]
    else commands + [Command(queued, count, lines, state)]
  }

  lemma QueuedTiles(commands: seq<Command>, queued: nat, count: nat, lines: bool, state: DrawState)
    requires Tiles(commands, queued) && count > 0
    ensures Tiles(Queued(commands, queued, count, lines, state), queued + count)
  {
    var r := Queued(commands, queued, count, lines, state);
    forall i | 0 <= i < |r|
      ensures r[i].vertexCount > 0 && r[i].firstVertex + r[i].vertexCount == StartOf(r, i + 1, queued + count)
    {
      if i < |commands| {
        assert commands[i].firstVertex + commands[i].vertexCount == StartOf(commands, i + 1, queued);
      }
    }
  }

  lemma LastEndsQueue(commands: seq<Command>, queued: nat)
    requires Tiles(commands, queued) && commands != []
    ensures Last(commands).firstVertex + Last(commands).vertexCount == queued
  {
    assert Last(commands).firstVertex + Last(commands).vertexCount == StartOf(commands, |commands|, queued);
  }

  /** Extending the commands and the buffer coalesces the draws they stand for. */
  lemma QueuedDraws(commands: seq<Command>, vs: seq<Vertex>, added: seq<Vertex>, lines: bool, state: DrawState)
    requires Tiles(commands, |vs|) && added != [] && Inside(commands, |vs|)
    requires Inside(Queued(commands, |vs|, |added|, lines, state), |vs + added|)
    ensures DrawsOf(Queued(commands, |vs|, |added|, lines, state), vs + added) ==
      Coalesce(DrawsOf(commands, vs), Draw(lines, state, added))
  {
    if |Queued(commands, |vs|, |added|, lines, state)| == |commands| {
      QueuedMerged(commands, vs, added, lines, state);
    } else {
      QueuedNew(commands, vs, added, lines, state);
    }
  }

  /** The last command takes the draw in. */
  lemma QueuedMerged(commands: seq<Command>, vs: seq<Vertex>, added: seq<Vertex>, lines: bool, state: DrawState)
    requires Tiles(commands, |vs|) && added != [] && Inside(commands, |vs|) && commands != []
    requires Last(commands).lines == lines && Last(commands).state == state
    requires Inside(Queued(commands, |vs|, |added|, lines, state), |vs + added|)
    ensures DrawsOf(Queued(commands, |vs|, |added|, lines, state), vs + added) ==
      Coalesce(DrawsOf(commands, vs), Draw(lines, state, added))
  {
    var r, k := Queued(commands, |vs|, |added|, lines, state), |commands| - 1;
    var before, after := DrawsOf(commands, vs), DrawsOf(r, vs + added);
    assert r[..k] == commands[..k] && r[k] == Last(commands).(vertexCount := Last(commands).vertexCount + |added|);
    hide Tiles, Inside, Queued;
    MergedDraw(commands, vs, added);
    DrawsOfFront(commands, r, k, vs, vs + added);
    assert after[k] == DrawOf(r[k], vs + added);
    hide DrawsOf, DrawOf;
    assert after == after[..k] + [after[k]];
  }

  /** A command of its own. */
  lemma QueuedNew(commands: seq<Command>, vs: seq<Vertex>, added: seq<Vertex>, lines: bool, state: DrawState)
    requires Tiles(commands, |vs|) && added != [] && Inside(commands, |vs|)
    requires commands == [] || Last(commands).lines != lines || Last(commands).state != state
    requires Inside(Queued(commands, |vs|, |added|, lines, state), |vs + added|)
    ensures DrawsOf(Queued(commands, |vs|, |added|, lines, state), vs + added) ==
      Coalesce(DrawsOf(commands, vs), Draw(lines, state, added))
  {
    var r, k := Queued(commands, |vs|, |added|, lines, state), |commands|;
    var before, after := DrawsOf(commands, vs), DrawsOf(r, vs + added);
    assert r == commands + [Command(|vs|, |added|, lines, state)];
    assert (vs + added)[|vs|..|vs| + |added|] == added;
    hide Tiles, Inside, Queued;
    NotMerged(commands, vs, lines, state);
    DrawsOfFront(commands, r, k, vs, vs + added);
    assert after[k] == DrawOf(r[k], vs + added) == Draw(lines, state, added);
    hide DrawsOf, DrawOf;
    assert after == after[..k] + [after[k]] && before[..k] == before;
  }

  lemma NotMerged(commands: seq<Command>, vs: seq<Vertex>, lines: bool, state: DrawState)
    requires Inside(commands, |vs|)
    ensures |DrawsOf(commands, vs)| == |commands|
    ensures commands != [] ==>
      Last(DrawsOf(commands, vs)).lines == Last(commands).lines &&
      Last(DrawsOf(commands, vs)).state == Last(commands).state
  {
  }

  lemma MergedDraw(commands: seq<Command>, vs: seq<Vertex>, added: seq<Vertex>)
    requires Tiles(commands, |vs|) && Inside(commands, |vs|) && commands != []
    ensures var c := Last(commands); var c' := c.(vertexCount := c.vertexCount + |added|);
      c'.firstVertex + c'.vertexCount == |vs + added| && Last(DrawsOf(commands, vs)) == DrawOf(c, vs) &&
      DrawOf(c', vs + added) == DrawOf(c, vs).(vertices := DrawOf(c, vs).vertices + added)
  {
    var c, k := Last(commands), |commands| - 1;
    assert commands[k].firstVertex + commands[k].vertexCount == StartOf(commands, k + 1, |vs|);
    assert vs[c.firstVertex..c.firstVertex + c.vertexCount] == vs[c.firstVertex..];
    assert (vs + added)[c.firstVertex..c.firstVertex + (c.vertexCount + |added|)] == vs[c.firstVertex..] + added;
  }

  lemma DrawsOfFront(a: seq<Command>, b: seq<Command>, n: nat, vs: seq<Vertex>, ws: seq<Vertex>)
    requires n <= |a| && n <= |b| && a[..n] == b[..n] && vs <= ws && Inside(a, |vs|) && Inside(b, |ws|)
    ensures DrawsOf(a, vs)[..n] == DrawsOf(b, ws)[..n]
  {
    forall i | 0 <= i < n
      ensures DrawsOf(a, vs)[i] == DrawsOf(b, ws)[i]
    {
      assert a[i] == a[..n][i] == b[..n][i] == b[i];
      assert ws[..|vs|] == vs;
      assert a[i].firstVertex + a[i].vertexCount <= |vs|;
    }
  }

  lemma QueueStep(cs: seq<Command>, vs: seq<Vertex>, added: seq<Vertex>, lines: bool, state: DrawState)
    requires Tiles(cs, |vs|) && Inside(cs, |vs|) && added != []
    ensures var r := Queued(cs, |vs|, |added|, lines, state);
      Tiles(r, |vs| + |added|) && Inside(r, |vs| + |added|) && Inside(r, |vs + added|) &&
      DrawsOf(r, vs + added) == Coalesce(DrawsOf(cs, vs), Draw(lines, state, added))
  {
    hide *;
    QueuedTiles(cs, |vs|, |added|, lines, state);
    TilesInside(Queued(cs, |vs|, |added|, lines, state), |vs| + |added|);
    QueuedDraws(cs, vs, added, lines, state);
  }

  lemma EmptyQueue(vs: seq<Vertex>)
    ensures Tiles([], 0) && Inside([], 0) && Inside([], |vs|) && DrawsOf([], vs) == []
  {
  }

  class MetalQueue {
    var buffer: array<Vertex>
    var queued: nat
    var commands: seq<Command>

    constructor ()
      ensures Valid() && Drawn() == [] && fresh(buffer)
    {
      buffer := new Vertex[0];
      queued, commands := 0, [];
    }

    ghost predicate Valid()
      reads this, buffer
    {
      queued <= buffer.Length && Tiles(commands, queued) && Inside(commands, queued)
    }

    /** What a flush would draw now. */
    ghost function Drawn(): seq<Draw>
      requires Valid()
      reads this, buffer
    {
      DrawsOf(commands, buffer[..queued])
    }

    method EnsureVertexCapacity(count: nat)
      requires Valid()
      modifies this`buffer
      ensures Valid() && Drawn() == old(Drawn()) && count <= buffer.Length
      ensures buffer == old(buffer) || fresh(buffer)
      ensures old(buffer.Length) <= buffer.Length && buffer[..old(buffer.Length)] == old(buffer[..])
      ensures count <= old(buffer.Length) ==> buffer == old(buffer)
    {
      hide DrawsOf, Tiles, Inside;
      if count <= buffer.Length {
        return;
      }
      var newCap := if buffer.Length == 0 then 1024 else buffer.Length;
      while newCap < count
        invariant newCap > 0 && newCap >= buffer.Length
      {
        newCap := newCap * 2;
      }
      var resized := new Vertex[newCap](_ => Vertex(false, 0));
      forall i | 0 <= i < buffer.Length {
        resized[i] := buffer[i];
      }
      assert resized[..buffer.Length] == buffer[..];
      assert resized[..queued] == buffer[..queued] == old(buffer[..queued]);
      buffer := resized;
    }

    method AppendVertices(vertices: array<Vertex>, from: nat, count: nat)
      requires queued + count <= buffer.Length && from + count <= vertices.Length
      requires vertices == buffer ==> from == queued
      modifies buffer
      ensures buffer[..queued + count] == old(buffer[..queued]) + old(vertices[from..from + count])
    {
      if vertices != buffer || from != queued {
        forall i | 0 <= i < count {
          buffer[queued + i] := vertices[from + i];
        }
      }
    }

    method PushCommand(count: nat, lines: bool, state: DrawState)
      requires Tiles(commands, queued)
      modifies this`commands, this`queued
      ensures commands == Queued(old(commands), old(queued), count, lines, state) && queued == old(queued) + count
    {
      if commands != [] { LastEndsQueue(commands, queued); }
      hide Tiles;
      var last := |commands| - 1;
      if |commands| > 0 && commands[last].lines == lines && commands[last].state == state
         && commands[last].firstVertex + commands[last].vertexCount == queued {
        commands := commands[last := commands[last].(vertexCount := commands[last].vertexCount + count)];
        queued := queued + count;
        return;
      }
      commands := commands + [Command(queued, count, lines, state)];
      queued := queued + count;
    }

    /** `vertices` is another array, or the buffer itself when the draw was built in place behind the queue. */
    method QueueDraw(vertices: array<Vertex>, from: nat, count: nat, lines: bool, state: DrawState)
      requires Valid() && from + count <= vertices.Length && (vertices == buffer ==> from == queued)
      modifies this, buffer
      ensures Valid() && (buffer == old(buffer) || fresh(buffer))
      ensures Drawn() == Coalesce(old(Drawn()), Draw(lines, state, old(vertices[from..from + count])))
      ensures queued == old(queued) + count
    {
      if count == 0 {
        return;
      }
      hide DrawsOf, Tiles, Inside, Coalesce, Queued;
      ghost var added := vertices[from..from + count];
      EnsureVertexCapacity(queued + count);
      assert vertices[from..from + count] == added;
      ghost var vs := buffer[..queued];
      AppendVertices(vertices, from, count);
      AddBatch(count, lines, state, vs, added);
    }

    /** The vertices are in place behind the queue; now they become part of it. */
    method AddBatch(count: nat, lines: bool, state: DrawState, ghost vs: seq<Vertex>, ghost added: seq<Vertex>)
      requires Tiles(commands, queued) && Inside(commands, queued) && 0 < count == |added| && |vs| == queued
      requires queued + count <= buffer.Length && buffer[..queued + count] == vs + added
      modifies this`commands, this`queued
      ensures Valid() && queued == old(queued) + count
      ensures Inside(old(commands), |vs|) && Drawn() == Coalesce(DrawsOf(old(commands), vs), Draw(lines, state, added))
    {
      hide *;
      ghost var cs, q := commands, queued;
      PushCommand(count, lines, state);
      QueueStep(cs, vs, added, lines, state);
      Restore();
    }

    lemma Parts()
      requires Valid()
      ensures queued <= buffer.Length && Tiles(commands, queued) && Inside(commands, queued)
      ensures Drawn() == DrawsOf(commands, buffer[..queued])
    {
    }

    lemma Restore()
      requires queued <= buffer.Length && Tiles(commands, queued) && Inside(commands, queued)
      ensures Valid() && Drawn() == DrawsOf(commands, buffer[..queued])
    {
    }

    /** One draw of a flush, handed to the graphics library. */
    method Submit(i: nat) returns (d: Draw)
      requires Valid() && i < |commands|
      ensures d == Drawn()[i]
    {
      var c := commands[i];
      assert buffer[..queued][c.firstVertex..c.firstVertex + c.vertexCount] ==
        buffer[c.firstVertex..c.firstVertex + c.vertexCount];
      d := Draw(c.lines, c.state, buffer[c.firstVertex..c.firstVertex + c.vertexCount]);
    }

    /** `accepts(i)` is what the graphics library answers to the i-th draw of the flush. */
    method Flush(accepts: nat -> bool) returns (trace: seq<Draw>, ok: bool)
      requires Valid()
      modifies this`queued, this`commands
      ensures Valid() && Drawn() == []
      ensures ok ==> trace == old(Drawn()) && forall i :: 0 <= i < |trace| ==> accepts(i)
      ensures !ok ==> 0 < |trace| && trace <= old(Drawn()) && !accepts(|trace| - 1)
    {
      hide DrawsOf, Tiles, Inside;
      trace := [];
      ghost var drawn := Drawn();
      EmptyQueue(buffer[..0]);
      for i := 0 to |commands|
        invariant trace == drawn[..i] && forall j :: 0 <= j < i ==> accepts(j)
        invariant Valid() && Drawn() == drawn && commands == old(commands)
      {
        var d := Submit(i);
        trace := trace + [d];
        if !accepts(i) {
          queued, commands := 0, [];
          return trace, false;
        }
      }
      queued, commands := 0, [];
      return trace, true;
    }
  }
}
