/** Immediate mode and display lists (src/backend_ast/graphics_3d_backend_ios.c:1628-1655, 1822-1887, 2098-2148). */
module DisplayList {
  import opened Wrappers

  const GL_TRIANGLE_STRIP: nat := 5
  const GL_TRIANGLE_FAN: nat := 6
  const GL_QUAD_STRIP: nat := 8
  const GL_POLYGON: nat := 9

  /** Position, normal and colour of one vertex. */
  type Vertex = int

  /** One primitive with the vertices it is handed. */
  datatype Batch = Batch(primitive: nat, vertices: seq<Vertex>)

  datatype RecordedCommand = RecordedCommand(primitive: nat, firstVertex: nat, vertexCount: nat)

  datatype Recorded = Recorded(vertices: seq<Vertex>, commands: seq<RecordedCommand>)

  // ---- the session: what immediate mode holds and emits, and the blocks of the list being recorded

  /** `block` says that the last of the recorded blocks is still open; `live` that vertices are accepted. */
  datatype Session = Session(primitive: nat, vertices: seq<Vertex>, live: bool,
                             blocks: seq<Batch>, block: bool, emitted: seq<Batch>)

  datatype Event = Begin(primitive: nat) | Vertex(v: Vertex) | End | CallList(replayed: seq<Batch>)

  ghost function Last<T>(s: seq<T>): T
    requires s != []
  {
    s[|s| - 1]
  }

  function Drawable(primitive: nat): nat {
    if primitive == GL_QUAD_STRIP then GL_TRIANGLE_STRIP
    else if primitive == GL_POLYGON then GL_TRIANGLE_FAN
    else primitive
  }

  ghost function Grow(blocks: seq<Batch>, v: Vertex): seq<Batch>
    requires blocks != []
  {
    blocks[..|blocks| - 1] + [Last(blocks).(vertices := Last(blocks).vertices + [v])]
  }

  ghost function NonEmpty(blocks: seq<Batch>): seq<Batch> {
    if blocks == [] then []
    else NonEmpty(blocks[..|blocks| - 1]) + if Last(blocks).vertices == [] then [] else [Last(blocks)]
  }

  /** What an event does while a list is being recorded. */
  ghost function Step(s: Session, e: Event): Session {
    match e
    case Begin(p) =>
      s.(primitive := Drawable(p), vertices := [], live := true,
         blocks := s.blocks + [Batch(Drawable(p), [])], block := true)
    case Vertex(v) =>
      if !s.live then s
      else s.(vertices := s.vertices + [v],
              blocks := if s.block && s.blocks != [] then Grow(s.blocks, v) else s.blocks)
    case End => Flushed(s).(block := false)
    case CallList(bs) =>
      if bs == [] then s
      else s.(primitive := Last(bs).primitive, vertices := [], live := false, emitted := s.emitted + bs)
  }

  /** Nothing happens when there is nothing to emit: the session then even stays live. */
  ghost function Flushed(s: Session): Session {
    if !s.live || s.vertices == [] then s
    else s.(vertices := [], live := false, emitted := s.emitted + [Batch(s.primitive, s.vertices)])
  }

  ghost function Run(s: Session, events: seq<Event>): Session {
    if events == [] then s else Step(Run(s, events[..|events| - 1]), Last(events))
  }

  /** A recorded block holds vertices that immediate mode has not emitted yet. */
  ghost predicate Pending(s: Session) {
    s.block && s.live && s.vertices != []
  }

  /** Blocks recorded by the event that immediate mode will never emit. */
  ghost function Lost(s: Session, e: Event): nat {
    if Pending(s) && (e.Begin? || (e.CallList? && e.replayed != [])) then 1 else 0
  }

  /** Batches emitted by the event that are not recorded. */
  ghost function Stray(s: Session, e: Event): nat {
    match e
    case End => if s.live && s.vertices != [] && !s.block then 1 else 0
    case CallList(bs) => |bs|
    case _ => 0
  }

  ghost function AllLost(s: Session, events: seq<Event>): nat {
    if events == [] then 0
    else var front := events[..|events| - 1]; AllLost(s, front) + Lost(Run(s, front), Last(events))
  }

  ghost function AllStray(s: Session, events: seq<Event>): nat {
    if events == [] then 0
    else var front := events[..|events| - 1]; AllStray(s, front) + Stray(Run(s, front), Last(events))
  }

  /** How a list begins: nothing recorded, whatever immediate mode may hold. */
  ghost predicate Fresh(s: Session) {
    s.blocks == [] && !s.block && (!s.live ==> s.vertices == [])
  }

  /** While a block is open and vertices are accepted, it is what immediate mode holds. */
  ghost predicate Coherent(s: Session) {
    && (s.block ==> s.blocks != [] && (s.live ==> Last(s.blocks) == Batch(s.primitive, s.vertices)))
    && (!s.live ==> s.vertices == [])
  }

  lemma NonEmptySnoc(blocks: seq<Batch>, b: Batch)
    ensures NonEmpty(blocks + [b]) == NonEmpty(blocks) + if b.vertices == [] then [] else [b]
  {
    assert (blocks + [b])[..|blocks|] == blocks;
  }

  lemma NonEmptyGrow(blocks: seq<Batch>, v: Vertex)
    requires blocks != []
    ensures NonEmpty(Grow(blocks, v)) ==
      NonEmpty(blocks[..|blocks| - 1]) + [Last(blocks).(vertices := Last(blocks).vertices + [v])]
    ensures Last(blocks).vertices != [] ==> |NonEmpty(Grow(blocks, v))| == |NonEmpty(blocks)|
    ensures Last(blocks).vertices == [] ==> |NonEmpty(Grow(blocks, v))| == |NonEmpty(blocks)| + 1
  {
    NonEmptySnoc(blocks[..|blocks| - 1], Last(blocks).(vertices := Last(blocks).vertices + [v]));
  }

  lemma CoherentStep(s: Session, e: Event)
    requires Coherent(s)
    ensures Coherent(Step(s, e))
  {
  }

  ghost function PendingCount(s: Session): nat {
    if Pending(s) then 1 else 0
  }

  /** One event keeps the count of recorded blocks and emitted batches in balance. */
  lemma BalanceStep(s: Session, e: Event)
    requires Coherent(s)
    ensures var t := Step(s, e);
      |NonEmpty(t.blocks)| - |NonEmpty(s.blocks)| + Stray(s, e) + PendingCount(s) ==
      |t.emitted| - |s.emitted| + Lost(s, e) + PendingCount(t)
  {
    var t := Step(s, e);
    match e {
      case Begin(p) => NonEmptySnoc(s.blocks, Batch(Drawable(p), []));
      case Vertex(v) => if s.live && s.block { NonEmptyGrow(s.blocks, v); }
      case End =>
      case CallList(bs) =>
    }
  }

  /** In every run: blocks recorded, strays added, are batches emitted, lost blocks and the open one added. */
  lemma {:induction false} Balance(s: Session, events: seq<Event>)
    requires Fresh(s)
    ensures Coherent(Run(s, events))
    ensures var t := Run(s, events);
      |NonEmpty(t.blocks)| + AllStray(s, events) ==
      |t.emitted| - |s.emitted| + AllLost(s, events) + PendingCount(t)
  {
    if events != [] {
      var front := events[..|events| - 1];
      Balance(s, front);
      CoherentStep(Run(s, front), Last(events));
      BalanceStep(Run(s, front), Last(events));
      hide Step, NonEmpty, Coherent, Stray, Lost, PendingCount;
    }
  }

  /** The blocks with vertices are, in order, what was emitted since `from`, and then the open one. */
  ghost predicate Mirrors(s: Session, from: seq<Batch>) {
    from + NonEmpty(s.blocks) == s.emitted + if Pending(s) then [Batch(s.primitive, s.vertices)] else []
  }

  lemma MirrorsStep(s: Session, e: Event, from: seq<Batch>)
    requires Coherent(s) && Mirrors(s, from) && Lost(s, e) == 0 && Stray(s, e) == 0
    ensures Mirrors(Step(s, e), from)
  {
    match e {
      case Begin(p) => NonEmptySnoc(s.blocks, Batch(Drawable(p), []));
      case Vertex(v) =>
        if s.live && s.block {
          GrowMirrored(s, v, from);
        }
      case End =>
      case CallList(bs) =>
    }
  }

  lemma GrowMirrored(s: Session, v: Vertex, from: seq<Batch>)
    requires Coherent(s) && Mirrors(s, from) && s.live && s.block
    ensures Mirrors(Step(s, Vertex(v)), from)
  {
    var front, last := s.blocks[..|s.blocks| - 1], Last(s.blocks);
    NonEmptyGrow(s.blocks, v);
    NonEmptySnoc(front, last);
    assert s.blocks == front + [last];
    if last.vertices == [] {
      assert NonEmpty(front) + [] == NonEmpty(front) && s.emitted + [] == s.emitted;
    } else {
      assert from + NonEmpty(s.blocks) == (from + NonEmpty(front)) + [last];
      SameFront(from + NonEmpty(front), s.emitted, last);
    }
    assert from + (NonEmpty(front) + [Batch(s.primitive, s.vertices + [v])]) ==
      s.emitted + [Batch(s.primitive, s.vertices + [v])];
  }

  lemma SameFront(a: seq<Batch>, b: seq<Batch>, last: Batch)
    requires a + [last] == b + [last]
    ensures a == b
  {
    assert a == (a + [last])[..|a|] && b == (b + [last])[..|b|];
  }

  lemma {:induction false} CleanRunMirrors(s: Session, events: seq<Event>)
    requires Fresh(s) && AllLost(s, events) == 0 && AllStray(s, events) == 0
    ensures Mirrors(Run(s, events), s.emitted)
  {
    if events != [] {
      var front := events[..|events| - 1];
      CleanRunMirrors(s, front);
      Balance(s, front);
      MirrorsStep(Run(s, front), Last(events), s.emitted);
    }
  }

  ghost predicate Faithful(s: Session, events: seq<Event>) {
    Run(s, events).emitted == s.emitted + NonEmpty(Run(s, events).blocks)
  }

  /** In any run, whatever it calls: if no block was lost or is left open and nothing was emitted astray, the recorded
      blocks are what was emitted. */
  lemma CleanRunIsFaithful(s: Session, events: seq<Event>)
    requires Fresh(s) && AllLost(s, events) == 0 && AllStray(s, events) == 0 && !Pending(Run(s, events))
    ensures Faithful(s, events)
  {
    CleanRunMirrors(s, events);
    hide Run, NonEmpty, AllLost, AllStray, Pending;
  }

  /** Without strays, the recorded blocks are what was emitted exactly when no block was lost or is left open. */
  lemma FaithfulIffNoneLost(s: Session, events: seq<Event>)
    requires Fresh(s) && AllStray(s, events) == 0
    ensures Faithful(s, events) <==> AllLost(s, events) == 0 && !Pending(Run(s, events))
  {
    Balance(s, events);
    if AllLost(s, events) == 0 { CleanRunMirrors(s, events); }
    hide Run, NonEmpty, AllLost, AllStray, Coherent;
  }

  /** Without lost blocks, exactly when nothing was emitted astray. */
  lemma FaithfulIffNoneStray(s: Session, events: seq<Event>)
    requires Fresh(s) && AllLost(s, events) == 0 && !Pending(Run(s, events))
    ensures Faithful(s, events) <==> AllStray(s, events) == 0
  {
    Balance(s, events);
    if AllStray(s, events) == 0 { CleanRunMirrors(s, events); }
    hide Run, NonEmpty, AllLost, AllStray, Coherent;
  }

  // ---- runs whose vertices can be told apart

  ghost function Values(bs: seq<Batch>): set<Vertex> {
    set b, v | b in bs && v in b.vertices :: v
  }

  ghost function Held(s: Session): set<Vertex> {
    set v | v in s.vertices
  }

  /** The vertices an event brings. */
  ghost function Brought(e: Event): set<Vertex> {
    match e
    case Vertex(v) => {v}
    case CallList(bs) => Values(bs)
    case _ => {}
  }

  ghost function BroughtBy(s: Session, events: seq<Event>): set<Vertex> {
    if events == [] then Held(s) else BroughtBy(s, events[..|events| - 1]) + Brought(Last(events))
  }

  /** No vertex is brought by two events or already held, and what is replayed has vertices. */
  ghost predicate Distinguishable(s: Session, events: seq<Event>) {
    && (forall i, j :: 0 <= i < j < |events| ==> Brought(events[i]) !! Brought(events[j]))
    && (forall i :: 0 <= i < |events| ==> Brought(events[i]) !! Held(s))
    && (forall i :: 0 <= i < |events| && events[i].CallList? ==>
          forall b :: b in events[i].replayed ==> b.vertices != [])
  }

  /** What has been brought so far says where a vertex can be: what is held has not been emitted since the first n
      batches, and is recorded only in an open block. */
  ghost predicate Tracked(s: Session, n: nat, brought: set<Vertex>) {
    && Coherent(s) && n <= |s.emitted|
    && Held(s) <= brought && Values(s.blocks) <= brought && Values(s.emitted[n..]) <= brought
    && Held(s) !! Values(s.emitted[n..]) && (!s.block ==> Held(s) !! Values(s.blocks))
  }

  ghost predicate SomeAstray(s: Session, n: nat)
    requires n <= |s.emitted|
  {
    exists v :: v in Values(s.emitted[n..]) && v !in Values(s.blocks)
  }

  ghost predicate SomeAbandoned(s: Session, n: nat)
    requires n <= |s.emitted|
  {
    exists v :: v in Values(s.blocks) && v !in Values(s.emitted[n..]) && v !in Held(s)
  }

  lemma ValueIn(bs: seq<Batch>, b: Batch, v: Vertex)
    requires b in bs && v in b.vertices
    ensures v in Values(bs)
  {
    var vs := Values(bs);
    assert exists c, w :: c in bs && w in c.vertices && w == v;
  }

  lemma ValuesConcat(a: seq<Batch>, b: seq<Batch>)
    ensures Values(a + b) == Values(a) + Values(b)
  {
    assert forall x :: x in a + b <==> x in a || x in b;
  }

  lemma ValuesOne(b: Batch)
    ensures Values([b]) == set v | v in b.vertices
  {
    forall v | v in b.vertices
      ensures v in Values([b])
    {
      ValueIn([b], b, v);
    }
  }

  lemma {:induction false} ValuesNonEmpty(bs: seq<Batch>)
    ensures Values(NonEmpty(bs)) == Values(bs)
  {
    if bs != [] {
      var front, last := bs[..|bs| - 1], Last(bs);
      assert bs == front + [last];
      ValuesNonEmpty(front);
      ValuesConcat(front, [last]);
      ValuesConcat(NonEmpty(front), [last]);
      ValuesOne(last);
      assert NonEmpty(front) + [] == NonEmpty(front);
      hide Values;
    }
  }

  lemma ValuesGrow(blocks: seq<Batch>, v: Vertex)
    requires blocks != []
    ensures Values(Grow(blocks, v)) == Values(blocks) + {v}
  {
    var front, last := blocks[..|blocks| - 1], Last(blocks);
    var more := last.(vertices := last.vertices + [v]);
    assert blocks == front + [last];
    ValuesConcat(front, [last]);
    ValuesConcat(front, [more]);
    ValuesOne(last);
    ValuesOne(more);
    hide Values;
  }

  lemma EmittedSince(s: Session, n: nat, bs: seq<Batch>)
    requires n <= |s.emitted|
    ensures Values((s.emitted + bs)[n..]) == Values(s.emitted[n..]) + Values(bs)
  {
    assert (s.emitted + bs)[n..] == s.emitted[n..] + bs;
    ValuesConcat(s.emitted[n..], bs);
  }

  lemma LastRecorded(s: Session)
    requires Coherent(s) && s.block && s.live
    ensures Held(s) <= Values(s.blocks)
  {
    forall v | v in Held(s)
      ensures v in Values(s.blocks)
    {
      ValueIn(s.blocks, Last(s.blocks), v);
    }
  }

  /** A vertex that has gone astray, or was abandoned, stays so. */
  ghost predicate Stays(s: Session, t: Session, n: nat)
    requires n <= |s.emitted| && n <= |t.emitted|
  {
    (SomeAstray(s, n) ==> SomeAstray(t, n)) && (SomeAbandoned(s, n) ==> SomeAbandoned(t, n))
  }

  ghost predicate Noted(s: Session, e: Event, n: nat)
    requires n <= |Step(s, e).emitted|
  {
    (Stray(s, e) > 0 ==> SomeAstray(Step(s, e), n)) && (Lost(s, e) > 0 ==> SomeAbandoned(Step(s, e), n))
  }

  lemma TrackBegin(s: Session, p: nat, n: nat, brought: set<Vertex>)
    requires Tracked(s, n, brought)
    ensures var t := Step(s, Begin(p)); Tracked(t, n, brought) && Stays(s, t, n) && Noted(s, Begin(p), n)
  {
    CoherentStep(s, Begin(p));
    var b := Batch(Drawable(p), []);
    ValuesConcat(s.blocks, [b]);
    ValuesOne(b);
    if Pending(s) { LastRecorded(s); assert s.vertices[0] in Held(s); }
    hide Values, Coherent;
  }

  lemma TrackVertex(s: Session, v: Vertex, n: nat, brought: set<Vertex>)
    requires Tracked(s, n, brought) && v !in brought
    ensures var t := Step(s, Vertex(v)); Tracked(t, n, brought + {v}) && Stays(s, t, n) && Noted(s, Vertex(v), n)
  {
    CoherentStep(s, Vertex(v));
    if s.live {
      assert Held(Step(s, Vertex(v))) == Held(s) + {v};
      if s.block && s.blocks != [] { ValuesGrow(s.blocks, v); }
    }
    hide Values, Held, Grow;
  }

  lemma TrackEnd(s: Session, n: nat, brought: set<Vertex>)
    requires Tracked(s, n, brought)
    ensures var t := Step(s, End); Tracked(t, n, brought) && Stays(s, t, n) && Noted(s, End, n)
  {
    CoherentStep(s, End);
    if s.live && s.vertices != [] {
      var b := Batch(s.primitive, s.vertices);
      EmittedSince(s, n, [b]);
      ValuesOne(b);
      assert s.vertices[0] in Held(s);
    }
    hide Values, Coherent;
  }

  lemma TrackCall(s: Session, bs: seq<Batch>, n: nat, brought: set<Vertex>)
    requires Tracked(s, n, brought) && Values(bs) !! brought && forall b :: b in bs ==> b.vertices != []
    ensures var t := Step(s, CallList(bs));
      Tracked(t, n, brought + Values(bs)) && Stays(s, t, n) && Noted(s, CallList(bs), n)
  {
    CoherentStep(s, CallList(bs));
    if bs != [] {
      EmittedSince(s, n, bs);
      ValueIn(bs, bs[0], bs[0].vertices[0]);
      if Pending(s) { LastRecorded(s); assert s.vertices[0] in Held(s); }
    }
    hide Values, Coherent;
  }

  lemma TrackStep(s: Session, e: Event, n: nat, brought: set<Vertex>)
    requires Tracked(s, n, brought) && Brought(e) !! brought
    requires e.CallList? ==> forall b :: b in e.replayed ==> b.vertices != []
    ensures var t := Step(s, e); Tracked(t, n, brought + Brought(e)) && Stays(s, t, n) && Noted(s, e, n)
  {
    hide Tracked, Step, Stays, Noted, Values;
    assert brought + {} == brought;
    match e {
      case Begin(p) => TrackBegin(s, p, n, brought);
      case Vertex(v) => TrackVertex(s, v, n, brought);
      case End => TrackEnd(s, n, brought);
      case CallList(bs) => TrackCall(s, bs, n, brought);
    }
  }

  lemma {:induction false} BroughtDisjoint(s: Session, events: seq<Event>, k: nat)
    requires Distinguishable(s, events) && k < |events|
    ensures forall j :: k <= j < |events| ==> Brought(events[j]) !! BroughtBy(s, events[..k])
  {
    hide Brought, Held;
    if k > 0 {
      BroughtDisjoint(s, events, k - 1);
      assert events[..k][..k - 1] == events[..k - 1] && Last(events[..k]) == events[k - 1];
    }
  }

  lemma BroughtBySnoc(s: Session, events: seq<Event>)
    requires events != [] && Distinguishable(s, events)
    ensures var front := events[..|events| - 1];
      Distinguishable(s, front) && Brought(Last(events)) !! BroughtBy(s, front) &&
      BroughtBy(s, events) == BroughtBy(s, front) + Brought(Last(events))
  {
    BroughtDisjoint(s, events, |events| - 1);
    hide Brought, Held;
  }

  lemma {:induction false} TrackRun(s: Session, events: seq<Event>)
    requires Fresh(s) && Distinguishable(s, events)
    ensures var t := Run(s, events);
      Tracked(t, |s.emitted|, BroughtBy(s, events)) &&
      (AllStray(s, events) > 0 ==> SomeAstray(t, |s.emitted|)) &&
      (AllLost(s, events) > 0 ==> SomeAbandoned(t, |s.emitted|))
  {
    if events == [] {
      assert s.emitted[|s.emitted|..] == [];
    } else {
      var front, last := events[..|events| - 1], Last(events);
      assert events[|events| - 1] == last;
      hide Step, Tracked, SomeAstray, SomeAbandoned, Lost, Stray, Brought, BroughtBy;
      BroughtBySnoc(s, events);
      TrackRun(s, front);
      TrackStep(Run(s, front), last, |s.emitted|, BroughtBy(s, front));
    }
  }

  lemma FaithfulValues(s: Session, events: seq<Event>)
    requires Faithful(s, events)
    ensures var t := Run(s, events);
      |s.emitted| <= |t.emitted| && Values(t.emitted[|s.emitted|..]) == Values(t.blocks)
  {
    var t := Run(s, events);
    ValuesNonEmpty(t.blocks);
    assert (s.emitted + NonEmpty(t.blocks))[|s.emitted|..] == NonEmpty(t.blocks);
  }

  lemma PendingIsAbsent(s: Session, n: nat, brought: set<Vertex>)
    requires Tracked(s, n, brought) && Pending(s)
    ensures Values(s.emitted[n..]) != Values(s.blocks)
  {
    LastRecorded(s);
    assert s.vertices[0] in Held(s);
    hide Values;
  }

  /** Where vertices can be told apart, recording is faithful exactly if no block was lost or is left open and nothing
      was emitted astray. */
  lemma FaithfulIff(s: Session, events: seq<Event>)
    requires Fresh(s) && Distinguishable(s, events)
    ensures Faithful(s, events) <==>
      AllLost(s, events) == 0 && AllStray(s, events) == 0 && !Pending(Run(s, events))
  {
    TrackRun(s, events);
    hide Run, Values, Tracked, Faithful, AllLost, AllStray, Pending, Distinguishable;
    if AllLost(s, events) == 0 && AllStray(s, events) == 0 && !Pending(Run(s, events)) {
      CleanRunIsFaithful(s, events);
    }
    if Faithful(s, events) {
      FaithfulValues(s, events);
      if Pending(Run(s, events)) { PendingIsAbsent(Run(s, events), |s.emitted|, BroughtBy(s, events)); }
    }
  }

  lemma RunSnoc(s: Session, events: seq<Event>, e: Event)
    ensures Run(s, events + [e]) == Step(Run(s, events), e)
    ensures AllLost(s, events + [e]) == AllLost(s, events) + Lost(Run(s, events), e)
    ensures AllStray(s, events + [e]) == AllStray(s, events) + Stray(Run(s, events), e)
  {
    assert (events + [e])[..|events|] == events;
    hide Step, Lost, Stray;
  }

  /** Without telling vertices apart the causes can cancel: a block is lost, a batch is emitted astray, and recording is
      faithful all the same. */
  lemma CausesCancel(v: Vertex)
    ensures var s := Session(0, [], false, [], false, []);
      var events := [Begin(4)] + [Event.Vertex(v)] + [Begin(4)] + [End] + [Event.Vertex(v)] + [End];
      AllLost(s, events) == 1 && AllStray(s, events) == 1 && Faithful(s, events)
  {
    var s := Session(0, [], false, [], false, []);
    var b := Batch(4, [v]);
    var s2 := Session(4, [v], true, [b], true, []);
    var s5 := Session(4, [v], true, [b, Batch(4, [])], false, []);
    CutBlock(v);
    OneBlock(b);
    NonEmptySnoc([b], Batch(4, []));
    assert [b] + [Batch(4, [])] == [b, Batch(4, [])] && [b] + [] == [b] && [] + [b] == [b];
    ThenCut(b);
    NoEvents(s);
    var e0: seq<Event> := [];
    assert Lost(s, Begin(4)) == 0 && Lost(s2, Begin(4)) == 1;
    assert Stray(s5, End) == 1 && e0 + [Begin(4)] == [Begin(4)];
    hide Run, Step, NonEmpty, AllLost, AllStray;
    RunSnoc(s, e0, Begin(4));
    RunSnoc(s, [Begin(4)], Event.Vertex(v));
    RunSnoc(s, [Begin(4)] + [Event.Vertex(v)], Begin(4));
    RunSnoc(s, [Begin(4)] + [Event.Vertex(v)] + [Begin(4)], End);
    RunSnoc(s, [Begin(4)] + [Event.Vertex(v)] + [Begin(4)] + [End], Event.Vertex(v));
    RunSnoc(s, [Begin(4)] + [Event.Vertex(v)] + [Begin(4)] + [End] + [Event.Vertex(v)], End);
  }

  lemma NoEvents(s: Session)
    ensures Run(s, []) == s && AllLost(s, []) == 0 && AllStray(s, []) == 0
  {
  }

  /** A block cut short, an empty one, and a vertex behind it. */
  lemma ThenCut(b: Batch)
    requires b.primitive == 4 && |b.vertices| == 1
    ensures var cut := Step(Session(4, b.vertices, true, [b], true, []), Begin(4));
      var behind := Step(Step(cut, End), Event.Vertex(b.vertices[0]));
      Stray(cut, End) == 0 && behind == Session(4, b.vertices, true, [b, Batch(4, [])], false, []) &&
      Step(behind, End) == Session(4, [], false, [b, Batch(4, [])], false, [b])
  {
    assert [b] + [Batch(4, [])] == [b, Batch(4, [])] && [] + [b.vertices[0]] == b.vertices && [] + [b] == [b];
  }

  // ---- well-bracketed recordings

  ghost function Vertices(vs: seq<Vertex>): (events: seq<Event>)
    ensures |events| == |vs|
  {
    seq(|vs|, i requires 0 <= i < |vs| => Event.Vertex(vs[i]))
  }

  ghost function Bracketed(b: Batch): seq<Event> {
    [Begin(b.primitive)] + Vertices(b.vertices) + [End]
  }

  ghost function AllBracketed(bs: seq<Batch>): seq<Event> {
    if bs == [] then [] else AllBracketed(bs[..|bs| - 1]) + Bracketed(Last(bs))
  }

  /** The blocks as they are drawn. */
  ghost function AllDrawable(bs: seq<Batch>): (ds: seq<Batch>)
    ensures |ds| == |bs|
    ensures forall i :: 0 <= i < |bs| ==> ds[i] == Batch(Drawable(bs[i].primitive), bs[i].vertices)
  {
    seq(|bs|, i requires 0 <= i < |bs| => Batch(Drawable(bs[i].primitive), bs[i].vertices))
  }

  lemma {:induction false} RunAppend(s: Session, a: seq<Event>, b: seq<Event>)
    ensures Run(s, a + b) == Run(Run(s, a), b)
    decreases |b|
  {
    if b == [] {
      assert a + b == a;
    } else {
      RunAppend(s, a, b[..|b| - 1]);
      assert (a + b)[..|a + b| - 1] == a + b[..|b| - 1];
      hide Step;
    }
  }

  lemma RunOne(s: Session, e: Event)
    ensures Run(s, [e]) == Step(s, e)
  {
    assert Run(s, []) == s;
  }

  lemma {:induction false} RunVertices(s: Session, vs: seq<Vertex>)
    requires s.live && s.block && s.blocks != []
    ensures var last := Last(s.blocks);
      Run(s, Vertices(vs)) == s.(vertices := s.vertices + vs,
        blocks := s.blocks[..|s.blocks| - 1] + [last.(vertices := last.vertices + vs)])
  {
    if vs != [] {
      var front := vs[..|vs| - 1];
      RunVertices(s, front);
      assert Vertices(vs) == Vertices(front) + [Vertex(vs[|vs| - 1])];
      assert front + [vs[|vs| - 1]] == vs;
      assert s.vertices + vs == (s.vertices + front) + [vs[|vs| - 1]];
      assert Last(s.blocks).vertices + vs == (Last(s.blocks).vertices + front) + [vs[|vs| - 1]];
    } else {
      assert s.vertices + vs == s.vertices && Last(s.blocks).vertices + vs == Last(s.blocks).vertices;
    }
  }

  lemma RunBracketed(s: Session, b: Batch)
    ensures var t := Run(s, Bracketed(b)); var d := Batch(Drawable(b.primitive), b.vertices);
      !t.block && t.vertices == [] && t.blocks == s.blocks + [d] &&
      t.emitted == s.emitted + if b.vertices == [] then [] else [d]
  {
    var begun := Step(s, Begin(b.primitive));
    RunAppend(s, [Begin(b.primitive)] + Vertices(b.vertices), [End]);
    RunAppend(s, [Begin(b.primitive)], Vertices(b.vertices));
    RunOne(s, Begin(b.primitive));
    RunVertices(begun, b.vertices);
    var filled := Run(begun, Vertices(b.vertices));
    RunOne(filled, End);
    hide Run;
    assert [] + b.vertices == b.vertices;
    assert begun.blocks[..|begun.blocks| - 1] == s.blocks;
  }

  /** Recording any list of bracketed blocks emits each block that has vertices, in order, and records all of them. */
  lemma {:induction false} RecordingEmits(s: Session, bs: seq<Batch>)
    requires s.vertices == [] && !s.block
    ensures var t := Run(s, AllBracketed(bs));
      !t.block && t.vertices == [] && t.blocks == s.blocks + AllDrawable(bs) &&
      t.emitted == s.emitted + NonEmpty(AllDrawable(bs))
  {
    if bs == [] {
      assert s.blocks + AllDrawable(bs) == s.blocks;
    } else {
      var front := bs[..|bs| - 1];
      var d := Batch(Drawable(Last(bs).primitive), Last(bs).vertices);
      AllDrawableSnoc(bs);
      AllBracketedSnoc(bs);
      hide *;
      RecordingEmits(s, front);
      RunAppend(s, AllBracketed(front), Bracketed(Last(bs)));
      RunBracketed(Run(s, AllBracketed(front)), Last(bs));
      NonEmptySnoc(AllDrawable(front), d);
    }
  }

  lemma AllDrawableSnoc(bs: seq<Batch>)
    requires bs != []
    ensures AllDrawable(bs) ==
      AllDrawable(bs[..|bs| - 1]) + [Batch(Drawable(Last(bs).primitive), Last(bs).vertices)]
  {
  }

  lemma AllBracketedSnoc(bs: seq<Batch>)
    requires bs != []
    ensures AllBracketed(bs) == AllBracketed(bs[..|bs| - 1]) + Bracketed(Last(bs))
  {
  }

  /** A list recorded from bracketed blocks replays what immediate mode emitted while it was recorded. */
  lemma ReplayDrawsTheSame(s: Session, bs: seq<Batch>, later: Session)
    requires s.vertices == [] && !s.block && s.blocks == []
    ensures var t, drawn := Run(s, AllBracketed(bs)), NonEmpty(AllDrawable(bs));
      t.emitted == s.emitted + drawn && Step(later, CallList(NonEmpty(t.blocks))).emitted == later.emitted + drawn
  {
    RecordingEmits(s, bs);
    hide Run, AllBracketed, NonEmpty, AllDrawable;
    assert s.blocks + AllDrawable(bs) == AllDrawable(bs);
    assert later.emitted + [] == later.emitted;
  }

  lemma RunTwo(s: Session, a: Event, b: Event)
    ensures Run(s, [a, b]) == Step(Step(s, a), b)
  {
    RunAppend(s, [a], [b]);
    RunOne(s, a);
    RunOne(Step(s, a), b);
    assert [a] + [b] == [a, b];
  }

  lemma CutBlock(v: Vertex)
    ensures Step(Step(Session(0, [], false, [], false, []), Begin(4)), Vertex(v)) ==
      Session(4, [v], true, [Batch(4, [v])], true, [])
  {
    assert [] + [Batch(4, [])] == [Batch(4, [])];
    var b := Batch(4, []);
    assert Last([b]) == b && [b][..0] == [] && b.vertices + [v] == [v];
    assert Grow([b], v) == [Batch(4, [v])];
  }

  lemma OneBlock(b: Batch)
    requires b.vertices != []
    ensures NonEmpty([b]) == [b]
  {
    NonEmptySnoc([], b);
    assert [] + [b] == [b] && NonEmpty([]) == [];
  }

  /** A block cut short by the next one is replayed although it was never drawn. */
  lemma AbandonedBlockReplays(v: Vertex, w: Vertex)
    ensures var s := Session(0, [], false, [], false, []);
      var t := Run(s, [Begin(4), Vertex(v)] + Bracketed(Batch(1, [w])));
      t.emitted == [Batch(1, [w])] && NonEmpty(t.blocks) == [Batch(4, [v]), Batch(1, [w])]
  {
    var s := Session(0, [], false, [], false, []);
    var cut := Session(4, [v], true, [Batch(4, [v])], true, []);
    CutBlock(v);
    OneBlock(Batch(4, [v]));
    NonEmptySnoc([Batch(4, [v])], Batch(1, [w]));
    hide Run, Step, NonEmpty, Bracketed;
    RunTwo(s, Begin(4), Event.Vertex(v));
    RunAppend(s, [Begin(4), Event.Vertex(v)], Bracketed(Batch(1, [w])));
    RunBracketed(cut, Batch(1, [w]));
  }

  /** After an empty block vertices are still accepted: they are drawn by the next End and recorded nowhere. */
  lemma StrayVerticesAreNotReplayed(v: Vertex)
    ensures var s := Session(0, [], false, [], false, []);
      var t := Run(s, [Begin(4), End] + [Vertex(v), End]);
      t.emitted == [Batch(4, [v])] && NonEmpty(t.blocks) == []
  {
    var s := Session(0, [], false, [], false, []);
    var idle := Session(4, [], true, [Batch(4, [])], false, []);
    assert Step(Step(s, Begin(4)), End) == idle;
    RunTwo(s, Begin(4), End);
    RunAppend(s, [Begin(4), End], [Event.Vertex(v), End]);
    RunTwo(idle, Event.Vertex(v), End);
    NonEmptySnoc([], Batch(4, []));
    assert [] + [Batch(4, [])] == [Batch(4, [])] && [] + [Batch(4, [v])] == [Batch(4, [v])];
    assert Step(idle, Event.Vertex(v)) == Session(4, [v], true, [Batch(4, [])], false, []);
    assert NonEmpty([]) == [];
  }

  // ---- the recording buffers

  ghost function StartOf(commands: seq<RecordedCommand>, i: nat, n: nat): nat {
    if i < |commands| then commands[i].firstVertex else n
  }

  /** The commands tile the recorded vertices in order, with no gap and no overlap. */
  ghost predicate Tiled(commands: seq<RecordedCommand>, n: nat) {
    && StartOf(commands, 0, n) == 0
    && forall i :: 0 <= i < |commands| ==>
         commands[i].firstVertex + commands[i].vertexCount == StartOf(commands, i + 1, n)
  }

  lemma TiledFront(commands: seq<RecordedCommand>, n: nat)
    requires Tiled(commands, n) && commands != []
    ensures var c := Last(commands);
      c.firstVertex + c.vertexCount == n && Tiled(commands[..|commands| - 1], c.firstVertex)
  {
    var c, k := Last(commands), |commands| - 1;
    assert commands[k].firstVertex + commands[k].vertexCount == StartOf(commands, k + 1, n);
    forall i | 0 <= i < k
      ensures commands[i].firstVertex + commands[i].vertexCount == StartOf(commands[..k], i + 1, c.firstVertex)
    {
      assert commands[i].firstVertex + commands[i].vertexCount == StartOf(commands, i + 1, n);
    }
  }

  lemma TiledSnoc(commands: seq<RecordedCommand>, n: nat, c: RecordedCommand)
    requires Tiled(commands, n) && c.firstVertex == n
    ensures Tiled(commands + [c], n + c.vertexCount)
  {
    var cs, m := commands + [c], n + c.vertexCount;
    forall i | 0 <= i < |cs|
      ensures cs[i].firstVertex + cs[i].vertexCount == StartOf(cs, i + 1, m)
    {
      if i < |commands| {
        assert commands[i].firstVertex + commands[i].vertexCount == StartOf(commands, i + 1, n);
      }
    }
  }

  /** The blocks that the commands cut out of the recorded vertices. */
  ghost function Blocks(commands: seq<RecordedCommand>, vs: seq<Vertex>): (blocks: seq<Batch>)
    requires Tiled(commands, |vs|)
    ensures |blocks| == |commands|
  {
    if commands == [] then []
    else
      var c := Last(commands);
      TiledFront(commands, |vs|);
      Blocks(commands[..|commands| - 1], vs[..c.firstVertex]) + [Batch(c.primitive, vs[c.firstVertex..])]
  }

  /** Every command stays inside the recorded vertices, and what lies there is its block. */
  lemma {:induction false} BlockAt(commands: seq<RecordedCommand>, vs: seq<Vertex>, i: nat)
    requires Tiled(commands, |vs|) && i < |commands|
    ensures var c := commands[i];
      c.firstVertex + c.vertexCount <= |vs| &&
      Blocks(commands, vs)[i] == Batch(c.primitive, vs[c.firstVertex..c.firstVertex + c.vertexCount])
  {
    var last := Last(commands);
    TiledFront(commands, |vs|);
    hide Tiled;
    if i < |commands| - 1 {
      BlockAt(commands[..|commands| - 1], vs[..last.firstVertex], i);
      assert Blocks(commands, vs)[i] == Blocks(commands[..|commands| - 1], vs[..last.firstVertex])[i];
    }
  }

  lemma BlocksSnoc(commands: seq<RecordedCommand>, vs: seq<Vertex>, primitive: nat)
    requires Tiled(commands, |vs|)
    ensures var cs := commands + [RecordedCommand(primitive, |vs|, 0)];
      Tiled(cs, |vs|) && Blocks(cs, vs) == Blocks(commands, vs) + [Batch(primitive, [])]
  {
    var cs := commands + [RecordedCommand(primitive, |vs|, 0)];
    TiledSnoc(commands, |vs|, RecordedCommand(primitive, |vs|, 0));
    assert cs[..|cs| - 1] == commands && vs[..|vs|] == vs && vs[|vs|..] == [];
  }

  /** The last command after one more vertex. */
  ghost function Extended(commands: seq<RecordedCommand>): seq<RecordedCommand>
    requires commands != []
  {
    commands[..|commands| - 1] + [Last(commands).(vertexCount := Last(commands).vertexCount + 1)]
  }

  lemma BlocksGrow(commands: seq<RecordedCommand>, vs: seq<Vertex>, v: Vertex)
    requires Tiled(commands, |vs|) && commands != []
    ensures Tiled(Extended(commands), |vs + [v]|)
    ensures Blocks(Extended(commands), vs + [v]) == Grow(Blocks(commands, vs), v)
  {
    var front, c := commands[..|commands| - 1], Last(commands);
    var c' := c.(vertexCount := c.vertexCount + 1);
    TiledFront(commands, |vs|);
    TiledSnoc(front, c.firstVertex, c');
    assert (front + [c'])[..|front|] == front;
    assert (vs + [v])[..c.firstVertex] == vs[..c.firstVertex];
    assert (vs + [v])[c.firstVertex..] == vs[c.firstVertex..] + [v];
    assert Blocks(commands, vs)[..|front|] == Blocks(front, vs[..c.firstVertex]);
  }

  lemma ExtendLast(commands: seq<RecordedCommand>, i: nat)
    requires i == |commands| - 1
    ensures Extended(commands) == commands[i := commands[i].(vertexCount := commands[i].vertexCount + 1)]
  {
  }

  /** What calling a list emits. */
  ghost function Replay(lists: map<nat, Recorded>, list: nat): seq<Batch> {
    if list in lists && Tiled(lists[list].commands, |lists[list].vertices|)
    then NonEmpty(Blocks(lists[list].commands, lists[list].vertices)) else []
  }

  ghost predicate ListsTiled(lists: map<nat, Recorded>) {
    forall id :: id in lists ==> Tiled(lists[id].commands, |lists[id].vertices|)
  }

  /** While no list is being recorded, a block is not either. */
  ghost function Heard(recording: bool, s: Session, e: Event): Session {
    if recording then Step(s, e) else Step(s, e).(blocks := s.blocks, block := s.block)
  }

  class Graphics {
    var primitive: nat
    var immediate: seq<Vertex>
    var live: bool
    var recordingList: bool
    var listId: nat
    var vertices: seq<Vertex>
    var commands: seq<RecordedCommand>
    var current: Option<nat>
    var lists: map<nat, Recorded>
    /** The batches handed to the renderer so far. */
    ghost var emitted: seq<Batch>

    constructor ()
      ensures Valid() && !recordingList && lists == map[] && View() == Session(0, [], false, [], false, [])
    {
      primitive, immediate, live, recordingList, listId := 0, [], false, false, 0;
      vertices, commands, current, lists, emitted := [], [], None, map[], [];
    }

    ghost predicate Valid()
      reads this
    {
      && Tiled(commands, |vertices|)
      && (current.Some? ==> recordingList && current.value == |commands| - 1)
      && (!recordingList ==> commands == [] && vertices == [])
      && (!live ==> immediate == [])
      && ListsTiled(lists)
    }

    ghost function View(): Session
      requires Valid()
      reads this
    {
      Session(primitive, immediate, live, Blocks(commands, vertices), current.Some?, emitted)
    }

    method Begin(mode: nat)
      requires Valid()
      modifies `primitive, `immediate, `live, `commands, `current
      ensures Valid() && View() == Heard(recordingList, old(View()), Event.Begin(mode))
    {
      var primitive' := mode;
      if primitive' == GL_QUAD_STRIP {
        primitive' := GL_TRIANGLE_STRIP;
      } else if primitive' == GL_POLYGON {
        primitive' := GL_TRIANGLE_FAN;
      }
      primitive, immediate, live := primitive', [], true;
      if recordingList {
        BlocksSnoc(commands, vertices, primitive');
        commands := commands + [RecordedCommand(primitive', |vertices|, 0)];
        current := Some(|commands| - 1);
      }
    }

    method FlushImmediate()
      requires Valid()
      modifies `immediate, `live, `emitted
      ensures Valid() && View() == Flushed(old(View()))
    {
      if !live || |immediate| == 0 {
        return;
      }
      emitted := emitted + [Batch(primitive, immediate)];
      immediate, live := [], false;
    }

    method End()
      requires Valid()
      modifies `immediate, `live, `emitted, `commands, `current
      ensures Valid() && View() == Heard(recordingList, old(View()), Event.End)
    {
      hide Blocks, Tiled, ListsTiled, Flushed;
      FlushImmediate();
      if recordingList && current.Some? {
        TiledFront(commands, |vertices|);
        var i := current.value;
        commands := commands[i := commands[i].(vertexCount := |vertices| - commands[i].firstVertex)];
        assert commands == old(commands);
        current := None;
      }
    }

    method Vertex3f(v: Vertex)
      requires Valid()
      modifies `immediate, `vertices, `commands
      ensures Valid() && View() == Heard(recordingList, old(View()), Event.Vertex(v))
    {
      hide Blocks, Tiled, ListsTiled, Grow;
      if !live {
        return;
      }
      immediate := immediate + [v];
      if recordingList && current.Some? {
        TiledFront(commands, |vertices|);
        BlocksGrow(commands, vertices, v);
        vertices := vertices + [v];
        var i := current.value;
        ExtendLast(commands, i);
        commands := commands[i := commands[i].(vertexCount := |vertices| - commands[i].firstVertex)];
      }
    }

    method NewList(list: nat)
      requires Valid()
      modifies `recordingList, `listId, `vertices, `commands, `current
      ensures Valid() && recordingList && View() == old(View())
      ensures listId == if old(recordingList) then old(listId) else list
    {
      if recordingList {
        return;
      }
      recordingList, listId := true, list;
      vertices, commands, current := [], [], None;
    }

    method EndList()
      requires Valid()
      modifies `recordingList, `vertices, `commands, `current, `lists
      ensures Valid() && !recordingList && View() == old(View()).(blocks := [], block := false)
      ensures !old(recordingList) ==> lists == old(lists)
      ensures old(recordingList) ==> Replay(lists, listId) == NonEmpty(old(View()).blocks)
      ensures forall id :: old(recordingList) && id != listId ==> Replay(lists, id) == Replay(old(lists), id)
    {
      if !recordingList {
        return;
      }
      lists := lists[listId := Recorded(vertices, commands)];
      vertices, commands, current := [], [], None;
      recordingList := false;
    }

    method CallList(list: nat)
      requires Valid()
      modifies `primitive, `immediate, `live, `emitted
      ensures Valid() && View() == Step(old(View()), Event.CallList(Replay(lists, list)))
    {
      hide *;
      EmptyReplay(View(), Replay(lists, list));
      ReplayOf(lists, list);
      if list in lists { ListTiled(list); }
      if list !in lists {
        return;
      }
      var dl := lists[list];
      if |dl.vertices| == 0 || |dl.commands| == 0 {
        return;
      }
      ghost var v0 := View();
      ghost var blocks := Blocks(dl.commands, dl.vertices);
      EmptyReplay(v0, NonEmpty(blocks[..0]));
      for ci := 0 to |dl.commands|
        invariant Valid() && View() == Step(v0, Event.CallList(NonEmpty(blocks[..ci])))
      {
        var cmd := dl.commands[ci];
        BlockAt(dl.commands, dl.vertices, ci);
        BlocksSoFar(blocks, ci);
        if cmd.vertexCount != 0 {
          ReplayCommand(dl, cmd);
          ReplayMore(v0, NonEmpty(blocks[..ci]), blocks[ci]);
        }
      }
      assert blocks[..|blocks|] == blocks;
    }

    lemma ListTiled(list: nat)
      requires Valid() && list in lists
      ensures Tiled(lists[list].commands, |lists[list].vertices|)
    {
    }

    method ReplayCommand(dl: Recorded, cmd: RecordedCommand)
      requires Valid() && cmd.firstVertex + cmd.vertexCount <= |dl.vertices| && cmd.vertexCount != 0
      modifies `primitive, `immediate, `live, `emitted
      ensures Valid()
      ensures View() == Step(old(View()), Event.CallList(
        [Batch(cmd.primitive, dl.vertices[cmd.firstVertex..cmd.firstVertex + cmd.vertexCount])]))
    {
      hide Blocks, Tiled, ListsTiled;
      primitive, immediate, live := cmd.primitive, [], true;
      for vi := 0 to cmd.vertexCount
        invariant Valid() && live && immediate == dl.vertices[cmd.firstVertex..cmd.firstVertex + vi]
        invariant View() == old(View()).(primitive := cmd.primitive, vertices := immediate, live := true)
      {
        immediate := immediate + [dl.vertices[cmd.firstVertex + vi]];
      }
      FlushImmediate();
    }
  }

  lemma EmptyReplay(s: Session, bs: seq<Batch>)
    ensures bs == [] ==> Step(s, CallList(bs)) == s
    ensures NonEmpty([]) == []
  {
  }

  lemma ReplayMore(s: Session, bs: seq<Batch>, b: Batch)
    ensures Step(Step(s, CallList(bs)), CallList([b])) == Step(s, CallList(bs + [b]))
  {
    assert s.emitted + (bs + [b]) == (s.emitted + bs) + [b];
    assert bs + [b] != [] && Last(bs + [b]) == b && Last([b]) == b;
  }

  lemma ReplayOf(lists: map<nat, Recorded>, list: nat)
    ensures list !in lists ==> Replay(lists, list) == []
    ensures list in lists ==> var dl := lists[list]; Tiled(dl.commands, |dl.vertices|) ==>
      Replay(lists, list) == NonEmpty(Blocks(dl.commands, dl.vertices)) &&
      (dl.vertices == [] || dl.commands == [] ==> Replay(lists, list) == [])
  {
    if list in lists {
      var dl := lists[list];
      if Tiled(dl.commands, |dl.vertices|) && (dl.vertices == [] || dl.commands == []) {
        NothingToReplay(dl.commands, dl.vertices);
      }
    }
  }

  lemma BlocksSoFar(blocks: seq<Batch>, i: nat)
    requires i < |blocks|
    ensures |blocks[i].vertices| == 0 ==> NonEmpty(blocks[..i + 1]) == NonEmpty(blocks[..i])
    ensures |blocks[i].vertices| != 0 ==> NonEmpty(blocks[..i + 1]) == NonEmpty(blocks[..i]) + [blocks[i]]
  {
    assert blocks[..i + 1] == blocks[..i] + [blocks[i]];
    NonEmptySnoc(blocks[..i], blocks[i]);
  }

  lemma {:induction false} NothingToReplay(commands: seq<RecordedCommand>, vs: seq<Vertex>)
    requires Tiled(commands, |vs|) && (vs == [] || commands == [])
    ensures NonEmpty(Blocks(commands, vs)) == []
    decreases |commands|
  {
    if commands != [] {
      TiledFront(commands, 0);
      var front := commands[..|commands| - 1];
      assert vs[..Last(commands).firstVertex] == [] && vs[Last(commands).firstVertex..] == [];
      NothingToReplay(front, []);
      NonEmptySnoc(Blocks(front, []), Batch(Last(commands).primitive, []));
    }
  }
}
