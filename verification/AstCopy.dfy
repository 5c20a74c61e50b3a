/** copyAST (src/ast/ast.c:2041-2196): a memoised copy of a shared, possibly cyclic graph. */
module AstCopy {
  import opened AstGraph
  import opened AstVisit

  type Memo = map<Node, Node>

  ghost predicate Mapped(m: Memo, n: Node?, c: Node?)
  {
    if n == null then c == null else n in m && c == m[n]
  }

  /** `c` is the copy of `s`: each followed edge goes to the copy of its target, a type
      reference keeps its right edge, the unit list is shared, `isExported` is not copied, and
      a type definition is either translated or, when not yet copied, left pointing at the original. */
  ghost predicate CopyOf(m: Memo, n: Node, s: Shape, c: Shape)
  {
    && c.info == s.info.(isExported := false) && !c.freed
    && Mapped(m, s.left, c.left)
    && Mapped(m, s.extra, c.extra)
    && (if s.info.kind == TypeReference then c.right == s.right else Mapped(m, s.right, c.right))
    && |c.children| == |s.children|
    && (forall i :: 0 <= i < |s.children| ==> Mapped(m, s.children[i], c.children[i]))
    && TypeDefCopied(m, n, s, c.right, c.typeDef)
  }

  /** How the type definition `td` of the copy of `n` comes from that of `s`, `right` being its copied right edge; which
      of the last two it is depends on the order of the copy (TypeDefsResolved). */
  ghost predicate TypeDefCopied(m: Memo, n: Node, s: Shape, right: Node?, td: Node?)
  {
    if s.typeDef == null then td == null
    else if s.typeDef == s.right then td == right
    else if s.typeDef == n || s.typeDef == s.left || s.typeDef == s.extra then Mapped(m, s.typeDef, td)
    else td == s.typeDef || Mapped(m, s.typeDef, td)
  }

  ghost predicate Extends(m: Memo, m': Memo)
  {
    forall n :: n in m ==> n in m' && m'[n] == m[n]
  }

  ghost predicate Injective(m: Memo)
  {
    forall n, n' :: n in m && n' in m && m[n] == m[n'] ==> n == n'
  }

  /** The pairs list the memo, each original once. */
  ghost predicate Records(pairs: seq<(Node, Node)>, m: Memo)
  {
    && (forall i :: 0 <= i < |pairs| ==> pairs[i].0 in m && m[pairs[i].0] == pairs[i].1)
    && (forall n :: n in m ==> exists i :: 0 <= i < |pairs| && pairs[i].0 == n)
    && (forall i, j :: 0 <= i < j < |pairs| ==> pairs[i].0 != pairs[j].0)
  }

  lemma PairRecorded(pairs: seq<(Node, Node)>, m: Memo, n: Node, c: Node)
    requires Records(pairs, m) && n !in m
    ensures Records(pairs + [(n, c)], m[n := c])
  {
    var ps := pairs + [(n, c)];
    assert ps[|pairs|].0 == n && forall i :: 0 <= i < |pairs| ==> ps[i] == pairs[i];
    forall k | k in m
      ensures exists i :: 0 <= i < |ps| && ps[i].0 == k
    {
      var i :| 0 <= i < |pairs| && pairs[i].0 == k;
      assert ps[i].0 == k;
    }
  }

  /** The pair array of one copy, searched from the front. */
  class CopyContext {
    var pairs: seq<(Node, Node)>
    ghost var memo: Memo
    ghost var copies: set<Node>
    /** The parent links made so far, said by the originals. */
    ghost var links: seq<Link>

    constructor ()
      ensures Valid() && memo == map[] && copies == {} && Order() == [] && links == []
    {
      pairs, memo, copies, links := [], map[], {}, [];
    }

    ghost predicate Valid()
      reads this
    {
      Records(pairs, memo) && copies == memo.Values
    }

    /** The originals in the order in which their copies were started. */
    ghost function Order(): (order: seq<Node>)
      reads this
      ensures |order| == |pairs|
      ensures forall i :: 0 <= i < |pairs| ==> order[i] == pairs[i].0
    {
      seq(|pairs|, i requires 0 <= i < |pairs| reads this => pairs[i].0)
    }

    lemma OrderIsMemo()
      requires Valid()
      ensures OrderOf(Order(), memo)
    {
      forall n | n in memo
        ensures n in Order()
      {
        var i :| 0 <= i < |pairs| && pairs[i].0 == n;
        assert Order()[i] == n;
      }
    }

    method Lookup(original: Node?) returns (copy: Node?)
      requires Valid()
      ensures copy == if original != null && original in memo then memo[original] else null
    {
      if original == null {
        return null;
      }
      for i := 0 to |pairs|
        invariant forall j :: 0 <= j < i ==> pairs[j].0 != original
      {
        if pairs[i].0 == original {
          return pairs[i].1;
        }
      }
      return null;
    }

    method Register(original: Node, copy: Node)
      requires Valid() && original !in memo
      modifies this
      ensures Valid() && memo == old(memo)[original := copy] && copies == old(copies) + {copy}
      ensures Order() == old(Order()) + [original] && links == old(links)
    {
      hide Records;
      PairRecorded(pairs, memo, original, copy);
      pairs := pairs + [(original, copy)];
      ValuesOfExtension(memo, original, copy);
      memo, copies := memo[original := copy], copies + {copy};
    }

    ghost method AddLinks(more: seq<Link>)
      requires Valid()
      modifies `links
      ensures Valid() && links == old(links) + more && Order() == old(Order())
    {
      links := links + more;
    }
  }

  ghost function LastParent(links: seq<Link>, n: Node): Node?
  {
    if links == [] then null
    else if links[|links| - 1].child == n then links[|links| - 1].parent
    else LastParent(links[..|links| - 1], n)
  }

  /** Every copy has the parent that was linked last, or none yet. */
  ghost predicate Kin(m: Memo, ps: Parents, links: seq<Link>)
  {
    && (forall k :: 0 <= k < |links| ==> links[k].parent in m && links[k].child in m)
    && forall n :: n in m ==> m[n] in ps && Mapped(m, LastParent(links, n), ps[m[n]])
  }

  lemma LastParentSnoc(links: seq<Link>, l: Link, n: Node)
    ensures LastParent(links + [l], n) == if l.child == n then l.parent else LastParent(links, n)
  {
    assert (links + [l])[..|links|] == links;
  }

  lemma {:induction false} LastParentLinked(links: seq<Link>, n: Node)
    ensures LastParent(links, n) == null || exists k :: 0 <= k < |links| && links[k].child == n
  {
    if links != [] && links[|links| - 1].child != n {
      LastParentLinked(links[..|links| - 1], n);
    }
  }

  lemma KinStarts(m: Memo, ps: Parents, links: seq<Link>, n: Node, c: Node)
    requires Kin(m, ps, links) && n !in m && c !in m.Values
    ensures Kin(m[n := c], ps[c := null], links)
  {
    LastParentLinked(links, n);
    forall k | k in m
      ensures Mapped(m[n := c], LastParent(links, k), ps[c := null][m[k]])
    {
      assert m[k] in m.Values && Mapped(m, LastParent(links, k), ps[m[k]]);
    }
  }

  /** One more link. */
  lemma KinLinked(m: Memo, ps: Parents, links: seq<Link>, busy: Node, t: Node?, c: Node?)
    requires Kin(m, ps, links) && Injective(m) && busy in m && Mapped(m, t, c)
    ensures Kin(m, Adopt(ps, {c}, m[busy]), links + OneLink(busy, t))
  {
    if t == null {
      assert Adopt(ps, {c}, m[busy]) == ps && links + [] == links;
    } else {
      forall n | n in m
        ensures Mapped(m, LastParent(links + [Link(busy, t)], n), Adopt(ps, {c}, m[busy])[m[n]])
      {
        LastParentSnoc(links, Link(busy, t), n);
      }
    }
  }

  lemma AdoptThree(ps: Parents, info: Info, left: Node?, right: Node?, extra: Node?, p: Node)
    ensures var r := if info.kind == TypeReference then null else right;
      Adopt(Adopt(Adopt(ps, {left}, p), {r}, p), {extra}, p) ==
      Adopt(ps, {left} + RightTarget(info, right) + {extra}, p)
  {
  }

  lemma RightMapped(m: Memo, s: Shape, right: Node?)
    requires if s.info.kind == TypeReference then right == s.right else Mapped(m, s.right, right)
    ensures Mapped(m, RightOf(s), if s.info.kind == TypeReference then null else right)
  {
  }

  lemma OwnLinksAre(n: Node, s: Shape, links: seq<Link>)
    ensures links + OneLink(n, s.left) + OneLink(n, RightOf(s)) + OneLink(n, s.extra) == links + OwnLinks(n, s)
  {
    hide OneLink;
  }

  /** The links of the three single edges. */
  lemma KinSingles(m: Memo, ps: Parents, links: seq<Link>, busy: Node, s: Shape,
                   left: Node?, right: Node?, extra: Node?)
    requires Kin(m, ps, links) && Injective(m) && busy in m
    requires Mapped(m, s.left, left) && Mapped(m, s.extra, extra)
    requires if s.info.kind == TypeReference then right == s.right else Mapped(m, s.right, right)
    ensures Kin(m, Adopt(ps, {left} + RightTarget(s.info, right) + {extra}, m[busy]), links + OwnLinks(busy, s))
  {
    var r := if s.info.kind == TypeReference then null else right;
    RightMapped(m, s, right);
    hide *;
    var p := m[busy];
    KinLinked(m, ps, links, busy, s.left, left);
    KinLinked(m, Adopt(ps, {left}, p), links + OneLink(busy, s.left), busy, RightOf(s), r);
    KinLinked(m, Adopt(Adopt(ps, {left}, p), {r}, p), links + OneLink(busy, s.left) + OneLink(busy, RightOf(s)),
              busy, s.extra, extra);
    AdoptThree(ps, s.info, left, right, extra, p);
    OwnLinksAre(busy, s, links);
  }

  /** `order` lists what the memo knows, each once. */
  ghost predicate OrderOf(order: seq<Node>, m: Memo)
  {
    && (forall n :: n in m ==> n in order) && (forall n :: n in order ==> n in m)
    && forall i, j :: 0 <= i < j < |order| ==> order[i] != order[j]
  }

  /** The type definition of a copy: the copied right edge where it is that of the original, else translated exactly if
      its copy is among those `known`. */
  ghost predicate TypeDefIs(m: Memo, s: Shape, right: Node?, known: seq<Node>, td: Node?)
  {
    if s.typeDef == null then td == null
    else if s.typeDef == s.right then td == right
    else if s.typeDef in known then Mapped(m, s.typeDef, td)
    else td == s.typeDef
  }

  /** The copies started when the type definition of the i-th copy is resolved: its single edges have been followed. */
  ghost function KnownAt(g: Graph, order: seq<Node>, i: nat): seq<Node>
    requires Closed(g) && InGraph(g, order) && i < |order|
  {
    ClosedEdges(g, order[i]);
    VisitSingles(g, g[order[i]], order[..i + 1])
  }

  ghost predicate ResolvedAt(g: Graph, order: seq<Node>, i: nat, m: Memo, sh: Graph)
    requires i < |order|
  {
    && Closed(g) && InGraph(g, order) && order[i] in m && m[order[i]] in sh
    && var c := sh[m[order[i]]]; TypeDefIs(m, g[order[i]], c.right, KnownAt(g, order, i), c.typeDef)
  }

  ghost predicate ResolvedFrom(g: Graph, order: seq<Node>, from: nat, m: Memo, sh: Graph)
  {
    forall i :: from <= i < |order| ==> ResolvedAt(g, order, i, m, sh)
  }

  /** While the copy of `busy`, the one started at `at`, is under way: those started later are resolved. */
  ghost predicate Tracked(g: Graph, order: seq<Node>, busy: Node, at: nat, m: Memo, sh: Graph)
  {
    at < |order| && order[at] == busy && InGraph(g, order) && OrderOf(order, m) && ResolvedFrom(g, order, at + 1, m, sh)
  }

  lemma ResolvedLater(g: Graph, o: seq<Node>, o': seq<Node>, i: nat, m: Memo, sh: Graph, m': Memo, sh': Graph)
    requires i < |o| && o <= o' && InGraph(g, o') && Extends(m, m') && ResolvedAt(g, o, i, m, sh)
    requires m[o[i]] in sh' && sh'[m[o[i]]].typeDef == sh[m[o[i]]].typeDef && sh'[m[o[i]]].right == sh[m[o[i]]].right
    ensures ResolvedAt(g, o', i, m', sh')
  {
    assert o'[..i + 1] == o[..i + 1];
    hide VisitSingles;
  }

  lemma ResolvedFromLater(g: Graph, o: seq<Node>, o': seq<Node>, from: nat, busy: Node?, m: Memo, sh: Graph,
                          m': Memo, sh': Graph)
    requires o <= o' && InGraph(g, o') && Extends(m, m') && ShapesKept(busy, m, sh, sh')
    requires ResolvedFrom(g, o, from, m, sh) && forall i :: from <= i < |o| ==> o[i] != busy
    requires ResolvedFrom(g, o', |o|, m', sh')
    ensures ResolvedFrom(g, o', from, m', sh')
  {
    hide ResolvedAt, InGraph, Extends;
    forall i | from <= i < |o'|
      ensures ResolvedAt(g, o', i, m', sh')
    {
      if i < |o| {
        ResolvedKept(g, o, i, busy, m, sh, sh');
        ResolvedLater(g, o, o', i, m, sh, m', sh');
      }
    }
  }

  lemma ResolvedKept(g: Graph, o: seq<Node>, i: nat, busy: Node?, m: Memo, sh: Graph, sh': Graph)
    requires i < |o| && ResolvedAt(g, o, i, m, sh) && o[i] != busy && ShapesKept(busy, m, sh, sh')
    ensures o[i] in m && m[o[i]] in sh && m[o[i]] in sh' && sh'[m[o[i]]] == sh[m[o[i]]]
  {
    hide TypeDefIs;
  }

  /** A recursive call made while the copy of `busy` is under way. */
  lemma TrackTarget(g: Graph, busy: Node, at: nat, o: seq<Node>, m: Memo, sh: Graph,
                    o': seq<Node>, m': Memo, sh': Graph)
    requires Tracked(g, o, busy, at, m, sh) && o <= o' && InGraph(g, o') && OrderOf(o', m')
    requires Extends(m, m') && ShapesKept(null, m, sh, sh') && ResolvedFrom(g, o', |o|, m', sh')
    ensures Tracked(g, o', busy, at, m', sh')
  {
    hide ResolvedFrom, ShapesKept, Extends;
    ResolvedFromLater(g, o, o', at + 1, null, m, sh, m', sh');
  }

  /** Storing something in the copy of `busy` itself. */
  lemma TrackStored(g: Graph, busy: Node, at: nat, o: seq<Node>, m: Memo, sh: Graph, sh': Graph)
    requires Tracked(g, o, busy, at, m, sh) && ShapesKept(busy, m, sh, sh')
    ensures Tracked(g, o, busy, at, m, sh')
  {
    assert Extends(m, m) && ResolvedFrom(g, o, |o|, m, sh');
    hide ResolvedFrom, ShapesKept, Extends;
    ResolvedFromLater(g, o, o, at + 1, busy, m, sh, m, sh');
  }

  lemma TrackStarts(g: Graph, o: seq<Node>, n: Node, m: Memo, sh: Graph)
    requires InGraph(g, o + [n]) && OrderOf(o + [n], m)
    ensures InGraph(g, o) && Tracked(g, o + [n], n, |o|, m, sh)
  {
    assert forall k :: k in o ==> k in o + [n];
    hide ResolvedAt;
  }

  /** The copy of `busy` is complete: all started from it on are resolved. */
  lemma TrackEnds(g: Graph, busy: Node, o: seq<Node>, o2: seq<Node>, o': seq<Node>, m2: Memo, c2: Shape,
                  m': Memo, sh': Graph)
    requires Closed(g) && InGraph(g, o) && busy in g && busy !in o && Tracked(g, o', busy, |o|, m', sh')
    requires SinglesVisited(g, g[busy], o + [busy], o2) && o2 <= o' && Extends(m2, m')
    requires TypeDefIs(m2, g[busy], c2.right, o2, c2.typeDef)
    requires busy in m' && m'[busy] in sh' && EqualButChildren(c2, sh'[m'[busy]])
    ensures ResolvedFrom(g, o', |o|, m', sh')
  {
    assert o + [busy] <= o2;
    assert o'[..|o| + 1] == o + [busy];
    hide VisitSingles;
    assert KnownAt(g, o', |o|) == o2;
    assert ResolvedAt(g, o', |o|, m', sh');
    hide ResolvedAt, KnownAt;
  }

  lemma FilledCopy(g: Graph, n: Node, o: seq<Node>, o2: seq<Node>, o': seq<Node>, m2: Memo, c2: Shape,
                   m': Memo, sh': Graph)
    requires Closed(g) && InGraph(g, o) && n in g && n !in o && Tracked(g, o', n, |o|, m', sh')
    requires SinglesVisited(g, g[n], o + [n], o2) && AllVisited(g, g[n].children, o2, o') && Extends(m2, m')
    requires TypeDefIs(m2, g[n], c2.right, o2, c2.typeDef)
    requires n in m' && m'[n] in sh' && EqualButChildren(c2, sh'[m'[n]])
    ensures Visited(g, n, o, o') && ResolvedFrom(g, o', |o|, m', sh')
  {
    NodeVisited(g, n, o, o2, o');
    assert o2 <= o' by { hide VisitAll; }
    hide *;
    TrackEnds(g, n, o, o2, o', m2, c2, m', sh');
  }

  lemma NothingResolved(g: Graph, order: seq<Node>, m: Memo, sh: Graph)
    ensures ResolvedFrom(g, order, |order|, m, sh)
  {
  }

  lemma NotInOrder(order: seq<Node>, m: Memo, n: Node)
    requires OrderOf(order, m) && n !in m
    ensures n !in order
  {
  }

  lemma OrderInGraph(g: Graph, order: seq<Node>, m: Memo)
    requires OrderOf(order, m) && m.Keys <= g.Keys
    ensures InGraph(g, order) && forall n :: n in m <==> n in order
  {
  }

  lemma TrackedFacts(g: Graph, order: seq<Node>, busy: Node, at: nat, m: Memo, sh: Graph)
    requires Tracked(g, order, busy, at, m, sh)
    ensures InGraph(g, order) && OrderOf(order, m) && at < |order|
  {
  }

  type Parents = map<Node, Node?>

  ghost function Shapes(nodes: set<Node>): (sh: Graph)
    reads nodes
    ensures sh.Keys == nodes
  {
    map n | n in nodes :: n.Snapshot()
  }

  ghost function ParentsOf(nodes: set<Node>): (ps: Parents)
    reads nodes
    ensures ps.Keys == nodes
  {
    map n | n in nodes :: n.parent
  }

  /** The parent pointer of a copy, once set, is the copy of a node with an edge to it. */
  ghost predicate ParentFromEdge(g: Graph, m: Memo, ps: Parents, n: Node)
  {
    && n in m && m[n] in ps
    && (ps[m[n]] == null || exists p :: p in m && p in g && Follows(g[p], n) && ps[m[n]] == m[p])
  }

  /** What holds at every point of a copy. */
  ghost predicate InProgress(g: Graph, m: Memo, sh: Graph, ps: Parents)
  {
    && Closed(g) && m.Keys <= g.Keys && m.Values !! g.Keys
    && sh.Keys == m.Values && ps.Keys == m.Values
    && Injective(m)
    && forall n :: n in m ==> ParentFromEdge(g, m, ps, n)
  }

  /** Everything a node of shape `s` leads to has been copied and given a parent. */
  ghost predicate Parented(m: Memo, ps: Parents, s: Shape)
  {
    forall t :: Follows(s, t) ==> t in m && m[t] in ps && ps[m[t]] != null
  }

  ghost predicate Finished(g: Graph, m: Memo, sh: Graph, ps: Parents, n: Node)
  {
    n in g && n in m && m[n] in sh && CopyOf(m, n, g[n], sh[m[n]]) && Parented(m, ps, g[n])
  }

  ghost predicate ShapesKept(busy: Node?, m: Memo, sh: Graph, sh': Graph)
  {
    forall n :: n in m && n != busy ==> m[n] in sh && m[n] in sh' && sh'[m[n]] == sh[m[n]]
  }

  ghost predicate ParentsKept(m: Memo, ps: Parents, ps': Parents)
  {
    forall n :: n in m ==> m[n] in ps && m[n] in ps' && (ps[m[n]] != null ==> ps'[m[n]] != null)
  }

  /** The memo has only grown by finished copies, and the copies it already had, except the
      one of `busy`, have changed at most by being given a parent. */
  ghost predicate Grown(g: Graph, busy: Node?, m: Memo, sh: Graph, ps: Parents, m': Memo, sh': Graph, ps': Parents)
  {
    && InProgress(g, m', sh', ps')
    && Extends(m, m')
    && (forall n :: n in m' && n !in m ==> Finished(g, m', sh', ps', n))
    && ShapesKept(busy, m, sh, sh')
    && ParentsKept(m, ps, ps')
  }

  lemma CopyOfLater(m: Memo, m': Memo, n: Node, s: Shape, c: Shape)
    requires Extends(m, m') && CopyOf(m, n, s, c)
    ensures CopyOf(m', n, s, c)
  {
    forall i | 0 <= i < |s.children|
      ensures Mapped(m', s.children[i], c.children[i])
    {
      assert Mapped(m, s.children[i], c.children[i]);
    }
  }

  lemma GrownTransitive(g: Graph, busy: Node?, m1: Memo, sh1: Graph, ps1: Parents, m2: Memo, sh2: Graph, ps2: Parents,
                        m3: Memo, sh3: Graph, ps3: Parents)
    requires busy == null || busy in m1
    requires Grown(g, busy, m1, sh1, ps1, m2, sh2, ps2) && Grown(g, busy, m2, sh2, ps2, m3, sh3, ps3)
    ensures Grown(g, busy, m1, sh1, ps1, m3, sh3, ps3)
  {
    hide CopyOf, InProgress;
    forall n | n in m3 && n !in m1
      ensures Finished(g, m3, sh3, ps3, n)
    {
      if n in m2 {
        assert Finished(g, m2, sh2, ps2, n);
        CopyOfLater(m2, m3, n, g[n], sh2[m2[n]]);
      }
    }
  }

  lemma ValuesOfExtension(m: Memo, n: Node, c: Node)
    requires n !in m
    ensures m[n := c].Values == m.Values + {c}
  {
    var m' := m[n := c];
    assert n in m' && m'[n] == c;
    forall v | v in m.Values
      ensures v in m'.Values
    {
      var k: Node :| k in m && m[k] == v;
      assert k in m' && m'[k] == v;
    }
  }

  /** Registering the fresh node `c` as the copy of `n` keeps the copy in progress. */
  lemma Registered(g: Graph, m: Memo, sh: Graph, ps: Parents, n: Node, c: Node, s: Shape)
    requires InProgress(g, m, sh, ps) && n in g && n !in m && c !in sh && c !in g
    ensures InProgress(g, m[n := c], sh[c := s], ps[c := null])
  {
    ValuesOfExtension(m, n, c);
    var m' := m[n := c];
    forall k | k in m'
      ensures ParentFromEdge(g, m', ps[c := null], k)
    {
      if k in m {
        assert ParentFromEdge(g, m, ps, k);
      }
    }
  }

  lemma CopyStarted(g: Graph, m: Memo, sh: Graph, ps: Parents, n: Node, c: Node, s: Shape)
    requires InProgress(g, m, sh, ps) && n in g && n !in m && c !in sh && c !in g
    ensures InProgress(g, m[n := c], sh[c := s], ps[c := null])
    ensures Extends(m, m[n := c]) && ShapesKept(null, m, sh, sh[c := s]) && ParentsKept(m, ps, ps[c := null])
    ensures g.Keys - m[n := c].Keys < g.Keys - m.Keys
  {
    Registered(g, m, sh, ps, n, c, s);
    assert n in g.Keys - m.Keys && n !in g.Keys - m[n := c].Keys;
  }

  ghost function Adopt(ps: Parents, kids: set<Node?>, parent: Node): (ps': Parents)
    ensures ps'.Keys == ps.Keys
  {
    map d | d in ps :: if d in kids then parent else ps[d]
  }

  /** Changing the copy of `busy` and making it the parent of copies of nodes `busy` leads to. */
  lemma Linked(g: Graph, busy: Node, m: Memo, sh: Graph, ps: Parents, s: Shape, kids: set<Node?>)
    requires InProgress(g, m, sh, ps) && busy in m
    requires forall n :: n in m && m[n] in kids ==> Follows(g[busy], n)
    ensures Grown(g, busy, m, sh, ps, m, sh[m[busy] := s], Adopt(ps, kids, m[busy]))
  {
    hide Follows;
    var ps' := Adopt(ps, kids, m[busy]);
    forall k | k in m
      ensures ParentFromEdge(g, m, ps', k)
    {
      assert ParentFromEdge(g, m, ps, k);
    }
  }

  /** A finished copy of `n`, whose start is recorded in m1, grows the memo of its caller. */
  lemma CopyCompletes(g: Graph, n: Node, m: Memo, sh: Graph, ps: Parents, m1: Memo, sh1: Graph, ps1: Parents,
                      m': Memo, sh': Graph, ps': Parents)
    requires Extends(m, m1) && (forall k :: k in m1 ==> k in m || k == n) && n !in m
    requires ShapesKept(null, m, sh, sh1) && ParentsKept(m, ps, ps1)
    requires Grown(g, n, m1, sh1, ps1, m', sh', ps') && Finished(g, m', sh', ps', n)
    ensures Grown(g, null, m, sh, ps, m', sh', ps')
  {
    hide InProgress, Finished;
  }

  lemma AdoptTwice(ps: Parents, a: set<Node?>, b: set<Node?>, p: Node)
    ensures Adopt(Adopt(ps, a, p), b, p) == Adopt(ps, a + b, p)
  {
  }

  lemma SetTwice(sh: Graph, c: Node, s: Shape, s': Shape)
    ensures sh[c := s][c := s'] == sh[c := s']
  {
  }

  method Attach(child: Node?, parent: Node, ghost nodes: set<Node>)
    requires child != null ==> child in nodes
    modifies nodes`parent
    ensures ParentsOf(nodes) == Adopt(old(ParentsOf(nodes)), {child}, parent)
    ensures Shapes(nodes) == old(Shapes(nodes))
  {
    if child != null {
      child.parent := parent;
    }
  }

  /** A type reference does not become the parent of what its right edge leads to. */
  ghost function RightTarget(info: Info, right: Node?): set<Node?>
  {
    if info.kind == TypeReference then {} else {right}
  }

  method LinkLeft(copy: Node, child: Node?, ghost nodes: set<Node>)
    requires copy in nodes && (child != null ==> child in nodes)
    modifies nodes
    ensures Shapes(nodes) == old(Shapes(nodes))[copy := old(Shapes(nodes))[copy].(left := child)]
    ensures ParentsOf(nodes) == Adopt(old(ParentsOf(nodes)), {child}, copy)
  {
    ghost var sh, ps := Shapes(nodes), ParentsOf(nodes);
    copy.left := child;
    assert Shapes(nodes) == sh[copy := sh[copy].(left := child)] && ParentsOf(nodes) == ps;
    Attach(copy.left, copy, nodes);
  }

  method LinkRight(info: Info, copy: Node, right: Node?, ghost nodes: set<Node>)
    requires copy in nodes && (info.kind != TypeReference && right != null ==> right in nodes)
    modifies nodes
    ensures Shapes(nodes) == old(Shapes(nodes))[copy := old(Shapes(nodes))[copy].(right := right)]
    ensures ParentsOf(nodes) == Adopt(old(ParentsOf(nodes)), RightTarget(info, right), copy)
  {
    ghost var sh, ps := Shapes(nodes), ParentsOf(nodes);
    copy.right := right;
    assert Shapes(nodes) == sh[copy := sh[copy].(right := right)] && ParentsOf(nodes) == ps;
    if info.kind != TypeReference {
      Attach(copy.right, copy, nodes);
    }
  }

  method LinkExtra(copy: Node, child: Node?, ghost nodes: set<Node>)
    requires copy in nodes && (child != null ==> child in nodes)
    modifies nodes
    ensures Shapes(nodes) == old(Shapes(nodes))[copy := old(Shapes(nodes))[copy].(extra := child)]
    ensures ParentsOf(nodes) == Adopt(old(ParentsOf(nodes)), {child}, copy)
  {
    ghost var sh, ps := Shapes(nodes), ParentsOf(nodes);
    copy.extra := child;
    assert Shapes(nodes) == sh[copy := sh[copy].(extra := child)] && ParentsOf(nodes) == ps;
    Attach(copy.extra, copy, nodes);
  }

  method LinkSingleEdges(info: Info, copy: Node, left: Node?, right: Node?, extra: Node?, ghost nodes: set<Node>)
    requires copy in nodes
    requires (left != null ==> left in nodes) && (extra != null ==> extra in nodes)
    requires info.kind != TypeReference && right != null ==> right in nodes
    modifies nodes
    ensures Shapes(nodes) ==
      old(Shapes(nodes))[copy := old(Shapes(nodes))[copy].(left := left, right := right, extra := extra)]
    ensures ParentsOf(nodes) ==
      Adopt(old(ParentsOf(nodes)), {left} + RightTarget(info, right) + {extra}, copy)
  {
    hide *;
    ghost var sh, ps := Shapes(nodes), ParentsOf(nodes);
    LinkLeft(copy, left, nodes);
    LinkRight(info, copy, right, nodes);
    SetTwice(sh, copy, sh[copy].(left := left), sh[copy].(left := left, right := right));
    AdoptTwice(ps, {left}, RightTarget(info, right), copy);
    LinkExtra(copy, extra, nodes);
    SetTwice(sh, copy, sh[copy].(left := left, right := right),
             sh[copy].(left := left, right := right, extra := extra));
    AdoptTwice(ps, {left} + RightTarget(info, right), {extra}, copy);
  }

  method LinkChild(copy: Node, i: nat, child: Node?, ghost nodes: set<Node>)
    requires copy in nodes && i < |copy.children| && (child != null ==> child in nodes)
    modifies nodes
    ensures Shapes(nodes) == old(Shapes(nodes))[copy :=
      old(Shapes(nodes))[copy].(children := old(Shapes(nodes))[copy].children[i := child])]
    ensures ParentsOf(nodes) == Adopt(old(ParentsOf(nodes)), {child}, copy)
  {
    ghost var sh, ps := Shapes(nodes), ParentsOf(nodes);
    copy.children := copy.children[i := child];
    assert Shapes(nodes) == sh[copy := sh[copy].(children := sh[copy].children[i := child])] && ParentsOf(nodes) == ps;
    Attach(copy.children[i], copy, nodes);
  }

  ghost predicate HasParent(m: Memo, ps: Parents, t: Node?)
  {
    t == null || (t in m && m[t] in ps && ps[m[t]] != null)
  }

  /** The three single edges of `c` are those of `s`, translated. */
  ghost predicate SinglesCopied(m: Memo, ps: Parents, s: Shape, c: Shape)
  {
    && Mapped(m, s.left, c.left) && HasParent(m, ps, s.left)
    && Mapped(m, s.extra, c.extra) && HasParent(m, ps, s.extra)
    && if s.info.kind == TypeReference then c.right == s.right
       else Mapped(m, s.right, c.right) && HasParent(m, ps, s.right)
  }

  /** The first `n` children of `c` are those of `s`, translated. */
  ghost predicate ChildrenCopied(m: Memo, ps: Parents, s: Shape, c: Shape, n: nat)
  {
    && n <= |c.children| == |s.children|
    && forall i :: 0 <= i < n ==> Mapped(m, s.children[i], c.children[i]) && HasParent(m, ps, s.children[i])
  }

  lemma CopiedLater(m: Memo, ps: Parents, m': Memo, ps': Parents, s: Shape, c: Shape, n: nat)
    requires Extends(m, m') && ParentsKept(m, ps, ps')
    ensures SinglesCopied(m, ps, s, c) ==> SinglesCopied(m', ps', s, c)
    ensures ChildrenCopied(m, ps, s, c, n) ==> ChildrenCopied(m', ps', s, c, n)
    ensures forall t: Node :: t in m && m[t] in ps && HasParent(m, ps, t) ==> HasParent(m', ps', t)
  {
    if ChildrenCopied(m, ps, s, c, n) {
      forall i | 0 <= i < n
        ensures Mapped(m', s.children[i], c.children[i]) && HasParent(m', ps', s.children[i])
      {
        assert Mapped(m, s.children[i], c.children[i]) && HasParent(m, ps, s.children[i]);
      }
    }
  }

  /** A copy started while the one of `busy` is under way. */
  lemma GrownWhileBusy(g: Graph, busy: Node, m1: Memo, sh1: Graph, ps1: Parents, m2: Memo, sh2: Graph, ps2: Parents,
                       m3: Memo, sh3: Graph, ps3: Parents)
    requires busy in m1
    requires Grown(g, busy, m1, sh1, ps1, m2, sh2, ps2) && Grown(g, null, m2, sh2, ps2, m3, sh3, ps3)
    ensures Grown(g, busy, m1, sh1, ps1, m3, sh3, ps3)
    ensures m3[busy] == m2[busy] == m1[busy] && m1[busy] in sh2 && m1[busy] in sh3
    ensures sh3[m1[busy]] == sh2[m1[busy]]
  {
    GrownTransitive(g, busy, m1, sh1, ps1, m2, sh2, ps2, m3, sh3, ps3);
  }

  lemma GrownReflexive(g: Graph, busy: Node?, m: Memo, sh: Graph, ps: Parents)
    requires InProgress(g, m, sh, ps)
    ensures Grown(g, busy, m, sh, ps, m, sh, ps)
  {
  }

  /** Linking the copy of `busy` at once to the copies of several of its targets. */
  lemma LinkedTo(g: Graph, busy: Node, m: Memo, sh: Graph, ps: Parents, s: Shape, ts: set<Node?>, kids: set<Node?>)
    requires InProgress(g, m, sh, ps) && busy in m
    requires forall t: Node? :: t in ts && t != null ==> Follows(g[busy], t) && t in m
    requires forall c: Node? :: c in kids ==> exists t: Node? :: t in ts && Mapped(m, t, c)
    ensures Grown(g, busy, m, sh, ps, m, sh[m[busy] := s], Adopt(ps, kids, m[busy]))
    ensures forall t: Node? :: t in ts && (t == null || m[t] in kids) ==> HasParent(m, Adopt(ps, kids, m[busy]), t)
  {
    forall n | n in m && m[n] in kids
      ensures Follows(g[busy], n)
    {
      var t: Node? :| t in ts && Mapped(m, t, m[n]);
      assert t == n;
    }
    Linked(g, busy, m, sh, ps, s, kids);
  }

  lemma InProgressFacts(g: Graph, m: Memo, sh: Graph, ps: Parents)
    requires InProgress(g, m, sh, ps)
    ensures Closed(g) && m.Keys <= g.Keys && sh.Keys !! g.Keys && ps.Keys == sh.Keys && Injective(m)
    ensures forall n: Node?, c: Node? :: Mapped(m, n, c) ==> c == null || c in sh
    ensures forall n :: n in g && g[n].left != null ==> g[n].left in g
    ensures forall n :: n in g && g[n].extra != null ==> g[n].extra in g
    ensures forall n :: n in g && g[n].info.kind != TypeReference && g[n].right != null ==> g[n].right in g
    ensures forall n, i :: n in g && 0 <= i < |g[n].children| && g[n].children[i] != null ==> g[n].children[i] in g
    ensures forall n :: n in m ==> m[n] in sh
  {
    forall n, t | n in g && Follows(g[n], t)
      ensures t in g
    {
    }
    assert forall n :: n in g && g[n].left != null ==> Follows(g[n], g[n].left);
    assert forall n :: n in g && g[n].extra != null ==> Follows(g[n], g[n].extra);
  }

  lemma GrownFacts(g: Graph, busy: Node?, m: Memo, sh: Graph, ps: Parents, m': Memo, sh': Graph, ps': Parents)
    requires Grown(g, busy, m, sh, ps, m', sh', ps')
    ensures InProgress(g, m', sh', ps') && Extends(m, m') && ParentsKept(m, ps, ps') && m.Keys <= m'.Keys
    ensures ShapesKept(busy, m, sh, sh')
  {
  }

  lemma MappedLater(m: Memo, m': Memo, t: Node?, c: Node?)
    requires Extends(m, m') && Mapped(m, t, c)
    ensures Mapped(m', t, c)
  {
  }

  lemma DepictsAt(g: Graph, n: Node)
    requires Depicts(g) && n in g
    ensures n.info == g[n].info && n.left == g[n].left && n.right == g[n].right && n.extra == g[n].extra
    ensures n.children == g[n].children && n.typeDef == g[n].typeDef
  {
  }

  /** A recursive call made while the copy of `busy`, started from m1, is under way. */
  method CopyTarget(t: Node?, ctx: CopyContext, ghost busy: Node, ghost at: nat, ghost g: Graph,
                    ghost m1: Memo, ghost sh1: Graph, ghost ps1: Parents) returns (c: Node?)
    requires ctx.Valid() && Depicts(g) && (t == null || t in g) && busy in m1
    requires Tracked(g, ctx.Order(), busy, at, ctx.memo, Shapes(ctx.copies))
    requires Grown(g, busy, m1, sh1, ps1, ctx.memo, Shapes(ctx.copies), ParentsOf(ctx.copies))
    requires Kin(ctx.memo, ParentsOf(ctx.copies), ctx.links)
    modifies ctx, ctx.copies
    ensures ctx.Valid() && Depicts(g) && Mapped(ctx.memo, t, c)
    ensures Grown(g, busy, m1, sh1, ps1, ctx.memo, Shapes(ctx.copies), ParentsOf(ctx.copies))
    ensures Extends(old(ctx.memo), ctx.memo)
    ensures ParentsKept(old(ctx.memo), old(ParentsOf(ctx.copies)), ParentsOf(ctx.copies))
    ensures busy in ctx.memo && ctx.memo[busy] == m1[busy]
    ensures m1[busy] in old(ctx.copies) && m1[busy] in ctx.copies
    ensures Shapes(ctx.copies)[m1[busy]] == old(Shapes(ctx.copies))[m1[busy]]
    ensures old(ctx.memo.Keys) <= ctx.memo.Keys
    ensures Tracked(g, ctx.Order(), busy, at, ctx.memo, Shapes(ctx.copies))
    ensures Visited(g, t, old(ctx.Order()), ctx.Order())
    ensures Kin(ctx.memo, ParentsOf(ctx.copies), ctx.links)
    ensures LinksMade(g, t, old(ctx.Order()), old(ctx.links), ctx.links)
    ensures forall d :: d in ctx.copies ==> d in old(ctx.copies) || fresh(d)
    decreases g.Keys - ctx.memo.Keys, 2
  {
    hide *;
    ghost var m2, sh2, ps2, o2 := ctx.memo, Shapes(ctx.copies), ParentsOf(ctx.copies), ctx.Order();
    GrownFacts(g, busy, m1, sh1, ps1, m2, sh2, ps2);
    c := CopyRecursive(t, ctx, g);
    GrownWhileBusy(g, busy, m1, sh1, ps1, m2, sh2, ps2, ctx.memo, Shapes(ctx.copies), ParentsOf(ctx.copies));
    GrownFacts(g, null, m2, sh2, ps2, ctx.memo, Shapes(ctx.copies), ParentsOf(ctx.copies));
    VisitExtends(g, t, o2, ctx.Order());
    ctx.OrderIsMemo();
    TrackTarget(g, busy, at, o2, m2, sh2, ctx.Order(), ctx.memo, Shapes(ctx.copies));
  }

  /** The first two of the three recursive calls made before anything is stored in the copy. */
  method CopyLeftAndExtra(node: Node, ctx: CopyContext, ghost at: nat, ghost g: Graph,
                          ghost m1: Memo, ghost sh1: Graph, ghost ps1: Parents)
    returns (left: Node?, extra: Node?, ghost between: seq<Node>, ghost linked: seq<Link>)
    requires ctx.Valid() && Depicts(g) && node in g && node in m1
    requires Tracked(g, ctx.Order(), node, at, ctx.memo, Shapes(ctx.copies))
    requires Grown(g, node, m1, sh1, ps1, ctx.memo, Shapes(ctx.copies), ParentsOf(ctx.copies))
    requires InProgress(g, ctx.memo, Shapes(ctx.copies), ParentsOf(ctx.copies))
    requires Kin(ctx.memo, ParentsOf(ctx.copies), ctx.links)
    modifies ctx, ctx.copies
    ensures ctx.Valid() && Depicts(g) && node in ctx.memo && ctx.memo[node] == m1[node]
    ensures Grown(g, node, m1, sh1, ps1, ctx.memo, Shapes(ctx.copies), ParentsOf(ctx.copies))
    ensures m1[node] in old(ctx.copies) && m1[node] in ctx.copies
    ensures Shapes(ctx.copies)[m1[node]] == old(Shapes(ctx.copies))[m1[node]]
    ensures Mapped(ctx.memo, g[node].left, left) && Mapped(ctx.memo, g[node].extra, extra)
    ensures old(ctx.memo.Keys) <= ctx.memo.Keys
    ensures Tracked(g, ctx.Order(), node, at, ctx.memo, Shapes(ctx.copies))
    ensures Visited(g, g[node].left, old(ctx.Order()), between) && Visited(g, g[node].extra, between, ctx.Order())
    ensures Kin(ctx.memo, ParentsOf(ctx.copies), ctx.links)
    ensures LinksMade(g, g[node].left, old(ctx.Order()), old(ctx.links), linked)
    ensures LinksMade(g, g[node].extra, between, linked, ctx.links)
    ensures forall d :: d in ctx.copies ==> d in old(ctx.copies) || fresh(d)
    decreases g.Keys - ctx.memo.Keys, 4
  {
    hide *;
    InProgressFacts(g, ctx.memo, Shapes(ctx.copies), ParentsOf(ctx.copies));
    DepictsAt(g, node);
    left := CopyTarget(node.left, ctx, node, at, g, m1, sh1, ps1);
    ghost var m2 := ctx.memo;
    between, linked := ctx.Order(), ctx.links;
    DepictsAt(g, node);
    extra := CopyTarget(node.extra, ctx, node, at, g, m1, sh1, ps1);
    MappedLater(m2, ctx.memo, g[node].left, left);
  }

  /** A type reference shares its right edge with the original. */
  method CopyRight(node: Node, ctx: CopyContext, ghost at: nat, ghost g: Graph,
                   ghost m1: Memo, ghost sh1: Graph, ghost ps1: Parents) returns (c: Node?)
    requires ctx.Valid() && Depicts(g) && node in g && node in m1
    requires Tracked(g, ctx.Order(), node, at, ctx.memo, Shapes(ctx.copies))
    requires Grown(g, node, m1, sh1, ps1, ctx.memo, Shapes(ctx.copies), ParentsOf(ctx.copies))
    requires Kin(ctx.memo, ParentsOf(ctx.copies), ctx.links)
    modifies ctx, ctx.copies
    ensures ctx.Valid() && Depicts(g)
    ensures if g[node].info.kind == TypeReference then c == g[node].right else Mapped(ctx.memo, g[node].right, c)
    ensures Grown(g, node, m1, sh1, ps1, ctx.memo, Shapes(ctx.copies), ParentsOf(ctx.copies))
    ensures Extends(old(ctx.memo), ctx.memo)
    ensures Tracked(g, ctx.Order(), node, at, ctx.memo, Shapes(ctx.copies))
    ensures Visited(g, RightOf(g[node]), old(ctx.Order()), ctx.Order())
    ensures Kin(ctx.memo, ParentsOf(ctx.copies), ctx.links)
    ensures LinksMade(g, RightOf(g[node]), old(ctx.Order()), old(ctx.links), ctx.links)
    ensures node in ctx.memo && ctx.memo[node] == m1[node]
    ensures m1[node] in old(ctx.copies) && m1[node] in ctx.copies
    ensures Shapes(ctx.copies)[m1[node]] == old(Shapes(ctx.copies))[m1[node]]
    ensures forall d :: d in ctx.copies ==> d in old(ctx.copies) || fresh(d)
    decreases g.Keys - ctx.memo.Keys, 3
  {
    hide Grown, InProgress, Shapes, ParentsOf, ctx.Valid, Depicts, ParentsKept, Mapped;
    hide Tracked, Visited, Closed, InGraph, Kin, LinksMade;
    DepictsAt(g, node);
    ghost var m2, sh2, ps2 := ctx.memo, Shapes(ctx.copies), ParentsOf(ctx.copies);
    GrownFacts(g, node, m1, sh1, ps1, m2, sh2, ps2);
    InProgressFacts(g, m2, sh2, ps2);
    if node.info.kind == TypeReference {
      c := node.right;
      TrackedFacts(g, ctx.Order(), node, at, m2, sh2);
      NothingToVisit(g, null, ctx.Order());
      NoLinksMade(g, null, ctx.Order(), ctx.links);
    } else {
      c := CopyTarget(node.right, ctx, node, at, g, m1, sh1, ps1);
    }
  }

  /** Storing the three copied edges, and the lemma about what that does. */
  lemma SinglesLinked(g: Graph, busy: Node, m: Memo, sh: Graph, ps: Parents, s: Shape,
                      left: Node?, right: Node?, extra: Node?)
    requires InProgress(g, m, sh, ps) && busy in m && busy in g && m[busy] in sh
    requires Mapped(m, g[busy].left, left) && Mapped(m, g[busy].extra, extra)
    requires if g[busy].info.kind == TypeReference then right == g[busy].right else Mapped(m, g[busy].right, right)
    requires s == sh[m[busy]].(left := left, right := right, extra := extra)
    ensures var ps' := Adopt(ps, {left} + RightTarget(g[busy].info, right) + {extra}, m[busy]);
      Grown(g, busy, m, sh, ps, m, sh[m[busy] := s], ps') && SinglesCopied(m, ps', g[busy], s)
  {
    hide *;
    var b := g[busy];
    var ts := {b.left} + RightTarget(b.info, b.right) + {b.extra};
    var kids := {left} + RightTarget(b.info, right) + {extra};
    SinglesTargets(m, b, left, right, extra);
    LinkedTo(g, busy, m, sh, ps, s, ts, kids);
    SinglesNowCopied(m, Adopt(ps, kids, m[busy]), b, s, kids);
  }

  /** The targets of the single edges that are followed are those of the edges stored. */
  lemma SinglesTargets(m: Memo, b: Shape, left: Node?, right: Node?, extra: Node?)
    requires Mapped(m, b.left, left) && Mapped(m, b.extra, extra)
    requires if b.info.kind == TypeReference then right == b.right else Mapped(m, b.right, right)
    ensures var ts := {b.left} + RightTarget(b.info, b.right) + {b.extra};
      (forall t: Node? :: t in ts && t != null ==> Follows(b, t) && t in m) &&
      forall c: Node? :: c in {left} + RightTarget(b.info, right) + {extra} ==>
        exists t: Node? :: t in ts && Mapped(m, t, c)
  {
    var ts := {b.left} + RightTarget(b.info, b.right) + {b.extra};
    forall c: Node? | c in {left} + RightTarget(b.info, right) + {extra}
      ensures exists t: Node? :: t in ts && Mapped(m, t, c)
    {
      assert c == left ==> b.left in ts && Mapped(m, b.left, c);
      assert c == extra ==> b.extra in ts && Mapped(m, b.extra, c);
      assert c != left && c != extra ==> b.right in ts && Mapped(m, b.right, c);
    }
  }

  lemma SinglesNowCopied(m: Memo, ps: Parents, b: Shape, s: Shape, kids: set<Node?>)
    requires Mapped(m, b.left, s.left) && Mapped(m, b.extra, s.extra)
    requires if b.info.kind == TypeReference then s.right == b.right else Mapped(m, b.right, s.right)
    requires kids == {s.left} + RightTarget(b.info, s.right) + {s.extra}
    requires forall t: Node? ::
      t in {b.left} + RightTarget(b.info, b.right) + {b.extra} && (t == null || m[t] in kids) ==> HasParent(m, ps, t)
    ensures SinglesCopied(m, ps, b, s)
  {
    hide HasParent;
  }

  method SetTypeDef(copy: Node, typeDef: Node?, ghost nodes: set<Node>)
    requires copy in nodes
    modifies copy`typeDef
    ensures Shapes(nodes) == old(Shapes(nodes))[copy := old(Shapes(nodes))[copy].(typeDef := typeDef)]
    ensures ParentsOf(nodes) == old(ParentsOf(nodes))
  {
    copy.typeDef := typeDef;
  }

  /** The type definition is that of the original, translated where its copy exists by now. */
  method ResolveTypeDef(node: Node, right: Node?, ctx: CopyContext, ghost g: Graph) returns (td: Node?)
    requires ctx.Valid() && Depicts(g) && node in g && node in ctx.memo
    requires g[node].left != null ==> g[node].left in ctx.memo
    requires g[node].extra != null ==> g[node].extra in ctx.memo
    ensures TypeDefCopied(ctx.memo, node, g[node], right, td)
    ensures TypeDefIs(ctx.memo, g[node], right, ctx.Order(), td)
  {
    ctx.OrderIsMemo();
    if node.typeDef == null {
      return null;
    }
    if node.typeDef == node.right {
      return right;
    }
    var resolved := ctx.Lookup(node.typeDef);
    td := if resolved != null then resolved else node.typeDef;
  }

  /** The shape of a copy before any edge is stored in it. */
  ghost function BlankCopy(s: Shape): Shape
  {
    Shape(s.info.(isExported := false), null, null, null, [], null, false)
  }

  lemma StoresExtended(nodes: set<Node>, c: Node)
    ensures Shapes(nodes + {c}) == Shapes(nodes)[c := c.Snapshot()]
    ensures ParentsOf(nodes + {c}) == ParentsOf(nodes)[c := c.parent]
  {
  }

  method MakeCopy(node: Node) returns (copy: Node)
    ensures fresh(copy) && copy.Snapshot() == BlankCopy(node.Snapshot()) && copy.parent == null
  {
    copy := new Node(node.info.kind, node.info.token);
    copy.freed := false;
    copy.info := copy.info.(attrs := node.info.attrs, unitList := node.info.unitList);
    copy.typeDef := null;
  }

  method NewCopy(node: Node, ctx: CopyContext) returns (copy: Node)
    requires ctx.Valid() && node !in ctx.memo
    modifies ctx
    ensures ctx.Valid() && fresh(copy)
    ensures ctx.memo == old(ctx.memo)[node := copy] && ctx.copies == old(ctx.copies) + {copy}
    ensures Shapes(ctx.copies) == old(Shapes(ctx.copies))[copy := BlankCopy(node.Snapshot())]
    ensures ParentsOf(ctx.copies) == old(ParentsOf(ctx.copies))[copy := null]
    ensures ctx.Order() == old(ctx.Order()) + [node] && ctx.links == old(ctx.links)
  {
    hide *;
    ghost var cs, blank := ctx.copies, BlankCopy(node.Snapshot());
    copy := MakeCopy(node);
    StoresExtended(cs, copy);
    assert Shapes(cs + {copy}) == old(Shapes(ctx.copies))[copy := blank];
    ctx.Register(node, copy);
  }

  ghost function NoNodes(n: nat): (s: seq<Node?>)
    ensures |s| == n && forall i :: 0 <= i < n ==> s[i] == null
  {
    seq(n, _ => null)
  }

  method ClearChildren(copy: Node, n: nat, ghost nodes: set<Node>)
    requires copy in nodes
    modifies copy`children
    ensures Shapes(nodes) == old(Shapes(nodes))[copy := old(Shapes(nodes))[copy].(children := NoNodes(n))]
    ensures ParentsOf(nodes) == old(ParentsOf(nodes))
  {
    copy.children := seq(n, _ => null);
    assert copy.children == NoNodes(n);
  }

  /** Storing child `i` of the copy of `busy`. */
  lemma ChildLinked(g: Graph, busy: Node, m: Memo, sh: Graph, ps: Parents, i: nat, child: Node?)
    requires InProgress(g, m, sh, ps) && busy in m && busy in g && m[busy] in sh
    requires i < |sh[m[busy]].children| && ChildrenCopied(m, ps, g[busy], sh[m[busy]], i)
    requires Mapped(m, g[busy].children[i], child)
    ensures var s := sh[m[busy]].(children := sh[m[busy]].children[i := child]);
      var ps' := Adopt(ps, {child}, m[busy]);
      Grown(g, busy, m, sh, ps, m, sh[m[busy] := s], ps') && ChildrenCopied(m, ps', g[busy], s, i + 1)
  {
    var t := g[busy].children[i];
    var s := sh[m[busy]].(children := sh[m[busy]].children[i := child]);
    assert t != null ==> Follows(g[busy], t);
    LinkedTo(g, busy, m, sh, ps, s, {t}, {child});
    hide Grown, InProgress;
    CopiedLater(m, ps, m, Adopt(ps, {child}, m[busy]), g[busy], sh[m[busy]], i);
  }

  ghost predicate EqualButChildren(s: Shape, s': Shape)
  {
    s' == s.(children := s'.children)
  }

  lemma ChildrenSize(m: Memo, ps: Parents, s: Shape, c: Shape, n: nat)
    requires ChildrenCopied(m, ps, s, c, n)
    ensures n <= |c.children| == |s.children|
  {
  }

  lemma ShapesAt(nodes: set<Node>, c: Node)
    requires c in nodes
    ensures Shapes(nodes)[c] == c.Snapshot()
    ensures c.children == Shapes(nodes)[c].children && c.right == Shapes(nodes)[c].right
  {
  }

  /** An emptied child list leaves the copy under way. */
  lemma ChildrenCleared(g: Graph, busy: Node, m: Memo, sh: Graph, ps: Parents, n: nat)
    requires InProgress(g, m, sh, ps) && busy in m && m[busy] in sh && busy in g && n == |g[busy].children|
    ensures var s := sh[m[busy]].(children := NoNodes(n));
      Grown(g, busy, m, sh, ps, m, sh[m[busy] := s], ps) && ChildrenCopied(m, ps, g[busy], s, 0)
  {
    Linked(g, busy, m, sh, ps, sh[m[busy]].(children := NoNodes(n)), {});
    assert Adopt(ps, {}, m[busy]) == ps;
  }

  lemma ChildReplaced(s: Shape, i: nat, child: Node?)
    requires i < |s.children|
    ensures EqualButChildren(s, s.(children := s.children[i := child]))
  {
  }

  lemma ClearedIsEqual(s: Shape, n: nat)
    ensures EqualButChildren(s, s.(children := NoNodes(n)))
  {
  }

  lemma EqualButChildrenTransitive(s: Shape, s': Shape, s'': Shape)
    requires EqualButChildren(s, s') && EqualButChildren(s', s'')
    ensures EqualButChildren(s, s'')
  {
  }

  method StoreChild(node: Node, copy: Node, i: nat, c: Node?, ctx: CopyContext, ghost g: Graph)
    requires ctx.Valid() && Depicts(g) && node in g && node in ctx.memo && ctx.memo[node] == copy && copy in ctx.copies
    requires InProgress(g, ctx.memo, Shapes(ctx.copies), ParentsOf(ctx.copies))
    requires i < |Shapes(ctx.copies)[copy].children| == |g[node].children| && Mapped(ctx.memo, g[node].children[i], c)
    requires ChildrenCopied(ctx.memo, ParentsOf(ctx.copies), g[node], Shapes(ctx.copies)[copy], i)
    requires Kin(ctx.memo, ParentsOf(ctx.copies), ctx.links)
    modifies ctx`links, ctx.copies
    ensures ctx.Valid() && Depicts(g)
    ensures Grown(g, node, ctx.memo, old(Shapes(ctx.copies)), old(ParentsOf(ctx.copies)),
                  ctx.memo, Shapes(ctx.copies), ParentsOf(ctx.copies))
    ensures Kin(ctx.memo, ParentsOf(ctx.copies), ctx.links)
    ensures ctx.links == old(ctx.links) + OneLink(node, g[node].children[i]) && ctx.Order() == old(ctx.Order())
    ensures Kin(ctx.memo, ParentsOf(ctx.copies), ctx.links)
    ensures EqualButChildren(old(Shapes(ctx.copies)[copy]), Shapes(ctx.copies)[copy])
    ensures ChildrenCopied(ctx.memo, ParentsOf(ctx.copies), g[node], Shapes(ctx.copies)[copy], i + 1)
  {
    hide *;
    ghost var sh, ps := Shapes(ctx.copies), ParentsOf(ctx.copies);
    InProgressFacts(g, ctx.memo, sh, ps);
    ChildLinked(g, node, ctx.memo, sh, ps, i, c);
    ShapesAt(ctx.copies, copy);
    ChildReplaced(sh[copy], i, c);
    KinLinked(ctx.memo, ps, ctx.links, node, g[node].children[i], c);
    LinkChild(copy, i, c, ctx.copies);
    ctx.AddLinks(OneLink(node, g[node].children[i]));
  }

  /** The recursive call for child `i`, which leaves the children stored so far translated. */
  method CopyChildTarget(node: Node, i: nat, ctx: CopyContext, ghost at: nat, ghost g: Graph,
                         ghost m1: Memo, ghost sh1: Graph, ghost ps1: Parents) returns (c: Node?)
    requires Tracked(g, ctx.Order(), node, at, ctx.memo, Shapes(ctx.copies))
    requires ctx.Valid() && Depicts(g) && node in m1 && node in g && i < |g[node].children|
    requires Grown(g, node, m1, sh1, ps1, ctx.memo, Shapes(ctx.copies), ParentsOf(ctx.copies))
    requires InProgress(g, ctx.memo, Shapes(ctx.copies), ParentsOf(ctx.copies)) && m1[node] in ctx.copies
    requires ChildrenCopied(ctx.memo, ParentsOf(ctx.copies), g[node], Shapes(ctx.copies)[m1[node]], i)
    requires Kin(ctx.memo, ParentsOf(ctx.copies), ctx.links)
    modifies ctx, ctx.copies
    ensures ctx.Valid() && Depicts(g) && Mapped(ctx.memo, g[node].children[i], c)
    ensures Grown(g, node, m1, sh1, ps1, ctx.memo, Shapes(ctx.copies), ParentsOf(ctx.copies))
    ensures node in ctx.memo && ctx.memo[node] == m1[node] && m1[node] in ctx.copies
    ensures Shapes(ctx.copies)[m1[node]] == old(Shapes(ctx.copies)[m1[node]])
    ensures ChildrenCopied(ctx.memo, ParentsOf(ctx.copies), g[node], Shapes(ctx.copies)[m1[node]], i)
    ensures Tracked(g, ctx.Order(), node, at, ctx.memo, Shapes(ctx.copies))
    ensures Visited(g, g[node].children[i], old(ctx.Order()), ctx.Order())
    ensures Kin(ctx.memo, ParentsOf(ctx.copies), ctx.links)
    ensures LinksMade(g, g[node].children[i], old(ctx.Order()), old(ctx.links), ctx.links)
    ensures old(ctx.memo.Keys) <= ctx.memo.Keys
    ensures forall d :: d in ctx.copies ==> d in old(ctx.copies) || fresh(d)
    decreases g.Keys - ctx.memo.Keys, 3
  {
    hide *;
    ghost var m2, sh2, ps2 := ctx.memo, Shapes(ctx.copies), ParentsOf(ctx.copies);
    InProgressFacts(g, m2, sh2, ps2);
    DepictsAt(g, node);
    c := CopyTarget(node.children[i], ctx, node, at, g, m1, sh1, ps1);
    CopiedLater(m2, ps2, ctx.memo, ParentsOf(ctx.copies), g[node], sh2[m1[node]], i);
  }

  method CopyChild(node: Node, copy: Node, i: nat, ctx: CopyContext, ghost at: nat, ghost g: Graph,
                   ghost m1: Memo, ghost sh1: Graph, ghost ps1: Parents) returns (ghost linked: seq<Link>)
    requires Tracked(g, ctx.Order(), node, at, ctx.memo, Shapes(ctx.copies))
    requires ctx.Valid() && Depicts(g) && node in m1 && node in g && m1[node] == copy
    requires Grown(g, node, m1, sh1, ps1, ctx.memo, Shapes(ctx.copies), ParentsOf(ctx.copies))
    requires copy in ctx.copies && i < |g[node].children|
    requires ChildrenCopied(ctx.memo, ParentsOf(ctx.copies), g[node], Shapes(ctx.copies)[copy], i)
    requires Kin(ctx.memo, ParentsOf(ctx.copies), ctx.links)
    modifies ctx, ctx.copies
    ensures ctx.Valid() && Depicts(g)
    ensures Grown(g, node, m1, sh1, ps1, ctx.memo, Shapes(ctx.copies), ParentsOf(ctx.copies))
    ensures copy in ctx.copies && node in ctx.memo && ctx.memo[node] == copy
    ensures EqualButChildren(old(Shapes(ctx.copies)[copy]), Shapes(ctx.copies)[copy])
    ensures ChildrenCopied(ctx.memo, ParentsOf(ctx.copies), g[node], Shapes(ctx.copies)[copy], i + 1)
    ensures Tracked(g, ctx.Order(), node, at, ctx.memo, Shapes(ctx.copies))
    ensures Visited(g, g[node].children[i], old(ctx.Order()), ctx.Order())
    ensures Kin(ctx.memo, ParentsOf(ctx.copies), ctx.links)
    ensures LinksMade(g, g[node].children[i], old(ctx.Order()), old(ctx.links), linked)
    ensures ctx.links == linked + OneLink(node, g[node].children[i])
    ensures old(ctx.memo.Keys) <= ctx.memo.Keys
    ensures forall d :: d in ctx.copies ==> d in old(ctx.copies) || fresh(d)
    decreases g.Keys - ctx.memo.Keys, 4
  {
    hide *;
    GrownFacts(g, node, m1, sh1, ps1, ctx.memo, Shapes(ctx.copies), ParentsOf(ctx.copies));
    var c := CopyChildTarget(node, i, ctx, at, g, m1, sh1, ps1);
    linked := ctx.links;
    ghost var m3, sh3, ps3 := ctx.memo, Shapes(ctx.copies), ParentsOf(ctx.copies);
    GrownFacts(g, node, m1, sh1, ps1, m3, sh3, ps3);
    ChildrenSize(m3, ps3, g[node], sh3[copy], i);
    StoreChild(node, copy, i, c, ctx, g);
    GrownFacts(g, node, m3, sh3, ps3, m3, Shapes(ctx.copies), ParentsOf(ctx.copies));
    TrackStored(g, node, at, ctx.Order(), m3, sh3, Shapes(ctx.copies));
    GrownTransitive(g, node, m1, sh1, ps1, m3, sh3, ps3, m3, Shapes(ctx.copies), ParentsOf(ctx.copies));
  }

  /** The copy gets as many children as the node has, all absent. */
  method StartChildren(node: Node, copy: Node, ctx: CopyContext, ghost g: Graph)
    requires ctx.Valid() && Depicts(g)
    requires InProgress(g, ctx.memo, Shapes(ctx.copies), ParentsOf(ctx.copies))
    requires node in g && node in ctx.memo && ctx.memo[node] == copy && copy in ctx.copies && copy !in g
    requires Kin(ctx.memo, ParentsOf(ctx.copies), ctx.links)
    modifies ctx.copies
    ensures ctx.Valid() && Depicts(g)
    ensures Grown(g, node, ctx.memo, old(Shapes(ctx.copies)), old(ParentsOf(ctx.copies)),
                  ctx.memo, Shapes(ctx.copies), ParentsOf(ctx.copies))
    ensures Kin(ctx.memo, ParentsOf(ctx.copies), ctx.links)
    ensures EqualButChildren(old(Shapes(ctx.copies)[copy]), Shapes(ctx.copies)[copy])
    ensures ChildrenCopied(ctx.memo, ParentsOf(ctx.copies), g[node], Shapes(ctx.copies)[copy], 0)
  {
    hide *;
    ghost var m1, sh1, ps1 := ctx.memo, Shapes(ctx.copies), ParentsOf(ctx.copies);
    InProgressFacts(g, m1, sh1, ps1);
    DepictsAt(g, node);
    ChildrenCleared(g, node, m1, sh1, ps1, |node.children|);
    ClearedIsEqual(sh1[copy], |node.children|);
    ClearChildren(copy, |node.children|, ctx.copies);
  }

  method CopyChildren(node: Node, copy: Node, ctx: CopyContext, ghost at: nat, ghost g: Graph)
    requires ctx.Valid() && Depicts(g)
    requires Tracked(g, ctx.Order(), node, at, ctx.memo, Shapes(ctx.copies))
    requires InProgress(g, ctx.memo, Shapes(ctx.copies), ParentsOf(ctx.copies))
    requires node in g && node in ctx.memo && ctx.memo[node] == copy && copy in ctx.copies && copy !in g
    requires Kin(ctx.memo, ParentsOf(ctx.copies), ctx.links)
    modifies ctx, ctx.copies
    ensures ctx.Valid() && Depicts(g) && node in ctx.memo && ctx.memo[node] == copy && copy in ctx.copies
    ensures Grown(g, node, old(ctx.memo), old(Shapes(ctx.copies)), old(ParentsOf(ctx.copies)),
                  ctx.memo, Shapes(ctx.copies), ParentsOf(ctx.copies))
    ensures EqualButChildren(old(Shapes(ctx.copies)[copy]), Shapes(ctx.copies)[copy])
    ensures ChildrenCopied(ctx.memo, ParentsOf(ctx.copies), g[node], Shapes(ctx.copies)[copy], |g[node].children|)
    ensures Tracked(g, ctx.Order(), node, at, ctx.memo, Shapes(ctx.copies))
    ensures AllVisited(g, g[node].children, old(ctx.Order()), ctx.Order())
    ensures Kin(ctx.memo, ParentsOf(ctx.copies), ctx.links)
    ensures AllLinksMade(g, node, g[node].children, old(ctx.Order()), old(ctx.links), ctx.links)
    ensures forall d :: d in ctx.copies ==> d in old(ctx.copies) || fresh(d)
    decreases g.Keys - ctx.memo.Keys, 5
  {
    hide *;
    ghost var m1, sh1, ps1, o1 := ctx.memo, Shapes(ctx.copies), ParentsOf(ctx.copies), ctx.Order();
    ghost var l1 := ctx.links;
    StartChildren(node, copy, ctx, g);
    GrownFacts(g, node, m1, sh1, ps1, m1, Shapes(ctx.copies), ParentsOf(ctx.copies));
    TrackStored(g, node, at, o1, m1, sh1, Shapes(ctx.copies));
    ChildrenStart(g, node, at, m1, sh1, ps1, o1, l1);
    DepictsAt(g, node);
    for i := 0 to |node.children|
      invariant ctx.Valid() && Depicts(g)
      invariant Grown(g, node, m1, sh1, ps1, ctx.memo, Shapes(ctx.copies), ParentsOf(ctx.copies))
      invariant node in ctx.memo && ctx.memo[node] == copy && copy in ctx.copies
      invariant EqualButChildren(sh1[copy], Shapes(ctx.copies)[copy])
      invariant ChildrenCopied(ctx.memo, ParentsOf(ctx.copies), g[node], Shapes(ctx.copies)[copy], i)
      invariant forall d :: d in ctx.copies ==> d in old(ctx.copies) || fresh(d)
      invariant node.children == g[node].children && m1.Keys <= ctx.memo.Keys
      invariant Tracked(g, ctx.Order(), node, at, ctx.memo, Shapes(ctx.copies))
      invariant AllVisited(g, g[node].children[..i], o1, ctx.Order())
      invariant Kin(ctx.memo, ParentsOf(ctx.copies), ctx.links)
      invariant AllLinksMade(g, node, g[node].children[..i], o1, l1, ctx.links)
    {
      ghost var s, o, l := Shapes(ctx.copies)[copy], ctx.Order(), ctx.links;
      ghost var linked := CopyChild(node, copy, i, ctx, at, g, m1, sh1, ps1);
      OneMoreVisited(g, g[node].children, i, o1, o, ctx.Order());
      OneMoreLinksMade(g, node, g[node].children, i, o1, o, l1, l, linked);
      EqualButChildrenTransitive(sh1[copy], s, Shapes(ctx.copies)[copy]);
      DepictsAt(g, node);
    }
    assert g[node].children[..|g[node].children|] == g[node].children;
  }

  lemma ChildrenStart(g: Graph, busy: Node, at: nat, m: Memo, sh: Graph, ps: Parents, o: seq<Node>, l: seq<Link>)
    requires InProgress(g, m, sh, ps) && Tracked(g, o, busy, at, m, sh) && busy in g
    ensures TargetsIn(g, g[busy].children) && AllVisited(g, g[busy].children[..0], o, o)
    ensures AllLinksMade(g, busy, g[busy].children[..0], o, l, l)
  {
    ClosedEdges(g, busy);
    hide Closed, Follows;
    NoneVisited(g, g[busy].children, o);
    NoChildLinksMade(g, busy, g[busy].children, o, l);
  }

  /** The copy `c` of `n` so far: everything but its children. */
  ghost predicate EdgesFilled(m: Memo, ps: Parents, n: Node, s: Shape, c: Shape)
  {
    && c.info == s.info.(isExported := false) && !c.freed
    && SinglesCopied(m, ps, s, c) && TypeDefCopied(m, n, s, c.right, c.typeDef)
  }

  lemma EdgesFilledLater(m: Memo, ps: Parents, m': Memo, ps': Parents, n: Node, s: Shape, c: Shape, c': Shape)
    requires Extends(m, m') && ParentsKept(m, ps, ps') && EqualButChildren(c, c')
    requires EdgesFilled(m, ps, n, s, c)
    ensures EdgesFilled(m', ps', n, s, c')
  {
  }

  lemma CopyAssembled(g: Graph, n: Node, m: Memo, sh: Graph, ps: Parents)
    requires n in g && n in m && m[n] in sh && EdgesFilled(m, ps, n, g[n], sh[m[n]])
    requires ChildrenCopied(m, ps, g[n], sh[m[n]], |g[n].children|)
    ensures Finished(g, m, sh, ps, n)
  {
    var s := g[n];
    forall t: Node? | t != null && Follows(s, t)
      ensures HasParent(m, ps, t)
    {
      if t in s.children {
        var i :| 0 <= i < |s.children| && s.children[i] == t;
        assert HasParent(m, ps, s.children[i]);
      }
    }
  }

  /** Setting the type definition leaves the copy under way. */
  lemma TypeDefSet(g: Graph, busy: Node, m: Memo, sh: Graph, ps: Parents, td: Node?)
    requires InProgress(g, m, sh, ps) && busy in m && m[busy] in sh
    ensures Grown(g, busy, m, sh, ps, m, sh[m[busy] := sh[m[busy]].(typeDef := td)], ps)
  {
    Linked(g, busy, m, sh, ps, sh[m[busy]].(typeDef := td), {});
    assert Adopt(ps, {}, m[busy]) == ps;
  }

  lemma SinglesInMemo(m: Memo, ps: Parents, s: Shape, c: Shape)
    requires SinglesCopied(m, ps, s, c)
    ensures (s.left != null ==> s.left in m) && (s.extra != null ==> s.extra in m)
  {
  }

  /** Stores the copied single edges. */
  method StoreSingles(node: Node, copy: Node, left: Node?, right: Node?, extra: Node?, ctx: CopyContext, ghost g: Graph)
    requires ctx.Valid() && Depicts(g) && node in g && node in ctx.memo && ctx.memo[node] == copy
    requires InProgress(g, ctx.memo, Shapes(ctx.copies), ParentsOf(ctx.copies)) && copy in ctx.copies
    requires Shapes(ctx.copies)[copy] == BlankCopy(g[node])
    requires Mapped(ctx.memo, g[node].left, left) && Mapped(ctx.memo, g[node].extra, extra)
    requires if g[node].info.kind == TypeReference then right == g[node].right
             else Mapped(ctx.memo, g[node].right, right)
    requires Kin(ctx.memo, ParentsOf(ctx.copies), ctx.links)
    modifies ctx`links, ctx.copies
    ensures ctx.Valid() && Depicts(g)
    ensures Grown(g, node, ctx.memo, old(Shapes(ctx.copies)), old(ParentsOf(ctx.copies)),
                  ctx.memo, Shapes(ctx.copies), ParentsOf(ctx.copies))
    ensures var c := Shapes(ctx.copies)[copy]; c.info == g[node].info.(isExported := false) && !c.freed
    ensures Kin(ctx.memo, ParentsOf(ctx.copies), ctx.links)
    ensures ctx.links == old(ctx.links) + OwnLinks(node, g[node]) && ctx.Order() == old(ctx.Order())
    ensures SinglesCopied(ctx.memo, ParentsOf(ctx.copies), g[node], Shapes(ctx.copies)[copy])
  {
    hide *;
    ghost var m, sh, ps := ctx.memo, Shapes(ctx.copies), ParentsOf(ctx.copies);
    BlankFacts(g[node]);
    InProgressFacts(g, m, sh, ps);
    DepictsAt(g, node);
    SinglesLinked(g, node, m, sh, ps, sh[copy].(left := left, right := right, extra := extra), left, right, extra);
    MappedFacts(g, m, sh, g[node].left, left);
    MappedFacts(g, m, sh, g[node].extra, extra);
    KinSingles(m, ps, ctx.links, node, g[node], left, right, extra);
    LinkSingleEdges(node.info, copy, left, right, extra, ctx.copies);
    ctx.AddLinks(OwnLinks(node, g[node]));
  }

  lemma BlankFacts(s: Shape)
    ensures BlankCopy(s).info == s.info.(isExported := false) && !BlankCopy(s).freed
  {
  }

  lemma MappedFacts(g: Graph, m: Memo, sh: Graph, t: Node?, c: Node?)
    requires Mapped(m, t, c) && (forall t: Node?, c: Node? :: Mapped(m, t, c) ==> c == null || c in sh)
    ensures c != null ==> c in sh
  {
  }

  method StoreTypeDef(node: Node, copy: Node, ctx: CopyContext, ghost g: Graph)
    requires ctx.Valid() && Depicts(g) && node in g && node in ctx.memo && ctx.memo[node] == copy
    requires InProgress(g, ctx.memo, Shapes(ctx.copies), ParentsOf(ctx.copies)) && copy in ctx.copies
    requires var c := Shapes(ctx.copies)[copy]; c.info == g[node].info.(isExported := false) && !c.freed
    requires SinglesCopied(ctx.memo, ParentsOf(ctx.copies), g[node], Shapes(ctx.copies)[copy])
    requires Kin(ctx.memo, ParentsOf(ctx.copies), ctx.links)
    modifies ctx.copies
    ensures ctx.Valid() && Depicts(g)
    ensures Grown(g, node, ctx.memo, old(Shapes(ctx.copies)), old(ParentsOf(ctx.copies)),
                  ctx.memo, Shapes(ctx.copies), ParentsOf(ctx.copies))
    ensures Kin(ctx.memo, ParentsOf(ctx.copies), ctx.links)
    ensures EdgesFilled(ctx.memo, ParentsOf(ctx.copies), node, g[node], Shapes(ctx.copies)[copy])
    ensures var c := Shapes(ctx.copies)[copy]; TypeDefIs(ctx.memo, g[node], c.right, ctx.Order(), c.typeDef)
  {
    hide *;
    ghost var m, sh, ps := ctx.memo, Shapes(ctx.copies), ParentsOf(ctx.copies);
    InProgressFacts(g, m, sh, ps);
    SinglesInMemo(m, ps, g[node], sh[copy]);
    ShapesAt(ctx.copies, copy);
    var td := ResolveTypeDef(node, copy.right, ctx, g);
    TypeDefSet(g, node, m, sh, ps, td);
    EdgesNowFilled(m, ps, node, g[node], sh[copy], td);
    SetTypeDef(copy, td, ctx.copies);
  }

  lemma EdgesNowFilled(m: Memo, ps: Parents, n: Node, s: Shape, c: Shape, td: Node?)
    requires c.info == s.info.(isExported := false) && !c.freed
    requires SinglesCopied(m, ps, s, c) && TypeDefCopied(m, n, s, c.right, td)
    ensures EdgesFilled(m, ps, n, s, c.(typeDef := td))
  {
  }

  /** All three recursive calls. */
  method CopySingles(node: Node, ctx: CopyContext, ghost at: nat, ghost g: Graph,
                     ghost m1: Memo, ghost sh1: Graph, ghost ps1: Parents)
    returns (left: Node?, right: Node?, extra: Node?)
    requires ctx.Valid() && Depicts(g) && node in g && node in m1
    requires Tracked(g, ctx.Order(), node, at, ctx.memo, Shapes(ctx.copies))
    requires Grown(g, node, m1, sh1, ps1, ctx.memo, Shapes(ctx.copies), ParentsOf(ctx.copies))
    requires InProgress(g, ctx.memo, Shapes(ctx.copies), ParentsOf(ctx.copies))
    requires Kin(ctx.memo, ParentsOf(ctx.copies), ctx.links)
    modifies ctx, ctx.copies
    ensures ctx.Valid() && Depicts(g) && node in ctx.memo && ctx.memo[node] == m1[node]
    ensures Grown(g, node, m1, sh1, ps1, ctx.memo, Shapes(ctx.copies), ParentsOf(ctx.copies))
    ensures m1[node] in old(ctx.copies) && m1[node] in ctx.copies
    ensures Shapes(ctx.copies)[m1[node]] == old(Shapes(ctx.copies))[m1[node]]
    ensures Mapped(ctx.memo, g[node].left, left) && Mapped(ctx.memo, g[node].extra, extra)
    ensures if g[node].info.kind == TypeReference then right == g[node].right
            else Mapped(ctx.memo, g[node].right, right)
    ensures Tracked(g, ctx.Order(), node, at, ctx.memo, Shapes(ctx.copies))
    ensures SinglesVisited(g, g[node], old(ctx.Order()), ctx.Order())
    ensures Kin(ctx.memo, ParentsOf(ctx.copies), ctx.links)
    ensures SinglesLinksMade(g, g[node], old(ctx.Order()), old(ctx.links), ctx.links)
    ensures forall d :: d in ctx.copies ==> d in old(ctx.copies) || fresh(d)
    decreases g.Keys - ctx.memo.Keys, 5
  {
    hide *;
    InProgressFacts(g, ctx.memo, Shapes(ctx.copies), ParentsOf(ctx.copies));
    ClosedEdges(g, node);
    ghost var o1, l1 := ctx.Order(), ctx.links;
    ghost var o2, l2;
    left, extra, o2, l2 := CopyLeftAndExtra(node, ctx, at, g, m1, sh1, ps1);
    ghost var m, o3, l3 := ctx.memo, ctx.Order(), ctx.links;
    right := CopyRight(node, ctx, at, g, m1, sh1, ps1);
    ThreeVisited(g, g[node], o1, o2, o3, ctx.Order());
    ThreeLinksMade(g, g[node], o1, o2, o3, l1, l2, l3, ctx.links);
    MappedLater(m, ctx.memo, g[node].left, left);
    MappedLater(m, ctx.memo, g[node].extra, extra);
  }

  /** Copies what the single edges of `node` lead to, then stores the edges in its copy. */
  method FillSingles(node: Node, copy: Node, ctx: CopyContext, ghost at: nat, ghost g: Graph,
                     ghost m1: Memo, ghost sh1: Graph, ghost ps1: Parents) returns (ghost linked: seq<Link>)
    requires Tracked(g, ctx.Order(), node, at, ctx.memo, Shapes(ctx.copies))
    requires ctx.Valid() && Depicts(g) && node in g && node in m1 && m1[node] == copy
    requires Grown(g, node, m1, sh1, ps1, ctx.memo, Shapes(ctx.copies), ParentsOf(ctx.copies))
    requires InProgress(g, ctx.memo, Shapes(ctx.copies), ParentsOf(ctx.copies)) && copy in ctx.copies
    requires Shapes(ctx.copies)[copy] == BlankCopy(g[node])
    requires Kin(ctx.memo, ParentsOf(ctx.copies), ctx.links)
    modifies ctx, ctx.copies
    ensures ctx.Valid() && Depicts(g) && node in ctx.memo && ctx.memo[node] == copy && copy in ctx.copies
    ensures Grown(g, node, m1, sh1, ps1, ctx.memo, Shapes(ctx.copies), ParentsOf(ctx.copies))
    ensures var c := Shapes(ctx.copies)[copy]; c.info == g[node].info.(isExported := false) && !c.freed
    ensures SinglesCopied(ctx.memo, ParentsOf(ctx.copies), g[node], Shapes(ctx.copies)[copy])
    ensures m1.Keys <= ctx.memo.Keys
    ensures Tracked(g, ctx.Order(), node, at, ctx.memo, Shapes(ctx.copies))
    ensures SinglesVisited(g, g[node], old(ctx.Order()), ctx.Order())
    ensures Kin(ctx.memo, ParentsOf(ctx.copies), ctx.links)
    ensures SinglesLinksMade(g, g[node], old(ctx.Order()), old(ctx.links), linked)
    ensures ctx.links == linked + OwnLinks(node, g[node])
    ensures forall d :: d in ctx.copies ==> d in old(ctx.copies) || fresh(d)
    decreases g.Keys - ctx.memo.Keys, 6
  {
    hide *;
    var left, right, extra := CopySingles(node, ctx, at, g, m1, sh1, ps1);
    linked := ctx.links;
    ghost var m2, sh2, ps2 := ctx.memo, Shapes(ctx.copies), ParentsOf(ctx.copies);
    GrownFacts(g, node, m1, sh1, ps1, m2, sh2, ps2);
    StoreSingles(node, copy, left, right, extra, ctx, g);
    GrownFacts(g, node, m2, sh2, ps2, m2, Shapes(ctx.copies), ParentsOf(ctx.copies));
    TrackStored(g, node, at, ctx.Order(), m2, sh2, Shapes(ctx.copies));
    GrownTransitive(g, node, m1, sh1, ps1, m2, sh2, ps2, m2, Shapes(ctx.copies), ParentsOf(ctx.copies));
  }

  /** Everything but the children. */
  method FillEdges(node: Node, copy: Node, ctx: CopyContext, ghost at: nat, ghost g: Graph)
    returns (ghost linked: seq<Link>)
    requires Tracked(g, ctx.Order(), node, at, ctx.memo, Shapes(ctx.copies))
    requires ctx.Valid() && Depicts(g) && node in g && node in ctx.memo && ctx.memo[node] == copy
    requires InProgress(g, ctx.memo, Shapes(ctx.copies), ParentsOf(ctx.copies)) && copy in ctx.copies
    requires Shapes(ctx.copies)[copy] == BlankCopy(g[node])
    requires Kin(ctx.memo, ParentsOf(ctx.copies), ctx.links)
    modifies ctx, ctx.copies
    ensures ctx.Valid() && Depicts(g) && node in ctx.memo && ctx.memo[node] == copy && copy in ctx.copies
    ensures Grown(g, node, old(ctx.memo), old(Shapes(ctx.copies)), old(ParentsOf(ctx.copies)),
                  ctx.memo, Shapes(ctx.copies), ParentsOf(ctx.copies))
    ensures EdgesFilled(ctx.memo, ParentsOf(ctx.copies), node, g[node], Shapes(ctx.copies)[copy])
    ensures old(ctx.memo.Keys) <= ctx.memo.Keys
    ensures Tracked(g, ctx.Order(), node, at, ctx.memo, Shapes(ctx.copies))
    ensures SinglesVisited(g, g[node], old(ctx.Order()), ctx.Order())
    ensures var c := Shapes(ctx.copies)[copy]; TypeDefIs(ctx.memo, g[node], c.right, ctx.Order(), c.typeDef)
    ensures Kin(ctx.memo, ParentsOf(ctx.copies), ctx.links)
    ensures SinglesLinksMade(g, g[node], old(ctx.Order()), old(ctx.links), linked)
    ensures ctx.links == linked + OwnLinks(node, g[node])
    ensures forall d :: d in ctx.copies ==> d in old(ctx.copies) || fresh(d)
    decreases g.Keys - ctx.memo.Keys, 7
  {
    hide *;
    ghost var m1, sh1, ps1 := ctx.memo, Shapes(ctx.copies), ParentsOf(ctx.copies);
    GrownReflexive(g, node, m1, sh1, ps1);
    linked := FillSingles(node, copy, ctx, at, g, m1, sh1, ps1);
    ghost var m2, sh2, ps2 := ctx.memo, Shapes(ctx.copies), ParentsOf(ctx.copies);
    GrownFacts(g, node, m1, sh1, ps1, m2, sh2, ps2);
    StoreTypeDef(node, copy, ctx, g);
    GrownFacts(g, node, m2, sh2, ps2, m2, Shapes(ctx.copies), ParentsOf(ctx.copies));
    TrackStored(g, node, at, ctx.Order(), m2, sh2, Shapes(ctx.copies));
    GrownTransitive(g, node, m1, sh1, ps1, m2, sh2, ps2, m2, Shapes(ctx.copies), ParentsOf(ctx.copies));
  }

  /** The recorded copy of `node` is filled in. */
  method FillCopy(node: Node, copy: Node, ctx: CopyContext, ghost g: Graph, ghost before: seq<Node>)
    requires ctx.Order() == before + [node] && node !in before && Closed(g) && InGraph(g, before)
    requires Tracked(g, ctx.Order(), node, |before|, ctx.memo, Shapes(ctx.copies))
    requires ctx.Valid() && Depicts(g) && node in g && node in ctx.memo && ctx.memo[node] == copy
    requires InProgress(g, ctx.memo, Shapes(ctx.copies), ParentsOf(ctx.copies)) && copy in ctx.copies && copy !in g
    requires Shapes(ctx.copies)[copy] == BlankCopy(g[node])
    requires Kin(ctx.memo, ParentsOf(ctx.copies), ctx.links)
    modifies ctx, ctx.copies
    ensures ctx.Valid() && Depicts(g) && node in ctx.memo && ctx.memo[node] == copy
    ensures Grown(g, node, old(ctx.memo), old(Shapes(ctx.copies)), old(ParentsOf(ctx.copies)),
                  ctx.memo, Shapes(ctx.copies), ParentsOf(ctx.copies))
    ensures Finished(g, ctx.memo, Shapes(ctx.copies), ParentsOf(ctx.copies), node)
    ensures Visited(g, node, before, ctx.Order())
    ensures ResolvedFrom(g, ctx.Order(), |before|, ctx.memo, Shapes(ctx.copies))
    ensures Kin(ctx.memo, ParentsOf(ctx.copies), ctx.links)
    ensures LinksMade(g, node, before, old(ctx.links), ctx.links)
    ensures forall d :: d in ctx.copies ==> d in old(ctx.copies) || fresh(d)
    decreases g.Keys - ctx.memo.Keys, 8
  {
    hide *;
    ghost var m1, sh1, ps1 := ctx.memo, Shapes(ctx.copies), ParentsOf(ctx.copies);
    ghost var l := ctx.links;
    ghost var linked := FillEdges(node, copy, ctx, |before|, g);
    ghost var m2, sh3, ps3, o2 := ctx.memo, Shapes(ctx.copies), ParentsOf(ctx.copies), ctx.Order();
    GrownFacts(g, node, m1, sh1, ps1, m2, sh3, ps3);
    CopyChildren(node, copy, ctx, |before|, g);
    ghost var m4, sh4, ps4 := ctx.memo, Shapes(ctx.copies), ParentsOf(ctx.copies);
    GrownFacts(g, node, m2, sh3, ps3, m4, sh4, ps4);
    FilledCopy(g, node, before, o2, ctx.Order(), m2, sh3[copy], m4, sh4);
    GrownTransitive(g, node, m1, sh1, ps1, m2, sh3, ps3, m4, sh4, ps4);
    EdgesFilledLater(m2, ps3, m4, ps4, node, g[node], sh3[copy], sh4[copy]);
    NodeLinksMade(g, node, before, o2, l, linked, ctx.links);
    CopyAssembled(g, node, m4, sh4, ps4);
  }

  method CopyRecursive(node: Node?, ctx: CopyContext, ghost g: Graph) returns (c: Node?)
    requires ctx.Valid() && Depicts(g)
    requires InProgress(g, ctx.memo, Shapes(ctx.copies), ParentsOf(ctx.copies))
    requires node == null || node in g
    requires Kin(ctx.memo, ParentsOf(ctx.copies), ctx.links)
    modifies ctx, ctx.copies
    ensures ctx.Valid() && Depicts(g)
    ensures Mapped(ctx.memo, node, c)
    ensures Grown(g, null, old(ctx.memo), old(Shapes(ctx.copies)), old(ParentsOf(ctx.copies)),
                  ctx.memo, Shapes(ctx.copies), ParentsOf(ctx.copies))
    ensures Visited(g, node, old(ctx.Order()), ctx.Order())
    ensures ResolvedFrom(g, ctx.Order(), |old(ctx.Order())|, ctx.memo, Shapes(ctx.copies))
    ensures Kin(ctx.memo, ParentsOf(ctx.copies), ctx.links)
    ensures LinksMade(g, node, old(ctx.Order()), old(ctx.links), ctx.links)
    ensures forall d :: d in ctx.copies ==> d in old(ctx.copies) || fresh(d)
    decreases g.Keys - ctx.memo.Keys, 1
  {
    hide *;
    GrownReflexive(g, null, ctx.memo, Shapes(ctx.copies), ParentsOf(ctx.copies));
    InProgressFacts(g, ctx.memo, Shapes(ctx.copies), ParentsOf(ctx.copies));
    ctx.OrderIsMemo();
    OrderInGraph(g, ctx.Order(), ctx.memo);
    NothingResolved(g, ctx.Order(), ctx.memo, Shapes(ctx.copies));
    NowMapped(ctx.memo, node);
    if node == null {
      NothingToVisit(g, null, ctx.Order());
      NoLinksMade(g, null, ctx.Order(), ctx.links);
      return null;
    }
    var known := ctx.Lookup(node);
    if known != null {
      NothingToVisit(g, node, ctx.Order());
      NoLinksMade(g, node, ctx.Order(), ctx.links);
      return known;
    }
    c := CopyUnknown(node, ctx, g);
    NowMapped(ctx.memo, node);
  }

  lemma NowMapped(m: Memo, n: Node?)
    ensures Mapped(m, null, null) && (n != null && n in m ==> Mapped(m, n, m[n]))
  {
  }

  lemma MappedNode(m: Memo, n: Node, c: Node?)
    requires Mapped(m, n, c)
    ensures c != null && n in m && c == m[n]
  {
  }

  /** Makes and records the copy of `node`, all its edges still empty. */
  method StartCopy(node: Node, ctx: CopyContext, ghost g: Graph) returns (copy: Node)
    requires ctx.Valid() && Depicts(g) && node in g && node !in ctx.memo
    requires InProgress(g, ctx.memo, Shapes(ctx.copies), ParentsOf(ctx.copies))
    requires Kin(ctx.memo, ParentsOf(ctx.copies), ctx.links)
    modifies ctx
    ensures ctx.Valid() && Depicts(g) && fresh(copy) && copy !in g
    ensures ctx.memo == old(ctx.memo)[node := copy] && ctx.copies == old(ctx.copies) + {copy}
    ensures InProgress(g, ctx.memo, Shapes(ctx.copies), ParentsOf(ctx.copies))
    ensures Extends(old(ctx.memo), ctx.memo) && g.Keys - ctx.memo.Keys < g.Keys - old(ctx.memo.Keys)
    ensures ShapesKept(null, old(ctx.memo), old(Shapes(ctx.copies)), Shapes(ctx.copies))
    ensures ParentsKept(old(ctx.memo), old(ParentsOf(ctx.copies)), ParentsOf(ctx.copies))
    ensures Shapes(ctx.copies)[copy] == BlankCopy(g[node])
    ensures ctx.Order() == old(ctx.Order()) + [node] && node !in old(ctx.Order())
    ensures Kin(ctx.memo, ParentsOf(ctx.copies), ctx.links)
    ensures ctx.links == old(ctx.links)
    ensures Closed(g) && InGraph(g, old(ctx.Order()))
    ensures Tracked(g, ctx.Order(), node, |old(ctx.Order())|, ctx.memo, Shapes(ctx.copies))
  {
    assert node.Snapshot() == g[node];
    hide *;
    ghost var m0, sh0, ps0, before := ctx.memo, Shapes(ctx.copies), ParentsOf(ctx.copies), ctx.Order();
    ctx.OrderIsMemo();
    NotInOrder(before, m0, node);
    copy := NewCopy(node, ctx);
    KinStarts(m0, ps0, ctx.links, node, copy);
    CopyStarted(g, m0, sh0, ps0, node, copy, BlankCopy(g[node]));
    ctx.OrderIsMemo();
    InProgressFacts(g, ctx.memo, Shapes(ctx.copies), ParentsOf(ctx.copies));
    OrderInGraph(g, ctx.Order(), ctx.memo);
    TrackStarts(g, before, node, ctx.memo, Shapes(ctx.copies));
  }

  method CopyUnknown(node: Node, ctx: CopyContext, ghost g: Graph) returns (copy: Node)
    requires ctx.Valid() && Depicts(g) && node in g && node !in ctx.memo
    requires InProgress(g, ctx.memo, Shapes(ctx.copies), ParentsOf(ctx.copies))
    requires Kin(ctx.memo, ParentsOf(ctx.copies), ctx.links)
    modifies ctx, ctx.copies
    ensures ctx.Valid() && Depicts(g)
    ensures node in ctx.memo && ctx.memo[node] == copy
    ensures Grown(g, null, old(ctx.memo), old(Shapes(ctx.copies)), old(ParentsOf(ctx.copies)),
                  ctx.memo, Shapes(ctx.copies), ParentsOf(ctx.copies))
    ensures Visited(g, node, old(ctx.Order()), ctx.Order())
    ensures ResolvedFrom(g, ctx.Order(), |old(ctx.Order())|, ctx.memo, Shapes(ctx.copies))
    ensures Kin(ctx.memo, ParentsOf(ctx.copies), ctx.links)
    ensures LinksMade(g, node, old(ctx.Order()), old(ctx.links), ctx.links)
    ensures forall d :: d in ctx.copies ==> d in old(ctx.copies) || fresh(d)
    decreases g.Keys - ctx.memo.Keys, 0
  {
    hide *;
    ghost var m0, sh0, ps0, before := ctx.memo, Shapes(ctx.copies), ParentsOf(ctx.copies), ctx.Order();
    copy := StartCopy(node, ctx, g);
    ghost var m1, sh1, ps1 := ctx.memo, Shapes(ctx.copies), ParentsOf(ctx.copies);
    FillCopy(node, copy, ctx, g, before);
    CopyCompletes(g, node, m0, sh0, ps0, m1, sh1, ps1, ctx.memo, Shapes(ctx.copies), ParentsOf(ctx.copies));
  }

  /** What a finished copy of the graph `g` satisfies, said on snapshots: `h` and `hpar` hold the
      copies and their parents, `m` maps the originals, whose parents are `par`, onto them. */
  ghost predicate CopiedGraph(g: Graph, par: Parents, m: Memo, h: Graph, hpar: Parents)
  {
    && m.Keys <= g.Keys <= par.Keys && Injective(m) && m.Values !! g.Keys && h.Keys == m.Values && hpar.Keys == m.Values
    && (forall t :: t in g && par[t] != null ==> par[t] !in m.Values)
    && (forall n :: n in m ==> CopyOf(m, n, g[n], h[m[n]]))
    && (forall n, t :: n in m && Follows(g[n], t) ==> t in m && hpar[m[t]] != null)
    && (forall n :: n in m && hpar[m[n]] != null ==> exists p :: p in m && Follows(g[p], n) && hpar[m[n]] == m[p])
  }

  lemma CopiedGraphAt(g: Graph, par: Parents, m: Memo, h: Graph, hpar: Parents, n: Node)
    requires CopiedGraph(g, par, m, h, hpar) && n in m
    ensures n in g && m[n] in h && CopyOf(m, n, g[n], h[m[n]])
    ensures h[m[n]].info == g[n].info.(isExported := false) && forall t :: Follows(g[n], t) ==> t in m
    ensures h.Keys == hpar.Keys && g.Keys <= par.Keys && g.Keys !! h.Keys
    ensures forall q :: q in g ==> par[q] != m[n]
  {
    assert m[n] in m.Values;
    hide CopyOf, Follows, Injective;
    CopyKeepsInfo(m, n, g[n], h[m[n]]);
  }

  lemma CopyKeepsInfo(m: Memo, n: Node, s: Shape, c: Shape)
    requires CopyOf(m, n, s, c)
    ensures c.info == s.info.(isExported := false)
  {
    hide Mapped, TypeDefCopied;
  }

  lemma CopiedGraphFacts(g: Graph, par: Parents, m: Memo, h: Graph, hpar: Parents)
    requires CopiedGraph(g, par, m, h, hpar)
    ensures h.Keys == m.Values == hpar.Keys && m.Keys <= g.Keys <= par.Keys && g.Keys !! h.Keys && Injective(m)
  {
  }

  lemma CopiedInjective(g: Graph, par: Parents, m: Memo, h: Graph, hpar: Parents, n: Node, n': Node)
    requires CopiedGraph(g, par, m, h, hpar) && n in m && n' in m && m[n] == m[n']
    ensures n == n'
  {
  }

  lemma CopyFinished(g: Graph, par: Parents, m: Memo, sh: Graph, ps: Parents)
    requires Grown(g, null, map[], map[], map[], m, sh, ps) && par.Keys == g.Keys
    requires forall t :: t in g && par[t] != null ==> par[t] !in m.Values
    ensures CopiedGraph(g, par, m, sh, ps)
  {
    hide CopyOf, Follows, Extends, ShapesKept, ParentsKept;
    assert forall n :: n in m ==> Finished(g, m, sh, ps, n);
    hide Grown;
    forall n | n in m && ps[m[n]] != null
      ensures exists p :: p in m && Follows(g[p], n) && ps[m[n]] == m[p]
    {
      assert ParentFromEdge(g, m, ps, n);
    }
  }

  lemma EmptyMemo(g: Graph)
    requires Closed(g)
    ensures InProgress(g, map[], Shapes({}), ParentsOf({})) && Shapes({}) == map[] && ParentsOf({}) == map[]
    ensures Kin(map[], ParentsOf({}), [])
  {
  }

  lemma GrownKeys(g: Graph, m: Memo, sh: Graph, ps: Parents)
    requires Grown(g, null, map[], map[], map[], m, sh, ps)
    ensures sh.Keys == m.Values
  {
  }

  /** The type definitions of all copies, said by the graph alone: the order in which the copy of `root` comes to the
      nodes decides which of them are translated. */
  ghost predicate TypeDefsResolved(g: Graph, root: Node?, m: Memo, h: Graph)
  {
    && Closed(g) && (root == null || root in g)
    && OrderOf(Visit(g, root, []), m) && ResolvedFrom(g, Visit(g, root, []), 0, m, h)
  }

  lemma AllResolved(g: Graph, root: Node?, order: seq<Node>, m: Memo, h: Graph)
    requires Visited(g, root, [], order) && OrderOf(order, m) && ResolvedFrom(g, order, 0, m, h)
    ensures TypeDefsResolved(g, root, m, h)
  {
    hide Visit, ResolvedFrom, OrderOf;
  }

  /** A copy's type definition points into the original exactly if it is not the right edge of the original and its copy
      had not been started when the single edges were stored, or if it is the right edge of a type reference. */
  lemma TypeDefStays(g: Graph, root: Node?, par: Parents, m: Memo, h: Graph, hpar: Parents,
                     order: seq<Node>, i: nat, n: Node)
    requires CopiedGraph(g, par, m, h, hpar) && TypeDefsResolved(g, root, m, h) && order == Visit(g, root, [])
    requires i < |order| && n == order[i] && n in m && g[n].typeDef != null
    ensures var s, td := g[n], h[m[n]].typeDef;
      && (td == s.typeDef || (s.typeDef in m && td == m[s.typeDef]))
      && (td == s.typeDef <==>
          if s.typeDef == s.right then s.info.kind == TypeReference else s.typeDef !in KnownAt(g, order, i))
  {
    assert ResolvedAt(g, order, i, m, h);
    hide KnownAt, Visit, ResolvedFrom, TypeDefsResolved;
    CopiedGraphAt(g, par, m, h, hpar, n);
    CopiedRight(m, n, g[n], h[m[n]]);
    CopiedGraphFacts(g, par, m, h, hpar);
    hide CopyOf, CopiedGraph, Injective, Follows;
    assert forall t :: t in m ==> m[t] in m.Values && t in g;
  }

  lemma CopiedRight(m: Memo, n: Node, s: Shape, c: Shape)
    requires CopyOf(m, n, s, c)
    ensures if s.info.kind == TypeReference then c.right == s.right else Mapped(m, s.right, c.right)
  {
  }

  /** The k-th link is the last one that gives the copy of `n` a parent. */
  ghost predicate LastLink(links: seq<Link>, k: nat, n: Node)
  {
    k < |links| && links[k].child == n && forall j :: k < j < |links| ==> links[j].child != n
  }

  /** Where several edges lead to one node, its copy has the parent that was linked last. */
  ghost predicate DecidedAt(links: seq<Link>, m: Memo, ps: Parents, n: Node)
    requires n in m
  {
    && m[n] in ps
    && (forall k: nat :: LastLink(links, k, n) ==> links[k].parent in m && ps[m[n]] == m[links[k].parent])
    && ((forall k :: 0 <= k < |links| ==> links[k].child != n) ==> ps[m[n]] == null)
  }

  ghost predicate ParentsDecided(g: Graph, root: Node?, m: Memo, ps: Parents)
  {
    && Closed(g) && (root == null || root in g)
    && forall n :: n in m ==> DecidedAt(Links(g, root, []), m, ps, n)
  }

  lemma {:induction false} LastParentIs(links: seq<Link>, n: Node)
    ensures forall k: nat :: LastLink(links, k, n) ==> LastParent(links, n) == links[k].parent
    ensures (forall k :: 0 <= k < |links| ==> links[k].child != n) ==> LastParent(links, n) == null
  {
    if links != [] {
      var front, last := links[..|links| - 1], links[|links| - 1];
      LastParentIs(front, n);
      forall k: nat | LastLink(links, k, n)
        ensures LastParent(links, n) == links[k].parent
      {
        if last.child != n { assert LastLink(front, k, n); }
      }
      if forall k :: 0 <= k < |links| ==> links[k].child != n {
        assert forall k :: 0 <= k < |front| ==> front[k] == links[k];
      }
    }
  }

  lemma LastDecides(links: seq<Link>, m: Memo, ps: Parents, n: Node)
    requires Kin(m, ps, links) && n in m
    ensures DecidedAt(links, m, ps, n)
  {
    LastParentIs(links, n);
    hide LastParent;
  }

  lemma AllDecided(g: Graph, root: Node?, m: Memo, ps: Parents, links: seq<Link>)
    requires Kin(m, ps, links) && LinksMade(g, root, [], [], links)
    ensures ParentsDecided(g, root, m, ps)
  {
    assert links == Links(g, root, []);
    hide Links, Kin, DecidedAt, Closed;
    forall n | n in m
      ensures DecidedAt(links, m, ps, n)
    {
      LastDecides(links, m, ps, n);
    }
  }

  /** A copy of everything `node` leads to, on fresh nodes; `m` maps the originals onto the copies. */
  method CopyAST(node: Node?, ghost g: Graph) returns (c: Node?, ghost m: Memo)
    requires Depicts(g) && Closed(g) && (node == null || node in g)
    ensures Depicts(g) && Mapped(m, node, c) && fresh(m.Values)
    ensures CopiedGraph(g, ParentsOf(g.Keys), m, Shapes(m.Values), ParentsOf(m.Values))
    ensures TypeDefsResolved(g, node, m, Shapes(m.Values))
    ensures ParentsDecided(g, node, m, ParentsOf(m.Values))
  {
    var ctx := new CopyContext();
    hide *;
    EmptyMemo(g);
    c := CopyRecursive(node, ctx, g);
    m := ctx.memo;
    GrownKeys(g, m, Shapes(ctx.copies), ParentsOf(ctx.copies));
    assert m.Values == ctx.copies;
    ctx.OrderIsMemo();
    AllResolved(g, node, ctx.Order(), m, Shapes(m.Values));
    AllDecided(g, node, m, ParentsOf(m.Values), ctx.links);
    FreshParents(g, m.Values);
    CopyFinished(g, ParentsOf(g.Keys), m, Shapes(m.Values), ParentsOf(m.Values));
  }

  twostate lemma FreshParents(g: Graph, new copies: set<Node>)
    requires fresh(copies) && ParentsOf(g.Keys) == old(ParentsOf(g.Keys))
    ensures forall t :: t in g && ParentsOf(g.Keys)[t] != null ==> ParentsOf(g.Keys)[t] !in copies
  {
  }
}
