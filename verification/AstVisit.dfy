/** The order in which a copy comes to the nodes of a graph (src/ast/ast.c:2074-2188): a node, then what its left, extra
    and right edges lead to, then its children; a type reference keeps its right edge. */
module AstVisit {
  import opened AstGraph

  ghost predicate InGraph(g: Graph, ns: seq<Node>)
  {
    forall n :: n in ns ==> n in g
  }

  ghost predicate TargetsIn(g: Graph, ts: seq<Node?>)
  {
    forall t :: t in ts && t != null ==> t in g
  }

  ghost function Left(g: Graph, seen: seq<Node>): set<Node>
  {
    g.Keys - set n | n in seen
  }

  /** Where the right edge of a node leads the copy. */
  ghost function RightOf(s: Shape): Node?
  {
    if s.info.kind == TypeReference then null else s.right
  }

  ghost predicate EdgesIn(g: Graph, s: Shape)
  {
    TargetsIn(g, [s.left, s.extra, RightOf(s)]) && TargetsIn(g, s.children)
  }

  lemma ClosedEdges(g: Graph, n: Node)
    requires Closed(g) && n in g
    ensures EdgesIn(g, g[n])
  {
    var s := g[n];
    assert forall t: Node :: t in [s.left, s.extra, RightOf(s)] || t in s.children ==> Follows(s, t);
  }

  lemma LeftShrinks(g: Graph, seen: seq<Node>, n: Node)
    requires n in g && n !in seen
    ensures Left(g, seen + [n]) < Left(g, seen)
  {
    assert n in Left(g, seen) && n !in Left(g, seen + [n]);
  }

  lemma LeftFalls(g: Graph, seen: seq<Node>, more: seq<Node>)
    requires seen <= more
    ensures Left(g, more) <= Left(g, seen)
  {
    assert forall n :: n in seen ==> n in more;
  }

  /** The nodes come to by now, in order, when `seen` had been and the copy of `t` is asked for. */
  ghost function Visit(g: Graph, t: Node?, seen: seq<Node>): (r: seq<Node>)
    requires Closed(g) && InGraph(g, seen) && (t == null || t in g)
    ensures seen <= r && InGraph(g, r)
    decreases Left(g, seen), 1, 0
  {
    if t == null || t in seen then seen
    else
      ClosedEdges(g, t);
      LeftShrinks(g, seen, t);
      var singles := VisitSingles(g, g[t], seen + [t]);
      LeftFalls(g, seen + [t], singles);
      VisitAll(g, g[t].children, singles)
  }

  ghost function VisitSingles(g: Graph, s: Shape, seen: seq<Node>): (r: seq<Node>)
    requires Closed(g) && InGraph(g, seen) && EdgesIn(g, s)
    ensures seen <= r && InGraph(g, r)
    decreases Left(g, seen), 2, 0
  {
    assert s.left in [s.left, s.extra, RightOf(s)] && s.extra in [s.left, s.extra, RightOf(s)];
    assert RightOf(s) in [s.left, s.extra, RightOf(s)];
    var left := Visit(g, s.left, seen);
    LeftFalls(g, seen, left);
    var extra := Visit(g, s.extra, left);
    LeftFalls(g, seen, extra);
    Visit(g, RightOf(s), extra)
  }

  ghost function VisitAll(g: Graph, ts: seq<Node?>, seen: seq<Node>): (r: seq<Node>)
    requires Closed(g) && InGraph(g, seen) && TargetsIn(g, ts)
    ensures seen <= r && InGraph(g, r)
    decreases Left(g, seen), 2, |ts|
  {
    if ts == [] then seen
    else
      assert ts[0] in ts && forall t :: t in ts[1..] ==> t in ts;
      var first := Visit(g, ts[0], seen);
      LeftFalls(g, seen, first);
      VisitAll(g, ts[1..], first)
  }

  // ---- what one call of the copy does to the order

  ghost predicate Visited(g: Graph, t: Node?, seen: seq<Node>, r: seq<Node>)
  {
    Closed(g) && InGraph(g, seen) && (t == null || t in g) && r == Visit(g, t, seen)
  }

  ghost predicate SinglesVisited(g: Graph, s: Shape, seen: seq<Node>, r: seq<Node>)
  {
    Closed(g) && InGraph(g, seen) && EdgesIn(g, s) && r == VisitSingles(g, s, seen)
  }

  ghost predicate AllVisited(g: Graph, ts: seq<Node?>, seen: seq<Node>, r: seq<Node>)
  {
    Closed(g) && InGraph(g, seen) && TargetsIn(g, ts) && r == VisitAll(g, ts, seen)
  }

  lemma NothingToVisit(g: Graph, t: Node?, seen: seq<Node>)
    requires Closed(g) && InGraph(g, seen) && (t == null || (t in g && t in seen))
    ensures Visited(g, t, seen, seen)
  {
  }

  lemma VisitExtends(g: Graph, t: Node?, seen: seq<Node>, r: seq<Node>)
    requires Visited(g, t, seen, r)
    ensures seen <= r && InGraph(g, r)
  {
  }

  lemma ThreeVisited(g: Graph, s: Shape, o1: seq<Node>, o2: seq<Node>, o3: seq<Node>, o4: seq<Node>)
    requires EdgesIn(g, s)
    requires Visited(g, s.left, o1, o2) && Visited(g, s.extra, o2, o3) && Visited(g, RightOf(s), o3, o4)
    ensures SinglesVisited(g, s, o1, o4)
  {
    hide Visit;
  }

  lemma NodeVisited(g: Graph, n: Node, seen: seq<Node>, o1: seq<Node>, o2: seq<Node>)
    requires n in g && n !in seen && InGraph(g, seen)
    requires SinglesVisited(g, g[n], seen + [n], o1) && AllVisited(g, g[n].children, o1, o2)
    ensures Visited(g, n, seen, o2)
  {
    hide VisitSingles, VisitAll;
  }

  lemma NoneVisited(g: Graph, ts: seq<Node?>, seen: seq<Node>)
    requires Closed(g) && InGraph(g, seen) && TargetsIn(g, ts)
    ensures AllVisited(g, ts[..0], seen, seen)
  {
  }

  lemma {:induction false} OneMoreVisited(g: Graph, ts: seq<Node?>, k: nat, seen: seq<Node>,
                                          o1: seq<Node>, o2: seq<Node>)
    requires k < |ts| && TargetsIn(g, ts) && AllVisited(g, ts[..k], seen, o1) && Visited(g, ts[k], o1, o2)
    ensures AllVisited(g, ts[..k + 1], seen, o2)
    decreases k
  {
    hide Visit;
    if k == 0 {
      assert ts[..1][1..] == [] && ts[..1][0] == ts[0] && o1 == seen;
      assert VisitAll(g, ts[..1], seen) == VisitAll(g, [], Visit(g, ts[0], seen));
    } else {
      var first := Visit(g, ts[0], seen);
      assert ts[..k][1..] == ts[1..][..k - 1] && ts[..k + 1][1..] == ts[1..][..k];
      assert forall t :: t in ts[1..] ==> t in ts;
      OneMoreVisited(g, ts[1..], k - 1, first, o1, o2);
      assert ts[0] in ts;
    }
  }

  // ---- the order in which copies are given their parents

  /** The copy of `parent` becomes the parent of that of `child`. */
  datatype Link = Link(parent: Node, child: Node)

  ghost function OneLink(n: Node, t: Node?): (l: seq<Link>)
  {
    if t == null then [] else [Link(n, t)]
  }

  /** The links a copy makes when `seen` had been come to and `t` is asked for: a node's single edges are linked behind
      all that they lead to, a child behind what it leads to. */
  ghost function Links(g: Graph, t: Node?, seen: seq<Node>): (l: seq<Link>)
    requires Closed(g) && InGraph(g, seen) && (t == null || t in g)
    decreases Left(g, seen), 1, 0
  {
    if t == null || t in seen then []
    else
      ClosedEdges(g, t);
      LeftShrinks(g, seen, t);
      var singles := VisitSingles(g, g[t], seen + [t]);
      LeftFalls(g, seen + [t], singles);
      LinksOfSingles(g, g[t], seen + [t]) + OwnLinks(t, g[t]) + LinksOfAll(g, t, g[t].children, singles)
  }

  ghost function OwnLinks(n: Node, s: Shape): seq<Link>
  {
    OneLink(n, s.left) + OneLink(n, RightOf(s)) + OneLink(n, s.extra)
  }

  ghost function LinksOfSingles(g: Graph, s: Shape, seen: seq<Node>): (l: seq<Link>)
    requires Closed(g) && InGraph(g, seen) && EdgesIn(g, s)
    decreases Left(g, seen), 2, 0
  {
    assert s.left in [s.left, s.extra, RightOf(s)] && s.extra in [s.left, s.extra, RightOf(s)];
    assert RightOf(s) in [s.left, s.extra, RightOf(s)];
    var left := Visit(g, s.left, seen);
    LeftFalls(g, seen, left);
    var extra := Visit(g, s.extra, left);
    LeftFalls(g, seen, extra);
    Links(g, s.left, seen) + Links(g, s.extra, left) + Links(g, RightOf(s), extra)
  }

  ghost function LinksOfAll(g: Graph, n: Node, ts: seq<Node?>, seen: seq<Node>): (l: seq<Link>)
    requires Closed(g) && InGraph(g, seen) && TargetsIn(g, ts)
    decreases Left(g, seen), 2, |ts|
  {
    if ts == [] then []
    else
      assert ts[0] in ts && forall t :: t in ts[1..] ==> t in ts;
      var first := Visit(g, ts[0], seen);
      LeftFalls(g, seen, first);
      Links(g, ts[0], seen) + OneLink(n, ts[0]) + LinksOfAll(g, n, ts[1..], first)
  }

  // ---- what one call of the copy does to the links

  ghost predicate LinksMade(g: Graph, t: Node?, seen: seq<Node>, l: seq<Link>, l': seq<Link>)
  {
    Closed(g) && InGraph(g, seen) && (t == null || t in g) && l' == l + Links(g, t, seen)
  }

  ghost predicate SinglesLinksMade(g: Graph, s: Shape, seen: seq<Node>, l: seq<Link>, l': seq<Link>)
  {
    Closed(g) && InGraph(g, seen) && EdgesIn(g, s) && l' == l + LinksOfSingles(g, s, seen)
  }

  ghost predicate AllLinksMade(g: Graph, n: Node, ts: seq<Node?>, seen: seq<Node>, l: seq<Link>, l': seq<Link>)
  {
    Closed(g) && InGraph(g, seen) && TargetsIn(g, ts) && l' == l + LinksOfAll(g, n, ts, seen)
  }

  lemma Regrouped(l: seq<Link>, a: seq<Link>, b: seq<Link>, c: seq<Link>)
    ensures l + a + b + c == l + (a + b + c)
  {
  }

  lemma NoLinksMade(g: Graph, t: Node?, seen: seq<Node>, l: seq<Link>)
    requires Closed(g) && InGraph(g, seen) && (t == null || (t in g && t in seen))
    ensures LinksMade(g, t, seen, l, l)
  {
    assert l + [] == l;
  }

  lemma ThreeLinksMade(g: Graph, s: Shape, o1: seq<Node>, o2: seq<Node>, o3: seq<Node>,
                       l1: seq<Link>, l2: seq<Link>, l3: seq<Link>, l4: seq<Link>)
    requires EdgesIn(g, s) && Visited(g, s.left, o1, o2) && Visited(g, s.extra, o2, o3)
    requires LinksMade(g, s.left, o1, l1, l2) && LinksMade(g, s.extra, o2, l2, l3)
    requires LinksMade(g, RightOf(s), o3, l3, l4)
    ensures SinglesLinksMade(g, s, o1, l1, l4)
  {
    hide Visit, Links;
    Regrouped(l1, Links(g, s.left, o1), Links(g, s.extra, o2), Links(g, RightOf(s), o3));
  }

  lemma NodeLinksMade(g: Graph, n: Node, seen: seq<Node>, o1: seq<Node>,
                      l: seq<Link>, l1: seq<Link>, l2: seq<Link>)
    requires n in g && n !in seen && InGraph(g, seen) && SinglesVisited(g, g[n], seen + [n], o1)
    requires SinglesLinksMade(g, g[n], seen + [n], l, l1)
    requires AllLinksMade(g, n, g[n].children, o1, l1 + OwnLinks(n, g[n]), l2)
    ensures LinksMade(g, n, seen, l, l2)
  {
    hide VisitSingles, LinksOfSingles, LinksOfAll, OwnLinks;
    Regrouped(l, LinksOfSingles(g, g[n], seen + [n]), OwnLinks(n, g[n]), LinksOfAll(g, n, g[n].children, o1));
  }

  lemma NoChildLinksMade(g: Graph, n: Node, ts: seq<Node?>, seen: seq<Node>, l: seq<Link>)
    requires Closed(g) && InGraph(g, seen) && TargetsIn(g, ts)
    ensures AllLinksMade(g, n, ts[..0], seen, l, l)
  {
    assert l + [] == l;
  }

  lemma LinksMadeSnoc(g: Graph, n: Node, ts: seq<Node?>, t: Node?, seen: seq<Node>, o1: seq<Node>,
                      l: seq<Link>, l1: seq<Link>, l2: seq<Link>)
    requires TargetsIn(g, ts + [t]) && AllVisited(g, ts, seen, o1)
    requires AllLinksMade(g, n, ts, seen, l, l1) && LinksMade(g, t, o1, l1, l2)
    ensures AllLinksMade(g, n, ts + [t], seen, l, l2 + OneLink(n, t))
  {
    LinksSnoc(g, n, ts, t, seen);
    hide Visit, Links, LinksOfAll, VisitAll, OneLink, Closed, InGraph, TargetsIn;
    Regrouped(l, LinksOfAll(g, n, ts, seen), Links(g, t, o1), OneLink(n, t));
  }

  lemma OneMoreLinksMade(g: Graph, n: Node, ts: seq<Node?>, k: nat, seen: seq<Node>, o1: seq<Node>,
                         l: seq<Link>, l1: seq<Link>, l2: seq<Link>)
    requires k < |ts| && TargetsIn(g, ts) && AllVisited(g, ts[..k], seen, o1)
    requires AllLinksMade(g, n, ts[..k], seen, l, l1) && LinksMade(g, ts[k], o1, l1, l2)
    ensures AllLinksMade(g, n, ts[..k + 1], seen, l, l2 + OneLink(n, ts[k]))
  {
    assert TargetsIn(g, ts[..k + 1]);
    hide *;
    assert ts[..k + 1] == ts[..k] + [ts[k]];
    LinksMadeSnoc(g, n, ts[..k], ts[k], seen, o1, l, l1, l2);
  }

  lemma FirstLinks(g: Graph, n: Node, ts: seq<Node?>, seen: seq<Node>)
    requires Closed(g) && InGraph(g, seen) && TargetsIn(g, ts) && ts != []
    ensures (ts[0] == null || ts[0] in g) && TargetsIn(g, ts[1..]) && InGraph(g, Visit(g, ts[0], seen))
    ensures LinksOfAll(g, n, ts, seen) ==
      Links(g, ts[0], seen) + OneLink(n, ts[0]) + LinksOfAll(g, n, ts[1..], Visit(g, ts[0], seen))
    ensures VisitAll(g, ts, seen) == VisitAll(g, ts[1..], Visit(g, ts[0], seen))
  {
    assert ts[0] in ts && forall t :: t in ts[1..] ==> t in ts;
    hide Visit, Links, OneLink, Closed;
  }

  lemma NoTargetLinks(g: Graph, n: Node, seen: seq<Node>)
    requires Closed(g) && InGraph(g, seen)
    ensures LinksOfAll(g, n, [], seen) == [] && VisitAll(g, [], seen) == seen
  {
  }

  lemma TargetsSnoc(g: Graph, ts: seq<Node?>, t: Node?)
    requires TargetsIn(g, ts + [t])
    ensures TargetsIn(g, ts) && (t == null || t in g) && TargetsIn(g, [t]) && (ts != [] ==> TargetsIn(g, ts[1..] + [t]))
  {
    assert t in ts + [t] && forall u :: u in ts ==> u in ts + [t];
  }

  lemma {:induction false} LinksSnoc(g: Graph, n: Node, ts: seq<Node?>, t: Node?, seen: seq<Node>)
    requires Closed(g) && InGraph(g, seen) && TargetsIn(g, ts + [t])
    ensures TargetsIn(g, ts) && (t == null || t in g) && InGraph(g, VisitAll(g, ts, seen))
    ensures LinksOfAll(g, n, ts + [t], seen) ==
      LinksOfAll(g, n, ts, seen) + Links(g, t, VisitAll(g, ts, seen)) + OneLink(n, t)
    decreases |ts|
  {
    hide *;
    TargetsSnoc(g, ts, t);
    FirstLinks(g, n, ts + [t], seen);
    if ts == [] {
      assert (ts + [t])[1..] == [] && ts + [t] == [t];
      NoTargetLinks(g, n, seen);
      NoTargetLinks(g, n, Visit(g, t, seen));
    } else {
      var first, rest := Visit(g, ts[0], seen), ts[1..];
      assert (ts + [t])[1..] == rest + [t];
      FirstLinks(g, n, ts, seen);
      LinksSnoc(g, n, rest, t, first);
    }
  }

  // ---- the links are the edges followed

  /** The link goes along an edge of a node that is come to on the way from `seen` to `r`. */
  ghost predicate AlongEdge(g: Graph, seen: seq<Node>, r: seq<Node>, l: Link)
  {
    l.parent in r && l.parent !in seen && l.parent in g && Follows(g[l.parent], l.child)
  }

  lemma EdgesInParts(g: Graph, a: seq<Node>, b: seq<Node>, c: seq<Node>, l: Link)
    requires a <= b <= c
    ensures AlongEdge(g, a, c, l) <==> AlongEdge(g, a, b, l) || AlongEdge(g, b, c, l)
  {
    assert (forall n :: n in a ==> n in b) && forall n :: n in b ==> n in c;
    hide Follows;
  }

  lemma NoEdges(g: Graph, a: seq<Node>, l: Link)
    ensures !AlongEdge(g, a, a, l)
  {
  }

  /** The links a copy makes are the edges it follows out of the nodes it comes to. */
  lemma {:induction false} LinksAreEdges(g: Graph, t: Node?, seen: seq<Node>, l: Link)
    requires Closed(g) && InGraph(g, seen) && (t == null || t in g)
    ensures l in Links(g, t, seen) <==> AlongEdge(g, seen, Visit(g, t, seen), l)
    decreases Left(g, seen), 1, 0
  {
    if t == null || t in seen {
      NoEdges(g, seen, l);
    } else {
      ClosedEdges(g, t);
      LeftShrinks(g, seen, t);
      var singles := VisitSingles(g, g[t], seen + [t]);
      LeftFalls(g, seen + [t], singles);
      LinksOfSinglesAre(g, g[t], seen + [t], l);
      LinksOfAllAre(g, t, g[t].children, singles, l);
      hide VisitSingles, VisitAll, LinksOfSingles, LinksOfAll, Closed, AlongEdge;
      var r := Visit(g, t, seen);
      EdgesInParts(g, seen + [t], singles, r, l);
      EdgesInParts(g, seen, seen + [t], r, l);
      OwnEdges(g, t, seen, l);
    }
  }

  lemma OwnEdges(g: Graph, t: Node, seen: seq<Node>, l: Link)
    requires t in g && t !in seen
    ensures AlongEdge(g, seen, seen + [t], l) <==>
      l in OwnLinks(t, g[t]) || (l.parent == t && l.child in g[t].children)
  {
  }

  lemma {:induction false} LinksOfSinglesAre(g: Graph, s: Shape, seen: seq<Node>, l: Link)
    requires Closed(g) && InGraph(g, seen) && EdgesIn(g, s)
    ensures l in LinksOfSingles(g, s, seen) <==> AlongEdge(g, seen, VisitSingles(g, s, seen), l)
    decreases Left(g, seen), 2, 0
  {
    assert s.left in [s.left, s.extra, RightOf(s)] && s.extra in [s.left, s.extra, RightOf(s)];
    assert RightOf(s) in [s.left, s.extra, RightOf(s)];
    var left := Visit(g, s.left, seen);
    LeftFalls(g, seen, left);
    var extra := Visit(g, s.extra, left);
    LeftFalls(g, seen, extra);
    LinksAreEdges(g, s.left, seen, l);
    LinksAreEdges(g, s.extra, left, l);
    LinksAreEdges(g, RightOf(s), extra, l);
    hide Visit, Links, Closed, AlongEdge;
    EdgesInParts(g, seen, left, extra, l);
    EdgesInParts(g, seen, extra, VisitSingles(g, s, seen), l);
  }

  lemma {:induction false} LinksOfAllAre(g: Graph, n: Node, ts: seq<Node?>, seen: seq<Node>, l: Link)
    requires Closed(g) && InGraph(g, seen) && TargetsIn(g, ts)
    ensures l in LinksOfAll(g, n, ts, seen) <==>
      (l.parent == n && l.child in ts) || AlongEdge(g, seen, VisitAll(g, ts, seen), l)
    decreases Left(g, seen), 2, |ts|
  {
    if ts == [] {
      NoEdges(g, seen, l);
    } else {
      assert ts[0] in ts && forall t :: t in ts[1..] ==> t in ts;
      var first := Visit(g, ts[0], seen);
      LeftFalls(g, seen, first);
      LinksAreEdges(g, ts[0], seen, l);
      LinksOfAllAre(g, n, ts[1..], first, l);
      hide Visit, Links, Closed, AlongEdge;
      EdgesInParts(g, seen, first, VisitAll(g, ts, seen), l);
      assert ts == [ts[0]] + ts[1..];
    }
  }
}
