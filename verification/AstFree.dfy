/** freeAST and freeTypeTableASTNodes (src/ast/ast.c:551-649, 2231-2262): which nodes are
    released, in what order, and when a released node would be touched again. */
module AstFree {
  import opened AstGraph
  import opened Wrappers

  /** What the walk gives back to the allocator. */
  datatype Released = ReleasedNode(node: Node) | ReleasedList(list: UnitList)

  ghost function One(n: Node?, when: bool): seq<Node>
  {
    if n != null && when then [n] else []
  }

  /** The children that are not the target of a single edge walked before them. */
  ghost function ChildCalls(walked: set<Node?>, children: seq<Node?>): seq<Node>
  {
    if children == [] then []
    else One(children[0], children[0] !in walked) + ChildCalls(walked, children[1..])
  }

  ghost function WalkedEdges(s: Shape): set<Node?>
  {
    {s.extra} + (if s.info.kind == TypeDecl then {} else {s.left})
    + (if s.info.kind == TypeReference then {} else {s.right})
  }

  /** The recursive calls made for a node of shape `s`, in order. */
  ghost function Calls(s: Shape): seq<Node>
  {
    One(s.left, s.info.kind != TypeDecl) + One(s.right, s.info.kind != TypeReference) + One(s.extra, true)
    + ChildCalls(WalkedEdges(s), s.children)
  }

  /** A child that a single edge has already led to is not walked a second time. */
  lemma {:induction false} WalkedChildSkipped(walked: set<Node?>, children: seq<Node?>, c: Node)
    ensures c in ChildCalls(walked, children) <==> c in children && c !in walked
  {
    if children != [] {
      WalkedChildSkipped(walked, children[1..], c);
    }
  }

  /** The edges of a node over which freeing it frees more: all but the left edge of a type declaration and the right
      edge of a type reference. */
  ghost predicate Descends(s: Shape, older c: Node)
  {
    || (c == s.left && s.info.kind != TypeDecl)
    || (c == s.right && s.info.kind != TypeReference)
    || c == s.extra
    || c in s.children
  }

  /** The calls are made for exactly those edges, also where an edge that is left out and a child name one node. */
  lemma CallsIff(s: Shape, c: Node)
    ensures c in Calls(s) <==>
      (c == s.left && s.info.kind != TypeDecl) || (c == s.right && s.info.kind != TypeReference) ||
      c == s.extra || c in s.children
  {
    WalkedChildSkipped(WalkedEdges(s), s.children, c);
  }

  ghost function NonNull(ts: seq<Node?>): seq<Node>
  {
    if ts == [] then [] else (if ts[0] == null then [] else [ts[0]]) + NonNull(ts[1..])
  }

  lemma {:induction false} NoChildWalked(walked: set<Node?>, children: seq<Node?>)
    requires forall c :: c in children && c != null ==> c !in walked
    ensures ChildCalls(walked, children) == NonNull(children)
  {
    if children != [] {
      assert children[0] in children && forall c :: c in children[1..] ==> c in children;
      NoChildWalked(walked, children[1..]);
    }
  }

  /** In order: left, right, extra, then the children one by one. */
  lemma CallsInOrder(s: Shape)
    requires forall c :: c in s.children && c != null ==> c != s.left && c != s.right && c != s.extra
    ensures s.info.kind != TypeDecl && s.info.kind != TypeReference ==>
      Calls(s) == NonNull([s.left]) + NonNull([s.right]) + NonNull([s.extra]) + NonNull(s.children)
    ensures s.info.kind == TypeDecl ==>
      Calls(s) == NonNull([s.right]) + NonNull([s.extra]) + NonNull(s.children)
    ensures s.info.kind == TypeReference ==>
      Calls(s) == NonNull([s.left]) + NonNull([s.extra]) + NonNull(s.children)
  {
    NoChildWalked(WalkedEdges(s), s.children);
    NonNullOne(s.left);
    NonNullOne(s.right);
    NonNullOne(s.extra);
    hide NonNull, ChildCalls;
  }

  lemma NonNullOne(t: Node?)
    ensures NonNull([t]) == One(t, true)
  {
    assert [t][1..] == [] && NonNull([]) == [];
  }

  ghost predicate CallsClosed(g: Graph)
  {
    forall n :: n in g ==> forall c :: c in Calls(g[n]) ==> c in g
  }

  /** What is released for the node itself, after its calls. */
  ghost function Own(n: Node, s: Shape): seq<Released>
  {
    (if s.info.kind == UsesClause && s.info.unitList != null then [ReleasedList(s.info.unitList)] else [])
    + [ReleasedNode(n)]
  }

  /** The walk itself: `gray` are the nodes being walked, `table` those the type table names,
      `dead` what has been released.  None when something released is touched again. */
  ghost function Walk(g: Graph, table: set<Node>, n: Node, gray: set<Node>, dead: seq<Released>): Option<seq<Released>>
    requires CallsClosed(g) && n in g
    decreases g.Keys - gray, 1, 0
  {
    if ReleasedNode(n) in dead then None
    else if n in gray || n in table then Some(dead)
    else
      assert g.Keys - (gray + {n}) < g.Keys - gray by { assert n in g.Keys - gray; }
      match WalkAll(g, table, Calls(g[n]), gray + {n}, dead)
      case None => None
      case Some(after) =>
        if g[n].info.kind == UsesClause && g[n].info.unitList != null && ReleasedList(g[n].info.unitList) in after
        then None else Some(after + Own(n, g[n]))
  }

  ghost function WalkAll(g: Graph, table: set<Node>, calls: seq<Node>, gray: set<Node>, dead: seq<Released>)
    : Option<seq<Released>>
    requires CallsClosed(g) && forall c :: c in calls ==> c in g
    decreases g.Keys - gray, 2, |calls|
  {
    if calls == [] then Some(dead)
    else
      match Walk(g, table, calls[0], gray, dead)
      case None => None
      case Some(after) => WalkAll(g, table, calls[1..], gray, after)
  }

  /** The releases of the walk if nothing ever stopped it but ancestors and the type table. */
  ghost function Trace(g: Graph, table: set<Node>, n: Node, gray: set<Node>): seq<Released>
    requires CallsClosed(g) && n in g
    decreases g.Keys - gray, 1, 0
  {
    if n in gray || n in table then []
    else
      assert g.Keys - (gray + {n}) < g.Keys - gray by { assert n in g.Keys - gray; }
      TraceAll(g, table, Calls(g[n]), gray + {n}) + Own(n, g[n])
  }

  ghost function TraceAll(g: Graph, table: set<Node>, calls: seq<Node>, gray: set<Node>): seq<Released>
    requires CallsClosed(g) && forall c :: c in calls ==> c in g
    decreases g.Keys - gray, 2, |calls|
  {
    if calls == [] then [] else Trace(g, table, calls[0], gray) + TraceAll(g, table, calls[1..], gray)
  }

  ghost predicate NoDup(s: seq<Released>)
  {
    forall i, j :: 0 <= i < j < |s| ==> s[i] != s[j]
  }

  ghost predicate Alive(nodes: set<Node>, dead: seq<Released>)
  {
    forall n :: n in nodes ==> ReleasedNode(n) !in dead
  }

  lemma {:induction false} TraceSpares(g: Graph, table: set<Node>, n: Node, gray: set<Node>)
    requires CallsClosed(g) && n in g
    ensures Alive(gray + table, Trace(g, table, n, gray))
    decreases g.Keys - gray, 1, 0
  {
    if n !in gray && n !in table {
      assert g.Keys - (gray + {n}) < g.Keys - gray by { assert n in g.Keys - gray; }
      TraceAllSpares(g, table, Calls(g[n]), gray + {n});
    }
  }

  lemma {:induction false} TraceAllSpares(g: Graph, table: set<Node>, calls: seq<Node>, gray: set<Node>)
    requires CallsClosed(g) && forall c :: c in calls ==> c in g
    ensures Alive(gray + table, TraceAll(g, table, calls, gray))
    decreases g.Keys - gray, 2, |calls|
  {
    if calls != [] {
      TraceSpares(g, table, calls[0], gray);
      TraceAllSpares(g, table, calls[1..], gray);
    }
  }

  lemma NoDupAppend(a: seq<Released>, b: seq<Released>)
    ensures NoDup(a + b) ==> NoDup(a)
    ensures NoDup(a + b) <==> (NoDup(a) && NoDup(b) && forall x :: x in b ==> x !in a)
  {
    var s := a + b;
    assert forall i :: 0 <= i < |a| ==> s[i] == a[i];
    assert forall i :: 0 <= i < |b| ==> s[|a| + i] == b[i];
    if NoDup(s) {
      forall i, j | 0 <= i < j < |b|
        ensures b[i] != b[j]
      {
        assert s[|a| + i] != s[|a| + j];
      }
    } else {
      var i, j :| 0 <= i < j < |s| && s[i] == s[j];
      if i < |a| && |a| <= j {
        assert b[j - |a|] in b && a[i] in a && a[i] == b[j - |a|];
      } else if |a| <= i {
        assert b[i - |a|] == b[j - |a|];
      }
    }
  }

  lemma OwnNoDup(dead: seq<Released>, n: Node, s: Shape)
    requires NoDup(dead) && ReleasedNode(n) !in dead
    ensures NoDup(dead + Own(n, s)) <==>
      !(s.info.kind == UsesClause && s.info.unitList != null && ReleasedList(s.info.unitList) in dead)
  {
    NoDupAppend(dead, Own(n, s));
    assert NoDup(Own(n, s));
  }

  lemma OwnReleased(dead: seq<Released>, below: seq<Released>, n: Node, s: Shape)
    requires ReleasedNode(n) !in dead && ReleasedNode(n) !in below
    ensures NoDup(dead + (below + Own(n, s))) <==>
      (NoDup(dead + below) &&
       !(s.info.kind == UsesClause && s.info.unitList != null && ReleasedList(s.info.unitList) in dead + below))
    ensures dead + (below + Own(n, s)) == dead + below + Own(n, s)
  {
    assert dead + (below + Own(n, s)) == dead + below + Own(n, s);
    NoDupAppend(dead + below, Own(n, s));
    if NoDup(dead + below) {
      OwnNoDup(dead + below, n, s);
    }
  }

  /** The walk touches nothing released exactly when its unfolding lists no object twice. */
  lemma {:induction false} WalkIffNoDup(g: Graph, table: set<Node>, n: Node, gray: set<Node>, dead: seq<Released>)
    requires CallsClosed(g) && n in g && NoDup(dead) && Alive(gray + table, dead)
    ensures Walk(g, table, n, gray, dead) ==
      if NoDup(dead + Trace(g, table, n, gray)) then Some(dead + Trace(g, table, n, gray)) else None
    decreases g.Keys - gray, 1, 0
  {
    if ReleasedNode(n) in dead {
      assert ReleasedNode(n) in Trace(g, table, n, gray);
      NoDupAppend(dead, Trace(g, table, n, gray));
    } else if n in gray || n in table {
      assert dead + [] == dead;
    } else {
      assert g.Keys - (gray + {n}) < g.Keys - gray by { assert n in g.Keys - gray; }
      var below := TraceAll(g, table, Calls(g[n]), gray + {n});
      WalkAllIffNoDup(g, table, Calls(g[n]), gray + {n}, dead);
      TraceAllSpares(g, table, Calls(g[n]), gray + {n});
      assert ReleasedNode(n) !in below by { assert n in gray + {n} + table; }
      OwnReleased(dead, below, n, g[n]);
      hide NoDup, Alive, Own, WalkAll, TraceAll, Calls;
    }
  }

  lemma {:induction false} WalkAllIffNoDup(g: Graph, table: set<Node>, calls: seq<Node>, gray: set<Node>,
                                           dead: seq<Released>)
    requires CallsClosed(g) && (forall c :: c in calls ==> c in g) && NoDup(dead) && Alive(gray + table, dead)
    ensures WalkAll(g, table, calls, gray, dead) ==
      if NoDup(dead + TraceAll(g, table, calls, gray)) then Some(dead + TraceAll(g, table, calls, gray)) else None
    decreases g.Keys - gray, 2, |calls|
  {
    if calls == [] {
      assert dead + [] == dead;
    } else {
      var first, rest := Trace(g, table, calls[0], gray), TraceAll(g, table, calls[1..], gray);
      WalkIffNoDup(g, table, calls[0], gray, dead);
      assert dead + first + rest == dead + (first + rest);
      NoDupAppend(dead + first, rest);
      if NoDup(dead + first) {
        TraceSpares(g, table, calls[0], gray);
        WalkAllIffNoDup(g, table, calls[1..], gray, dead + first);
      }
    }
  }

  /** A node that is both operands of its parent is released, then touched again: the guard in the
      node only helps while the node is still being walked. */
  lemma SharedOperandFails(g: Graph, table: set<Node>, n: Node, c: Node)
    requires CallsClosed(g) && n in g && n !in table && c !in table && c != n
    requires g[n].left == c && g[n].right == c && g[n].info.kind != TypeDecl && g[n].info.kind != TypeReference
    ensures Walk(g, table, n, {}, []) == None
  {
    var calls := Calls(g[n]);
    assert calls[0] == c && calls[1] == c && calls[1..][0] == c;
    assert n in g.Keys - {} && {} + {n} == {n};
    var once := Trace(g, table, c, {n});
    assert ReleasedNode(c) in once;
    var rest := TraceAll(g, table, calls[1..][1..], {n});
    assert TraceAll(g, table, calls[1..], {n}) == once + rest;
    assert TraceAll(g, table, calls, {n}) == once + (once + rest);
    WalkAllIffNoDup(g, table, calls, {n}, []);
    NoDupAppend(once, once + rest);
    assert [] + TraceAll(g, table, calls, {n}) == TraceAll(g, table, calls, {n});
  }

  lemma OwnLast(n: Node, s: Shape)
    ensures ReleasedNode(n) in Own(n, s) && forall k: Node :: ReleasedNode(k) in Own(n, s) ==> k == n
  {
  }

  /** What the walk releases it releases with everything its edges lead to, up to ancestors and the table. */
  lemma {:induction false} TraceClosed(g: Graph, table: set<Node>, n: Node, gray: set<Node>, x: Node, c: Node)
    requires CallsClosed(g) && n in g && x in g && Descends(g[x], c)
    requires ReleasedNode(x) in Trace(g, table, n, gray)
    ensures c in gray || c in table || ReleasedNode(c) in Trace(g, table, n, gray)
    decreases g.Keys - gray, 1, 0
  {
    CallsIff(g[x], c);
    hide Descends;
    assert forall k :: k in Calls(g[n]) ==> k in g;
    hide Calls, CallsClosed, Own;
    OwnLast(n, g[n]);
    assert g.Keys - (gray + {n}) < g.Keys - gray by { assert n in g.Keys - gray; }
    var below := TraceAll(g, table, Calls(g[n]), gray + {n});
    if ReleasedNode(x) in below {
      TraceAllClosed(g, table, Calls(g[n]), gray + {n}, x, c);
    } else {
      assert x == n;
      TraceAllReleases(g, table, Calls(g[n]), gray + {n}, c);
    }
  }

  lemma {:induction false} TraceAllClosed(g: Graph, table: set<Node>, calls: seq<Node>, gray: set<Node>,
                                          x: Node, c: Node)
    requires CallsClosed(g) && (forall k :: k in calls ==> k in g) && x in g && Descends(g[x], c)
    requires ReleasedNode(x) in TraceAll(g, table, calls, gray)
    ensures c in gray || c in table || ReleasedNode(c) in TraceAll(g, table, calls, gray)
    decreases g.Keys - gray, 2, |calls|
  {
    hide Descends;
    if ReleasedNode(x) in Trace(g, table, calls[0], gray) {
      TraceClosed(g, table, calls[0], gray, x, c);
    } else {
      TraceAllClosed(g, table, calls[1..], gray, x, c);
    }
  }

  lemma {:induction false} TraceAllReleases(g: Graph, table: set<Node>, calls: seq<Node>, gray: set<Node>, c: Node)
    requires CallsClosed(g) && (forall k :: k in calls ==> k in g) && c in calls
    ensures c in gray || c in table || ReleasedNode(c) in TraceAll(g, table, calls, gray)
    decreases |calls|
  {
    if c == calls[0] {
      assert c in gray || c in table || ReleasedNode(c) in Trace(g, table, c, gray);
    } else {
      TraceAllReleases(g, table, calls[1..], gray, c);
    }
  }

  // ---- what a walk reaches

  /** Over at most so many edges, none of the nodes on the way being an ancestor or named by the table. */
  ghost predicate Reached(g: Graph, table: set<Node>, gray: set<Node>, n: Node, x: Node, steps: nat)
    decreases steps
  {
    && n in g && n !in gray && n !in table
    && (x == n ||
        (steps > 0 && exists t :: t in g && Descends(g[n], t) && Reached(g, table, gray, t, x, steps - 1)))
  }

  lemma {:induction false} ReachedIsReleased(g: Graph, table: set<Node>, gray: set<Node>, n: Node, y: Node, x: Node,
                                             steps: nat)
    requires CallsClosed(g) && n in g && ReleasedNode(y) in Trace(g, table, n, gray)
    requires Reached(g, table, gray, y, x, steps)
    ensures ReleasedNode(x) in Trace(g, table, n, gray)
  {
    hide Descends, Trace, CallsClosed;
    if x != y {
      var t :| t in g && Descends(g[y], t) && Reached(g, table, gray, t, x, steps - 1);
      TraceClosed(g, table, n, gray, y, t);
      ReachedIsReleased(g, table, gray, n, t, x, steps - 1);
    }
  }

  lemma {:induction false} ReachedOverFewer(g: Graph, table: set<Node>, gray: set<Node>, more: set<Node>, n: Node,
                                            x: Node, steps: nat)
    requires gray <= more && Reached(g, table, more, n, x, steps)
    ensures Reached(g, table, gray, n, x, steps)
  {
    hide Descends;
    if x != n {
      var t :| t in g && Descends(g[n], t) && Reached(g, table, more, t, x, steps - 1);
      ReachedOverFewer(g, table, gray, more, t, x, steps - 1);
    }
  }

  lemma {:induction false} ReleasedIsReached(g: Graph, table: set<Node>, n: Node, gray: set<Node>, x: Node)
    returns (steps: nat)
    requires CallsClosed(g) && n in g && ReleasedNode(x) in Trace(g, table, n, gray)
    ensures Reached(g, table, gray, n, x, steps)
    decreases g.Keys - gray, 1, 0
  {
    hide CallsClosed, Calls, Own, Descends;
    OwnLast(n, g[n]);
    if x == n {
      steps := 0;
    } else {
      assert g.Keys - (gray + {n}) < g.Keys - gray by { assert n in g.Keys - gray; }
      CallsInGraph(g, n);
      var c, k := CalledIsReached(g, table, Calls(g[n]), gray + {n}, x);
      CallsIff(g[n], c);
      CallDescends(g[n], c);
      ReachedOverFewer(g, table, gray, gray + {n}, c, x, k);
      steps := k + 1;
    }
  }

  lemma CallsInGraph(g: Graph, n: Node)
    requires CallsClosed(g) && n in g
    ensures forall c :: c in Calls(g[n]) ==> c in g
  {
  }

  lemma CallDescends(s: Shape, c: Node)
    requires c in Calls(s)
    ensures Descends(s, c)
  {
    CallsIff(s, c);
    hide Calls;
  }

  lemma {:induction false} CalledIsReached(g: Graph, table: set<Node>, calls: seq<Node>, gray: set<Node>, x: Node)
    returns (c: Node, steps: nat)
    requires CallsClosed(g) && (forall k :: k in calls ==> k in g) && ReleasedNode(x) in TraceAll(g, table, calls, gray)
    ensures c in calls && c in g && Reached(g, table, gray, c, x, steps)
    decreases g.Keys - gray, 2, |calls|
  {
    hide CallsClosed, Calls, Own, Descends, Reached;
    if ReleasedNode(x) in Trace(g, table, calls[0], gray) {
      c := calls[0];
      steps := ReleasedIsReached(g, table, c, gray, x);
    } else {
      c, steps := CalledIsReached(g, table, calls[1..], gray, x);
    }
  }

  /** The unit list goes with its uses clause, and with nothing else. */
  lemma {:induction false} ListsReleased(g: Graph, table: set<Node>, n: Node, gray: set<Node>)
    requires CallsClosed(g) && n in g
    ensures forall l: UnitList :: ReleasedList(l) in Trace(g, table, n, gray) <==>
      exists x :: x in g && ReleasedNode(x) in Trace(g, table, n, gray) &&
        g[x].info.kind == UsesClause && g[x].info.unitList == l
    ensures forall x :: ReleasedNode(x) in Trace(g, table, n, gray) ==> x in g
    decreases g.Keys - gray, 1, 0
  {
    if n !in gray && n !in table {
      assert g.Keys - (gray + {n}) < g.Keys - gray by { assert n in g.Keys - gray; }
      ListsAllReleased(g, table, Calls(g[n]), gray + {n});
      OwnLast(n, g[n]);
      assert forall l: UnitList :: ReleasedList(l) in Own(n, g[n]) <==>
        g[n].info.kind == UsesClause && g[n].info.unitList == l;
      hide Calls, Own, CallsClosed, TraceAll;
    }
  }

  lemma {:induction false} ListsAllReleased(g: Graph, table: set<Node>, calls: seq<Node>, gray: set<Node>)
    requires CallsClosed(g) && forall c :: c in calls ==> c in g
    ensures forall l: UnitList :: ReleasedList(l) in TraceAll(g, table, calls, gray) <==>
      exists x :: x in g && ReleasedNode(x) in TraceAll(g, table, calls, gray) &&
        g[x].info.kind == UsesClause && g[x].info.unitList == l
    ensures forall x :: ReleasedNode(x) in TraceAll(g, table, calls, gray) ==> x in g
    decreases g.Keys - gray, 2, |calls|
  {
    if calls != [] {
      ListsReleased(g, table, calls[0], gray);
      ListsAllReleased(g, table, calls[1..], gray);
      hide Trace, CallsClosed;
    }
  }

  /** The nodes released are the nodes reached. */
  ghost predicate NodesReached(g: Graph, table: set<Node>, gray: set<Node>, n: Node, trace: seq<Released>)
  {
    forall x :: x in g ==>
      (ReleasedNode(x) in trace <==> exists steps: nat :: Reached(g, table, gray, n, x, steps))
  }

  /** The lists released are the unit lists of the uses clauses released. */
  ghost predicate ListsFollow(g: Graph, trace: seq<Released>)
  {
    && (forall r :: r in trace && r.ReleasedNode? ==> r.node in g)
    && (forall r :: r in trace && r.ReleasedList? ==>
          exists x ::
            x in g && ReleasedNode(x) in trace && g[x].info.kind == UsesClause && g[x].info.unitList == r.list)
    && forall x :: x in g && ReleasedNode(x) in trace ==>
         (g[x].info.kind == UsesClause && g[x].info.unitList != null ==> ReleasedList(g[x].info.unitList) in trace)
  }

  /** Between `dead` and `end` exactly the nodes reached have been released, and the unit lists of the uses clauses
      among them. */
  ghost predicate ReleasesReached(g: Graph, table: set<Node>, gray: set<Node>, n: Node,
                                  dead: seq<Released>, end: seq<Released>)
  {
    && dead <= end && NodesReached(g, table, gray, n, end[|dead|..]) && ListsFollow(g, end[|dead|..])
    && (n in g && dead != end ==> NodeComesLast(n, g[n], end[|dead|..]))
  }

  /** What a node leads to is released before it, its unit list immediately so. */
  ghost predicate NodeComesLast(n: Node, s: Shape, trace: seq<Released>)
  {
    && trace != [] && trace[|trace| - 1] == ReleasedNode(n)
    && (s.info.kind == UsesClause && s.info.unitList != null ==>
          |trace| > 1 && trace[|trace| - 2] == ReleasedList(s.info.unitList))
  }

  lemma TraceEnds(g: Graph, table: set<Node>, n: Node, gray: set<Node>)
    requires CallsClosed(g) && n in g
    ensures Trace(g, table, n, gray) == [] || NodeComesLast(n, g[n], Trace(g, table, n, gray))
  {
    hide CallsClosed, TraceAll;
  }

  /** A walk that touches nothing released appends its unfolding. */
  lemma {:induction false} WalkIsTrace(g: Graph, table: set<Node>, n: Node, gray: set<Node>, dead: seq<Released>)
    requires CallsClosed(g) && n in g && Walk(g, table, n, gray, dead).Some?
    ensures Walk(g, table, n, gray, dead).value == dead + Trace(g, table, n, gray)
    decreases g.Keys - gray, 1, 0
  {
    if n !in gray && n !in table {
      assert g.Keys - (gray + {n}) < g.Keys - gray by { assert n in g.Keys - gray; }
      WalkAllIsTrace(g, table, Calls(g[n]), gray + {n}, dead);
      var below := TraceAll(g, table, Calls(g[n]), gray + {n});
      assert dead + below + Own(n, g[n]) == dead + (below + Own(n, g[n]));
    }
  }

  lemma {:induction false} WalkAllIsTrace(g: Graph, table: set<Node>, calls: seq<Node>, gray: set<Node>,
                                          dead: seq<Released>)
    requires CallsClosed(g) && (forall c :: c in calls ==> c in g) && WalkAll(g, table, calls, gray, dead).Some?
    ensures WalkAll(g, table, calls, gray, dead).value == dead + TraceAll(g, table, calls, gray)
    decreases g.Keys - gray, 2, |calls|
  {
    if calls == [] {
      assert TraceAll(g, table, calls, gray) == [] && WalkAll(g, table, calls, gray, dead) == Some(dead);
      hide *;
      assert dead + [] == dead;
    } else {
      var first, rest := Trace(g, table, calls[0], gray), TraceAll(g, table, calls[1..], gray);
      assert TraceAll(g, table, calls, gray) == first + rest && Walk(g, table, calls[0], gray, dead).Some?;
      var after := Walk(g, table, calls[0], gray, dead).value;
      assert WalkAll(g, table, calls, gray, dead) == WalkAll(g, table, calls[1..], gray, after);
      hide *;
      WalkIsTrace(g, table, calls[0], gray, dead);
      WalkAllIsTrace(g, table, calls[1..], gray, after);
      assert dead + first + rest == dead + (first + rest);
    }
  }

  lemma TraceReaches(g: Graph, table: set<Node>, n: Node, gray: set<Node>)
    requires CallsClosed(g) && n in g
    ensures NodesReached(g, table, gray, n, Trace(g, table, n, gray))
  {
    hide Trace, CallsClosed, Reached;
    var trace := Trace(g, table, n, gray);
    forall x | x in g && ReleasedNode(x) in trace
      ensures exists steps: nat :: Reached(g, table, gray, n, x, steps)
    {
      var steps := ReleasedIsReached(g, table, n, gray, x);
    }
    forall x, steps: nat | x in g && Reached(g, table, gray, n, x, steps)
      ensures ReleasedNode(x) in trace
    {
      RootIsReleased(g, table, gray, n, x, steps);
      ReachedIsReleased(g, table, gray, n, n, x, steps);
    }
  }

  lemma TraceListsFollow(g: Graph, table: set<Node>, n: Node, gray: set<Node>)
    requires CallsClosed(g) && n in g
    ensures ListsFollow(g, Trace(g, table, n, gray))
  {
    hide Trace, CallsClosed;
    ListsReleased(g, table, n, gray);
    var trace := Trace(g, table, n, gray);
    forall r | r in trace
      ensures r.ReleasedNode? ==> r.node in g
      ensures r.ReleasedList? ==>
        exists x :: x in g && ReleasedNode(x) in trace && g[x].info.kind == UsesClause && g[x].info.unitList == r.list
    {
      match r
      case ReleasedNode(x) => assert ReleasedNode(x) in trace;
      case ReleasedList(l) => assert ReleasedList(l) in trace;
    }
  }

  lemma WalkReleases(g: Graph, table: set<Node>, n: Node, gray: set<Node>, dead: seq<Released>)
    requires CallsClosed(g) && n in g && Walk(g, table, n, gray, dead).Some?
    ensures ReleasesReached(g, table, gray, n, dead, Walk(g, table, n, gray, dead).value)
  {
    hide Walk, Trace, CallsClosed, NodesReached, ListsFollow, NodeComesLast;
    WalkIsTrace(g, table, n, gray, dead);
    var trace := Trace(g, table, n, gray);
    assert (dead + trace)[|dead|..] == trace && (trace == [] ==> dead + trace == dead);
    TraceEnds(g, table, n, gray);
    TraceReaches(g, table, n, gray);
    TraceListsFollow(g, table, n, gray);
  }

  lemma RootIsReleased(g: Graph, table: set<Node>, gray: set<Node>, n: Node, x: Node, steps: nat)
    requires CallsClosed(g) && Reached(g, table, gray, n, x, steps)
    ensures n in g && ReleasedNode(n) in Trace(g, table, n, gray)
  {
    OwnLast(n, g[n]);
  }

  /** The type table: its entries name the roots it owns, several possibly the same one. */
  class TypeTable {
    var roots: seq<Node?>

    constructor (roots: seq<Node?>)
      ensures this.roots == roots
    {
      this.roots := roots;
    }

    ghost function Named(): (named: set<Node>)
      reads this
    {
      set n: Node? | n in roots && n != null
    }

    method IsNodeInTypeTable(node: Node) returns (found: bool)
      ensures found <==> node in Named()
    {
      for i := 0 to |roots|
        invariant node !in roots[..i]
      {
        if roots[i] == node {
          return true;
        }
      }
      return false;
    }
  }

  /** The allocator: what has been released so far, in order. */
  class Allocator {
    ghost var released: seq<Released>

    constructor ()
      ensures released == []
    {
      released := [];
    }

    ghost method Release(r: Released)
      requires r !in released
      modifies this
      ensures released == old(released) + [r]
    {
      released := released + [r];
    }
  }

  /** Nodes neither being walked nor released are as they were; those being walked carry the guard. */
  ghost predicate Untouched(g: Graph, gray: set<Node>, dead: seq<Released>)
    reads g.Keys
  {
    forall n :: n in g && ReleasedNode(n) !in dead ==>
      if n in gray then n.freed else n.Snapshot() == g[n] && !n.freed
  }

  /** `calls` are still to be made, and making them ends with `end` released. */
  ghost predicate Remaining(g: Graph, table: set<Node>, calls: seq<Node>, gray: set<Node>,
                            dead: seq<Released>, end: seq<Released>)
    requires CallsClosed(g)
  {
    (forall c :: c in calls ==> c in g) && WalkAll(g, table, calls, gray, dead) == Some(end)
  }

  lemma PeelCall(g: Graph, table: set<Node>, t: Node?, when: bool, rest: seq<Node>, gray: set<Node>,
                 dead: seq<Released>, end: seq<Released>)
    requires CallsClosed(g) && Remaining(g, table, One(t, when) + rest, gray, dead, end)
    ensures if t != null && when
            then t in g && Walk(g, table, t, gray, dead).Some? &&
                 Remaining(g, table, rest, gray, Walk(g, table, t, gray, dead).value, end)
            else Remaining(g, table, rest, gray, dead, end)
  {
    var calls := One(t, when) + rest;
    assert forall c :: c in rest ==> c in calls;
    if t != null && when {
      assert calls[0] == t && calls[1..] == rest;
    } else {
      assert calls == rest;
    }
  }

  /** What a call leaves alone: the nodes being walked. */
  twostate predicate Kept(gray: set<Node>)
    reads gray
  {
    forall n :: n in gray ==> n.Snapshot() == old(n.Snapshot())
  }

  /** One edge of the node being walked. */
  method FreeEdge(t: Node?, walk: bool, table: TypeTable, alloc: Allocator,
                  ghost rest: seq<Node>, ghost g: Graph, ghost gray: set<Node>, ghost end: seq<Released>)
    requires CallsClosed(g) && gray <= g.Keys && Untouched(g, gray, alloc.released) && Alive(gray, alloc.released)
    requires Remaining(g, table.Named(), One(t, walk) + rest, gray, alloc.released, end)
    modifies g.Keys, alloc
    ensures Untouched(g, gray, alloc.released) && Alive(gray, alloc.released) && Kept(gray)
    ensures Remaining(g, table.Named(), rest, gray, alloc.released, end)
    decreases g.Keys - gray, 2
  {
    PeelCall(g, table.Named(), t, walk, rest, gray, alloc.released, end);
    if t != null && walk {
      FreeAST(t, table, alloc, g, gray);
    }
  }

  method FreeAST(node: Node?, table: TypeTable, alloc: Allocator, ghost g: Graph, ghost gray: set<Node>)
    requires CallsClosed(g) && gray <= g.Keys && Untouched(g, gray, alloc.released) && Alive(gray, alloc.released)
    requires node != null ==> node in g && Walk(g, table.Named(), node, gray, alloc.released).Some?
    modifies g.Keys, alloc
    ensures Untouched(g, gray, alloc.released) && Alive(gray, alloc.released) && Kept(gray)
    ensures node == null ==> alloc.released == old(alloc.released)
    ensures node != null ==> Walk(g, table.Named(), node, gray, old(alloc.released)) == Some(alloc.released)
    ensures node != null ==> ReleasesReached(g, table.Named(), gray, node, old(alloc.released), alloc.released)
    decreases g.Keys - gray, 1
  {
    if node == null {
      return;
    }
    hide ReleasesReached;
    WalkReleases(g, table.Named(), node, gray, alloc.released);
    assert ReleasedNode(node) !in alloc.released;
    if node.freed {
      return;
    }
    var registered := table.IsNodeInTypeTable(node);
    if registered {
      return;
    }
    node.freed := true;
    WalkNode(node, table, alloc, g, gray);
  }

  method FreeLeft(node: Node, walk: bool, table: TypeTable, alloc: Allocator,
                  ghost rest: seq<Node>, ghost g: Graph, ghost gray: set<Node>, ghost end: seq<Released>)
    requires CallsClosed(g) && gray <= g.Keys && Untouched(g, gray, alloc.released) && Alive(gray, alloc.released)
    requires node in gray && Remaining(g, table.Named(), One(node.left, walk) + rest, gray, alloc.released, end)
    modifies g.Keys, alloc
    ensures Untouched(g, gray, alloc.released) && Alive(gray, alloc.released) && Kept(gray - {node})
    ensures Remaining(g, table.Named(), rest, gray, alloc.released, end)
    ensures node.Snapshot() == old(node.Snapshot()).(left := null)
    decreases g.Keys - gray, 3
  {
    FreeEdge(node.left, walk, table, alloc, rest, g, gray, end);
    node.left := null;
  }

  method FreeRight(node: Node, walk: bool, table: TypeTable, alloc: Allocator,
                  ghost rest: seq<Node>, ghost g: Graph, ghost gray: set<Node>, ghost end: seq<Released>)
    requires CallsClosed(g) && gray <= g.Keys && Untouched(g, gray, alloc.released) && Alive(gray, alloc.released)
    requires node in gray && Remaining(g, table.Named(), One(node.right, walk) + rest, gray, alloc.released, end)
    modifies g.Keys, alloc
    ensures Untouched(g, gray, alloc.released) && Alive(gray, alloc.released) && Kept(gray - {node})
    ensures Remaining(g, table.Named(), rest, gray, alloc.released, end)
    ensures node.Snapshot() == old(node.Snapshot()).(right := null)
    decreases g.Keys - gray, 3
  {
    FreeEdge(node.right, walk, table, alloc, rest, g, gray, end);
    node.right := null;
  }

  method FreeExtra(node: Node, walk: bool, table: TypeTable, alloc: Allocator,
                  ghost rest: seq<Node>, ghost g: Graph, ghost gray: set<Node>, ghost end: seq<Released>)
    requires CallsClosed(g) && gray <= g.Keys && Untouched(g, gray, alloc.released) && Alive(gray, alloc.released)
    requires node in gray && Remaining(g, table.Named(), One(node.extra, walk) + rest, gray, alloc.released, end)
    modifies g.Keys, alloc
    ensures Untouched(g, gray, alloc.released) && Alive(gray, alloc.released) && Kept(gray - {node})
    ensures Remaining(g, table.Named(), rest, gray, alloc.released, end)
    ensures node.Snapshot() == old(node.Snapshot()).(extra := null)
    decreases g.Keys - gray, 3
  {
    FreeEdge(node.extra, walk, table, alloc, rest, g, gray, end);
    node.extra := null;
  }

  method FreeChildren(node: Node, walked: set<Node?>, table: TypeTable, alloc: Allocator,
                      ghost g: Graph, ghost gray: set<Node>, ghost end: seq<Released>)
    requires CallsClosed(g) && gray <= g.Keys && Untouched(g, gray, alloc.released) && Alive(gray, alloc.released)
    requires node in gray && Remaining(g, table.Named(), ChildCalls(walked, node.children), gray, alloc.released, end)
    modifies g.Keys, alloc
    ensures Untouched(g, gray, alloc.released) && Alive(gray, alloc.released) && Kept(gray - {node})
    ensures alloc.released == end
    ensures node.Snapshot() == old(node.Snapshot()).(children := [])
    decreases g.Keys - gray, 4
  {
    ghost var kids, shape := node.children, node.Snapshot();
    for i := 0 to |node.children|
      invariant Untouched(g, gray, alloc.released) && Alive(gray, alloc.released) && Kept(gray - {node})
      invariant |node.children| == |kids| && forall j :: i <= j < |kids| ==> node.children[j] == kids[j]
      invariant node.Snapshot() == shape.(children := node.children)
      invariant Remaining(g, table.Named(), ChildCalls(walked, kids[i..]), gray, alloc.released, end)
    {
      hide Remaining, Untouched, Walk, WalkAll, Calls, CallsClosed, Alive;
      var child := node.children[i];
      assert kids[i..][1..] == kids[i + 1..];
      FreeChild(node, i, child !in walked, table, alloc, ChildCalls(walked, kids[i + 1..]), g, gray, end);
    }
    node.children := [];
  }

  method FreeChild(node: Node, i: nat, walk: bool, table: TypeTable, alloc: Allocator,
                   ghost rest: seq<Node>, ghost g: Graph, ghost gray: set<Node>, ghost end: seq<Released>)
    requires CallsClosed(g) && gray <= g.Keys && Untouched(g, gray, alloc.released) && Alive(gray, alloc.released)
    requires node in gray && i < |node.children|
    requires Remaining(g, table.Named(), One(node.children[i], walk) + rest, gray, alloc.released, end)
    modifies g.Keys, alloc
    ensures Untouched(g, gray, alloc.released) && Alive(gray, alloc.released) && Kept(gray - {node})
    ensures Remaining(g, table.Named(), rest, gray, alloc.released, end)
    ensures node.Snapshot() == old(node.Snapshot()).(children := old(node.children)[i := null])
    decreases g.Keys - gray, 3
  {
    var child := node.children[i];
    node.children := node.children[i := null];
    FreeEdge(child, walk, table, alloc, rest, g, gray, end);
  }

  /** The unit list and then the node go back to the allocator. */
  method ReleaseNode(node: Node, alloc: Allocator, ghost g: Graph, ghost gray: set<Node>)
    requires node in g && node !in gray && gray <= g.Keys && node.info == g[node].info
    requires Untouched(g, gray + {node}, alloc.released) && Alive(gray + {node}, alloc.released)
    requires node.info.kind == UsesClause && node.info.unitList != null ==>
      ReleasedList(node.info.unitList) !in alloc.released
    modifies node, alloc
    ensures alloc.released == old(alloc.released) + Own(node, g[node])
    ensures Untouched(g, gray, alloc.released) && Alive(gray, alloc.released)
  {
    if node.info.kind == UsesClause && node.info.unitList != null {
      alloc.Release(ReleasedList(node.info.unitList));
      node.info := node.info.(unitList := null);
    }
    alloc.Release(ReleasedNode(node));
  }

  method FreeSingles(node: Node, walkLeft: bool, walkRight: bool, table: TypeTable, alloc: Allocator,
                     ghost kids: seq<Node>, ghost g: Graph, ghost gray: set<Node>, ghost end: seq<Released>)
    requires CallsClosed(g) && gray <= g.Keys && Untouched(g, gray, alloc.released) && Alive(gray, alloc.released)
    requires node in gray
    requires var calls := One(node.left, walkLeft) + (One(node.right, walkRight) + (One(node.extra, true) + kids));
      Remaining(g, table.Named(), calls, gray, alloc.released, end)
    modifies g.Keys, alloc
    ensures Untouched(g, gray, alloc.released) && Alive(gray, alloc.released) && Kept(gray - {node})
    ensures Remaining(g, table.Named(), kids, gray, alloc.released, end)
    ensures node.Snapshot() == old(node.Snapshot()).(left := null, right := null, extra := null)
    decreases g.Keys - gray, 4
  {
    hide Remaining, Untouched, CallsClosed, Alive;
    FreeLeft(node, walkLeft, table, alloc, One(node.right, walkRight) + (One(node.extra, true) + kids), g, gray, end);
    FreeRight(node, walkRight, table, alloc, One(node.extra, true) + kids, g, gray, end);
    FreeExtra(node, true, table, alloc, kids, g, gray, end);
  }

  /** The edges the walk of a node of shape `s` follows, split as the code does. */
  ghost function SplitCalls(s: Shape): seq<Node>
  {
    One(s.left, s.info.kind != TypeDecl) + (One(s.right, s.info.kind != TypeReference)
    + (One(s.extra, true) + ChildCalls(WalkedEdges(s), s.children)))
  }

  lemma WalkStarts(g: Graph, table: set<Node>, n: Node, gray: set<Node>, dead: seq<Released>)
    returns (end: seq<Released>)
    requires CallsClosed(g) && n in g && n !in gray && n !in table
    requires Walk(g, table, n, gray, dead).Some?
    ensures WalkAll(g, table, Calls(g[n]), gray + {n}, dead) == Some(end)
    ensures Remaining(g, table, SplitCalls(g[n]), gray + {n}, dead, end)
    ensures g.Keys - (gray + {n}) < g.Keys - gray && (gray + {n}) - {n} == gray
  {
    assert SplitCalls(g[n]) == Calls(g[n]);
    end := WalkAll(g, table, Calls(g[n]), gray + {n}, dead).value;
    assert n in g.Keys - gray;
  }

  /** The edges of a node that carries the guard: the single ones, then the children not yet walked. */
  method WalkEdges(node: Node, table: TypeTable, alloc: Allocator,
                   ghost g: Graph, ghost gray: set<Node>, ghost end: seq<Released>)
    requires CallsClosed(g) && gray <= g.Keys && Untouched(g, gray, alloc.released) && Alive(gray, alloc.released)
    requires node in gray && Remaining(g, table.Named(), SplitCalls(node.Snapshot()), gray, alloc.released, end)
    modifies g.Keys, alloc
    ensures Untouched(g, gray, alloc.released) && Alive(gray, alloc.released) && Kept(gray - {node})
    ensures alloc.released == end && node.info == old(node.info)
    decreases g.Keys - gray, 5
  {
    hide Remaining, Untouched, CallsClosed, Alive;
    var walkLeft, walkRight := node.info.kind != TypeDecl, node.info.kind != TypeReference;
    var walked := {node.extra} + (if walkLeft then {node.left} else {}) + (if walkRight then {node.right} else {});
    assert walked == WalkedEdges(node.Snapshot());
    FreeSingles(node, walkLeft, walkRight, table, alloc, ChildCalls(walked, node.children), g, gray, end);
    FreeChildren(node, walked, table, alloc, g, gray, end);
  }

  /** The walk of a node that now carries the guard, ending with its release. */
  method WalkNode(node: Node, table: TypeTable, alloc: Allocator, ghost g: Graph, ghost gray: set<Node>)
    requires CallsClosed(g) && gray <= g.Keys && node in g && node !in gray && node !in table.Named()
    requires Untouched(g, gray + {node}, alloc.released) && Alive(gray + {node}, alloc.released)
    requires node.Snapshot() == g[node].(freed := true)
    requires Walk(g, table.Named(), node, gray, alloc.released).Some?
    modifies g.Keys, alloc
    ensures Untouched(g, gray, alloc.released) && Alive(gray, alloc.released) && Kept(gray)
    ensures Walk(g, table.Named(), node, gray, old(alloc.released)) == Some(alloc.released)
    decreases g.Keys - gray, 0
  {
    ghost var named, dead := table.Named(), alloc.released;
    assert node.info == g[node].info;
    GuardKeepsCalls(g[node]);
    hide Remaining, Untouched, Walk, WalkAll, Calls, SplitCalls, CallsClosed, Alive;
    ghost var end := WalkStarts(g, named, node, gray, dead);
    WalkEdges(node, table, alloc, g, gray + {node}, end);
    WalkEnds(g, named, node, gray, dead, end);
    ReleaseNode(node, alloc, g, gray);
  }

  lemma GuardKeepsCalls(s: Shape)
    ensures SplitCalls(s.(freed := true)) == SplitCalls(s)
  {
  }

  lemma WalkEnds(g: Graph, table: set<Node>, n: Node, gray: set<Node>, dead: seq<Released>, end: seq<Released>)
    requires CallsClosed(g) && n in g && n !in gray && n !in table
    requires Walk(g, table, n, gray, dead).Some? && WalkAll(g, table, Calls(g[n]), gray + {n}, dead) == Some(end)
    ensures Walk(g, table, n, gray, dead) == Some(end + Own(n, g[n]))
    ensures g[n].info.kind == UsesClause && g[n].info.unitList != null ==> ReleasedList(g[n].info.unitList) !in end
  {
  }

  ghost function NamedBy(entries: seq<Node?>): set<Node>
  {
    set n: Node? | n in entries && n != null
  }

  /** Each entry is unlinked, then what it named is walked; the entries after it still protect theirs. */
  ghost function TearDown(g: Graph, entries: seq<Node?>, dead: seq<Released>): Option<seq<Released>>
    requires CallsClosed(g) && NamedBy(entries) <= g.Keys
  {
    if entries == [] then Some(dead)
    else
      assert forall n: Node? :: n in entries[1..] ==> n in entries;
      if entries[0] == null then TearDown(g, entries[1..], dead)
      else
        assert entries[0] in NamedBy(entries);
        match Walk(g, NamedBy(entries[1..]), entries[0], {}, dead)
        case None => None
        case Some(after) => TearDown(g, entries[1..], after)
  }

  ghost function TearTrace(g: Graph, entries: seq<Node?>): seq<Released>
    requires CallsClosed(g) && NamedBy(entries) <= g.Keys
  {
    if entries == [] then []
    else
      assert forall n: Node? :: n in entries[1..] ==> n in entries;
      (if entries[0] == null then []
       else assert entries[0] in NamedBy(entries); Trace(g, NamedBy(entries[1..]), entries[0], {}))
      + TearTrace(g, entries[1..])
  }

  /** Teardown touches nothing released exactly when no object is listed twice; which graphs those are is said by
      the owners of their nodes (AstTearDown). */
  lemma {:induction false} TearDownIffNoDup(g: Graph, entries: seq<Node?>, dead: seq<Released>)
    requires CallsClosed(g) && NamedBy(entries) <= g.Keys && NoDup(dead) && Alive(NamedBy(entries), dead)
    ensures TearDown(g, entries, dead) ==
      if NoDup(dead + TearTrace(g, entries)) then Some(dead + TearTrace(g, entries)) else None
  {
    if entries == [] {
      assert dead + [] == dead;
    } else {
      var later := NamedBy(entries[1..]);
      assert forall n: Node? :: n in entries[1..] ==> n in entries;
      assert later <= NamedBy(entries);
      if entries[0] == null {
        assert TearTrace(g, entries) == TearTrace(g, entries[1..]);
        TearDownIffNoDup(g, entries[1..], dead);
      } else {
        assert entries[0] in NamedBy(entries);
        var first, rest := Trace(g, later, entries[0], {}), TearTrace(g, entries[1..]);
        assert {} + later == later;
        assert TearTrace(g, entries) == first + rest;
        hide Walk, Trace, NoDup, CallsClosed, TearTrace;
        WalkIffNoDup(g, later, entries[0], {}, dead);
        assert dead + first + rest == dead + (first + rest);
        NoDupAppend(dead + first, rest);
        if NoDup(dead + first) {
          TraceSpares(g, later, entries[0], {});
          assert Alive(later, dead + first);
          TearDownIffNoDup(g, entries[1..], dead + first);
        }
      }
    }
  }

  /** Every root that the table names is released. */
  lemma {:induction false} RootsReleased(g: Graph, entries: seq<Node?>, n: Node)
    requires CallsClosed(g) && NamedBy(entries) <= g.Keys && n in entries
    ensures ReleasedNode(n) in TearTrace(g, entries)
  {
    assert forall k: Node? :: k in entries[1..] ==> k in entries;
    if n in entries[1..] {
      RootsReleased(g, entries[1..], n);
    } else {
      assert entries[0] == n && n !in NamedBy(entries[1..]);
      assert ReleasedNode(n) in Trace(g, NamedBy(entries[1..]), n, {});
    }
  }

  /** No leak: teardown releases, with every node, all that its edges lead to. */
  lemma {:induction false} TearDownLeaksNothing(g: Graph, entries: seq<Node?>, x: Node, c: Node)
    requires CallsClosed(g) && NamedBy(entries) <= g.Keys && x in g && Descends(g[x], c)
    requires ReleasedNode(x) in TearTrace(g, entries)
    ensures ReleasedNode(c) in TearTrace(g, entries)
  {
    hide Descends;
    assert forall k: Node? :: k in entries[1..] ==> k in entries;
    var later := NamedBy(entries[1..]);
    if ReleasedNode(x) in TearTrace(g, entries[1..]) {
      TearDownLeaksNothing(g, entries[1..], x, c);
    } else {
      TraceClosed(g, later, entries[0], {}, x, c);
      if c in later {
        RootsReleased(g, entries[1..], c);
      }
    }
  }

  /** Roots are freed one after the other while the whole table still protects what it names. */
  method FreeDefinitions(defs: seq<Node>, table: TypeTable, alloc: Allocator, ghost g: Graph)
    requires CallsClosed(g) && (forall d :: d in defs ==> d in g) && Untouched(g, {}, alloc.released)
    requires WalkAll(g, table.Named(), defs, {}, alloc.released).Some?
    modifies g.Keys, alloc
    ensures Untouched(g, {}, alloc.released)
    ensures WalkAll(g, table.Named(), defs, {}, old(alloc.released)) == Some(alloc.released)
  {
    ghost var end := WalkAll(g, table.Named(), defs, {}, alloc.released).value;
    for i := 0 to |defs|
      invariant Untouched(g, {}, alloc.released)
      invariant Remaining(g, table.Named(), defs[i..], {}, alloc.released, end)
    {
      assert defs[i..][0] == defs[i] && defs[i..][1..] == defs[i + 1..];
      FreeAST(defs[i], table, alloc, g, {});
    }
  }

  method FreeTypeTableASTNodes(table: TypeTable, alloc: Allocator, ghost g: Graph)
    requires CallsClosed(g) && table.Named() <= g.Keys && Untouched(g, {}, alloc.released)
    requires Alive(table.Named(), alloc.released) && NoDup(alloc.released + TearTrace(g, table.roots))
    modifies table, alloc, g.Keys
    ensures table.Named() == {} && Untouched(g, {}, alloc.released)
    ensures alloc.released == old(alloc.released) + TearTrace(g, old(table.roots)) && NoDup(alloc.released)
  {
    ghost var entries, start := table.roots, alloc.released;
    NoDupAppend(start, TearTrace(g, entries));
    TearDownIffNoDup(g, entries, start);
    for i := 0 to |table.roots|
      invariant |table.roots| == |entries| && table.roots[i..] == entries[i..]
      invariant forall j :: 0 <= j < i ==> table.roots[j] == null
      invariant NamedBy(entries[i..]) <= g.Keys && Untouched(g, {}, alloc.released)
      invariant TearDown(g, entries[i..], alloc.released) == Some(start + TearTrace(g, entries))
    {
      assert entries[i..][0] == entries[i] && entries[i..][1..] == entries[i + 1..];
      assert table.roots[i..][0] == entries[i];
      var typeAST := table.roots[i];
      if typeAST != null {
        table.roots := table.roots[i := null];
        NamedLater(table.roots, entries, i + 1);
        assert typeAST in NamedBy(entries[i..]);
        FreeAST(typeAST, table, alloc, g, {});
      }
    }
  }

  lemma NamedLater(roots: seq<Node?>, entries: seq<Node?>, i: nat)
    requires i <= |roots| == |entries| && (forall j :: 0 <= j < i ==> roots[j] == null)
    requires forall j :: i <= j < |entries| ==> roots[j] == entries[j]
    ensures (set n: Node? | n in roots && n != null) == NamedBy(entries[i..])
  {
    assert forall n: Node? :: n in entries[i..] ==> n in roots;
  }
}
