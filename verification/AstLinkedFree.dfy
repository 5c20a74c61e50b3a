/** Freeing a tree whose links are in order (src/ast/ast.c:551-649, 2198-2229): what is left to check for one walk. */
module AstLinkedFree {
  import opened AstGraph
  import opened AstCopy
  import opened AstFree
  import opened AstLinks
  import opened AstOwner
  import opened AstTearDown
  import opened Wrappers

  /** The walk from `n` comes to `d`. */
  ghost predicate Walked(g: Graph, rank: map<Node, nat>, table: set<Node>, n: Node, d: Node)
    requires Ranked(g, rank) && n in g
    decreases rank[n]
  {
    n !in table &&
    (d == n || exists t :: t in Calls(g[n]) && t in g && rank[t] < rank[n] && Walked(g, rank, table, t, d))
  }

  ghost function WalkedFrom(g: Graph, rank: map<Node, nat>, table: set<Node>, root: Node): set<Node>
    requires Ranked(g, rank) && root in g
  {
    set d | d in g && Walked(g, rank, table, root, d)
  }

  /** No node calls another twice, unless the table protects it. */
  ghost predicate CallsOnce(g: Graph, table: set<Node>, walked: set<Node>)
  {
    forall p, t :: p in walked && p in g && t in Calls(g[p]) && t !in table ==> multiset(Calls(g[p]))[t] == 1
  }

  ghost predicate ListsOnce(g: Graph, walked: set<Node>)
  {
    forall x, y :: x in walked && y in walked && x in g && y in g && x != y && ListOf(g[x]) != null ==>
      ListOf(g[x]) != ListOf(g[y])
  }

  lemma {:induction false} ChildCallsLead(walked: set<Node?>, children: seq<Node?>)
    ensures forall t :: t in ChildCalls(walked, children) ==> t in children
  {
    if children != [] { ChildCallsLead(walked, children[1..]); }
  }

  lemma CallsLead(s: Shape, t: Node)
    requires t in Calls(s)
    ensures LeadsTo(s, t)
  {
    ChildCallsLead(WalkedEdges(s), s.children);
  }

  lemma RankedCalls(g: Graph, rank: map<Node, nat>)
    requires Ranked(g, rank)
    ensures CallsClosed(g) && forall n, t :: n in g && t in Calls(g[n]) ==> t in g && rank[t] < rank[n]
  {
    hide Calls, LeadsTo;
    forall n, t | n in g && t in Calls(g[n])
      ensures t in g && rank[t] < rank[n]
    {
      CallsLead(g[n], t);
    }
  }

  lemma {:induction false} WalkedUnder(g: Graph, rank: map<Node, nat>, table: set<Node>, n: Node, d: Node)
    requires Ranked(g, rank) && n in g && Walked(g, rank, table, n, d)
    ensures Under(g, rank, n, d) && d in g && rank[d] <= rank[n] && d !in table
    decreases rank[n]
  {
    hide Calls, LeadsTo;
    if d != n {
      var t :| t in Calls(g[n]) && t in g && rank[t] < rank[n] && Walked(g, rank, table, t, d);
      CallsLead(g[n], t);
      WalkedUnder(g, rank, table, t, d);
    }
  }

  lemma {:induction false} WalkedNext(g: Graph, rank: map<Node, nat>, table: set<Node>, n: Node, p: Node, t: Node)
    requires Ranked(g, rank) && CallsClosed(g) && n in g && p in g && Walked(g, rank, table, n, p)
    requires t in Calls(g[p]) && t !in table
    ensures Walked(g, rank, table, n, t)
    decreases rank[n]
  {
    RankedCalls(g, rank);
    hide Calls, LeadsTo;
    if p == n {
      assert Walked(g, rank, table, t, t);
    } else {
      var c :| c in Calls(g[n]) && c in g && rank[c] < rank[n] && Walked(g, rank, table, c, p);
      WalkedNext(g, rank, table, c, p, t);
    }
  }

  /** Whatever the walk comes to, except its root, it comes to by a call. */
  lemma {:induction false} WalkedBy(g: Graph, rank: map<Node, nat>, table: set<Node>, n: Node, d: Node)
    returns (p: Node)
    requires Ranked(g, rank) && n in g && Walked(g, rank, table, n, d) && d != n
    ensures p in g && Walked(g, rank, table, n, p) && d in Calls(g[p])
    decreases rank[n]
  {
    hide Calls, LeadsTo;
    var t :| t in Calls(g[n]) && t in g && rank[t] < rank[n] && Walked(g, rank, table, t, d);
    if t == d {
      p := n;
    } else {
      p := WalkedBy(g, rank, table, t, d);
    }
  }

  /** The parent links are the owners. */
  ghost function OwnersOf(g: Graph, rank: map<Node, nat>, par: Parents, table: set<Node>, root: Node): Owners
    requires Ranked(g, rank) && root in g && g.Keys <= par.Keys
  {
    map d | d in WalkedFrom(g, rank, table, root) ::
      Owner(0, if rank[d] <= rank[root] then rank[root] - rank[d] else 0, if d == root then null else par[d])
  }

  lemma ParentCalls(g: Graph, rank: map<Node, nat>, par: Parents, table: set<Node>, root: Node, expected: Node?,
                    d: Node)
    requires Ranked(g, rank) && root in g && g.Keys <= par.Keys && LinksOk(g, rank, par, root, expected)
    requires Walked(g, rank, table, root, d) && d != root
    ensures d in par && par[d] != null && par[d] in g && Walked(g, rank, table, root, par[d]) && d in Calls(g[par[d]])
  {
    hide Calls, LeadsTo, Walked, Under;
    var p := WalkedBy(g, rank, table, root, d);
    WalkedUnder(g, rank, table, root, p);
    CallsLead(g[p], d);
    assert par[d] == p;
  }

  lemma CalledParent(g: Graph, rank: map<Node, nat>, par: Parents, table: set<Node>, root: Node, expected: Node?,
                     p: Node, t: Node)
    requires Ranked(g, rank) && root in g && g.Keys <= par.Keys && LinksOk(g, rank, par, root, expected)
    requires p in g && Walked(g, rank, table, root, p) && t in Calls(g[p]) && t !in table
    ensures t in g && Walked(g, rank, table, root, t) && t != root && par[t] == p
  {
    RankedCalls(g, rank);
    hide Calls, LeadsTo, Walked, Under;
    WalkedNext(g, rank, table, root, p, t);
    WalkedUnder(g, rank, table, root, p);
    CallsLead(g[p], t);
  }

  lemma OwnerOf(g: Graph, rank: map<Node, nat>, par: Parents, table: set<Node>, root: Node, d: Node)
    requires Ranked(g, rank) && root in g && g.Keys <= par.Keys && Walked(g, rank, table, root, d)
    ensures d in g && d !in table && rank[d] <= rank[root]
    ensures var o := OwnersOf(g, rank, par, table, root);
      d in o && o[d] == Owner(0, rank[root] - rank[d], if d == root then null else par[d])
  {
    WalkedUnder(g, rank, table, root, d);
    hide Walked, Under, LeadsTo;
  }

  lemma LinkedPlaced(g: Graph, rank: map<Node, nat>, par: Parents, table: set<Node>, root: Node, expected: Node?,
                     d: Node)
    requires Ranked(g, rank) && root in g && g.Keys <= par.Keys && LinksOk(g, rank, par, root, expected)
    requires d in g && Walked(g, rank, table, root, d) && CallsOnce(g, table, WalkedFrom(g, rank, table, root))
    ensures var o := OwnersOf(g, rank, par, table, root); d in o && Placed(g, [Job(root, table)], o, d)
  {
    hide Calls, LeadsTo, Walked, Under, LinksOk, OwnersOf, Ranked;
    OwnerOf(g, rank, par, table, root, d);
    if d != root {
      ParentCalls(g, rank, par, table, root, expected, d);
      OwnerOf(g, rank, par, table, root, par[d]);
      CalledBelow(g, rank, par[d], d);
    }
  }

  lemma CalledBelow(g: Graph, rank: map<Node, nat>, p: Node, t: Node)
    requires Ranked(g, rank) && p in g && t in Calls(g[p])
    ensures t in g && rank[t] < rank[p]
  {
    CallsLead(g[p], t);
    hide Calls, LeadsTo;
  }

  lemma LinkedCallsOwned(g: Graph, rank: map<Node, nat>, par: Parents, table: set<Node>, root: Node, expected: Node?,
                         d: Node)
    requires Ranked(g, rank) && root in g && g.Keys <= par.Keys && LinksOk(g, rank, par, root, expected)
    requires d in g && Walked(g, rank, table, root, d)
    ensures var o := OwnersOf(g, rank, par, table, root); d in o && CallsOwned(g, [Job(root, table)], o, d)
  {
    var o := OwnersOf(g, rank, par, table, root);
    hide Calls, LeadsTo, Walked, Under, LinksOk, Above;
    forall t | t in Calls(g[d]) && t !in table
      ensures t in o && o[t].owner == d
    {
      CalledParent(g, rank, par, table, root, expected, d, t);
    }
  }

  lemma LinkedIsOwned(g: Graph, rank: map<Node, nat>, par: Parents, table: set<Node>, root: Node, expected: Node?)
    requires Ranked(g, rank) && root in g && g.Keys <= par.Keys && LinksOk(g, rank, par, root, expected)
    requires CallsOnce(g, table, WalkedFrom(g, rank, table, root)) && ListsOnce(g, WalkedFrom(g, rank, table, root))
    ensures Owned(g, [Job(root, table)], OwnersOf(g, rank, par, table, root))
  {
    var o, jobs := OwnersOf(g, rank, par, table, root), [Job(root, table)];
    assert o.Keys == WalkedFrom(g, rank, table, root);
    assert forall d :: d in o ==> d in g && Walked(g, rank, table, root, d);
    assert Walked(g, rank, table, root, root) <==> root !in table;
    hide *;
    forall d | d in o
      ensures Placed(g, jobs, o, d) && CallsOwned(g, jobs, o, d)
    {
      LinkedPlaced(g, rank, par, table, root, expected, d);
      LinkedCallsOwned(g, rank, par, table, root, expected, d);
    }
    if root !in table { OwnerOf(g, rank, par, table, root, root); }
    OwnedFrom(g, root, table, o);
  }

  lemma OwnedFrom(g: Graph, root: Node, table: set<Node>, o: Owners)
    requires forall d :: d in o ==> Placed(g, [Job(root, table)], o, d) && CallsOwned(g, [Job(root, table)], o, d)
    requires (root in table || (root in o && o[root].job == 0 && o[root].owner == null)) && ListsOnce(g, o.Keys)
    ensures Owned(g, [Job(root, table)], o)
  {
    hide Placed, CallsOwned, ListOf;
  }

  /** Owners are further up. */
  lemma {:induction false} AboveRanks(g: Graph, rank: map<Node, nat>, jobs: seq<Job>, o: Owners, x: Node, t: Node)
    requires Ranked(g, rank) && Owned(g, jobs, o) && Above(o, x, t)
    ensures x in g && t in g && rank[x] <= rank[t]
    decreases o[x].depth
  {
    hide Calls, LeadsTo, Owned, Ranked;
    OwnedAt(g, jobs, o, x);
    if t != x {
      assert x in multiset(Calls(g[o[x].owner]));
      CalledBelow(g, rank, o[x].owner, x);
      AboveRanks(g, rank, jobs, o, o[x].owner, t);
    }
  }

  lemma OwnedCall(g: Graph, rank: map<Node, nat>, table: set<Node>, root: Node, o: Owners, p: Node, t: Node)
    requires Ranked(g, rank) && Owned(g, [Job(root, table)], o) && p in o && p in g && t in Calls(g[p]) && t !in table
    ensures t in o && multiset(Calls(g[p]))[t] == 1
  {
    hide Calls, LeadsTo, Owned, Ranked;
    var jobs := [Job(root, table)];
    OwnedAt(g, jobs, o, p);
    CalledBelow(g, rank, p, t);
    if Above(o, p, t) { AboveRanks(g, rank, jobs, o, p, t); }
    OwnedAt(g, jobs, o, t);
  }

  lemma {:induction false} WalkedOwned(g: Graph, rank: map<Node, nat>, table: set<Node>, root: Node, o: Owners,
                                       n: Node, d: Node)
    requires Ranked(g, rank) && Owned(g, [Job(root, table)], o) && n in g && (n in o || n in table)
    requires Walked(g, rank, table, n, d)
    ensures d in o
    decreases rank[n]
  {
    hide Calls, LeadsTo, Owned, Above;
    if d != n {
      var t :| t in Calls(g[n]) && t in g && rank[t] < rank[n] && Walked(g, rank, table, t, d);
      if t !in table { OwnedCall(g, rank, table, root, o, n, t); }
      WalkedOwned(g, rank, table, root, o, t, d);
    }
  }

  lemma OwnedIsLinked(g: Graph, rank: map<Node, nat>, table: set<Node>, root: Node, o: Owners)
    requires Ranked(g, rank) && root in g && Owned(g, [Job(root, table)], o)
    ensures CallsOnce(g, table, WalkedFrom(g, rank, table, root)) && ListsOnce(g, WalkedFrom(g, rank, table, root))
  {
    assert RootPlaced([Job(root, table)], o, 0) && ListsUnshared(g, o);
    var walked := WalkedFrom(g, rank, table, root);
    hide Calls, LeadsTo, Owned, Above, Walked, ListOf;
    forall d | d in walked
      ensures d in o
    {
      WalkedOwned(g, rank, table, root, o, root, d);
    }
    forall p, t | p in walked && p in g && t in Calls(g[p]) && t !in table
      ensures multiset(Calls(g[p]))[t] == 1
    {
      OwnedCall(g, rank, table, root, o, p, t);
    }
  }

  lemma NothingReleased(g: Graph, o: Owners)
    ensures Unreleased(g, o, [])
  {
  }

  /** Where the links are in order, a walk is safe exactly if no node it comes to calls an unprotected node twice and no
      two of them share a unit list. */
  lemma LinkedWalkSafeIff(g: Graph, rank: map<Node, nat>, par: Parents, table: set<Node>, root: Node, expected: Node?)
    requires Ranked(g, rank) && root in g && g.Keys <= par.Keys && LinksOk(g, rank, par, root, expected)
    ensures CallsClosed(g)
    ensures Walk(g, table, root, {}, []).Some? <==>
      CallsOnce(g, table, WalkedFrom(g, rank, table, root)) && ListsOnce(g, WalkedFrom(g, rank, table, root))
  {
    RankedCalls(g, rank);
    assert NoDup([]) && Alive(table, []);
    hide *;
    WalkSafeIffOwned(g, table, root, []);
    if CallsOnce(g, table, WalkedFrom(g, rank, table, root)) && ListsOnce(g, WalkedFrom(g, rank, table, root)) {
      LinkedIsOwned(g, rank, par, table, root, expected);
      NothingReleased(g, OwnersOf(g, rank, par, table, root));
    }
    if o: Owners :| Owned(g, [Job(root, table)], o) && Unreleased(g, o, []) {
      OwnedIsLinked(g, rank, table, root, o);
    }
  }

  lemma {:induction false} OtherChildren(walked: set<Node?>, args: seq<Node>)
    requires forall a :: a in args ==> a !in walked
    ensures ChildCalls(walked, args) == args
  {
    if args != [] {
      OtherChildren(walked, args[1..]);
      assert args == [args[0]] + args[1..];
    }
  }

  /** A lowered method call names its receiver twice and calls it once: the receiver, then the other arguments. */
  lemma LoweredCallOnce(s: Shape, recv: Node, args: seq<Node>)
    requires s.info.kind != TypeDecl && s.left == recv && s.right == null && s.extra == null
    requires s.children == [recv] + args && recv !in args
    ensures Calls(s) == [recv] + args
  {
    assert s.children[1..] == args;
    OtherChildren(WalkedEdges(s), args);
    assert ChildCalls(WalkedEdges(s), s.children) == [] + ChildCalls(WalkedEdges(s), args);
  }
}
