/** Who owns a node of a tree that is freed (src/ast/ast.c:551-649, 2231-2262): the shape of the graphs on which the
    walk and the teardown touch nothing released. */
module AstOwner {
  import opened AstGraph
  import opened AstFree

  /** One call of freeAST from outside: the node it is called on, and what the type table names at that moment. */
  datatype Job = Job(root: Node, table: set<Node>)

  /** The job that releases a node, how deep below the root of the job it is, and the node that owns it, null for a
      root. */
  datatype Owner = Owner(job: nat, depth: nat, owner: Node?)

  type Owners = map<Node, Owner>

  ghost function ListOf(s: Shape): UnitList?
  {
    if s.info.kind == UsesClause then s.info.unitList else null
  }

  /** `t` is `p` or owns it, directly or not. */
  ghost predicate Above(o: Owners, p: Node, t: Node)
    decreases if p in o then o[p].depth else 0
  {
    p in o && (t == p ||
      (o[p].owner != null && o[p].owner in o && o[o[p].owner].depth < o[p].depth && Above(o, o[p].owner, t)))
  }

  ghost predicate RootsIn(g: Graph, jobs: seq<Job>)
  {
    forall j :: j in jobs ==> j.root in g
  }

  /** Where the node stands: a root, or called by its owner and by it once. */
  ghost predicate Placed(g: Graph, jobs: seq<Job>, o: Owners, n: Node)
    requires n in o
  {
    && n in g && o[n].job < |jobs| && n !in jobs[o[n].job].table
    && if o[n].owner == null then n == jobs[o[n].job].root
       else
         var p: Node := o[n].owner;
         p in o && p in g && o[p].job == o[n].job && o[p].depth < o[n].depth && multiset(Calls(g[p]))[n] == 1
  }

  /** Every call goes to a node the table still names, to an owner above, or to a node the caller owns. */
  ghost predicate CallsOwned(g: Graph, jobs: seq<Job>, o: Owners, n: Node)
    requires n in o
  {
    && n in g && o[n].job < |jobs|
    && forall t :: t in Calls(g[n]) ==> t in jobs[o[n].job].table || Above(o, n, t) || (t in o && o[t].owner == n)
  }

  /** A root is protected by the table at its job, or released by it. */
  ghost predicate RootPlaced(jobs: seq<Job>, o: Owners, i: nat)
    requires i < |jobs|
  {
    jobs[i].root in jobs[i].table ||
    (jobs[i].root in o && o[jobs[i].root].job == i && o[jobs[i].root].owner == null)
  }

  ghost predicate ListsUnshared(g: Graph, o: Owners)
  {
    forall x, y :: x in o && y in o && x in g && y in g && x != y && ListOf(g[x]) != null ==>
      ListOf(g[x]) != ListOf(g[y])
  }

  /** `o` gives every node one owner in one job. */
  ghost predicate Owned(g: Graph, jobs: seq<Job>, o: Owners)
  {
    && (forall n :: n in o ==> Placed(g, jobs, o, n) && CallsOwned(g, jobs, o, n))
    && (forall i :: 0 <= i < |jobs| ==> RootPlaced(jobs, o, i))
    && ListsUnshared(g, o)
  }

  // ---- the nodes a walk releases, in order

  ghost function Order(g: Graph, table: set<Node>, n: Node, gray: set<Node>): seq<Node>
    requires CallsClosed(g) && n in g
    decreases g.Keys - gray, 1, 0
  {
    if n in gray || n in table then []
    else
      assert g.Keys - (gray + {n}) < g.Keys - gray by { assert n in g.Keys - gray; }
      OrderAll(g, table, Calls(g[n]), gray + {n}) + [n]
  }

  ghost function OrderAll(g: Graph, table: set<Node>, calls: seq<Node>, gray: set<Node>): seq<Node>
    requires CallsClosed(g) && forall c :: c in calls ==> c in g
    decreases g.Keys - gray, 2, |calls|
  {
    if calls == [] then [] else Order(g, table, calls[0], gray) + OrderAll(g, table, calls[1..], gray)
  }

  ghost predicate Distinct(ns: seq<Node>)
  {
    forall i, j :: 0 <= i < j < |ns| ==> ns[i] != ns[j]
  }

  ghost predicate ListsDistinct(g: Graph, ns: seq<Node>)
  {
    forall i, j :: 0 <= i < j < |ns| && ns[i] in g && ns[j] in g && ListOf(g[ns[i]]) != null ==>
      ListOf(g[ns[i]]) != ListOf(g[ns[j]])
  }

  /** What is released with the nodes. */
  ghost function Flat(g: Graph, ns: seq<Node>): seq<Released>
    requires forall n :: n in ns ==> n in g
  {
    if ns == [] then []
    else
      var last := ns[|ns| - 1];
      Flat(g, ns[..|ns| - 1]) + Own(last, g[last])
  }

  lemma {:induction false} FlatConcat(g: Graph, a: seq<Node>, b: seq<Node>)
    requires (forall n :: n in a ==> n in g) && forall n :: n in b ==> n in g
    ensures (forall n :: n in a + b ==> n in g) && Flat(g, a + b) == Flat(g, a) + Flat(g, b)
    decreases |b|
  {
    if b == [] {
      assert a + b == a;
    } else {
      FlatConcat(g, a, b[..|b| - 1]);
      assert (a + b)[..|a + b| - 1] == a + b[..|b| - 1];
      hide Own;
    }
  }

  /** What stands in the list of releases for a node. */
  lemma {:induction false} FlatHas(g: Graph, ns: seq<Node>)
    requires forall n :: n in ns ==> n in g
    ensures forall n: Node :: ReleasedNode(n) in Flat(g, ns) <==> n in ns
    ensures forall n :: n in ns && ListOf(g[n]) != null ==> ReleasedList(ListOf(g[n])) in Flat(g, ns)
    ensures forall l: UnitList :: ReleasedList(l) in Flat(g, ns) ==> exists n :: n in ns && ListOf(g[n]) == l
  {
    if ns != [] {
      var front, last := ns[..|ns| - 1], ns[|ns| - 1];
      FlatHas(g, front);
      assert ns == front + [last];
      var own := Own(last, g[last]);
      assert forall n: Node :: ReleasedNode(n) in own <==> n == last;
      assert forall l: UnitList :: ReleasedList(l) in own <==> ListOf(g[last]) == l;
    }
  }

  ghost predicate NewTo(g: Graph, ns: seq<Node>, n: Node)
    requires n in g && forall k :: k in ns ==> k in g
  {
    n !in ns && forall k :: k in ns && ListOf(g[k]) != null ==> ListOf(g[k]) != ListOf(g[n])
  }

  lemma OwnIs(n: Node, s: Shape)
    ensures NoDup(Own(n, s))
    ensures forall x :: x in Own(n, s) <==> x == ReleasedNode(n) || (ListOf(s) != null && x == ReleasedList(ListOf(s)))
  {
    var own := Own(n, s);
    assert ListOf(s) != null ==> own[0] == ReleasedList(ListOf(s)) && own[1] == ReleasedNode(n);
    assert ListOf(s) == null ==> own[0] == ReleasedNode(n);
  }

  lemma OwnIsNew(g: Graph, ns: seq<Node>, n: Node)
    requires n in g && forall k :: k in ns ==> k in g
    ensures (forall x :: x in Own(n, g[n]) ==> x !in Flat(g, ns)) <==> NewTo(g, ns, n)
  {
    FlatHas(g, ns);
    OwnIs(n, g[n]);
    hide Own, Flat, ListOf;
    if NewTo(g, ns, n) {
    } else if n in ns {
      assert ReleasedNode(n) in Own(n, g[n]) && ReleasedNode(n) in Flat(g, ns);
    } else {
      var k :| k in ns && ListOf(g[k]) != null && ListOf(g[k]) == ListOf(g[n]);
      assert ReleasedList(ListOf(g[k])) in Own(n, g[n]) && ReleasedList(ListOf(g[k])) in Flat(g, ns);
    }
  }

  /** Nothing is released twice exactly if no node is listed twice and no two of them share a unit list. */
  lemma {:induction false} FlatNoDup(g: Graph, ns: seq<Node>)
    requires forall n :: n in ns ==> n in g
    ensures NoDup(Flat(g, ns)) <==> Distinct(ns) && ListsDistinct(g, ns)
  {
    if ns == [] {
      assert Flat(g, ns) == [];
    } else {
      var front, last := ns[..|ns| - 1], ns[|ns| - 1];
      assert ns == front + [last] && Flat(g, ns) == Flat(g, front) + Own(last, g[last]);
      assert forall n :: n in front ==> n in g;
      hide NoDup, Own, Flat, Distinct, ListsDistinct, ListOf;
      FlatNoDup(g, front);
      NoDupAppend(Flat(g, front), Own(last, g[last]));
      OwnIs(last, g[last]);
      OwnIsNew(g, front, last);
      DistinctSnoc(front, last);
      ListsDistinctSnoc(g, front, last);
    }
  }

  lemma DistinctSnoc(ns: seq<Node>, n: Node)
    ensures Distinct(ns + [n]) <==> Distinct(ns) && n !in ns
  {
    var all := ns + [n];
    if Distinct(all) {
      assert forall i :: 0 <= i < |ns| ==> all[i] == ns[i] && all[i] != all[|ns|];
    }
  }

  lemma ListsDistinctSnoc(g: Graph, ns: seq<Node>, n: Node)
    requires n in g && forall k :: k in ns ==> k in g
    ensures ListsDistinct(g, ns + [n]) <==>
      ListsDistinct(g, ns) && forall k :: k in ns && ListOf(g[k]) != null ==> ListOf(g[k]) != ListOf(g[n])
  {
    var all := ns + [n];
    assert forall i :: 0 <= i < |ns| ==> all[i] == ns[i] && ns[i] in ns;
    if ListsDistinct(g, all) {
      assert forall i :: 0 <= i < |ns| && ListOf(g[ns[i]]) != null ==> ListOf(g[all[i]]) != ListOf(g[all[|ns|]]);
    }
  }

  lemma {:induction false} OrderInGraph(g: Graph, table: set<Node>, n: Node, gray: set<Node>)
    requires CallsClosed(g) && n in g
    ensures forall x :: x in Order(g, table, n, gray) ==> x in g && x !in gray && x !in table
    ensures Trace(g, table, n, gray) == Flat(g, Order(g, table, n, gray))
    ensures n !in gray && n !in table ==> n in Order(g, table, n, gray)
    decreases g.Keys - gray, 1, 0
  {
    if n !in gray && n !in table {
      assert g.Keys - (gray + {n}) < g.Keys - gray by { assert n in g.Keys - gray; }
      OrderAllInGraph(g, table, Calls(g[n]), gray + {n});
      var below := OrderAll(g, table, Calls(g[n]), gray + {n});
      FlatConcat(g, below, [n]);
      assert Flat(g, [n]) == Own(n, g[n]) by { assert [n][..0] == [] && Flat(g, []) == []; }
    }
  }

  lemma {:induction false} OrderAllInGraph(g: Graph, table: set<Node>, calls: seq<Node>, gray: set<Node>)
    requires CallsClosed(g) && forall c :: c in calls ==> c in g
    ensures forall x :: x in OrderAll(g, table, calls, gray) ==> x in g && x !in gray && x !in table
    ensures TraceAll(g, table, calls, gray) == Flat(g, OrderAll(g, table, calls, gray))
    decreases g.Keys - gray, 2, |calls|
  {
    if calls != [] {
      OrderInGraph(g, table, calls[0], gray);
      OrderAllInGraph(g, table, calls[1..], gray);
      FlatConcat(g, Order(g, table, calls[0], gray), OrderAll(g, table, calls[1..], gray));
    }
  }

  lemma DistinctAppend(a: seq<Node>, b: seq<Node>)
    ensures Distinct(a + b) <==> Distinct(a) && Distinct(b) && forall x :: x in b ==> x !in a
  {
    var s := a + b;
    assert forall i :: 0 <= i < |a| ==> s[i] == a[i];
    assert forall i :: 0 <= i < |b| ==> s[|a| + i] == b[i];
    if Distinct(s) {
      forall i, j | 0 <= i < j < |b|
        ensures b[i] != b[j]
      {
        assert s[|a| + i] != s[|a| + j];
      }
    } else {
      var i, j :| 0 <= i < j < |s| && s[i] == s[j];
      if i < |a| && |a| <= j {
        assert b[j - |a|] in b && a[i] in a && a[i] == b[j - |a|];
      } else if |a| <= i {
        assert b[i - |a|] == b[j - |a|];
      }
    }
  }

  // ---- several jobs

  ghost function JobsTrace(g: Graph, jobs: seq<Job>): seq<Released>
    requires CallsClosed(g) && RootsIn(g, jobs)
  {
    if jobs == [] then []
    else
      var last := jobs[|jobs| - 1];
      assert last in jobs && forall j :: j in jobs[..|jobs| - 1] ==> j in jobs;
      JobsTrace(g, jobs[..|jobs| - 1]) + Trace(g, last.table, last.root, {})
  }

  ghost function JobsOrder(g: Graph, jobs: seq<Job>): seq<Node>
    requires CallsClosed(g) && RootsIn(g, jobs)
  {
    if jobs == [] then []
    else
      var last := jobs[|jobs| - 1];
      assert last in jobs && forall j :: j in jobs[..|jobs| - 1] ==> j in jobs;
      JobsOrder(g, jobs[..|jobs| - 1]) + Order(g, last.table, last.root, {})
  }

  lemma {:induction false} JobsOrderInGraph(g: Graph, jobs: seq<Job>)
    requires CallsClosed(g) && RootsIn(g, jobs)
    ensures (forall x :: x in JobsOrder(g, jobs) ==> x in g) && JobsTrace(g, jobs) == Flat(g, JobsOrder(g, jobs))
  {
    if jobs != [] {
      var front, last := jobs[..|jobs| - 1], jobs[|jobs| - 1];
      assert last in jobs && forall j :: j in front ==> j in jobs;
      JobsOrderInGraph(g, front);
      OrderInGraph(g, last.table, last.root, {});
      FlatConcat(g, JobsOrder(g, front), Order(g, last.table, last.root, {}));
    }
  }

  // ---- an owned graph lists no node twice

  lemma {:induction false} AboveSameJob(g: Graph, jobs: seq<Job>, o: Owners, p: Node, t: Node)
    requires Owned(g, jobs, o) && Above(o, p, t)
    ensures t in o && o[t].job == o[p].job && o[t].depth <= o[p].depth && (t != p ==> o[t].depth < o[p].depth)
    decreases o[p].depth
  {
    assert Placed(g, jobs, o, p);
    if t != p { AboveSameJob(g, jobs, o, o[p].owner, t); }
  }

  /** A node is below one child of an owner at most. */
  lemma {:induction false} BelowOneChild(g: Graph, jobs: seq<Job>, o: Owners, x: Node, c: Node, d: Node)
    requires Owned(g, jobs, o) && Above(o, x, c) && Above(o, x, d) && c in o && d in o
    requires o[c].owner != null && o[c].owner == o[d].owner
    ensures c == d
    decreases o[x].depth
  {
    var n: Node := o[c].owner;
    assert Placed(g, jobs, o, c) && Placed(g, jobs, o, d) && Placed(g, jobs, o, x);
    if x == c {
      if x != d { AboveSameJob(g, jobs, o, n, d); }
    } else if x == d {
      AboveSameJob(g, jobs, o, n, c);
    } else {
      BelowOneChild(g, jobs, o, o[x].owner, c, d);
    }
  }

  lemma {:induction false} AboveTrans(o: Owners, x: Node, y: Node, z: Node)
    requires Above(o, x, y) && Above(o, y, z)
    ensures Above(o, x, z)
    decreases if x in o then o[x].depth else 0
  {
    if x != y { AboveTrans(o, o[x].owner, y, z); }
  }

  /** `gray` holds what is above n without n itself. */
  ghost predicate GrayAbove(o: Owners, n: Node, gray: set<Node>)
  {
    && (forall t :: t in gray ==> t in o && t != n && Above(o, n, t))
    && (forall t :: t in o && t != n && Above(o, n, t) ==> t in gray)
  }

  ghost predicate AllBelow(o: Owners, ns: seq<Node>, n: Node)
  {
    forall x :: x in ns ==> Above(o, x, n)
  }

  /** Each listed node is below one of the calls, and that one is owned by n. */
  ghost predicate AllBelowCalls(o: Owners, ns: seq<Node>, n: Node, calls: seq<Node>)
  {
    forall x :: x in ns ==> exists c :: c in calls && c in o && o[c].owner == n && Above(o, x, c)
  }

  lemma OwnedAt(g: Graph, jobs: seq<Job>, o: Owners, n: Node)
    requires Owned(g, jobs, o) && n in o
    ensures n in g && o[n].job < |jobs|
    ensures o[n].owner != null ==> o[n].owner in o && o[o[n].owner].job == o[n].job && o[n].owner in g
    ensures o[n].owner != null ==> o[o[n].owner].depth < o[n].depth && multiset(Calls(g[o[n].owner]))[n] == 1
    ensures forall t :: t in Calls(g[n]) ==>
      t in jobs[o[n].job].table || Above(o, n, t) || (t in o && o[t].owner == n)
  {
    assert Placed(g, jobs, o, n) && CallsOwned(g, jobs, o, n);
    hide Above, Calls;
  }

  lemma AboveChild(g: Graph, jobs: seq<Job>, o: Owners, n: Node, c: Node, t: Node)
    requires Owned(g, jobs, o) && n in o && c in o && o[c].owner == n
    ensures Above(o, c, t) <==> t == c || Above(o, n, t)
    ensures !Above(o, n, c) && Above(o, n, n)
  {
    OwnedAt(g, jobs, o, c);
    if Above(o, n, c) { AboveSameJob(g, jobs, o, n, c); }
    hide Owned;
  }

  lemma GrayGrows(o: Owners, n: Node, c: Node, gray: set<Node>)
    requires GrayAbove(o, n, gray) && n in o && c in o && !Above(o, n, c)
    requires forall t :: t in o ==> (Above(o, c, t) <==> t == c || t == n || (t != n && Above(o, n, t)))
    ensures GrayAbove(o, c, gray + {n})
  {
    hide Above;
  }

  lemma GrayOfChild(g: Graph, jobs: seq<Job>, o: Owners, n: Node, c: Node, gray: set<Node>)
    requires Owned(g, jobs, o) && n in o && c in o && o[c].owner == n && GrayAbove(o, n, gray)
    ensures GrayAbove(o, c, gray + {n})
  {
    hide *;
    AboveChild(g, jobs, o, n, c, c);
    forall t | t in o
      ensures Above(o, c, t) <==> t == c || t == n || (t != n && Above(o, n, t))
    {
      AboveChild(g, jobs, o, n, c, t);
    }
    GrayGrows(o, n, c, gray);
  }

  lemma {:induction false} OwnedOrder(g: Graph, jobs: seq<Job>, o: Owners, n: Node, gray: set<Node>)
    requires CallsClosed(g) && Owned(g, jobs, o) && n in o && n in g && o[n].job < |jobs| && GrayAbove(o, n, gray)
    ensures var ns := Order(g, jobs[o[n].job].table, n, gray); Distinct(ns) && AllBelow(o, ns, n)
    decreases g.Keys - gray, 1, 0
  {
    var table := jobs[o[n].job].table;
    if n !in gray && n !in table {
      assert g.Keys - (gray + {n}) < g.Keys - gray by { assert n in g.Keys - gray; }
      OwnedOrderAll(g, jobs, o, n, 0, gray);
      assert Calls(g[n])[0..] == Calls(g[n]);
      var below := OrderAll(g, table, Calls(g[n]), gray + {n});
      OrderAllInGraph(g, table, Calls(g[n]), gray + {n});
      DistinctAppend(below, [n]);
      BelowCallsBelow(g, jobs, o, below, n, Calls(g[n]));
    }
  }

  lemma BelowCallsBelow(g: Graph, jobs: seq<Job>, o: Owners, ns: seq<Node>, n: Node, calls: seq<Node>)
    requires Owned(g, jobs, o) && n in o && AllBelowCalls(o, ns, n, calls)
    ensures AllBelow(o, ns + [n], n)
  {
    forall x | x in ns
      ensures Above(o, x, n)
    {
      var c :| c in calls && c in o && o[c].owner == n && Above(o, x, c);
      AboveChild(g, jobs, o, n, c, n);
      hide Owned;
      AboveTrans(o, x, c, n);
    }
    assert Above(o, n, n);
    hide Owned, Above;
  }

  lemma {:induction false} OwnedOrderAll(g: Graph, jobs: seq<Job>, o: Owners, n: Node, k: nat, gray: set<Node>)
    requires CallsClosed(g) && Owned(g, jobs, o) && n in o && n in g && o[n].job < |jobs| && GrayAbove(o, n, gray)
    requires n !in gray && k <= |Calls(g[n])|
    ensures var ns := OrderAll(g, jobs[o[n].job].table, Calls(g[n])[k..], gray + {n});
      Distinct(ns) && AllBelowCalls(o, ns, n, Calls(g[n])[k..])
    decreases g.Keys - gray, 0, |Calls(g[n])| - k
  {
    hide Owned, Calls, GrayAbove, Distinct, AllBelow, Above;
    var calls, table := Calls(g[n])[k..], jobs[o[n].job].table;
    if calls == [] {
      assert Distinct([]) by { NoneTwice(); }
    } else {
      var c := calls[0];
      assert calls[1..] == Calls(g[n])[k + 1..];
      OwnedOrderAll(g, jobs, o, n, k + 1, gray);
      var first, rest := Order(g, table, c, gray + {n}), OrderAll(g, table, calls[1..], gray + {n});
      assert g.Keys - (gray + {n}) < g.Keys - gray by { assert n in g.Keys - gray; }
      CalledOnce(g, jobs, o, n, k, gray);
      if c in table || c in gray + {n} {
        assert first + rest == rest;
        AllBelowMore(o, rest, n, calls);
      } else {
        GrayOfChild(g, jobs, o, n, c, gray);
        OwnedOrder(g, jobs, o, c, gray + {n});
        DisjointFromRest(g, jobs, o, n, c, calls[1..], first, rest);
        DistinctAppend(first, rest);
        AllBelowMore(o, rest, n, calls);
        AllBelowFirst(o, first, rest, n, calls);
      }
    }
  }

  lemma NoneTwice()
    ensures Distinct([])
  {
  }

  lemma AllBelowMore(o: Owners, ns: seq<Node>, n: Node, calls: seq<Node>)
    requires calls != [] && AllBelowCalls(o, ns, n, calls[1..])
    ensures AllBelowCalls(o, ns, n, calls)
  {
    hide Above;
    assert forall c :: c in calls[1..] ==> c in calls;
  }

  lemma AllBelowFirst(o: Owners, first: seq<Node>, rest: seq<Node>, n: Node, calls: seq<Node>)
    requires calls != [] && AllBelowCalls(o, rest, n, calls) && AllBelow(o, first, calls[0])
    requires calls[0] in o && o[calls[0]].owner == n
    ensures AllBelowCalls(o, first + rest, n, calls)
  {
    hide Above;
    assert calls[0] in calls;
  }

  /** A call of n that is neither protected nor above n goes to a node that n owns and calls once. */
  lemma CalledOnce(g: Graph, jobs: seq<Job>, o: Owners, n: Node, k: nat, gray: set<Node>)
    requires Owned(g, jobs, o) && n in o && n in g && k < |Calls(g[n])| && GrayAbove(o, n, gray)
    ensures o[n].job < |jobs|
    ensures var c := Calls(g[n])[k];
      c in jobs[o[n].job].table || c in gray + {n} ||
      (c in o && o[c].owner == n && o[c].job == o[n].job && c !in Calls(g[n])[k + 1..])
  {
    var calls := Calls(g[n]);
    var c := calls[k];
    assert c in calls;
    OwnedAt(g, jobs, o, n);
    hide Owned, Calls;
    if c in o && o[c].owner == n {
      OwnedAt(g, jobs, o, c);
      if c in calls[k + 1..] { CountsTwice(calls, k); }
    } else if Above(o, n, c) && c != n {
      AboveSameJob(g, jobs, o, n, c);
    }
    hide Above;
  }

  lemma CountsTwice(calls: seq<Node>, k: nat)
    requires k < |calls| && calls[k] in calls[k + 1..]
    ensures multiset(calls)[calls[k]] >= 2
  {
    assert calls == calls[..k + 1] + calls[k + 1..] && calls[k] in calls[..k + 1];
  }

  lemma DisjointFromRest(g: Graph, jobs: seq<Job>, o: Owners, n: Node, c: Node, calls: seq<Node>,
                         first: seq<Node>, rest: seq<Node>)
    requires Owned(g, jobs, o) && c in o && o[c].owner == n && c !in calls
    requires AllBelow(o, first, c) && AllBelowCalls(o, rest, n, calls)
    ensures forall x :: x in rest ==> x !in first
  {
    forall x | x in rest && x in first
      ensures false
    {
      var d :| d in calls && d in o && o[d].owner == n && Above(o, x, d);
      BelowOneChild(g, jobs, o, x, c, d);
    }
  }

  lemma RootGray(g: Graph, jobs: seq<Job>, o: Owners, r: Node)
    requires r in o && o[r].owner == null
    ensures GrayAbove(o, r, {})
  {
  }

  ghost predicate AllBefore(o: Owners, ns: seq<Node>, k: nat)
  {
    forall x :: x in ns ==> x in o && o[x].job < k
  }

  lemma JobOrder(g: Graph, jobs: seq<Job>, o: Owners, i: nat)
    requires CallsClosed(g) && RootsIn(g, jobs) && Owned(g, jobs, o) && i < |jobs|
    ensures jobs[i].root in g
    ensures var ns := Order(g, jobs[i].table, jobs[i].root, {});
      Distinct(ns) && forall x :: x in ns ==> x in o && o[x].job == i
  {
    assert jobs[i] in jobs;
    var r := jobs[i].root;
    assert RootPlaced(jobs, o, i);
    if r !in jobs[i].table {
      RootGray(g, jobs, o, r);
      OwnedOrder(g, jobs, o, r, {});
      hide Owned, Above, Order;
      forall x | x in Order(g, jobs[i].table, r, {})
        ensures x in o && o[x].job == i
      {
        assert Above(o, x, r);
        AboveIn(o, x, r);
        AboveSameJob(g, jobs, o, x, r);
      }
    }
  }

  lemma AboveIn(o: Owners, x: Node, t: Node)
    requires Above(o, x, t)
    ensures x in o
  {
  }

  lemma {:induction false} JobsOrderOwned(g: Graph, jobs: seq<Job>, o: Owners, k: nat)
    requires CallsClosed(g) && RootsIn(g, jobs) && Owned(g, jobs, o) && k <= |jobs|
    ensures RootsIn(g, jobs[..k]) && Distinct(JobsOrder(g, jobs[..k])) && AllBefore(o, JobsOrder(g, jobs[..k]), k)
  {
    hide Owned, Distinct, Order;
    if k == 0 {
      NoneTwice();
    } else {
      JobsOrderOwned(g, jobs, o, k - 1);
      JobOrder(g, jobs, o, k - 1);
      assert jobs[..k][..k - 1] == jobs[..k - 1] && jobs[..k][k - 1] == jobs[k - 1];
      DistinctAppend(JobsOrder(g, jobs[..k - 1]), Order(g, jobs[k - 1].table, jobs[k - 1].root, {}));
    }
  }

  lemma ListsOfOwned(g: Graph, o: Owners, ns: seq<Node>)
    requires ListsUnshared(g, o) && Distinct(ns) && forall x :: x in ns ==> x in o && x in g
    ensures ListsDistinct(g, ns)
  {
    hide ListOf;
    forall i, j | 0 <= i < j < |ns| && ns[i] in g && ns[j] in g && ListOf(g[ns[i]]) != null
      ensures ListOf(g[ns[i]]) != ListOf(g[ns[j]])
    {
      assert ns[i] in ns && ns[j] in ns && ns[i] != ns[j];
    }
  }

  /** Where every node has one owner nothing is released twice. */
  lemma OwnedIsSafe(g: Graph, jobs: seq<Job>, o: Owners)
    requires CallsClosed(g) && RootsIn(g, jobs) && Owned(g, jobs, o)
    ensures NoDup(JobsTrace(g, jobs)) && forall x :: x in JobsOrder(g, jobs) ==> x in o
  {
    assert ListsUnshared(g, o);
    hide *;
    JobsOrderOwned(g, jobs, o, |jobs|);
    assert jobs[..|jobs|] == jobs;
    JobsOrderInGraph(g, jobs);
    var ns := JobsOrder(g, jobs);
    InOwners(o, ns, |jobs|);
    ListsOfOwned(g, o, ns);
    FlatNoDup(g, ns);
  }

  lemma InOwners(o: Owners, ns: seq<Node>, k: nat)
    requires AllBefore(o, ns, k)
    ensures forall x :: x in ns ==> x in o
  {
  }

  // ---- what is owned is released

  ghost predicate OwnedObject(g: Graph, o: Owners, r: Released)
  {
    match r
    case ReleasedNode(n) => n in o
    case ReleasedList(l) => exists n :: n in o && n in g && ListOf(g[n]) == l
  }

  /** A node is released by its job: a root by its own walk, another with its owner. */
  lemma {:induction false} OwnedInTrace(g: Graph, jobs: seq<Job>, o: Owners, n: Node)
    requires CallsClosed(g) && RootsIn(g, jobs) && Owned(g, jobs, o) && n in o
    ensures o[n].job < |jobs| && jobs[o[n].job].root in g
    ensures ReleasedNode(n) in Trace(g, jobs[o[n].job].table, jobs[o[n].job].root, {})
    decreases o[n].depth
  {
    var job := o[n].job;
    assert Placed(g, jobs, o, n) && jobs[job] in jobs;
    OwnedAt(g, jobs, o, n);
    hide Owned, Calls;
    var table, root := jobs[job].table, jobs[job].root;
    if o[n].owner == null {
      OrderInGraph(g, table, root, {});
      FlatHas(g, Order(g, table, root, {}));
    } else {
      var p: Node := o[n].owner;
      OwnedInTrace(g, jobs, o, p);
      assert n in multiset(Calls(g[p]));
      CallDescends(g[p], n);
      TraceClosed(g, table, root, {}, p, n);
    }
  }

  lemma {:induction false} TraceInJobs(g: Graph, jobs: seq<Job>, i: nat, r: Released)
    requires CallsClosed(g) && RootsIn(g, jobs) && i < |jobs| && jobs[i].root in g
    requires r in Trace(g, jobs[i].table, jobs[i].root, {})
    ensures r in JobsTrace(g, jobs)
  {
    hide Trace, CallsClosed;
    var front := jobs[..|jobs| - 1];
    assert forall j :: j in front ==> j in jobs;
    if i < |front| {
      TraceInJobs(g, front, i, r);
    } else {
      assert jobs[i] == jobs[|jobs| - 1];
    }
  }

  lemma OwnedInOrder(g: Graph, jobs: seq<Job>, o: Owners, n: Node)
    requires CallsClosed(g) && RootsIn(g, jobs) && Owned(g, jobs, o) && n in o
    ensures n in JobsOrder(g, jobs)
  {
    hide *;
    OwnedInTrace(g, jobs, o, n);
    TraceInJobs(g, jobs, o[n].job, ReleasedNode(n));
    JobsOrderInGraph(g, jobs);
    FlatHas(g, JobsOrder(g, jobs));
  }

  lemma ReleasedAre(g: Graph, o: Owners, ns: seq<Node>)
    requires (forall n :: n in ns ==> n in g && n in o) && forall n :: n in o ==> n in ns
    ensures forall r :: r in Flat(g, ns) <==> OwnedObject(g, o, r)
  {
    FlatHas(g, ns);
    hide Flat, ListOf;
    forall r
      ensures r in Flat(g, ns) <==> OwnedObject(g, o, r)
    {
      match r
      case ReleasedNode(n) =>
      case ReleasedList(l) =>
        if n :| n in o && n in g && ListOf(g[n]) == l { assert n in ns; }
    }
  }

  /** Where every node has one owner, what is released are the owned nodes with their unit lists, all of them and
      nothing else. */
  lemma OwnedIsReleased(g: Graph, jobs: seq<Job>, o: Owners)
    requires CallsClosed(g) && RootsIn(g, jobs) && Owned(g, jobs, o)
    ensures forall r :: r in JobsTrace(g, jobs) <==> OwnedObject(g, o, r)
  {
    hide *;
    OwnedIsSafe(g, jobs, o);
    JobsOrderInGraph(g, jobs);
    forall n | n in o
      ensures n in JobsOrder(g, jobs)
    {
      OwnedInOrder(g, jobs, o, n);
    }
    ReleasedAre(g, o, JobsOrder(g, jobs));
  }

  // ---- a walk that lists no node twice finds the owners

  ghost predicate Within(o: Owners, p: Owners)
  {
    forall x :: x in o ==> x in p && p[x] == o[x]
  }

  lemma {:induction false} AboveGrows(o: Owners, p: Owners, x: Node, t: Node)
    requires Within(o, p) && Above(o, x, t)
    ensures Above(p, x, t)
    decreases if x in o then o[x].depth else 0
  {
    if x != t { AboveGrows(o, p, o[x].owner, t); }
  }

  /** Inside one job: x was found under an owner that was found too, or is one of `tops`, called by `top` once. */
  ghost predicate FoundNode(g: Graph, table: set<Node>, gray: set<Node>, job: nat, o: Owners, x: Node)
    requires x in o
  {
    && x in g && x !in table && x !in gray && o[x].job == job && |gray| <= o[x].depth
    && forall t :: t in Calls(g[x]) ==> t in table || t in gray || Above(o, x, t) || (t in o && o[t].owner == x)
  }

  ghost predicate UnderOwner(g: Graph, o: Owners, x: Node)
    requires x in o
  {
    o[x].owner != null &&
    var p: Node := o[x].owner;
    p in o && p in g && o[p].job == o[x].job && o[p].depth < o[x].depth && multiset(Calls(g[p]))[x] == 1
  }

  ghost predicate FoundTree(g: Graph, table: set<Node>, gray: set<Node>, job: nat, n: Node, top: Node?, o: Owners)
  {
    && (n in o ==> o[n] == Owner(job, |gray|, top))
    && forall x :: x in o ==> FoundNode(g, table, gray, job, o, x) && (x != n ==> UnderOwner(g, o, x))
  }

  ghost predicate TopOf(gray: set<Node>, job: nat, top: Node, calls: seq<Node>, o: Owners, x: Node)
    requires x in o
  {
    x in calls && o[x] == Owner(job, |gray|, top) && multiset(calls)[x] == 1
  }

  ghost predicate FoundForest(g: Graph, table: set<Node>, gray: set<Node>, job: nat, top: Node, calls: seq<Node>,
                              o: Owners)
  {
    && (forall x :: x in o ==>
          FoundNode(g, table, gray, job, o, x) && (TopOf(gray, job, top, calls, o, x) || UnderOwner(g, o, x)))
    && (forall c :: c in calls ==> c in table || c in gray || (c in o && TopOf(gray, job, top, calls, o, c)))
  }

  lemma FoundNodeGrows(g: Graph, table: set<Node>, gray: set<Node>, job: nat, o: Owners, p: Owners, x: Node)
    requires x in o && Within(o, p) && FoundNode(g, table, gray, job, o, x)
    ensures x in p && FoundNode(g, table, gray, job, p, x) && (UnderOwner(g, o, x) ==> UnderOwner(g, p, x))
  {
    forall t | t in Calls(g[x])
      ensures t in table || t in gray || Above(p, x, t) || (t in p && p[t].owner == x)
    {
      if Above(o, x, t) { AboveGrows(o, p, x, t); }
    }
    hide Above, Calls;
  }

  /** Climbing from any node of the forest ends at a call of `top`. */
  lemma {:induction false} ClimbsToTop(g: Graph, table: set<Node>, gray: set<Node>, job: nat, top: Node,
                                       calls: seq<Node>, o: Owners, p: Owners, x: Node)
    requires FoundForest(g, table, gray, job, top, calls, o) && x in o && Within(o, p)
    requires top in p && p[top].depth < |gray|
    ensures Above(p, x, top)
    decreases o[x].depth
  {
    assert FoundNode(g, table, gray, job, o, x);
    if TopOf(gray, job, top, calls, o, x) {
      assert Above(p, top, top);
    } else {
      assert UnderOwner(g, o, x);
      ClimbsToTop(g, table, gray, job, top, calls, o, p, o[x].owner);
    }
  }

  lemma ForestNode(g: Graph, table: set<Node>, gray: set<Node>, job: nat, top: Node, calls: seq<Node>, o: Owners,
                   x: Node)
    requires FoundForest(g, table, gray, job, top, calls, o) && x in o
    ensures FoundNode(g, table, gray, job, o, x)
    ensures TopOf(gray, job, top, calls, o, x) || UnderOwner(g, o, x)
  {
    hide FoundNode, TopOf, UnderOwner;
  }

  /** Once its root n is there, n is no longer one of the nodes above but one of those found. */
  lemma PlantedNode(g: Graph, table: set<Node>, gray: set<Node>, job: nat, n: Node, p: Owners, x: Node)
    requires n !in gray && x in p && FoundNode(g, table, gray + {n}, job, p, x) && Above(p, x, n)
    ensures FoundNode(g, table, gray, job, p, x)
  {
    hide Above, Calls;
    assert |gray + {n}| == |gray| + 1;
  }

  lemma PlantedOwner(g: Graph, gray: set<Node>, job: nat, n: Node, o: Owners, p: Owners, x: Node)
    requires n in g && x in o && Within(o, p) && n in p && p[n].job == job && p[n].depth == |gray| && n !in gray
    requires TopOf(gray + {n}, job, n, Calls(g[n]), o, x)
    ensures UnderOwner(g, p, x)
  {
    hide Calls;
    assert |gray + {n}| == |gray| + 1;
  }

  lemma GrayCount(gray: set<Node>, n: Node)
    requires n !in gray
    ensures |gray + {n}| == |gray| + 1
  {
  }

  lemma PlantNode(g: Graph, table: set<Node>, gray: set<Node>, job: nat, n: Node, top: Node?,
                  o: Owners, p: Owners, x: Node)
    requires n in g && n !in gray && x in o && x in p && Within(o, p) && n in p && p[n] == Owner(job, |gray|, top)
    requires FoundForest(g, table, gray + {n}, job, n, Calls(g[n]), o)
    ensures FoundNode(g, table, gray, job, p, x) && UnderOwner(g, p, x)
  {
    hide *;
    GrayCount(gray, n);
    ForestNode(g, table, gray + {n}, job, n, Calls(g[n]), o, x);
    ClimbsToTop(g, table, gray + {n}, job, n, Calls(g[n]), o, p, x);
    FoundNodeGrows(g, table, gray + {n}, job, o, p, x);
    PlantedNode(g, table, gray, job, n, p, x);
    if TopOf(gray + {n}, job, n, Calls(g[n]), o, x) { PlantedOwner(g, gray, job, n, o, p, x); }
  }

  lemma PlantRoot(g: Graph, table: set<Node>, gray: set<Node>, job: nat, n: Node, top: Node?, o: Owners)
    requires n in g && n !in gray && n !in table && n !in o
    requires FoundForest(g, table, gray + {n}, job, n, Calls(g[n]), o)
    ensures FoundNode(g, table, gray, job, o[n := Owner(job, |gray|, top)], n)
  {
    var p := o[n := Owner(job, |gray|, top)];
    assert Above(p, n, n);
    forall t | t in Calls(g[n])
      ensures t in table || t in gray || Above(p, n, t) || (t in p && p[t].owner == n)
    {
      if t in o { assert t in table || t in gray + {n} || TopOf(gray + {n}, job, n, Calls(g[n]), o, t); }
    }
  }

  lemma Plant(g: Graph, table: set<Node>, gray: set<Node>, job: nat, n: Node, top: Node?, o: Owners)
    requires n in g && n !in gray && n !in table && n !in o
    requires FoundForest(g, table, gray + {n}, job, n, Calls(g[n]), o)
    ensures FoundTree(g, table, gray, job, n, top, o[n := Owner(job, |gray|, top)])
  {
    var p := o[n := Owner(job, |gray|, top)];
    assert Within(o, p);
    hide *;
    PlantRoot(g, table, gray, job, n, top, o);
    forall x | x in p
      ensures FoundNode(g, table, gray, job, p, x) && (x != n ==> UnderOwner(g, p, x))
    {
      if x != n { PlantNode(g, table, gray, job, n, top, o, p, x); }
    }
    TreeFrom(g, table, gray, job, n, top, p);
  }

  lemma TreeFrom(g: Graph, table: set<Node>, gray: set<Node>, job: nat, n: Node, top: Node?, p: Owners)
    requires n in p ==> p[n] == Owner(job, |gray|, top)
    requires forall x :: x in p ==> FoundNode(g, table, gray, job, p, x) && (x != n ==> UnderOwner(g, p, x))
    ensures FoundTree(g, table, gray, job, n, top, p)
  {
    hide FoundNode, UnderOwner;
  }

  lemma CallOnce(c: Node, rest: seq<Node>, x: Node)
    ensures multiset([c] + rest)[x] == multiset(rest)[x] + if x == c then 1 else 0
    ensures x in multiset(rest) <==> x in rest
  {
  }

  lemma JoinTop(g: Graph, table: set<Node>, gray: set<Node>, job: nat, top: Node, c: Node, rest: seq<Node>,
                a: Owners, b: Owners)
    requires FoundTree(g, table, gray, job, c, top, a) && FoundForest(g, table, gray, job, top, rest, b)
    requires a.Keys !! b.Keys && c in a
    ensures TopOf(gray, job, top, [c] + rest, a + b, c)
  {
    assert FoundNode(g, table, gray, job, a, c);
    CallOnce(c, rest, c);
    assert c in [c] + rest;
  }

  lemma JoinFirst(g: Graph, table: set<Node>, gray: set<Node>, job: nat, c: Node, top: Node, a: Owners, p: Owners,
                  x: Node)
    requires FoundTree(g, table, gray, job, c, top, a) && x in a && Within(a, p)
    ensures x in p && FoundNode(g, table, gray, job, p, x) && (x != c ==> UnderOwner(g, p, x))
  {
    hide FoundNode, UnderOwner;
    FoundNodeGrows(g, table, gray, job, a, p, x);
  }

  lemma JoinRest(g: Graph, table: set<Node>, gray: set<Node>, job: nat, top: Node, c: Node, rest: seq<Node>,
                 b: Owners, p: Owners, x: Node)
    requires FoundForest(g, table, gray, job, top, rest, b) && x in b && Within(b, p) && x != c
    ensures x in p && FoundNode(g, table, gray, job, p, x)
    ensures TopOf(gray, job, top, [c] + rest, p, x) || UnderOwner(g, p, x)
  {
    hide FoundNode, UnderOwner;
    FoundNodeGrows(g, table, gray, job, b, p, x);
    CallOnce(c, rest, x);
    assert x in rest ==> x in [c] + rest;
  }

  lemma JoinNode(g: Graph, table: set<Node>, gray: set<Node>, job: nat, top: Node, c: Node, rest: seq<Node>,
                 a: Owners, b: Owners, x: Node)
    requires FoundTree(g, table, gray, job, c, top, a) && FoundForest(g, table, gray, job, top, rest, b)
    requires a.Keys !! b.Keys && (c in a || c in table || c in gray) && x in a + b
    ensures FoundNode(g, table, gray, job, a + b, x)
    ensures TopOf(gray, job, top, [c] + rest, a + b, x) || UnderOwner(g, a + b, x)
  {
    assert Within(a, a + b) && Within(b, a + b);
    assert x in b ==> FoundNode(g, table, gray, job, b, x);
    hide FoundTree, FoundForest, UnderOwner, Within, TopOf;
    if x in a {
      JoinFirst(g, table, gray, job, c, top, a, a + b, x);
      if x == c { JoinTop(g, table, gray, job, top, c, rest, a, b); }
    } else {
      JoinRest(g, table, gray, job, top, c, rest, b, a + b, x);
    }
  }

  lemma Join(g: Graph, table: set<Node>, gray: set<Node>, job: nat, top: Node, c: Node, rest: seq<Node>,
             a: Owners, b: Owners)
    requires FoundTree(g, table, gray, job, c, top, a) && FoundForest(g, table, gray, job, top, rest, b)
    requires a.Keys !! b.Keys && (c in a || c in table || c in gray)
    ensures FoundForest(g, table, gray, job, top, [c] + rest, a + b)
  {
    forall x | x in a + b
      ensures FoundNode(g, table, gray, job, a + b, x)
      ensures TopOf(gray, job, top, [c] + rest, a + b, x) || UnderOwner(g, a + b, x)
    {
      JoinNode(g, table, gray, job, top, c, rest, a, b, x);
    }
    forall d | d in [c] + rest
      ensures d in table || d in gray || (d in a + b && TopOf(gray, job, top, [c] + rest, a + b, d))
    {
      if d == c {
        if c in a { JoinTop(g, table, gray, job, top, c, rest, a, b); }
      } else {
        assert d in rest;
        CallOnce(c, rest, d);
      }
    }
    hide FoundNode, UnderOwner, TopOf, FoundTree;
  }

  ghost predicate Lists(o: Owners, ns: seq<Node>)
  {
    (forall x :: x in o ==> x in ns) && (forall x :: x in ns ==> x in o)
  }

  lemma ListsJoin(a: Owners, first: seq<Node>, b: Owners, others: seq<Node>)
    requires Lists(a, first) && Lists(b, others) && forall x :: x in others ==> x !in first
    ensures a.Keys !! b.Keys && Lists(a + b, first + others)
    ensures forall x :: x in first ==> x in a
  {
  }

  lemma InLists(o: Owners, ns: seq<Node>)
    requires Lists(o, ns)
    ensures forall x :: x in ns ==> x in o
  {
  }

  lemma {:induction false} FindTree(g: Graph, table: set<Node>, gray: set<Node>, job: nat, n: Node, top: Node?)
    returns (o: Owners)
    requires CallsClosed(g) && n in g && Distinct(Order(g, table, n, gray))
    ensures Lists(o, Order(g, table, n, gray)) && FoundTree(g, table, gray, job, n, top, o)
    decreases g.Keys - gray, 1, 0
  {
    if n in gray || n in table {
      o := map[];
    } else {
      assert g.Keys - (gray + {n}) < g.Keys - gray by { assert n in g.Keys - gray; }
      var below := OrderAll(g, table, Calls(g[n]), gray + {n});
      assert Order(g, table, n, gray) == below + [n];
      OrderAllInGraph(g, table, Calls(g[n]), gray + {n});
      hide Order, OrderAll, Calls, Distinct, FoundTree, FoundForest;
      DistinctAppend(below, [n]);
      var children := FindForest(g, table, gray + {n}, job, n, Calls(g[n]));
      Plant(g, table, gray, job, n, top, children);
      o := children[n := Owner(job, |gray|, top)];
    }
  }

  lemma {:induction false} FindForest(g: Graph, table: set<Node>, gray: set<Node>, job: nat, top: Node,
                                      calls: seq<Node>)
    returns (o: Owners)
    requires CallsClosed(g) && (forall c :: c in calls ==> c in g) && Distinct(OrderAll(g, table, calls, gray))
    ensures Lists(o, OrderAll(g, table, calls, gray)) && FoundForest(g, table, gray, job, top, calls, o)
    decreases g.Keys - gray, 2, |calls|
  {
    if calls == [] {
      o := map[];
    } else {
      var c, rest := calls[0], calls[1..];
      var first, others := Order(g, table, c, gray), OrderAll(g, table, rest, gray);
      assert OrderAll(g, table, calls, gray) == first + others && calls == [c] + rest;
      OrderInGraph(g, table, c, gray);
      hide *;
      DistinctAppend(first, others);
      var a := FindTree(g, table, gray, job, c, top);
      var b := FindForest(g, table, gray, job, top, rest);
      ListsJoin(a, first, b, others);
      Join(g, table, gray, job, top, c, rest, a, b);
      o := a + b;
    }
  }

  // ---- all jobs together

  lemma TreeIsPlaced(g: Graph, jobs: seq<Job>, job: nat, o: Owners, p: Owners, x: Node)
    requires job < |jobs| && x in o && Within(o, p)
    requires FoundTree(g, jobs[job].table, {}, job, jobs[job].root, null, o)
    ensures x in p && Placed(g, jobs, p, x) && CallsOwned(g, jobs, p, x)
  {
    assert FoundNode(g, jobs[job].table, {}, job, o, x);
    FoundNodeGrows(g, jobs[job].table, {}, job, o, p, x);
    hide Above, Calls;
  }

  /** What has been found for the first k jobs. */
  ghost predicate FoundJobs(g: Graph, jobs: seq<Job>, k: nat, o: Owners)
    requires k <= |jobs|
  {
    && (forall x :: x in o ==> Placed(g, jobs, o, x) && CallsOwned(g, jobs, o, x) && o[x].job < k)
    && (forall i :: 0 <= i < k ==> RootPlaced(jobs, o, i))
  }

  lemma PlacedGrows(g: Graph, jobs: seq<Job>, o: Owners, p: Owners, x: Node)
    requires x in o && Within(o, p) && Placed(g, jobs, o, x) && CallsOwned(g, jobs, o, x)
    ensures x in p && Placed(g, jobs, p, x) && CallsOwned(g, jobs, p, x)
  {
    forall t | t in Calls(g[x])
      ensures t in jobs[p[x].job].table || Above(p, x, t) || (t in p && p[t].owner == x)
    {
      if Above(o, x, t) { AboveGrows(o, p, x, t); }
    }
    hide Above, Calls;
  }

  ghost predicate FoundBefore(g: Graph, jobs: seq<Job>, o: Owners, x: Node, k: nat)
    requires x in o
  {
    Placed(g, jobs, o, x) && CallsOwned(g, jobs, o, x) && o[x].job < k
  }

  lemma FoundNodeJob(g: Graph, table: set<Node>, gray: set<Node>, job: nat, n: Node, top: Node?, o: Owners, x: Node)
    requires FoundTree(g, table, gray, job, n, top, o) && x in o
    ensures o[x].job == job && (n in o ==> o[n] == Owner(job, |gray|, top))
  {
    assert FoundNode(g, table, gray, job, o, x);
  }

  lemma OldNodeFound(g: Graph, jobs: seq<Job>, k: nat, a: Owners, o: Owners, x: Node)
    requires k < |jobs| && FoundJobs(g, jobs, k, a) && Within(a, o) && x in a
    ensures x in o && FoundBefore(g, jobs, o, x, k + 1)
  {
    hide Above, Calls, Placed, CallsOwned;
    PlacedGrows(g, jobs, a, o, x);
  }

  lemma NewNodeFound(g: Graph, jobs: seq<Job>, k: nat, b: Owners, o: Owners, x: Node)
    requires k < |jobs| && Within(b, o) && x in b
    requires FoundTree(g, jobs[k].table, {}, k, jobs[k].root, null, b)
    ensures x in o && FoundBefore(g, jobs, o, x, k + 1)
  {
    hide FoundTree, Placed, CallsOwned;
    FoundNodeJob(g, jobs[k].table, {}, k, jobs[k].root, null, b, x);
    TreeIsPlaced(g, jobs, k, b, o, x);
  }

  lemma RootStaysPlaced(g: Graph, jobs: seq<Job>, k: nat, a: Owners, b: Owners, i: nat)
    requires k < |jobs| && FoundJobs(g, jobs, k, a) && a.Keys !! b.Keys && i < k
    ensures RootPlaced(jobs, a + b, i)
  {
    hide Placed, CallsOwned;
    assert RootPlaced(jobs, a, i);
  }

  lemma NewRootPlaced(g: Graph, jobs: seq<Job>, k: nat, a: Owners, b: Owners)
    requires k < |jobs| && FoundTree(g, jobs[k].table, {}, k, jobs[k].root, null, b) && a.Keys !! b.Keys
    requires jobs[k].root in jobs[k].table || jobs[k].root in b
    ensures RootPlaced(jobs, a + b, k)
  {
    hide FoundTree;
    if jobs[k].root in b { FoundNodeJob(g, jobs[k].table, {}, k, jobs[k].root, null, b, jobs[k].root); }
  }

  lemma JobsFound(g: Graph, jobs: seq<Job>, k: nat, o: Owners)
    requires k <= |jobs| && (forall x :: x in o ==> FoundBefore(g, jobs, o, x, k))
    requires forall i :: 0 <= i < k ==> RootPlaced(jobs, o, i)
    ensures FoundJobs(g, jobs, k, o)
  {
    hide Placed, CallsOwned, RootPlaced;
  }

  lemma JobFound(g: Graph, jobs: seq<Job>, k: nat, a: Owners, b: Owners)
    requires k < |jobs| && FoundJobs(g, jobs, k, a) && a.Keys !! b.Keys
    requires FoundTree(g, jobs[k].table, {}, k, jobs[k].root, null, b)
    requires jobs[k].root in jobs[k].table || jobs[k].root in b
    ensures FoundJobs(g, jobs, k + 1, a + b)
  {
    var o := a + b;
    assert Within(a, o) && Within(b, o);
    hide *;
    forall x | x in o
      ensures FoundBefore(g, jobs, o, x, k + 1)
    {
      if x in a {
        OldNodeFound(g, jobs, k, a, o, x);
      } else {
        NewNodeFound(g, jobs, k, b, o, x);
      }
    }
    forall i | 0 <= i < k + 1
      ensures RootPlaced(jobs, o, i)
    {
      if i < k { RootStaysPlaced(g, jobs, k, a, b, i); }
    }
    NewRootPlaced(g, jobs, k, a, b);
    JobsFound(g, jobs, k + 1, o);
  }

  lemma {:induction false} FindJobs(g: Graph, jobs: seq<Job>, k: nat) returns (o: Owners)
    requires CallsClosed(g) && RootsIn(g, jobs) && k <= |jobs| && RootsIn(g, jobs[..k])
    requires Distinct(JobsOrder(g, jobs[..k]))
    ensures Lists(o, JobsOrder(g, jobs[..k])) && FoundJobs(g, jobs, k, o)
  {
    if k == 0 {
      o := map[];
    } else {
      var job := jobs[k - 1];
      assert job in jobs;
      assert jobs[..k][..k - 1] == jobs[..k - 1] && jobs[..k][k - 1] == job;
      assert RootsIn(g, jobs[..k - 1]) by { assert forall j :: j in jobs[..k - 1] ==> j in jobs; }
      var before, mine := JobsOrder(g, jobs[..k - 1]), Order(g, job.table, job.root, {});
      assert JobsOrder(g, jobs[..k]) == before + mine;
      OrderInGraph(g, job.table, job.root, {});
      hide *;
      DistinctAppend(before, mine);
      var a := FindJobs(g, jobs, k - 1);
      var b := FindTree(g, job.table, {}, k - 1, job.root, null);
      ListsJoin(a, before, b, mine);
      InLists(b, mine);
      JobFound(g, jobs, k - 1, a, b);
      o := a + b;
    }
  }

  lemma ListsAreUnshared(g: Graph, o: Owners, ns: seq<Node>)
    requires ListsDistinct(g, ns) && Lists(o, ns)
    ensures ListsUnshared(g, o)
  {
    hide ListOf;
    forall x, y | x in o && y in o && x in g && y in g && x != y && ListOf(g[x]) != null
      ensures ListOf(g[x]) != ListOf(g[y])
    {
      var i :| 0 <= i < |ns| && ns[i] == x;
      var j :| 0 <= j < |ns| && ns[j] == y;
      if i < j {
        assert ListOf(g[ns[i]]) != ListOf(g[ns[j]]);
      } else if ListOf(g[y]) != null {
        assert ListOf(g[ns[j]]) != ListOf(g[ns[i]]);
      }
    }
  }

  lemma AllFound(g: Graph, jobs: seq<Job>, o: Owners)
    requires FoundJobs(g, jobs, |jobs|, o) && ListsUnshared(g, o)
    ensures Owned(g, jobs, o)
  {
  }

  /** Where nothing is released twice every node has one owner. */
  lemma SafeIsOwned(g: Graph, jobs: seq<Job>) returns (o: Owners)
    requires CallsClosed(g) && RootsIn(g, jobs) && NoDup(JobsTrace(g, jobs))
    ensures Owned(g, jobs, o) && Lists(o, JobsOrder(g, jobs))
  {
    hide *;
    var ns := JobsOrder(g, jobs);
    JobsOrderInGraph(g, jobs);
    FlatNoDup(g, ns);
    assert jobs[..|jobs|] == jobs;
    o := FindJobs(g, jobs, |jobs|);
    ListsAreUnshared(g, o, ns);
    AllFound(g, jobs, o);
  }

  /** Neither an owned node nor its unit list has been released. */
  ghost predicate Unreleased(g: Graph, o: Owners, dead: seq<Released>)
  {
    forall x :: x in o && x in g ==>
      ReleasedNode(x) !in dead && (ListOf(g[x]) != null ==> ReleasedList(ListOf(g[x])) !in dead)
  }

  lemma OwnedIsNew(g: Graph, o: Owners, ns: seq<Node>, dead: seq<Released>)
    requires Unreleased(g, o, dead) && forall x :: x in ns ==> x in o && x in g
    ensures forall r :: r in Flat(g, ns) ==> r !in dead
  {
    FlatHas(g, ns);
    hide Flat, ListOf;
    forall r | r in Flat(g, ns)
      ensures r !in dead
    {
      match r
      case ReleasedNode(n) =>
      case ReleasedList(l) =>
        var n :| n in ns && ListOf(g[n]) == l;
    }
  }

  lemma NewIsUnreleased(g: Graph, o: Owners, ns: seq<Node>, dead: seq<Released>)
    requires Lists(o, ns) && (forall x :: x in ns ==> x in g) && forall r :: r in Flat(g, ns) ==> r !in dead
    ensures Unreleased(g, o, dead)
  {
    FlatHas(g, ns);
    hide Flat, ListOf;
  }

  lemma OwnedRunIsSafe(g: Graph, jobs: seq<Job>, o: Owners, dead: seq<Released>)
    requires CallsClosed(g) && RootsIn(g, jobs) && Owned(g, jobs, o) && Unreleased(g, o, dead) && NoDup(dead)
    ensures NoDup(dead + JobsTrace(g, jobs))
  {
    hide *;
    OwnedIsSafe(g, jobs, o);
    JobsOrderInGraph(g, jobs);
    OwnedIsNew(g, o, JobsOrder(g, jobs), dead);
    NoDupAppend(dead, JobsTrace(g, jobs));
  }

  lemma SafeRunIsOwned(g: Graph, jobs: seq<Job>, dead: seq<Released>) returns (o: Owners)
    requires CallsClosed(g) && RootsIn(g, jobs) && NoDup(dead + JobsTrace(g, jobs))
    ensures Owned(g, jobs, o) && Unreleased(g, o, dead)
  {
    hide *;
    NoDupAppend(dead, JobsTrace(g, jobs));
    o := SafeIsOwned(g, jobs);
    JobsOrderInGraph(g, jobs);
    NewIsUnreleased(g, o, JobsOrder(g, jobs), dead);
  }

  /** Any sequence of calls from outside, made when `dead` has been released, releases nothing twice exactly if every
      node they reach has one owner and was not released before. */
  lemma SafeIffOwned(g: Graph, jobs: seq<Job>, dead: seq<Released>)
    requires CallsClosed(g) && RootsIn(g, jobs) && NoDup(dead)
    ensures NoDup(dead + JobsTrace(g, jobs)) <==> exists o: Owners :: Owned(g, jobs, o) && Unreleased(g, o, dead)
  {
    hide *;
    if NoDup(dead + JobsTrace(g, jobs)) {
      var o := SafeRunIsOwned(g, jobs, dead);
    }
    if o: Owners :| Owned(g, jobs, o) && Unreleased(g, o, dead) {
      OwnedRunIsSafe(g, jobs, o, dead);
    }
  }
}
