/** Which trees, freed one by one or with the type table (src/ast/ast.c:551-649, 2231-2262; src/core/utils.c:3699-3739),
    are freed safely: those in which every node has one owner. */
module AstTearDown {
  import opened AstGraph
  import opened AstFree
  import opened AstOwner
  import opened Wrappers

  /** The calls of freeAST made while the table names `table`. */
  ghost function FreeJobs(defs: seq<Node>, table: set<Node>): (jobs: seq<Job>)
    ensures |jobs| == |defs|
  {
    seq(|defs|, i requires 0 <= i < |defs| => Job(defs[i], table))
  }

  /** The calls of freeAST made by the teardown: each while the entries behind still stand. */
  ghost function TearJobs(entries: seq<Node?>): seq<Job>
  {
    if entries == [] then []
    else (if entries[0] == null then [] else [Job(entries[0], NamedBy(entries[1..]))]) + TearJobs(entries[1..])
  }

  /** The calls made when definitions are freed first and the table is torn down then. */
  ghost function ShutdownJobs(defs: seq<Node>, entries: seq<Node?>): seq<Job>
  {
    FreeJobs(defs, NamedBy(entries)) + TearJobs(entries)
  }

  ghost function Shutdown(g: Graph, defs: seq<Node>, entries: seq<Node?>, dead: seq<Released>): Option<seq<Released>>
    requires CallsClosed(g) && NamedBy(entries) <= g.Keys && forall d :: d in defs ==> d in g
  {
    match WalkAll(g, NamedBy(entries), defs, {}, dead)
    case None => None
    case Some(after) => TearDown(g, entries, after)
  }

  ghost function ShutdownTrace(g: Graph, defs: seq<Node>, entries: seq<Node?>): seq<Released>
    requires CallsClosed(g) && NamedBy(entries) <= g.Keys && forall d :: d in defs ==> d in g
  {
    TraceAll(g, NamedBy(entries), defs, {}) + TearTrace(g, entries)
  }

  lemma JobsTraceSnoc(g: Graph, jobs: seq<Job>, j: Job)
    requires CallsClosed(g) && RootsIn(g, jobs) && j.root in g
    ensures RootsIn(g, jobs + [j]) && JobsTrace(g, jobs + [j]) == JobsTrace(g, jobs) + Trace(g, j.table, j.root, {})
  {
    hide Trace, CallsClosed;
    assert (jobs + [j])[..|jobs|] == jobs;
  }

  lemma ConcatStep(g: Graph, a: seq<Job>, front: seq<Job>, last: Job)
    requires CallsClosed(g) && RootsIn(g, a) && RootsIn(g, front) && last.root in g && RootsIn(g, a + front)
    requires JobsTrace(g, a + front) == JobsTrace(g, a) + JobsTrace(g, front)
    ensures RootsIn(g, front + [last]) && RootsIn(g, a + (front + [last]))
    ensures JobsTrace(g, a + (front + [last])) == JobsTrace(g, a) + JobsTrace(g, front + [last])
  {
    hide *;
    JobsTraceSnoc(g, front, last);
    JobsTraceSnoc(g, a + front, last);
    assert a + (front + [last]) == a + front + [last];
  }

  lemma NoJobs(g: Graph)
    requires CallsClosed(g)
    ensures RootsIn(g, []) && JobsTrace(g, []) == []
  {
  }

  lemma RootsInPart(g: Graph, jobs: seq<Job>, part: seq<Job>)
    requires RootsIn(g, jobs) && forall j :: j in part ==> j in jobs
    ensures RootsIn(g, part)
  {
  }

  lemma {:induction false} JobsTraceConcat(g: Graph, a: seq<Job>, b: seq<Job>)
    requires CallsClosed(g) && RootsIn(g, a) && RootsIn(g, b)
    ensures RootsIn(g, a + b) && JobsTrace(g, a + b) == JobsTrace(g, a) + JobsTrace(g, b)
    decreases |b|
  {
    assert forall j :: j in b ==> j.root in g;
    hide *;
    if b == [] {
      NoJobs(g);
      assert a + b == a && JobsTrace(g, a) + [] == JobsTrace(g, a);
    } else {
      var front, last := b[..|b| - 1], b[|b| - 1];
      assert last in b;
      RootsInPart(g, b, front);
      JobsTraceConcat(g, a, front);
      ConcatStep(g, a, front, last);
      assert b == front + [last];
    }
  }

  lemma OneJob(g: Graph, table: set<Node>, n: Node)
    requires CallsClosed(g) && n in g
    ensures RootsIn(g, [Job(n, table)]) && JobsTrace(g, [Job(n, table)]) == Trace(g, table, n, {})
  {
    var jobs := [Job(n, table)];
    assert jobs[..0] == [] && JobsTrace(g, []) == [];
  }

  lemma {:induction false} FreeTraceIsJobs(g: Graph, table: set<Node>, defs: seq<Node>)
    requires CallsClosed(g) && forall d :: d in defs ==> d in g
    ensures RootsIn(g, FreeJobs(defs, table)) && JobsTrace(g, FreeJobs(defs, table)) == TraceAll(g, table, defs, {})
    decreases |defs|
  {
    if defs != [] {
      FreeTraceIsJobs(g, table, defs[1..]);
      OneJob(g, table, defs[0]);
      assert FreeJobs(defs, table) == [Job(defs[0], table)] + FreeJobs(defs[1..], table);
      JobsTraceConcat(g, [Job(defs[0], table)], FreeJobs(defs[1..], table));
    }
  }

  lemma {:induction false} TearTraceIsJobs(g: Graph, entries: seq<Node?>)
    requires CallsClosed(g) && NamedBy(entries) <= g.Keys
    ensures RootsIn(g, TearJobs(entries)) && JobsTrace(g, TearJobs(entries)) == TearTrace(g, entries)
  {
    if entries != [] {
      assert forall n: Node? :: n in entries[1..] ==> n in entries;
      TearTraceIsJobs(g, entries[1..]);
      if entries[0] != null {
        assert entries[0] in NamedBy(entries);
        OneJob(g, NamedBy(entries[1..]), entries[0]);
        JobsTraceConcat(g, [Job(entries[0], NamedBy(entries[1..]))], TearJobs(entries[1..]));
      } else {
        assert TearJobs(entries) == TearJobs(entries[1..]) && TearTrace(g, entries) == TearTrace(g, entries[1..]);
      }
    }
  }

  lemma ShutdownTraceIsJobs(g: Graph, defs: seq<Node>, entries: seq<Node?>)
    requires CallsClosed(g) && NamedBy(entries) <= g.Keys && forall d :: d in defs ==> d in g
    ensures RootsIn(g, ShutdownJobs(defs, entries))
    ensures JobsTrace(g, ShutdownJobs(defs, entries)) == ShutdownTrace(g, defs, entries)
  {
    FreeTraceIsJobs(g, NamedBy(entries), defs);
    TearTraceIsJobs(g, entries);
    JobsTraceConcat(g, FreeJobs(defs, NamedBy(entries)), TearJobs(entries));
  }

  lemma ShutdownIffNoDup(g: Graph, defs: seq<Node>, entries: seq<Node?>, dead: seq<Released>)
    requires CallsClosed(g) && NamedBy(entries) <= g.Keys && forall d :: d in defs ==> d in g
    requires NoDup(dead) && Alive(NamedBy(entries), dead)
    ensures Shutdown(g, defs, entries, dead) ==
      if NoDup(dead + ShutdownTrace(g, defs, entries)) then Some(dead + ShutdownTrace(g, defs, entries)) else None
  {
    var first, rest := TraceAll(g, NamedBy(entries), defs, {}), TearTrace(g, entries);
    assert {} + NamedBy(entries) == NamedBy(entries);
    WalkAllIffNoDup(g, NamedBy(entries), defs, {}, dead);
    TraceAllSpares(g, NamedBy(entries), defs, {});
    assert dead + first + rest == dead + (first + rest);
    hide WalkAll, TraceAll, TearDown, TearTrace, NoDup, CallsClosed;
    NoDupAppend(dead + first, rest);
    if NoDup(dead + first) {
      TearDownIffNoDup(g, entries, dead + first);
    }
  }

  /** One walk from outside is safe exactly if every node it reaches has one owner: each call goes to a node the caller
      owns and calls once, to an ancestor or to a node the table names, and no unit list is shared. */
  lemma WalkSafeIffOwned(g: Graph, table: set<Node>, n: Node, dead: seq<Released>)
    requires CallsClosed(g) && n in g && NoDup(dead) && Alive(table, dead)
    ensures Walk(g, table, n, {}, dead).Some? <==>
      exists o: Owners :: Owned(g, [Job(n, table)], o) && Unreleased(g, o, dead)
  {
    assert {} + table == table;
    hide *;
    WalkIffNoDup(g, table, n, {}, dead);
    OneJob(g, table, n);
    SafeIffOwned(g, [Job(n, table)], dead);
  }

  /** Freeing definitions and then tearing the table down is safe exactly if every node has one owner over all of it. */
  lemma ShutdownSafeIffOwned(g: Graph, defs: seq<Node>, entries: seq<Node?>, dead: seq<Released>)
    requires CallsClosed(g) && NamedBy(entries) <= g.Keys && forall d :: d in defs ==> d in g
    requires NoDup(dead) && Alive(NamedBy(entries), dead)
    ensures Shutdown(g, defs, entries, dead).Some? <==>
      exists o: Owners :: Owned(g, ShutdownJobs(defs, entries), o) && Unreleased(g, o, dead)
  {
    hide *;
    ShutdownIffNoDup(g, defs, entries, dead);
    ShutdownTraceIsJobs(g, defs, entries);
    SafeIffOwned(g, ShutdownJobs(defs, entries), dead);
  }

  /** The teardown alone. */
  lemma TearDownSafeIffOwned(g: Graph, entries: seq<Node?>, dead: seq<Released>)
    requires CallsClosed(g) && NamedBy(entries) <= g.Keys && NoDup(dead) && Alive(NamedBy(entries), dead)
    ensures TearDown(g, entries, dead).Some? <==>
      exists o: Owners :: Owned(g, TearJobs(entries), o) && Unreleased(g, o, dead)
  {
    hide *;
    TearDownIffNoDup(g, entries, dead);
    TearTraceIsJobs(g, entries);
    SafeIffOwned(g, TearJobs(entries), dead);
  }

  ghost predicate TablesShrink(jobs: seq<Job>)
  {
    forall i, j :: 0 <= i < j < |jobs| ==> jobs[j].table <= jobs[i].table
  }

  lemma {:induction false} TearTablesShrink(entries: seq<Node?>)
    ensures TablesShrink(TearJobs(entries)) && forall j :: j in TearJobs(entries) ==> j.table <= NamedBy(entries)
  {
    if entries != [] {
      assert forall n: Node? :: n in entries[1..] ==> n in entries;
      assert NamedBy(entries[1..]) <= NamedBy(entries);
      TearTablesShrink(entries[1..]);
      hide NamedBy;
    }
  }

  lemma ShutdownTablesShrink(defs: seq<Node>, entries: seq<Node?>)
    ensures TablesShrink(ShutdownJobs(defs, entries))
  {
    TearTablesShrink(entries);
    hide TearJobs, NamedBy;
    var jobs := ShutdownJobs(defs, entries);
    forall i, j | 0 <= i < j < |jobs|
      ensures jobs[j].table <= jobs[i].table
    {
      if j >= |defs| { assert jobs[j] in TearJobs(entries); }
    }
  }

  lemma {:induction false} LastEntryJob(entries: seq<Node?>, i: nat) returns (k: nat)
    requires i < |entries| && entries[i] != null
    ensures k < |TearJobs(entries)| && TearJobs(entries)[k] == Job(entries[i], NamedBy(entries[i + 1..]))
  {
    if i == 0 {
      k := 0;
    } else {
      assert entries[1..][i..] == entries[i + 1..];
      var later := LastEntryJob(entries[1..], i - 1);
      k := later + if entries[0] == null then 0 else 1;
    }
  }

  /** In a safe shutdown no tree reaches a root whose last naming entry has been processed: the root of the last entry
      that names it is called from trees freed before it, or from its own tree below itself. */
  lemma NoCallIntoReleasedRoot(g: Graph, defs: seq<Node>, entries: seq<Node?>, o: Owners, i: nat, x: Node)
    requires Owned(g, ShutdownJobs(defs, entries), o) && x in o && x in g
    requires i < |entries| && entries[i] != null && entries[i] !in entries[i + 1..] && entries[i] in Calls(g[x])
    ensures entries[i] in o && o[entries[i]].owner == null && o[x].job <= o[entries[i]].job
    ensures o[x].job == o[entries[i]].job ==> Above(o, x, entries[i])
  {
    var jobs, r: Node := ShutdownJobs(defs, entries), entries[i];
    var k := LastEntryJob(entries, i);
    var last := |defs| + k;
    assert jobs[last] == Job(r, NamedBy(entries[i + 1..])) && r !in jobs[last].table;
    assert RootPlaced(jobs, o, last);
    ShutdownTablesShrink(defs, entries);
    OwnedAt(g, jobs, o, x);
    hide ShutdownJobs, Calls, Owned;
    if Above(o, x, r) {
      AboveSameJob(g, jobs, o, x, r);
    } else if r in jobs[o[x].job].table {
      assert o[x].job < last;
    }
  }

  /** No leak: with every node the shutdown releases all that its edges lead to. */
  lemma ShutdownLeaksNothing(g: Graph, defs: seq<Node>, entries: seq<Node?>, x: Node, c: Node)
    requires CallsClosed(g) && NamedBy(entries) <= g.Keys && forall d :: d in defs ==> d in g
    requires x in g && Descends(g[x], c) && ReleasedNode(x) in ShutdownTrace(g, defs, entries)
    ensures ReleasedNode(c) in ShutdownTrace(g, defs, entries)
  {
    var first, table := TraceAll(g, NamedBy(entries), defs, {}), NamedBy(entries);
    assert c in table ==> c in entries;
    hide TraceAll, TearTrace, CallsClosed, Descends, NamedBy;
    if ReleasedNode(x) in first {
      TraceAllClosed(g, table, defs, {}, x, c);
      if c in table { RootsReleased(g, entries, c); }
    } else {
      TearDownLeaksNothing(g, entries, x, c);
    }
  }

  /** Every definition and every root is released. */
  lemma ShutdownReleases(g: Graph, defs: seq<Node>, entries: seq<Node?>, n: Node)
    requires CallsClosed(g) && NamedBy(entries) <= g.Keys && forall d :: d in defs ==> d in g
    requires n in defs || n in entries
    ensures ReleasedNode(n) in ShutdownTrace(g, defs, entries)
  {
    assert n in NamedBy(entries) ==> n in entries;
    hide TraceAll, TearTrace, CallsClosed, NamedBy;
    if n in entries {
      RootsReleased(g, entries, n);
    } else {
      TraceAllReleases(g, NamedBy(entries), defs, {}, n);
    }
  }

  /** What the shutdown adds to `dead`, said by the fields of the nodes. */
  ghost predicate NothingLeaks(g: Graph, defs: seq<Node>, named: set<Node>, trace: seq<Released>)
  {
    && (forall n :: n in named ==> ReleasedNode(n) in trace)
    && (forall n :: n in defs ==> ReleasedNode(n) in trace)
    && forall x, c :: x in g && c in g && ReleasedNode(x) in trace && Descends(g[x], c) ==> ReleasedNode(c) in trace
  }

  lemma ShutdownIsWhole(g: Graph, defs: seq<Node>, entries: seq<Node?>)
    requires CallsClosed(g) && NamedBy(entries) <= g.Keys && forall d :: d in defs ==> d in g
    ensures NothingLeaks(g, defs, NamedBy(entries), ShutdownTrace(g, defs, entries))
  {
    var trace, named := ShutdownTrace(g, defs, entries), NamedBy(entries);
    assert forall n :: n in named ==> n in entries;
    hide ShutdownTrace, CallsClosed, Descends, NamedBy;
    forall n | n in named
      ensures ReleasedNode(n) in trace
    {
      ShutdownReleases(g, defs, entries, n);
    }
    forall n | n in defs
      ensures ReleasedNode(n) in trace
    {
      ShutdownReleases(g, defs, entries, n);
    }
    forall x, c | x in g && c in g && ReleasedNode(x) in trace && Descends(g[x], c)
      ensures ReleasedNode(c) in trace
    {
      ShutdownLeaksNothing(g, defs, entries, x, c);
    }
  }

  /** The definitions, then the table: from any state in which the owned nodes are unreleased, all of them are released
      with their unit lists, each once and in order, and nothing else is. */
  method ShutDown(defs: seq<Node>, table: TypeTable, alloc: Allocator, ghost g: Graph, ghost o: Owners)
    requires CallsClosed(g) && table.Named() <= g.Keys && forall d :: d in defs ==> d in g
    requires Untouched(g, {}, alloc.released) && NoDup(alloc.released) && Alive(table.Named(), alloc.released)
    requires Owned(g, ShutdownJobs(defs, table.roots), o) && Unreleased(g, o, alloc.released)
    modifies table, alloc, g.Keys
    ensures table.Named() == {} && Untouched(g, {}, alloc.released)
    ensures alloc.released == old(alloc.released) + ShutdownTrace(g, defs, old(table.roots)) && NoDup(alloc.released)
    ensures forall r :: r in alloc.released <==> r in old(alloc.released) || OwnedObject(g, o, r)
    ensures NothingLeaks(g, defs, old(table.Named()), alloc.released[|old(alloc.released)|..])
  {
    hide *;
    NamedIsNamedBy(table);
    ghost var entries, dead := table.roots, alloc.released;
    ghost var start, first := ShutdownStarts(g, defs, table.roots, o, alloc.released);
    FreeDefinitions(defs, table, alloc, g);
    FreeTypeTableASTNodes(table, alloc, g);
    ShutdownTraceIsJobs(g, defs, entries);
    OwnedIsReleased(g, ShutdownJobs(defs, entries), o);
    ReleasedTogether(dead, ShutdownTrace(g, defs, entries), g, o);
    ShutdownIsWhole(g, defs, entries);
    assert (dead + ShutdownTrace(g, defs, entries))[|dead|..] == ShutdownTrace(g, defs, entries);
  }

  lemma ReleasedTogether(dead: seq<Released>, trace: seq<Released>, g: Graph, o: Owners)
    requires forall r :: r in trace <==> OwnedObject(g, o, r)
    ensures forall r :: r in dead + trace <==> r in dead || OwnedObject(g, o, r)
  {
    hide OwnedObject;
  }

  lemma NamedIsNamedBy(table: TypeTable)
    ensures table.Named() == NamedBy(table.roots)
  {
  }

  lemma ShutdownStarts(g: Graph, defs: seq<Node>, entries: seq<Node?>, o: Owners, dead: seq<Released>)
    returns (first: seq<Released>, rest: seq<Released>)
    requires CallsClosed(g) && NamedBy(entries) <= g.Keys && forall d :: d in defs ==> d in g
    requires NoDup(dead) && Alive(NamedBy(entries), dead)
    requires Owned(g, ShutdownJobs(defs, entries), o) && Unreleased(g, o, dead)
    ensures WalkAll(g, NamedBy(entries), defs, {}, dead) == Some(dead + first)
    ensures Alive(NamedBy(entries), dead + first) && NoDup(dead + first + rest) && rest == TearTrace(g, entries)
    ensures dead + first + rest == dead + ShutdownTrace(g, defs, entries)
  {
    first, rest := TraceAll(g, NamedBy(entries), defs, {}), TearTrace(g, entries);
    assert {} + NamedBy(entries) == NamedBy(entries);
    WalkAllIffNoDup(g, NamedBy(entries), defs, {}, dead);
    TraceAllSpares(g, NamedBy(entries), defs, {});
    assert dead + first + rest == dead + (first + rest);
    hide WalkAll, TraceAll, TearTrace, NoDup, CallsClosed, Owned, ShutdownJobs;
    ShutdownTraceIsJobs(g, defs, entries);
    OwnedRunIsSafe(g, ShutdownJobs(defs, entries), o, dead);
    NoDupAppend(dead + first, rest);
  }
}
