/** verifyASTLinks (src/ast/ast.c:2198-2229) and what it says about a copy. */
module AstLinks {
  import opened AstGraph
  import opened AstCopy
  import opened Wrappers

  /** The check descends, unlike a copy, also past a type reference. */
  ghost predicate LeadsTo(s: Shape, older t: Node)
  {
    t == s.left || t == s.right || t == s.extra || t in s.children
  }

  /** The graph is closed and, `rank` decreasing along every edge, has no cycle: on a cycle the check never returns. */
  ghost predicate Ranked(g: Graph, rank: map<Node, nat>)
  {
    && rank.Keys == g.Keys
    && forall n, t :: n in g && LeadsTo(g[n], t) ==> t in g && rank[t] < rank[n]
  }

  /** `d` is `n` or something `n` leads to. */
  ghost predicate Under(g: Graph, rank: map<Node, nat>, n: Node, d: Node)
    requires Ranked(g, rank) && n in g
    decreases rank[n]
  {
    d == n || exists t :: LeadsTo(g[n], t) && Under(g, rank, t, d)
  }

  ghost predicate LinksOk(g: Graph, rank: map<Node, nat>, par: Parents, n: Node, expected: Node?)
    requires Ranked(g, rank) && n in g && g.Keys <= par.Keys
  {
    par[n] == expected && forall p, t :: p in g && Under(g, rank, n, p) && LeadsTo(g[p], t) ==> par[t] == p
  }

  lemma LinksOkStep(g: Graph, rank: map<Node, nat>, par: Parents, n: Node, expected: Node?)
    requires Ranked(g, rank) && n in g && g.Keys <= par.Keys
    ensures LinksOk(g, rank, par, n, expected) <==>
      (par[n] == expected && forall t :: LeadsTo(g[n], t) ==> LinksOk(g, rank, par, t, n))
  {
    hide LeadsTo;
    if par[n] == expected && forall t :: LeadsTo(g[n], t) ==> LinksOk(g, rank, par, t, n) {
      forall p, t | p in g && Under(g, rank, n, p) && LeadsTo(g[p], t)
        ensures par[t] == p
      {
        if p != n {
          var c :| LeadsTo(g[n], c) && Under(g, rank, c, p);
          assert LinksOk(g, rank, par, c, n);
        }
      }
    }
    if LinksOk(g, rank, par, n, expected) {
      forall c | LeadsTo(g[n], c)
        ensures LinksOk(g, rank, par, c, n)
      {
        assert Under(g, rank, n, n);
        forall p, t | p in g && Under(g, rank, c, p) && LeadsTo(g[p], t)
          ensures par[t] == p
        {
          assert Under(g, rank, n, p);
        }
      }
    }
  }

  lemma {:induction false} UnderClosed(g: Graph, rank: map<Node, nat>, n: Node, p: Node, t: Node)
    requires Ranked(g, rank) && n in g && p in g && Under(g, rank, n, p) && LeadsTo(g[p], t)
    ensures Under(g, rank, n, t)
    decreases rank[n]
  {
    hide LeadsTo;
    if p == n {
      assert Under(g, rank, t, t);
    } else {
      var c :| LeadsTo(g[n], c) && Under(g, rank, c, p);
      UnderClosed(g, rank, c, p, t);
    }
  }

  lemma {:induction false} UnderLeast(g: Graph, rank: map<Node, nat>, n: Node, s: set<Node>, d: Node)
    requires Ranked(g, rank) && n in g && n in s
    requires forall p, t :: p in s && p in g && LeadsTo(g[p], t) ==> t in s
    requires Under(g, rank, n, d)
    ensures d in s
    decreases rank[n]
  {
    hide LeadsTo;
    if d != n {
      var c :| LeadsTo(g[n], c) && Under(g, rank, c, d);
      UnderLeast(g, rank, c, s, d);
    }
  }

  /** What one call of the check computes: an absent node has nothing to check. */
  ghost predicate SubtreeOk(g: Graph, rank: map<Node, nat>, par: Parents, n: Node?, expected: Node?)
    requires Ranked(g, rank) && (n == null || n in g) && g.Keys <= par.Keys
  {
    n == null || LinksOk(g, rank, par, n, expected)
  }

  ghost predicate ChildIn(g: Graph, n: Node?)
  {
    n == null || n in g
  }

  lemma SubtreeOkStep(g: Graph, rank: map<Node, nat>, par: Parents, n: Node, expected: Node?)
    requires Ranked(g, rank) && n in g && g.Keys <= par.Keys
    ensures rank.Keys == g.Keys
    ensures forall i :: 0 <= i < |g[n].children| && g[n].children[i] != null ==>
      g[n].children[i] in g && rank[g[n].children[i]] < rank[n]
    ensures g[n].left != null ==> g[n].left in g && rank[g[n].left] < rank[n]
    ensures g[n].right != null ==> g[n].right in g && rank[g[n].right] < rank[n]
    ensures g[n].extra != null ==> g[n].extra in g && rank[g[n].extra] < rank[n]
    ensures SubtreeOk(g, rank, par, n, expected) <==>
      (par[n] == expected
       && SubtreeOk(g, rank, par, g[n].left, n) && SubtreeOk(g, rank, par, g[n].right, n)
       && SubtreeOk(g, rank, par, g[n].extra, n)
       && forall i :: 0 <= i < |g[n].children| ==>
            ChildIn(g, g[n].children[i]) && SubtreeOk(g, rank, par, g[n].children[i], n))
  {
    LinksOkStep(g, rank, par, n, expected);
    var s := g[n];
    assert forall i :: 0 <= i < |s.children| && s.children[i] != null ==> LeadsTo(s, s.children[i]);
    assert s.left != null ==> LeadsTo(s, s.left);
    assert s.right != null ==> LeadsTo(s, s.right);
    assert s.extra != null ==> LeadsTo(s, s.extra);
    hide LinksOk;
  }

  method VerifyChildren(node: Node, ghost g: Graph, ghost rank: map<Node, nat>) returns (ok: bool)
    requires Depicts(g) && Ranked(g, rank) && node in g
    ensures ok <==> forall i :: 0 <= i < |g[node].children| ==>
      ChildIn(g, g[node].children[i]) && SubtreeOk(g, rank, ParentsOf(g.Keys), g[node].children[i], node)
    decreases rank[node] + 1, 0
  {
    ghost var par := ParentsOf(g.Keys);
    assert node.Snapshot() == g[node];
    SubtreeOkStep(g, rank, par, node, null);
    hide LinksOk, ParentsOf, Depicts, Ranked, LeadsTo;
    ok := true;
    for i := 0 to |node.children|
      invariant ok <==> forall j :: 0 <= j < i ==>
        ChildIn(g, g[node].children[j]) && SubtreeOk(g, rank, par, g[node].children[j], node)
    {
      if node.children[i] != null {
        var child := VerifyASTLinks(node.children[i], node, g, rank);
        ok := ok && child;
      }
    }
  }

  method VerifySingles(node: Node, ghost g: Graph, ghost rank: map<Node, nat>) returns (ok: bool)
    requires Depicts(g) && Ranked(g, rank) && node in g
    ensures ChildIn(g, g[node].left) && ChildIn(g, g[node].right) && ChildIn(g, g[node].extra)
    ensures ok <==>
      (SubtreeOk(g, rank, ParentsOf(g.Keys), g[node].left, node)
       && SubtreeOk(g, rank, ParentsOf(g.Keys), g[node].right, node)
       && SubtreeOk(g, rank, ParentsOf(g.Keys), g[node].extra, node))
    decreases rank[node] + 1, 0
  {
    assert node.Snapshot() == g[node];
    SubtreeOkStep(g, rank, ParentsOf(g.Keys), node, null);
    hide LinksOk, ParentsOf, Depicts, Ranked, LeadsTo, SubtreeOk;
    var left := VerifyASTLinks(node.left, node, g, rank);
    var right := VerifyASTLinks(node.right, node, g, rank);
    var extra := VerifyASTLinks(node.extra, node, g, rank);
    ok := left && right && extra;
  }

  method VerifyASTLinks(node: Node?, expectedParent: Node?, ghost g: Graph, ghost rank: map<Node, nat>)
    returns (ok: bool)
    requires Depicts(g) && Ranked(g, rank) && (node == null || node in g)
    ensures ok <==> SubtreeOk(g, rank, ParentsOf(g.Keys), node, expectedParent)
    decreases if node == null then 0 else rank[node] + 1, 1
  {
    if node == null {
      return true;
    }
    ghost var par := ParentsOf(g.Keys);
    assert par[node] == node.parent;
    hide *;
    SubtreeOkStep(g, rank, par, node, expectedParent);
    ok := node.parent == expectedParent;
    var singles := VerifySingles(node, g, rank);
    ok := ok && singles;
    var children := VerifyChildren(node, g, rank);
    ok := ok && children;
  }

  /** No type reference in `g` carries the right edge a copy would share. */
  ghost predicate NoSharedRight(g: Graph)
  {
    forall n :: n in g && g[n].info.kind == TypeReference ==> g[n].right == null
  }

  /** An edge of a copy that is not a shared right edge is the image of an edge of the original. */
  lemma EdgeOfCopy(m: Memo, n: Node, s: Shape, c: Shape, d: Node)
    requires CopyOf(m, n, s, c) && LeadsTo(c, d)
    requires s.info.kind == TypeReference ==> s.right == null
    ensures exists t :: Follows(s, t) && t in m && m[t] == d
  {
    if d in c.children {
      var i :| 0 <= i < |c.children| && c.children[i] == d;
      assert Mapped(m, s.children[i], c.children[i]);
      assert Follows(s, s.children[i]);
    } else {
      assert s.left != null ==> Follows(s, s.left);
      assert s.extra != null ==> Follows(s, s.extra);
      assert s.right != null && s.info.kind != TypeReference ==> Follows(s, s.right);
    }
  }

  lemma EdgeIntoCopy(m: Memo, n: Node, s: Shape, c: Shape, t: Node)
    requires CopyOf(m, n, s, c) && Follows(s, t)
    ensures t in m && LeadsTo(c, m[t])
  {
    if t in s.children {
      var i :| 0 <= i < |s.children| && s.children[i] == t;
      assert Mapped(m, s.children[i], c.children[i]);
    }
  }

  lemma OriginalParents(g: Graph, rank: map<Node, nat>, par: Parents, root: Node)
    requires Ranked(g, rank) && root in g && g.Keys <= par.Keys && LinksOk(g, rank, par, root, null)
    requires forall n :: n in g ==> Under(g, rank, root, n)
    ensures par[root] == null
    ensures forall p, t :: p in g && LeadsTo(g[p], t) ==> t in g && par[t] == p
  {
  }

  lemma FollowsLeads(s: Shape, t: Node)
    requires Follows(s, t)
    ensures LeadsTo(s, t)
  {
  }

  lemma ParentsSuffice(g: Graph, rank: map<Node, nat>, par: Parents, n: Node, s: set<Node>)
    requires Ranked(g, rank) && n in g && g.Keys <= par.Keys && n in s && par[n] == null
    requires forall p, t :: p in s && p in g && LeadsTo(g[p], t) ==> t in s && par[t] == p
    ensures LinksOk(g, rank, par, n, null)
  {
    hide LeadsTo, Under;
    forall p, t | p in g && Under(g, rank, n, p) && LeadsTo(g[p], t)
      ensures par[t] == p
    {
      UnderLeast(g, rank, n, s, p);
    }
  }

  /** Under the graph's own parents, the copy of `n` is the parent of all it leads to. */
  lemma CopyEdgeParent(g: Graph, par: Parents, m: Memo, h: Graph, hpar: Parents, n: Node, d: Node)
    requires CopiedGraph(g, par, m, h, hpar) && n in m && LeadsTo(h[m[n]], d)
    requires g[n].info.kind == TypeReference ==> g[n].right == null
    requires forall p, t :: p in g && LeadsTo(g[p], t) ==> t in g && par[t] == p
    ensures d in m.Values && hpar[d] == m[n]
  {
    hide LeadsTo, Follows, CopyOf, Injective;
    EdgeOfCopy(m, n, g[n], h[m[n]], d);
    var t :| Follows(g[n], t) && t in m && m[t] == d;
    var q :| q in m && Follows(g[q], t) && hpar[d] == m[q];
    FollowsLeads(g[n], t);
    FollowsLeads(g[q], t);
  }

  lemma RootCopyHasNoParent(g: Graph, par: Parents, m: Memo, h: Graph, hpar: Parents, root: Node)
    requires CopiedGraph(g, par, m, h, hpar) && root in m && par[root] == null
    requires forall p, t :: p in g && LeadsTo(g[p], t) ==> t in g && par[t] == p
    ensures hpar[m[root]] == null
  {
    hide LeadsTo, Follows, CopyOf, Injective;
    if hpar[m[root]] != null {
      var q :| q in m && Follows(g[q], root) && hpar[m[root]] == m[q];
      FollowsLeads(g[q], root);
      assert false;
    }
  }

  lemma NoSharedRightAt(g: Graph, n: Node)
    requires NoSharedRight(g)
    ensures n in g && g[n].info.kind == TypeReference ==> g[n].right == null
  {
  }

  lemma CopyPasses(g: Graph, rank: map<Node, nat>, par: Parents, root: Node,
                   m: Memo, h: Graph, hpar: Parents, allRank: map<Node, nat>)
    requires Ranked(g, rank) && root in m && CopiedGraph(g, par, m, h, hpar) && Ranked(g + h, allRank)
    requires LinksOk(g, rank, par, root, null) && forall n :: n in g ==> Under(g, rank, root, n)
    requires NoSharedRight(g)
    ensures LinksOk(g + h, allRank, par + hpar, m[root], null)
  {
    hide *;
    CopiedGraphFacts(g, par, m, h, hpar);
    OriginalParents(g, rank, par, root);
    RootCopyHasNoParent(g, par, m, h, hpar, root);
    var all, allPar := g + h, par + hpar;
    forall p, d | p in m.Values && p in all && LeadsTo(all[p], d)
      ensures d in m.Values && allPar[d] == p
    {
      assert all[p] == h[p];
      var n: Node :| n in m && m[n] == p;
      NoSharedRightAt(g, n);
      CopyEdgeParent(g, par, m, h, hpar, n, d);
    }
    ParentsSuffice(all, allRank, allPar, m[root], m.Values);
  }

  lemma LinksOkAt(g: Graph, rank: map<Node, nat>, par: Parents, root: Node, p: Node, t: Node)
    requires Ranked(g, rank) && root in g && g.Keys <= par.Keys && LinksOk(g, rank, par, root, null)
    requires p in g && Under(g, rank, root, p) && LeadsTo(g[p], t)
    ensures t in par && par[t] == p
  {
  }

  lemma SharedRight(m: Memo, n: Node, s: Shape, c: Shape)
    requires CopyOf(m, n, s, c) && s.info.kind == TypeReference && s.right != null
    ensures LeadsTo(s, s.right) && LeadsTo(c, s.right)
  {
  }

  lemma RankedAt(g: Graph, rank: map<Node, nat>, n: Node, t: Node)
    requires Ranked(g, rank) && n in g && LeadsTo(g[n], t)
    ensures t in g
  {
  }

  /** A type reference whose copy is reached and shares a right edge would break the links. */
  lemma SharedRightBreaks(g: Graph, rank: map<Node, nat>, par: Parents, root: Node,
                          m: Memo, h: Graph, hpar: Parents, allRank: map<Node, nat>, n: Node)
    requires Ranked(g, rank) && root in m && CopiedGraph(g, par, m, h, hpar) && Ranked(g + h, allRank)
    requires n in m && m[root] in g + h && Under(g + h, allRank, m[root], m[n])
    requires LinksOk(g + h, allRank, par + hpar, m[root], null)
    requires g[n].info.kind == TypeReference
    ensures g[n].right == null
  {
    hide *;
    CopiedGraphAt(g, par, m, h, hpar, n);
    var q := g[n].right;
    if q != null {
      SharedRight(m, n, g[n], h[m[n]]);
      RankedAt(g, rank, n, q);
      assert (g + h)[m[n]] == h[m[n]];
      assert (par + hpar)[q] == par[q];
      LinksOkAt(g + h, allRank, par + hpar, m[root], m[n], q);
      assert false;
    }
  }

  lemma FollowedUnlessShared(s: Shape, t: Node)
    requires LeadsTo(s, t) && (s.info.kind == TypeReference ==> s.right == null)
    ensures Follows(s, t)
  {
  }

  lemma ReachedStep(g: Graph, par: Parents, root: Node, m: Memo, h: Graph, hpar: Parents,
                    allRank: map<Node, nat>, p: Node, t: Node)
    requires root in m && CopiedGraph(g, par, m, h, hpar) && Ranked(g + h, allRank) && m[root] in g + h
    requires p in m && Under(g + h, allRank, m[root], m[p]) && p in g && LeadsTo(g[p], t)
    requires g[p].info.kind == TypeReference ==> g[p].right == null
    ensures t in m && Under(g + h, allRank, m[root], m[t])
  {
    hide *;
    CopiedGraphAt(g, par, m, h, hpar, p);
    FollowedUnlessShared(g[p], t);
    EdgeIntoCopy(m, p, g[p], h[m[p]], t);
    assert (g + h)[m[p]] == h[m[p]];
    UnderClosed(g + h, allRank, m[root], m[p], m[t]);
  }

  lemma UnderSelf(g: Graph, rank: map<Node, nat>, n: Node)
    requires Ranked(g, rank) && n in g
    ensures Under(g, rank, n, n)
  {
  }

  lemma SharedRightFails(g: Graph, rank: map<Node, nat>, par: Parents, root: Node,
                         m: Memo, h: Graph, hpar: Parents, allRank: map<Node, nat>)
    requires Ranked(g, rank) && root in m && CopiedGraph(g, par, m, h, hpar) && Ranked(g + h, allRank)
    requires forall n :: n in g ==> Under(g, rank, root, n)
    requires LinksOk(g + h, allRank, par + hpar, m[root], null)
    ensures NoSharedRight(g)
  {
    CopiedGraphFacts(g, par, m, h, hpar);
    UnderSelf(g + h, allRank, m[root]);
    hide LinksOk, CopiedGraph, Under, LeadsTo, Injective;
    var reached := set n | n in m && Under(g + h, allRank, m[root], m[n]);
    forall n | n in reached && g[n].info.kind == TypeReference
      ensures g[n].right == null
    {
      SharedRightBreaks(g, rank, par, root, m, h, hpar, allRank, n);
    }
    forall p, t | p in reached && LeadsTo(g[p], t)
      ensures t in reached
    {
      ReachedStep(g, par, root, m, h, hpar, allRank, p, t);
    }
    forall d | d in g
      ensures d in reached
    {
      UnderLeast(g, rank, root, reached, d);
    }
  }

  /** A graph that passes the check has a copy that passes it exactly when no type reference of it has a right edge. */
  lemma CopyPassesIff(g: Graph, rank: map<Node, nat>, par: Parents, root: Node,
                      m: Memo, h: Graph, hpar: Parents, allRank: map<Node, nat>)
    requires Ranked(g, rank) && root in m && CopiedGraph(g, par, m, h, hpar) && Ranked(g + h, allRank)
    requires LinksOk(g, rank, par, root, null) && forall n :: n in g ==> Under(g, rank, root, n)
    ensures LinksOk(g + h, allRank, par + hpar, m[root], null) <==> NoSharedRight(g)
  {
    if NoSharedRight(g) {
      CopyPasses(g, rank, par, root, m, h, hpar, allRank);
    }
    if LinksOk(g + h, allRank, par + hpar, m[root], null) {
      SharedRightFails(g, rank, par, root, m, h, hpar, allRank);
    }
  }

  /** The ranks of the originals, carried over to their copies. */
  ghost function CopyRank(rank: map<Node, nat>, m: Memo): (r: map<Node, nat>)
    requires m.Keys <= rank.Keys
    ensures r.Keys == m.Values
  {
    map c | c in m.Values :: var n :| n in m && m[n] == c; rank[n]
  }

  lemma CopiesRanked(g: Graph, rank: map<Node, nat>, par: Parents, m: Memo, h: Graph, hpar: Parents)
    requires Ranked(g, rank) && CopiedGraph(g, par, m, h, hpar)
    ensures Ranked(g + h, rank + CopyRank(rank, m))
  {
    hide *;
    CopiedGraphFacts(g, par, m, h, hpar);
    RankedFacts(g, rank);
    var all, allRank := g + h, rank + CopyRank(rank, m);
    forall n, t | n in all && LeadsTo(all[n], t)
      ensures t in all && allRank[t] < allRank[n]
    {
      if n in h {
        var k := OriginalOf(rank, m, n);
        assert all[n] == h[n] && allRank[n] == rank[k];
        CopiedGraphAt(g, par, m, h, hpar, k);
        CopiedTarget(m, k, g[k], h[n], t);
        if exists e :: Follows(g[k], e) && e in m && m[e] == t {
          var e :| Follows(g[k], e) && e in m && m[e] == t;
          FollowsLeads(g[k], e);
          assert m[e] in m.Values;
          var k' := OriginalOf(rank, m, t);
          CopiedInjective(g, par, m, h, hpar, k', e);
        }
      }
    }
    RankedFrom(all, allRank);
  }

  lemma RankedFacts(g: Graph, rank: map<Node, nat>)
    requires Ranked(g, rank)
    ensures rank.Keys == g.Keys
    ensures forall n, t :: n in g && LeadsTo(g[n], t) ==> t in g && rank[t] < rank[n]
  {
  }

  lemma RankedFrom(g: Graph, rank: map<Node, nat>)
    requires rank.Keys == g.Keys
    requires forall n, t :: n in g && LeadsTo(g[n], t) ==> t in g && rank[t] < rank[n]
    ensures Ranked(g, rank)
  {
  }

  lemma OriginalOf(rank: map<Node, nat>, m: Memo, c: Node) returns (n: Node)
    requires m.Keys <= rank.Keys && c in m.Values
    ensures n in m && m[n] == c && CopyRank(rank, m)[c] == rank[n]
  {
    n :| n in m && m[n] == c && CopyRank(rank, m)[c] == rank[n];
  }

  /** An edge of a copy is the image of an edge, or the shared right edge itself. */
  lemma CopiedTarget(m: Memo, n: Node, s: Shape, c: Shape, d: Node)
    requires CopyOf(m, n, s, c) && LeadsTo(c, d)
    ensures (exists t :: Follows(s, t) && t in m && m[t] == d) || LeadsTo(s, d)
  {
    if s.info.kind == TypeReference && d == s.right {
    } else if d in c.children {
      var i :| 0 <= i < |c.children| && c.children[i] == d;
      assert Mapped(m, s.children[i], c.children[i]);
      assert Follows(s, s.children[i]);
    } else {
      assert s.left != null ==> Follows(s, s.left);
      assert s.extra != null ==> Follows(s, s.extra);
      assert s.right != null && s.info.kind != TypeReference ==> Follows(s, s.right);
    }
  }

  /** All that the check of a copy rests on. */
  lemma CopyChecked(g: Graph, rank: map<Node, nat>, root: Node, m: Memo)
    requires Depicts(g) && Ranked(g, rank) && root in g && forall n :: n in g ==> Under(g, rank, root, n)
    requires root in m && LinksOk(g, rank, ParentsOf(g.Keys), root, null)
    requires CopiedGraph(g, ParentsOf(g.Keys), m, Shapes(m.Values), ParentsOf(m.Values))
    ensures m.Keys <= rank.Keys
    ensures var all, allRank := g + Shapes(m.Values), rank + CopyRank(rank, m);
      Depicts(all) && Ranked(all, allRank) && m[root] in all &&
      (SubtreeOk(all, allRank, ParentsOf(all.Keys), m[root], null) <==> NoSharedRight(g))
  {
    hide *;
    var par, h, hpar := ParentsOf(g.Keys), Shapes(m.Values), ParentsOf(m.Values);
    CopiedGraphFacts(g, par, m, h, hpar);
    RankedFacts(g, rank);
    var all, allRank := g + h, rank + CopyRank(rank, m);
    CopiesRanked(g, rank, par, m, h, hpar);
    CopyPassesIff(g, rank, par, root, m, h, hpar, allRank);
    StoresJoined(g, m.Values);
    SubtreeOkAt(all, allRank, ParentsOf(all.Keys), m[root]);
  }

  /** The check of the copy of a graph that passes it. */
  method VerifyCopy(root: Node, copy: Node, ghost g: Graph, ghost rank: map<Node, nat>, ghost m: Memo)
    returns (ok: bool)
    requires Depicts(g) && Ranked(g, rank) && root in g && forall n :: n in g ==> Under(g, rank, root, n)
    requires LinksOk(g, rank, ParentsOf(g.Keys), root, null)
    requires CopiedGraph(g, ParentsOf(g.Keys), m, Shapes(m.Values), ParentsOf(m.Values)) && Mapped(m, root, copy)
    ensures ok <==> NoSharedRight(g)
  {
    hide *;
    MappedNode(m, root, copy);
    CopyChecked(g, rank, root, m);
    ok := VerifyASTLinks(copy, null, g + Shapes(m.Values), rank + CopyRank(rank, m));
  }

  lemma StoresJoined(g: Graph, copies: set<Node>)
    requires Depicts(g) && g.Keys !! copies
    ensures Depicts(g + Shapes(copies))
    ensures ParentsOf((g + Shapes(copies)).Keys) == ParentsOf(g.Keys) + ParentsOf(copies)
  {
  }

  lemma SubtreeOkAt(g: Graph, rank: map<Node, nat>, par: Parents, n: Node)
    requires Ranked(g, rank) && n in g && g.Keys <= par.Keys
    ensures SubtreeOk(g, rank, par, n, null) <==> LinksOk(g, rank, par, n, null)
  {
  }

  lemma RankedClosed(g: Graph, rank: map<Node, nat>)
    requires Ranked(g, rank)
    ensures Closed(g)
  {
    assert forall n, t :: n in g && Follows(g[n], t) ==> LeadsTo(g[n], t);
  }

  /** A tree is checked, copied, and its copy checked. */
  method VerifyThenCopy(root: Node, ghost g: Graph, ghost rank: map<Node, nat>) returns (original: bool, copied: bool)
    requires Depicts(g) && Ranked(g, rank) && root in g && forall n :: n in g ==> Under(g, rank, root, n)
    ensures original <==> LinksOk(g, rank, ParentsOf(g.Keys), root, null)
    ensures original ==> (copied <==> NoSharedRight(g))
    ensures Depicts(g)
  {
    hide *;
    SubtreeOkAt(g, rank, ParentsOf(g.Keys), root);
    original := VerifyASTLinks(root, null, g, rank);
    copied := false;
    if original {
      RankedClosed(g, rank);
      var copy, m := CopyAST(root, g);
      MappedNode(m, root, copy);
      copied := VerifyCopy(root, copy, g, rank, m);
    }
  }

  lemma OneEdge(g: Graph, rank: map<Node, nat>, par: Parents, a: Node, b: Node)
    requires a != b && g.Keys == {a, b} && rank == map[a := 1, b := 0] && par.Keys == g.Keys
    requires g[a].left == null && g[a].right == b && g[a].extra == null && g[a].children == []
    requires g[b].left == null && g[b].right == null && g[b].extra == null && g[b].children == []
    requires par[a] == null && par[b] == a
    ensures Ranked(g, rank) && (forall n :: n in g ==> Under(g, rank, a, n)) && LinksOk(g, rank, par, a, null)
  {
    assert LeadsTo(g[a], b) && Under(g, rank, b, b);
  }

  /** A type reference whose right edge is a node of its own, linked both ways, passes; its copy does not. */
  method SharedRightCopyFails() returns (original: bool, copied: bool)
    ensures original && !copied
  {
    var ref := new Node(TypeReference, None);
    var target := new Node(OtherKind(0), None);
    ref.right, target.parent := target, ref;
    ghost var g: Graph := map[ref := ref.Snapshot(), target := target.Snapshot()];
    ghost var rank := map[ref := 1, target := 0];
    OneEdge(g, rank, ParentsOf(g.Keys), ref, target);
    hide LinksOk, Ranked, Under, ParentsOf;
    original, copied := VerifyThenCopy(ref, g, rank);
  }
}
