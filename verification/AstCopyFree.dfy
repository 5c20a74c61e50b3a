/** Freeing a copy: src/ast/ast.c:2074-2188 against src/ast/ast.c:584-633. */
module AstCopyFree {
  import opened AstGraph
  import opened AstCopy
  import opened AstFree
  import opened Wrappers

  ghost function ImageSet(m: Memo, s: set<Node>): set<Node>
    requires s <= m.Keys
  {
    set n | n in s :: m[n]
  }

  ghost function ImageSeq(m: Memo, s: seq<Node>): (r: seq<Node>)
    requires forall n :: n in s ==> n in m
    ensures |r| == |s| && forall i :: 0 <= i < |s| ==> r[i] == m[s[i]]
  {
    seq(|s|, i requires 0 <= i < |s| => m[s[i]])
  }

  /** The copy shares the unit list of a node but is itself a new node. */
  ghost function ImageOf(m: Memo, r: Released): Released
    requires r.ReleasedNode? ==> r.node in m
  {
    match r
    case ReleasedNode(n) => ReleasedNode(m[n])
    case ReleasedList(l) => ReleasedList(l)
  }

  ghost function Images(m: Memo, s: seq<Released>): (r: seq<Released>)
    requires forall x :: x in s ==> (x.ReleasedNode? ==> x.node in m)
    ensures |r| == |s| && forall i :: 0 <= i < |s| ==> r[i] == ImageOf(m, s[i])
  {
    seq(|s|, i requires 0 <= i < |s| => ImageOf(m, s[i]))
  }

  ghost predicate CallsCopied(g: Graph, m: Memo, h: Graph)
  {
    && CallsClosed(g) && Injective(m) && h.Keys == m.Values && m.Keys <= g.Keys
    && forall n :: n in m ==>
         && h[m[n]].info == g[n].info.(isExported := false)
         && (forall c :: c in Calls(g[n]) ==> c in m)
         && Calls(h[m[n]]) == ImageSeq(m, Calls(g[n]))
  }

  lemma ImageOne(m: Memo, t: Node?, c: Node?, when: bool)
    requires Mapped(m, t, c)
    ensures (forall k :: k in One(t, when) ==> k in m) && One(c, when) == ImageSeq(m, One(t, when))
  {
  }

  lemma ImageConcat(m: Memo, a: seq<Node>, b: seq<Node>)
    requires (forall n :: n in a ==> n in m) && (forall n :: n in b ==> n in m)
    ensures (forall n :: n in a + b ==> n in m) && ImageSeq(m, a + b) == ImageSeq(m, a) + ImageSeq(m, b)
  {
  }

  /** Children map onto children, and those walked already onto those walked already. */
  lemma {:induction false} ImageChildCalls(m: Memo, walked: set<Node?>, walked': set<Node?>,
                                           ts: seq<Node?>, cs: seq<Node?>)
    requires |ts| == |cs| && forall i :: 0 <= i < |ts| ==> Mapped(m, ts[i], cs[i])
    requires forall t :: t in m ==> (t in walked <==> m[t] in walked')
    ensures forall n :: n in ChildCalls(walked, ts) ==> n in m
    ensures ChildCalls(walked', cs) == ImageSeq(m, ChildCalls(walked, ts))
  {
    if ts != [] {
      assert Mapped(m, ts[0], cs[0]);
      assert forall i :: 0 <= i < |ts[1..]| ==> Mapped(m, ts[1..][i], cs[1..][i]) by {
        assert forall i :: 0 <= i < |ts[1..]| ==> ts[1..][i] == ts[i + 1] && cs[1..][i] == cs[i + 1];
      }
      ImageChildCalls(m, walked, walked', ts[1..], cs[1..]);
      ImageOne(m, ts[0], cs[0], ts[0] !in walked);
      assert One(cs[0], cs[0] !in walked') == One(cs[0], ts[0] !in walked);
      ImageConcat(m, One(ts[0], ts[0] !in walked), ChildCalls(walked, ts[1..]));
    }
  }

  lemma ImageWalked(m: Memo, n: Node, s: Shape, c: Shape, t: Node)
    requires CopyOf(m, n, s, c) && Injective(m) && t in m
    ensures t in WalkedEdges(s) <==> m[t] in WalkedEdges(c)
  {
  }

  lemma ImageCalls(m: Memo, n: Node, s: Shape, c: Shape)
    requires CopyOf(m, n, s, c) && Injective(m)
    ensures forall k :: k in Calls(s) ==> k in m
    ensures Calls(c) == ImageSeq(m, Calls(s))
  {
    forall t | t in m
      ensures t in WalkedEdges(s) <==> m[t] in WalkedEdges(c)
    {
      ImageWalked(m, n, s, c, t);
    }
    ImageChildCalls(m, WalkedEdges(s), WalkedEdges(c), s.children, c.children);
    var l, e := One(s.left, s.info.kind != TypeDecl), One(s.extra, true);
    var r := One(s.right, s.info.kind != TypeReference);
    ImageOne(m, s.left, c.left, s.info.kind != TypeDecl);
    ImageOne(m, s.extra, c.extra, true);
    if s.info.kind != TypeReference {
      ImageOne(m, s.right, c.right, true);
    }
    ImageConcat(m, l, r);
    ImageConcat(m, l + r, e);
    ImageConcat(m, l + r + e, ChildCalls(WalkedEdges(s), s.children));
  }

  lemma ImageSeqInValues(m: Memo, s: seq<Node>)
    requires forall n :: n in s ==> n in m
    ensures forall c :: c in ImageSeq(m, s) ==> c in m.Values
  {
    forall c | c in ImageSeq(m, s)
      ensures c in m.Values
    {
      var i :| 0 <= i < |s| && m[s[i]] == c;
      assert m[s[i]] in m.Values;
    }
  }

  lemma CallsOfCopy(g: Graph, par: Parents, m: Memo, h: Graph, hpar: Parents)
    requires Closed(g) && CopiedGraph(g, par, m, h, hpar)
    ensures CallsCopied(g, m, h) && CallsClosed(h)
  {
    hide *;
    CopiedGraphFacts(g, par, m, h, hpar);
    CallsAreFollowed(g);
    forall n | n in m
      ensures h[m[n]].info == g[n].info.(isExported := false)
      ensures (forall c :: c in Calls(g[n]) ==> c in m) && Calls(h[m[n]]) == ImageSeq(m, Calls(g[n]))
    {
      CopiedGraphAt(g, par, m, h, hpar, n);
      ImageCalls(m, n, g[n], h[m[n]]);
    }
    CallsCopiedFrom(g, m, h);
  }

  lemma CallsCopiedFrom(g: Graph, m: Memo, h: Graph)
    requires CallsClosed(g) && Injective(m) && h.Keys == m.Values && m.Keys <= g.Keys
    requires forall n :: n in m ==> h[m[n]].info == g[n].info.(isExported := false)
    requires forall n :: n in m ==>
      (forall c :: c in Calls(g[n]) ==> c in m) && Calls(h[m[n]]) == ImageSeq(m, Calls(g[n]))
    ensures CallsCopied(g, m, h) && CallsClosed(h)
  {
    hide Calls;
    forall d | d in h
      ensures forall c :: c in Calls(h[d]) ==> c in h
    {
      var n: Node :| n in m && m[n] == d;
      ImageSeqInValues(m, Calls(g[n]));
    }
  }

  lemma CallsAreFollowed(g: Graph)
    requires Closed(g)
    ensures CallsClosed(g)
  {
    forall n, c | n in g && c in Calls(g[n])
      ensures c in g
    {
      var s := g[n];
      if c in ChildCalls(WalkedEdges(s), s.children) {
        WalkedChildSkipped(WalkedEdges(s), s.children, c);
      }
      assert Follows(s, c);
    }
  }

  lemma ImagesConcat(m: Memo, a: seq<Released>, b: seq<Released>)
    requires forall x :: x in a ==> (x.ReleasedNode? ==> x.node in m)
    requires forall x :: x in b ==> (x.ReleasedNode? ==> x.node in m)
    ensures forall x :: x in a + b ==> (x.ReleasedNode? ==> x.node in m)
    ensures Images(m, a + b) == Images(m, a) + Images(m, b)
  {
  }

  lemma CallsCopiedAt(g: Graph, m: Memo, h: Graph, n: Node)
    requires CallsCopied(g, m, h) && n in m
    ensures CallsClosed(g) && n in g && m[n] in h && Injective(m) && m.Keys <= g.Keys
    ensures h[m[n]].info == g[n].info.(isExported := false)
    ensures (forall c :: c in Calls(g[n]) ==> c in m) && Calls(h[m[n]]) == ImageSeq(m, Calls(g[n]))
  {
    assert m[n] in m.Values;
  }

  lemma ValuesAreCopies(g: Graph, m: Memo, h: Graph)
    requires CallsCopied(g, m, h)
    ensures CallsClosed(g) && m.Keys <= g.Keys && h.Keys == m.Values
  {
  }

  lemma ImageSetExtended(m: Memo, gray: set<Node>, n: Node)
    requires Injective(m) && gray <= m.Keys && n in m
    ensures ImageSet(m, gray + {n}) == ImageSet(m, gray) + {m[n]}
    ensures m[n] in ImageSet(m, gray) <==> n in gray
  {
  }

  lemma OwnOfCopy(m: Memo, n: Node, s: Shape, c: Shape)
    requires n in m && c.info == s.info.(isExported := false)
    ensures (forall x :: x in Own(n, s) ==> (x.ReleasedNode? ==> x.node in m)) && Own(m[n], c) == Images(m, Own(n, s))
  {
  }

  /** The walk of a copy is the image of the walk its original would get if no table named its nodes. */
  lemma {:induction false} TraceOfCopy(g: Graph, m: Memo, h: Graph, table: set<Node>, n: Node, gray: set<Node>)
    requires CallsCopied(g, m, h) && CallsClosed(h) && n in m && gray <= m.Keys && table !! m.Values
    ensures forall x :: x in Trace(g, {}, n, gray) ==> (x.ReleasedNode? ==> x.node in m)
    ensures Trace(h, table, m[n], ImageSet(m, gray)) == Images(m, Trace(g, {}, n, gray))
    decreases g.Keys - gray, 1, 0
  {
    hide CallsCopied, CallsClosed, Calls, ImageSet, Injective, Own;
    assert m[n] in m.Values;
    CallsCopiedAt(g, m, h, n);
    ImageSetExtended(m, gray, n);
    if n !in gray {
      assert g.Keys - (gray + {n}) < g.Keys - gray by { assert n in g.Keys - gray; }
      TraceAllOfCopy(g, m, h, table, Calls(g[n]), gray + {n});
      OwnOfCopy(m, n, g[n], h[m[n]]);
      ImagesConcat(m, TraceAll(g, {}, Calls(g[n]), gray + {n}), Own(n, g[n]));
    }
  }

  lemma {:induction false} TraceAllOfCopy(g: Graph, m: Memo, h: Graph, table: set<Node>,
                                          calls: seq<Node>, gray: set<Node>)
    requires CallsCopied(g, m, h) && CallsClosed(h) && gray <= m.Keys && table !! m.Values
    requires forall c :: c in calls ==> c in m
    ensures forall x :: x in TraceAll(g, {}, calls, gray) ==> (x.ReleasedNode? ==> x.node in m)
    ensures forall c :: c in ImageSeq(m, calls) ==> c in h
    ensures TraceAll(h, table, ImageSeq(m, calls), ImageSet(m, gray)) == Images(m, TraceAll(g, {}, calls, gray))
    decreases g.Keys - gray, 2, |calls|
  {
    hide CallsCopied, CallsClosed, Calls, ImageSet;
    ImageSeqInValues(m, calls);
    ValuesAreCopies(g, m, h);
    if calls != [] {
      TraceOfCopy(g, m, h, table, calls[0], gray);
      TraceAllOfCopy(g, m, h, table, calls[1..], gray);
      assert ImageSeq(m, calls)[1..] == ImageSeq(m, calls[1..]);
      ImagesConcat(m, Trace(g, {}, calls[0], gray), TraceAll(g, {}, calls[1..], gray));
    }
  }

  lemma NoDupImages(m: Memo, s: seq<Released>)
    requires Injective(m) && forall x :: x in s ==> (x.ReleasedNode? ==> x.node in m)
    ensures NoDup(Images(m, s)) <==> NoDup(s)
  {
    if NoDup(Images(m, s)) {
      forall i, j | 0 <= i < j < |s|
        ensures s[i] != s[j]
      {
        assert Images(m, s)[i] != Images(m, s)[j];
      }
    }
  }

  /** What freeing the copy of `root` releases. */
  lemma CopyTrace(g: Graph, par: Parents, m: Memo, h: Graph, hpar: Parents, table: set<Node>, root: Node)
    requires Closed(g) && CopiedGraph(g, par, m, h, hpar) && root in m && table !! m.Values
    ensures CallsClosed(g) && CallsClosed(h) && root in g && m[root] in h && m.Keys <= g.Keys && g.Keys !! m.Values
    ensures Injective(m) && forall x :: x in Trace(g, {}, root, {}) ==> (x.ReleasedNode? ==> x.node in m)
    ensures Trace(h, table, m[root], {}) == Images(m, Trace(g, {}, root, {}))
  {
    hide *;
    CallsOfCopy(g, par, m, h, hpar);
    CopiedGraphFacts(g, par, m, h, hpar);
    CallsCopiedAt(g, m, h, root);
    NoGray(m);
    TraceOfCopy(g, m, h, table, root, {});
  }

  lemma NoGray(m: Memo)
    ensures ImageSet(m, {}) == {}
  {
  }

  lemma WalkFromNothing(g: Graph, table: set<Node>, n: Node)
    requires CallsClosed(g) && n in g
    ensures Walk(g, table, n, {}, []).Some? <==> NoDup(Trace(g, table, n, {}))
  {
    WalkIffNoDup(g, table, n, {}, []);
    assert [] + Trace(g, table, n, {}) == Trace(g, table, n, {});
  }

  /** Freeing the copy of `root` is safe exactly when walking the original, were it in no table, is. */
  lemma CopyFreeableIff(g: Graph, par: Parents, m: Memo, h: Graph, hpar: Parents, table: set<Node>, root: Node)
    requires Closed(g) && CopiedGraph(g, par, m, h, hpar) && root in m && table !! m.Values
    ensures CallsClosed(g) && CallsClosed(h) && root in g && m[root] in h
    ensures Walk(h, table, m[root], {}, []).Some? <==> Walk(g, {}, root, {}, []).Some?
  {
    hide *;
    CopyTrace(g, par, m, h, hpar, table, root);
    NoDupImages(m, Trace(g, {}, root, {}));
    WalkFromNothing(h, table, m[root]);
    WalkFromNothing(g, {}, root);
  }

  lemma ImageOrigin(m: Memo, s: seq<Released>, x: Released)
    requires (forall y :: y in s ==> (y.ReleasedNode? ==> y.node in m)) && x in Images(m, s)
    ensures x.ReleasedNode? ==> x.node in m.Values
    ensures x.ReleasedList? ==> x in s
  {
    var i :| 0 <= i < |s| && x == ImageOf(m, s[i]);
    assert s[i] in s;
    if s[i].ReleasedNode? {
      assert m[s[i].node] in m.Values;
    }
  }

  /** Freeing a copy releases no node of the original; what it may release are shared unit lists. */
  lemma CopyReleasesNoOriginal(g: Graph, par: Parents, m: Memo, h: Graph, hpar: Parents, table: set<Node>, root: Node,
                               x: Released)
    requires Closed(g) && CopiedGraph(g, par, m, h, hpar) && root in m && table !! m.Values
    requires root in g && CallsClosed(g) && CallsClosed(h) && m[root] in h
    requires x in Trace(h, table, m[root], {})
    ensures x.ReleasedNode? ==> x.node in m.Values && x.node !in g
    ensures x.ReleasedList? ==> x in Trace(g, {}, root, {})
  {
    hide *;
    CopyTrace(g, par, m, h, hpar, table, root);
    ImageOrigin(m, Trace(g, {}, root, {}), x);
  }

  lemma ImagesDisjointIff(m: Memo, s: seq<Released>, nodes: set<Node>)
    requires m.Keys <= nodes && nodes !! m.Values && Injective(m)
    requires forall x :: x in s ==> (x.ReleasedNode? ==> x.node in m)
    ensures NoDup(Images(m, s) + s) <==> (NoDup(s) && forall x :: x in s ==> x.ReleasedNode?)
  {
    NoDupImages(m, s);
    NoDupAppend(Images(m, s), s);
    hide NoDup, Injective;
    if x :| x in s && x.ReleasedList? {
      var i :| 0 <= i < |s| && s[i] == x;
      assert Images(m, s)[i] == x;
    } else {
      forall x | x in s
        ensures x !in Images(m, s)
      {
        if x in Images(m, s) {
          ImageOrigin(m, s, x);
          assert false;
        }
      }
    }
  }

  /** Copy and original can both be freed exactly when the original can and no unit list hangs below it:
      the copy shares the lists and freeing it gives them back. */
  lemma BothFreeableIff(g: Graph, par: Parents, m: Memo, h: Graph, hpar: Parents, table: set<Node>, root: Node)
    requires Closed(g) && CopiedGraph(g, par, m, h, hpar) && root in m && table !! m.Values
    requires root in g && CallsClosed(g) && CallsClosed(h) && m[root] in h
    ensures NoDup(Trace(h, table, m[root], {}) + Trace(g, {}, root, {})) <==>
      (NoDup(Trace(g, {}, root, {})) && forall x :: x in Trace(g, {}, root, {}) ==> x.ReleasedNode?)
  {
    hide *;
    CopyTrace(g, par, m, h, hpar, table, root);
    ImagesDisjointIff(m, Trace(g, {}, root, {}), g.Keys);
  }

  lemma CopiesUntouched(g: Graph, par: Parents, m: Memo, dead: seq<Released>)
    requires CopiedGraph(g, par, m, Shapes(m.Values), ParentsOf(m.Values))
    ensures Untouched(Shapes(m.Values), {}, dead)
  {
    var h := Shapes(m.Values);
    forall c | c in h
      ensures c.Snapshot() == h[c] && !c.freed
    {
      var n: Node :| n in m && m[n] == c;
      assert CopyOf(m, n, g[n], h[c]);
    }
  }

  /** The walk of the copy after other releases: none of the copies is among them. */
  lemma CopyWalks(g: Graph, par: Parents, m: Memo, h: Graph, hpar: Parents, table: set<Node>, root: Node,
                  dead: seq<Released>)
    requires Closed(g) && CallsClosed(g) && CopiedGraph(g, par, m, h, hpar) && root in m && root in g
    requires table !! m.Values && NoDup(dead) && NoDup(Trace(g, {}, root, {})) && Alive(m.Values + table, dead)
    requires forall x :: x in Trace(g, {}, root, {}) && x.ReleasedList? ==> x !in dead
    ensures CallsClosed(h) && m[root] in h && m.Keys <= g.Keys
    ensures forall x :: x in Trace(g, {}, root, {}) ==> (x.ReleasedNode? ==> x.node in m)
    ensures Walk(h, table, m[root], {}, dead) == Some(dead + Images(m, Trace(g, {}, root, {})))
  {
    assert Alive(table, dead) && {} + table == table && forall c :: c in m.Values ==> ReleasedNode(c) !in dead;
    hide *;
    var trace := Trace(g, {}, root, {});
    CopyTrace(g, par, m, h, hpar, table, root);
    NoDupImages(m, trace);
    forall x | x in Images(m, trace)
      ensures x !in dead
    {
      ImageOrigin(m, trace, x);
    }
    NoDupAppend(dead, Images(m, trace));
    WalkIffNoDup(h, table, m[root], {}, dead);
  }

  /** The copy consists of nodes that no table names and nobody has released. */
  method CopyApart(root: Node, table: TypeTable, alloc: Allocator, ghost g: Graph) returns (copy: Node, ghost m: Memo)
    requires Depicts(g) && Closed(g) && root in g
    ensures Depicts(g) && fresh(m.Values) && root in m && m[root] == copy
    ensures CopiedGraph(g, ParentsOf(g.Keys), m, Shapes(m.Values), ParentsOf(m.Values))
    ensures table.Named() !! m.Values && forall c :: c in m.Values ==> ReleasedNode(c) !in alloc.released
  {
    hide Depicts, Closed, CopiedGraph, ParentsOf, Shapes, Mapped;
    var c, memo := CopyAST(root, g);
    m := memo;
    MappedNode(m, root, c);
    copy := c;
  }

  /** A tree is copied and the copy freed: the originals are as they were, and what is released are the images of what
      walking the original would release. */
  method CopyThenFree(root: Node, table: TypeTable, alloc: Allocator, ghost g: Graph) returns (ghost m: Memo)
    requires Depicts(g) && Closed(g) && CallsClosed(g) && root in g && NoDup(alloc.released)
    requires Alive(table.Named(), alloc.released) && NoDup(Trace(g, {}, root, {}))
    requires forall x :: x in Trace(g, {}, root, {}) && x.ReleasedList? ==> x !in alloc.released
    modifies alloc
    ensures Depicts(g) && fresh(m.Values)
    ensures forall x :: x in Trace(g, {}, root, {}) ==> (x.ReleasedNode? ==> x.node in m)
    ensures alloc.released == old(alloc.released) + Images(m, Trace(g, {}, root, {}))
  {
    hide *;
    var copy;
    copy, m := CopyApart(root, table, alloc, g);
    ghost var h, dead := Shapes(m.Values), alloc.released;
    AliveJoined(m.Values, table.Named(), dead);
    CopyWalks(g, ParentsOf(g.Keys), m, h, ParentsOf(m.Values), table.Named(), root, dead);
    CopiesUntouched(g, ParentsOf(g.Keys), m, dead);
    NobodyWalked(h, dead);
    FreeAST(copy, table, alloc, h, {});
  }

  lemma AliveJoined(copies: set<Node>, table: set<Node>, dead: seq<Released>)
    requires Alive(table, dead) && forall c :: c in copies ==> ReleasedNode(c) !in dead
    ensures Alive(copies + table, dead)
  {
  }

  lemma NobodyWalked(h: Graph, dead: seq<Released>)
    ensures {} <= h.Keys && Alive({}, dead)
  {
  }
}
