/** The sqlite plugin's handles and its table of statement owners (plugins/sqlite/sqlite_ext_plugin.c:36-253).
    The library is a ledger of live databases and statements with its rules as preconditions: a statement is finalised
    while it is live, a database is closed while it is live and has no live statement. */
module SqlitePlugin {
  import opened HandleTable

  const DB_KIND: int := 1
  const STATEMENT_KIND: int := 2

  /** What the caller of the plugin sees behind a handle; a statement knows the handle of its database. */
  datatype Item = Db(ptr: nat) | Stmt(ptr: nat, db: nat)

  datatype StmtOwner = StmtOwner(stmtHandle: nat, dbHandle: nat, active: bool)

  ghost function SlotOf(item: Item): Slot {
    Slot(if item.Db? then DB_KIND else STATEMENT_KIND, item.ptr)
  }

  ghost function SlotsOf(view: map<nat, Item>): map<nat, Slot> {
    map h | h in view :: SlotOf(view[h])
  }

  ghost predicate IsDb(view: map<nat, Item>, h: nat) {
    h in view && view[h].Db?
  }

  ghost predicate IsStmt(view: map<nat, Item>, h: nat) {
    h in view && view[h].Stmt?
  }

  /** Every statement's database is open, and no two handles share an object. */
  ghost predicate Closed(view: map<nat, Item>) {
    && (forall h :: h in view ==> view[h].ptr != NULL)
    && (forall h :: IsStmt(view, h) ==> IsDb(view, view[h].db))
    && (forall h, k :: h in view && k in view && h != k && view[h].Db? == view[k].Db? ==> view[h].ptr != view[k].ptr)
  }

  /** Active owner entries and statement handles are in bijection, and each entry names the statement's database. */
  ghost predicate Bijection(view: map<nat, Item>, owners: seq<StmtOwner>) {
    && (forall i :: 0 <= i < |owners| && owners[i].active ==>
          IsStmt(view, owners[i].stmtHandle) && view[owners[i].stmtHandle].db == owners[i].dbHandle)
    && (forall i, j :: 0 <= i < j < |owners| && owners[i].active && owners[j].active ==>
          owners[i].stmtHandle != owners[j].stmtHandle)
    && (forall h :: IsStmt(view, h) ==> Tracked(owners, h))
  }

  ghost predicate Tracked(owners: seq<StmtOwner>, h: nat) {
    exists i :: 0 <= i < |owners| && owners[i].active && owners[i].stmtHandle == h
  }

  ghost predicate HasDb(view: map<nat, Item>, d: nat) {
    exists h :: h in view && view[h] == Db(d)
  }

  ghost predicate HasStmt(view: map<nat, Item>, s: nat) {
    exists h :: h in view && view[h].Stmt? && view[h].ptr == s
  }

  ghost predicate Live(view: map<nat, Item>, dbs: set<nat>, stmts: map<nat, nat>) {
    && (forall h :: IsDb(view, h) ==> view[h].ptr in dbs)
    && (forall h :: IsStmt(view, h) ==>
          view[h].ptr in stmts && IsDb(view, view[h].db) && stmts[view[h].ptr] == view[view[h].db].ptr)
  }

  ghost predicate NoLeaks(view: map<nat, Item>, dbs: set<nat>, stmts: map<nat, nat>) {
    (forall d :: d in dbs ==> HasDb(view, d)) && (forall s :: s in stmts ==> HasStmt(view, s))
  }

  /** The library's live objects are those behind the handles: nothing dangles and nothing leaks. */
  ghost predicate Ledger(view: map<nat, Item>, dbs: set<nat>, stmts: map<nat, nat>) {
    Live(view, dbs, stmts) && NoLeaks(view, dbs, stmts)
  }

  ghost predicate Inv(view: map<nat, Item>, owners: seq<StmtOwner>, dbs: set<nat>, stmts: map<nat, nat>) {
    Closed(view) && Bijection(view, owners) && Ledger(view, dbs, stmts)
  }

  /** Closing database d takes its statements with it. */
  ghost function WithoutDb(view: map<nat, Item>, d: nat): map<nat, Item> {
    map h | h in view && h != d && !(view[h].Stmt? && view[h].db == d) :: view[h]
  }

  lemma OpenKeepsClosed(view: map<nat, Item>, dbs: set<nat>, stmts: map<nat, nat>, h: nat, p: nat)
    requires Closed(view) && Ledger(view, dbs, stmts) && h !in view && p !in dbs && p != NULL
    ensures Closed(view[h := Db(p)])
  {
    var view' := view[h := Db(p)];
    assert forall k :: IsStmt(view', k) ==> IsStmt(view, k) && IsDb(view, view[k].db);
    assert forall k :: IsDb(view, k) ==> IsDb(view', k);
    hide HasDb, HasStmt;
    forall k | k in view && view[k].Db?
      ensures view[k].ptr != p
    {
      assert IsDb(view, k);
    }
  }

  lemma OpenKeepsBijection(view: map<nat, Item>, owners: seq<StmtOwner>, h: nat, p: nat)
    requires Bijection(view, owners) && h !in view
    ensures Bijection(view[h := Db(p)], owners)
  {
    var view' := view[h := Db(p)];
    hide Tracked;
    assert forall k :: IsStmt(view', k) <==> IsStmt(view, k);
  }

  lemma OpenKeepsLedgerLive(view: map<nat, Item>, dbs: set<nat>, stmts: map<nat, nat>, h: nat, p: nat)
    requires Live(view, dbs, stmts) && h !in view
    ensures Live(view[h := Db(p)], dbs + {p}, stmts)
  {
    assert forall k :: IsStmt(view[h := Db(p)], k) <==> IsStmt(view, k);
    assert forall k :: IsDb(view[h := Db(p)], k) <==> IsDb(view, k) || k == h;
  }

  lemma OpenKeepsLedgerNoLeaks(view: map<nat, Item>, dbs: set<nat>, stmts: map<nat, nat>, h: nat, p: nat)
    requires NoLeaks(view, dbs, stmts) && h !in view
    ensures NoLeaks(view[h := Db(p)], dbs + {p}, stmts)
  {
    var view' := view[h := Db(p)];
    LedgerGrows(view, view');
    assert HasDb(view', p) by { assert view'[h] == Db(p); }
    hide HasDb, HasStmt;
  }

  lemma OpenKeepsLedger(view: map<nat, Item>, dbs: set<nat>, stmts: map<nat, nat>, h: nat, p: nat)
    requires Ledger(view, dbs, stmts) && h !in view
    ensures Ledger(view[h := Db(p)], dbs + {p}, stmts)
  {
    hide Live, NoLeaks, Closed;
    OpenKeepsLedgerLive(view, dbs, stmts, h, p);
    OpenKeepsLedgerNoLeaks(view, dbs, stmts, h, p);
  }

  lemma OpenKeeps(view: map<nat, Item>, owners: seq<StmtOwner>, dbs: set<nat>, stmts: map<nat, nat>, h: nat, p: nat)
    requires Inv(view, owners, dbs, stmts) && h !in view && p !in dbs && p != NULL
    ensures Inv(view[h := Db(p)], owners, dbs + {p}, stmts)
  {
    hide Closed, Bijection, Ledger;
    OpenKeepsClosed(view, dbs, stmts, h, p);
    OpenKeepsBijection(view, owners, h, p);
    OpenKeepsLedger(view, dbs, stmts, h, p);
  }

  lemma LedgerGrows(view: map<nat, Item>, view': map<nat, Item>)
    requires forall h :: h in view ==> h in view' && view'[h] == view[h]
    ensures forall d :: HasDb(view, d) ==> HasDb(view', d)
    ensures forall s :: HasStmt(view, s) ==> HasStmt(view', s)
  {
  }

  lemma TrackedGrows(owners: seq<StmtOwner>, o: StmtOwner)
    ensures forall h :: Tracked(owners, h) ==> Tracked(owners + [o], h)
    ensures o.active ==> Tracked(owners + [o], o.stmtHandle)
  {
    forall h | Tracked(owners, h)
      ensures Tracked(owners + [o], h)
    {
      var i :| 0 <= i < |owners| && owners[i].active && owners[i].stmtHandle == h;
      assert (owners + [o])[i] == owners[i];
    }
    assert (owners + [o])[|owners|] == o;
  }

  lemma PrepareKeepsClosed(view: map<nat, Item>, dbs: set<nat>, stmts: map<nat, nat>, h: nat, p: nat, d: nat)
    requires Closed(view) && Ledger(view, dbs, stmts) && h !in view && p !in stmts && p != NULL && IsDb(view, d)
    ensures Closed(view[h := Stmt(p, d)])
  {
    var view' := view[h := Stmt(p, d)];
    assert forall k :: IsStmt(view', k) && k != h ==> IsStmt(view, k) && IsDb(view, view[k].db);
    assert forall k :: IsDb(view, k) ==> IsDb(view', k);
    hide HasDb, HasStmt;
    forall k | k in view && view[k].Stmt?
      ensures view[k].ptr != p
    {
      assert IsStmt(view, k);
    }
  }

  lemma PrepareKeepsBijection(view: map<nat, Item>, owners: seq<StmtOwner>, h: nat, p: nat, d: nat)
    requires Bijection(view, owners) && h !in view
    ensures Bijection(view[h := Stmt(p, d)], owners + [StmtOwner(h, d, true)])
  {
    var view', owners' := view[h := Stmt(p, d)], owners + [StmtOwner(h, d, true)];
    TrackedGrows(owners, StmtOwner(h, d, true));
    hide Tracked;
    assert forall k :: IsStmt(view', k) <==> IsStmt(view, k) || k == h;
  }

  lemma PrepareKeepsLedgerLive(view: map<nat, Item>, dbs: set<nat>, stmts: map<nat, nat>, h: nat, p: nat, d: nat)
    requires Live(view, dbs, stmts) && h !in view && p !in stmts && IsDb(view, d)
    ensures Live(view[h := Stmt(p, d)], dbs, stmts[p := view[d].ptr])
  {
    assert forall k :: IsStmt(view[h := Stmt(p, d)], k) <==> IsStmt(view, k) || k == h;
    assert forall k :: IsDb(view[h := Stmt(p, d)], k) <==> IsDb(view, k);
  }

  lemma PrepareKeepsLedgerNoLeaks(view: map<nat, Item>, dbs: set<nat>, stmts: map<nat, nat>, h: nat, p: nat, d: nat)
    requires NoLeaks(view, dbs, stmts) && h !in view && IsDb(view, d)
    ensures NoLeaks(view[h := Stmt(p, d)], dbs, stmts[p := view[d].ptr])
  {
    var view' := view[h := Stmt(p, d)];
    LedgerGrows(view, view');
    assert HasStmt(view', p) by { assert view'[h] == Stmt(p, d); }
    hide HasDb, HasStmt;
  }

  lemma PrepareKeepsLedger(view: map<nat, Item>, dbs: set<nat>, stmts: map<nat, nat>, h: nat, p: nat, d: nat)
    requires Ledger(view, dbs, stmts) && h !in view && p !in stmts && IsDb(view, d)
    ensures Ledger(view[h := Stmt(p, d)], dbs, stmts[p := view[d].ptr])
  {
    hide Live, NoLeaks, Closed;
    PrepareKeepsLedgerLive(view, dbs, stmts, h, p, d);
    PrepareKeepsLedgerNoLeaks(view, dbs, stmts, h, p, d);
  }

  lemma PrepareKeeps(view: map<nat, Item>, owners: seq<StmtOwner>, dbs: set<nat>, stmts: map<nat, nat>,
                     h: nat, p: nat, d: nat)
    requires Inv(view, owners, dbs, stmts) && h !in view && p !in stmts && p != NULL && IsDb(view, d)
    ensures Inv(view[h := Stmt(p, d)], owners + [StmtOwner(h, d, true)], dbs, stmts[p := view[d].ptr])
  {
    hide Closed, Bijection, Ledger;
    PrepareKeepsClosed(view, dbs, stmts, h, p, d);
    PrepareKeepsBijection(view, owners, h, p, d);
    PrepareKeepsLedger(view, dbs, stmts, h, p, d);
  }

  lemma TrackedShrinks(owners: seq<StmtOwner>, i: nat)
    requires i < |owners|
    ensures forall h :: h != owners[i].stmtHandle && Tracked(owners, h) ==>
              Tracked(owners[i := owners[i].(active := false)], h)
  {
    var owners' := owners[i := owners[i].(active := false)];
    forall h | h != owners[i].stmtHandle && Tracked(owners, h)
      ensures Tracked(owners', h)
    {
      var j :| 0 <= j < |owners| && owners[j].active && owners[j].stmtHandle == h;
      assert owners'[j] == owners[j];
    }
  }

  lemma LedgerShrinks(view: map<nat, Item>, h: nat)
    requires Closed(view) && h in view
    ensures forall d :: HasDb(view, d) && view[h] != Db(d) ==> HasDb(view - {h}, d)
    ensures forall s :: HasStmt(view, s) && !(view[h].Stmt? && view[h].ptr == s) ==> HasStmt(view - {h}, s)
  {
    forall d | HasDb(view, d) && view[h] != Db(d)
      ensures HasDb(view - {h}, d)
    {
      var k :| k in view && view[k] == Db(d);
      assert k in view - {h};
    }
    forall s | HasStmt(view, s) && !(view[h].Stmt? && view[h].ptr == s)
      ensures HasStmt(view - {h}, s)
    {
      var k :| k in view && view[k].Stmt? && view[k].ptr == s;
      assert k in view - {h};
    }
  }

  lemma DropKeepsClosed(view: map<nat, Item>, h: nat)
    requires Closed(view) && h in view && forall k :: IsStmt(view, k) ==> view[k].db != h
    ensures Closed(view - {h})
  {
    var view' := view - {h};
    assert forall k :: IsStmt(view', k) ==> IsStmt(view, k) && IsDb(view, view[k].db) && view[k].db != h;
    assert forall k :: IsDb(view, k) && k != h ==> IsDb(view', k);
  }

  lemma DropKeepsBijection(view: map<nat, Item>, owners: seq<StmtOwner>, i: nat)
    requires Bijection(view, owners) && i < |owners| && owners[i].active
    ensures Bijection(view - {owners[i].stmtHandle}, owners[i := owners[i].(active := false)])
  {
    var h := owners[i].stmtHandle;
    TrackedShrinks(owners, i);
    hide Tracked;
    assert forall k :: IsStmt(view - {h}, k) <==> IsStmt(view, k) && k != h;
  }

  lemma DropKeepsLedgerLive(view: map<nat, Item>, dbs: set<nat>, stmts: map<nat, nat>, h: nat)
    requires Closed(view) && Live(view, dbs, stmts) && IsStmt(view, h)
    ensures view[h].ptr in stmts && view[h].ptr != NULL && Live(view - {h}, dbs, stmts - {view[h].ptr})
  {
    var view' := view - {h};
    assert forall k :: IsStmt(view', k) ==> IsStmt(view, k) && view[k].ptr != view[h].ptr;
    hide Closed;
    assert forall k :: IsDb(view', k) <==> IsDb(view, k);
  }

  lemma DropKeepsLedgerNoLeaks(view: map<nat, Item>, dbs: set<nat>, stmts: map<nat, nat>, h: nat)
    requires Closed(view) && NoLeaks(view, dbs, stmts) && IsStmt(view, h)
    ensures NoLeaks(view - {h}, dbs, stmts - {view[h].ptr})
  {
    LedgerShrinks(view, h);
    hide HasDb, HasStmt, Closed;
  }

  lemma DropKeepsLedger(view: map<nat, Item>, dbs: set<nat>, stmts: map<nat, nat>, h: nat)
    requires Closed(view) && Ledger(view, dbs, stmts) && IsStmt(view, h)
    ensures view[h].ptr in stmts && view[h].ptr != NULL && Ledger(view - {h}, dbs, stmts - {view[h].ptr})
  {
    hide Live, NoLeaks, Closed;
    DropKeepsLedgerLive(view, dbs, stmts, h);
    DropKeepsLedgerNoLeaks(view, dbs, stmts, h);
  }

  /** A statement goes together with its owner entry. */
  lemma DropKeeps(view: map<nat, Item>, owners: seq<StmtOwner>, dbs: set<nat>, stmts: map<nat, nat>, i: nat)
    requires Inv(view, owners, dbs, stmts) && i < |owners| && owners[i].active
    ensures var h := owners[i].stmtHandle;
      IsStmt(view, h) && view[h].ptr in stmts && view[h].ptr != NULL && view[h].db == owners[i].dbHandle &&
      Inv(view - {h}, owners[i := owners[i].(active := false)], dbs, stmts - {view[h].ptr})
  {
    var h := owners[i].stmtHandle;
    DropKeepsBijection(view, owners, i);
    assert IsStmt(view, h) && view[h].db == owners[i].dbHandle;
    hide Bijection;
    assert forall k :: IsStmt(view, k) ==> view[k].db != h;
    hide Closed, Ledger;
    DropKeepsClosed(view, h);
    DropKeepsLedger(view, dbs, stmts, h);
  }

  lemma CloseKeepsBijection(view: map<nat, Item>, owners: seq<StmtOwner>, d: nat)
    requires Bijection(view, owners) && IsDb(view, d)
    ensures Bijection(view - {d}, owners)
  {
    hide Tracked;
    assert forall k :: IsStmt(view - {d}, k) <==> IsStmt(view, k);
  }

  lemma CloseKeepsLedgerLive(view: map<nat, Item>, dbs: set<nat>, stmts: map<nat, nat>, d: nat)
    requires Closed(view) && Live(view, dbs, stmts) && IsDb(view, d)
    requires forall h :: IsStmt(view, h) ==> view[h].db != d
    ensures view[d].ptr in dbs && Live(view - {d}, dbs - {view[d].ptr}, stmts)
  {
    var view' := view - {d};
    assert forall k :: IsDb(view', k) ==> IsDb(view, k) && view[k].ptr != view[d].ptr;
    hide Closed;
    assert forall k :: IsStmt(view', k) <==> IsStmt(view, k);
    assert forall k :: IsDb(view, k) && k != d ==> IsDb(view', k);
  }

  lemma CloseKeepsLedgerNoLeaks(view: map<nat, Item>, dbs: set<nat>, stmts: map<nat, nat>, d: nat)
    requires Closed(view) && NoLeaks(view, dbs, stmts) && IsDb(view, d)
    ensures NoLeaks(view - {d}, dbs - {view[d].ptr}, stmts)
  {
    LedgerShrinks(view, d);
    hide HasDb, HasStmt, Closed;
  }

  lemma CloseKeepsLedger(view: map<nat, Item>, dbs: set<nat>, stmts: map<nat, nat>, d: nat)
    requires Closed(view) && Ledger(view, dbs, stmts) && IsDb(view, d)
    requires forall h :: IsStmt(view, h) ==> view[h].db != d
    ensures view[d].ptr in dbs && Ledger(view - {d}, dbs - {view[d].ptr}, stmts)
  {
    hide Live, NoLeaks, Closed;
    CloseKeepsLedgerLive(view, dbs, stmts, d);
    CloseKeepsLedgerNoLeaks(view, dbs, stmts, d);
  }

  lemma NoStatementLeft(view: map<nat, Item>, dbs: set<nat>, stmts: map<nat, nat>, d: nat)
    requires Closed(view) && Ledger(view, dbs, stmts) && IsDb(view, d)
    requires forall h :: IsStmt(view, h) ==> view[h].db != d
    ensures forall s :: s in stmts ==> stmts[s] != view[d].ptr
  {
    forall s | s in stmts
      ensures stmts[s] != view[d].ptr
    {
      assert HasStmt(view, s);
      var h :| h in view && view[h].Stmt? && view[h].ptr == s;
      assert IsStmt(view, h);
      assert IsDb(view, view[h].db);
    }
  }

  /** A database goes once its statements are gone. */
  lemma CloseKeeps(view: map<nat, Item>, owners: seq<StmtOwner>, dbs: set<nat>, stmts: map<nat, nat>, d: nat)
    requires Inv(view, owners, dbs, stmts) && IsDb(view, d) && forall h :: IsStmt(view, h) ==> view[h].db != d
    ensures view[d].ptr in dbs && forall s :: s in stmts ==> stmts[s] != view[d].ptr
    ensures Inv(view - {d}, owners, dbs - {view[d].ptr}, stmts)
  {
    hide Closed, Bijection, Ledger;
    DropKeepsClosed(view, d);
    CloseKeepsBijection(view, owners, d);
    CloseKeepsLedger(view, dbs, stmts, d);
    NoStatementLeft(view, dbs, stmts, d);
  }

  lemma Empty()
    ensures Inv(map[], [], {}, map[]) && SlotsOf(map[]) == map[]
  {
  }

  lemma SlotsUpdate(view: map<nat, Item>, h: nat, item: Item)
    ensures SlotsOf(view[h := item]) == SlotsOf(view)[h := SlotOf(item)]
    ensures SlotsOf(view - {h}) == SlotsOf(view) - {h}
    ensures SlotsOf(view).Keys == view.Keys
  {
  }

  lemma ObjectOf(view: map<nat, Item>, owners: seq<StmtOwner>, dbs: set<nat>, stmts: map<nat, nat>, h: nat)
    requires Inv(view, owners, dbs, stmts) && h in view
    ensures view[h].ptr != NULL
    ensures view[h].Db? ==> view[h].ptr in dbs
    ensures view[h].Stmt? ==> view[h].ptr in stmts && stmts[view[h].ptr] in dbs && Tracked(owners, h)
  {
    assert view[h].Db? ==> IsDb(view, h);
    assert view[h].Stmt? ==> IsStmt(view, h);
    hide Tracked;
  }

  ghost predicate NoneOf(view: map<nat, Item>, d: nat) {
    forall h :: IsStmt(view, h) ==> view[h].db != d
  }

  lemma NoEntryNoStatement(view: map<nat, Item>, owners: seq<StmtOwner>, d: nat)
    requires Bijection(view, owners)
    requires forall i :: 0 <= i < |owners| && owners[i].active ==> owners[i].dbHandle != d
    ensures NoneOf(view, d)
  {
    forall h | IsStmt(view, h)
      ensures view[h].db != d
    {
      assert Tracked(owners, h);
    }
  }

  /** `now` has lost some of the statements of d and nothing else. */
  ghost predicate Between(was: map<nat, Item>, now: map<nat, Item>, d: nat) {
    && (forall h :: h in now ==> h in was && now[h] == was[h])
    && (forall h :: h in was && h !in now ==> was[h].Stmt? && was[h].db == d)
  }

  lemma BetweenDrop(was: map<nat, Item>, now: map<nat, Item>, d: nat, h: nat)
    requires Between(was, now, d) && IsStmt(now, h) && now[h].db == d
    ensures Between(was, now - {h}, d)
  {
  }

  lemma BetweenDone(was: map<nat, Item>, now: map<nat, Item>, d: nat)
    requires Between(was, now, d) && NoneOf(now, d) && IsDb(was, d)
    ensures IsDb(now, d) && now[d] == was[d] && now - {d} == WithoutDb(was, d)
  {
    var rest := WithoutDb(was, d);
    forall h | h in now && h != d
      ensures h in rest && rest[h] == now[h]
    {
      assert now[h].Stmt? ==> IsStmt(now, h);
    }
  }

  class Plugin {
    const handles: HandleTable
    var owners: seq<StmtOwner>
    /** What is behind the handles, and the library's live databases and statements with their databases. */
    ghost var view: map<nat, Item>
    ghost var dbs: set<nat>
    ghost var stmts: map<nat, nat>

    constructor ()
      ensures Valid() && view == map[] && fresh(handles) && fresh(handles.slots)
    {
      handles := new HandleTable();
      owners, view, dbs, stmts := [], map[], {}, map[];
      new;
      Empty();
    }

    ghost predicate Valid()
      reads this, handles, handles.slots
    {
      handles.Valid() && handles.Contents() == SlotsOf(view) && Inv(view, owners, dbs, stmts)
    }

    // The library's rules.

    ghost method LibraryOpens(db: nat)
      requires db !in dbs && db != NULL
      modifies `dbs
      ensures dbs == old(dbs) + {db}
    {
      dbs := dbs + {db};
    }

    ghost method LibraryCloses(db: nat)
      requires db in dbs && forall s :: s in stmts ==> stmts[s] != db
      modifies `dbs
      ensures dbs == old(dbs) - {db}
    {
      dbs := dbs - {db};
    }

    ghost method LibraryPrepares(stmt: nat, db: nat)
      requires db in dbs && stmt !in stmts && stmt != NULL
      modifies `stmts
      ensures stmts == old(stmts)[stmt := db]
    {
      stmts := stmts[stmt := db];
    }

    ghost method LibraryFinalizes(stmt: nat)
      requires stmt in stmts
      modifies `stmts
      ensures stmts == old(stmts) - {stmt}
    {
      stmts := stmts - {stmt};
    }

    /** `fromOpen` is what the library's open call yields, NULL if it fails. */
    method Open(fromOpen: nat) returns (handle: int)
      requires Valid() && fromOpen !in dbs
      modifies this, handles, handles.slots
      ensures Valid() && (handles.slots == old(handles.slots) || fresh(handles.slots))
      ensures fromOpen == NULL ==> handle == -1 && view == old(view)
      ensures fromOpen != NULL ==> handle >= 0 && handle !in old(view)
      ensures fromOpen != NULL ==> forall j: nat :: j < handle ==> j in old(view)
      ensures fromOpen != NULL ==> view == old(view)[handle := Db(fromOpen)]
    {
      hide Inv, SlotsOf, InUse;
      if fromOpen == NULL {
        return -1;
      }
      LibraryOpens(fromOpen);
      SlotsUpdate(view, 0, Db(fromOpen));
      handle := handles.Alloc(DB_KIND, fromOpen);
      SlotsUpdate(view, handle, Db(fromOpen));
      OpenKeeps(view, owners, old(dbs), stmts, handle, fromOpen);
      view := view[handle := Db(fromOpen)];
    }

    /** `prepared` is what the library's prepare call would yield, NULL if it fails. */
    method Prepare(dbHandle: int, prepared: nat) returns (handle: int)
      requires Valid() && prepared !in stmts
      modifies this, handles, handles.slots
      ensures Valid() && (handles.slots == old(handles.slots) || fresh(handles.slots))
      ensures handle == -1 <==> prepared == NULL || dbHandle < 0 || !IsDb(old(view), dbHandle)
      ensures handle == -1 ==> view == old(view)
      ensures handle != -1 ==> handle >= 0 && handle !in old(view) && (forall j: nat :: j < handle ==> j in old(view))
      ensures handle != -1 ==> view == old(view)[handle := Stmt(prepared, dbHandle)]
    {
      hide Inv, SlotsOf, InUse;
      var found, db := FetchDatabase(dbHandle);
      if !found {
        return -1;
      }
      if prepared == NULL {
        return -1;
      }
      LibraryPrepares(prepared, db);
      SlotsUpdate(view, 0, Stmt(prepared, dbHandle));
      handle := handles.Alloc(STATEMENT_KIND, prepared);
      TrackStmtOwner(handle, dbHandle);
      SlotsUpdate(view, handle, Stmt(prepared, dbHandle));
      PrepareKeeps(view, old(owners), dbs, old(stmts), handle, prepared, dbHandle);
      view := view[handle := Stmt(prepared, dbHandle)];
    }

    method TrackStmtOwner(stmtHandle: nat, dbHandle: nat)
      modifies `owners
      ensures owners == old(owners) + [StmtOwner(stmtHandle, dbHandle, true)]
    {
      owners := owners + [StmtOwner(stmtHandle, dbHandle, true)];
    }

    /** A database handle yields a live database, any other handle nothing. */
    method FetchDatabase(handle: int) returns (found: bool, db: nat)
      requires Valid()
      ensures found <==> handle >= 0 && IsDb(view, handle)
      ensures found ==> view[handle] == Db(db) && db in dbs
    {
      hide Inv, InUse;
      found, db := handles.Lookup(handle, DB_KIND);
      if handle >= 0 && handle in view { ObjectOf(view, owners, dbs, stmts, handle); }
      found := found && db != NULL;
    }

    /** What a caller steps through or reads columns of is a live statement of a live database. */
    method FetchStatement(handle: int) returns (found: bool, stmt: nat)
      requires Valid()
      ensures found <==> handle >= 0 && IsStmt(view, handle)
      ensures found ==> view[handle].ptr == stmt && stmt in stmts && stmts[stmt] in dbs
    {
      hide Inv, InUse;
      found, stmt := handles.Lookup(handle, STATEMENT_KIND);
      if handle >= 0 && handle in view { ObjectOf(view, owners, dbs, stmts, handle); }
      found := found && stmt != NULL;
    }

    method FindOwner(stmtHandle: nat) returns (i: nat)
      requires Tracked(owners, stmtHandle)
      ensures i < |owners| && owners[i].active && owners[i].stmtHandle == stmtHandle
    {
      i := 0;
      ghost var k :| 0 <= k < |owners| && owners[k].active && owners[k].stmtHandle == stmtHandle;
      while !owners[i].active || owners[i].stmtHandle != stmtHandle
        invariant i <= k
        decreases k - i
      {
        i := i + 1;
      }
    }

    /** `rc` is the library's answer, the error of the statement's last step. */
    method Finalize(handle: int, rc: int) returns (result: int)
      requires Valid()
      modifies this, handles.slots
      ensures Valid()
      ensures handle < 0 || !IsStmt(old(view), handle) ==> result == -1 && view == old(view)
      ensures handle >= 0 && IsStmt(old(view), handle) ==> result == rc && view == old(view) - {handle}
    {
      hide Inv, SlotsOf, InUse;
      var found, stmt := FetchStatement(handle);
      if !found {
        return -1;
      }
      ObjectOf(view, owners, dbs, stmts, handle);
      SlotsUpdate(view, handle, view[handle]);
      var freed := handles.Free(handle);
      var i := FindOwner(handle);
      DropKeeps(view, owners, dbs, stmts, i);
      owners := owners[i := owners[i].(active := false)];
      LibraryFinalizes(stmt);
      view := view - {handle};
      return rc;
    }

    /** One round of the cascade. */
    method FinalizeOrphan(i: nat)
      requires Valid() && i < |owners| && owners[i].active
      modifies this, handles.slots
      ensures Valid() && owners == old(owners)[i := old(owners)[i].(active := false)]
      ensures var h := old(owners)[i].stmtHandle;
        IsStmt(old(view), h) && old(view)[h].db == old(owners)[i].dbHandle && view == old(view) - {h}
      ensures dbs == old(dbs)
    {
      hide Inv, SlotsOf, InUse;
      ghost var h := owners[i].stmtHandle;
      DropKeeps(view, owners, dbs, stmts, i);
      SlotsUpdate(view, h, view[h]);
      FreedPayload(view, h);
      var payload := handles.Free(owners[i].stmtHandle);
      if payload != NULL {
        LibraryFinalizes(payload);
      }
      owners := owners[i := owners[i].(active := false)];
      view := view - {h};
    }

    lemma FreedPayload(view: map<nat, Item>, h: nat)
      requires h in view
      ensures h in SlotsOf(view) && SlotsOf(view)[h].payload == view[h].ptr
    {
    }

    method FinalizeOrphanedStatements(dbHandle: nat)
      requires Valid()
      modifies this, handles.slots
      ensures Valid() && Between(old(view), view, dbHandle) && NoneOf(view, dbHandle) && dbs == old(dbs)
    {
      hide Inv, SlotsOf, InUse, IsStmt, Between;
      NothingLost(view, dbHandle);
      for i := 0 to |owners|
        invariant Valid() && |owners| == old(|owners|) && dbs == old(dbs)
        invariant Between(old(view), view, dbHandle)
        invariant forall j :: 0 <= j < i && owners[j].active ==> owners[j].dbHandle != dbHandle
      {
        if !owners[i].active || owners[i].dbHandle != dbHandle {
          continue;
        }
        OrphanBetween(old(view), view, owners, dbs, stmts, dbHandle, i);
        FinalizeOrphan(i);
      }
      AllGone(view, owners, dbs, stmts, dbHandle);
    }

    /** Closing a database finalises exactly its statements first; the other handles stay. */
    method Close(handle: int) returns (result: int)
      requires Valid()
      modifies this, handles.slots
      ensures Valid()
      ensures handle < 0 || !IsDb(old(view), handle) ==> result == -1 && view == old(view)
      ensures handle >= 0 && IsDb(old(view), handle) ==> result == 0 && view == WithoutDb(old(view), handle)
    {
      hide Inv, SlotsOf, InUse, Between, NoneOf;
      var found, db := FetchDatabase(handle);
      if !found {
        return -1;
      }
      FinalizeOrphanedStatements(handle);
      BetweenDone(old(view), view, handle);
      CloseReady(view, owners, dbs, stmts, handle);
      SlotsUpdate(view, handle, view[handle]);
      FreedPayload(view, handle);
      var freed := handles.Free(handle);
      LibraryCloses(freed);
      view := view - {handle};
      return 0;
    }
  }

  lemma NothingLost(view: map<nat, Item>, d: nat)
    ensures Between(view, view, d)
  {
  }

  lemma OrphanBetween(was: map<nat, Item>, view: map<nat, Item>, owners: seq<StmtOwner>, dbs: set<nat>,
                     stmts: map<nat, nat>, d: nat, i: nat)
    requires Inv(view, owners, dbs, stmts) && Between(was, view, d)
    requires i < |owners| && owners[i].active && owners[i].dbHandle == d
    ensures Between(was, view - {owners[i].stmtHandle}, d)
  {
    hide Closed, Ledger, Between, Tracked;
    BetweenDrop(was, view, d, owners[i].stmtHandle);
  }

  lemma AllGone(view: map<nat, Item>, owners: seq<StmtOwner>, dbs: set<nat>, stmts: map<nat, nat>, d: nat)
    requires Inv(view, owners, dbs, stmts)
    requires forall i :: 0 <= i < |owners| && owners[i].active ==> owners[i].dbHandle != d
    ensures NoneOf(view, d)
  {
    hide Closed, Ledger, Bijection, NoneOf;
    NoEntryNoStatement(view, owners, d);
  }

  lemma CloseReady(view: map<nat, Item>, owners: seq<StmtOwner>, dbs: set<nat>, stmts: map<nat, nat>, d: nat)
    requires Inv(view, owners, dbs, stmts) && IsDb(view, d) && NoneOf(view, d)
    ensures view[d].ptr in dbs && forall s :: s in stmts ==> stmts[s] != view[d].ptr
    ensures Inv(view - {d}, owners, dbs - {view[d].ptr}, stmts)
  {
    hide Inv;
    CloseKeeps(view, owners, dbs, stmts, d);
  }
}
