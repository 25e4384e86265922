/** Statements from an empty database that show what an error in the middle of a
    DELETE leaves behind, and what a successful one may lose: a table with one
    indexed VARCHAR column in which every row holds the same long string. */
module StatementRuns {
  import opened Wrappers
  import opened Keys
  import opened Prepare
  import opened IndexChanges
  import opened Maintenance
  import opened BTreeStraddle
  import BTreeModel
  import T = BTreeStates
  import W = BTreeWalk
  import A = Ast

  function OneColumn(): Metadata {
    Metadata(map[0 := [0]], map[0 := [A.DataType.VarcharType]])
  }

  function Stored(k: Key, ids: seq<RowId>): Tables {
    map[0 := map id | id in ids :: [Some(k)]]
  }

  /** Every row of the table holds the string, and the index is the tree that so
      many insertions of it lead to. */
  ghost predicate Holds(e: Engine, k: Key, ids: seq<RowId>)
    reads e, e.Trees()
  {
    && e.Sound() && e.meta == OneColumn() && |e.indexes| == 1 && e.indexes[0].table == 0 && e.indexes[0].column == 0
    && e.tables == Stored(k, ids) && |ids| <= 7 && Repeated(e.indexes[0].tree.State(), k, |ids|)
  }

  lemma OneMoreRow(k: Key, ids: seq<RowId>, id: RowId)
    ensures Applied(Stored(k, ids), Insertion(Target(0, id), [Some(k)])) == Stored(k, ids + [id])
  {
    assert Stored(k, ids)[0][id := [Some(k)]] == Stored(k, ids + [id])[0];
  }

  /** With one index there is one step. */
  lemma OnlyStep(m: Metadata, x: Index, s: State, c: Change, r: Result<(), StatementError>, s': State)
    requires AllWork(m, [x], [s]) && Typed(m, c) && Follow(m, [x], [s], c, r, [s'])
    ensures Works(m, x, s) && IndexStep(m, x, s, c, r, s')
  {
    hide IndexStep;
    var n: nat :| StopsAt(m, [x], [s], c, r, [s'], n);
    assert Works(m, [x][0], [s][0]);
    if r.Ok? {
      assert r == Ok(()) by { assert r.value == (); }
      assert IndexStep(m, [x][0], [s][0], c, Ok(()), [s'][0]);
    } else {
      assert IndexStep(m, [x][0], [s][0], c, r, [s'][0]);
    }
  }

  lemma InsertedOnce(m: Metadata, x: Index, s: State, id: RowId, k: Key, n: nat, r: Result<(), StatementError>,
                     s': State)
    requires m == OneColumn() && x.table == 0 && x.column == 0 && Long(k) && Repeated(s, k, n) && n < 7
    requires var c := Insertion(Target(0, id), [Some(k)]);
             && AllWork(m, [x], [s]) && Typed(m, c) && Follow(m, [x], [s], c, r, [s'])
    ensures r.Ok? && Repeated(s', k, n + 1)
  {
    hide Repeated, T.SoundState, T.Inserts, T.Placed, Long;
    var c := Insertion(Target(0, id), [Some(k)]);
    OnlyStep(m, x, s, c, r, s');
    var mid, q :| StepsVia(m, x, s, c, mid, q, r, s');
    var t :| AddsEntry(s, BTreeModel.Entry(k, id), t, s') && (r.Ok? <==> t.Ok?);
    RepeatedStep(s, k, id, n, t, s');
  }

  lemma NewIndex(e: Engine, k: Key)
    requires e.Sound() && e.meta == OneColumn() && Long(k) && e.tables == Stored(k, [])
    requires |e.indexes| == 1 && e.indexes[0].table == 0 && e.indexes[0].column == 0
    requires var x := e.indexes[0]; Backfilled(e.tables[0], Position(e.meta, x), x.tree.keyType, [], x.tree.State())
    ensures Holds(e, k, [])
  {
    hide T.SoundState;
    assert IndexOk(e.meta, e.tables, e.indexes[0], e.States()[0]);
    NewRepeated(k);
  }

  /** One more row. */
  method InsertRow(e: Engine, k: Key, id: RowId, ghost ids: seq<RowId>)
    requires Long(k) && Holds(e, k, ids) && id !in ids && |ids| < 7
    modifies e`tables, e.Trees()
    ensures e.indexes == old(e.indexes) && Holds(e, k, ids + [id])
  {
    hide Repeated, Agree, Works, T.SoundState, Follow, Applied;
    ghost var s := e.indexes[0].tree.State();
    e.WorkingStates();
    assert e.States() == [s] && e.indexes == [e.indexes[0]];
    var r := e.ExecuteInsert(0, [Some(k)], Some(id));
    assert e.States() == [e.indexes[0].tree.State()];
    InsertedOnce(e.meta, e.indexes[0], s, id, k, |ids|, r, e.indexes[0].tree.State());
    OneMoreRow(k, ids, id);
  }

  /** CREATE TABLE, CREATE INDEX, and an INSERT for each id. */
  method InsertRows(k: Key, ids: seq<RowId>) returns (e: Engine)
    requires Long(k) && |ids| <= 7 && forall i, j :: 0 <= i < j < |ids| ==> ids[i] != ids[j]
    ensures fresh(e) && fresh(e.Trees()) && Holds(e, k, ids)
  {
    hide Repeated, Agree, Works, T.SoundState, T.ExactState, Long, Backfilled;
    e := new Engine(OneColumn());
    assert e.tables == Stored(k, []);
    var created := e.CreateIndex(0, 0, []);
    NewIndex(e, k);
    var i := 0;
    while i < |ids|
      invariant 0 <= i <= |ids| && fresh(e) && fresh(e.Trees()) && Holds(e, k, ids[..i])
    {
      assert ids[..i + 1] == ids[..i] + [ids[i]];
      InsertRow(e, k, ids[i], ids[..i]);
      i := i + 1;
    }
    assert ids[..i] == ids;
  }

  // ---------- deleting one row ----------

  lemma RemovedOnce(m: Metadata, x: Index, s: State, id: RowId, k: Key, r: Result<(), StatementError>, s': State)
    requires m == OneColumn() && x.table == 0 && x.column == 0 && AllWork(m, [x], [s])
    requires var c := Removal(Target(0, id), [Some(k)]); Typed(m, c) && Carries(m, [x], [s], c, {}, r, [s'])
    ensures T.SoundState(s) && T.Deletes(s, BTreeModel.Entry(k, id), Said(r), s')
    ensures r.Err? ==> r.error in {TreeFailed, EntryNotFound}
    ensures AllClean(m, [x], [s], Removal(Target(0, id), [Some(k)])) <==>
              T.CleanDelete(s, BTreeModel.Entry(k, id))
  {
    hide T.SoundState, T.Deletes, T.CleanDelete;
    var c := Removal(Target(0, id), [Some(k)]);
    var q :| Follow(m, [x], [s], c, q, [s']) && r == if q.Ok? && c.target in {} then Err(HeapFailed) else q;
    OnlyStep(m, x, s, c, r, s');
    NothingEnters(m, x, c);
    var mid, t :| StepsVia(m, x, s, c, mid, t, r, s');
    assert t.Ok? ==> t == r by { assert t.Ok? && r.Ok? ==> t.value == r.value; }
    assert AllClean(m, [x], [s], c) <==> Cleanly([s][0], Leaving(m, [x][0], c), id);
  }

  /** DELETE of one row that is stored. */
  method DeleteRow(e: Engine, k: Key, id: RowId, ghost ids: seq<RowId>) returns (r: Result<nat, StatementError>)
    requires Long(k) && Holds(e, k, ids) && id in ids
    modifies e`tables, e.Trees()
    ensures e.Working() && e.indexes == old(e.indexes) && T.SoundState(old(e.indexes[0].tree.State()))
    ensures T.Deletes(old(e.indexes[0].tree.State()), BTreeModel.Entry(k, id), Said(Plain(r)),
                      e.indexes[0].tree.State())
    ensures r.Err? ==> r.error in {TreeFailed, EntryNotFound} && e.tables == old(e.tables)
    ensures r.Ok? ==> r == Ok(1) && e.tables == Applied(old(e.tables), Removal(Target(0, id), [Some(k)]))
    ensures r.Ok? && T.CleanDelete(old(e.indexes[0].tree.State()), BTreeModel.Entry(k, id)) ==> e.Sound()
    ensures r.Err? ==> (e.Sound() <==> e.indexes[0].tree.contents == old(e.indexes[0].tree.contents))
  {
    hide Repeated, Agree, Works, T.SoundState, T.Deletes, T.CleanDelete, Carries, AllGo, AllUnstraddled;
    ghost var s, c := e.indexes[0].tree.State(), Removal(Target(0, id), [Some(k)]);
    var plan := [Deletion(Target(0, id), [Some(k)])];
    e.WorkingStates();
    assert e.States() == [s] && e.indexes == [e.indexes[0]] && Removals(plan) == [c];
    ghost var trace;
    r, trace := e.ExecuteDelete(plan, {});
    assert AllApplied(old(e.tables), [c][..1]) == Applied(AllApplied(old(e.tables), [c][..0]), [c][0]);
    assert |trace| == 2 && trace[0] == [s] && trace[1] == [e.indexes[0].tree.State()];
    RemovedOnce(e.meta, e.indexes[0], s, id, k, Plain(r), e.indexes[0].tree.State());
  }

  // ---------- what can go wrong ----------

  /** The index holds an entry for each row, and no other. */
  lemma HeldRows(e: Engine, k: Key, ids: seq<RowId>, id: RowId)
    requires Holds(e, k, ids)
    ensures T.ExactState(e.indexes[0].tree.State())
    ensures e.indexes[0].tree.contents[BTreeModel.Entry(k, id)] == if id in ids then 1 else 0
  {
    hide T.SoundState, Repeated;
    assert IndexOk(e.meta, e.tables, e.indexes[0], e.States()[0]);
    assert id in e.tables[0] <==> id in ids;
  }

  lemma OnlyTree(e: Engine)
    requires e.Working() && |e.indexes| == 1
    ensures e.indexes[0].tree.Sound() && (e.Sound() ==> e.indexes[0].tree.Valid())
  {
    hide T.SoundState;
    assert Works(e.meta, e.indexes[0], e.indexes[0].tree.State());
    if e.Sound() {
      assert IndexOk(e.meta, e.tables, e.indexes[0], e.States()[0]);
    }
  }

  /** Six rows: DELETE reports an error, the row stays, but its entry is gone, and
      from then on the index does not agree with the table. */
  method RefusedStatement(k: Key, ids: seq<RowId>) returns (e: Engine, gone: RowId, r: Result<nat, StatementError>)
    requires Long(k) && |ids| == 6 && forall i, j :: 0 <= i < j < 6 ==> ids[i] != ids[j]
    ensures r == Err(TreeFailed) && !e.Sound() && gone in ids && e.tables == Stored(k, ids)
    ensures |e.indexes| == 1 && BTreeModel.Entry(k, gone) !in e.indexes[0].tree.contents
  {
    hide T.SoundState, T.ExactState, T.Deletes, Agree, Works, Long;
    e := InsertRows(k, ids);
    ghost var s := e.indexes[0].tree.State();
    gone := e.indexes[0].tree.pages[1].entries[0].row;
    HeldRows(e, k, ids, gone);
    StraddleRows(s, k, 3, 3, gone);
    r := DeleteRow(e, k, gone, ids);
    RefusedStep(s, k, gone, Said(Plain(r)), e.indexes[0].tree.State());
  }

  /** Five rows: the entry of one of them went to the right leaf. DELETE reports
      that it is not there, and the row cannot be deleted. */
  method MissedStatement(k: Key, ids: seq<RowId>) returns (e: Engine, kept: RowId, r: Result<nat, StatementError>)
    requires Long(k) && |ids| == 5 && forall i, j :: 0 <= i < j < 5 ==> ids[i] != ids[j]
    ensures r == Err(EntryNotFound) && e.Sound() && kept in ids && e.tables == Stored(k, ids)
  {
    hide T.SoundState, T.ExactState, T.Deletes, Agree, Works, Long;
    e := InsertRows(k, ids);
    ghost var s := e.indexes[0].tree.State();
    kept := e.indexes[0].tree.pages[2].entries[0].row;
    HeldRows(e, k, ids, kept);
    StraddleRows(s, k, 2, 3, kept);
    r := DeleteRow(e, k, kept, ids);
    MissedStep(s, k, kept, Said(Plain(r)), e.indexes[0].tree.State());
  }

  /** Seven rows: DELETE succeeds; six rows are left, but a search of the index
      finds three of them. */
  method HiddenRows(k: Key, ids: seq<RowId>) returns (e: Engine, r: Result<nat, StatementError>, found: seq<RowId>)
    requires Long(k) && |ids| == 7 && forall i, j :: 0 <= i < j < 7 ==> ids[i] != ids[j]
    ensures r == Ok(1) && !e.Sound() && |found| == 3
    ensures exists gone :: gone in ids
              && e.tables == Applied(Stored(k, ids), Removal(Target(0, gone), [Some(k)]))
  {
    hide T.SoundState, T.ExactState, T.Deletes, Agree, Works, Long, W.Found;
    e := InsertRows(k, ids);
    ghost var s := e.indexes[0].tree.State();
    var gone := e.indexes[0].tree.pages[1].entries[0].row;
    HeldRows(e, k, ids, gone);
    StraddleRows(s, k, 4, 3, gone);
    r := DeleteRow(e, k, gone, ids);
    ShortDelete(s, k, gone, Said(Plain(r)), e.indexes[0].tree.State());
    OnlyTree(e);
    var answer := e.indexes[0].tree.Search(k);
    found := answer.value;
  }
}
