/** The engine: tables with indexes, and the statements that change them. Each
    index is a tree of its own; a statement stops at the first error and undoes
    nothing. */
module Maintenance {
  import opened Wrappers
  import opened Keys
  import opened Rows
  import opened Prepare
  import opened IndexChanges
  import BTreeModel
  import BTreeNodes
  import BTree
  import Tuple
  import A = Ast
  import T = BTreeStates

  /** The states of the trees of some indexes. */
  ghost function StatesOf(xs: seq<Index>): (ss: seq<State>)
    reads set x | x in xs :: x.tree
    ensures |ss| == |xs| && forall i :: 0 <= i < |xs| ==> ss[i] == xs[i].tree.State()
  {
    seq(|xs|, i requires 0 <= i < |xs| reads set x | x in xs :: x.tree => xs[i].tree.State())
  }

  /** The three answers of a deletion. */
  lemma SaidSo(s: State, e: Entry, d: Result<bool, BTreeNodes.TreeError>, s': State)
    requires T.SoundState(s) && T.Deletes(s, e, d, s')
    ensures d in {Ok(true), Ok(false), Err(BTreeNodes.PageFull)}
  {
    hide T.SoundState;
  }

  /** Removing an entry; one that is not found is an error. */
  method DeleteEntry(x: Index, v: Value, id: RowId) returns (r: Result<(), StatementError>)
    requires x.tree.Sound() && (v.Some? ==> v.value.Type() == x.tree.keyType)
    modifies x.tree
    ensures Removes(old(x.tree.State()), v, id, r, x.tree.State())
  {
    hide T.SoundState, T.Deletes, BTree.Tree.State;
    if v.None? {
      return Ok(());
    }
    ghost var s := x.tree.State();
    var found := x.tree.Delete(v.value, id);
    SaidSo(s, BTreeModel.Entry(v.value, id), found, x.tree.State());
    match found {
      case Ok(true) => r := Ok(());
      case Ok(false) => r := Err(EntryNotFound);
      case Err(_) => r := Err(TreeFailed);
    }
  }

  method InsertEntry(x: Index, v: Value, id: RowId) returns (r: Result<(), StatementError>)
    requires x.tree.Sound() && (v.Some? ==> v.value.Type() == x.tree.keyType)
    modifies x.tree
    ensures Adds(old(x.tree.State()), v, id, r, x.tree.State())
  {
    hide T.SoundState, T.ExactState, T.Unstraddled, T.Inserts, T.Placed;
    if v.None? {
      return Ok(());
    }
    ghost var s := x.tree.State();
    var done := x.tree.Insert(v.value, id);
    assert AddsEntry(s, BTreeModel.Entry(v.value, id), done, x.tree.State());
    return if done.Ok? then Ok(()) else Err(TreeFailed);
  }

  /** Trading one entry for another: the old one goes first. */
  method ChangeEntry(x: Index, before: Value, after: Value, id: RowId)
    returns (r: Result<(), StatementError>, ghost mid: State, ghost q: Result<(), StatementError>)
    requires x.tree.Sound() && (before.Some? ==> before.value.Type() == x.tree.keyType)
    requires after.Some? ==> after.value.Type() == x.tree.keyType
    modifies x.tree
    ensures before == after ==> r.Ok? && q.Ok? && mid == old(x.tree.State()) == x.tree.State()
    ensures before != after ==>
              && Removes(old(x.tree.State()), before, id, q, mid)
              && if q.Err? then r == q && x.tree.State() == mid else Adds(mid, after, id, r, x.tree.State())
  {
    hide T.SoundState, Removes, Adds;
    mid, q := x.tree.State(), Ok(());
    if before == after {
      return Ok(()), mid, q;
    }
    r := DeleteEntry(x, before, id);
    RemovesWhen(mid, before, id, r, x.tree.State());
    mid, q := x.tree.State(), r;
    if r.Ok? {
      r := InsertEntry(x, after, id);
    }
  }

  /** One index follows a new row, if it is an index of the table. */
  method InsertIntoIndex(m: Metadata, x: Index, t: Target, values: seq<Value>) returns (r: Result<(), StatementError>)
    requires Works(m, x, x.tree.State()) && Typed(m, Insertion(t, values))
    modifies x.tree
    ensures IndexStep(m, x, old(x.tree.State()), Insertion(t, values), r, x.tree.State())
  {
    hide T.SoundState, Adds, IndexStep, BTree.Tree.State;
    ghost var s := x.tree.State();
    r := Ok(());
    if x.table == t.table {
      r := InsertEntry(x, values[Position(m, x)], t.id);
    }
    InsertionStep(m, x, s, Insertion(t, values), r, x.tree.State());
  }

  /** One index follows a removed row, if it is an index of the table. */
  method DeleteFromIndex(m: Metadata, x: Index, t: Target, values: seq<Value>) returns (r: Result<(), StatementError>)
    requires Works(m, x, x.tree.State()) && Typed(m, Removal(t, values))
    modifies x.tree
    ensures IndexStep(m, x, old(x.tree.State()), Removal(t, values), r, x.tree.State())
  {
    hide T.SoundState, Removes, IndexStep, BTree.Tree.State;
    ghost var s := x.tree.State();
    r := Ok(());
    if x.table == t.table {
      r := DeleteEntry(x, values[Position(m, x)], t.id);
    }
    RemovalStep(m, x, s, Removal(t, values), r, x.tree.State());
  }

  /** One index follows a replaced row, if it is an index of the table. */
  method UpdateIndex(m: Metadata, x: Index, t: Target, before: seq<Value>, after: seq<Value>)
    returns (r: Result<(), StatementError>)
    requires Works(m, x, x.tree.State()) && Typed(m, Replacement(t, before, after))
    modifies x.tree
    ensures IndexStep(m, x, old(x.tree.State()), Replacement(t, before, after), r, x.tree.State())
  {
    hide T.SoundState, Removes, Adds, IndexStep, BTree.Tree.State;
    ghost var s := x.tree.State();
    ghost var mid, q := s, Ok(());
    r := Ok(());
    if x.table == t.table {
      r, mid, q := ChangeEntry(x, before[Position(m, x)], after[Position(m, x)], t.id);
    }
    ReplacementStep(m, x, s, Replacement(t, before, after), mid, q, r, x.tree.State());
  }

  /** The first `i` rows of a scan are in the tree. */
  ghost predicate Filled(rows: map<RowId, seq<Value>>, pos: nat, t: KeyType, scan: seq<RowId>, i: int, s: State) {
    && 0 <= i <= |scan| && T.ExactState(s) && s.keyType == t
    && Projects(Part(rows, scan[..i]), pos, s.contents) && Backfilled(rows, pos, t, scan[..i], s)
  }

  lemma FilledStep(rows: map<RowId, seq<Value>>, pos: nat, t: KeyType, scan: seq<RowId>, i: nat, s: State,
                   r: Result<(), StatementError>, s': State)
    requires i < |scan| && Filled(rows, pos, t, scan, i, s) && scan[i] in rows && pos < |rows[scan[i]]|
    requires forall id :: multiset(scan)[id] == if id in rows then 1 else 0
    requires Adds(s, rows[scan[i]][pos], scan[i], r, s') && r.Ok?
    ensures Filled(rows, pos, t, scan, i + 1, s')
  {
    hide Adds, Projects, T.SoundState, T.ExactState, Backfilled;
    ScanStep(rows, scan, i);
    AddsWhen(s, rows[scan[i]][pos], scan[i], r, s');
    ProjectsAdded(Part(rows, scan[..i]), pos, s.contents, scan[i], rows[scan[i]]);
    BackfilledStep(rows, pos, t, scan[..i], scan[i], s, r, s');
    assert scan[..i + 1] == scan[..i] + [scan[i]];
  }

  /** Add the rows of a scan to a new index, one by one. */
  method Backfill(x: Index, rows: map<RowId, seq<Value>>, pos: nat, scan: seq<RowId>)
    returns (r: Result<(), StatementError>)
    requires x.tree.Valid() && x.tree.State() == T.NewState(x.tree.keyType)
    requires forall id :: multiset(scan)[id] == if id in rows then 1 else 0
    requires forall id :: id in rows ==>
               pos < |rows[id]| && (rows[id][pos].Some? ==> rows[id][pos].value.Type() == x.tree.keyType)
    modifies x.tree
    ensures r.Ok? ==>
              && x.tree.Valid() && Projects(rows, pos, x.tree.contents)
              && Backfilled(rows, pos, x.tree.keyType, scan, x.tree.State())
    ensures r.Err? ==> r.error == TreeFailed && scan != []
  {
    hide Adds, Projects, T.SoundState, T.ExactState, Filled, BTree.Tree.State;
    FilledStart(x.tree, rows, pos, scan);
    var i := 0;
    while i < |scan|
      invariant 0 <= i <= |scan| && Filled(rows, pos, x.tree.keyType, scan, i, x.tree.State())
    {
      ScanStep(rows, scan, i);
      ghost var s := x.tree.State();
      FilledSound(x.tree, rows, pos, scan, i);
      r := InsertEntry(x, rows[scan[i]][pos], scan[i]);
      AddsWhen(s, rows[scan[i]][pos], scan[i], r, x.tree.State());
      if r.Err? {
        return;
      }
      FilledStep(rows, pos, x.tree.keyType, scan, i, s, r, x.tree.State());
      i := i + 1;
    }
    FilledDone(x.tree, rows, pos, scan);
    return Ok(());
  }

  lemma FilledStart(tree: BTree.Tree, rows: map<RowId, seq<Value>>, pos: nat, scan: seq<RowId>)
    requires tree.Valid() && tree.State() == T.NewState(tree.keyType)
    ensures Filled(rows, pos, tree.keyType, scan, 0, tree.State())
  {
    hide T.SoundState, T.ExactState;
    NewTreeProjects(rows, pos);
  }

  lemma FilledSound(tree: BTree.Tree, rows: map<RowId, seq<Value>>, pos: nat, scan: seq<RowId>, i: int)
    requires Filled(rows, pos, tree.keyType, scan, i, tree.State())
    ensures tree.Sound() && tree.Valid()
  {
  }

  lemma FilledDone(tree: BTree.Tree, rows: map<RowId, seq<Value>>, pos: nat, scan: seq<RowId>)
    requires Filled(rows, pos, tree.keyType, scan, |scan|, tree.State())
    requires forall id :: multiset(scan)[id] == if id in rows then 1 else 0
    ensures tree.Valid() && Projects(rows, pos, tree.contents)
    ensures Backfilled(rows, pos, tree.keyType, scan, tree.State())
  {
    hide Projects, T.SoundState, Backfilled;
    ScanDone(rows, scan);
    assert scan[..|scan|] == scan;
  }

  lemma NewIndexOk(m: Metadata, tables: Tables, x: Index)
    requires Declared(m, x) && x.table in tables && x.tree.Valid()
    requires Projects(tables[x.table], Position(m, x), x.tree.contents)
    ensures IndexOk(m, tables, x, x.tree.State()) && Works(m, x, x.tree.State())
  {
  }

  class Engine {
    const meta: Metadata
    var tables: Tables
    var indexes: seq<Index>

    ghost function Trees(): set<BTree.Tree>
      reads this`indexes
    {
      set x | x in indexes :: x.tree
    }

    ghost function States(): (ss: seq<State>)
      reads this`indexes, Trees()
      ensures |ss| == |indexes| && forall i :: 0 <= i < |indexes| ==> ss[i] == indexes[i].tree.State()
    {
      StatesOf(indexes)
    }

    /** Every index has a tree of its own, in order. */
    ghost predicate Working()
      reads this`indexes, Trees()
    {
      && (forall i, j :: 0 <= i < j < |indexes| ==> indexes[i].tree != indexes[j].tree)
      && (forall i :: 0 <= i < |indexes| ==> Works(meta, indexes[i], indexes[i].tree.State()))
      && TypesFit(meta.schema, meta.types)
    }

    /** ... and its searches return exactly what the heap stores. */
    ghost predicate Sound()
      reads this, Trees()
    {
      Working() && Agree(meta, tables, indexes, States())
    }

    constructor (m: Metadata)
      requires TypesFit(m.schema, m.types)
      ensures Sound() && meta == m && indexes == [] && tables == map t | t in m.schema :: map[]
    {
      meta := m;
      tables, indexes := map t | t in m.schema :: map[], [];
    }

    lemma WorkingStates()
      requires Working()
      ensures AllWork(meta, indexes, States())
    {
    }

    /** The indexes up to `i` have followed a change, the others not yet. */
    ghost predicate Following(ss: seq<State>, c: Change, i: int)
      reads this`indexes, Trees()
    {
      && 0 <= i <= |indexes| && AllWork(meta, indexes, ss) && Typed(meta, c)
      && (forall j :: 0 <= j < i ==> IndexStep(meta, indexes[j], ss[j], c, Ok(()), indexes[j].tree.State()))
      && (forall j :: i <= j < |indexes| ==> indexes[j].tree.State() == ss[j])
    }

    /** After index `i` has followed too, or has failed to. */
    lemma StepDone(ss: seq<State>, c: Change, i: int, r: Result<(), StatementError>)
      requires 0 <= i < |indexes| && AllWork(meta, indexes, ss) && Typed(meta, c)
      requires forall j :: 0 <= j < i ==> IndexStep(meta, indexes[j], ss[j], c, Ok(()), indexes[j].tree.State())
      requires forall j :: i < j < |indexes| ==> indexes[j].tree.State() == ss[j]
      requires IndexStep(meta, indexes[i], ss[i], c, r, indexes[i].tree.State())
      ensures Works(meta, indexes[i], indexes[i].tree.State())
      ensures if r.Ok? then Following(ss, c, i + 1) else Follow(meta, indexes, ss, c, r, States())
    {
      hide IndexStep, T.SoundState, Declared;
      assert Works(meta, indexes[i], ss[i]);
      StepKeeps(meta, indexes[i], ss[i], c, r, indexes[i].tree.State());
      if r.Err? {
        assert StopsAt(meta, indexes, ss, c, r, States(), i);
      } else {
        OkStep(meta, indexes[i], ss[i], c, r, indexes[i].tree.State());
      }
    }

    lemma AllDone(ss: seq<State>, c: Change)
      requires Following(ss, c, |indexes|)
      ensures Follow(meta, indexes, ss, c, Ok(()), States())
    {
      hide IndexStep, Works;
      assert StopsAt(meta, indexes, ss, c, Ok(()), States(), |indexes|);
    }

    method IndexDeleteRow(table: nat, id: RowId, values: seq<Value>) returns (r: Result<(), StatementError>)
      requires Working() && Typed(meta, Removal(Target(table, id), values))
      modifies Trees()
      ensures Working() && Follow(meta, indexes, old(States()), Removal(Target(table, id), values), r, States())
    {
      hide IndexStep, Works, Typed, Follow, BTree.Tree.State;
      ghost var ss, c := States(), Removal(Target(table, id), values);
      var i := 0;
      while i < |indexes|
        invariant Working() && Following(ss, c, i)
      {
        r := DeleteFromIndex(meta, indexes[i], Target(table, id), values);
        StepDone(ss, c, i, r);
        if r.Err? {
          return;
        }
        i := i + 1;
      }
      AllDone(ss, c);
      return Ok(());
    }

    method IndexInsertRow(table: nat, id: RowId, values: seq<Value>) returns (r: Result<(), StatementError>)
      requires Working() && Typed(meta, Insertion(Target(table, id), values))
      modifies Trees()
      ensures Working() && Follow(meta, indexes, old(States()), Insertion(Target(table, id), values), r, States())
    {
      hide IndexStep, Works, Typed, Follow, BTree.Tree.State;
      ghost var ss, c := States(), Insertion(Target(table, id), values);
      var i := 0;
      while i < |indexes|
        invariant Working() && Following(ss, c, i)
      {
        r := InsertIntoIndex(meta, indexes[i], Target(table, id), values);
        StepDone(ss, c, i, r);
        if r.Err? {
          return;
        }
        i := i + 1;
      }
      AllDone(ss, c);
      return Ok(());
    }

    method IndexUpdateRow(table: nat, id: RowId, before: seq<Value>, after: seq<Value>)
      returns (r: Result<(), StatementError>)
      requires Working() && Typed(meta, Replacement(Target(table, id), before, after))
      modifies Trees()
      ensures Working()
      ensures Follow(meta, indexes, old(States()), Replacement(Target(table, id), before, after), r, States())
    {
      hide IndexStep, Works, Typed, Follow, BTree.Tree.State;
      ghost var ss, c := States(), Replacement(Target(table, id), before, after);
      var i := 0;
      while i < |indexes|
        invariant Working() && Following(ss, c, i)
      {
        r := UpdateIndex(meta, indexes[i], Target(table, id), before, after);
        StepDone(ss, c, i, r);
        if r.Err? {
          return;
        }
        i := i + 1;
      }
      AllDone(ss, c);
      return Ok(());
    }

    // ---------- INSERT ----------

    /** INSERT: the row is encoded, the heap stores it under a new id (or refuses,
        when `at` is none), then the indexes take it. The indexes agree with the
        heap again unless the heap took the row and an index did not. */
    method ExecuteInsert(table: nat, values: seq<Value>, at: Option<RowId>) returns (r: Result<(), StatementError>)
      requires Sound() && table in meta.schema && table in tables
      requires at.Some? ==> at.value !in tables[table]
      modifies this`tables, Trees()
      ensures Working() && (r == Err(EncodingFailed) <==> !Encodable(values, meta.types[table]))
      ensures r == Err(EncodingFailed) || at.None? ==> r.Err? && tables == old(tables) && States() == old(States())
      ensures at.Some? && r != Err(EncodingFailed) ==>
                var c := Insertion(Target(table, at.value), values);
                && tables == Applied(old(tables), c) && Typed(meta, c)
                && Follow(meta, indexes, old(States()), c, r, States())
                && (r.Ok? <==> AllTake(meta, indexes, old(States()), c))
                && (Sound() <==> r.Ok?)
    {
      hide Agree, Follow, Works;
      if |values| == |meta.types[table]| {
        Tuple.EncodesExactly(values, meta.types[table]);
      }
      var row := Tuple.Encode(values, meta.types[table]);
      if row.Err? {
        return Err(EncodingFailed);
      }
      if at.None? {
        return Err(HeapFailed);
      }
      ghost var ss, tables0, c := States(), tables, Insertion(Target(table, at.value), values);
      WorkingStates();
      tables := tables[table := tables[table][at.value := values]];
      r := IndexInsertRow(table, at.value, values);
      FollowsWhen(meta, indexes, ss, c, r, States());
      if r.Ok? {
        InsertionClean(meta, indexes, ss, c);
        FollowsExactly(meta, tables0, indexes, ss, c, r, States());
      } else {
        HeapAlone(meta, tables0, indexes, ss, c, r, States());
      }
    }

    // ---------- DELETE ----------

    method DeleteOne(d: Deletion, stuck: set<Target>) returns (r: Result<(), StatementError>)
      requires Working() && Typed(meta, AsRemoval(d))
      modifies this`tables, Trees()
      ensures Working() && Carries(meta, indexes, old(States()), AsRemoval(d), stuck, r, States())
      ensures tables == if r.Ok? then Applied(old(tables), AsRemoval(d)) else old(tables)
      ensures old(Sound()) && Current(old(tables), AsRemoval(d)) ==>
                (Sound() <==> if r.Ok? then AllClean(meta, indexes, old(States()), AsRemoval(d))
                              else SameEntries(old(States()), States()))
    {
      hide Follow, Works, Agree, Current, StatesOf, BTree.Tree.State, AllWork, AllClean, SameEntries;
      WorkingStates();
      ghost var ss, tables0, c := States(), tables, AsRemoval(d);
      r := IndexDeleteRow(d.target.table, d.target.id, d.values);
      ghost var q := r;
      if r.Ok? && d.target in stuck {
        r := Err(HeapFailed);
      }
      assert Carries(meta, indexes, ss, c, stuck, r, States()) by { assert Follow(meta, indexes, ss, c, q, States()); }
      if r.Ok? {
        tables := Applied(tables, AsRemoval(d));
      }
      if old(Sound()) && Current(tables0, c) {
        CarriedAgrees(meta, tables0, indexes, ss, c, stuck, r, States());
      }
    }

    /** For every planned row the indexes change first, then the heap, up to the
        first row that fails. */
    method DeleteRows(plan: seq<Deletion>, stuck: set<Target>)
      returns (r: Result<(), StatementError>, ghost trace: seq<seq<State>>)
      requires Working() && AllTyped(meta, Removals(plan))
      modifies this`tables, Trees()
      ensures Working() && Trace(meta, indexes, Removals(plan), stuck, trace, r)
      ensures trace[0] == old(States()) && trace[|trace| - 1] == States()
      ensures tables == AllApplied(old(tables), Removals(plan)[..if r.Ok? then |plan| else |trace| - 2])
    {
      hide Agree, Works, Carries, Typed, StatesOf, BTree.Tree.State, AllWork;
      ghost var tables0, cs := tables, Removals(plan);
      WorkingStates();
      trace := [States()];
      var i := 0;
      while i < |plan|
        invariant 0 <= i <= |plan| && Working() && |trace| == i + 1
        invariant trace[0] == old(States()) && trace[i] == States()
        invariant tables == AllApplied(tables0, cs[..i]) && AllTyped(meta, cs[..i])
        invariant Trace(meta, indexes, cs[..i], stuck, trace, Ok(()))
      {
        assert Typed(meta, cs[i]) && cs[..i + 1] == cs[..i] + [cs[i]] && cs[..i + 1][..i] == cs[..i];
        r := DeleteOne(plan[i], stuck);
        TraceStep(meta, indexes, cs[..i], stuck, trace, cs[i], r, States());
        trace := trace + [States()];
        if r.Err? {
          LongerTrace(meta, indexes, cs, stuck, trace, r, i + 1);
          return;
        }
        assert r.value == ();
        i := i + 1;
      }
      assert cs[..i] == cs;
      return Ok(()), trace;
    }

    /** DELETE succeeds exactly when, for every planned row in turn, every tree
        finds its entry without a refused merge and the heap is not stuck. */
    method ExecuteDelete(plan: seq<Deletion>, stuck: set<Target>)
      returns (r: Result<nat, StatementError>, ghost trace: seq<seq<State>>)
      requires Sound() && AllCurrent(tables, Removals(plan)) && Apart(Removals(plan))
      requires forall k :: 0 <= k < |plan| ==> plan[k].target.table in meta.schema
      modifies this`tables, Trees()
      ensures Working() && AllTyped(meta, Removals(plan))
      ensures Trace(meta, indexes, Removals(plan), stuck, trace, Plain(r))
      ensures trace[0] == old(States()) && trace[|trace| - 1] == States()
      ensures r.Ok? <==> AllGo(meta, indexes, Removals(plan), stuck, trace)
      ensures r.Ok? ==> r.value == |plan| && tables == AllApplied(old(tables), Removals(plan))
      ensures r.Err? ==> tables == AllApplied(old(tables), Removals(plan)[..|trace| - 2])
      ensures r.Ok? && CleanSoFar(meta, indexes, Removals(plan), trace, |plan|) ==> Sound()
      ensures r.Err? && CleanSoFar(meta, indexes, Removals(plan), trace, |trace| - 2) ==>
                && (Sound() <==> SameEntries(trace[|trace| - 2], States()))
                && (r == Err(TreeFailed) ==> !Sound())
      ensures AllUnstraddled(old(States())) ==>
                AllUnstraddled(States()) && r != Err(EntryNotFound) && (r.Ok? ==> Sound())
    {
      hide Agree, Works, Trace, Typed, CleanSoFar, AllUnstraddled, AllGo, SameEntries, Current, AllApplied;
      ghost var tables0, cs := tables, Removals(plan);
      RemovalsTyped(meta, tables, indexes, States(), plan);
      var done;
      done, trace := DeleteRows(plan, stuck);
      TraceBounds(meta, indexes, cs, stuck, trace, done);
      assert cs[..|plan|] == cs;
      DeleteDone(tables0, cs, stuck, trace, done);
      return if done.Ok? then Ok(|plan|) else Err(done.error), trace;
    }

    /** What the trace of a statement says about the state that it leaves. */
    lemma StatementDone(tables0: Tables, cs: seq<Change>, stuck: set<Target>, trace: seq<seq<State>>,
                        r: Result<(), StatementError>)
      requires Working() && AllTyped(meta, cs) && Trace(meta, indexes, cs, stuck, trace, r)
      requires Agree(meta, tables0, indexes, trace[0]) && trace[|trace| - 1] == States()
      requires Apart(cs) && AllCurrent(tables0, cs)
      requires tables == AllApplied(tables0, cs[..if r.Ok? then |cs| else |trace| - 2])
      ensures r.Ok? ==> AllGo(meta, indexes, cs, stuck, trace)
      ensures r.Err? ==> r.error in {TreeFailed, EntryNotFound, HeapFailed}
      ensures r.Ok? && CleanSoFar(meta, indexes, cs, trace, |cs|) ==> Sound()
      ensures r.Err? && CleanSoFar(meta, indexes, cs, trace, |trace| - 2) ==>
                (Sound() <==> SameEntries(trace[|trace| - 2], States()))
    {
      hide Agree, Works, Carries, Typed, CleanSoFar, AllGo, SameEntries, Current, AllWork, AllApplied;
      SucceedsWhen(meta, indexes, cs, stuck, trace, r);
      assert cs[..|cs|] == cs;
      if r.Ok? && CleanSoFar(meta, indexes, cs, trace, |cs|) {
        TraceAgrees(meta, tables0, indexes, cs, stuck, trace, r, |cs|);
      }
      if r.Err? && CleanSoFar(meta, indexes, cs, trace, |trace| - 2) {
        FailureAgrees(meta, tables0, indexes, cs, stuck, trace, r);
      }
    }

    /** ... and what more it says when the statement is a DELETE. */
    lemma DeleteDone(tables0: Tables, cs: seq<Change>, stuck: set<Target>, trace: seq<seq<State>>,
                     r: Result<(), StatementError>)
      requires Working() && AllTyped(meta, cs) && Trace(meta, indexes, cs, stuck, trace, r)
      requires Agree(meta, tables0, indexes, trace[0]) && trace[|trace| - 1] == States()
      requires Apart(cs) && AllCurrent(tables0, cs) && forall k :: 0 <= k < |cs| ==> cs[k].Removal?
      requires tables == AllApplied(tables0, cs[..if r.Ok? then |cs| else |trace| - 2])
      ensures r.Ok? <==> AllGo(meta, indexes, cs, stuck, trace)
      ensures r.Ok? && CleanSoFar(meta, indexes, cs, trace, |cs|) ==> Sound()
      ensures r.Err? && CleanSoFar(meta, indexes, cs, trace, |trace| - 2) ==>
                && (Sound() <==> SameEntries(trace[|trace| - 2], States()))
                && (r == Err(TreeFailed) ==> !Sound())
      ensures AllUnstraddled(trace[0]) ==>
                AllUnstraddled(States()) && r != Err(EntryNotFound) && (r.Ok? ==> Sound())
    {
      hide Agree, Works, Carries, Typed, CleanSoFar, AllUnstraddled, AllGo, SameEntries, Current, AllWork, AllApplied;
      StatementDone(tables0, cs, stuck, trace, r);
      SucceedsWhen(meta, indexes, cs, stuck, trace, r);
      if AllUnstraddled(trace[0]) {
        DeleteUnstraddled(meta, tables0, indexes, cs, stuck, trace, r, |trace| - 1);
      }
      if r.Err? && CleanSoFar(meta, indexes, cs, trace, |trace| - 2) {
        FailureAgrees(meta, tables0, indexes, cs, stuck, trace, r);
      }
    }

    // ---------- UPDATE ----------

    method UpdateOne(u: PreparedUpdate, stuck: set<Target>) returns (r: Result<(), StatementError>)
      requires Working() && Typed(meta, AsReplacement(u.pending))
      modifies this`tables, Trees()
      ensures Working() && Carries(meta, indexes, old(States()), AsReplacement(u.pending), stuck, r, States())
      ensures tables == if r.Ok? then Applied(old(tables), AsReplacement(u.pending)) else old(tables)
      ensures old(Sound()) && Current(old(tables), AsReplacement(u.pending)) ==>
                (Sound() <==> if r.Ok? then AllClean(meta, indexes, old(States()), AsReplacement(u.pending))
                              else SameEntries(old(States()), States()))
    {
      hide Follow, Works, Agree, Current, StatesOf, BTree.Tree.State, AllWork, AllClean, SameEntries;
      WorkingStates();
      ghost var ss, tables0, c := States(), tables, AsReplacement(u.pending);
      r := IndexUpdateRow(u.pending.target.table, u.pending.target.id, u.pending.before, u.pending.after);
      ghost var q := r;
      if r.Ok? && u.pending.target in stuck {
        r := Err(HeapFailed);
      }
      assert Carries(meta, indexes, ss, c, stuck, r, States()) by { assert Follow(meta, indexes, ss, c, q, States()); }
      if r.Ok? {
        tables := Applied(tables, AsReplacement(u.pending));
      }
      if old(Sound()) && Current(tables0, c) {
        CarriedAgrees(meta, tables0, indexes, ss, c, stuck, r, States());
      }
    }

    method UpdateRows(prepared: seq<PreparedUpdate>, stuck: set<Target>)
      returns (r: Result<(), StatementError>, ghost trace: seq<seq<State>>)
      requires Working() && AllTyped(meta, Replacements(Pending(prepared)))
      modifies this`tables, Trees()
      ensures Working() && Trace(meta, indexes, Replacements(Pending(prepared)), stuck, trace, r)
      ensures trace[0] == old(States()) && trace[|trace| - 1] == States()
      ensures var cs := Replacements(Pending(prepared));
              tables == AllApplied(old(tables), cs[..if r.Ok? then |prepared| else |trace| - 2])
    {
      hide Agree, Works, Carries, Typed, StatesOf, BTree.Tree.State, AllWork;
      ghost var tables0, cs := tables, Replacements(Pending(prepared));
      WorkingStates();
      trace := [States()];
      var i := 0;
      while i < |prepared|
        invariant 0 <= i <= |prepared| && Working() && |trace| == i + 1
        invariant trace[0] == old(States()) && trace[i] == States()
        invariant tables == AllApplied(tables0, cs[..i]) && AllTyped(meta, cs[..i])
        invariant Trace(meta, indexes, cs[..i], stuck, trace, Ok(()))
      {
        assert Typed(meta, cs[i]) && cs[..i + 1] == cs[..i] + [cs[i]] && cs[..i + 1][..i] == cs[..i];
        r := UpdateOne(prepared[i], stuck);
        TraceStep(meta, indexes, cs[..i], stuck, trace, cs[i], r, States());
        trace := trace + [States()];
        if r.Err? {
          LongerTrace(meta, indexes, cs, stuck, trace, r, i + 1);
          return;
        }
        assert r.value == ();
        i := i + 1;
      }
      assert cs[..i] == cs;
      return Ok(()), trace;
    }

    /** UPDATE, when its plan is made: it succeeds only if every tree finds each
        old entry without a refused merge, takes the new one, and the heap has
        room for the new rows. */
    method ExecuteUpdate(prepared: seq<PreparedUpdate>, stuck: set<Target>)
      returns (r: Result<nat, StatementError>, ghost trace: seq<seq<State>>)
      requires Sound() && AllCurrent(tables, Replacements(Pending(prepared))) && Apart(Replacements(Pending(prepared)))
      requires forall k :: 0 <= k < |prepared| ==>
                 prepared[k].pending.target.table in meta.schema && Storable(meta.types, prepared[k].pending)
      modifies this`tables, Trees()
      ensures Working() && AllTyped(meta, Replacements(Pending(prepared)))
      ensures Trace(meta, indexes, Replacements(Pending(prepared)), stuck, trace, Plain(r))
      ensures trace[0] == old(States()) && trace[|trace| - 1] == States()
      ensures r.Ok? ==>
                && AllGo(meta, indexes, Replacements(Pending(prepared)), stuck, trace) && r.value == |prepared|
                && tables == AllApplied(old(tables), Replacements(Pending(prepared)))
      ensures r.Err? ==> r.error in {TreeFailed, EntryNotFound, HeapFailed}
      ensures r.Err? ==> tables == AllApplied(old(tables), Replacements(Pending(prepared))[..|trace| - 2])
      ensures r.Ok? && CleanSoFar(meta, indexes, Replacements(Pending(prepared)), trace, |prepared|) ==> Sound()
      ensures r.Err? && CleanSoFar(meta, indexes, Replacements(Pending(prepared)), trace, |trace| - 2) ==>
                (Sound() <==> SameEntries(trace[|trace| - 2], States()))
    {
      hide Agree, Works, Trace, Typed, CleanSoFar, AllGo, SameEntries, Current, AllApplied;
      ghost var tables0, cs := tables, Replacements(Pending(prepared));
      ReplacementsTyped(meta, tables, indexes, States(), Pending(prepared));
      var done;
      done, trace := UpdateRows(prepared, stuck);
      TraceBounds(meta, indexes, cs, stuck, trace, done);
      assert cs[..|prepared|] == cs;
      StatementDone(tables0, cs, stuck, trace, done);
      return if done.Ok? then Ok(|prepared|) else Err(done.error), trace;
    }

    // ---------- CREATE INDEX ----------

    /** CREATE INDEX: a new tree takes every row of a scan before the index is
        entered in the catalog. */
    method CreateIndex(table: nat, column: nat, scan: seq<RowId>) returns (r: Result<(), StatementError>)
      requires Sound() && table in meta.schema && table in tables && column in meta.schema[table]
      requires forall id :: multiset(scan)[id] == if id in tables[table] then 1 else 0
      modifies this`indexes
      ensures Sound() && (r.Err? ==> r.error in {UnsupportedKeyType, TreeFailed} && indexes == old(indexes))
      ensures r == Err(UnsupportedKeyType) <==> ColumnTypeOf(meta, table, column) == A.DataType.NullType
      ensures r.Ok? ==>
                && |indexes| == |old(indexes)| + 1 && indexes[..|old(indexes)|] == old(indexes)
                && var x := indexes[|old(indexes)|];
                   && x.table == table && x.column == column && fresh(x.tree)
                   && Backfilled(tables[table], Position(meta, x), x.tree.keyType, scan, x.tree.State())
      ensures scan == [] ==> r != Err(TreeFailed)
    {
      hide Agree, Works, Projects, RowsEncodable, Backfilled, T.SoundState, T.ExactState;
      var t := ColumnTypeOf(meta, table, column);
      if t == A.DataType.NullType {
        return Err(UnsupportedKeyType);
      }
      var tree := new BTree.Tree.Create(KeyTypeOf(t));
      var x := Index(table, column, tree);
      StoredTyped(meta, tables, indexes, States(), x);
      var filled := Backfill(x, tables[table], Position(meta, x), scan);
      if filled.Err? {
        return Err(filled.error);
      }
      ghost var ss := States();
      NewIndexOk(meta, tables, x);
      AgreeMore(meta, tables, indexes, ss, x, tree.State());
      indexes := indexes + [x];
      assert States() == ss + [tree.State()];
      return Ok(());
    }
  }

  function ColumnTypeOf(m: Metadata, table: nat, column: nat): A.DataType
    requires TypesFit(m.schema, m.types) && table in m.schema && column in m.schema[table]
  {
    m.types[table][ColumnIndex(m.schema[table], column).value]
  }

  // ---------- backfilling ----------

  /** A new tree after the rows of a list were added to it one by one. */
  ghost predicate Backfilled(rows: map<RowId, seq<Value>>, pos: nat, t: KeyType, scan: seq<RowId>, s: State) {
    if scan == [] then s == T.NewState(t)
    else
      var n := |scan| - 1;
      exists before :: Backfilled(rows, pos, t, scan[..n], before) && scan[n] in rows && pos < |rows[scan[n]]|
          && Adds(before, rows[scan[n]][pos], scan[n], Ok(()), s)
  }

  lemma BackfilledStep(rows: map<RowId, seq<Value>>, pos: nat, t: KeyType, scan: seq<RowId>, id: RowId, s: State,
                       r: Result<(), StatementError>, s': State)
    requires Backfilled(rows, pos, t, scan, s) && id in rows && pos < |rows[id]| && r.Ok?
    requires Adds(s, rows[id][pos], id, r, s')
    ensures Backfilled(rows, pos, t, scan + [id], s')
  {
    hide Adds;
    assert (scan + [id])[..|scan|] == scan;
    assert r == Ok(()) by { assert r.value == (); }
  }

  lemma NewTreeProjects(rows: map<RowId, seq<Value>>, pos: nat)
    ensures Projects(Part(rows, []), pos, multiset{})
  {
  }

  lemma StoredTyped(m: Metadata, tables: Tables, xs: seq<Index>, ss: seq<State>, x: Index)
    requires Agree(m, tables, xs, ss) && Declared(m, x) && x.table in tables
    ensures forall id :: id in tables[x.table] ==>
              && Position(m, x) < |tables[x.table][id]|
              && (tables[x.table][id][Position(m, x)].Some? ==>
                    tables[x.table][id][Position(m, x)].value.Type() == x.tree.keyType)
  {
    forall id | id in tables[x.table] ensures Encodable(tables[x.table][id], m.types[x.table]) {
    }
  }

  lemma AgreeMore(m: Metadata, tables: Tables, xs: seq<Index>, ss: seq<State>, x: Index, s: State)
    requires Agree(m, tables, xs, ss) && IndexOk(m, tables, x, s)
    ensures Agree(m, tables, xs + [x], ss + [s])
  {
    hide IndexOk;
  }

  /** The rows of a table that a list names. */
  ghost function Part(rows: map<RowId, seq<Value>>, ids: seq<RowId>): map<RowId, seq<Value>> {
    map id | id in rows && id in ids :: rows[id]
  }

  lemma ScanStep(rows: map<RowId, seq<Value>>, scan: seq<RowId>, i: nat)
    requires i < |scan| && forall id :: multiset(scan)[id] == if id in rows then 1 else 0
    ensures scan[i] in rows && scan[i] !in Part(rows, scan[..i])
    ensures Part(rows, scan[..i + 1]) == Part(rows, scan[..i])[scan[i] := rows[scan[i]]]
  {
    assert scan[i] in multiset(scan);
    assert scan == scan[..i] + [scan[i]] + scan[i + 1..];
    assert multiset(scan)[scan[i]] == multiset(scan[..i])[scan[i]] + 1 + multiset(scan[i + 1..])[scan[i]];
  }

  lemma ScanDone(rows: map<RowId, seq<Value>>, scan: seq<RowId>)
    requires forall id :: multiset(scan)[id] == if id in rows then 1 else 0
    ensures Part(rows, scan) == rows
  {
    forall id | id in rows ensures id in scan {
      assert multiset(scan)[id] == 1;
    }
  }
}
