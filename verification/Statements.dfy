/** UPDATE and DELETE from end to end: the rows to change are found through the
    indexes, planned once each, and changed together with their index entries. */
module Statements {
  import opened Wrappers
  import opened Keys
  import opened Rows
  import opened FromClause
  import opened Pushdown
  import opened Prepare
  import opened IndexChanges
  import opened Maintenance
  import opened Binder
  import BTreeModel
  import Tuple
  import T = BTreeStates

  function FindIndex(indexes: seq<Index>, table: nat, column: nat): (r: Option<nat>)
    ensures r.Some? <==> exists i :: 0 <= i < |indexes| && indexes[i].table == table && indexes[i].column == column
    ensures r.Some? ==> r.value < |indexes| && indexes[r.value].table == table && indexes[r.value].column == column
  {
    if indexes == [] then None
    else if indexes[0].table == table && indexes[0].column == column then Some(0)
    else
      var rest := FindIndex(indexes[1..], table, column);
      if rest.Some? then Some(rest.value + 1) else None
  }

  type Search = (nat, nat, Value) -> Option<seq<RowId>>

  /** What a tree that holds an index answers: the row ids under a key, in some
      order, and none under NULL. */
  ghost predicate Answered(indexes: seq<Index>, ss: seq<State>, search: Search, t: nat, c: nat, v: Value)
    requires |ss| == |indexes|
  {
    var i := FindIndex(indexes, t, c);
    if i.None? then search(t, c, v) == None
    else
      && search(t, c, v).Some?
      && forall id :: multiset(search(t, c, v).value)[id]
           == if v.None? then 0 else ss[i.value].contents[BTreeModel.Entry(v.value, id)]
  }

  ghost predicate Searches(indexes: seq<Index>, ss: seq<State>, search: Search)
    requires |ss| == |indexes|
  {
    forall t, c, v :: Answered(indexes, ss, search, t, c, v)
  }

  ghost predicate ScansOf(tables: Tables, scan: map<nat, seq<RowId>>) {
    forall t :: t in tables ==> t in scan && forall id :: multiset(scan[t])[id] == if id in tables[t] then 1 else 0
  }

  /** One index answers one lookup as a scan would. */
  lemma IndexAnswers(db: Database, m: Metadata, x: Index, s: State, v: Value, found: seq<RowId>)
    requires IndexOk(m, db.tables, x, s) && db.schema == m.schema
    requires forall id :: multiset(found)[id]
               == if v.None? then 0 else s.contents[BTreeModel.Entry(v.value, id)]
    ensures forall id :: multiset(found)[id]
              == if id in db.tables[x.table] && Position(m, x) < |db.tables[x.table][id]|
                    && v.Some? && db.tables[x.table][id][Position(m, x)] == v then 1 else 0
  {
    hide T.SoundState, T.ExactState;
  }

  /** Indexes that agree with the heap make the database fit for queries. */
  lemma AgreeingDatabase(m: Metadata, tables: Tables, indexes: seq<Index>, ss: seq<State>, scan: map<nat, seq<RowId>>,
                         search: Search)
    requires Agree(m, tables, indexes, ss) && m.schema.Keys <= tables.Keys && ScansOf(tables, scan)
             && Searches(indexes, ss, search)
    ensures DatabaseOk(Database(m.schema, tables, scan, search))
  {
    hide IndexOk;
    var db := Database(m.schema, tables, scan, search);
    forall t | t in m.schema ensures TableOk(db, t) {
      assert t in m.types;
    }
    forall t, c, v | t in m.schema && TableOk(db, t) && c in m.schema[t] ensures IndexAgrees(db, t, c, v) {
      assert Answered(indexes, ss, search, t, c, v);
      var i := FindIndex(indexes, t, c);
      if i.Some? {
        IndexAnswers(db, m, indexes[i.value], ss[i.value], v, search(t, c, v).value);
      }
    }
  }

  method MatchingRows(db: Database, from: From, filter: Option<Expression>) returns (rows: seq<QueryRow>)
    requires DatabaseOk(db) && FromBound(db.schema, from)
             && (filter.Some? ==> FilterBound(db.schema, from, filter.value))
    ensures Selects(db, from, filter, rows)
    ensures forall k :: 0 <= k < |rows| ==> Fits(db, from, rows[k])
  {
    var found := SelectRows(db, from, filter);
    rows := found.value;
    SelectedFit(db, from, filter, rows);
  }

  lemma PlanIsCurrent(tables: Tables, schema: Schema, plan: seq<Update>)
    requires forall k :: 0 <= k < |plan| ==> ReadFrom(tables, schema, plan[k])
    requires forall j, k :: 0 <= j < k < |plan| ==> plan[j].target != plan[k].target
    ensures AllCurrent(tables, Replacements(plan)) && Apart(Replacements(plan))
  {
    forall k | 0 <= k < |plan| ensures Current(tables, Replacements(plan)[k]) {
      assert ReadFrom(tables, schema, plan[k]);
    }
  }

  /** UPDATE changes exactly the rows that match, each once and with every
      assignment applied. It is planned as a whole first, which fails exactly
      when a new row cannot be stored. Then it goes through the plan up to the
      first row whose index entries or heap page fail. */
  method Update(engine: Engine, from: From, assignments: seq<Assignment>, filter: Option<Expression>,
                scan: map<nat, seq<RowId>>, search: Search, stuck: set<Target>)
    returns (r: Result<nat, StatementError>, ghost rows: seq<QueryRow>, ghost plan: seq<Update>,
             ghost trace: seq<seq<State>>)
    requires engine.Sound() && engine.meta.schema.Keys <= engine.tables.Keys
    requires ScansOf(engine.tables, scan) && Searches(engine.indexes, engine.States(), search)
    requires FromBound(engine.meta.schema, from)
             && (filter.Some? ==> FilterBound(engine.meta.schema, from, filter.value))
             && AssignmentsBound(engine.meta.schema, from, assignments)
    modifies engine, engine.Trees()
    ensures engine.Working() && engine.indexes == old(engine.indexes)
    ensures var db := old(Database(engine.meta.schema, engine.tables, scan, search));
            Selects(db, from, filter, rows)
    ensures r == Err(EncodingFailed) <==> !AllStorable(engine.meta.schema, engine.meta.types, rows, assignments)
    ensures r == Err(EncodingFailed) ==>
              engine.tables == old(engine.tables) && engine.States() == old(engine.States())
    ensures AssignmentsTyped(engine.meta.schema, engine.meta.types, assignments) ==>
              (r == Err(EncodingFailed) <==> GetsTooLong(engine.meta.schema, rows, assignments))
    ensures r != Err(EncodingFailed) ==>
              && ChangesAll(engine.meta.schema, rows, assignments, plan)
              && AllTyped(engine.meta, Replacements(plan))
              && Trace(engine.meta, engine.indexes, Replacements(plan), stuck, trace, Plain(r))
              && trace[0] == old(engine.States()) && trace[|trace| - 1] == engine.States()
              && (r.Ok? ==> AllGo(engine.meta, engine.indexes, Replacements(plan), stuck, trace))
              && (r.Ok? ==> r.value == |plan| && engine.tables == AllApplied(old(engine.tables), Replacements(plan)))
              && (r.Err? ==> engine.tables == AllApplied(old(engine.tables), Replacements(plan)[..|trace| - 2]))
              && (r.Ok? && CleanSoFar(engine.meta, engine.indexes, Replacements(plan), trace, |plan|) ==>
                    engine.Sound())
  {
    hide Agree, DatabaseOk, Selects, ChangesAll, Fits, Trace, AllGo, CleanSoFar, FromBound, Works, AllCurrent, Apart,
         AllApplied, GetsTooLong, FailsToEncode, Changes, Answered, BoundIn, AllStorable, ReadFrom, SameEntries;
    ghost var ss := engine.States();
    AgreeingDatabase(engine.meta, engine.tables, engine.indexes, ss, scan, search);
    var db := Database(engine.meta.schema, engine.tables, scan, search);
    var matching := MatchingRows(db, from, filter);
    rows := matching;
    MetaFits(engine.meta, engine.tables, engine.indexes, ss);
    var prepared := PrepareUpdate(db, engine.meta.types, from, matching, assignments);
    if AssignmentsTyped(db.schema, engine.meta.types, assignments) {
      StorableWhen(db, engine.meta.types, from, matching, assignments);
    }
    plan, trace := [], [ss];
    if prepared.Err? {
      return Err(EncodingFailed), rows, plan, trace;
    }
    plan := Pending(prepared.value);
    ApartTargets(db.schema, rows, assignments, plan);
    PlanIsCurrent(engine.tables, db.schema, plan);
    StorablePlan(engine.tables, db.schema, engine.meta.types, prepared.value);
    r, trace := engine.ExecuteUpdate(prepared.value, stuck);
  }

  lemma ApartTargets(schema: Schema, rows: seq<QueryRow>, assignments: seq<Assignment>, plan: seq<Update>)
    requires ChangesAll(schema, rows, assignments, plan)
    ensures forall j, k :: 0 <= j < k < |plan| ==> plan[j].target != plan[k].target
  {
  }

  lemma StorablePlan(tables: Tables, schema: Schema, types: Types, prepared: seq<PreparedUpdate>)
    requires forall k :: 0 <= k < |prepared| ==>
               Encoded(types, prepared[k]) && ReadFrom(tables, schema, prepared[k].pending)
    ensures forall k :: 0 <= k < |prepared| ==>
              prepared[k].pending.target.table in schema && Storable(types, prepared[k].pending)
  {
    forall k | 0 <= k < |prepared|
      ensures prepared[k].pending.target.table in schema && Storable(types, prepared[k].pending)
    {
      assert Encoded(types, prepared[k]) && ReadFrom(tables, schema, prepared[k].pending);
      Tuple.EncodesExactly(prepared[k].pending.after, types[prepared[k].pending.target.table]);
    }
  }

  lemma MetaFits(m: Metadata, tables: Tables, xs: seq<Index>, ss: seq<State>)
    requires Agree(m, tables, xs, ss)
    ensures TypesFit(m.schema, m.types) && RowsEncodable(tables, m.types)
  {
  }

  lemma {:induction false} FitsDoomed(db: Database, from: From, row: QueryRow, target: (nat, nat))
    requires FromBound(db.schema, from) && Fits(db, from, row) && TargetBound(db.schema, from, target)
    ensures target.1 in Instances(from) && Doomed(row, target.0, target.1).Some?
    ensures Current(db.tables, AsRemoval(Doomed(row, target.0, target.1).value))
  {
    match from
    case Table(t, i) =>
    case InnerJoin(l, on, r) =>
      var a, b := row[..Width(l)], row[Width(l)..];
      FitsWidth(db, l, a);
      FitsWidth(db, r, b);
      assert row == a + b;
      FindInJoined(a, b, target.1);
      if TargetBound(db.schema, l, target) {
        FitsDoomed(db, l, a, target);
      } else {
        FitsDoomed(db, r, b, target);
      }
  }

  /** A row that a target names is stored, in a table of the schema. */
  lemma DropsStored(db: Database, from: From, row: QueryRow, target: (nat, nat), d: Deletion)
    requires FromBound(db.schema, from) && Fits(db, from, row) && TargetBound(db.schema, from, target)
    requires DropsAt(row, target, d)
    ensures Current(db.tables, AsRemoval(d)) && d.target.table in db.schema
  {
    DoomedMeans(row, target, d);
    FitsDoomed(db, from, row, target);
    TargetInSchema(db.schema, from, row, target);
  }

  lemma TargetHasPart(db: Database, from: From, row: QueryRow, target: (nat, nat))
    requires FromBound(db.schema, from) && Fits(db, from, row) && TargetBound(db.schema, from, target)
    ensures !NoPart(row, target.1)
  {
    FitsDoomed(db, from, row, target);
    DoomedMeans(row, target, Doomed(row, target.0, target.1).value);
  }

  lemma DropsCurrent(db: Database, from: From, rows: seq<QueryRow>, targets: seq<(nat, nat)>, plan: seq<Deletion>)
    requires FromBound(db.schema, from) && forall k :: 0 <= k < |rows| ==> Fits(db, from, rows[k])
    requires forall y :: 0 <= y < |targets| ==> TargetBound(db.schema, from, targets[y])
    requires DropsAll(rows, targets, plan)
    ensures AllCurrent(db.tables, Removals(plan)) && Apart(Removals(plan))
    ensures forall k :: 0 <= k < |plan| ==> plan[k].target.table in db.schema
  {
    hide FromBound, Fits, TargetBound, DropsAt, Current;
    forall k | 0 <= k < |plan| ensures Current(db.tables, AsRemoval(plan[k])) && plan[k].target.table in db.schema {
      assert Drops(rows, targets, plan[k]);
      var x, y :| 0 <= x < |rows| && 0 <= y < |targets| && DropsAt(rows[x], targets[y], plan[k]);
      DropsStored(db, from, rows[x], targets[y], plan[k]);
    }
  }

  /** DELETE removes exactly the targeted rows of the joined rows that match. It
      succeeds exactly when, row by row, every tree finds its entry without a
      refused merge and the heap gives up the row. */
  method Delete(engine: Engine, from: From, targets: seq<(nat, nat)>, filter: Option<Expression>,
                scan: map<nat, seq<RowId>>, search: Search, stuck: set<Target>)
    returns (r: Result<nat, StatementError>, ghost rows: seq<QueryRow>, ghost plan: seq<Deletion>,
             ghost trace: seq<seq<State>>)
    requires engine.Sound() && engine.meta.schema.Keys <= engine.tables.Keys
    requires ScansOf(engine.tables, scan) && Searches(engine.indexes, engine.States(), search)
    requires FromBound(engine.meta.schema, from)
             && (filter.Some? ==> FilterBound(engine.meta.schema, from, filter.value))
    requires forall y :: 0 <= y < |targets| ==> TargetBound(engine.meta.schema, from, targets[y])
    modifies engine, engine.Trees()
    ensures engine.Working() && engine.indexes == old(engine.indexes)
    ensures var db := old(Database(engine.meta.schema, engine.tables, scan, search));
            Selects(db, from, filter, rows)
    ensures DropsAll(rows, targets, plan) && AllTyped(engine.meta, Removals(plan))
    ensures Trace(engine.meta, engine.indexes, Removals(plan), stuck, trace, Plain(r))
    ensures trace[0] == old(engine.States()) && trace[|trace| - 1] == engine.States()
    ensures r.Ok? <==> AllGo(engine.meta, engine.indexes, Removals(plan), stuck, trace)
    ensures r.Ok? ==> r.value == |plan| && engine.tables == AllApplied(old(engine.tables), Removals(plan))
    ensures r.Err? ==> engine.tables == AllApplied(old(engine.tables), Removals(plan)[..|trace| - 2])
    ensures r.Ok? && CleanSoFar(engine.meta, engine.indexes, Removals(plan), trace, |plan|) ==> engine.Sound()
    ensures r == Err(TreeFailed) && CleanSoFar(engine.meta, engine.indexes, Removals(plan), trace, |trace| - 2) ==>
              !engine.Sound()
    ensures AllUnstraddled(old(engine.States())) ==> r != Err(EntryNotFound) && (r.Ok? ==> engine.Sound())
  {
    hide Agree, DatabaseOk, Selects, Fits, Trace, AllGo, CleanSoFar, FromBound, Works, AllUnstraddled, TargetBound,
         AllApplied, SameEntries, DropsAll, NoPart, AllCurrent, Apart;
    ghost var ss := engine.States();
    AgreeingDatabase(engine.meta, engine.tables, engine.indexes, ss, scan, search);
    var db := Database(engine.meta.schema, engine.tables, scan, search);
    var matching := MatchingRows(db, from, filter);
    rows := matching;
    var prepared := PrepareDelete(matching, targets);
    forall x, y | 0 <= x < |rows| && 0 <= y < |targets| ensures !NoPart(rows[x], targets[y].1) {
      TargetHasPart(db, from, rows[x], targets[y]);
    }
    plan := prepared.value;
    DropsCurrent(db, from, rows, targets, plan);
    r, trace := engine.ExecuteDelete(prepared.value, stuck);
  }

  lemma {:induction false} TargetInSchema(schema: Schema, from: From, row: QueryRow, target: (nat, nat))
    requires FromBound(schema, from) && TargetBound(schema, from, target)
    ensures target.0 in schema
    ensures Doomed(row, target.0, target.1).Some? ==>
              Doomed(row, target.0, target.1).value.target.table == target.0
  {
    match from
    case Table(t, i) =>
    case InnerJoin(l, on, r) =>
      if TargetBound(schema, l, target) {
        TargetInSchema(schema, l, row, target);
      } else {
        TargetInSchema(schema, r, row, target);
      }
  }
}
