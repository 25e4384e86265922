/** FROM clauses and filters: reading tables through an index where the filter
    allows it, and joining them. */
module FromClause {
  import opened Wrappers
  import opened Keys
  import opened Rows
  import opened RowMeaning
  import opened Joins

  datatype Expression =
    | Comparison(column: Column, op: Operator, value: Value)
    | And(left: Expression, right: Expression)
    | Or(first: Expression, second: Expression)

  datatype From = Table(table: nat, instance: nat) | InnerJoin(left: From, on: JoinCondition, right: From)

  /** The stored rows of each table, the order in which a scan lists them, and
      what the index of a column returns for a value, if there is an index. */
  datatype Database = Database(schema: Schema, tables: map<nat, map<RowId, seq<Value>>>, scan: map<nat, seq<RowId>>,
                               search: (nat, nat, Value) -> Option<seq<RowId>>)

  datatype QueryError = Executor(error: ExecutorError) | NoSuchTable | RowNotFound

  // ---------- filters ----------

  function RowMatches(schema: Schema, row: QueryRow, e: Expression): Result<bool, ExecutorError> {
    match e
    case Comparison(c, op, v) =>
      var x := ColumnValue(schema, row, c);
      if x.Err? then Err(x.error) else Ok(Holds(x.value, op, v))
    case And(l, r) =>
      var a := RowMatches(schema, row, l);
      if a == Ok(true) then RowMatches(schema, row, r) else a
    case Or(l, r) =>
      var a := RowMatches(schema, row, l);
      if a == Ok(false) then RowMatches(schema, row, r) else a
  }

  function Filter(schema: Schema, rows: seq<QueryRow>, e: Expression): Result<seq<QueryRow>, ExecutorError> {
    if rows == [] then Ok([])
    else
      var before := Filter(schema, rows[..|rows| - 1], e);
      var last := RowMatches(schema, rows[|rows| - 1], e);
      if before.Err? then before
      else if last.Err? then Err(last.error)
      else Ok(before.value + if last.value then [rows[|rows| - 1]] else [])
  }

  /** A row passes an AND if it passes both sides and an OR if it passes one; a
      comparison is between the value of the column and a constant. */
  ghost predicate Passes(schema: Schema, row: QueryRow, e: Expression) {
    match e
    case Comparison(c, op, b) => exists a: Value :: HasValue(schema, row, c, a) && Meets(a, op, b)
    case And(l, r) => Passes(schema, row, l) && Passes(schema, row, r)
    case Or(l, r) => Passes(schema, row, l) || Passes(schema, row, r)
  }

  /** Some column that has to be looked at has no value; the right side is looked
      at if the left side does not decide. */
  ghost predicate Undefined(schema: Schema, row: QueryRow, e: Expression) {
    match e
    case Comparison(c, _, _) => !exists a: Value :: HasValue(schema, row, c, a)
    case And(l, r) => Undefined(schema, row, l) || (Passes(schema, row, l) && Undefined(schema, row, r))
    case Or(l, r) => Undefined(schema, row, l) || (!Passes(schema, row, l) && Undefined(schema, row, r))
  }

  lemma {:induction false} MatchMeans(schema: Schema, row: QueryRow, e: Expression)
    ensures RowMatches(schema, row, e).Err? <==> Undefined(schema, row, e)
    ensures RowMatches(schema, row, e).Ok? ==> (RowMatches(schema, row, e).value <==> Passes(schema, row, e))
  {
    hide ColumnValue, HasValue, Holds, Meets;
    match e
    case Comparison(c, op, b) =>
      forall a: Value ensures ColumnValue(schema, row, c) == Ok(a) <==> HasValue(schema, row, c, a) {
        ColumnValueMeans(schema, row, c, a);
      }
      if ColumnValue(schema, row, c).Ok? {
        HoldsMeans(ColumnValue(schema, row, c).value, op, b);
      }
    case And(l, r) =>
      MatchMeans(schema, row, l);
      MatchMeans(schema, row, r);
    case Or(l, r) =>
      MatchMeans(schema, row, l);
      MatchMeans(schema, row, r);
  }

  /** The rows that pass, in order. */
  ghost function Passing(schema: Schema, rows: seq<QueryRow>, e: Expression): seq<QueryRow> {
    if rows == [] then []
    else
      var n := |rows| - 1;
      Passing(schema, rows[..n], e) + if Passes(schema, rows[n], e) then [rows[n]] else []
  }

  lemma {:induction false} FilterMeans(schema: Schema, rows: seq<QueryRow>, e: Expression)
    ensures Filter(schema, rows, e).Err? <==> exists k :: 0 <= k < |rows| && Undefined(schema, rows[k], e)
    ensures Filter(schema, rows, e).Ok? ==> Filter(schema, rows, e).value == Passing(schema, rows, e)
    decreases |rows|
  {
    hide RowMatches, Undefined, Passes;
    if rows == [] {
    } else {
      var n := |rows| - 1;
      FilterMeans(schema, rows[..n], e);
      MatchMeans(schema, rows[n], e);
      assert forall k :: 0 <= k < n ==> rows[..n][k] == rows[k];
    }
  }

  lemma {:induction false} FilterError(schema: Schema, rows: seq<QueryRow>, e: Expression, n: nat)
    requires n <= |rows| && Filter(schema, rows[..n], e).Err?
    ensures Filter(schema, rows, e) == Filter(schema, rows[..n], e)
    decreases |rows|
  {
    if n < |rows| {
      assert rows[..|rows| - 1][..n] == rows[..n];
      FilterError(schema, rows[..|rows| - 1], e, n);
    } else {
      assert rows[..n] == rows;
    }
  }

  /** The rows that pass, in order; an error if some row has no truth value. */
  method FilterRows(schema: Schema, rows: seq<QueryRow>, e: Expression)
    returns (r: Result<seq<QueryRow>, ExecutorError>)
    ensures r == Filter(schema, rows, e)
    ensures r.Ok? ==> r.value == Passing(schema, rows, e)
    ensures r.Err? <==> exists k :: 0 <= k < |rows| && Undefined(schema, rows[k], e)
  {
    hide RowMatches, Passing, Undefined;
    FilterMeans(schema, rows, e);
    var kept := [];
    var i := 0;
    while i < |rows|
      invariant 0 <= i <= |rows| && Filter(schema, rows[..i], e) == Ok(kept)
    {
      assert rows[..i + 1][..i] == rows[..i] && kept + [] == kept;
      var m := RowMatches(schema, rows[i], e);
      if m.Err? {
        FilterError(schema, rows, e, i + 1);
        return Err(m.error);
      }
      if m.value {
        kept := kept + [rows[i]];
      }
      i := i + 1;
    }
    assert rows[..i] == rows;
    return Ok(kept);
  }

  // ---------- reading tables ----------

  /** An equality on a column of the table that every matching row satisfies. */
  function IndexPredicate(e: Expression, instance: nat): Option<(Column, Value)> {
    match e
    case Comparison(c, op, v) => if op == Equals && c.instance == instance then Some((c, v)) else None
    case And(l, r) =>
      var a := IndexPredicate(l, instance);
      if a.Some? then a else IndexPredicate(r, instance)
    case Or(_, _) => None
  }

  /** The parts of a filter that every matching row satisfies, from left to right. */
  ghost function Conjuncts(e: Expression): seq<Expression> {
    match e
    case And(l, r) => Conjuncts(l) + Conjuncts(r)
    case _ => [e]
  }

  ghost predicate IsEquality(e: Expression, instance: nat) {
    e.Comparison? && e.op.Equals? && e.column.instance == instance
  }

  /** The first of the parts that equates a column of the table. */
  ghost predicate FirstEquality(es: seq<Expression>, instance: nat, i: int) {
    0 <= i < |es| && IsEquality(es[i], instance) && forall j :: 0 <= j < i ==> !IsEquality(es[j], instance)
  }

  /** An index is looked up for the first equality on the table, if there is one. */
  lemma {:induction false} PredicateMeans(e: Expression, instance: nat) returns (i: int)
    ensures IndexPredicate(e, instance).None? ==>
              forall j :: 0 <= j < |Conjuncts(e)| ==> !IsEquality(Conjuncts(e)[j], instance)
    ensures IndexPredicate(e, instance).Some? ==>
              && FirstEquality(Conjuncts(e), instance, i)
              && var p := IndexPredicate(e, instance).value;
                 Conjuncts(e)[i] == Comparison(p.0, Equals, p.1)
  {
    i := 0;
    if e.And? {
      var l := PredicateMeans(e.left, instance);
      var r := PredicateMeans(e.right, instance);
      i := if IndexPredicate(e.left, instance).Some? then l else |Conjuncts(e.left)| + r;
    }
  }

  /** The row ids that an index yields for the filter, if one can be used. */
  function Lookup(db: Database, table: nat, instance: nat, filter: Option<Expression>): Option<seq<RowId>> {
    var p := if filter.None? then None else IndexPredicate(filter.value, instance);
    if p.None? then None else db.search(table, p.value.0.column, p.value.1)
  }

  function GetRows(rows: map<RowId, seq<Value>>, instance: nat, ids: seq<RowId>): Result<seq<QueryRow>, QueryError> {
    if ids == [] then Ok([])
    else
      var before := GetRows(rows, instance, ids[..|ids| - 1]);
      var id := ids[|ids| - 1];
      if before.Err? then before
      else if id !in rows then Err(RowNotFound)
      else Ok(before.value + [[TableRow(id, instance, rows[id])]])
  }

  /** Row by row what the ids name, in their order. */
  lemma {:induction false} GetRowsMeans(rows: map<RowId, seq<Value>>, instance: nat, ids: seq<RowId>)
    ensures GetRows(rows, instance, ids).Err? <==> exists k :: 0 <= k < |ids| && ids[k] !in rows
    ensures GetRows(rows, instance, ids).Ok? ==>
              && |GetRows(rows, instance, ids).value| == |ids|
              && forall k :: 0 <= k < |ids| ==>
                   ids[k] in rows && GetRows(rows, instance, ids).value[k] == [TableRow(ids[k], instance, rows[ids[k]])]
    decreases |ids|
  {
    if ids == [] {
    } else {
      var n := |ids| - 1;
      GetRowsMeans(rows, instance, ids[..n]);
      assert forall k :: 0 <= k < n ==> ids[..n][k] == ids[k];
    }
  }

  function FetchTableRows(db: Database, table: nat, instance: nat, filter: Option<Expression>):
      Result<seq<QueryRow>, QueryError> {
    if table !in db.tables || table !in db.scan then Err(NoSuchTable)
    else
      var ids := Lookup(db, table, instance, filter);
      GetRows(db.tables[table], instance, if ids.Some? then ids.value else db.scan[table])
  }

  /** The rows of a FROM clause. Without a filter every table is scanned. */
  function FromRows(db: Database, from: From, filter: Option<Expression>): Result<seq<QueryRow>, QueryError> {
    match from
    case Table(t, i) => FetchTableRows(db, t, i, filter)
    case InnerJoin(l, on, r) =>
      var left, right := FromRows(db, l, filter), FromRows(db, r, filter);
      if left.Err? then left
      else if right.Err? then right
      else
        var joined := Join(db.schema, left.value, right.value, on);
        if joined.Err? then Err(Executor(joined.error)) else Ok(joined.value)
  }

  // ---------- well-formed queries ----------

  function Instances(from: From): set<nat> {
    match from
    case Table(_, i) => {i}
    case InnerJoin(l, _, r) => Instances(l) + Instances(r)
  }

  function Width(from: From): nat {
    match from
    case Table(_, _) => 1
    case InnerJoin(l, _, r) => Width(l) + Width(r)
  }

  /** The column belongs to the table of its instance. */
  predicate BoundIn(schema: Schema, from: From, c: Column) {
    match from
    case Table(t, i) => c.instance == i && c.table == t && t in schema && c.column in schema[t]
    case InnerJoin(l, _, r) => BoundIn(schema, l, c) || BoundIn(schema, r, c)
  }

  predicate FilterBound(schema: Schema, from: From, e: Expression) {
    match e
    case Comparison(c, _, _) => BoundIn(schema, from, c)
    case And(l, r) => FilterBound(schema, from, l) && FilterBound(schema, from, r)
    case Or(l, r) => FilterBound(schema, from, l) && FilterBound(schema, from, r)
  }

  /** Every join has its own instances and only uses columns of its tables. */
  predicate FromBound(schema: Schema, from: From) {
    match from
    case Table(t, _) => t in schema
    case InnerJoin(l, on, r) =>
      && FromBound(schema, l) && FromBound(schema, r) && Instances(l) !! Instances(r)
      && BoundIn(schema, from, on.left) && BoundIn(schema, from, on.right)
  }

  /** A scan lists every row once; rows have a value for every column. */
  ghost predicate TableOk(db: Database, t: nat) {
    t in db.schema ==>
      && t in db.tables && t in db.scan
      && (forall id :: multiset(db.scan[t])[id] == if id in db.tables[t] then 1 else 0)
      && (forall id :: id in db.tables[t] ==> |db.tables[t][id]| == |db.schema[t]|)
  }

  /** An index yields exactly the rows whose column equals the value. */
  ghost predicate IndexAgrees(db: Database, t: nat, column: nat, v: Value)
    requires t in db.schema && t in db.tables && column in db.schema[t]
  {
    var ids := db.search(t, column, v);
    var i := ColumnIndex(db.schema[t], column).value;
    ids.Some? ==> forall id :: multiset(ids.value)[id] == if ColumnEquals(db.tables[t], id, i, v) then 1 else 0
  }

  ghost predicate ColumnEquals(rows: map<RowId, seq<Value>>, id: RowId, i: nat, v: Value) {
    id in rows && i < |rows[id]| && Holds(rows[id][i], Equals, v)
  }

  ghost predicate DatabaseOk(db: Database) {
    && (forall t :: t in db.schema ==> TableOk(db, t))
    && (forall t, c, v :: t in db.schema && TableOk(db, t) && c in db.schema[t] ==> IndexAgrees(db, t, c, v))
  }

  // ---------- rows fit their FROM clause ----------

  /** One row of each table, in the order of the clause. */
  predicate Fits(db: Database, from: From, row: QueryRow) {
    match from
    case Table(t, i) =>
      && |row| == 1 && row[0].instance == i && t in db.tables && t in db.schema
      && row[0].id in db.tables[t] && row[0].values == db.tables[t][row[0].id] && |row[0].values| == |db.schema[t]|
    case InnerJoin(l, _, r) =>
      && |row| == Width(from) && Fits(db, l, row[..Width(l)]) && Fits(db, r, row[Width(l)..])
  }

  lemma {:induction false} FitsWidth(db: Database, from: From, row: QueryRow)
    requires Fits(db, from, row)
    ensures |row| == Width(from) && forall x: nat :: Has(row, x) <==> x in Instances(from)
  {
    match from
    case Table(t, i) =>
    case InnerJoin(l, on, r) =>
      var a, b := row[..Width(l)], row[Width(l)..];
      FitsWidth(db, l, a);
      FitsWidth(db, r, b);
      assert row == a + b;
      forall x: nat ensures Has(row, x) <==> x in Instances(from) {
        FindInJoined(a, b, x);
      }
  }

  /** A bound column resolves in every row that fits. */
  lemma {:induction false} FitsResolves(db: Database, from: From, row: QueryRow, c: Column)
    requires FromBound(db.schema, from) && Fits(db, from, row) && BoundIn(db.schema, from, c)
    ensures ColumnValue(db.schema, row, c).Ok? && c.instance in Instances(from)
  {
    match from
    case Table(t, i) =>
    case InnerJoin(l, on, r) =>
      var a, b := row[..Width(l)], row[Width(l)..];
      FitsWidth(db, l, a);
      assert row == a + b;
      ValueInJoined(db.schema, a, b, c);
      if BoundIn(db.schema, l, c) {
        FitsResolves(db, l, a, c);
      } else {
        FitsResolves(db, r, b, c);
      }
  }

  /** So does a filter. */
  lemma {:induction false} FilterDefined(db: Database, from: From, row: QueryRow, e: Expression)
    requires FromBound(db.schema, from) && Fits(db, from, row) && FilterBound(db.schema, from, e)
    ensures RowMatches(db.schema, row, e).Ok?
    ensures RowMatches(db.schema, row, e).value <==> Passes(db.schema, row, e)
  {
    MatchMeans(db.schema, row, e);
    match e
    case Comparison(c, _, _) =>
      FitsResolves(db, from, row, c);
    case And(l, r) =>
      FilterDefined(db, from, row, l);
      FilterDefined(db, from, row, r);
    case Or(l, r) =>
      FilterDefined(db, from, row, l);
      FilterDefined(db, from, row, r);
  }
}
