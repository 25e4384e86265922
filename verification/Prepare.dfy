/** Planning updates and deletes: joined rows name the stored rows they touch,
    possibly many times over; the plan names each of them once. */
module Prepare {
  import opened Wrappers
  import opened Keys
  import opened Rows
  import opened RowMeaning
  import opened FromClause
  import Tuple
  import A = Ast

  /** The column types of every table, in column order. */
  type Types = map<nat, seq<A.DataType>>

  datatype Assignment = Assignment(column: Column, value: Value)

  /** A table and a row of it. */
  datatype Target = Target(table: nat, id: RowId)

  datatype Update = Update(target: Target, before: seq<Value>, after: seq<Value>)

  /** An update with the bytes of the new row. */
  datatype PreparedUpdate = PreparedUpdate(pending: Update, row: seq<Byte>)

  /** One assignment applied to one joined row. */
  datatype Write = Write(target: Target, before: seq<Value>, index: nat, value: Value)

  // ---------- what an update changes ----------

  /** In a joined row, the assignment is to this column of this stored row. */
  ghost predicate Assigns(schema: Schema, row: QueryRow, a: Assignment, t: Target, index: nat) {
    && a.column.table == t.table && ColumnAt(schema, a.column.table, a.column.column, index)
    && exists x :: HasPart(row, a.column.instance, x) && x.id == t.id
  }

  /** Rows are gone through one after the other, each with all assignments. */
  predicate Earlier(x: int, y: int, i: int, j: int) {
    x < i || (x == i && y < j)
  }

  /** Before row `i` and assignment `j`, the last one to assign the column. */
  ghost predicate LastTo(schema: Schema, rows: seq<QueryRow>, assignments: seq<Assignment>, i: nat, j: nat, t: Target,
                         index: nat, x: int, y: int) {
    && 0 <= x < |rows| && 0 <= y < |assignments| && Earlier(x, y, i, j)
    && Assigns(schema, rows[x], assignments[y], t, index)
    && forall x', y' :: 0 <= x' < |rows| && 0 <= y' < |assignments|
                        && Earlier(x, y, x', y') && Earlier(x', y', i, j) ==>
         !Assigns(schema, rows[x'], assignments[y'], t, index)
  }

  /** The column of the stored row finally gets the value. */
  ghost predicate Gets(schema: Schema, rows: seq<QueryRow>, assignments: seq<Assignment>, t: Target, index: nat,
                       v: Value) {
    exists x, y :: LastTo(schema, rows, assignments, |rows|, 0, t, index, x, y) && assignments[y].value == v
  }

  ghost predicate Untouched(schema: Schema, rows: seq<QueryRow>, assignments: seq<Assignment>, t: Target, index: nat) {
    forall x, y :: 0 <= x < |rows| && 0 <= y < |assignments| ==> !Assigns(schema, rows[x], assignments[y], t, index)
  }

  /** A joined row says of the stored row, as the target of an assignment, that
      it has these values. */
  ghost predicate Tells(rows: seq<QueryRow>, assignments: seq<Assignment>, t: Target, values: seq<Value>) {
    exists x, y, part :: 0 <= x < |rows| && 0 <= y < |assignments| && TellsAt(rows[x], assignments[y], t, part)
                         && part.values == values
  }

  ghost predicate TellsAt(row: QueryRow, a: Assignment, t: Target, part: TableRow) {
    HasPart(row, a.column.instance, part) && t == Target(a.column.table, part.id)
  }

  /** The change of one stored row: every column gets the value of the last
      assignment to it, and keeps its own if there is none. */
  ghost predicate Changes(schema: Schema, rows: seq<QueryRow>, assignments: seq<Assignment>, u: Update) {
    && Tells(rows, assignments, u.target, u.before) && |u.after| == |u.before|
    && forall k: nat :: k < |u.after| ==>
         || Gets(schema, rows, assignments, u.target, k, u.after[k])
         || (Untouched(schema, rows, assignments, u.target, k) && u.after[k] == u.before[k])
  }

  /** One change for every stored row that some assignment is to, and no other. */
  ghost predicate ChangesAll(schema: Schema, rows: seq<QueryRow>, assignments: seq<Assignment>, plan: seq<Update>) {
    && (forall k :: 0 <= k < |plan| ==> Changes(schema, rows, assignments, plan[k]))
    && (forall j, k :: 0 <= j < k < |plan| ==> plan[j].target != plan[k].target)
    && (forall t, values :: Tells(rows, assignments, t, values) ==> Planned(plan, t))
  }

  // ---------- updates ----------

  function Resolve(schema: Schema, row: QueryRow, a: Assignment): Result<Write, ExecutorError> {
    var found := FindTableRow(row, a.column.instance);
    if found.None? then Err(TableInstanceNotFound)
    else if a.column.table !in schema then Err(TableNotFound)
    else
      var i := ColumnIndex(schema[a.column.table], a.column.column);
      if i.None? then Err(ColumnNotFound)
      else Ok(Write(Target(a.column.table, found.value.id), found.value.values, i.value, a.value))
  }

  /** The writes of an update, row by row and in order of assignment. */
  function Writes(schema: Schema, rows: seq<QueryRow>, assignments: seq<Assignment>, i: nat, j: nat):
      Result<seq<Write>, ExecutorError>
    requires i <= |rows| && j <= |assignments| && (i == |rows| ==> j == 0)
    decreases i, j
  {
    if i == 0 && j == 0 then Ok([])
    else if j == 0 then Writes(schema, rows, assignments, i - 1, |assignments|)
    else
      var before := Writes(schema, rows, assignments, i, j - 1);
      var w := Resolve(schema, rows[i], assignments[j - 1]);
      if before.Err? then before
      else if w.Err? then Err(w.error)
      else Ok(before.value + [w.value])
  }

  ghost predicate Wide(w: Write) {
    w.index < |w.before|
  }

  /** Writes to one target agree on its old values, and stay within them. */
  ghost predicate Consistent(ws: seq<Write>) {
    && (forall k :: 0 <= k < |ws| ==> Wide(ws[k]))
    && (forall j, k :: 0 <= j < |ws| && 0 <= k < |ws| && ws[j].target == ws[k].target ==> ws[j].before == ws[k].before)
  }

  // ---------- the meaning of a plan ----------

  /** The value that the last of the writes gives a column, if any does. */
  ghost function LastWrite(ws: seq<Write>, t: Target, index: nat): Option<Value> {
    if ws == [] then None
    else
      var w := ws[|ws| - 1];
      if w.target == t && w.index == index then Some(w.value) else LastWrite(ws[..|ws| - 1], t, index)
  }

  ghost predicate Touches(ws: seq<Write>, t: Target) {
    exists k :: 0 <= k < |ws| && ws[k].target == t
  }

  /** An update of a touched row: its old values, with the last write to each
      column applied. */
  ghost predicate UpdateFor(ws: seq<Write>, u: Update) {
    && (exists k :: 0 <= k < |ws| && ws[k].target == u.target && ws[k].before == u.before)
    && |u.after| == |u.before|
    && forall i :: 0 <= i < |u.after| ==>
         u.after[i] == if LastWrite(ws, u.target, i).Some? then LastWrite(ws, u.target, i).value else u.before[i]
  }

  /** One update for every touched row and none for any other. */
  ghost predicate Plans(ws: seq<Write>, plan: seq<Update>) {
    && (forall k :: 0 <= k < |plan| ==> UpdateFor(ws, plan[k]))
    && (forall j, k :: 0 <= j < k < |plan| ==> plan[j].target != plan[k].target)
    && (forall k :: 0 <= k < |ws| ==> Planned(plan, ws[k].target))
  }

  ghost predicate Planned(plan: seq<Update>, t: Target) {
    exists j :: 0 <= j < |plan| && plan[j].target == t
  }

  /** Adding one write: to the update of its target if there is one. */
  ghost function Step(plan: seq<Update>, w: Write, at: Option<nat>): seq<Update>
    requires Wide(w) && (at.Some? ==> at.value < |plan| && w.index < |plan[at.value].after|)
  {
    if at.Some? then plan[at.value := plan[at.value].(after := plan[at.value].after[w.index := w.value])]
    else plan + [Update(w.target, w.before, w.before[w.index := w.value])]
  }

  lemma LastWriteStep(ws: seq<Write>, w: Write, t: Target, i: nat)
    ensures LastWrite(ws + [w], t, i) == if w.target == t && w.index == i then Some(w.value) else LastWrite(ws, t, i)
  {
    assert (ws + [w])[..|ws|] == ws;
  }

  lemma UntouchedHasNoWrite(ws: seq<Write>, t: Target, i: nat)
    requires !Touches(ws, t)
    ensures LastWrite(ws, t, i) == None
  {
    if ws != [] {
      assert ws[|ws| - 1].target != t;
      assert forall k :: 0 <= k < |ws| - 1 ==> ws[..|ws| - 1][k] == ws[k];
      UntouchedHasNoWrite(ws[..|ws| - 1], t, i);
    }
  }

  /** An update of another target is not affected by a write. */
  lemma OtherUpdate(ws: seq<Write>, w: Write, u: Update)
    requires UpdateFor(ws, u) && u.target != w.target
    ensures UpdateFor(ws + [w], u)
  {
    var k :| 0 <= k < |ws| && ws[k].target == u.target && ws[k].before == u.before;
    assert (ws + [w])[k] == ws[k];
    forall i: nat | i < |u.after| ensures LastWrite(ws + [w], u.target, i) == LastWrite(ws, u.target, i) {
      LastWriteStep(ws, w, u.target, i);
    }
  }

  lemma SameUpdate(ws: seq<Write>, w: Write, u: Update)
    requires UpdateFor(ws, u) && u.target == w.target && w.index < |u.after|
    ensures UpdateFor(ws + [w], u.(after := u.after[w.index := w.value]))
  {
    var k :| 0 <= k < |ws| && ws[k].target == u.target && ws[k].before == u.before;
    assert (ws + [w])[k] == ws[k];
    var u' := u.(after := u.after[w.index := w.value]);
    forall i: nat | i < |u'.after|
      ensures u'.after[i]
            == if LastWrite(ws + [w], u.target, i).Some? then LastWrite(ws + [w], u.target, i).value else u.before[i]
    {
      LastWriteStep(ws, w, u.target, i);
    }
  }

  lemma NewUpdate(ws: seq<Write>, w: Write)
    requires Wide(w) && !Touches(ws, w.target)
    ensures UpdateFor(ws + [w], Update(w.target, w.before, w.before[w.index := w.value]))
  {
    var u := Update(w.target, w.before, w.before[w.index := w.value]);
    assert (ws + [w])[|ws|] == w;
    forall i: nat | i < |u.after|
      ensures u.after[i]
            == if LastWrite(ws + [w], u.target, i).Some? then LastWrite(ws + [w], u.target, i).value else u.before[i]
    {
      LastWriteStep(ws, w, u.target, i);
      UntouchedHasNoWrite(ws, w.target, i);
    }
  }

  lemma UpdateWidth(ws: seq<Write>, w: Write, u: Update)
    requires Consistent(ws + [w]) && UpdateFor(ws, u) && u.target == w.target
    ensures w.index < |u.after| && u.before == w.before
  {
    var k :| 0 <= k < |ws| && ws[k].target == u.target && ws[k].before == u.before;
    assert (ws + [w])[k] == ws[k] && (ws + [w])[|ws|] == w;
    assert Wide((ws + [w])[|ws|]);
  }

  lemma StepUpdates(ws: seq<Write>, plan: seq<Update>, w: Write, at: Option<nat>)
    requires Consistent(ws + [w]) && Plans(ws, plan)
    requires at.Some? ==> at.value < |plan| && plan[at.value].target == w.target
    requires forall j, k :: 0 <= j < k < |plan| ==> plan[j].target != plan[k].target
    requires at.None? ==> !Planned(plan, w.target)
    ensures Wide(w) && (at.Some? ==> w.index < |plan[at.value].after|)
    ensures var plan' := Step(plan, w, at); forall k :: 0 <= k < |plan'| ==> UpdateFor(ws + [w], plan'[k])
  {
    assert (ws + [w])[|ws|] == w;
    if at.Some? {
      assert UpdateFor(ws, plan[at.value]);
      UpdateWidth(ws, w, plan[at.value]);
      SameUpdate(ws, w, plan[at.value]);
    } else {
      NewUpdate(ws, w);
    }
    var plan' := Step(plan, w, at);
    forall k | 0 <= k < |plan'| ensures UpdateFor(ws + [w], plan'[k]) {
      if k < |plan| && at != Some(k) {
        assert UpdateFor(ws, plan[k]);
        assert Planned(plan, plan[k].target);
        OtherUpdate(ws, w, plan[k]);
      }
    }
  }

  lemma StepTargets(plan: seq<Update>, w: Write, at: Option<nat>, t: Target)
    requires Wide(w) && (at.Some? ==> at.value < |plan| && w.index < |plan[at.value].after|)
    requires at.Some? ==> plan[at.value].target == w.target
    ensures Planned(Step(plan, w, at), t) <==> Planned(plan, t) || t == w.target
  {
    var plan' := Step(plan, w, at);
    forall k | 0 <= k < |plan| ensures plan'[k].target == plan[k].target {
    }
    if Planned(plan, t) {
      var j :| 0 <= j < |plan| && plan[j].target == t;
      assert plan'[j].target == t;
    }
    if t == w.target {
      assert plan'[if at.Some? then at.value else |plan|].target == t;
    }
  }

  /** Adding a write to a plan keeps it a plan. */
  lemma PlansStep(ws: seq<Write>, plan: seq<Update>, w: Write, at: Option<nat>)
    requires Consistent(ws + [w]) && Plans(ws, plan)
    requires at.Some? ==> at.value < |plan| && plan[at.value].target == w.target
    requires at.None? ==> !Planned(plan, w.target)
    ensures Wide(w) && (at.Some? ==> w.index < |plan[at.value].after|)
    ensures Plans(ws + [w], Step(plan, w, at))
  {
    hide Consistent, UpdateFor;
    StepUpdates(ws, plan, w, at);
    var plan' := Step(plan, w, at);
    forall k | 0 <= k < |ws + [w]| ensures Planned(plan', (ws + [w])[k].target) {
      StepTargets(plan, w, at, (ws + [w])[k].target);
    }
    forall j, k | 0 <= j < k < |plan'| ensures plan'[j].target != plan'[k].target {
      assert k == |plan| ==> (plan[j].target == w.target ==> Planned(plan, w.target));
    }
  }

  /** Where the plan holds each target. */
  ghost predicate Located(plan: seq<Update>, positions: map<Target, nat>) {
    && (forall t :: t in positions ==> positions[t] < |plan| && plan[positions[t]].target == t)
    && (forall k :: 0 <= k < |plan| ==> plan[k].target in positions)
  }

  // ---------- the rows of one database ----------

  /** What a joined row says about a stored row is what is stored. */
  ghost predicate Reads(tables: map<nat, map<RowId, seq<Value>>>, w: Write) {
    && w.target.table in tables && w.target.id in tables[w.target.table]
    && w.before == tables[w.target.table][w.target.id] && Wide(w)
  }

  ghost predicate AllRead(tables: map<nat, map<RowId, seq<Value>>>, ws: seq<Write>) {
    forall k :: 0 <= k < |ws| ==> Reads(tables, ws[k])
  }

  lemma ReadsConsistent(tables: map<nat, map<RowId, seq<Value>>>, ws: seq<Write>)
    requires AllRead(tables, ws)
    ensures Consistent(ws)
  {
  }

  /** A bound column finds, in a row that fits, a stored row of its own table. */
  lemma {:induction false} FitsReads(db: Database, from: From, row: QueryRow, c: Column)
    requires FromBound(db.schema, from) && Fits(db, from, row) && BoundIn(db.schema, from, c)
    ensures Has(row, c.instance) && c.table in db.schema && c.table in db.tables && c.column in db.schema[c.table]
    ensures var x := FindTableRow(row, c.instance).value;
            x.id in db.tables[c.table] && x.values == db.tables[c.table][x.id] && |x.values| == |db.schema[c.table]|
  {
    match from
    case Table(t, i) =>
    case InnerJoin(l, on, r) =>
      var a, b := row[..Width(l)], row[Width(l)..];
      FitsWidth(db, l, a);
      assert row == a + b;
      FindInJoined(a, b, c.instance);
      if BoundIn(db.schema, l, c) {
        FitsReads(db, l, a, c);
      } else {
        FitsReads(db, r, b, c);
        FitsWidth(db, r, b);
      }
  }

  predicate AssignmentsBound(schema: Schema, from: From, assignments: seq<Assignment>) {
    forall j :: 0 <= j < |assignments| ==> BoundIn(schema, from, assignments[j].column)
  }

  lemma ResolveReads(db: Database, from: From, row: QueryRow, a: Assignment)
    requires FromBound(db.schema, from) && Fits(db, from, row) && BoundIn(db.schema, from, a.column)
    ensures Resolve(db.schema, row, a).Ok? && Reads(db.tables, Resolve(db.schema, row, a).value)
  {
    FitsReads(db, from, row, a.column);
  }

  /** All assignments resolve in rows that fit, and read what is stored. */
  lemma {:induction false} WritesRead(db: Database, from: From, rows: seq<QueryRow>, assignments: seq<Assignment>,
                                      i: nat, j: nat)
    requires FromBound(db.schema, from) && AssignmentsBound(db.schema, from, assignments)
    requires forall k :: 0 <= k < |rows| ==> Fits(db, from, rows[k])
    requires i <= |rows| && j <= |assignments| && (i == |rows| ==> j == 0)
    ensures Writes(db.schema, rows, assignments, i, j).Ok?
            && AllRead(db.tables, Writes(db.schema, rows, assignments, i, j).value)
    decreases i, j
  {
    hide Fits, FromBound, BoundIn, Resolve, Reads;
    if i == 0 && j == 0 {
    } else if j == 0 {
      WritesRead(db, from, rows, assignments, i - 1, |assignments|);
    } else {
      WritesRead(db, from, rows, assignments, i, j - 1);
      ResolveReads(db, from, rows[i], assignments[j - 1]);
    }
  }

  // ---------- what the writes amount to ----------

  lemma ResolveMeans(schema: Schema, row: QueryRow, a: Assignment, t: Target, index: nat)
    requires Resolve(schema, row, a).Ok?
    ensures var w := Resolve(schema, row, a).value;
            w.target == t && w.index == index <==> Assigns(schema, row, a, t, index)
  {
    hide HasPart, ColumnAt;
    var found := FindTableRow(row, a.column.instance).value;
    forall x ensures HasPart(row, a.column.instance, x) <==> x == found {
      FindMeans(row, a.column.instance, x);
    }
    IndexMeans(schema, a.column.table, a.column.column, index);
  }

  lemma ResolveTells(schema: Schema, row: QueryRow, a: Assignment, t: Target, part: TableRow)
    requires Resolve(schema, row, a).Ok?
    ensures var w := Resolve(schema, row, a).value;
            TellsAt(row, a, t, part) ==> w.target == t && w.before == part.values
    ensures Resolve(schema, row, a).value.target == t && FindTableRow(row, a.column.instance) == Some(part) ==>
              TellsAt(row, a, t, part)
  {
    FindMeans(row, a.column.instance, part);
  }

  /** Of the writes so far, the last one to a column comes from the last
      assignment to it. */
  lemma {:induction false} LastWriteMeans(schema: Schema, rows: seq<QueryRow>, assignments: seq<Assignment>, i: nat,
                                          j: nat, t: Target, index: nat)
    requires i <= |rows| && j <= |assignments| && (i == |rows| ==> j == 0)
    requires Writes(schema, rows, assignments, i, j).Ok?
    ensures LastIs(schema, rows, assignments, i, j, t, index,
                   LastWrite(Writes(schema, rows, assignments, i, j).value, t, index))
    decreases i, j
  {
    hide Assigns, Resolve, LastIs;
    if i == 0 && j == 0 {
      NothingDone(schema, rows, assignments, t, index);
    } else if j == 0 {
      LastWriteMeans(schema, rows, assignments, i - 1, |assignments|, t, index);
      NextRow(schema, rows, assignments, i, t, index,
              LastWrite(Writes(schema, rows, assignments, i - 1, |assignments|).value, t, index));
    } else {
      var before := Writes(schema, rows, assignments, i, j - 1).value;
      var w := Resolve(schema, rows[i], assignments[j - 1]).value;
      LastWriteMeans(schema, rows, assignments, i, j - 1, t, index);
      LastWriteStep(before, w, t, index);
      ResolveMeans(schema, rows[i], assignments[j - 1], t, index);
      ResolvedValue(schema, rows[i], assignments[j - 1]);
      NextAssignment(schema, rows, assignments, i, j, t, index, LastWrite(before, t, index));
    }
  }

  /** What the last assignment so far gives the column, if there is any. */
  ghost predicate LastIs(schema: Schema, rows: seq<QueryRow>, assignments: seq<Assignment>, i: nat, j: nat, t: Target,
                         index: nat, last: Option<Value>) {
    if last.None? then NoneTo(schema, rows, assignments, i, j, t, index)
    else exists x, y :: LastTo(schema, rows, assignments, i, j, t, index, x, y) && assignments[y].value == last.value
  }

  lemma NothingDone(schema: Schema, rows: seq<QueryRow>, assignments: seq<Assignment>, t: Target, index: nat)
    ensures LastIs(schema, rows, assignments, 0, 0, t, index, None)
  {
  }

  /** After all assignments of a row comes the first of the next row. */
  lemma NextRow(schema: Schema, rows: seq<QueryRow>, assignments: seq<Assignment>, i: nat, t: Target, index: nat,
                last: Option<Value>)
    requires 0 < i <= |rows| && LastIs(schema, rows, assignments, i - 1, |assignments|, t, index, last)
    ensures LastIs(schema, rows, assignments, i, 0, t, index, last)
  {
    hide Assigns;
    if last.Some? {
      var x, y :| LastTo(schema, rows, assignments, i - 1, |assignments|, t, index, x, y)
        && assignments[y].value == last.value;
      assert LastTo(schema, rows, assignments, i, 0, t, index, x, y);
    }
  }

  lemma NextAssignment(schema: Schema, rows: seq<QueryRow>, assignments: seq<Assignment>, i: nat, j: nat, t: Target,
                       index: nat, last: Option<Value>)
    requires i < |rows| && 0 < j <= |assignments| && LastIs(schema, rows, assignments, i, j - 1, t, index, last)
    ensures var to := Assigns(schema, rows[i], assignments[j - 1], t, index);
            LastIs(schema, rows, assignments, i, j, t, index, if to then Some(assignments[j - 1].value) else last)
  {
    hide Assigns;
    if Assigns(schema, rows[i], assignments[j - 1], t, index) {
      assert LastTo(schema, rows, assignments, i, j, t, index, i, j - 1);
    } else if last.Some? {
      var x, y :| LastTo(schema, rows, assignments, i, j - 1, t, index, x, y) && assignments[y].value == last.value;
      assert LastTo(schema, rows, assignments, i, j, t, index, x, y);
    }
  }

  lemma ResolvedValue(schema: Schema, row: QueryRow, a: Assignment)
    requires Resolve(schema, row, a).Ok?
    ensures Resolve(schema, row, a).value.value == a.value
  {
  }

  ghost predicate NoneTo(schema: Schema, rows: seq<QueryRow>, assignments: seq<Assignment>, i: nat, j: nat, t: Target,
                         index: nat) {
    forall x, y :: 0 <= x < |rows| && 0 <= y < |assignments| && Earlier(x, y, i, j) ==>
                     !Assigns(schema, rows[x], assignments[y], t, index)
  }

  /** There is only one last assignment. */
  lemma OneLast(schema: Schema, rows: seq<QueryRow>, assignments: seq<Assignment>, i: nat, j: nat, t: Target,
                index: nat, x: int, y: int, x': int, y': int)
    requires LastTo(schema, rows, assignments, i, j, t, index, x, y)
    requires LastTo(schema, rows, assignments, i, j, t, index, x', y')
    ensures x == x' && y == y'
  {
    hide Assigns;
    assert Earlier(x, y, x', y') || Earlier(x', y', x, y) || (x == x' && y == y');
  }

  ghost predicate Wrote(ws: seq<Write>, t: Target, values: seq<Value>) {
    exists k :: 0 <= k < |ws| && ws[k].target == t && ws[k].before == values
  }

  ghost predicate TellsSoFar(rows: seq<QueryRow>, assignments: seq<Assignment>, i: nat, j: nat, t: Target,
                             values: seq<Value>) {
    exists x, y, part :: 0 <= x < |rows| && 0 <= y < |assignments| && Earlier(x, y, i, j)
                         && TellsAt(rows[x], assignments[y], t, part) && part.values == values
  }

  lemma WroteMore(ws: seq<Write>, w: Write, t: Target, values: seq<Value>)
    ensures Wrote(ws + [w], t, values) <==> Wrote(ws, t, values) || (w.target == t && w.before == values)
  {
    assert (ws + [w])[|ws|] == w;
    if Wrote(ws, t, values) {
      var k :| 0 <= k < |ws| && ws[k].target == t && ws[k].before == values;
      assert (ws + [w])[k] == ws[k];
    }
  }

  lemma {:induction false} WritesTell(schema: Schema, rows: seq<QueryRow>, assignments: seq<Assignment>, i: nat,
                                      j: nat, t: Target, values: seq<Value>)
    requires i <= |rows| && j <= |assignments| && (i == |rows| ==> j == 0)
    requires Writes(schema, rows, assignments, i, j).Ok?
    ensures Wrote(Writes(schema, rows, assignments, i, j).value, t, values)
        <==> TellsSoFar(rows, assignments, i, j, t, values)
    decreases i, j
  {
    hide TellsAt, Resolve;
    if i == 0 && j == 0 {
    } else if j == 0 {
      WritesTell(schema, rows, assignments, i - 1, |assignments|, t, values);
      assert forall x, y :: 0 <= y < |assignments| ==> (Earlier(x, y, i, j) <==> Earlier(x, y, i - 1, |assignments|));
    } else {
      var before := Writes(schema, rows, assignments, i, j - 1).value;
      var w := Resolve(schema, rows[i], assignments[j - 1]).value;
      WritesTell(schema, rows, assignments, i, j - 1, t, values);
      WroteMore(before, w, t, values);
      if w.target == t && w.before == values {
        var part := Resolved(schema, rows[i], assignments[j - 1]);
        ResolveTells(schema, rows[i], assignments[j - 1], t, part);
        assert Earlier(i, j - 1, i, j);
      }
      forall part ensures TellsAt(rows[i], assignments[j - 1], t, part) ==> w.target == t && w.before == part.values {
        ResolveTells(schema, rows[i], assignments[j - 1], t, part);
      }
      assert forall x, y :: Earlier(x, y, i, j) <==> Earlier(x, y, i, j - 1) || (x == i && y == j - 1);
    }
  }

  lemma Resolved(schema: Schema, row: QueryRow, a: Assignment) returns (part: TableRow)
    requires Resolve(schema, row, a).Ok?
    ensures FindTableRow(row, a.column.instance) == Some(part)
            && Resolve(schema, row, a).value.before == part.values
  {
    part := FindTableRow(row, a.column.instance).value;
  }

  lemma TellsAll(rows: seq<QueryRow>, assignments: seq<Assignment>, t: Target, values: seq<Value>)
    ensures TellsSoFar(rows, assignments, |rows|, 0, t, values) <==> Tells(rows, assignments, t, values)
  {
    hide TellsAt;
    if Tells(rows, assignments, t, values) {
      var x, y, part :| 0 <= x < |rows| && 0 <= y < |assignments| && TellsAt(rows[x], assignments[y], t, part)
        && part.values == values;
      assert Earlier(x, y, |rows|, 0);
    }
  }

  /** What the writes leave in a column. */
  lemma LastWriteGets(schema: Schema, rows: seq<QueryRow>, assignments: seq<Assignment>, t: Target, index: nat)
    requires Writes(schema, rows, assignments, |rows|, 0).Ok?
    ensures var last := LastWrite(Writes(schema, rows, assignments, |rows|, 0).value, t, index);
            && (last.None? <==> Untouched(schema, rows, assignments, t, index))
            && forall v :: Gets(schema, rows, assignments, t, index, v) <==> last == Some(v)
  {
    hide Assigns, LastWrite, Writes;
    LastWriteMeans(schema, rows, assignments, |rows|, 0, t, index);
    assert forall x, y :: 0 <= x < |rows| ==> Earlier(x, y, |rows|, 0);
    forall v | Gets(schema, rows, assignments, t, index, v)
      ensures LastWrite(Writes(schema, rows, assignments, |rows|, 0).value, t, index) == Some(v)
    {
      var last := LastWrite(Writes(schema, rows, assignments, |rows|, 0).value, t, index);
      var x, y :| LastTo(schema, rows, assignments, |rows|, 0, t, index, x, y) && assignments[y].value == v;
      assert last.Some?;
      var x', y' :| LastTo(schema, rows, assignments, |rows|, 0, t, index, x', y')
        && assignments[y'].value == last.value;
      OneLast(schema, rows, assignments, |rows|, 0, t, index, x, y, x', y');
    }
  }

  lemma UpdateMeans(schema: Schema, rows: seq<QueryRow>, assignments: seq<Assignment>, u: Update)
    requires Writes(schema, rows, assignments, |rows|, 0).Ok?
    ensures UpdateFor(Writes(schema, rows, assignments, |rows|, 0).value, u)
        <==> Changes(schema, rows, assignments, u)
  {
    hide Writes, LastWrite, Gets, Untouched, Tells;
    var ws := Writes(schema, rows, assignments, |rows|, 0).value;
    WritesTell(schema, rows, assignments, |rows|, 0, u.target, u.before);
    TellsAll(rows, assignments, u.target, u.before);
    assert Wrote(ws, u.target, u.before) <==> Tells(rows, assignments, u.target, u.before);
    forall k: nat
      ensures var last := LastWrite(ws, u.target, k);
              && (last.None? <==> Untouched(schema, rows, assignments, u.target, k))
              && forall v :: Gets(schema, rows, assignments, u.target, k, v) <==> last == Some(v)
    {
      LastWriteGets(schema, rows, assignments, u.target, k);
    }
  }

  lemma PlanMeans(schema: Schema, rows: seq<QueryRow>, assignments: seq<Assignment>, plan: seq<Update>)
    requires Writes(schema, rows, assignments, |rows|, 0).Ok?
    requires Plans(Writes(schema, rows, assignments, |rows|, 0).value, plan)
    ensures ChangesAll(schema, rows, assignments, plan)
  {
    hide Writes, UpdateFor, Changes, Planned, Tells;
    var ws := Writes(schema, rows, assignments, |rows|, 0).value;
    forall k | 0 <= k < |plan| ensures Changes(schema, rows, assignments, plan[k]) {
      UpdateMeans(schema, rows, assignments, plan[k]);
    }
    forall t, values | Tells(rows, assignments, t, values) ensures Planned(plan, t) {
      WritesTell(schema, rows, assignments, |rows|, 0, t, values);
      TellsAll(rows, assignments, t, values);
      var k :| 0 <= k < |ws| && ws[k].target == t && ws[k].before == values;
    }
  }

  /** If a column is always assigned under one table instance, its last
      assignment in the list decides. */
  lemma LastInListDecides(schema: Schema, rows: seq<QueryRow>, assignments: seq<Assignment>, t: Target, index: nat,
                          x: nat, y: nat)
    requires x < |rows| && y < |assignments| && Assigns(schema, rows[x], assignments[y], t, index)
    requires forall y' :: 0 <= y' < |assignments| && assignments[y'].column.table == t.table
                          && assignments[y'].column.column == assignments[y].column.column ==>
               y' <= y && assignments[y'].column.instance == assignments[y].column.instance
    ensures Gets(schema, rows, assignments, t, index, assignments[y].value)
  {
    hide Assigns;
    var last := LastRow(schema, rows, assignments[y], t, index, x);
    forall x', y' | 0 <= x' < |rows| && 0 <= y' < |assignments| && Earlier(last, y, x', y')
      ensures !Assigns(schema, rows[x'], assignments[y'], t, index)
    {
      AssignsAlike(schema, rows[x], rows[x'], assignments[y], assignments[y'], t, index);
    }
    assert LastTo(schema, rows, assignments, |rows|, 0, t, index, last, y);
  }

  lemma AssignsAlike(schema: Schema, row: QueryRow, row': QueryRow, a: Assignment, a': Assignment, t: Target,
                     index: nat)
    requires Assigns(schema, row, a, t, index)
    ensures Assigns(schema, row', a', t, index) ==>
              && a'.column.table == t.table && a'.column.column == a.column.column
              && (a'.column.instance == a.column.instance ==> Assigns(schema, row', a, t, index))
  {
  }

  lemma LastRow(schema: Schema, rows: seq<QueryRow>, a: Assignment, t: Target, index: nat, x: nat)
    returns (last: nat)
    requires x < |rows| && Assigns(schema, rows[x], a, t, index)
    ensures last < |rows| && Assigns(schema, rows[last], a, t, index)
    ensures forall x' :: last < x' < |rows| ==> !Assigns(schema, rows[x'], a, t, index)
  {
    last := |rows| - 1;
    while !Assigns(schema, rows[last], a, t, index)
      invariant x <= last < |rows|
      invariant forall x' :: last < x' < |rows| ==> !Assigns(schema, rows[x'], a, t, index)
      decreases last
    {
      last := last - 1;
    }
  }

  /** Where a table is joined with itself, the order of the joined rows decides:
      both assignments are to column 0 of row `b`, and the first in the list wins. */
  lemma RowOrderDecides(a: RowId, b: RowId)
    requires a != b
    ensures var (x, y) := ([None], [None]);
            var rows := [[TableRow(a, 0, x), TableRow(b, 1, y)], [TableRow(b, 0, y), TableRow(a, 1, x)]];
            var assignments := [Assignment(Column(0, 0, 0), Some(Int(1))), Assignment(Column(1, 0, 0), Some(Int(2)))];
            var schema: Schema := map[0 := [0]];
            && Assigns(schema, rows[0], assignments[1], Target(0, b), 0)
            && Gets(schema, rows, assignments, Target(0, b), 0, Some(Int(1)))
  {
    var (x, y) := ([None], [None]);
    var rows := [[TableRow(a, 0, x), TableRow(b, 1, y)], [TableRow(b, 0, y), TableRow(a, 1, x)]];
    var assignments := [Assignment(Column(0, 0, 0), Some(Int(1))), Assignment(Column(1, 0, 0), Some(Int(2)))];
    var schema: Schema := map[0 := [0]];
    assert PartAt(rows[0], 1, 1) && PartAt(rows[1], 0, 0);
    assert Assigns(schema, rows[1], assignments[0], Target(0, b), 0);
    assert !Assigns(schema, rows[1], assignments[1], Target(0, b), 0);
    assert LastTo(schema, rows, assignments, 2, 0, Target(0, b), 0, 1, 0);
  }

  // ---------- planning ----------

  lemma LocatedStep(plan: seq<Update>, positions: map<Target, nat>, w: Write)
    requires Located(plan, positions) && Wide(w)
    requires w.target in positions ==> w.index < |plan[positions[w.target]].after|
    ensures var at := if w.target in positions then Some(positions[w.target]) else None;
            && (at.None? ==> !Planned(plan, w.target))
            && Located(Step(plan, w, at), if at.Some? then positions else positions[w.target := |plan|])
  {
  }

  /** One pending update for every row that the joined rows touch, with all
      assignments applied in order. */
  method CollectUpdates(db: Database, from: From, rows: seq<QueryRow>, assignments: seq<Assignment>)
    returns (r: Result<seq<Update>, ExecutorError>)
    requires FromBound(db.schema, from) && AssignmentsBound(db.schema, from, assignments)
    requires forall k :: 0 <= k < |rows| ==> Fits(db, from, rows[k])
    ensures r.Ok? && ChangesAll(db.schema, rows, assignments, r.value)
    ensures Writes(db.schema, rows, assignments, |rows|, 0).Ok?
    ensures Plans(Writes(db.schema, rows, assignments, |rows|, 0).value, r.value)
    ensures AllRead(db.tables, Writes(db.schema, rows, assignments, |rows|, 0).value)
  {
    hide Plans, Consistent, Located, Fits, AllRead, Resolve, ChangesAll;
    var plan: seq<Update> := [];
    var positions: map<Target, nat> := map[];
    ghost var ws: seq<Write> := [];
    EmptyPlan();
    var i := 0;
    while i < |rows|
      invariant 0 <= i <= |rows| && Writes(db.schema, rows, assignments, i, 0) == Ok(ws)
      invariant Plans(ws, plan) && Located(plan, positions)
    {
      var j := 0;
      while j < |assignments|
        invariant 0 <= j <= |assignments| && Writes(db.schema, rows, assignments, i, j) == Ok(ws)
        invariant Plans(ws, plan) && Located(plan, positions)
      {
        WritesRead(db, from, rows, assignments, i, j + 1);
        var w: Write;
        match Resolve(db.schema, rows[i], assignments[j]) {
          case Err(e) => return Err(e);
          case Ok(resolved) => w := resolved;
        }
        plan, positions := AddWrite(ws, plan, positions, w, db.tables);
        ws := ws + [w];
        j := j + 1;
      }
      i := i + 1;
    }
    WritesRead(db, from, rows, assignments, |rows|, 0);
    PlanMeans(db.schema, rows, assignments, plan);
    return Ok(plan);
  }

  lemma EmptyPlan()
    ensures Plans([], []) && Located([], map[])
  {
  }

  method AddWrite(ghost ws: seq<Write>, plan: seq<Update>, positions: map<Target, nat>, w: Write,
                  ghost tables: map<nat, map<RowId, seq<Value>>>)
    returns (plan': seq<Update>, positions': map<Target, nat>)
    requires AllRead(tables, ws + [w]) && Plans(ws, plan) && Located(plan, positions)
    ensures Plans(ws + [w], plan') && Located(plan', positions')
  {
    ReadsConsistent(tables, ws + [w]);
    ghost var at := if w.target in positions then Some(positions[w.target]) else None;
    AtPosition(plan, positions, w);
    PlansStep(ws, plan, w, at);
    LocatedStep(plan, positions, w);
    if w.target in positions {
      var k := positions[w.target];
      plan' := plan[k := plan[k].(after := plan[k].after[w.index := w.value])];
      positions' := positions;
    } else {
      plan' := plan + [Update(w.target, w.before, w.before[w.index := w.value])];
      positions' := positions[w.target := |plan|];
    }
  }

  lemma AtPosition(plan: seq<Update>, positions: map<Target, nat>, w: Write)
    requires Located(plan, positions)
    ensures w.target in positions ==> positions[w.target] < |plan| && plan[positions[w.target]].target == w.target
    ensures w.target !in positions ==> !Planned(plan, w.target)
  {
  }

  // ---------- encoding the new rows ----------

  /** The columns of every table have types. */
  predicate TypesFit(schema: Schema, types: Types) {
    forall t :: t in schema ==> t in types && |types[t]| == |schema[t]|
  }

  /** The values of a row can be stored in columns of the given types. */
  predicate Encodable(values: seq<Value>, types: seq<A.DataType>) {
    |values| == |types| && forall i :: 0 <= i < |values| ==> Tuple.Fits(values[i], types[i])
  }

  predicate Storable(types: Types, u: Update) {
    u.target.table in types && Encodable(u.after, types[u.target.table])
  }

  predicate FailsToEncode(types: Types, u: Update, e: Tuple.TupleError) {
    && u.target.table in types && |u.after| == |types[u.target.table]|
    && Tuple.EncodeValues(u.after, types[u.target.table]) == Err(e)
  }

  /** Every row can be stored as it is changed. */
  ghost predicate AllStorable(schema: Schema, types: Types, rows: seq<QueryRow>, assignments: seq<Assignment>) {
    forall u :: Changes(schema, rows, assignments, u) ==> Storable(types, u)
  }

  /** The old values are those of the stored row. */
  ghost predicate ReadFrom(tables: map<nat, map<RowId, seq<Value>>>, schema: Schema, u: Update) {
    && u.target.table in schema && u.target.table in tables && u.target.id in tables[u.target.table]
    && u.before == tables[u.target.table][u.target.id] && |u.after| == |schema[u.target.table]|
  }

  /** Every update that the writes call for can be stored. */
  ghost predicate WritesStorable(types: Types, ws: seq<Write>) {
    forall u :: UpdateFor(ws, u) ==> Storable(types, u)
  }

  function Pending(prepared: seq<PreparedUpdate>): (plan: seq<Update>)
    ensures |plan| == |prepared| && forall k :: 0 <= k < |plan| ==> plan[k] == prepared[k].pending
  {
    seq(|prepared|, k requires 0 <= k < |prepared| => prepared[k].pending)
  }

  predicate Encoded(types: Types, p: PreparedUpdate) {
    && p.pending.target.table in types && |p.pending.after| == |types[p.pending.target.table]|
    && Tuple.EncodeValues(p.pending.after, types[p.pending.target.table]) == Ok(p.row)
  }

  /** The writes leave one update for a row. */
  lemma OneUpdate(ws: seq<Write>, u: Update, u': Update)
    requires Consistent(ws) && UpdateFor(ws, u) && UpdateFor(ws, u') && u.target == u'.target
    ensures u == u'
  {
    var k :| 0 <= k < |ws| && ws[k].target == u.target && ws[k].before == u.before;
    var k' :| 0 <= k' < |ws| && ws[k'].target == u'.target && ws[k'].before == u'.before;
    assert u.after == u'.after;
  }

  /** A plan holds all of them. */
  lemma PlanStorable(types: Types, ws: seq<Write>, plan: seq<Update>)
    requires Consistent(ws) && Plans(ws, plan)
    ensures WritesStorable(types, ws) <==> forall k :: 0 <= k < |plan| ==> Storable(types, plan[k])
  {
    if forall k :: 0 <= k < |plan| ==> Storable(types, plan[k]) {
      forall u | UpdateFor(ws, u) ensures Storable(types, u) {
        var k :| 0 <= k < |ws| && ws[k].target == u.target && ws[k].before == u.before;
        assert Planned(plan, ws[k].target);
        var j :| 0 <= j < |plan| && plan[j].target == u.target;
        assert UpdateFor(ws, plan[j]);
        OneUpdate(ws, u, plan[j]);
      }
    }
    if WritesStorable(types, ws) {
      forall k | 0 <= k < |plan| ensures Storable(types, plan[k]) {
        assert UpdateFor(ws, plan[k]);
      }
    }
  }

  /** UPDATE is planned as a whole before anything changes: it fails exactly when
      the new values of some touched row cannot be stored. */
  method PrepareUpdate(db: Database, types: Types, from: From, rows: seq<QueryRow>, assignments: seq<Assignment>)
    returns (r: Result<seq<PreparedUpdate>, Tuple.TupleError>)
    requires FromBound(db.schema, from) && AssignmentsBound(db.schema, from, assignments)
    requires TypesFit(db.schema, types)
    requires forall k :: 0 <= k < |rows| ==> Fits(db, from, rows[k])
    ensures r.Ok? <==> AllStorable(db.schema, types, rows, assignments)
    ensures r.Ok? ==> ChangesAll(db.schema, rows, assignments, Pending(r.value))
    ensures r.Ok? ==> forall k :: 0 <= k < |r.value| ==>
              Encoded(types, r.value[k]) && ReadFrom(db.tables, db.schema, r.value[k].pending)
    ensures r.Err? ==> exists u :: Changes(db.schema, rows, assignments, u) && FailsToEncode(types, u, r.error)
  {
    hide Plans, AllRead, Fits, AllStorable, UpdateFor, Consistent, Writes, ChangesAll, Changes, ReadFrom;
    var collected := CollectUpdates(db, from, rows, assignments);
    var plan := collected.value;
    ghost var ws := Writes(db.schema, rows, assignments, |rows|, 0).value;
    ReadsConsistent(db.tables, ws);
    PlanWidths(db, from, rows, assignments, plan);
    PlanStorable(types, ws, plan);
    StorableMeans(db.schema, types, rows, assignments);
    var results: seq<PreparedUpdate> := [];
    var i := 0;
    while i < |plan|
      invariant 0 <= i <= |plan| && |results| == i && Pending(results) == plan[..i]
      invariant forall k :: 0 <= k < i ==> Storable(types, plan[k]) && Encoded(types, results[k])
    {
      var u := plan[i];
      Tuple.EncodesExactly(u.after, types[u.target.table]);
      var row := Tuple.Encode(u.after, types[u.target.table]);
      if row.Err? {
        InPlan(ws, plan, i);
        UpdateMeans(db.schema, rows, assignments, plan[i]);
        assert !Storable(types, plan[i]) && FailsToEncode(types, plan[i], row.error);
        return Err(row.error);
      }
      results := results + [PreparedUpdate(u, row.value)];
      i := i + 1;
    }
    assert plan[..i] == plan;
    return Ok(results);
  }

  lemma StorableMeans(schema: Schema, types: Types, rows: seq<QueryRow>, assignments: seq<Assignment>)
    requires Writes(schema, rows, assignments, |rows|, 0).Ok?
    ensures AllStorable(schema, types, rows, assignments)
        <==> WritesStorable(types, Writes(schema, rows, assignments, |rows|, 0).value)
  {
    hide Writes, UpdateFor, Changes, Storable;
    forall u
      ensures UpdateFor(Writes(schema, rows, assignments, |rows|, 0).value, u)
         <==> Changes(schema, rows, assignments, u)
    {
      UpdateMeans(schema, rows, assignments, u);
    }
  }

  lemma InPlan(ws: seq<Write>, plan: seq<Update>, i: nat)
    requires Plans(ws, plan) && i < |plan|
    ensures UpdateFor(ws, plan[i])
  {
  }

  /** Planned rows are stored ones, and as wide as their tables. */
  lemma PlanWidths(db: Database, from: From, rows: seq<QueryRow>, assignments: seq<Assignment>, plan: seq<Update>)
    requires Writes(db.schema, rows, assignments, |rows|, 0).Ok?
    requires Plans(Writes(db.schema, rows, assignments, |rows|, 0).value, plan)
    requires AllRead(db.tables, Writes(db.schema, rows, assignments, |rows|, 0).value)
    requires FromBound(db.schema, from) && AssignmentsBound(db.schema, from, assignments)
    requires forall k :: 0 <= k < |rows| ==> Fits(db, from, rows[k])
    ensures forall k :: 0 <= k < |plan| ==> ReadFrom(db.tables, db.schema, plan[k])
    ensures forall k :: 0 <= k < |plan| ==>
              plan[k].target.table in db.schema && |plan[k].after| == |db.schema[plan[k].target.table]|
  {
    hide Writes, Fits, FromBound;
    var ws := Writes(db.schema, rows, assignments, |rows|, 0).value;
    WritesWide(db, from, rows, assignments, |rows|, 0);
    forall k | 0 <= k < |plan| ensures ReadFrom(db.tables, db.schema, plan[k]) {
      assert UpdateFor(ws, plan[k]);
      var j :| 0 <= j < |ws| && ws[j].target == plan[k].target && ws[j].before == plan[k].before;
      assert Reads(db.tables, ws[j]);
    }
  }

  lemma {:induction false} WritesWide(db: Database, from: From, rows: seq<QueryRow>, assignments: seq<Assignment>,
                                      i: nat, j: nat)
    requires FromBound(db.schema, from) && AssignmentsBound(db.schema, from, assignments)
    requires forall k :: 0 <= k < |rows| ==> Fits(db, from, rows[k])
    requires i <= |rows| && j <= |assignments| && (i == |rows| ==> j == 0)
    requires Writes(db.schema, rows, assignments, i, j).Ok?
    ensures var ws := Writes(db.schema, rows, assignments, i, j).value;
            forall k :: 0 <= k < |ws| ==>
              && ws[k].target.table in db.schema && |ws[k].before| == |db.schema[ws[k].target.table]|
              && ws[k].index < |ws[k].before|
    decreases i, j
  {
    hide Fits, BoundIn;
    if i == 0 && j == 0 {
    } else if j == 0 {
      WritesWide(db, from, rows, assignments, i - 1, |assignments|);
    } else {
      WritesWide(db, from, rows, assignments, i, j - 1);
      FitsReads(db, from, rows[i], assignments[j - 1].column);
    }
  }

  /** Assigned values are of the types of their columns. */
  ghost predicate AssignmentsTyped(schema: Schema, types: Types, assignments: seq<Assignment>) {
    forall j :: 0 <= j < |assignments| ==>
      var c := assignments[j].column;
      c.table in schema && c.column in schema[c.table] ==>
        var i := ColumnIndex(schema[c.table], c.column).value;
        c.table in types && i < |types[c.table]| && HasType(assignments[j].value, types[c.table][i])
  }

  /** What is stored could be stored. */
  ghost predicate RowsEncodable(tables: map<nat, map<RowId, seq<Value>>>, types: Types) {
    forall t, id :: t in tables && id in tables[t] && t in types ==> Encodable(tables[t][id], types[t])
  }

  lemma {:induction false} LastWriteIs(ws: seq<Write>, t: Target, index: nat)
    ensures LastWrite(ws, t, index).Some? ==>
              exists k :: 0 <= k < |ws| && ws[k].target == t && ws[k].index == index
                          && ws[k].value == LastWrite(ws, t, index).value
  {
    if ws != [] && LastWrite(ws, t, index).Some? {
      var n := |ws| - 1;
      if !(ws[n].target == t && ws[n].index == index) {
        LastWriteIs(ws[..n], t, index);
        var k :| 0 <= k < n && ws[..n][k].target == t && ws[..n][k].index == index
          && ws[..n][k].value == LastWrite(ws[..n], t, index).value;
        assert ws[k] == ws[..n][k];
      }
    }
  }

  lemma {:induction false} WritesTyped(db: Database, types: Types, from: From, rows: seq<QueryRow>,
                                       assignments: seq<Assignment>, i: nat, j: nat)
    requires FromBound(db.schema, from) && AssignmentsBound(db.schema, from, assignments)
    requires AssignmentsTyped(db.schema, types, assignments)
    requires forall k :: 0 <= k < |rows| ==> Fits(db, from, rows[k])
    requires i <= |rows| && j <= |assignments| && (i == |rows| ==> j == 0)
    requires Writes(db.schema, rows, assignments, i, j).Ok?
    ensures forall k :: 0 <= k < |Writes(db.schema, rows, assignments, i, j).value| ==>
              WriteTyped(types, Writes(db.schema, rows, assignments, i, j).value[k])
    decreases i, j
  {
    hide Fits, BoundIn;
    if i == 0 && j == 0 {
    } else if j == 0 {
      WritesTyped(db, types, from, rows, assignments, i - 1, |assignments|);
    } else {
      WritesTyped(db, types, from, rows, assignments, i, j - 1);
      FitsReads(db, from, rows[i], assignments[j - 1].column);
    }
  }

  ghost predicate WriteTyped(types: Types, w: Write) {
    w.target.table in types && w.index < |types[w.target.table]| && HasType(w.value, types[w.target.table][w.index])
  }

  /** Some column of a touched row finally gets a string that is too long. */
  ghost predicate WritesTooLong(ws: seq<Write>) {
    exists t, i: nat :: LastWrite(ws, t, i).Some? && Tuple.TooLong(LastWrite(ws, t, i).value)
  }

  /** The values of one planned row. */
  lemma AfterTyped(tables: map<nat, map<RowId, seq<Value>>>, types: Types, ws: seq<Write>, u: Update)
    requires UpdateFor(ws, u) && AllRead(tables, ws) && RowsEncodable(tables, types) && u.target.table in types
    requires forall k :: 0 <= k < |ws| ==> WriteTyped(types, ws[k])
    ensures |u.after| == |types[u.target.table]|
    ensures forall i :: 0 <= i < |u.after| ==> HasType(u.after[i], types[u.target.table][i])
    ensures forall i: nat :: i < |u.after| ==>
              (Tuple.TooLong(u.after[i]) <==>
               LastWrite(ws, u.target, i).Some? && Tuple.TooLong(LastWrite(ws, u.target, i).value))
  {
    var k :| 0 <= k < |ws| && ws[k].target == u.target && ws[k].before == u.before;
    assert Reads(tables, ws[k]) && Encodable(u.before, types[u.target.table]);
    forall i: nat | i < |u.after|
      ensures HasType(u.after[i], types[u.target.table][i])
      ensures Tuple.TooLong(u.after[i]) <==>
              LastWrite(ws, u.target, i).Some? && Tuple.TooLong(LastWrite(ws, u.target, i).value)
    {
      LastWriteIs(ws, u.target, i);
      assert Tuple.Fits(u.before[i], types[u.target.table][i]);
    }
  }

  /** For typed assignments and stored rows, planning fails exactly when some
      column of a touched row is given a string of more than 65535 bytes. */
  lemma FailsWhenTooLong(tables: map<nat, map<RowId, seq<Value>>>, types: Types, ws: seq<Write>)
    requires AllRead(tables, ws) && RowsEncodable(tables, types)
    requires forall k :: 0 <= k < |ws| ==> WriteTyped(types, ws[k])
    ensures WritesStorable(types, ws) <==> !WritesTooLong(ws)
    ensures forall u, e :: UpdateFor(ws, u) && FailsToEncode(types, u, e) ==> e == Tuple.VarcharTooLong
  {
    hide AllRead;
    forall u | UpdateFor(ws, u)
      ensures !WritesTooLong(ws) ==> Storable(types, u)
      ensures forall e :: FailsToEncode(types, u, e) ==> e == Tuple.VarcharTooLong
    {
      AfterTyped(tables, types, ws, u);
      Tuple.TypedError(u.after, types[u.target.table]);
    }
    if WritesTooLong(ws) {
      var t, i: nat :| LastWrite(ws, t, i).Some? && Tuple.TooLong(LastWrite(ws, t, i).value);
      LastWriteIs(ws, t, i);
      var j :| 0 <= j < |ws| && ws[j].target == t && ws[j].index == i;
      var u := UpdateOf(ws, ws[j]);
      AfterTyped(tables, types, ws, u);
      assert !Tuple.Fits(u.after[i], types[t.table][i]);
      assert !Storable(types, u);
    }
  }

  /** Some column finally gets a string that is too long. */
  ghost predicate GetsTooLong(schema: Schema, rows: seq<QueryRow>, assignments: seq<Assignment>) {
    exists t, k: nat, v :: Gets(schema, rows, assignments, t, k, v) && Tuple.TooLong(v)
  }

  lemma TooLongMeans(schema: Schema, rows: seq<QueryRow>, assignments: seq<Assignment>)
    requires Writes(schema, rows, assignments, |rows|, 0).Ok?
    ensures GetsTooLong(schema, rows, assignments)
        <==> WritesTooLong(Writes(schema, rows, assignments, |rows|, 0).value)
  {
    hide Writes, LastWrite, Gets, Untouched, Tuple.TooLong;
    var ws := Writes(schema, rows, assignments, |rows|, 0).value;
    if WritesTooLong(ws) {
      var t, k: nat :| LastWrite(ws, t, k).Some? && Tuple.TooLong(LastWrite(ws, t, k).value);
      LastWriteGets(schema, rows, assignments, t, k);
      assert Gets(schema, rows, assignments, t, k, LastWrite(ws, t, k).value);
    }
    if GetsTooLong(schema, rows, assignments) {
      var t, k: nat, v :| Gets(schema, rows, assignments, t, k, v) && Tuple.TooLong(v);
      LastWriteGets(schema, rows, assignments, t, k);
      assert LastWrite(ws, t, k).Some?;
    }
  }

  /** Typed assignments to stored rows can be stored unless a string is too long. */
  lemma StorableWhen(db: Database, types: Types, from: From, rows: seq<QueryRow>, assignments: seq<Assignment>)
    requires FromBound(db.schema, from) && AssignmentsBound(db.schema, from, assignments)
    requires AssignmentsTyped(db.schema, types, assignments) && RowsEncodable(db.tables, types)
    requires forall k :: 0 <= k < |rows| ==> Fits(db, from, rows[k])
    ensures AllStorable(db.schema, types, rows, assignments) <==> !GetsTooLong(db.schema, rows, assignments)
  {
    hide Writes, Fits, FromBound, AssignmentsBound, AssignmentsTyped, RowsEncodable, AllStorable, GetsTooLong,
         WritesStorable, WritesTooLong, AllRead, WriteTyped;
    WritesRead(db, from, rows, assignments, |rows|, 0);
    WritesTyped(db, types, from, rows, assignments, |rows|, 0);
    FailsWhenTooLong(db.tables, types, Writes(db.schema, rows, assignments, |rows|, 0).value);
    StorableMeans(db.schema, types, rows, assignments);
    TooLongMeans(db.schema, rows, assignments);
  }

  /** The update of the row that a write touches. */
  ghost function UpdateOf(ws: seq<Write>, w: Write): (u: Update)
    requires w in ws
    ensures UpdateFor(ws, u) && u.target == w.target
  {
    Update(w.target, w.before, seq(|w.before|, i requires 0 <= i < |w.before| =>
      if LastWrite(ws, w.target, i).Some? then LastWrite(ws, w.target, i).value else w.before[i]))
  }

  // ---------- deletes ----------

  datatype Deletion = Deletion(target: Target, values: seq<Value>)

  /** The stored row that a target table contributes to a joined row. */
  function Doomed(row: QueryRow, table: nat, instance: nat): Option<Deletion> {
    var found := FindTableRow(row, instance);
    if found.None? then None else Some(Deletion(Target(table, found.value.id), found.value.values))
  }

  /** A target of the statement names the stored row in some joined row. */
  ghost predicate Drops(rows: seq<QueryRow>, targets: seq<(nat, nat)>, d: Deletion) {
    exists x, y :: 0 <= x < |rows| && 0 <= y < |targets| && DropsAt(rows[x], targets[y], d)
  }

  ghost predicate DropsAt(row: QueryRow, target: (nat, nat), d: Deletion) {
    exists part :: HasPart(row, target.1, part) && d == Deletion(Target(target.0, part.id), part.values)
  }

  /** Every stored row that is named is deleted once, and no other. */
  ghost predicate DropsAll(rows: seq<QueryRow>, targets: seq<(nat, nat)>, plan: seq<Deletion>) {
    && (forall k :: 0 <= k < |plan| ==> Drops(rows, targets, plan[k]))
    && (forall a, b :: 0 <= a < b < |plan| ==> plan[a].target != plan[b].target)
    && (forall d :: Drops(rows, targets, d) ==> d.target in DeletedBy(plan))
  }

  lemma DoomedMeans(row: QueryRow, target: (nat, nat), d: Deletion)
    ensures Doomed(row, target.0, target.1) == Some(d) <==> DropsAt(row, target, d)
    ensures Doomed(row, target.0, target.1).None? <==> forall part :: !HasPart(row, target.1, part)
  {
    hide HasPart;
    forall part ensures FindTableRow(row, target.1) == Some(part) <==> HasPart(row, target.1, part) {
      FindMeans(row, target.1, part);
    }
  }

  lemma PlansDrop(rows: seq<QueryRow>, targets: seq<(nat, nat)>, plan: seq<Deletion>)
    requires PlansDeletes(rows, targets, plan, |rows|, 0)
    ensures DropsAll(rows, targets, plan)
  {
    hide Doomed, DropsAt, DeletedBy;
    forall k | 0 <= k < |plan| ensures Drops(rows, targets, plan[k]) {
      assert Deletes(rows, targets, plan[k]);
      var x, y :| 0 <= x < |rows| && 0 <= y < |targets| && Doomed(rows[x], targets[y].0, targets[y].1) == Some(plan[k]);
      DoomedMeans(rows[x], targets[y], plan[k]);
    }
    forall d | Drops(rows, targets, d) ensures d.target in DeletedBy(plan) {
      var x, y :| 0 <= x < |rows| && 0 <= y < |targets| && DropsAt(rows[x], targets[y], d);
      DoomedMeans(rows[x], targets[y], d);
      assert Named(rows, targets, DeletedBy(plan), x, y);
    }
  }

  /** Every deletion belongs to a joined row, none is named twice, and every
      targeted row is named. */
  ghost predicate PlansDeletes(rows: seq<QueryRow>, targets: seq<(nat, nat)>, plan: seq<Deletion>, i: nat, j: nat)
    requires i <= |rows| && j <= |targets|
  {
    && (forall k :: 0 <= k < |plan| ==> Deletes(rows, targets, plan[k]))
    && (forall a, b :: 0 <= a < b < |plan| ==> plan[a].target != plan[b].target)
    && AllNamed(rows, targets, DeletedBy(plan), i, j)
  }

  ghost predicate Named(rows: seq<QueryRow>, targets: seq<(nat, nat)>, named: set<Target>, x: int, y: int)
    requires 0 <= x < |rows| && 0 <= y < |targets|
  {
    var d := Doomed(rows[x], targets[y].0, targets[y].1);
    d.Some? && d.value.target in named
  }

  ghost predicate AllNamed(rows: seq<QueryRow>, targets: seq<(nat, nat)>, named: set<Target>, i: nat, j: nat) {
    forall x, y :: 0 <= x < |rows| && 0 <= y < |targets| && (x < i || (x == i && y < j)) ==>
          Named(rows, targets, named, x, y)
  }

  lemma NamedStep(rows: seq<QueryRow>, targets: seq<(nat, nat)>, named: set<Target>, i: nat, j: nat)
    requires i < |rows| && j < |targets| && AllNamed(rows, targets, named, i, j)
    requires Doomed(rows[i], targets[j].0, targets[j].1).Some?
    ensures AllNamed(rows, targets, named + {Doomed(rows[i], targets[j].0, targets[j].1).value.target}, i, j + 1)
  {
    var named' := named + {Doomed(rows[i], targets[j].0, targets[j].1).value.target};
    forall x, y | 0 <= x < |rows| && 0 <= y < |targets| && (x < i || (x == i && y < j + 1))
      ensures Named(rows, targets, named', x, y) {
      assert x < i || y < j ==> Named(rows, targets, named, x, y);
    }
  }

  ghost predicate Deletes(rows: seq<QueryRow>, targets: seq<(nat, nat)>, d: Deletion) {
    exists x, y :: 0 <= x < |rows| && 0 <= y < |targets| && Doomed(rows[x], targets[y].0, targets[y].1) == Some(d)
  }

  ghost function DeletedBy(plan: seq<Deletion>): set<Target> {
    set k | 0 <= k < |plan| :: plan[k].target
  }

  lemma DeletedByMore(plan: seq<Deletion>, d: Deletion)
    ensures DeletedBy(plan + [d]) == DeletedBy(plan) + {d.target}
  {
    var plan' := plan + [d];
    assert plan'[|plan|] == d;
    forall t | t in DeletedBy(plan) ensures t in DeletedBy(plan') {
      var k :| 0 <= k < |plan| && plan[k].target == t;
      assert plan'[k].target == t;
    }
  }

  lemma DeletesStep(rows: seq<QueryRow>, targets: seq<(nat, nat)>, plan: seq<Deletion>, i: nat, j: nat)
    requires i < |rows| && j < |targets| && PlansDeletes(rows, targets, plan, i, j)
    requires Doomed(rows[i], targets[j].0, targets[j].1).Some?
    ensures var d := Doomed(rows[i], targets[j].0, targets[j].1).value;
            if d.target in DeletedBy(plan) then PlansDeletes(rows, targets, plan, i, j + 1)
            else
              && PlansDeletes(rows, targets, plan + [d], i, j + 1)
              && DeletedBy(plan + [d]) == DeletedBy(plan) + {d.target}
  {
    hide Doomed, AllNamed, Deletes;
    var d := Doomed(rows[i], targets[j].0, targets[j].1).value;
    assert Deletes(rows, targets, d) by { IsDoomed(rows, targets, d, i, j); }
    DeletedByMore(plan, d);
    NamedStep(rows, targets, DeletedBy(plan), i, j);
    if d.target in DeletedBy(plan) {
      assert DeletedBy(plan) + {d.target} == DeletedBy(plan);
    } else {
      forall a | 0 <= a < |plan| ensures plan[a].target != d.target {
        assert plan[a].target in DeletedBy(plan);
      }
    }
  }

  lemma IsDoomed(rows: seq<QueryRow>, targets: seq<(nat, nat)>, d: Deletion, i: nat, j: nat)
    requires i < |rows| && j < |targets| && Doomed(rows[i], targets[j].0, targets[j].1) == Some(d)
    ensures Deletes(rows, targets, d)
  {
  }

  ghost predicate NoPart(row: QueryRow, instance: nat) {
    forall part :: !HasPart(row, instance, part)
  }

  /** One deletion for every row that the joined rows target. */
  method PrepareDelete(rows: seq<QueryRow>, targets: seq<(nat, nat)>) returns (r: Result<seq<Deletion>, ExecutorError>)
    ensures r.Ok? ==> DropsAll(rows, targets, r.value)
    ensures r.Err? ==> r == Err(TableInstanceNotFound)
    ensures r.Err? <==> exists x, y :: 0 <= x < |rows| && 0 <= y < |targets| && NoPart(rows[x], targets[y].1)
  {
    hide HasPart, DropsAll;
    var plan: seq<Deletion> := [];
    var seen: set<Target> := {};
    var i := 0;
    while i < |rows|
      invariant 0 <= i <= |rows| && PlansDeletes(rows, targets, plan, i, 0) && seen == DeletedBy(plan)
    {
      var j := 0;
      while j < |targets|
        invariant 0 <= j <= |targets| && PlansDeletes(rows, targets, plan, i, j) && seen == DeletedBy(plan)
      {
        var found := FindTableRow(rows[i], targets[j].1);
        if found.None? {
          DoomedMeans(rows[i], targets[j], Deletion(Target(0, RowId(0, 0)), []));
          assert NoPart(rows[i], targets[j].1);
          return Err(TableInstanceNotFound);
        }
        DeletesStep(rows, targets, plan, i, j);
        var t := Target(targets[j].0, found.value.id);
        if t !in seen {
          seen := seen + {t};
          plan := plan + [Deletion(t, found.value.values)];
        }
        j := j + 1;
      }
      i := i + 1;
    }
    forall x, y | 0 <= x < |rows| && 0 <= y < |targets| ensures !NoPart(rows[x], targets[y].1) {
      assert Named(rows, targets, DeletedBy(plan), x, y);
      DoomedMeans(rows[x], targets[y], Doomed(rows[x], targets[y].0, targets[y].1).value);
    }
    PlansDrop(rows, targets, plan);
    return Ok(plan);
  }
}
