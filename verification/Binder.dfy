/** Binding: names in a parsed statement become table instances and columns, and
    what is bound is fit to be executed. */
module Binder {
  import opened Wrappers
  import opened Keys
  import opened Rows
  import opened Joins
  import opened FromClause
  import A = Ast
  import P = Prepare

  datatype ColumnMeta = ColumnMeta(id: nat, name: string, dataType: A.DataType)
  datatype TableMeta = TableMeta(id: nat, name: string, columns: seq<ColumnMeta>)
  type Catalog = seq<TableMeta>

  datatype BoundTable = BoundTable(table: nat, instance: nat, alias: Option<string>)

  datatype BinderError =
    | TableNotFound | TableIdNotFound | ColumnNotFound | ColumnIdNotFound | ColumnNotFoundInScope
    | AmbiguousColumn | DuplicateTableReference | ValueCountMismatch | TypeMismatch | JoinColumnTypeMismatch
    | InvalidFilterExpression | InvalidProjectionExpression | UnsupportedAggregateType
    | InvalidGroupingProjection | InvalidGroupingOrder | InvalidAggregateOrder

  // ---------- the catalog ----------

  function TableNamed(cat: Catalog, name: string): (r: Option<TableMeta>)
    ensures r.Some? ==> r.value in cat && r.value.name == name
  {
    if cat == [] then None else if cat[0].name == name then Some(cat[0]) else TableNamed(cat[1..], name)
  }

  function TableById(cat: Catalog, id: nat): (r: Option<TableMeta>)
    ensures r.Some? <==> exists i :: 0 <= i < |cat| && cat[i].id == id
    ensures r.Some? ==> r.value in cat && r.value.id == id
  {
    if cat == [] then None else if cat[0].id == id then Some(cat[0]) else TableById(cat[1..], id)
  }

  function ColumnNamed(columns: seq<ColumnMeta>, name: string): (r: Option<ColumnMeta>)
    ensures r.Some? ==> r.value in columns && r.value.name == name
  {
    if columns == [] then None else if columns[0].name == name then Some(columns[0])
        else ColumnNamed(columns[1..], name)
  }

  function ColumnById(columns: seq<ColumnMeta>, id: nat): (r: Option<ColumnMeta>)
    ensures r.Some? <==> exists i :: 0 <= i < |columns| && columns[i].id == id
    ensures r.Some? ==> r.value in columns && r.value.id == id
  {
    if columns == [] then None else if columns[0].id == id then Some(columns[0]) else ColumnById(columns[1..], id)
  }

  function ColumnIds(columns: seq<ColumnMeta>): (ids: seq<nat>)
    ensures |ids| == |columns| && forall i :: 0 <= i < |columns| ==> ids[i] == columns[i].id
  {
    seq(|columns|, i requires 0 <= i < |columns| => columns[i].id)
  }

  /** The catalog as the executor sees it. */
  ghost function SchemaOf(cat: Catalog): Schema {
    map t | t in cat :: t.id := ColumnIds(TableById(cat, t.id).value.columns)
  }

  lemma SchemaAt(cat: Catalog, id: nat)
    ensures id in SchemaOf(cat) <==> TableById(cat, id).Some?
    ensures id in SchemaOf(cat) ==> SchemaOf(cat)[id] == ColumnIds(TableById(cat, id).value.columns)
  {
    if TableById(cat, id).Some? {
      assert TableById(cat, id).value in cat;
    }
  }

  function ColumnTypes(columns: seq<ColumnMeta>): (types: seq<A.DataType>)
    ensures |types| == |columns| && forall i :: 0 <= i < |columns| ==> types[i] == columns[i].dataType
  {
    seq(|columns|, i requires 0 <= i < |columns| => columns[i].dataType)
  }

  ghost function TypesOf(cat: Catalog): P.Types {
    map t | t in cat :: t.id := ColumnTypes(TableById(cat, t.id).value.columns)
  }

  lemma TypesAt(cat: Catalog, id: nat)
    ensures id in TypesOf(cat) <==> TableById(cat, id).Some?
    ensures id in TypesOf(cat) ==> TypesOf(cat)[id] == ColumnTypes(TableById(cat, id).value.columns)
  {
    if TableById(cat, id).Some? {
      assert TableById(cat, id).value in cat;
    }
  }

  lemma {:induction false} IndexOfId(columns: seq<ColumnMeta>, id: nat)
    requires id in ColumnIds(columns)
    ensures ColumnById(columns, id).Some?
    ensures var i := ColumnIndex(ColumnIds(columns), id); i.Some? && columns[i.value] == ColumnById(columns, id).value
  {
    var i :| 0 <= i < |columns| && ColumnIds(columns)[i] == id;
    assert columns[i].id == id;
    if columns[0].id != id {
      assert ColumnIds(columns)[1..] == ColumnIds(columns[1..]);
      assert ColumnIds(columns[1..])[i - 1] == id;
      IndexOfId(columns[1..], id);
    }
  }

  // ---------- columns ----------

  function ReferenceName(cat: Catalog, t: BoundTable): Result<string, BinderError> {
    if t.alias.Some? then Ok(t.alias.value)
    else
      var meta := TableById(cat, t.table);
      if meta.None? then Err(TableIdNotFound) else Ok(meta.value.name)
  }

  /** The first table with a reference name. */
  function FindReference(cat: Catalog, tables: seq<BoundTable>, name: string): (r: Result<BoundTable, BinderError>)
    ensures r.Ok? ==> r.value in tables && ReferenceName(cat, r.value) == Ok(name)
  {
    if tables == [] then Err(BinderError.TableNotFound)
    else
      var own :- ReferenceName(cat, tables[0]);
      if own == name then Ok(tables[0]) else FindReference(cat, tables[1..], name)
  }

  /** A column of one of the tables in scope. */
  ghost predicate InScope(cat: Catalog, tables: seq<BoundTable>, c: Column) {
    exists i :: 0 <= i < |tables| && IsColumnOf(cat, tables[i], c)
  }

  ghost predicate IsColumnOf(cat: Catalog, t: BoundTable, c: Column) {
    && c.instance == t.instance && c.table == t.table && TableById(cat, t.table).Some?
    && c.column in ColumnIds(TableById(cat, t.table).value.columns)
  }

  function BindQualified(cat: Catalog, tables: seq<BoundTable>, qualifier: string, column: string):
      Result<Column, BinderError> {
    var t :- FindReference(cat, tables, qualifier);
    var meta := TableById(cat, t.table);
    if meta.None? then Err(TableIdNotFound)
    else
      var c := ColumnNamed(meta.value.columns, column);
      if c.None? then Err(BinderError.ColumnNotFound) else Ok(Column(t.instance, meta.value.id, c.value.id))
  }

  /** Every column in scope with the name, in the order of the tables. */
  function Candidates(cat: Catalog, tables: seq<BoundTable>, column: string): Result<seq<Column>, BinderError> {
    if tables == [] then Ok([])
    else
      var meta := TableById(cat, tables[0].table);
      if meta.None? then Err(TableIdNotFound)
      else
        var rest :- Candidates(cat, tables[1..], column);
        var c := ColumnNamed(meta.value.columns, column);
        Ok((if c.None? then [] else [Column(tables[0].instance, meta.value.id, c.value.id)]) + rest)
  }

  function BindColumn(cat: Catalog, tables: seq<BoundTable>, c: A.ColumnReference): Result<Column, BinderError> {
    if c.table.Some? then BindQualified(cat, tables, c.table.value, c.column)
    else
      var found :- Candidates(cat, tables, c.column);
      if found == [] then Err(ColumnNotFoundInScope)
      else if |found| == 1 then Ok(found[0])
      else Err(AmbiguousColumn)
  }

  lemma NamedInIds(columns: seq<ColumnMeta>, c: ColumnMeta)
    requires c in columns
    ensures c.id in ColumnIds(columns)
  {
    var i :| 0 <= i < |columns| && columns[i] == c;
    assert ColumnIds(columns)[i] == c.id;
  }

  lemma {:induction false} CandidatesInScope(cat: Catalog, tables: seq<BoundTable>, column: string)
    requires Candidates(cat, tables, column).Ok?
    ensures forall c :: c in Candidates(cat, tables, column).value ==> InScope(cat, tables, c)
  {
    if tables == [] {
    } else {
      CandidatesInScope(cat, tables[1..], column);
      forall c | c in Candidates(cat, tables, column).value ensures InScope(cat, tables, c) {
        if c in Candidates(cat, tables[1..], column).value {
          var i :| 0 <= i < |tables[1..]| && IsColumnOf(cat, tables[1..][i], c);
          assert IsColumnOf(cat, tables[i + 1], c);
        } else {
          var meta := TableById(cat, tables[0].table).value;
          NamedInIds(meta.columns, ColumnNamed(meta.columns, column).value);
          assert IsColumnOf(cat, tables[0], c);
        }
      }
    }
  }

  /** A bound column belongs to a table in scope. */
  lemma BindColumnInScope(cat: Catalog, tables: seq<BoundTable>, c: A.ColumnReference)
    requires BindColumn(cat, tables, c).Ok?
    ensures InScope(cat, tables, BindColumn(cat, tables, c).value)
  {
    if c.table.Some? {
      var t := FindReference(cat, tables, c.table.value).value;
      var meta := TableById(cat, t.table).value;
      NamedInIds(meta.columns, ColumnNamed(meta.columns, c.column).value);
      var i :| 0 <= i < |tables| && tables[i] == t;
      assert IsColumnOf(cat, tables[i], BindColumn(cat, tables, c).value);
    } else {
      CandidatesInScope(cat, tables, c.column);
    }
  }

  /** The type of a bound column. */
  function ColumnType(cat: Catalog, c: Column): Result<A.DataType, BinderError> {
    var t := TableById(cat, c.table);
    if t.None? then Err(TableIdNotFound)
    else
      var m := ColumnById(t.value.columns, c.column);
      if m.None? then Err(ColumnIdNotFound) else Ok(m.value.dataType)
  }

  // ---------- FROM clauses ----------

  function Names(cat: Catalog, tables: seq<BoundTable>): Result<seq<string>, BinderError> {
    if tables == [] then Ok([])
    else
      var name :- ReferenceName(cat, tables[0]);
      var rest :- Names(cat, tables[1..]);
      Ok([name] + rest)
  }

  predicate NoDuplicates(names: seq<string>) {
    forall i, j :: 0 <= i < j < |names| ==> names[i] != names[j]
  }

  function BindJoinCondition(cat: Catalog, tables: seq<BoundTable>, on: A.JoinCondition):
      Result<JoinCondition, BinderError> {
    var names :- Names(cat, tables);
    if !NoDuplicates(names) then Err(DuplicateTableReference)
    else
      var left :- BindColumn(cat, tables, on.left);
      var right :- BindColumn(cat, tables, on.right);
      var leftType :- ColumnType(cat, left);
      var rightType :- ColumnType(cat, right);
      if leftType != rightType then Err(JoinColumnTypeMismatch) else Ok(JoinCondition(left, right))
  }

  datatype BoundFrom = BoundFrom(from: From, tables: seq<BoundTable>, next: nat)

  /** Instances are numbered from `next` on, left to right. */
  function BindFrom(cat: Catalog, f: A.FromClause, next: nat): Result<BoundFrom, BinderError> {
    match f
    case Table(t) =>
      var meta := TableNamed(cat, t.name);
      if meta.None? then Err(BinderError.TableNotFound)
      else Ok(BoundFrom(Table(meta.value.id, next), [BoundTable(meta.value.id, next, t.alias)], next + 1))
    case InnerJoin(l, on, r) =>
      var left :- BindFrom(cat, l, next);
      var right :- BindFrom(cat, r, left.next);
      var bound :- BindJoinCondition(cat, left.tables + right.tables, on);
      Ok(BoundFrom(InnerJoin(left.from, bound, right.from), left.tables + right.tables, right.next))
  }

  /** The tables are those of the clause, in order. */
  ghost predicate Scoped(cat: Catalog, from: From, tables: seq<BoundTable>) {
    match from
    case Table(t, i) => |tables| == 1 && tables[0].table == t && tables[0].instance == i && TableById(cat, t).Some?
    case InnerJoin(l, _, r) =>
      |tables| == Width(from) && Scoped(cat, l, tables[..Width(l)]) && Scoped(cat, r, tables[Width(l)..])
  }

  lemma {:induction false} ScopeWidth(cat: Catalog, from: From, tables: seq<BoundTable>)
    requires Scoped(cat, from, tables)
    ensures |tables| == Width(from)
  {
  }

  /** A column in scope is bound in the clause. */
  lemma {:induction false} ScopeBound(cat: Catalog, from: From, tables: seq<BoundTable>, c: Column)
    requires Scoped(cat, from, tables) && InScope(cat, tables, c)
    ensures BoundIn(SchemaOf(cat), from, c)
  {
    match from
    case Table(t, i) =>
      SchemaAt(cat, t);
    case InnerJoin(l, _, r) =>
      var i :| 0 <= i < |tables| && IsColumnOf(cat, tables[i], c);
      var w := Width(l);
      if i < w {
        assert IsColumnOf(cat, tables[..w][i], c);
        ScopeBound(cat, l, tables[..w], c);
      } else {
        assert IsColumnOf(cat, tables[w..][i - w], c);
        ScopeBound(cat, r, tables[w..], c);
      }
  }

  lemma BindColumnBound(cat: Catalog, from: From, tables: seq<BoundTable>, c: A.ColumnReference)
    requires Scoped(cat, from, tables) && BindColumn(cat, tables, c).Ok?
    ensures BoundIn(SchemaOf(cat), from, BindColumn(cat, tables, c).value)
  {
    BindColumnInScope(cat, tables, c);
    ScopeBound(cat, from, tables, BindColumn(cat, tables, c).value);
  }

  lemma JoinBound(cat: Catalog, left: BoundFrom, right: BoundFrom, on: A.JoinCondition)
    requires Scoped(cat, left.from, left.tables) && Scoped(cat, right.from, right.tables)
    requires BindJoinCondition(cat, left.tables + right.tables, on).Ok?
    ensures var f := InnerJoin(left.from, BindJoinCondition(cat, left.tables + right.tables, on).value, right.from);
            && Scoped(cat, f, left.tables + right.tables)
            && BoundIn(SchemaOf(cat), f, f.on.left) && BoundIn(SchemaOf(cat), f, f.on.right)
  {
    hide BindColumn, BoundIn, ColumnType, SchemaOf, TableById;
    var tables := left.tables + right.tables;
    var f := InnerJoin(left.from, BindJoinCondition(cat, tables, on).value, right.from);
    ScopeWidth(cat, left.from, left.tables);
    ScopeWidth(cat, right.from, right.tables);
    assert tables[..Width(left.from)] == left.tables && tables[Width(left.from)..] == right.tables;
    assert Scoped(cat, f, tables);
    BindColumnBound(cat, f, tables, on.left);
    BindColumnBound(cat, f, tables, on.right);
  }

  /** A bound FROM clause is fit for execution: its instances are numbered apart,
      and the columns of its join conditions belong to its tables. */
  lemma {:induction false} BindFromBound(cat: Catalog, f: A.FromClause, next: nat)
    requires BindFrom(cat, f, next).Ok?
    ensures var b := BindFrom(cat, f, next).value;
            && Scoped(cat, b.from, b.tables) && FromBound(SchemaOf(cat), b.from)
            && next < b.next && forall i :: i in Instances(b.from) <==> next <= i < b.next
  {
    hide SchemaOf, BindJoinCondition, TableById, TableNamed;
    match f
    case Table(t) =>
      TableIsBound(cat, t.name);
    case InnerJoin(l, on, r) =>
      var left := BindFrom(cat, l, next).value;
      BindFromBound(cat, l, next);
      var right := BindFrom(cat, r, left.next).value;
      BindFromBound(cat, r, left.next);
      JoinBound(cat, left, right, on);
  }

  lemma TableIsBound(cat: Catalog, name: string)
    requires TableNamed(cat, name).Some?
    ensures var id := TableNamed(cat, name).value.id; TableById(cat, id).Some? && id in SchemaOf(cat)
  {
    var meta := TableNamed(cat, name).value;
    var i :| 0 <= i < |cat| && cat[i] == meta;
    assert TableById(cat, meta.id).Some?;
    SchemaAt(cat, meta.id);
  }

  // ---------- filters and values ----------

  function BindOperator(op: A.Operator): Operator {
    match op
    case Equal => Equals
    case NotEqual => NotEquals
    case LessThan => LessThan
    case GreaterThan => GreaterThan
    case LessThanOrEqual => AtMost
    case GreaterThanOrEqual => AtLeast
  }

  /** A literal as a value of a column type; strings by their bytes. */
  function BindValue(bytes: string -> seq<Byte>, l: A.Literal, t: A.DataType): Result<Value, BinderError> {
    match l
    case Null => Ok(None)
    case Integer(v) =>
      if t == A.DataType.IntType then (if -0x8000_0000 <= v < 0x8000_0000 then Ok(Some(Int(v))) else Err(TypeMismatch))
      else if t == A.DataType.BigIntType then Ok(Some(BigInt(v)))
      else Err(TypeMismatch)
    case String(s) => if t == A.DataType.VarcharType then Ok(Some(Varchar(bytes(s)))) else Err(TypeMismatch)
  }

  lemma BindValueTyped(bytes: string -> seq<Byte>, l: A.Literal, t: A.DataType)
    requires BindValue(bytes, l, t).Ok?
    ensures HasType(BindValue(bytes, l, t).value, t)
  {
  }

  function BindFilter(cat: Catalog, bytes: string -> seq<Byte>, tables: seq<BoundTable>, e: A.Expression):
      Result<Expression, BinderError> {
    match e
    case And(l, r) =>
      var left :- BindFilter(cat, bytes, tables, l);
      var right :- BindFilter(cat, bytes, tables, r);
      Ok(And(left, right))
    case Or(l, r) =>
      var left :- BindFilter(cat, bytes, tables, l);
      var right :- BindFilter(cat, bytes, tables, r);
      Ok(Or(left, right))
    case Comparison(a, op, b) =>
      if !a.Column? || !b.Literal? then Err(InvalidFilterExpression)
      else
        var c :- BindColumn(cat, tables, a.column);
        var t :- ColumnType(cat, c);
        var v :- BindValue(bytes, b.literal, t);
        Ok(Comparison(c, BindOperator(op), v))
    case _ => Err(InvalidFilterExpression)
  }

  /** Every comparison of a filter is between values of one type. */
  ghost predicate FilterTyped(cat: Catalog, e: Expression) {
    match e
    case Comparison(c, _, v) => ColumnType(cat, c).Ok? && HasType(v, ColumnType(cat, c).value)
    case And(l, r) => FilterTyped(cat, l) && FilterTyped(cat, r)
    case Or(l, r) => FilterTyped(cat, l) && FilterTyped(cat, r)
  }

  lemma {:induction false} BindFilterBound(cat: Catalog, bytes: string -> seq<Byte>, from: From,
                                           tables: seq<BoundTable>, e: A.Expression)
    requires Scoped(cat, from, tables) && BindFilter(cat, bytes, tables, e).Ok?
    ensures FilterBound(SchemaOf(cat), from, BindFilter(cat, bytes, tables, e).value)
    ensures FilterTyped(cat, BindFilter(cat, bytes, tables, e).value)
  {
    match e
    case And(l, r) =>
      BindFilterBound(cat, bytes, from, tables, l);
      BindFilterBound(cat, bytes, from, tables, r);
    case Or(l, r) =>
      BindFilterBound(cat, bytes, from, tables, l);
      BindFilterBound(cat, bytes, from, tables, r);
    case Comparison(a, op, b) =>
      BindColumnBound(cat, from, tables, a.column);
      BindValueTyped(bytes, b.literal, ColumnType(cat, BindColumn(cat, tables, a.column).value).value);
    case _ =>
  }

  // ---------- INSERT ----------

  function BindValues(bytes: string -> seq<Byte>, literals: seq<A.Literal>, columns: seq<ColumnMeta>):
      Result<seq<Value>, BinderError>
    requires |literals| == |columns|
  {
    if literals == [] then Ok([])
    else
      var v :- BindValue(bytes, literals[0], columns[0].dataType);
      var rest :- BindValues(bytes, literals[1..], columns[1..]);
      Ok([v] + rest)
  }

  function BindInsert(cat: Catalog, bytes: string -> seq<Byte>, table: string, literals: seq<A.Literal>):
      Result<(nat, seq<Value>), BinderError> {
    var t := TableNamed(cat, table);
    if t.None? then Err(BinderError.TableNotFound)
    else if |literals| != |t.value.columns| then Err(ValueCountMismatch)
    else
      var values :- BindValues(bytes, literals, t.value.columns);
      Ok((t.value.id, values))
  }

  /** A bound row has one value of the right type for every column. */
  lemma {:induction false} BindValuesTyped(bytes: string -> seq<Byte>, literals: seq<A.Literal>,
                                           columns: seq<ColumnMeta>)
    requires |literals| == |columns| && BindValues(bytes, literals, columns).Ok?
    ensures var values := BindValues(bytes, literals, columns).value;
            |values| == |columns| && forall i :: 0 <= i < |columns| ==> HasType(values[i], columns[i].dataType)
  {
    if literals == [] {
    } else {
      BindValueTyped(bytes, literals[0], columns[0].dataType);
      BindValuesTyped(bytes, literals[1..], columns[1..]);
    }
  }

  // ---------- UPDATE and DELETE ----------

  datatype BoundUpdate = BoundUpdate(from: From, assignments: seq<P.Assignment>, filter: Option<Expression>)

  function BindAssignments(cat: Catalog, bytes: string -> seq<Byte>, tables: seq<BoundTable>,
                           assignments: seq<A.Assignment>):
    Result<seq<P.Assignment>, BinderError>
  {
    if assignments == [] then Ok([])
    else
      var c :- BindColumn(cat, tables, assignments[0].column);
      var t :- ColumnType(cat, c);
      var v :- BindValue(bytes, assignments[0].value, t);
      var rest :- BindAssignments(cat, bytes, tables, assignments[1..]);
      Ok([P.Assignment(c, v)] + rest)
  }

  function BindWhere(cat: Catalog, bytes: string -> seq<Byte>, tables: seq<BoundTable>, filter: Option<A.Expression>):
    Result<Option<Expression>, BinderError>
  {
    if filter.None? then Ok(None)
    else
      var e :- BindFilter(cat, bytes, tables, filter.value);
      Ok(Some(e))
  }

  function BindUpdate(cat: Catalog, bytes: string -> seq<Byte>, from: A.FromClause, assignments: seq<A.Assignment>,
                      filter: Option<A.Expression>): Result<BoundUpdate, BinderError>
  {
    var b :- BindFrom(cat, from, 0);
    var bound :- BindAssignments(cat, bytes, b.tables, assignments);
    var e :- BindWhere(cat, bytes, b.tables, filter);
    Ok(BoundUpdate(b.from, bound, e))
  }

  lemma {:induction false} BindAssignmentsBound(cat: Catalog, bytes: string -> seq<Byte>, from: From,
                                                tables: seq<BoundTable>, assignments: seq<A.Assignment>)
    requires Scoped(cat, from, tables) && BindAssignments(cat, bytes, tables, assignments).Ok?
    ensures P.AssignmentsBound(SchemaOf(cat), from, BindAssignments(cat, bytes, tables, assignments).value)
    ensures var bound := BindAssignments(cat, bytes, tables, assignments).value;
            forall j :: 0 <= j < |bound| ==>
                  ColumnType(cat, bound[j].column).Ok?
                      && HasType(bound[j].value, ColumnType(cat, bound[j].column).value)
  {
    hide BindColumn, BoundIn, ColumnType, SchemaOf, HasType;
    if assignments == [] {
    } else {
      BindColumnBound(cat, from, tables, assignments[0].column);
      BindValueTyped(bytes, assignments[0].value,
                     ColumnType(cat, BindColumn(cat, tables, assignments[0].column).value).value);
      BindAssignmentsBound(cat, bytes, from, tables, assignments[1..]);
    }
  }

  /** A bound assignment assigns a value of the type of its column. */
  lemma AssignmentTyped(cat: Catalog, a: P.Assignment)
    requires ColumnType(cat, a.column).Ok? && HasType(a.value, ColumnType(cat, a.column).value)
    ensures P.AssignmentsTyped(SchemaOf(cat), TypesOf(cat), [a])
  {
    SchemaAt(cat, a.column.table);
    TypesAt(cat, a.column.table);
    if a.column.table in SchemaOf(cat) && a.column.column in SchemaOf(cat)[a.column.table] {
      IndexOfId(TableById(cat, a.column.table).value.columns, a.column.column);
    }
  }

  lemma AssignedTyped(cat: Catalog, assignments: seq<P.Assignment>)
    requires forall j :: 0 <= j < |assignments| ==>
               ColumnType(cat, assignments[j].column).Ok?
               && HasType(assignments[j].value, ColumnType(cat, assignments[j].column).value)
    ensures P.AssignmentsTyped(SchemaOf(cat), TypesOf(cat), assignments)
  {
    hide ColumnType, HasType, SchemaOf, TypesOf;
    forall j | 0 <= j < |assignments| ensures P.AssignmentsTyped(SchemaOf(cat), TypesOf(cat), [assignments[j]]) {
      AssignmentTyped(cat, assignments[j]);
    }
    forall j | 0 <= j < |assignments| ensures assignments[j] == [assignments[j]][0] {
    }
  }

  /** Whatever UPDATE the binder accepts, its plan can be made and carried out. */
  lemma BindUpdateBound(cat: Catalog, bytes: string -> seq<Byte>, from: A.FromClause, assignments: seq<A.Assignment>,
                        filter: Option<A.Expression>)
    requires BindUpdate(cat, bytes, from, assignments, filter).Ok?
    ensures var u := BindUpdate(cat, bytes, from, assignments, filter).value;
            && FromBound(SchemaOf(cat), u.from) && P.AssignmentsBound(SchemaOf(cat), u.from, u.assignments)
            && P.AssignmentsTyped(SchemaOf(cat), TypesOf(cat), u.assignments)
            && (u.filter.Some? ==>
                  FilterBound(SchemaOf(cat), u.from, u.filter.value) && FilterTyped(cat, u.filter.value))
  {
    var b := BindFrom(cat, from, 0).value;
    BindFromBound(cat, from, 0);
    BindAssignmentsBound(cat, bytes, b.from, b.tables, assignments);
    AssignedTyped(cat, BindUpdate(cat, bytes, from, assignments, filter).value.assignments);
    if filter.Some? {
      BindFilterBound(cat, bytes, b.from, b.tables, filter.value);
    }
  }

  datatype BoundDelete = BoundDelete(targets: seq<(nat, nat)>, from: From, filter: Option<Expression>)

  function LeftmostTable(from: From): (nat, nat) {
    match from
    case Table(t, i) => (t, i)
    case InnerJoin(l, _, _) => LeftmostTable(l)
  }

  function BindTargets(cat: Catalog, tables: seq<BoundTable>, names: seq<string>):
      Result<seq<(nat, nat)>, BinderError> {
    if names == [] then Ok([])
    else
      var t :- FindReference(cat, tables, names[0]);
      var rest :- BindTargets(cat, tables, names[1..]);
      Ok([(t.table, t.instance)] + rest)
  }

  function BindDelete(cat: Catalog, bytes: string -> seq<Byte>, targets: Option<seq<string>>, from: A.FromClause,
                      filter: Option<A.Expression>): Result<BoundDelete, BinderError>
  {
    var b :- BindFrom(cat, from, 0);
    var bound :- if targets.Some? then BindTargets(cat, b.tables, targets.value) else Ok([LeftmostTable(b.from)]);
    var e :- BindWhere(cat, bytes, b.tables, filter);
    Ok(BoundDelete(bound, b.from, e))
  }

  /** The target names a table of the clause. */
  predicate TargetBound(schema: Schema, from: From, target: (nat, nat)) {
    match from
    case Table(t, i) => target == (t, i) && t in schema
    case InnerJoin(l, _, r) => TargetBound(schema, l, target) || TargetBound(schema, r, target)
  }

  lemma {:induction false} ScopeTarget(cat: Catalog, from: From, tables: seq<BoundTable>, i: nat)
    requires Scoped(cat, from, tables) && i < |tables|
    ensures TargetBound(SchemaOf(cat), from, (tables[i].table, tables[i].instance))
  {
    match from
    case Table(t, _) =>
      SchemaAt(cat, t);
    case InnerJoin(l, _, r) =>
      var w := Width(l);
      if i < w {
        ScopeTarget(cat, l, tables[..w], i);
      } else {
        ScopeTarget(cat, r, tables[w..], i - w);
      }
  }

  lemma {:induction false} LeftmostBound(schema: Schema, from: From)
    requires FromBound(schema, from)
    ensures TargetBound(schema, from, LeftmostTable(from))
  {
    if from.InnerJoin? {
      LeftmostBound(schema, from.left);
    }
  }

  lemma {:induction false} BindTargetsBound(cat: Catalog, from: From, tables: seq<BoundTable>, names: seq<string>)
    requires Scoped(cat, from, tables) && BindTargets(cat, tables, names).Ok?
    ensures var ts := BindTargets(cat, tables, names).value;
            forall y :: 0 <= y < |ts| ==> TargetBound(SchemaOf(cat), from, ts[y])
  {
    if names == [] {
    } else {
      var t := FindReference(cat, tables, names[0]).value;
      var i :| 0 <= i < |tables| && tables[i] == t;
      ScopeTarget(cat, from, tables, i);
      BindTargetsBound(cat, from, tables, names[1..]);
    }
  }

  lemma BindDeleteBound(cat: Catalog, bytes: string -> seq<Byte>, targets: Option<seq<string>>, from: A.FromClause,
                        filter: Option<A.Expression>)
    requires BindDelete(cat, bytes, targets, from, filter).Ok?
    ensures var d := BindDelete(cat, bytes, targets, from, filter).value;
            && FromBound(SchemaOf(cat), d.from)
            && (forall y :: 0 <= y < |d.targets| ==> TargetBound(SchemaOf(cat), d.from, d.targets[y]))
            && (d.filter.Some? ==>
                  FilterBound(SchemaOf(cat), d.from, d.filter.value) && FilterTyped(cat, d.filter.value))
  {
    var b := BindFrom(cat, from, 0).value;
    BindFromBound(cat, from, 0);
    if targets.Some? {
      BindTargetsBound(cat, b.from, b.tables, targets.value);
    } else {
      LeftmostBound(SchemaOf(cat), b.from);
    }
    if filter.Some? {
      BindFilterBound(cat, bytes, b.from, b.tables, filter.value);
    }
  }
}
