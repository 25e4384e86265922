/** The rows that queries work on: rows of one or more tables side by side, and
    how a bound column finds its value in them. */
module Rows {
  import opened Wrappers
  import opened Keys
  import A = Ast

  /** A column value; `None` is NULL. */
  type Value = Option<Key>

  /** NULL is of every type. */
  predicate HasType(v: Value, t: A.DataType) {
    v.Some? ==>
      match v.value
      case Int(_) => t == A.DataType.IntType
      case BigInt(_) => t == A.DataType.BigIntType
      case Boolean(_) => t == A.DataType.BooleanType
      case Varchar(_) => t == A.DataType.VarcharType
  }

  /** The keys of an index on a column of the type. */
  function KeyTypeOf(t: A.DataType): KeyType {
    match t
    case IntType => IntKey
    case BigIntType => BigIntKey
    case BooleanType => BooleanKey
    case _ => VarcharKey
  }

  datatype Operator = Equals | NotEquals | LessThan | GreaterThan | AtMost | AtLeast

  /** Comparisons with NULL never hold; values of different types are unequal
      and not ordered. */
  predicate Holds(a: Value, op: Operator, b: Value) {
    a.Some? && b.Some? &&
    var order := Compare(a.value, b.value);
    match op
    case Equals => a == b
    case NotEquals => a != b
    case LessThan => order == Some(Less)
    case GreaterThan => order == Some(Greater)
    case AtMost => order == Some(Less) || order == Some(Equal)
    case AtLeast => order == Some(Greater) || order == Some(Equal)
  }

  datatype Column = Column(instance: nat, table: nat, column: nat)

  datatype TableRow = TableRow(id: RowId, instance: nat, values: seq<Value>)

  type QueryRow = seq<TableRow>

  /** The column ids of every table, in column order. */
  type Schema = map<nat, seq<nat>>

  datatype ExecutorError = TableNotFound | TableInstanceNotFound | ColumnNotFound

  function FindTableRow(row: QueryRow, instance: nat): (r: Option<TableRow>)
    ensures r.Some? <==> exists i :: 0 <= i < |row| && row[i].instance == instance
    ensures r.Some? ==> r.value in row && r.value.instance == instance
  {
    if row == [] then None
    else if row[0].instance == instance then Some(row[0])
    else FindTableRow(row[1..], instance)
  }

  function Has(row: QueryRow, instance: nat): bool {
    FindTableRow(row, instance).Some?
  }

  function ColumnIndex(columns: seq<nat>, column: nat): (r: Option<nat>)
    ensures r.Some? <==> column in columns
    ensures r.Some? ==> r.value < |columns| && columns[r.value] == column && column !in columns[..r.value]
  {
    if columns == [] then None
    else if columns[0] == column then Some(0)
    else
      var rest := ColumnIndex(columns[1..], column);
      if rest.Some? then Some(rest.value + 1) else None
  }

  function ColumnValue(schema: Schema, row: QueryRow, c: Column): Result<Value, ExecutorError> {
    var found := FindTableRow(row, c.instance);
    if found.None? then Err(TableInstanceNotFound)
    else if c.table !in schema then Err(TableNotFound)
    else
      var i := ColumnIndex(schema[c.table], c.column);
      if i.None? || i.value >= |found.value.values| then Err(ColumnNotFound)
      else Ok(found.value.values[i.value])
  }

  /** The column has a value in every row that has its table instance. */
  ghost predicate Resolves(schema: Schema, rows: seq<QueryRow>, c: Column) {
    forall i :: 0 <= i < |rows| && Has(rows[i], c.instance) ==> ColumnValue(schema, rows[i], c).Ok?
  }

  /** Side by side, a row of either side is found as before. */
  lemma {:induction false} FindInJoined(left: QueryRow, right: QueryRow, instance: nat)
    ensures FindTableRow(left + right, instance)
          == if Has(left, instance) then FindTableRow(left, instance) else FindTableRow(right, instance)
  {
    if left == [] {
      assert left + right == right;
    } else {
      assert (left + right)[1..] == left[1..] + right;
      FindInJoined(left[1..], right, instance);
    }
  }

  lemma ValueInJoined(schema: Schema, left: QueryRow, right: QueryRow, c: Column)
    ensures ColumnValue(schema, left + right, c)
          == if Has(left, c.instance) then ColumnValue(schema, left, c) else ColumnValue(schema, right, c)
  {
    FindInJoined(left, right, c.instance);
  }
}
