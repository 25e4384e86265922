/** Comparisons and column values in plain terms. */
module RowMeaning {
  import opened Wrappers
  import opened Keys
  import opened KeyOrder
  import opened Rows

  // ---------- comparisons ----------

  predicate Related(x: int, op: Operator, y: int) {
    match op
    case Equals => x == y
    case NotEquals => x != y
    case LessThan => x < y
    case GreaterThan => x > y
    case AtMost => x <= y
    case AtLeast => x >= y
  }

  ghost predicate StringsRelated(x: seq<Byte>, op: Operator, y: seq<Byte>) {
    match op
    case Equals => x == y
    case NotEquals => x != y
    case LessThan => BytesBefore(x, y)
    case GreaterThan => BytesBefore(y, x)
    case AtMost => x == y || BytesBefore(x, y)
    case AtLeast => x == y || BytesBefore(y, x)
  }

  /** Numbers compare by size, false is before true, strings compare byte by byte.
      Values of different types are unequal and nothing else, and NULL does not
      even equal itself. */
  ghost predicate Meets(a: Value, op: Operator, b: Value) {
    match (a, b)
    case (Some(Int(x)), Some(Int(y))) => Related(x, op, y)
    case (Some(BigInt(x)), Some(BigInt(y))) => Related(x, op, y)
    case (Some(Boolean(x)), Some(Boolean(y))) => Related(if x then 1 else 0, op, if y then 1 else 0)
    case (Some(Varchar(x)), Some(Varchar(y))) => StringsRelated(x, op, y)
    case (Some(_), Some(_)) => op == NotEquals
    case _ => false
  }

  lemma HoldsMeans(a: Value, op: Operator, b: Value)
    ensures Holds(a, op, b) <==> Meets(a, op, b)
  {
    if a.Some? && b.Some? {
      CompareMeans(a.value, b.value);
    }
  }

  /** The order of ORDER BY: NULL comes last. */
  ghost predicate NotAfter(a: Value, b: Value) {
    b.None? || (a.Some? && (a == b || Before(a.value, b.value)))
  }

  // ---------- columns ----------

  /** The first part of the row with the table instance. */
  ghost predicate PartAt(row: QueryRow, instance: nat, i: int) {
    0 <= i < |row| && row[i].instance == instance && forall j :: 0 <= j < i ==> row[j].instance != instance
  }

  /** The first place where the table has the column. */
  ghost predicate ColumnAt(schema: Schema, table: nat, column: nat, k: int) {
    && table in schema && 0 <= k < |schema[table]|
    && schema[table][k] == column && forall j :: 0 <= j < k ==> schema[table][j] != column
  }

  /** What the row says of a table instance. */
  ghost predicate HasPart(row: QueryRow, instance: nat, x: TableRow) {
    exists i :: PartAt(row, instance, i) && row[i] == x
  }

  /** The value of a column of the row. */
  ghost predicate HasValue(schema: Schema, row: QueryRow, c: Column, v: Value) {
    exists x, k: nat :: HasPart(row, c.instance, x) && ColumnAt(schema, c.table, c.column, k)
                   && k < |x.values| && x.values[k] == v
  }

  lemma {:induction false} PartAtFound(row: QueryRow, instance: nat, i: int)
    requires PartAt(row, instance, i)
    ensures FindTableRow(row, instance) == Some(row[i])
  {
    if i > 0 {
      PartAtFound(row[1..], instance, i - 1);
    }
  }

  lemma {:induction false} FoundPartAt(row: QueryRow, instance: nat) returns (i: nat)
    requires Has(row, instance)
    ensures PartAt(row, instance, i) && FindTableRow(row, instance) == Some(row[i])
  {
    if row[0].instance == instance {
      i := 0;
    } else {
      var j := FoundPartAt(row[1..], instance);
      i := j + 1;
    }
  }

  lemma FindMeans(row: QueryRow, instance: nat, x: TableRow)
    ensures FindTableRow(row, instance) == Some(x) <==> HasPart(row, instance, x)
  {
    if FindTableRow(row, instance) == Some(x) {
      var i := FoundPartAt(row, instance);
    }
    if HasPart(row, instance, x) {
      var i :| PartAt(row, instance, i) && row[i] == x;
      PartAtFound(row, instance, i);
    }
  }

  lemma {:induction false} FirstColumn(columns: seq<nat>, column: nat, k: nat)
    requires k < |columns| && columns[k] == column && forall j :: 0 <= j < k ==> columns[j] != column
    ensures ColumnIndex(columns, column) == Some(k)
  {
    if k > 0 {
      FirstColumn(columns[1..], column, k - 1);
    }
  }

  lemma IndexMeans(schema: Schema, table: nat, column: nat, k: nat)
    requires table in schema
    ensures ColumnIndex(schema[table], column) == Some(k) <==> ColumnAt(schema, table, column, k)
  {
    if ColumnIndex(schema[table], column) == Some(k) {
      forall j | 0 <= j < k ensures schema[table][j] != column {
        assert schema[table][..k][j] == schema[table][j];
      }
    }
    if ColumnAt(schema, table, column, k) {
      FirstColumn(schema[table], column, k);
    }
  }

  lemma ColumnValueMeans(schema: Schema, row: QueryRow, c: Column, v: Value)
    ensures ColumnValue(schema, row, c) == Ok(v) <==> HasValue(schema, row, c, v)
  {
    hide HasPart, ColumnAt;
    if ColumnValue(schema, row, c) == Ok(v) {
      var x := FindTableRow(row, c.instance).value;
      var k := ColumnIndex(schema[c.table], c.column).value;
      FindMeans(row, c.instance, x);
      IndexMeans(schema, c.table, c.column, k);
      assert HasPart(row, c.instance, x) && ColumnAt(schema, c.table, c.column, k);
    }
    if HasValue(schema, row, c, v) {
      var x, k: nat :| HasPart(row, c.instance, x) && ColumnAt(schema, c.table, c.column, k)
        && k < |x.values| && x.values[k] == v;
      FindMeans(row, c.instance, x);
      InTable(schema, c.table, c.column, k);
      IndexMeans(schema, c.table, c.column, k);
    }
  }

  lemma InTable(schema: Schema, table: nat, column: nat, k: nat)
    requires ColumnAt(schema, table, column, k)
    ensures table in schema
  {
  }
}
