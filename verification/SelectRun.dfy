/** Running an accepted SELECT. */
module SelectRun {
  import opened Wrappers
  import opened Keys
  import opened Rows
  import opened RowMeaning
  import opened FromClause
  import opened Pushdown
  import opened Binder
  import opened Select
  import opened Denotation
  import opened Aggregates
  import A = Ast
  import P = Prepare

  // ---------- typed databases ----------

  ghost predicate RowTyped(columns: seq<ColumnMeta>, values: seq<Value>) {
    |columns| == |values| && forall i :: 0 <= i < |columns| ==> HasType(values[i], columns[i].dataType)
  }

  /** The catalog describes the stored rows. */
  ghost predicate Typed(cat: Catalog, db: Database) {
    && db.schema == SchemaOf(cat)
    && forall t, id :: t in db.tables && id in db.tables[t] && TableById(cat, t).Some? ==>
          RowTyped(TableById(cat, t).value.columns, db.tables[t][id])
  }

  /** A bound column has a value of its type in every row that fits. */
  lemma ValueTyped(cat: Catalog, db: Database, from: From, row: QueryRow, c: Column)
    requires Typed(cat, db) && FromBound(db.schema, from) && Fits(db, from, row) && BoundIn(db.schema, from, c)
    ensures ColumnType(cat, c).Ok? && ColumnValue(db.schema, row, c).Ok?
    ensures HasType(ColumnValue(db.schema, row, c).value, ColumnType(cat, c).value)
  {
    P.FitsReads(db, from, row, c);
    SchemaAt(cat, c.table);
    var meta := TableById(cat, c.table).value;
    IndexOfId(meta.columns, c.column);
    var x := FindTableRow(row, c.instance).value;
    assert RowTyped(meta.columns, db.tables[c.table][x.id]);
  }

  lemma TypedIsOfType(v: Value, t: A.DataType)
    requires HasType(v, t)
    ensures OfType(v, KeyTypeOf(t))
    ensures t.IntType? || t.BigIntType? ==> IsNumber(v)
  {
  }

  // ---------- projecting ----------

  function AllValues(row: QueryRow): seq<Value> {
    if row == [] then [] else AllValues(row[..|row| - 1]) + row[|row| - 1].values
  }

  function Project(schema: Schema, row: QueryRow, ps: seq<Projection>): Result<seq<Value>, SelectError> {
    if ps == [] then Ok([])
    else
      var before :- Project(schema, row, ps[..|ps| - 1]);
      match ps[|ps| - 1]
      case AllColumns => Ok(before + AllValues(row))
      case OneColumn(c) =>
        var v := ColumnValue(schema, row, c);
        if v.Err? then Err(SelectError.Executor(v.error)) else Ok(before + [v.value])
      case _ => Err(Unsupported)
  }

  ghost function Flatten<X>(xss: seq<seq<X>>): seq<X> {
    if xss == [] then [] else Flatten(xss[..|xss| - 1]) + xss[|xss| - 1]
  }

  /** Where a part begins: after all that come before it. */
  ghost function Offset<X>(xss: seq<seq<X>>, t: nat): nat
    requires t <= |xss|
  {
    if t == 0 then 0 else Offset(xss, t - 1) + |xss[t - 1]|
  }

  lemma {:induction false} OffsetPrefix<X>(xss: seq<seq<X>>, n: nat, t: nat)
    requires t <= n <= |xss|
    ensures Offset(xss[..n], t) == Offset(xss, t)
  {
    if t > 0 {
      OffsetPrefix(xss, n, t - 1);
    }
  }

  lemma {:induction false} FlattenLength<X>(xss: seq<seq<X>>)
    ensures |Flatten(xss)| == Offset(xss, |xss|)
    decreases |xss|
  {
    if xss == [] {
    } else {
      FlattenLength(xss[..|xss| - 1]);
      OffsetPrefix(xss, |xss| - 1, |xss| - 1);
    }
  }

  /** Each part has its items in its place, in order. */
  lemma {:induction false} FlattenAt<X>(xss: seq<seq<X>>, t: nat, k: nat)
    requires t < |xss| && k < |xss[t]|
    ensures Offset(xss, t) + k < |Flatten(xss)| && Flatten(xss)[Offset(xss, t) + k] == xss[t][k]
    decreases |xss|
  {
    var n := |xss| - 1;
    FlattenLength(xss[..n]);
    OffsetPrefix(xss, n, n);
    if t < n {
      FlattenAt(xss[..n], t, k);
      OffsetPrefix(xss, n, t);
    }
  }

  function Parts(row: QueryRow): (parts: seq<seq<Value>>)
    ensures |parts| == |row| && forall t :: 0 <= t < |row| ==> parts[t] == row[t].values
  {
    seq(|row|, t requires 0 <= t < |row| => row[t].values)
  }

  /** The values of the tables one after the other, the first table first. */
  lemma {:induction false} AllValuesMeans(row: QueryRow)
    ensures AllValues(row) == Flatten(Parts(row))
  {
    if row == [] {
    } else {
      var n := |row| - 1;
      AllValuesMeans(row[..n]);
      assert Parts(row)[..n] == Parts(row[..n]);
    }
  }

  /** What one projection shows of a row. */
  ghost predicate Shows(schema: Schema, row: QueryRow, p: Projection, shown: seq<Value>) {
    match p
    case AllColumns => shown == Flatten(Parts(row))
    case OneColumn(c) => |shown| == 1 && HasValue(schema, row, c, shown[0])
    case _ => false
  }

  ghost predicate AllShow(schema: Schema, row: QueryRow, ps: seq<Projection>, shown: seq<seq<Value>>) {
    |shown| == |ps| && forall i :: 0 <= i < |ps| ==> Shows(schema, row, ps[i], shown[i])
  }

  /** What the projections show, one after the other. */
  ghost predicate ShowsAs(schema: Schema, row: QueryRow, ps: seq<Projection>, values: seq<Value>) {
    exists shown :: AllShow(schema, row, ps, shown) && values == Flatten(shown)
  }

  lemma {:induction false} ProjectMeans(schema: Schema, row: QueryRow, ps: seq<Projection>)
    requires Project(schema, row, ps).Ok?
    ensures ShowsAs(schema, row, ps, Project(schema, row, ps).value)
  {
    hide ColumnValue, HasValue, AllValues, Parts;
    if ps == [] {
      assert AllShow(schema, row, ps, []) && Flatten<Value>([]) == [];
    } else {
      var n := |ps| - 1;
      ProjectMeans(schema, row, ps[..n]);
      var before :| AllShow(schema, row, ps[..n], before)
        && Project(schema, row, ps[..n]).value == Flatten(before);
      AllValuesMeans(row);
      if ps[n].OneColumn? {
        ColumnValueMeans(schema, row, ps[n].column, ColumnValue(schema, row, ps[n].column).value);
      }
      var last := if ps[n].AllColumns? then AllValues(row) else [ColumnValue(schema, row, ps[n].column).value];
      var shown := before + [last];
      assert shown[..n] == before;
      assert AllShow(schema, row, ps, shown);
    }
  }

  /** Which projections a row allows. */
  ghost predicate Projects(schema: Schema, row: QueryRow, p: Projection) {
    p.AllColumns? || (p.OneColumn? && ColumnValue(schema, row, p.column).Ok?)
  }

  lemma {:induction false} ProjectDefined(schema: Schema, row: QueryRow, ps: seq<Projection>)
    requires forall i :: 0 <= i < |ps| ==> Projects(schema, row, ps[i])
    ensures Project(schema, row, ps).Ok?
  {
    if ps == [] {
    } else {
      ProjectDefined(schema, row, ps[..|ps| - 1]);
      assert Projects(schema, row, ps[|ps| - 1]);
    }
  }

  method ReadAll(row: QueryRow) returns (values: seq<Value>)
    ensures values == AllValues(row)
  {
    values := [];
    var i := 0;
    while i < |row|
      invariant 0 <= i <= |row| && values == AllValues(row[..i])
    {
      assert row[..i + 1][..i] == row[..i];
      values := values + row[i].values;
      i := i + 1;
    }
    assert row[..i] == row;
  }

  method ProjectRow(schema: Schema, row: QueryRow, ps: seq<Projection>) returns (r: Result<seq<Value>, SelectError>)
    requires forall i :: 0 <= i < |ps| ==> Projects(schema, row, ps[i])
    ensures r.Ok? && r == Project(schema, row, ps)
  {
    hide ColumnValue;
    var values := [];
    var i := 0;
    while i < |ps|
      invariant 0 <= i <= |ps| && Project(schema, row, ps[..i]) == Ok(values)
    {
      assert ps[..i + 1][..i] == ps[..i] && Projects(schema, row, ps[i]);
      match ps[i] {
        case AllColumns =>
          var more := ReadAll(row);
          values := values + more;
        case OneColumn(c) =>
          values := values + [ColumnValue(schema, row, c).value];
      }
      i := i + 1;
    }
    assert ps[..i] == ps;
    return Ok(values);
  }

  function Truncate<X>(xs: seq<X>, limit: Option<nat>): seq<X> {
    if limit.Some? && limit.value < |xs| then xs[..limit.value] else xs
  }

  /** The first items, as many as the limit allows. */
  ghost predicate Limited<X>(xs: seq<X>, limit: Option<nat>, out: seq<X>) {
    && |out| == (if limit.Some? && limit.value < |xs| then limit.value else |xs|)
    && forall i :: 0 <= i < |out| ==> out[i] == xs[i]
  }

  method ProjectRows(schema: Schema, rows: seq<QueryRow>, ps: seq<Projection>) returns (results: seq<seq<Value>>)
    requires forall j, i :: 0 <= j < |rows| && 0 <= i < |ps| ==> Projects(schema, rows[j], ps[i])
    ensures |results| == |rows| && forall j :: 0 <= j < |rows| ==> ShowsAs(schema, rows[j], ps, results[j])
  {
    hide Project, ShowsAs;
    results := [];
    var j := 0;
    while j < |rows|
      invariant 0 <= j <= |rows| && |results| == j
      invariant forall k :: 0 <= k < j ==> ShowsAs(schema, rows[k], ps, results[k])
    {
      var values := ProjectRow(schema, rows[j], ps);
      ProjectMeans(schema, rows[j], ps);
      results := results + [values.value];
      j := j + 1;
    }
  }

  // ---------- aggregating ----------

  function Position(groupBy: seq<Column>, c: Column): (r: Option<nat>)
    ensures r.Some? <==> c in groupBy
    ensures r.Some? ==> r.value < |groupBy| && groupBy[r.value] == c
  {
    if groupBy == [] then None
    else if groupBy[0] == c then Some(0)
    else
      var rest := Position(groupBy[1..], c);
      if rest.Some? then Some(rest.value + 1) else None
  }

  /** What a projection says of a group: a column of its key, the number of its
      rows, or the sum of the values that are not NULL. */
  ghost predicate Says(schema: Schema, group: Group, groupBy: seq<Column>, p: Projection, v: Value) {
    match p
    case OneColumn(c) => c in groupBy && Position(groupBy, c).value < |group.key|
        && v == group.key[Position(groupBy, c).value]
    case CountAll => !TooWide(|group.rows|) && v == Some(BigInt(|group.rows|))
    case Sum(c) =>
      && Summable(schema, group.rows, c)
      && var ns := Numbers(schema, group.rows, c);
         if ns == [] then v == None else !TooWide(Total(ns)) && v == Some(BigInt(Total(ns)))
    case AllColumns => false
  }

  ghost predicate Ready(schema: Schema, group: Group, groupBy: seq<Column>, p: Projection) {
    && Groupable(p, groupBy) && |group.key| == |groupBy|
    && (p.Sum? ==> Summable(schema, group.rows, p.addend))
  }

  /** The only ways an aggregate can fail. */
  ghost predicate OutOfRange(schema: Schema, group: Group, p: Projection) {
    || (p.CountAll? && TooWide(|group.rows|))
    || (p.Sum? && Summable(schema, group.rows, p.addend) && Overflows(Numbers(schema, group.rows, p.addend)))
  }

  ghost function Complaint(p: Projection): SelectError {
    if p.CountAll? then CountOutOfRange else SumOverflow
  }

  /** Some number in the summary of a group leaves the range. */
  ghost predicate LeavesRange(schema: Schema, group: Group, ps: seq<Projection>) {
    exists i :: 0 <= i < |ps| && OutOfRange(schema, group, ps[i])
  }

  method AggregateOne(schema: Schema, group: Group, groupBy: seq<Column>, p: Projection)
    returns (r: Result<Value, SelectError>)
    requires Ready(schema, group, groupBy, p)
    ensures r.Ok? ==> Says(schema, group, groupBy, p, r.value)
    ensures r.Err? <==> OutOfRange(schema, group, p)
    ensures r.Err? ==> r.error == Complaint(p)
  {
    match p
    case OneColumn(c) =>
      return Ok(group.key[Position(groupBy, c).value]);
    case CountAll =>
      if !InInt64(|group.rows|) {
        return Err(CountOutOfRange);
      }
      return Ok(Some(BigInt(|group.rows|)));
    case Sum(c) =>
      r := SumColumn(schema, group.rows, c);
  }

  method AggregateGroup(schema: Schema, group: Group, groupBy: seq<Column>, ps: seq<Projection>)
    returns (r: Result<seq<Value>, SelectError>)
    requires forall i :: 0 <= i < |ps| ==> Ready(schema, group, groupBy, ps[i])
    ensures r.Ok? ==> |r.value| == |ps| && forall i :: 0 <= i < |ps| ==> Says(schema, group, groupBy, ps[i], r.value[i])
    ensures r.Err? <==> LeavesRange(schema, group, ps)
    ensures r.Err? ==> exists i :: 0 <= i < |ps| && OutOfRange(schema, group, ps[i]) && r.error == Complaint(ps[i])
  {
    hide Says, Ready, OutOfRange;
    var values := [];
    var i := 0;
    while i < |ps|
      invariant 0 <= i <= |ps| && |values| == i
                && forall k :: 0 <= k < i ==>
                     Says(schema, group, groupBy, ps[k], values[k]) && !OutOfRange(schema, group, ps[k])
    {
      var v := AggregateOne(schema, group, groupBy, ps[i]);
      if v.Err? {
        return Err(v.error);
      }
      values := values + [v.value];
      i := i + 1;
    }
    return Ok(values);
  }

  ghost predicate Summary(schema: Schema, group: Group, groupBy: seq<Column>, ps: seq<Projection>, values: seq<Value>) {
    |values| == |ps| && forall i :: 0 <= i < |ps| ==> Says(schema, group, groupBy, ps[i], values[i])
  }

  method AggregateGroups(schema: Schema, groups: seq<Group>, groupBy: seq<Column>, ps: seq<Projection>)
    returns (r: Result<seq<seq<Value>>, SelectError>)
    requires forall j, i :: 0 <= j < |groups| && 0 <= i < |ps| ==> Ready(schema, groups[j], groupBy, ps[i])
    ensures r.Ok? ==> |r.value| == |groups| && forall j :: 0 <= j < |groups| ==>
              Summary(schema, groups[j], groupBy, ps, r.value[j])
    ensures r.Err? <==> exists j :: 0 <= j < |groups| && LeavesRange(schema, groups[j], ps)
    ensures r.Err? ==> r.error in {CountOutOfRange, SumOverflow}
  {
    hide Ready;
    var results := [];
    var j := 0;
    while j < |groups|
      invariant 0 <= j <= |groups| && |results| == j
                && forall k :: 0 <= k < j ==>
                     Summary(schema, groups[k], groupBy, ps, results[k]) && !LeavesRange(schema, groups[k], ps)
    {
      var values := AggregateGroup(schema, groups[j], groupBy, ps);
      if values.Err? {
        return Err(values.error);
      }
      results := results + [values.value];
      j := j + 1;
    }
    return Ok(results);
  }

  // ---------- ordering ----------

  function Items<X>(xs: seq<Keyed<X>>): (ys: seq<X>)
    ensures |ys| == |xs| && forall i :: 0 <= i < |xs| ==> ys[i] == xs[i].x
  {
    seq(|xs|, i requires 0 <= i < |xs| => xs[i].x)
  }

  function Reversed<X>(xs: seq<X>): (ys: seq<X>)
    ensures |ys| == |xs| && forall i :: 0 <= i < |xs| ==> ys[i] == xs[|xs| - 1 - i]
  {
    seq(|xs|, i requires 0 <= i < |xs| => xs[|xs| - 1 - i])
  }

  /** Items in the order of their keys, stably; a descending order is the
      ascending one backwards. */
  ghost predicate OrderedAs<X>(keyed: seq<Keyed<X>>, descending: bool, sorted: seq<Keyed<X>>, out: seq<X>) {
    && SortedKeys(sorted) && (forall v :: KeyedBy(sorted, v) == KeyedBy(keyed, v))
    && out == if descending then Reversed(Items(sorted)) else Items(sorted)
  }

  ghost predicate Among<X>(keyed: seq<Keyed<X>>, x: X) {
    exists j :: 0 <= j < |keyed| && keyed[j].x == x
  }

  method OrderBy<X>(keyed: seq<Keyed<X>>, descending: bool, ghost t: KeyType)
    returns (out: seq<X>, ghost sorted: seq<Keyed<X>>)
    requires forall i :: 0 <= i < |keyed| ==> OfType(keyed[i].key, t)
    ensures OrderedAs(keyed, descending, sorted, out)
    ensures forall i :: 0 <= i < |out| ==> Among(keyed, out[i])
  {
    hide SortedKeys, KeyedBy, OfType, Among;
    var s := SortByKey(keyed, t);
    sorted := s;
    out := if descending then Reversed(Items(s)) else Items(s);
    forall i | 0 <= i < |out| ensures Among(keyed, out[i]) {
      IsAmong(keyed, s, if descending then |s| - 1 - i else i);
    }
  }

  lemma IsAmong<X>(keyed: seq<Keyed<X>>, sorted: seq<Keyed<X>>, k: nat)
    requires multiset(sorted) == multiset(keyed) && k < |sorted|
    ensures Among(keyed, sorted[k].x)
  {
    assert sorted[k] in multiset(sorted) && sorted[k] in keyed;
    var j :| 0 <= j < |keyed| && keyed[j] == sorted[k];
    assert keyed[j].x == sorted[k].x;
  }

  lemma {:induction false} ReversedItems<X>(xs: seq<X>)
    ensures multiset(Reversed(xs)) == multiset(xs)
  {
    if xs == [] {
    } else {
      var n := |xs| - 1;
      ReversedItems(xs[..n]);
      assert Reversed(xs) == [xs[n]] + Reversed(xs[..n]);
      assert xs == xs[..n] + [xs[n]];
    }
  }

  lemma Without<T>(s: seq<T>, j: nat)
    requires j < |s|
    ensures multiset(s) == multiset(s[..j] + s[j + 1..]) + multiset{s[j]}
  {
    assert s == s[..j] + [s[j]] + s[j + 1..];
  }

  lemma ItemsWithout<X>(xs: seq<Keyed<X>>, j: nat)
    requires j < |xs|
    ensures multiset(Items(xs)) == multiset(Items(xs[..j] + xs[j + 1..])) + multiset{xs[j].x}
    ensures multiset(xs) == multiset(xs[..j] + xs[j + 1..]) + multiset{xs[j]}
  {
    Without(xs, j);
    Without(Items(xs), j);
    assert Items(xs[..j] + xs[j + 1..]) == Items(xs)[..j] + Items(xs)[j + 1..];
  }

  lemma Cancel<T>(a: multiset<T>, b: multiset<T>, x: T)
    requires a + multiset{x} == b + multiset{x}
    ensures a == b
  {
    assert a == (a + multiset{x}) - multiset{x} == (b + multiset{x}) - multiset{x} == b;
  }

  lemma {:induction false} SameKeyedItems<X>(xs: seq<Keyed<X>>, ys: seq<Keyed<X>>)
    requires multiset(xs) == multiset(ys)
    ensures multiset(Items(xs)) == multiset(Items(ys))
  {
    hide Items;
    if xs == [] {
      assert |multiset(ys)| == 0;
    } else {
      assert xs[0] in multiset(xs) && xs[0] in ys;
      var j :| 0 <= j < |ys| && ys[j] == xs[0];
      ItemsWithout(xs, 0);
      ItemsWithout(ys, j);
      var rest := ys[..j] + ys[j + 1..];
      assert xs[..0] + xs[1..] == xs[1..];
      Cancel(multiset(xs[1..]), multiset(rest), xs[0]);
      SameKeyedItems(xs[1..], rest);
    }
  }

  /** Which of two items with these keys comes first. */
  ghost predicate InOrder(a: Value, b: Value, descending: bool) {
    if descending then NotAfter(b, a) else NotAfter(a, b)
  }

  /** The item that an ordered list has at a position. */
  ghost function Source<X>(sorted: seq<Keyed<X>>, descending: bool, i: nat): Keyed<X>
    requires i < |sorted|
  {
    sorted[if descending then |sorted| - 1 - i else i]
  }

  /** An ordered list has the same items, and any two of them have their keys in
      order. */
  lemma OrderedMeans<X>(keyed: seq<Keyed<X>>, descending: bool, sorted: seq<Keyed<X>>, out: seq<X>)
    requires OrderedAs(keyed, descending, sorted, out)
    ensures multiset(out) == multiset(Items(keyed)) && |out| == |sorted|
    ensures forall i: nat :: i < |out| ==>
              out[i] == Source(sorted, descending, i).x && Source(sorted, descending, i) in keyed
    ensures forall i: nat, j: nat :: i < j < |out| ==>
              InOrder(Source(sorted, descending, i).key, Source(sorted, descending, j).key, descending)
  {
    hide NotAfter, KeyedBy;
    SameItems(sorted, keyed);
    SameKeyedItems(sorted, keyed);
    ReversedItems(Items(sorted));
    forall i: nat | i < |out| ensures Source(sorted, descending, i) in keyed {
      assert Source(sorted, descending, i) in multiset(sorted);
    }
  }

  // ---------- whole queries ----------

  function KeyedRows(schema: Schema, rows: seq<QueryRow>, c: Column): (keyed: seq<Keyed<QueryRow>>)
    requires forall i :: 0 <= i < |rows| ==> ColumnValue(schema, rows[i], c).Ok?
    ensures |keyed| == |rows|
            && forall i :: 0 <= i < |rows| ==> keyed[i] == Keyed(ColumnValue(schema, rows[i], c).value, rows[i])
  {
    seq(|rows|, i requires 0 <= i < |rows| => Keyed(ColumnValue(schema, rows[i], c).value, rows[i]))
  }

  function KeyedGroups(groups: seq<Group>, k: nat): (keyed: seq<Keyed<Group>>)
    requires forall j :: 0 <= j < |groups| ==> k < |groups[j].key|
    ensures |keyed| == |groups| && forall j :: 0 <= j < |groups| ==> keyed[j] == Keyed(groups[j].key[k], groups[j])
  {
    seq(|groups|, j requires 0 <= j < |groups| => Keyed(groups[j].key[k], groups[j]))
  }

  /** Rows of one database, for one FROM clause. */
  ghost predicate AllFit(db: Database, from: From, rows: seq<QueryRow>) {
    forall i :: 0 <= i < |rows| ==> Fits(db, from, rows[i])
  }

  ghost predicate Runs(cat: Catalog, db: Database, b: BoundSelect) {
    Typed(cat, db) && db.schema == SchemaOf(cat) && Executable(cat, b)
  }

  /** Without grouping: the rows in order, projected, up to the limit. */
  ghost predicate PlainResult(db: Database, b: BoundSelect, rows: seq<QueryRow>, ordered: seq<QueryRow>,
                              sorted: seq<Keyed<QueryRow>>, results: seq<seq<Value>>) {
    && (if b.orderBy.None? then ordered == rows
        else
          && (forall i :: 0 <= i < |rows| ==> ColumnValue(db.schema, rows[i], b.orderBy.value.column).Ok?)
          && OrderedAs(KeyedRows(db.schema, rows, b.orderBy.value.column), b.orderBy.value.descending, sorted, ordered))
    && exists all: seq<seq<Value>> ::
         && |all| == |ordered| && (forall j :: 0 <= j < |ordered| ==>
                                     ShowsAs(db.schema, ordered[j], b.projections, all[j]))
         && Limited(all, b.limit, results)
  }

  /** Of any two rows the values of the column are in order. */
  ghost predicate RowsInOrder(schema: Schema, rows: seq<QueryRow>, c: Column, descending: bool) {
    forall i, j :: 0 <= i < j < |rows| ==> Precedes(schema, rows[i], rows[j], c, descending)
  }

  ghost predicate Precedes(schema: Schema, x: QueryRow, y: QueryRow, c: Column, descending: bool) {
    exists a, b :: HasValue(schema, x, c, a) && HasValue(schema, y, c, b) && InOrder(a, b, descending)
  }

  lemma RowsOrdered(schema: Schema, rows: seq<QueryRow>, c: Column, descending: bool, sorted: seq<Keyed<QueryRow>>,
                    ordered: seq<QueryRow>)
    requires forall i :: 0 <= i < |rows| ==> ColumnValue(schema, rows[i], c).Ok?
    requires OrderedAs(KeyedRows(schema, rows, c), descending, sorted, ordered)
    ensures RowsInOrder(schema, ordered, c, descending) && multiset(ordered) == multiset(rows)
  {
    hide OrderedAs, InOrder, ColumnValue, HasValue;
    var keyed := KeyedRows(schema, rows, c);
    OrderedMeans(keyed, descending, sorted, ordered);
    assert Items(keyed) == rows;
    forall i: nat | i < |ordered| ensures HasValue(schema, ordered[i], c, Source(sorted, descending, i).key) {
      var s := Source(sorted, descending, i);
      var j :| 0 <= j < |keyed| && keyed[j] == s;
      ColumnValueMeans(schema, ordered[i], c, s.key);
    }
    forall i: nat, j: nat | i < j < |ordered| ensures Precedes(schema, ordered[i], ordered[j], c, descending) {
      var a, b := Source(sorted, descending, i).key, Source(sorted, descending, j).key;
      assert HasValue(schema, ordered[i], c, a) && HasValue(schema, ordered[j], c, b) && InOrder(a, b, descending);
    }
  }

  ghost predicate GroupsInOrder(groups: seq<Group>, k: nat, descending: bool) {
    forall i, j :: 0 <= i < j < |groups| ==>
      k < |groups[i].key| && k < |groups[j].key| && InOrder(groups[i].key[k], groups[j].key[k], descending)
  }

  lemma GroupsOrdered(groups: seq<Group>, k: nat, descending: bool, sorted: seq<Keyed<Group>>, ordered: seq<Group>)
    requires forall j :: 0 <= j < |groups| ==> k < |groups[j].key|
    requires OrderedAs(KeyedGroups(groups, k), descending, sorted, ordered)
    ensures GroupsInOrder(ordered, k, descending) && multiset(ordered) == multiset(groups)
  {
    hide OrderedAs, InOrder;
    var keyed := KeyedGroups(groups, k);
    OrderedMeans(keyed, descending, sorted, ordered);
    assert Items(keyed) == groups;
    forall i: nat | i < |ordered|
      ensures k < |ordered[i].key| && Source(sorted, descending, i).key == ordered[i].key[k] {
      var j :| 0 <= j < |keyed| && keyed[j] == Source(sorted, descending, i);
    }
  }

  method OrderRows(cat: Catalog, db: Database, b: BoundSelect, rows: seq<QueryRow>)
    returns (ordered: seq<QueryRow>, ghost sorted: seq<Keyed<QueryRow>>)
    requires Runs(cat, db, b) && AllFit(db, b.from, rows) && b.orderBy.Some?
    ensures AllFit(db, b.from, ordered)
    ensures forall i :: 0 <= i < |rows| ==> ColumnValue(db.schema, rows[i], b.orderBy.value.column).Ok?
    ensures OrderedAs(KeyedRows(db.schema, rows, b.orderBy.value.column), b.orderBy.value.descending, sorted, ordered)
    ensures RowsInOrder(db.schema, ordered, b.orderBy.value.column, b.orderBy.value.descending)
            && multiset(ordered) == multiset(rows)
  {
    hide Fits, BoundIn, FromBound, OrderedAs, Typed, ColumnValue;
    var c := b.orderBy.value.column;
    ghost var t := if ColumnType(cat, c).Ok? then KeyTypeOf(ColumnType(cat, c).value) else IntKey;
    forall i | 0 <= i < |rows|
      ensures ColumnValue(db.schema, rows[i], c).Ok? && OfType(ColumnValue(db.schema, rows[i], c).value, t) {
      ValueTyped(cat, db, b.from, rows[i], c);
      TypedIsOfType(ColumnValue(db.schema, rows[i], c).value, ColumnType(cat, c).value);
    }
    var keyed := KeyedRows(db.schema, rows, c);
    ordered, sorted := OrderBy(keyed, b.orderBy.value.descending, t);
    RowsOrdered(db.schema, rows, c, b.orderBy.value.descending, sorted, ordered);
    forall i | 0 <= i < |ordered| ensures Fits(db, b.from, ordered[i]) {
      assert Among(keyed, ordered[i]);
    }
  }

  lemma RowsProject(cat: Catalog, db: Database, b: BoundSelect, rows: seq<QueryRow>)
    requires Runs(cat, db, b) && AllFit(db, b.from, rows) && !HasAggregate(b.projections)
    ensures forall j, i :: 0 <= j < |rows| && 0 <= i < |b.projections| ==>
              Projects(db.schema, rows[j], b.projections[i])
  {
    forall j, i | 0 <= j < |rows| && 0 <= i < |b.projections| ensures Projects(db.schema, rows[j], b.projections[i]) {
      assert ProjectionBound(cat, b.from, b.projections[i]) && !IsAggregate(b.projections[i]);
      if b.projections[i].OneColumn? {
        ValueTyped(cat, db, b.from, rows[j], b.projections[i].column);
      }
    }
  }

  method SelectPlain(cat: Catalog, db: Database, b: BoundSelect, rows: seq<QueryRow>)
    returns (results: seq<seq<Value>>, ghost ordered: seq<QueryRow>, ghost sorted: seq<Keyed<QueryRow>>)
    requires Runs(cat, db, b) && AllFit(db, b.from, rows) && b.groupBy.None? && !HasAggregate(b.projections)
    ensures PlainResult(db, b, rows, ordered, sorted, results)
  {
    hide OrderedAs, Projects, ShowsAs;
    var inOrder := rows;
    sorted := [];
    if b.orderBy.Some? {
      inOrder, sorted := OrderRows(cat, db, b, rows);
    }
    ordered := inOrder;
    RowsProject(cat, db, b, inOrder);
    var all := ProjectRows(db.schema, inOrder, b.projections);
    results := Truncate(all, b.limit);
  }

  /** With grouping: one summary for every group, in order, up to the limit. */
  ghost predicate GroupedOrder(db: Database, b: BoundSelect, groupBy: seq<Column>, rows: seq<QueryRow>,
                               groups: seq<Group>, ordered: seq<Group>, sorted: seq<Keyed<Group>>) {
    && Grouped(db.schema, rows, groupBy, groups) && InArrival(db.schema, rows, groupBy, groups)
    && (if b.orderBy.None? then ordered == groups
        else
          && b.orderBy.value.column in groupBy
          && (forall j :: 0 <= j < |groups| ==> Position(groupBy, b.orderBy.value.column).value < |groups[j].key|)
          && OrderedAs(KeyedGroups(groups, Position(groupBy, b.orderBy.value.column).value), b.orderBy.value.descending,
                       sorted, ordered))
  }

  ghost predicate GroupedResult(db: Database, b: BoundSelect, groupBy: seq<Column>, ordered: seq<Group>,
                                results: seq<seq<Value>>) {
    exists all: seq<seq<Value>> ::
      && |all| == |ordered| && (forall j :: 0 <= j < |ordered| ==>
                                  Summary(db.schema, ordered[j], groupBy, b.projections, all[j]))
      && Limited(all, b.limit, results)
  }

  /** One summary for every group, in order, unless some number leaves the range;
      the limit comes last. */
  ghost predicate GroupedOutcome(db: Database, b: BoundSelect, rows: seq<QueryRow>, groups: seq<Group>,
                                 ordered: seq<Group>, sorted: seq<Keyed<Group>>,
                                 r: Result<seq<seq<Value>>, SelectError>)
    requires b.groupBy.Some?
  {
    && GroupedOrder(db, b, b.groupBy.value, rows, groups, ordered, sorted)
    && (r.Err? <==> exists j :: 0 <= j < |ordered| && LeavesRange(db.schema, ordered[j], b.projections))
    && (r.Ok? ==> GroupedResult(db, b, b.groupBy.value, ordered, r.value))
  }

  lemma {:induction false} KeyDefined(cat: Catalog, db: Database, from: From, row: QueryRow, groupBy: seq<Column>)
    requires Typed(cat, db) && FromBound(db.schema, from) && Fits(db, from, row)
    requires forall i :: 0 <= i < |groupBy| ==> BoundIn(db.schema, from, groupBy[i])
    ensures var k := KeyOf(db.schema, row, groupBy);
            && k.Ok? && |k.value| == |groupBy|
            && forall i :: 0 <= i < |groupBy| ==> KeyColumnTyped(cat, groupBy[i], k.value[i])
    decreases |groupBy|
  {
    hide Typed, FromBound, Fits, BoundIn, ColumnValue, ColumnType, HasType;
    if groupBy == [] {
    } else {
      var n := |groupBy| - 1;
      KeyDefined(cat, db, from, row, groupBy[..n]);
      ValueTyped(cat, db, from, row, groupBy[n]);
    }
  }

  ghost predicate KeyColumnTyped(cat: Catalog, c: Column, v: Value) {
    ColumnType(cat, c).Ok? && HasType(v, ColumnType(cat, c).value)
  }

  ghost predicate GroupTyped(cat: Catalog, db: Database, from: From, groupBy: seq<Column>, g: Group) {
    && |g.key| == |groupBy| && AllFit(db, from, g.rows)
    && forall i :: 0 <= i < |groupBy| ==> KeyColumnTyped(cat, groupBy[i], g.key[i])
  }

  lemma {:induction false} WithKeyMember(schema: Schema, rows: seq<QueryRow>, groupBy: seq<Column>, key: seq<Value>,
                                         row: QueryRow)
    requires row in WithKey(schema, rows, groupBy, key)
    ensures row in rows && KeyOf(schema, row, groupBy) == Ok(key)
  {
    var n := |rows| - 1;
    if row in WithKey(schema, rows[..n], groupBy, key) {
      WithKeyMember(schema, rows[..n], groupBy, key, row);
    }
  }

  lemma GroupsTyped(cat: Catalog, db: Database, from: From, rows: seq<QueryRow>, groupBy: seq<Column>,
                    groups: seq<Group>)
    requires Typed(cat, db) && FromBound(db.schema, from) && AllFit(db, from, rows)
    requires forall i :: 0 <= i < |groupBy| ==> BoundIn(db.schema, from, groupBy[i])
    requires Grouped(db.schema, rows, groupBy, groups)
    ensures forall j :: 0 <= j < |groups| ==> GroupTyped(cat, db, from, groupBy, groups[j])
  {
    hide Fits, BoundIn, FromBound, Typed, KeyOf, KeyColumnTyped, HasGroup;
    forall j | 0 <= j < |groups| ensures GroupTyped(cat, db, from, groupBy, groups[j]) {
      forall i | 0 <= i < |groups[j].rows| ensures Fits(db, from, groups[j].rows[i]) {
        assert groups[j].rows[i] in WithKey(db.schema, rows, groupBy, groups[j].key);
        WithKeyMember(db.schema, rows, groupBy, groups[j].key, groups[j].rows[i]);
      }
      var row := groups[j].rows[0];
      assert row in WithKey(db.schema, rows, groupBy, groups[j].key);
      WithKeyMember(db.schema, rows, groupBy, groups[j].key, row);
      KeyDefined(cat, db, from, row, groupBy);
    }
  }

  lemma GroupsReady(cat: Catalog, db: Database, b: BoundSelect, groupBy: seq<Column>, groups: seq<Group>)
    requires Runs(cat, db, b) && (HasAggregate(b.projections) || b.groupBy.Some?)
    requires groupBy == if b.groupBy.Some? then b.groupBy.value else []
    requires forall j :: 0 <= j < |groups| ==> |groups[j].key| == |groupBy| && AllFit(db, b.from, groups[j].rows)
    ensures forall j, i :: 0 <= j < |groups| && 0 <= i < |b.projections| ==>
              Ready(db.schema, groups[j], groupBy, b.projections[i])
  {
    forall j, i | 0 <= j < |groups| && 0 <= i < |b.projections|
      ensures Ready(db.schema, groups[j], groupBy, b.projections[i]) {
      var p := b.projections[i];
      assert Groupable(p, groupBy) && ProjectionBound(cat, b.from, p);
      if p.Sum? {
        RowsSummable(cat, db, b.from, groups[j].rows, p.addend);
      }
    }
  }

  lemma RowsSummable(cat: Catalog, db: Database, from: From, rows: seq<QueryRow>, c: Column)
    requires Typed(cat, db) && FromBound(db.schema, from) && AllFit(db, from, rows)
             && ProjectionBound(cat, from, Sum(c))
    ensures Summable(db.schema, rows, c)
  {
    forall i | 0 <= i < |rows|
      ensures ColumnValue(db.schema, rows[i], c).Ok? && IsNumber(ColumnValue(db.schema, rows[i], c).value) {
      ValueTyped(cat, db, from, rows[i], c);
      TypedIsOfType(ColumnValue(db.schema, rows[i], c).value, ColumnType(cat, c).value);
    }
  }

  method OrderGroups(cat: Catalog, db: Database, b: BoundSelect, groups: seq<Group>)
    returns (ordered: seq<Group>, ghost sorted: seq<Keyed<Group>>)
    requires Runs(cat, db, b) && b.orderBy.Some? && b.groupBy.Some?
    requires forall j :: 0 <= j < |groups| ==> GroupTyped(cat, db, b.from, b.groupBy.value, groups[j])
    ensures forall j :: 0 <= j < |ordered| ==> GroupTyped(cat, db, b.from, b.groupBy.value, ordered[j])
    ensures b.orderBy.value.column in b.groupBy.value
    ensures forall j :: 0 <= j < |groups| ==> Position(b.groupBy.value, b.orderBy.value.column).value < |groups[j].key|
    ensures OrderedAs(KeyedGroups(groups, Position(b.groupBy.value, b.orderBy.value.column).value),
                      b.orderBy.value.descending, sorted, ordered)
    ensures GroupsInOrder(ordered, Position(b.groupBy.value, b.orderBy.value.column).value, b.orderBy.value.descending)
            && multiset(ordered) == multiset(groups)
  {
    hide OrderedAs, AllFit, Typed, FromBound, BoundIn;
    var c := b.orderBy.value.column;
    var k := Position(b.groupBy.value, c).value;
    ghost var t := if ColumnType(cat, c).Ok? then KeyTypeOf(ColumnType(cat, c).value) else IntKey;
    forall j | 0 <= j < |groups| ensures k < |groups[j].key| && OfType(groups[j].key[k], t) {
      assert GroupTyped(cat, db, b.from, b.groupBy.value, groups[j]) && KeyColumnTyped(cat, c, groups[j].key[k]);
      TypedIsOfType(groups[j].key[k], ColumnType(cat, c).value);
    }
    var keyed := KeyedGroups(groups, k);
    ordered, sorted := OrderBy(keyed, b.orderBy.value.descending, t);
    GroupsOrdered(groups, k, b.orderBy.value.descending, sorted, ordered);
    forall j | 0 <= j < |ordered| ensures GroupTyped(cat, db, b.from, b.groupBy.value, ordered[j]) {
      assert Among(keyed, ordered[j]);
    }
  }

  method SelectGrouped(cat: Catalog, db: Database, b: BoundSelect, rows: seq<QueryRow>)
    returns (r: Result<seq<seq<Value>>, SelectError>, ghost groups: seq<Group>, ghost ordered: seq<Group>,
             ghost sorted: seq<Keyed<Group>>)
    requires Runs(cat, db, b) && AllFit(db, b.from, rows) && b.groupBy.Some?
    ensures GroupedOutcome(db, b, rows, groups, ordered, sorted, r)
    ensures r.Err? ==> r.error in {CountOutOfRange, SumOverflow}
  {
    hide OrderedAs, Grouped, InArrival, Typed, FromBound, BoundIn, Fits, Ready, KeyOf, KeyColumnTyped;
    forall i | 0 <= i < |rows| ensures KeyOf(db.schema, rows[i], b.groupBy.value).Ok? {
      KeyDefined(cat, db, b.from, rows[i], b.groupBy.value);
    }
    var grouped := GroupRows(db.schema, rows, b.groupBy.value);
    groups := grouped.value;
    GroupsTyped(cat, db, b.from, rows, b.groupBy.value, groups);
    var inOrder := grouped.value;
    sorted := [];
    if b.orderBy.Some? {
      inOrder, sorted := OrderGroups(cat, db, b, grouped.value);
    }
    ordered := inOrder;
    GroupsReady(cat, db, b, b.groupBy.value, inOrder);
    var all := AggregateGroups(db.schema, inOrder, b.groupBy.value, b.projections);
    if all.Err? {
      return Err(all.error), groups, ordered, sorted;
    }
    r := Ok(Truncate(all.value, b.limit));
  }

  /** One summary of all rows, if the limit allows any. */
  ghost predicate AggregateResult(db: Database, b: BoundSelect, rows: seq<QueryRow>, results: seq<seq<Value>>) {
    exists values: seq<Value> :: Summary(db.schema, Group([], rows), [], b.projections, values)
        && Limited([values], b.limit, results)
  }

  method SelectAggregate(cat: Catalog, db: Database, b: BoundSelect, rows: seq<QueryRow>)
    returns (r: Result<seq<seq<Value>>, SelectError>)
    requires Runs(cat, db, b) && AllFit(db, b.from, rows) && b.groupBy.None? && HasAggregate(b.projections)
    ensures r.Ok? ==> AggregateResult(db, b, rows, r.value)
    ensures r.Err? <==> LeavesRange(db.schema, Group([], rows), b.projections)
    ensures r.Err? ==> r.error in {CountOutOfRange, SumOverflow}
  {
    if b.orderBy.Some? {
      return Err(Unsupported);
    }
    var groups := [Group([], rows)];
    GroupsReady(cat, db, b, [], groups);
    var all := AggregateGroups(db.schema, groups, [], b.projections);
    if all.Err? {
      return Err(all.error);
    }
    assert all.value == [all.value[0]];
    r := Ok(Truncate(all.value, b.limit));
  }

  /** What a SELECT returns, given the rows that it is about. */
  ghost predicate Answers(db: Database, b: BoundSelect, rows: seq<QueryRow>,
                          r: Result<seq<seq<Value>>, SelectError>) {
    && Selects(db, b.from, b.filter, rows)
    && (r.Err? ==> r.error in {CountOutOfRange, SumOverflow})
    && if b.groupBy.Some? then
         exists groups, ordered, sorted :: GroupedOutcome(db, b, rows, groups, ordered, sorted, r)
       else if HasAggregate(b.projections) then
         && (r.Err? <==> LeavesRange(db.schema, Group([], rows), b.projections))
         && (r.Ok? ==> AggregateResult(db, b, rows, r.value))
       else
         r.Ok? && exists ordered, sorted :: PlainResult(db, b, rows, ordered, sorted, r.value)
  }

  /** An accepted SELECT runs to the end on a typed database: it reads the rows
      that it is about, and fails exactly if a count or a sum leaves the range. */
  method ExecuteSelect(cat: Catalog, db: Database, b: BoundSelect)
    returns (r: Result<seq<seq<Value>>, SelectError>)
    requires DatabaseOk(db) && Runs(cat, db, b)
    ensures exists rows :: Answers(db, b, rows, r)
  {
    hide PlainResult, GroupedOutcome, AggregateResult, Selects, DatabaseOk, Fits, Typed, LeavesRange;
    var found := SelectRows(db, b.from, b.filter);
    var matching := found.value;
    SelectedFit(db, b.from, b.filter, matching);
    if b.groupBy.Some? {
      ghost var groups, ordered, sorted;
      r, groups, ordered, sorted := SelectGrouped(cat, db, b, matching);
    } else if HasAggregate(b.projections) {
      r := SelectAggregate(cat, db, b, matching);
    } else {
      var results;
      ghost var ordered, sorted;
      results, ordered, sorted := SelectPlain(cat, db, b, matching);
      r := Ok(results);
    }
    assert Answers(db, b, matching, r);
  }

  /** Binding and running a SELECT: it is refused exactly if it means nothing in
      the catalog; once it is bound, nothing but an overflow can go wrong. */
  method Query(cat: Catalog, db: Database, bytes: string -> seq<Byte>, s: A.SelectStatement)
    returns (r: Result<Result<seq<seq<Value>>, SelectError>, BinderError>)
    requires DatabaseOk(db) && Typed(cat, db)
    ensures r.Err? <==> forall b :: !SelectIs(cat, bytes, s, b)
    ensures r.Ok? ==> exists b, rows :: SelectIs(cat, bytes, s, b) && Answers(db, b, rows, r.value)
  {
    hide DatabaseOk, BindSelect, SelectIs, Executable, Answers;
    forall b ensures BindSelect(cat, bytes, s) == Ok(b) <==> SelectIs(cat, bytes, s, b) {
      SelectMeans(cat, bytes, s, b);
    }
    match BindSelect(cat, bytes, s) {
      case Err(e) => return Err(e);
      case Ok(b) =>
        SelectMeans(cat, bytes, s, b);
        BindSelectExecutable(cat, bytes, s);
        var results := ExecuteSelect(cat, db, b);
        return Ok(results);
    }
  }
}
