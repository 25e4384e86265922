/** SELECT from end to end: what the binder accepts runs to the end, except that
    a count or a sum may leave the range of 64-bit integers. */
module Select {
  import opened Wrappers
  import opened Keys
  import opened Rows
  import opened FromClause
  import opened Binder
  import A = Ast

  datatype Projection = AllColumns | OneColumn(column: Column) | CountAll | Sum(addend: Column)

  datatype Order = Order(column: Column, descending: bool)

  datatype BoundSelect = BoundSelect(projections: seq<Projection>, from: From, filter: Option<Expression>,
                                     groupBy: Option<seq<Column>>, orderBy: Option<Order>, limit: Option<nat>)

  datatype SelectError = Executor(error: ExecutorError) | Unsupported | SumOverflow | CountOutOfRange

  // ---------- binding ----------

  function BindProjection(cat: Catalog, tables: seq<BoundTable>, p: A.Projection): Result<Projection, BinderError> {
    match p
    case All => Ok(AllColumns)
    case Expression(e) =>
      if !e.Column? then Err(InvalidProjectionExpression)
      else
        var c :- BindColumn(cat, tables, e.column);
        Ok(OneColumn(c))
    case Aggregate(CountAll) => Ok(CountAll)
    case Aggregate(Sum(column)) =>
      var c :- BindColumn(cat, tables, column);
      var t :- ColumnType(cat, c);
      if t.IntType? || t.BigIntType? then Ok(Sum(c)) else Err(UnsupportedAggregateType)
  }

  function BindProjections(cat: Catalog, tables: seq<BoundTable>, ps: seq<A.Projection>):
      Result<seq<Projection>, BinderError> {
    if ps == [] then Ok([])
    else
      var first :- BindProjection(cat, tables, ps[0]);
      var rest :- BindProjections(cat, tables, ps[1..]);
      Ok([first] + rest)
  }

  function BindColumns(cat: Catalog, tables: seq<BoundTable>, cs: seq<A.ColumnReference>):
      Result<seq<Column>, BinderError> {
    if cs == [] then Ok([])
    else
      var first :- BindColumn(cat, tables, cs[0]);
      var rest :- BindColumns(cat, tables, cs[1..]);
      Ok([first] + rest)
  }

  function BindGroupBy(cat: Catalog, tables: seq<BoundTable>, cs: Option<seq<A.ColumnReference>>):
      Result<Option<seq<Column>>, BinderError> {
    if cs.None? then Ok(None)
    else
      var columns :- BindColumns(cat, tables, cs.value);
      Ok(Some(columns))
  }

  function BindOrderBy(cat: Catalog, tables: seq<BoundTable>, o: Option<A.OrderBy>):
      Result<Option<Order>, BinderError> {
    if o.None? then Ok(None)
    else
      var c :- BindColumn(cat, tables, o.value.column);
      Ok(Some(Order(c, o.value.direction.Descending?)))
  }

  predicate IsAggregate(p: Projection) {
    p.CountAll? || p.Sum?
  }

  predicate HasAggregate(ps: seq<Projection>) {
    exists i :: 0 <= i < |ps| && IsAggregate(ps[i])
  }

  function ValidateProjection(ps: seq<Projection>, groupBy: Option<seq<Column>>): Result<(), BinderError> {
    if (HasAggregate(ps) || groupBy.Some?)
       && exists i :: 0 <= i < |ps| && !IsAggregate(ps[i])
           && !(ps[i].OneColumn? && groupBy.Some? && ps[i].column in groupBy.value)
    then Err(InvalidGroupingProjection)
    else Ok(())
  }

  function ValidateOrderBy(ps: seq<Projection>, groupBy: Option<seq<Column>>, orderBy: Option<Order>):
      Result<(), BinderError> {
    if orderBy.None? then Ok(())
    else if groupBy.Some? then (if orderBy.value.column in groupBy.value then Ok(()) else Err(InvalidGroupingOrder))
    else if HasAggregate(ps) then Err(InvalidAggregateOrder)
    else Ok(())
  }

  function BindSelect(cat: Catalog, bytes: string -> seq<Byte>, s: A.SelectStatement):
      Result<BoundSelect, BinderError> {
    var b :- BindFrom(cat, s.from, 0);
    var projections :- BindProjections(cat, b.tables, s.projections);
    var filter :- BindWhere(cat, bytes, b.tables, s.filter);
    var groupBy :- BindGroupBy(cat, b.tables, s.groupBy);
    var _ :- ValidateProjection(projections, groupBy);
    var orderBy :- BindOrderBy(cat, b.tables, s.orderBy);
    var _ :- ValidateOrderBy(projections, groupBy, orderBy);
    Ok(BoundSelect(projections, b.from, filter, groupBy, orderBy, s.limit))
  }

  // ---------- what is accepted ----------

  ghost predicate ProjectionBound(cat: Catalog, from: From, p: Projection) {
    match p
    case OneColumn(c) => BoundIn(SchemaOf(cat), from, c)
    case Sum(c) =>
      && BoundIn(SchemaOf(cat), from, c)
      && ColumnType(cat, c).Ok? && (ColumnType(cat, c).value.IntType? || ColumnType(cat, c).value.BigIntType?)
    case _ => true
  }

  /** Every column resolves; next to an aggregate or GROUP BY only aggregates and
      grouped columns are selected; a grouped query is ordered by a grouped column
      and an ungrouped aggregate not at all. */
  ghost predicate Executable(cat: Catalog, b: BoundSelect) {
    && FromBound(SchemaOf(cat), b.from)
    && (b.filter.Some? ==> FilterBound(SchemaOf(cat), b.from, b.filter.value))
    && (forall i :: 0 <= i < |b.projections| ==> ProjectionBound(cat, b.from, b.projections[i]))
    && (b.groupBy.Some? ==> forall i :: 0 <= i < |b.groupBy.value| ==>
          BoundIn(SchemaOf(cat), b.from, b.groupBy.value[i]))
    && (b.orderBy.Some? ==> BoundIn(SchemaOf(cat), b.from, b.orderBy.value.column))
    && (HasAggregate(b.projections) || b.groupBy.Some? ==>
          forall i :: 0 <= i < |b.projections| ==>
                Groupable(b.projections[i], if b.groupBy.Some? then b.groupBy.value else []))
    && (b.orderBy.Some? && b.groupBy.Some? ==> b.orderBy.value.column in b.groupBy.value)
    && (b.orderBy.Some? && b.groupBy.None? ==> !HasAggregate(b.projections))
  }

  predicate Groupable(p: Projection, groupBy: seq<Column>) {
    IsAggregate(p) || (p.OneColumn? && p.column in groupBy)
  }

  lemma {:induction false} BindProjectionsBound(cat: Catalog, from: From, tables: seq<BoundTable>,
                                                ps: seq<A.Projection>)
    requires Scoped(cat, from, tables) && BindProjections(cat, tables, ps).Ok?
    ensures var bound := BindProjections(cat, tables, ps).value;
            forall i :: 0 <= i < |bound| ==> ProjectionBound(cat, from, bound[i])
  {
    if ps == [] {
    } else {
      BindProjectionBound(cat, from, tables, ps[0]);
      BindProjectionsBound(cat, from, tables, ps[1..]);
    }
  }

  lemma BindProjectionBound(cat: Catalog, from: From, tables: seq<BoundTable>, p: A.Projection)
    requires Scoped(cat, from, tables) && BindProjection(cat, tables, p).Ok?
    ensures ProjectionBound(cat, from, BindProjection(cat, tables, p).value)
  {
    match p
    case Expression(e) => BindColumnBound(cat, from, tables, e.column);
    case Aggregate(Sum(c)) => BindColumnBound(cat, from, tables, c);
    case _ =>
  }

  lemma {:induction false} BindColumnsBound(cat: Catalog, from: From, tables: seq<BoundTable>,
                                            cs: seq<A.ColumnReference>)
    requires Scoped(cat, from, tables) && BindColumns(cat, tables, cs).Ok?
    ensures var bound := BindColumns(cat, tables, cs).value;
            forall i :: 0 <= i < |bound| ==> BoundIn(SchemaOf(cat), from, bound[i])
  {
    if cs == [] {
    } else {
      BindColumnBound(cat, from, tables, cs[0]);
      BindColumnsBound(cat, from, tables, cs[1..]);
    }
  }

  /** Whatever SELECT the binder accepts is executable. */
  lemma BindSelectExecutable(cat: Catalog, bytes: string -> seq<Byte>, s: A.SelectStatement)
    requires BindSelect(cat, bytes, s).Ok?
    ensures Executable(cat, BindSelect(cat, bytes, s).value)
  {
    hide BindFrom, BindProjections, BindColumns, BindFilter, BindColumn, FromBound, FilterBound, BoundIn, SchemaOf;
    var b := BindFrom(cat, s.from, 0).value;
    BindFromBound(cat, s.from, 0);
    BindProjectionsBound(cat, b.from, b.tables, s.projections);
    if s.filter.Some? {
      BindFilterBound(cat, bytes, b.from, b.tables, s.filter.value);
    }
    if s.groupBy.Some? {
      BindColumnsBound(cat, b.from, b.tables, s.groupBy.value);
    }
    if s.orderBy.Some? {
      BindColumnBound(cat, b.from, b.tables, s.orderBy.value.column);
    }
  }
}
