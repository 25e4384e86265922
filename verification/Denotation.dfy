/** What a parsed statement means in a catalog, as a relation between the parsed
    and the bound statement. The binder computes exactly this relation: it returns
    the statement that is meant, and refuses a statement that means nothing. */
module Denotation {
  import opened Wrappers
  import opened Keys
  import opened Rows
  import opened Joins
  import opened FromClause
  import opened Binder
  import opened Select
  import opened Scope
  import A = Ast
  import P = Prepare

  // ---------- types and values ----------

  ghost predicate TypeIs(cat: Catalog, c: Column, t: A.DataType) {
    exists meta, m :: TableWithId(cat, c.table, meta) && ColumnWithId(meta.columns, c.column, m) && m.dataType == t
  }

  lemma TypeMeans(cat: Catalog, c: Column, t: A.DataType)
    ensures ColumnType(cat, c) == Ok(t) <==> TypeIs(cat, c, t)
  {
    hide TableById, TableWithId, ColumnById, ColumnWithId;
    forall meta ensures TableById(cat, c.table) == Some(meta) <==> TableWithId(cat, c.table, meta) {
      TableByIdMeans(cat, c.table, meta);
    }
    if TableById(cat, c.table).Some? {
      var meta := TableById(cat, c.table).value;
      TableByIdMeans(cat, c.table, meta);
      forall m ensures ColumnById(meta.columns, c.column) == Some(m) <==> ColumnWithId(meta.columns, c.column, m) {
        ColumnByIdMeans(meta.columns, c.column, m);
      }
      if ColumnById(meta.columns, c.column).Some? {
        ColumnByIdMeans(meta.columns, c.column, ColumnById(meta.columns, c.column).value);
      }
    }
  }

  /** A literal stands for the value of the same meaning; numbers must fit the
      column, strings are for VARCHAR only, NULL is for every column. */
  ghost predicate LiteralIs(bytes: string -> seq<Byte>, l: A.Literal, t: A.DataType, v: Value) {
    match (l, v)
    case (Null, None) => true
    case (Integer(n), Some(Int(x))) => t.IntType? && x == n
    case (Integer(n), Some(BigInt(x))) => t.BigIntType? && x == n
    case (String(s), Some(Varchar(b))) => t.VarcharType? && b == bytes(s)
    case _ => false
  }

  lemma LiteralMeans(bytes: string -> seq<Byte>, l: A.Literal, t: A.DataType, v: Value)
    ensures BindValue(bytes, l, t) == Ok(v) <==> LiteralIs(bytes, l, t, v)
  {
  }

  predicate OperatorIs(op: A.Operator, bound: Operator) {
    match (op, bound)
    case (Equal, Equals) => true
    case (NotEqual, NotEquals) => true
    case (LessThan, LessThan) => true
    case (GreaterThan, GreaterThan) => true
    case (LessThanOrEqual, AtMost) => true
    case (GreaterThanOrEqual, AtLeast) => true
    case _ => false
  }

  lemma OperatorMeans(op: A.Operator, bound: Operator)
    ensures BindOperator(op) == bound <==> OperatorIs(op, bound)
  {
  }

  /** A value of the type of the column. */
  ghost predicate ConstantIs(cat: Catalog, bytes: string -> seq<Byte>, c: Column, l: A.Literal, v: Value) {
    exists t :: TypeIs(cat, c, t) && LiteralIs(bytes, l, t, v)
  }

  lemma ConstantMeans(cat: Catalog, bytes: string -> seq<Byte>, c: Column, l: A.Literal, v: Value)
    ensures ColumnType(cat, c).Ok? && BindValue(bytes, l, ColumnType(cat, c).value) == Ok(v)
       <==> ConstantIs(cat, bytes, c, l, v)
  {
    hide ColumnType, TypeIs, BindValue, LiteralIs;
    forall t ensures ColumnType(cat, c) == Ok(t) <==> TypeIs(cat, c, t) {
      TypeMeans(cat, c, t);
    }
    if ColumnType(cat, c).Ok? {
      TypeMeans(cat, c, ColumnType(cat, c).value);
      LiteralMeans(bytes, l, ColumnType(cat, c).value, v);
    }
  }

  // ---------- filters ----------

  /** The same tree of AND and OR over the same comparisons. */
  ghost predicate FilterIs(cat: Catalog, bytes: string -> seq<Byte>, scope: seq<Named>, e: A.Expression,
                           bound: Expression) {
    match (e, bound)
    case (And(l, r), And(l', r')) => FilterIs(cat, bytes, scope, l, l') && FilterIs(cat, bytes, scope, r, r')
    case (Or(l, r), Or(l', r')) => FilterIs(cat, bytes, scope, l, l') && FilterIs(cat, bytes, scope, r, r')
    case (Comparison(a, op, b), Comparison(c, op', v)) =>
      && a.Column? && b.Literal? && Denotes(scope, a.column, c) && OperatorIs(op, op')
      && ConstantIs(cat, bytes, c, b.literal, v)
    case _ => false
  }

  lemma {:induction false} FilterMeans(cat: Catalog, bytes: string -> seq<Byte>, tables: seq<BoundTable>,
                                       scope: seq<Named>, e: A.Expression, bound: Expression)
    requires InView(cat, tables, scope)
    ensures BindFilter(cat, bytes, tables, e) == Ok(bound) <==> FilterIs(cat, bytes, scope, e, bound)
    decreases e
  {
    hide BindColumn, Denotes, ColumnType, BindValue, ConstantIs, OperatorIs, BindOperator, InView;
    match (e, bound)
    case (And(l, r), And(l', r')) =>
      FilterMeans(cat, bytes, tables, scope, l, l');
      FilterMeans(cat, bytes, tables, scope, r, r');
    case (Or(l, r), Or(l', r')) =>
      FilterMeans(cat, bytes, tables, scope, l, l');
      FilterMeans(cat, bytes, tables, scope, r, r');
    case (Comparison(a, op, b), Comparison(c, op', v)) =>
      if a.Column? && b.Literal? {
        ColumnMeans(cat, tables, scope, a.column, c);
        OperatorMeans(op, op');
        ConstantMeans(cat, bytes, c, b.literal, v);
      }
    case _ =>
  }

  /** There is a filter exactly if one is written. */
  ghost predicate WhereIs(cat: Catalog, bytes: string -> seq<Byte>, scope: seq<Named>, filter: Option<A.Expression>,
                          bound: Option<Expression>) {
    match (filter, bound)
    case (None, None) => true
    case (Some(e), Some(b)) => FilterIs(cat, bytes, scope, e, b)
    case _ => false
  }

  lemma WhereMeans(cat: Catalog, bytes: string -> seq<Byte>, tables: seq<BoundTable>, scope: seq<Named>,
                   filter: Option<A.Expression>, bound: Option<Expression>)
    requires InView(cat, tables, scope)
    ensures BindWhere(cat, bytes, tables, filter) == Ok(bound) <==> WhereIs(cat, bytes, scope, filter, bound)
  {
    hide BindFilter, FilterIs, InView;
    if filter.Some? && bound.Some? {
      FilterMeans(cat, bytes, tables, scope, filter.value, bound.value);
    }
  }

  // ---------- FROM clauses ----------

  predicate NamesApart(scope: seq<Named>) {
    forall i, j :: 0 <= i < j < |scope| ==> scope[i].name != scope[j].name
  }

  /** The tables joined have names apart, and the two columns one type. */
  ghost predicate OnIs(cat: Catalog, scope: seq<Named>, on: A.JoinCondition, bound: JoinCondition) {
    && NamesApart(scope) && Denotes(scope, on.left, bound.left) && Denotes(scope, on.right, bound.right)
    && exists t :: TypeIs(cat, bound.left, t) && TypeIs(cat, bound.right, t)
  }

  /** The same joins of the tables that are named, with instances numbered from
      left to right. */
  ghost predicate FromIs(cat: Catalog, f: A.FromClause, next: nat, bound: From) {
    match (f, bound)
    case (Table(t), Table(id, i)) => i == next && exists m :: TableCalled(cat, t.name, m) && m.id == id
    case (InnerJoin(l, on, r), InnerJoin(l', on', r')) =>
      && FromIs(cat, l, next, l') && FromIs(cat, r, next + Tables(l), r')
      && exists scope :: ScopeOf(cat, f, next, scope) && OnIs(cat, scope, on, on')
    case _ => false
  }

  lemma {:induction false} NamesMean(cat: Catalog, tables: seq<BoundTable>, scope: seq<Named>)
    requires InView(cat, tables, scope)
    ensures Names(cat, tables).Ok? && |Names(cat, tables).value| == |scope|
    ensures forall k :: 0 <= k < |scope| ==> Names(cat, tables).value[k] == scope[k].name
  {
    if tables == [] {
    } else {
      assert IsNamed(cat, tables[0], scope[0]);
      NamesMean(cat, tables[1..], scope[1..]);
    }
  }

  lemma OnMeans(cat: Catalog, tables: seq<BoundTable>, scope: seq<Named>, on: A.JoinCondition, bound: JoinCondition)
    requires InView(cat, tables, scope)
    ensures BindJoinCondition(cat, tables, on) == Ok(bound) <==> OnIs(cat, scope, on, bound)
  {
    hide BindColumn, Denotes, ColumnType, TypeIs, InView, Names;
    NamesMean(cat, tables, scope);
    ColumnMeans(cat, tables, scope, on.left, bound.left);
    ColumnMeans(cat, tables, scope, on.right, bound.right);
    forall t
      ensures ColumnType(cat, bound.left) == Ok(t) <==> TypeIs(cat, bound.left, t)
      ensures ColumnType(cat, bound.right) == Ok(t) <==> TypeIs(cat, bound.right, t)
    {
      TypeMeans(cat, bound.left, t);
      TypeMeans(cat, bound.right, t);
    }
    if ColumnType(cat, bound.left).Ok? {
      TypeMeans(cat, bound.left, ColumnType(cat, bound.left).value);
    }
  }

  lemma {:induction false} OneScope(cat: Catalog, f: A.FromClause, next: nat, a: seq<Named>, b: seq<Named>)
    requires ScopeOf(cat, f, next, a) && ScopeOf(cat, f, next, b)
    ensures a == b && |a| == Tables(f)
  {
    match f
    case Table(t) =>
      OneTable(cat, t.name);
    case InnerJoin(l, _, r) =>
      OneScope(cat, l, next, a[..Tables(l)], b[..Tables(l)]);
      OneScope(cat, r, next + Tables(l), a[Tables(l)..], b[Tables(l)..]);
      assert a == a[..Tables(l)] + a[Tables(l)..] && b == b[..Tables(l)] + b[Tables(l)..];
  }

  lemma OneTable(cat: Catalog, name: string)
    ensures forall m, m' :: TableCalled(cat, name, m) && TableCalled(cat, name, m') ==> m == m'
    ensures forall id, m, m' :: TableWithId(cat, id, m) && TableWithId(cat, id, m') ==> m == m'
  {
    forall m, m' | TableCalled(cat, name, m) && TableCalled(cat, name, m') ensures m == m' {
      TableNamedMeans(cat, name, m);
      TableNamedMeans(cat, name, m');
    }
    forall id, m, m' | TableWithId(cat, id, m) && TableWithId(cat, id, m') ensures m == m' {
      TableByIdMeans(cat, id, m);
      TableByIdMeans(cat, id, m');
    }
  }

  /** The tables of a bound clause are those in scope. */
  lemma {:induction false} FromScope(cat: Catalog, f: A.FromClause, next: nat) returns (scope: seq<Named>)
    requires BindFrom(cat, f, next).Ok?
    ensures ScopeOf(cat, f, next, scope) && InView(cat, BindFrom(cat, f, next).value.tables, scope)
    ensures |scope| == Tables(f) && BindFrom(cat, f, next).value.next == next + Tables(f)
  {
    hide InView, BindJoinCondition, TableNamed, TableCalled, TableWithId;
    match f
    case Table(t) =>
      scope := TableScope(cat, t, next);
    case InnerJoin(l, _, r) =>
      var left := BindFrom(cat, l, next).value;
      var right := BindFrom(cat, r, left.next).value;
      var a := FromScope(cat, l, next);
      var b := FromScope(cat, r, left.next);
      scope := a + b;
      assert scope[..Tables(l)] == a && scope[Tables(l)..] == b;
      BothInView(cat, left.tables, a, right.tables, b);
  }

  lemma TableScope(cat: Catalog, t: A.TableReference, next: nat) returns (scope: seq<Named>)
    requires TableNamed(cat, t.name).Some?
    ensures ScopeOf(cat, A.FromClause.Table(t), next, scope) && |scope| == 1
    ensures InView(cat, [BoundTable(TableNamed(cat, t.name).value.id, next, t.alias)], scope)
  {
    hide TableNamed, TableCalled, TableWithId;
    var m := TableNamed(cat, t.name).value;
    TableNamedMeans(cat, t.name, m);
    TableIsBound(cat, t.name);
    var e := TableById(cat, m.id).value;
    TableByIdMeans(cat, m.id, e);
    scope := [Named(if t.alias.Some? then t.alias.value else e.name, e, next)];
  }

  lemma BothInView(cat: Catalog, ts: seq<BoundTable>, a: seq<Named>, us: seq<BoundTable>, b: seq<Named>)
    requires InView(cat, ts, a) && InView(cat, us, b)
    ensures InView(cat, ts + us, a + b)
  {
    hide IsNamed;
  }

  lemma TableMeans(cat: Catalog, t: A.TableReference, next: nat, bound: From)
    ensures BindFrom(cat, A.FromClause.Table(t), next).Ok?
            && BindFrom(cat, A.FromClause.Table(t), next).value.from == bound
       <==> FromIs(cat, A.FromClause.Table(t), next, bound)
  {
    hide TableNamed, TableCalled;
    forall m ensures TableNamed(cat, t.name) == Some(m) <==> TableCalled(cat, t.name, m) {
      TableNamedMeans(cat, t.name, m);
    }
    if TableNamed(cat, t.name).Some? {
      TableNamedMeans(cat, t.name, TableNamed(cat, t.name).value);
    }
  }

  /** A FROM clause is bound to what it means, and refused if it means nothing. */
  lemma {:induction false} FromMeans(cat: Catalog, f: A.FromClause, next: nat, bound: From)
    ensures BindFrom(cat, f, next).Ok? && BindFrom(cat, f, next).value.from == bound <==> FromIs(cat, f, next, bound)
    decreases f
  {
    hide BindJoinCondition, OnIs, ScopeOf, InView;
    match f
    case Table(t) =>
      TableMeans(cat, t, next, bound);
    case InnerJoin(l, on, r) =>
      if bound.InnerJoin? {
        FromMeans(cat, l, next, bound.left);
        if BindFrom(cat, l, next).Ok? {
          var a := FromScope(cat, l, next);
          FromMeans(cat, r, next + Tables(l), bound.right);
          if BindFrom(cat, r, next + Tables(l)).Ok? {
            var b := FromScope(cat, r, next + Tables(l));
            JoinMeans(cat, f, next, bound.on, a, b);
          }
        }
      }
  }

  lemma JoinMeans(cat: Catalog, f: A.FromClause, next: nat, bound: JoinCondition, a: seq<Named>, b: seq<Named>)
    requires f.InnerJoin? && BindFrom(cat, f.left, next).Ok? && BindFrom(cat, f.right, next + Tables(f.left)).Ok?
    requires var left, right := BindFrom(cat, f.left, next).value, BindFrom(cat, f.right, next + Tables(f.left)).value;
             InView(cat, left.tables, a) && InView(cat, right.tables, b)
    requires ScopeOf(cat, f.left, next, a) && ScopeOf(cat, f.right, next + Tables(f.left), b)
    requires |a| == Tables(f.left) && |b| == Tables(f.right)
    ensures var left, right := BindFrom(cat, f.left, next).value, BindFrom(cat, f.right, next + Tables(f.left)).value;
            (BindJoinCondition(cat, left.tables + right.tables, f.on) == Ok(bound)
             <==> exists scope :: ScopeOf(cat, f, next, scope) && OnIs(cat, scope, f.on, bound))
  {
    hide BindJoinCondition, OnIs, InView, BindFrom, TableCalled, TableWithId;
    var left, right := BindFrom(cat, f.left, next).value, BindFrom(cat, f.right, next + Tables(f.left)).value;
    var whole := a + b;
    assert whole[..Tables(f.left)] == a && whole[Tables(f.left)..] == b;
    assert |whole| == Tables(f);
    assert ScopeOf(cat, f, next, whole);
    BothInView(cat, left.tables, a, right.tables, b);
    OnMeans(cat, left.tables + right.tables, whole, f.on, bound);
    forall scope | ScopeOf(cat, f, next, scope) ensures scope == whole {
      OneScope(cat, f, next, scope, whole);
    }
  }

  // ---------- INSERT ----------

  /** One value for every column of the table, in order. */
  ghost predicate InsertIs(cat: Catalog, bytes: string -> seq<Byte>, table: string, literals: seq<A.Literal>, id: nat,
                           values: seq<Value>) {
    exists m :: TableCalled(cat, table, m) && m.id == id && ValuesAre(bytes, literals, m.columns, values)
  }

  ghost predicate ValuesAre(bytes: string -> seq<Byte>, literals: seq<A.Literal>, columns: seq<ColumnMeta>,
                            values: seq<Value>) {
    && |literals| == |columns| == |values|
    && forall i :: 0 <= i < |values| ==> LiteralIs(bytes, literals[i], columns[i].dataType, values[i])
  }

  lemma {:induction false} ValuesMean(bytes: string -> seq<Byte>, literals: seq<A.Literal>, columns: seq<ColumnMeta>,
                                      values: seq<Value>)
    requires |literals| == |columns|
    ensures BindValues(bytes, literals, columns) == Ok(values) <==> ValuesAre(bytes, literals, columns, values)
  {
    hide BindValue, LiteralIs;
    if literals == [] {
    } else if values != [] {
      LiteralMeans(bytes, literals[0], columns[0].dataType, values[0]);
      ValuesMean(bytes, literals[1..], columns[1..], values[1..]);
      assert values == [values[0]] + values[1..];
      assert ValuesAre(bytes, literals, columns, values) <==>
             LiteralIs(bytes, literals[0], columns[0].dataType, values[0])
             && ValuesAre(bytes, literals[1..], columns[1..], values[1..]) by {
        assert forall i :: 0 < i < |values| && |literals| == |columns| == |values| ==>
                 literals[i] == literals[1..][i - 1] && columns[i] == columns[1..][i - 1]
                 && values[i] == values[1..][i - 1];
      }
    }
  }

  /** An INSERT is bound to what it means, and refused if it means nothing. */
  lemma InsertMeans(cat: Catalog, bytes: string -> seq<Byte>, table: string, literals: seq<A.Literal>, id: nat,
                    values: seq<Value>)
    ensures BindInsert(cat, bytes, table, literals) == Ok((id, values))
       <==> InsertIs(cat, bytes, table, literals, id, values)
  {
    hide TableNamed, TableCalled, BindValues, ValuesAre;
    forall m ensures TableNamed(cat, table) == Some(m) <==> TableCalled(cat, table, m) {
      TableNamedMeans(cat, table, m);
    }
    if TableNamed(cat, table).Some? {
      var m := TableNamed(cat, table).value;
      TableNamedMeans(cat, table, m);
      if |literals| == |m.columns| {
        ValuesMean(bytes, literals, m.columns, values);
      } else {
        ValueCount(bytes, literals, m.columns, values);
      }
    }
  }

  lemma ValueCount(bytes: string -> seq<Byte>, literals: seq<A.Literal>, columns: seq<ColumnMeta>, values: seq<Value>)
    requires |literals| != |columns|
    ensures !ValuesAre(bytes, literals, columns, values)
  {
  }

  // ---------- UPDATE ----------

  ghost predicate AssignmentIs(cat: Catalog, bytes: string -> seq<Byte>, scope: seq<Named>, a: A.Assignment,
                               bound: P.Assignment) {
    Denotes(scope, a.column, bound.column) && ConstantIs(cat, bytes, bound.column, a.value, bound.value)
  }

  ghost predicate AssignmentsAre(cat: Catalog, bytes: string -> seq<Byte>, scope: seq<Named>,
                                 assignments: seq<A.Assignment>, bound: seq<P.Assignment>) {
    && |bound| == |assignments|
    && forall i :: 0 <= i < |bound| ==> AssignmentIs(cat, bytes, scope, assignments[i], bound[i])
  }

  lemma {:induction false} AssignmentsMean(cat: Catalog, bytes: string -> seq<Byte>, tables: seq<BoundTable>,
                                           scope: seq<Named>, assignments: seq<A.Assignment>,
                                           bound: seq<P.Assignment>)
    requires InView(cat, tables, scope)
    ensures BindAssignments(cat, bytes, tables, assignments) == Ok(bound)
       <==> AssignmentsAre(cat, bytes, scope, assignments, bound)
  {
    hide InView, BindColumn, Denotes, ColumnType, BindValue, ConstantIs;
    if assignments == [] {
    } else if bound != [] {
      ColumnMeans(cat, tables, scope, assignments[0].column, bound[0].column);
      ConstantMeans(cat, bytes, bound[0].column, assignments[0].value, bound[0].value);
      AssignmentsMean(cat, bytes, tables, scope, assignments[1..], bound[1..]);
      assert bound == [bound[0]] + bound[1..];
      assert AssignmentsAre(cat, bytes, scope, assignments, bound) <==>
             AssignmentIs(cat, bytes, scope, assignments[0], bound[0])
             && AssignmentsAre(cat, bytes, scope, assignments[1..], bound[1..]) by {
        assert forall i :: 0 < i < |bound| && |assignments| == |bound| ==>
                 assignments[i] == assignments[1..][i - 1] && bound[i] == bound[1..][i - 1];
      }
    }
  }

  /** The clause, the assignments one for one in order, and the filter. */
  ghost predicate UpdateIs(cat: Catalog, bytes: string -> seq<Byte>, from: A.FromClause,
                           assignments: seq<A.Assignment>, filter: Option<A.Expression>, bound: BoundUpdate) {
    && FromIs(cat, from, 0, bound.from)
    && exists scope :: ScopeOf(cat, from, 0, scope)
                       && AssignmentsAre(cat, bytes, scope, assignments, bound.assignments)
                       && WhereIs(cat, bytes, scope, filter, bound.filter)
  }

  /** An UPDATE is bound to what it means, and refused if it means nothing. */
  lemma UpdateMeans(cat: Catalog, bytes: string -> seq<Byte>, from: A.FromClause, assignments: seq<A.Assignment>,
                    filter: Option<A.Expression>, bound: BoundUpdate)
    ensures BindUpdate(cat, bytes, from, assignments, filter) == Ok(bound)
       <==> UpdateIs(cat, bytes, from, assignments, filter, bound)
  {
    hide BindFrom, FromIs, BindAssignments, AssignmentsAre, BindWhere, WhereIs, InView, ScopeOf;
    FromMeans(cat, from, 0, bound.from);
    if BindFrom(cat, from, 0).Ok? {
      var scope := FromScope(cat, from, 0);
      var tables := BindFrom(cat, from, 0).value.tables;
      AssignmentsMean(cat, bytes, tables, scope, assignments, bound.assignments);
      WhereMeans(cat, bytes, tables, scope, filter, bound.filter);
      forall scope' | ScopeOf(cat, from, 0, scope') ensures scope' == scope {
        OneScope(cat, from, 0, scope, scope');
      }
    }
  }

  // ---------- DELETE ----------

  ghost predicate TargetIs(scope: seq<Named>, name: string, bound: (nat, nat)) {
    exists k: int :: Refers(scope, name, k) && bound == (scope[k].meta.id, scope[k].instance)
  }

  ghost predicate TargetsAre(scope: seq<Named>, names: seq<string>, bound: seq<(nat, nat)>) {
    |bound| == |names| && forall i :: 0 <= i < |bound| ==> TargetIs(scope, names[i], bound[i])
  }

  lemma TargetMeans(cat: Catalog, tables: seq<BoundTable>, scope: seq<Named>, name: string, bound: (nat, nat))
    requires InView(cat, tables, scope)
    ensures FindReference(cat, tables, name).Ok?
            && (FindReference(cat, tables, name).value.table, FindReference(cat, tables, name).value.instance) == bound
       <==> TargetIs(scope, name, bound)
  {
    hide FindReference;
    if FindReference(cat, tables, name).Ok? {
      var k := ReferenceFound(cat, tables, scope, name);
      OneReference(scope, name, k);
      ReferenceMeans(cat, tables, scope, name, k);
      assert IsNamed(cat, tables[k], scope[k]);
    } else if TargetIs(scope, name, bound) {
      var k: int :| Refers(scope, name, k) && bound == (scope[k].meta.id, scope[k].instance);
      OneReference(scope, name, k);
      ReferenceMeans(cat, tables, scope, name, k);
    }
  }

  lemma {:induction false} TargetsMean(cat: Catalog, tables: seq<BoundTable>, scope: seq<Named>, names: seq<string>,
                                       bound: seq<(nat, nat)>)
    requires InView(cat, tables, scope)
    ensures BindTargets(cat, tables, names) == Ok(bound) <==> TargetsAre(scope, names, bound)
  {
    hide InView, FindReference, TargetIs;
    if names == [] {
    } else if bound != [] {
      TargetMeans(cat, tables, scope, names[0], bound[0]);
      TargetsMean(cat, tables, scope, names[1..], bound[1..]);
      assert bound == [bound[0]] + bound[1..];
      assert TargetsAre(scope, names, bound) <==>
             TargetIs(scope, names[0], bound[0]) && TargetsAre(scope, names[1..], bound[1..]) by {
        assert forall i :: 0 < i < |bound| && |names| == |bound| ==>
                 names[i] == names[1..][i - 1] && bound[i] == bound[1..][i - 1];
      }
    }
  }

  /** The tables that are named; without names, the first table that is written. */
  ghost predicate DeleteIs(cat: Catalog, bytes: string -> seq<Byte>, targets: Option<seq<string>>, from: A.FromClause,
                           filter: Option<A.Expression>, bound: BoundDelete) {
    && FromIs(cat, from, 0, bound.from)
    && exists scope: seq<Named> :: ScopeOf(cat, from, 0, scope) && WhereIs(cat, bytes, scope, filter, bound.filter)
                       && if targets.Some? then TargetsAre(scope, targets.value, bound.targets)
                          else |scope| > 0 && bound.targets == [(scope[0].meta.id, scope[0].instance)]
  }

  lemma {:induction false} LeftmostMeans(cat: Catalog, f: A.FromClause, next: nat, scope: seq<Named>)
    requires BindFrom(cat, f, next).Ok? && ScopeOf(cat, f, next, scope)
    ensures |scope| > 0 && LeftmostTable(BindFrom(cat, f, next).value.from) == (scope[0].meta.id, scope[0].instance)
  {
    OneScope(cat, f, next, scope, scope);
    match f
    case Table(t) =>
      var s := TableScope(cat, t, next);
      OneScope(cat, f, next, s, scope);
      assert IsNamed(cat, BindFrom(cat, f, next).value.tables[0], s[0]);
    case InnerJoin(l, _, _) =>
      LeftmostMeans(cat, l, next, scope[..Tables(l)]);
  }

  /** A DELETE is bound to what it means, and refused if it means nothing. */
  lemma DeleteMeans(cat: Catalog, bytes: string -> seq<Byte>, targets: Option<seq<string>>, from: A.FromClause,
                    filter: Option<A.Expression>, bound: BoundDelete)
    ensures BindDelete(cat, bytes, targets, from, filter) == Ok(bound)
       <==> DeleteIs(cat, bytes, targets, from, filter, bound)
  {
    hide BindFrom, FromIs, BindTargets, TargetsAre, BindWhere, WhereIs, InView, ScopeOf, LeftmostTable;
    FromMeans(cat, from, 0, bound.from);
    if BindFrom(cat, from, 0).Ok? {
      var scope := FromScope(cat, from, 0);
      var tables := BindFrom(cat, from, 0).value.tables;
      WhereMeans(cat, bytes, tables, scope, filter, bound.filter);
      if targets.Some? {
        TargetsMean(cat, tables, scope, targets.value, bound.targets);
      }
      LeftmostMeans(cat, from, 0, scope);
      forall scope' | ScopeOf(cat, from, 0, scope') ensures scope' == scope {
        OneScope(cat, from, 0, scope, scope');
      }
    }
  }

  // ---------- SELECT ----------

  /** Everything, a column, a count, or the sum of a column of numbers. */
  ghost predicate ProjectionIs(cat: Catalog, scope: seq<Named>, p: A.Projection, bound: Projection) {
    match (p, bound)
    case (All, AllColumns) => true
    case (Expression(e), OneColumn(c)) => e.Column? && Denotes(scope, e.column, c)
    case (Aggregate(CountAll), CountAll) => true
    case (Aggregate(Sum(r)), Sum(c)) =>
      Denotes(scope, r, c) && exists t :: TypeIs(cat, c, t) && (t.IntType? || t.BigIntType?)
    case _ => false
  }

  ghost predicate ProjectionsAre(cat: Catalog, scope: seq<Named>, ps: seq<A.Projection>, bound: seq<Projection>) {
    |bound| == |ps| && forall i :: 0 <= i < |bound| ==> ProjectionIs(cat, scope, ps[i], bound[i])
  }

  lemma ProjectionMeans(cat: Catalog, tables: seq<BoundTable>, scope: seq<Named>, p: A.Projection, bound: Projection)
    requires InView(cat, tables, scope)
    ensures BindProjection(cat, tables, p) == Ok(bound) <==> ProjectionIs(cat, scope, p, bound)
  {
    hide InView, BindColumn, Denotes, ColumnType, TypeIs;
    match (p, bound)
    case (Expression(e), OneColumn(c)) =>
      if e.Column? {
        ColumnMeans(cat, tables, scope, e.column, c);
      }
    case (Aggregate(Sum(r)), Sum(c)) =>
      ColumnMeans(cat, tables, scope, r, c);
      forall t ensures ColumnType(cat, c) == Ok(t) <==> TypeIs(cat, c, t) {
        TypeMeans(cat, c, t);
      }
      if ColumnType(cat, c).Ok? {
        TypeMeans(cat, c, ColumnType(cat, c).value);
      }
    case _ =>
  }

  lemma {:induction false} ProjectionsMean(cat: Catalog, tables: seq<BoundTable>, scope: seq<Named>,
                                           ps: seq<A.Projection>, bound: seq<Projection>)
    requires InView(cat, tables, scope)
    ensures BindProjections(cat, tables, ps) == Ok(bound) <==> ProjectionsAre(cat, scope, ps, bound)
  {
    hide InView, BindProjection, ProjectionIs;
    if ps == [] {
    } else if bound != [] {
      ProjectionMeans(cat, tables, scope, ps[0], bound[0]);
      ProjectionsMean(cat, tables, scope, ps[1..], bound[1..]);
      assert bound == [bound[0]] + bound[1..];
      assert ProjectionsAre(cat, scope, ps, bound) <==>
             ProjectionIs(cat, scope, ps[0], bound[0]) && ProjectionsAre(cat, scope, ps[1..], bound[1..]) by {
        assert forall i :: 0 < i < |bound| && |ps| == |bound| ==>
                 ps[i] == ps[1..][i - 1] && bound[i] == bound[1..][i - 1];
      }
    }
  }

  ghost predicate ColumnsAre(scope: seq<Named>, rs: seq<A.ColumnReference>, bound: seq<Column>) {
    |bound| == |rs| && forall i :: 0 <= i < |bound| ==> Denotes(scope, rs[i], bound[i])
  }

  lemma {:induction false} ColumnsMean(cat: Catalog, tables: seq<BoundTable>, scope: seq<Named>,
                                       rs: seq<A.ColumnReference>, bound: seq<Column>)
    requires InView(cat, tables, scope)
    ensures BindColumns(cat, tables, rs) == Ok(bound) <==> ColumnsAre(scope, rs, bound)
  {
    hide InView, BindColumn, Denotes;
    if rs == [] {
    } else if bound != [] {
      ColumnMeans(cat, tables, scope, rs[0], bound[0]);
      ColumnsMean(cat, tables, scope, rs[1..], bound[1..]);
      assert bound == [bound[0]] + bound[1..];
      assert ColumnsAre(scope, rs, bound) <==>
             Denotes(scope, rs[0], bound[0]) && ColumnsAre(scope, rs[1..], bound[1..]) by {
        assert forall i :: 0 < i < |bound| && |rs| == |bound| ==>
                 rs[i] == rs[1..][i - 1] && bound[i] == bound[1..][i - 1];
      }
    }
  }

  ghost predicate GroupingIs(scope: seq<Named>, rs: Option<seq<A.ColumnReference>>, bound: Option<seq<Column>>) {
    match (rs, bound)
    case (None, None) => true
    case (Some(rs), Some(cs)) => ColumnsAre(scope, rs, cs)
    case _ => false
  }

  lemma GroupingMeans(cat: Catalog, tables: seq<BoundTable>, scope: seq<Named>, rs: Option<seq<A.ColumnReference>>,
                      bound: Option<seq<Column>>)
    requires InView(cat, tables, scope)
    ensures BindGroupBy(cat, tables, rs) == Ok(bound) <==> GroupingIs(scope, rs, bound)
  {
    hide InView, BindColumns, ColumnsAre;
    if rs.Some? && bound.Some? {
      ColumnsMean(cat, tables, scope, rs.value, bound.value);
    }
  }

  /** By the same column in the same direction. */
  ghost predicate OrderIs(scope: seq<Named>, o: Option<A.OrderBy>, bound: Option<Order>) {
    match (o, bound)
    case (None, None) => true
    case (Some(OrderBy(r, Ascending)), Some(Order(c, false))) => Denotes(scope, r, c)
    case (Some(OrderBy(r, Descending)), Some(Order(c, true))) => Denotes(scope, r, c)
    case _ => false
  }

  lemma OrderMeans(cat: Catalog, tables: seq<BoundTable>, scope: seq<Named>, o: Option<A.OrderBy>,
                   bound: Option<Order>)
    requires InView(cat, tables, scope)
    ensures BindOrderBy(cat, tables, o) == Ok(bound) <==> OrderIs(scope, o, bound)
  {
    hide InView, BindColumn, Denotes;
    if o.Some? && bound.Some? {
      ColumnMeans(cat, tables, scope, o.value.column, bound.value.column);
    }
  }

  /** Next to an aggregate or under GROUP BY, only aggregates and grouped columns
      are selected; a grouped query is ordered by grouped columns only, and an
      ungrouped aggregate not at all. */
  ghost predicate Allowed(ps: seq<Projection>, groupBy: Option<seq<Column>>, orderBy: Option<Order>) {
    var aggregated := exists i :: 0 <= i < |ps| && (ps[i].CountAll? || ps[i].Sum?);
    && (aggregated || groupBy.Some? ==>
          forall i :: 0 <= i < |ps| ==>
            match ps[i]
            case CountAll => true
            case Sum(_) => true
            case OneColumn(c) => groupBy.Some? && c in groupBy.value
            case AllColumns => false)
    && (orderBy.Some? && groupBy.Some? ==> orderBy.value.column in groupBy.value)
    && (orderBy.Some? && groupBy.None? ==> !aggregated)
  }

  lemma AllowedMeans(ps: seq<Projection>, groupBy: Option<seq<Column>>, orderBy: Option<Order>)
    ensures ValidateProjection(ps, groupBy).Ok? && ValidateOrderBy(ps, groupBy, orderBy).Ok?
       <==> Allowed(ps, groupBy, orderBy)
  {
    var aggregated := exists i :: 0 <= i < |ps| && (ps[i].CountAll? || ps[i].Sum?);
    assert aggregated <==> HasAggregate(ps) by {
      if aggregated {
        var i :| 0 <= i < |ps| && (ps[i].CountAll? || ps[i].Sum?);
        assert IsAggregate(ps[i]);
      }
    }
  }

  /** The same clauses over the tables in scope, with the limit as it is written. */
  ghost predicate SelectIs(cat: Catalog, bytes: string -> seq<Byte>, s: A.SelectStatement, bound: BoundSelect) {
    && FromIs(cat, s.from, 0, bound.from) && bound.limit == s.limit
    && Allowed(bound.projections, bound.groupBy, bound.orderBy)
    && exists scope :: ScopeOf(cat, s.from, 0, scope) && ProjectionsAre(cat, scope, s.projections, bound.projections)
                       && WhereIs(cat, bytes, scope, s.filter, bound.filter)
                       && GroupingIs(scope, s.groupBy, bound.groupBy) && OrderIs(scope, s.orderBy, bound.orderBy)
  }

  /** A SELECT is bound to what it means, and refused if it means nothing. */
  lemma SelectMeans(cat: Catalog, bytes: string -> seq<Byte>, s: A.SelectStatement, bound: BoundSelect)
    ensures BindSelect(cat, bytes, s) == Ok(bound) <==> SelectIs(cat, bytes, s, bound)
  {
    hide BindFrom, FromIs, BindProjections, ProjectionsAre, BindWhere, WhereIs, BindGroupBy, GroupingIs, BindOrderBy,
         OrderIs, InView, ScopeOf, Allowed, ValidateProjection, ValidateOrderBy;
    FromMeans(cat, s.from, 0, bound.from);
    if BindFrom(cat, s.from, 0).Ok? {
      var scope := FromScope(cat, s.from, 0);
      var tables := BindFrom(cat, s.from, 0).value.tables;
      ProjectionsMean(cat, tables, scope, s.projections, bound.projections);
      WhereMeans(cat, bytes, tables, scope, s.filter, bound.filter);
      GroupingMeans(cat, tables, scope, s.groupBy, bound.groupBy);
      OrderMeans(cat, tables, scope, s.orderBy, bound.orderBy);
      AllowedMeans(bound.projections, bound.groupBy, bound.orderBy);
      forall scope' | ScopeOf(cat, s.from, 0, scope') ensures scope' == scope {
        OneScope(cat, s.from, 0, scope, scope');
      }
    }
  }
}
