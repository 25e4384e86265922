/** How each part of a statement is written down: its tokens, followed by what
    comes next. And which statements can be written at all: joins and ANDs lean
    left, and there is at most one OR. */
module Grammar {
  import opened Wrappers
  import opened Ast
  import T = Tokens

  type Stream = T.Stream

  function Next(k: T.Kind, more: Stream): Stream {
    T.Then(k, more)
  }

  function Name(s: string, k: Stream): Stream {
    Next(T.Identifier(s), k)
  }

  function WriteString(s: string, k: Stream): Stream {
    Name(s, k)
  }

  function WriteColumn(c: ColumnReference, k: Stream): Stream {
    if c.table.Some? then Name(c.table.value, Next(T.Dot, Name(c.column, k))) else Name(c.column, k)
  }

  function WriteTable(t: TableReference, k: Stream): Stream {
    Name(t.name, if t.alias.Some? then Name(t.alias.value, k) else k)
  }

  function WriteLiteral(l: Literal, k: Stream): Stream {
    match l
    case Integer(i) => Next(T.Integer(i), k)
    case String(s) => Next(T.StringLiteral(s), k)
    case Null => Next(T.Null, k)
  }

  function OperatorKind(op: Operator): T.Kind {
    match op
    case Equal => T.Eq
    case NotEqual => T.NotEq
    case LessThan => T.Lt
    case GreaterThan => T.Gt
    case LessThanOrEqual => T.LtEq
    case GreaterThanOrEqual => T.GtEq
  }

  // ---------- lists ----------

  /** Items after the first. */
  function WriteMore<X>(xs: seq<X>, write: (X, Stream) -> Stream, k: Stream): Stream {
    if xs == [] then k else Next(T.Comma, write(xs[0], WriteMore(xs[1..], write, k)))
  }

  function WriteList<X>(xs: seq<X>, write: (X, Stream) -> Stream, k: Stream): Stream
    requires xs != []
  {
    write(xs[0], WriteMore(xs[1..], write, k))
  }

  lemma {:induction false} WriteMoreLast<X>(xs: seq<X>, x: X, write: (X, Stream) -> Stream, k: Stream)
    ensures WriteMore(xs + [x], write, k) == WriteMore(xs, write, Next(T.Comma, write(x, k)))
    decreases |xs|
  {
    if xs == [] {
      assert (xs + [x])[1..] == [];
    } else {
      assert (xs + [x])[1..] == xs[1..] + [x];
      WriteMoreLast(xs[1..], x, write, k);
    }
  }

  lemma WriteListLast<X>(xs: seq<X>, x: X, write: (X, Stream) -> Stream, k: Stream)
    requires xs != []
    ensures WriteList(xs + [x], write, k) == WriteList(xs, write, Next(T.Comma, write(x, k)))
  {
    assert (xs + [x])[1..] == xs[1..] + [x];
    WriteMoreLast(xs[1..], x, write, k);
  }

  lemma ListFirst<X>(xs: seq<X>, write: (X, Stream) -> Stream, k: Stream)
    requires xs != []
    ensures WriteList(xs, write, k) == write(xs[0], WriteMore(xs[1..], write, k)) && [xs[0]] + xs[1..] == xs
    ensures |xs| == 1 ==> WriteList(xs, write, k) == write(xs[0], k)
    ensures xs[1..] == [] || (WriteMore(xs[1..], write, k).Then? && WriteMore(xs[1..], write, k).kind == T.Comma)
    ensures xs[1..] == [] ==> WriteMore(xs[1..], write, k) == k
  {
  }

  /** Either nothing more is written, or a comma and the next item. */
  lemma ListNext<X>(done: seq<X>, todo: seq<X>, write: (X, Stream) -> Stream, k: Stream)
    ensures todo == [] ==> WriteMore(todo, write, k) == k && done + todo == done
    ensures todo != [] ==>
              && WriteMore(todo, write, k) == Next(T.Comma, write(todo[0], WriteMore(todo[1..], write, k)))
              && (done + [todo[0]]) + todo[1..] == done + todo
              && (todo[1..] == [] || (WriteMore(todo[1..], write, k).Then?
                                      && WriteMore(todo[1..], write, k).kind == T.Comma))
              && (todo[1..] == [] ==> WriteMore(todo[1..], write, k) == k)
  {
  }

  // ---------- expressions ----------

  predicate IsComparison(e: Expression) {
    e.Comparison? && e.a.Column? && e.b.Literal?
  }

  predicate IsConjunction(e: Expression) {
    if e.And? then IsConjunction(e.l) && IsComparison(e.r) else IsComparison(e)
  }

  predicate IsFilter(e: Expression) {
    if e.Or? then IsConjunction(e.l) && IsConjunction(e.r) else IsConjunction(e)
  }

  function WriteComparison(e: Expression, k: Stream): Stream
    requires IsComparison(e)
  {
    WriteColumn(e.a.column, Next(OperatorKind(e.op), WriteLiteral(e.b.literal, k)))
  }

  function WriteConjunction(e: Expression, k: Stream): Stream
    requires IsConjunction(e)
  {
    if e.And? then WriteConjunction(e.l, Next(T.And, WriteComparison(e.r, k))) else WriteComparison(e, k)
  }

  function WriteFilter(e: Expression, k: Stream): Stream
    requires IsFilter(e)
  {
    if e.Or? then WriteConjunction(e.l, Next(T.Or, WriteConjunction(e.r, k))) else WriteConjunction(e, k)
  }

  /** The number of ANDs, and what is left of all but the first of them. */
  function Ands(e: Expression): nat {
    if e.And? then Ands(e.l) + 1 else 0
  }

  function LeftOf(e: Expression, d: nat): (l: Expression)
    requires d <= Ands(e)
    ensures IsConjunction(e) ==> IsConjunction(l)
    ensures Ands(l) == Ands(e) - d
  {
    if d == 0 then e else LeftOf(e.l, d - 1)
  }

  /** What is written after the part that is left of the last `d` ANDs. */
  function AfterLeft(e: Expression, d: nat, k: Stream): Stream
    requires IsConjunction(e) && d <= Ands(e)
  {
    if d == 0 then k else AfterLeft(e.l, d - 1, Next(T.And, WriteComparison(e.r, k)))
  }

  lemma {:induction false} WriteLeft(e: Expression, d: nat, k: Stream)
    requires IsConjunction(e) && d <= Ands(e)
    ensures WriteConjunction(e, k) == WriteConjunction(LeftOf(e, d), AfterLeft(e, d, k))
    ensures d > 0 ==> LeftOf(e, d - 1).And? && LeftOf(e, d - 1).l == LeftOf(e, d)
                      && AfterLeft(e, d, k) == Next(T.And, WriteComparison(LeftOf(e, d - 1).r, AfterLeft(e, d - 1, k)))
    decreases d
  {
    if d > 0 {
      WriteLeft(e.l, d - 1, Next(T.And, WriteComparison(e.r, k)));
    }
  }

  // ---------- FROM clauses ----------

  predicate LeansLeft(f: FromClause) {
    f.InnerJoin? ==> LeansLeft(f.left) && f.right.Table?
  }

  function WriteJoin(f: FromClause, k: Stream): Stream
    requires f.InnerJoin? && f.right.Table?
  {
    Next(T.Join, WriteTable(f.right.table, Next(T.On, WriteColumn(f.on.left, Next(T.Eq, WriteColumn(f.on.right, k))))))
  }

  function WriteFrom(f: FromClause, k: Stream): Stream
    requires LeansLeft(f)
  {
    if f.InnerJoin? then WriteFrom(f.left, WriteJoin(f, k)) else WriteTable(f.table, k)
  }

  function Joins(f: FromClause): nat {
    if f.InnerJoin? then Joins(f.left) + 1 else 0
  }

  function LeftJoin(f: FromClause, d: nat): (l: FromClause)
    requires d <= Joins(f)
    ensures LeansLeft(f) ==> LeansLeft(l)
    ensures Joins(l) == Joins(f) - d
  {
    if d == 0 then f else LeftJoin(f.left, d - 1)
  }

  function AfterJoin(f: FromClause, d: nat, k: Stream): Stream
    requires LeansLeft(f) && d <= Joins(f)
  {
    if d == 0 then k else AfterJoin(f.left, d - 1, WriteJoin(f, k))
  }

  lemma {:induction false} WriteLeftJoin(f: FromClause, d: nat, k: Stream)
    requires LeansLeft(f) && d <= Joins(f)
    ensures WriteFrom(f, k) == WriteFrom(LeftJoin(f, d), AfterJoin(f, d, k))
    ensures d > 0 ==> LeftJoin(f, d - 1).InnerJoin? && LeftJoin(f, d - 1).left == LeftJoin(f, d)
                      && AfterJoin(f, d, k) == WriteJoin(LeftJoin(f, d - 1), AfterJoin(f, d - 1, k))
    decreases d
  {
    if d > 0 {
      WriteLeftJoin(f.left, d - 1, WriteJoin(f, k));
    }
  }

  /** What follows a table or a join is the next join, or what follows them all. */
  lemma {:induction false} JoinStops(f: FromClause, d: nat, k: Stream)
    requires LeansLeft(f) && d <= Joins(f)
    ensures if d == 0 then AfterJoin(f, d, k) == k else AfterJoin(f, d, k).Then? && AfterJoin(f, d, k).kind == T.Join
  {
    if d > 0 {
      WriteLeftJoin(f, d, k);
    }
  }

  // ---------- statements ----------

  predicate IsProjection(p: Projection) {
    p.Expression? ==> p.e.Column?
  }

  predicate AreProjections(ps: seq<Projection>) {
    forall i :: 0 <= i < |ps| ==> IsProjection(ps[i])
  }

  lemma ProjectionsFirst(ps: seq<Projection>)
    requires ps != []
    ensures AreProjections(ps) <==> IsProjection(ps[0]) && AreProjections(ps[1..])
    ensures |ps| == 1 ==> (AreProjections(ps) <==> IsProjection(ps[0]))
  {
    assert AreProjections(ps[1..]) ==> forall i :: 0 < i < |ps| ==> ps[i] == ps[1..][i - 1];
  }

  lemma ProjectionsLast(ps: seq<Projection>, p: Projection)
    ensures AreProjections(ps + [p]) <==> AreProjections(ps) && IsProjection(p)
  {
    assert AreProjections(ps + [p]) ==> (ps + [p])[|ps|] == p && forall i :: 0 <= i < |ps| ==> (ps + [p])[i] == ps[i];
  }

  lemma ProjectionsNext(done: seq<Projection>, todo: seq<Projection>)
    requires AreProjections(done + todo) && todo != []
    ensures IsProjection(todo[0])
  {
    assert (done + todo)[|done|] == todo[0];
  }

  function WriteProjection(p: Projection, k: Stream): Stream {
    match p
    case All => Next(T.Asterisk, k)
    case Expression(e) => if e.Column? then WriteColumn(e.column, k) else k
    case Aggregate(CountAll) => Next(T.Count, Next(T.LeftParen, Next(T.Asterisk, Next(T.RightParen, k))))
    case Aggregate(Sum(c)) => Next(T.Sum, Next(T.LeftParen, WriteColumn(c, Next(T.RightParen, k))))
  }

  function WriteAssignment(a: Assignment, k: Stream): Stream {
    WriteColumn(a.column, Next(T.Eq, WriteLiteral(a.value, k)))
  }

  function TypeKind(t: DataType): T.Kind {
    match t
    case IntType => T.IntType
    case BigIntType => T.BigIntType
    case BooleanType => T.BooleanType
    case VarcharType => T.VarcharType
    case NullType => T.Null
  }

  function WriteDefinition(d: ColumnDefinition, k: Stream): Stream {
    Name(d.name, Next(TypeKind(d.dataType), k))
  }

  function WriteWhere(filter: Option<Expression>, k: Stream): Stream
    requires filter.Some? ==> IsFilter(filter.value)
  {
    if filter.Some? then Next(T.Where, WriteFilter(filter.value, k)) else k
  }

  function WriteGroupBy(columns: Option<seq<ColumnReference>>, k: Stream): Stream
    requires columns.Some? ==> columns.value != []
  {
    if columns.Some? then Next(T.Group, Next(T.By, WriteList(columns.value, WriteColumn, k))) else k
  }

  /** Ascending order may be written out. */
  function WriteOrderBy(order: Option<OrderBy>, asc: bool, k: Stream): Stream {
    if order.None? then k
    else
      var direction := if order.value.direction.Descending? then Next(T.Desc, k) else if asc then Next(T.Asc, k) else k;
      Next(T.Order, Next(T.By, WriteColumn(order.value.column, direction)))
  }

  const MAX_LIMIT: nat := 0x7FFF_FFFF_FFFF_FFFF

  function WriteLimit(limit: Option<nat>, k: Stream): Stream
    requires limit.Some? ==> limit.value <= MAX_LIMIT
  {
    if limit.Some? then Next(T.Limit, Next(T.Integer(limit.value), k)) else k
  }

  /** The clauses of a SELECT after its FROM clause. */
  datatype Tail = Tail(filter: Option<Expression>, groupBy: Option<seq<ColumnReference>>, orderBy: Option<OrderBy>,
                       limit: Option<nat>)

  predicate IsTail(t: Tail) {
    && (t.filter.Some? ==> IsFilter(t.filter.value)) && (t.groupBy.Some? ==> t.groupBy.value != [])
    && (t.limit.Some? ==> t.limit.value <= MAX_LIMIT)
  }

  function WriteTail(t: Tail, asc: bool, k: Stream): Stream
    requires IsTail(t)
  {
    WriteWhere(t.filter, WriteGroupBy(t.groupBy, WriteOrderBy(t.orderBy, asc, WriteLimit(t.limit, k))))
  }

  predicate IsSelect(s: SelectStatement) {
    && s.projections != [] && AreProjections(s.projections) && LeansLeft(s.from)
    && IsTail(Tail(s.filter, s.groupBy, s.orderBy, s.limit))
  }

  function WriteSelect(s: SelectStatement, asc: bool, k: Stream): Stream
    requires IsSelect(s)
  {
    Next(T.Select, WriteList(s.projections, WriteProjection, Next(T.From, WriteFrom(s.from,
      WriteTail(Tail(s.filter, s.groupBy, s.orderBy, s.limit), asc, k)))))
  }

  /** The statements that can be written. */
  predicate IsStatement(s: Statement) {
    match s
    case Select(s) => IsSelect(s)
    case CreateTable(_, columns) => columns != []
    case CreateIndex(_, _, _) => true
    case Insert(_, literals) => literals != []
    case Update(from, assignments, filter) => UpdateOk(from, assignments, filter)
    case Delete(targets, from, filter) => DeleteOk(targets, from, filter)
  }

  predicate UpdateOk(from: FromClause, assignments: seq<Assignment>, filter: Option<Expression>) {
    LeansLeft(from) && assignments != [] && (filter.Some? ==> IsFilter(filter.value))
  }

  predicate DeleteOk(targets: Option<seq<string>>, from: FromClause, filter: Option<Expression>) {
    (targets.Some? ==> targets.value != []) && LeansLeft(from) && (filter.Some? ==> IsFilter(filter.value))
  }

  /** CREATE TABLE, after the first word. */
  function WriteCreateTable(table: string, columns: seq<ColumnDefinition>, k: Stream): Stream
    requires columns != []
  {
    Next(T.Table, Name(table, Next(T.LeftParen, WriteList(columns, WriteDefinition, Next(T.RightParen, k)))))
  }

  /** CREATE INDEX, after the first word. */
  function WriteCreateIndex(index: string, table: string, column: string, k: Stream): Stream {
    Next(T.Index, Name(index, Next(T.On, Name(table, Next(T.LeftParen, Name(column, Next(T.RightParen, k)))))))
  }

  function WriteInsert(table: string, literals: seq<Literal>, k: Stream): Stream
    requires literals != []
  {
    Next(T.Insert, Next(T.Into, Name(table,
                                     Next(T.Values, Next(T.LeftParen, WriteList(literals, WriteLiteral,
                                                                                Next(T.RightParen, k)))))))
  }

  function WriteUpdate(from: FromClause, assignments: seq<Assignment>, filter: Option<Expression>, k: Stream): Stream
    requires UpdateOk(from, assignments, filter)
  {
    Next(T.Update, WriteFrom(from, WriteSet(assignments, filter, k)))
  }

  function WriteSet(assignments: seq<Assignment>, filter: Option<Expression>, k: Stream): Stream
    requires assignments != [] && (filter.Some? ==> IsFilter(filter.value))
  {
    Next(T.Set, WriteList(assignments, WriteAssignment, WriteWhere(filter, k)))
  }

  function WriteFromWhere(from: FromClause, filter: Option<Expression>, k: Stream): Stream
    requires LeansLeft(from) && (filter.Some? ==> IsFilter(filter.value))
  {
    Next(T.From, WriteFrom(from, WriteWhere(filter, k)))
  }

  function WriteDelete(targets: Option<seq<string>>, from: FromClause, filter: Option<Expression>, k: Stream): Stream
    requires DeleteOk(targets, from, filter)
  {
    var rest := WriteFromWhere(from, filter, k);
    Next(T.Delete, if targets.Some? then WriteList(targets.value, WriteString, rest) else rest)
  }

  function WriteStatement(s: Statement, asc: bool, k: Stream): Stream
    requires IsStatement(s)
  {
    match s
    case Select(s) => WriteSelect(s, asc, k)
    case CreateTable(table, columns) => Next(T.Create, WriteCreateTable(table, columns, k))
    case CreateIndex(index, table, column) => Next(T.Create, WriteCreateIndex(index, table, column, k))
    case Insert(table, literals) => WriteInsert(table, literals, k)
    case Update(from, assignments, filter) => WriteUpdate(from, assignments, filter, k)
    case Delete(targets, from, filter) => WriteDelete(targets, from, filter, k)
  }

  // ---------- whole statements ----------

  ghost predicate EndsStatement(k: Stream) {
    k.Then? && k.kind == T.Semicolon
  }

  /** The kinds of token that can begin what follows a clause. */
  ghost predicate Begins(k: Stream, kinds: set<T.Kind>) {
    k.Then? && k.kind in kinds
  }

  lemma WhereEnds(filter: Option<Expression>, k: Stream)
    requires (filter.Some? ==> IsFilter(filter.value)) && EndsStatement(k)
    ensures Begins(WriteWhere(filter, k), {T.Where, T.Semicolon})
  {
  }

  lemma SelectTails(t: Tail, asc: bool, k: Stream)
    requires IsTail(t) && EndsStatement(k)
    ensures var k4 := WriteLimit(t.limit, k);
            var k3 := WriteOrderBy(t.orderBy, asc, k4);
            var k2 := WriteGroupBy(t.groupBy, k3);
            && Begins(k4, {T.Limit, T.Semicolon})
            && Begins(k3, {T.Order, T.Limit, T.Semicolon})
            && Begins(k2, {T.Group, T.Order, T.Limit, T.Semicolon})
  {
  }

  lemma TailBegins(t: Tail, asc: bool, k: Stream)
    requires IsTail(t) && EndsStatement(k)
    ensures Begins(WriteTail(t, asc, k), {T.Where, T.Group, T.Order, T.Limit, T.Semicolon})
  {
  }

  /** The tokens of a statement, then a semicolon and the end mark. */
  ghost predicate Tokens(s: Statement, asc: bool, tokens: Stream)
    requires IsStatement(s)
  {
    exists more: Stream :: tokens == WriteStatement(s, asc, Next(T.Semicolon, Next(T.Eof, more)))
  }

  ghost function After(s: Statement, asc: bool, tokens: Stream): Stream
    requires IsStatement(s) && Tokens(s, asc, tokens)
  {
    var more: Stream :| tokens == WriteStatement(s, asc, Next(T.Semicolon, Next(T.Eof, more)));
    Next(T.Semicolon, Next(T.Eof, more))
  }

  lemma AfterIsEnd(s: Statement, asc: bool, tokens: Stream)
    requires IsStatement(s) && Tokens(s, asc, tokens)
    ensures tokens == WriteStatement(s, asc, After(s, asc, tokens))
    ensures EndsStatement(After(s, asc, tokens)) && After(s, asc, tokens).more.Then?
            && After(s, asc, tokens).more.kind == T.Eof
  {
  }

  lemma StatementKind(s: Statement, asc: bool, k: Stream)
    requires IsStatement(s)
    ensures
      var t := WriteStatement(s, asc, k);
      match s
      case Select(x) => IsSelect(x) && t == WriteSelect(x, asc, k) && t.Then? && t.kind == T.Select
      case CreateTable(table, columns) => columns != [] && t == Next(T.Create, WriteCreateTable(table, columns, k))
          && t.more.kind == T.Table
      case CreateIndex(index, table, column) => t == Next(T.Create, WriteCreateIndex(index, table, column, k))
          && t.more.kind == T.Index
      case Insert(table, literals) => literals != [] && t == WriteInsert(table, literals, k) && t.Then?
          && t.kind == T.Insert
      case Update(from, assignments, filter) =>
        && UpdateOk(from, assignments, filter)
        && t == WriteUpdate(from, assignments, filter, k) && t.Then? && t.kind == T.Update
      case Delete(targets, from, filter) =>
        && DeleteOk(targets, from, filter)
        && t == WriteDelete(targets, from, filter, k) && t.Then? && t.kind == T.Delete
  {
  }

  lemma SetBegins(assignments: seq<Assignment>, filter: Option<Expression>, k: Stream)
    requires assignments != [] && (filter.Some? ==> IsFilter(filter.value))
    ensures Begins(WriteSet(assignments, filter, k), {T.Set})
  {
  }

  lemma FromBegins(from: FromClause, filter: Option<Expression>, k: Stream)
    requires LeansLeft(from) && (filter.Some? ==> IsFilter(filter.value))
    ensures Begins(WriteFromWhere(from, filter, k), {T.From})
  {
  }

  /** Apart from their clauses, nothing is asked of statements. */
  lemma AnyStatement(s: Statement)
    ensures s.Select? ==> (IsStatement(s) <==> IsSelect(s.select))
    ensures s.CreateTable? ==> (IsStatement(s) <==> s.columns != [])
    ensures s.CreateIndex? ==> IsStatement(s)
    ensures s.Insert? ==> (IsStatement(s) <==> s.literals != [])
    ensures s.Update? ==> (IsStatement(s) <==> UpdateOk(s.from, s.assignments, s.filter))
    ensures s.Delete? ==> (IsStatement(s) <==> DeleteOk(s.targets, s.deleteFrom, s.where_))
  {
  }

  lemma SomeSelect()
    ensures IsSelect(SelectStatement([All], Table(TableReference([], None)), None, None, None, None))
  {
  }
}
