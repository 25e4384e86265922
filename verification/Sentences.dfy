/** The words of SQL: how each kind of clause and statement looks token by token,
    for all names, numbers and literals. */
module Sentences {
  import opened Wrappers
  import opened Keys
  import opened Ast
  import opened Grammar
  import T = Tokens

  function Id(s: string, k: Stream): Stream {
    T.Then(T.Identifier(s), k)
  }

  function Word(w: T.Kind, k: Stream): Stream {
    T.Then(w, k)
  }

  function Plain(c: string): ColumnReference {
    ColumnReference(None, c)
  }

  function Compared(c: string, op: Operator, n: Int64): Expression {
    Comparison(Column(Plain(c)), op, Expression.Literal(Literal.Integer(n)))
  }

  /** `a <op> n`, for each operator. */
  lemma ComparisonWords(a: string, op: Operator, n: Int64, k: Stream)
    ensures var mark := match op
                        case Equal => T.Eq
                        case NotEqual => T.NotEq
                        case LessThan => T.Lt
                        case GreaterThan => T.Gt
                        case LessThanOrEqual => T.LtEq
                        case GreaterThanOrEqual => T.GtEq;
            WriteComparison(Compared(a, op, n), k) == Id(a, Word(mark, Word(T.Integer(n), k)))
  {
  }

  /** `t.a = 's'` and `a = NULL`. */
  lemma LiteralWords(t: string, a: string, s: string, k: Stream)
    ensures WriteComparison(Comparison(Column(ColumnReference(Some(t), a)), Operator.Equal,
                                       Expression.Literal(String(s))), k)
         == Id(t, Word(T.Dot, Id(a, Word(T.Eq, Word(T.StringLiteral(s), k)))))
    ensures WriteComparison(Comparison(Column(Plain(a)), Operator.Equal, Expression.Literal(Null)), k)
         == Id(a, Word(T.Eq, Word(T.Null, k)))
  {
  }

  /** `WHERE p AND q OR r`: AND binds tighter than OR. */
  lemma WhereWords(p: Expression, q: Expression, r: Expression, k: Stream)
    requires IsComparison(p) && IsComparison(q) && IsComparison(r)
    ensures IsFilter(Or(And(p, q), r))
    ensures WriteWhere(Some(Or(And(p, q), r)), k)
         == Word(T.Where, WriteComparison(p, Word(T.And, WriteComparison(q, Word(T.Or, WriteComparison(r, k))))))
    ensures WriteWhere(None, k) == k
  {
    hide WriteComparison;
    assert IsConjunction(p) && IsConjunction(And(p, q)) && IsConjunction(r);
    var k2 := Word(T.Or, WriteConjunction(r, k));
    var k1 := Word(T.And, WriteComparison(q, k2));
    assert WriteConjunction(And(p, q), k2) == WriteConjunction(p, k1) == WriteComparison(p, k1);
  }

  /** `t JOIN u v ON t.a = v.b`. */
  lemma FromWords(t: string, u: string, v: string, a: string, b: string, k: Stream)
    ensures var f := InnerJoin(FromClause.Table(TableReference(t, None)),
                               JoinCondition(ColumnReference(Some(t), a), ColumnReference(Some(v), b)),
                               FromClause.Table(TableReference(u, Some(v))));
            && LeansLeft(f)
            && WriteFrom(f, k)
               == Id(t, Word(T.Join, Id(u, Id(v, Word(T.On,
                    Id(t, Word(T.Dot, Id(a, Word(T.Eq, Id(v, Word(T.Dot, Id(b, k))))))))))))
  {
  }

  /** `*, a, COUNT(*), SUM(b)`. */
  lemma ProjectionWords(a: string, b: string, k: Stream)
    ensures var ps := [All, Projection.Expression(Column(Plain(a))), Projection.Aggregate(CountAll),
                       Projection.Aggregate(Sum(Plain(b)))];
            WriteList(ps, WriteProjection, k)
            == Word(T.Asterisk, Word(T.Comma, Id(a, Word(T.Comma,
                 Word(T.Count, Word(T.LeftParen, Word(T.Asterisk, Word(T.RightParen, Word(T.Comma,
                   Word(T.Sum, Word(T.LeftParen, Id(b, Word(T.RightParen, k)))))))))))))
  {
    var ps := [All, Projection.Expression(Column(Plain(a))), Projection.Aggregate(CountAll),
               Projection.Aggregate(Sum(Plain(b)))];
    assert ps[1..] == [ps[1], ps[2], ps[3]] && ps[1..][1..] == [ps[2], ps[3]] && ps[1..][1..][1..] == [ps[3]];
    var k3 := Word(T.Comma, WriteProjection(ps[3], k));
    assert WriteMore([ps[3]], WriteProjection, k) == k3;
    var k2 := Word(T.Comma, WriteProjection(ps[2], k3));
    assert WriteMore([ps[2], ps[3]], WriteProjection, k) == k2;
  }

  /** `GROUP BY a, b`, `ORDER BY a`, `ORDER BY a ASC`, `ORDER BY a DESC`, `LIMIT n`. */
  lemma TailWords(a: string, b: string, n: nat, k: Stream)
    requires n <= MAX_LIMIT
    ensures WriteGroupBy(Some([Plain(a), Plain(b)]), k)
         == Word(T.Group, Word(T.By, Id(a, Word(T.Comma, Id(b, k)))))
    ensures WriteOrderBy(Some(OrderBy(Plain(a), Ascending)), false, k) == Word(T.Order, Word(T.By, Id(a, k)))
    ensures WriteOrderBy(Some(OrderBy(Plain(a), Ascending)), true, k)
         == Word(T.Order, Word(T.By, Id(a, Word(T.Asc, k))))
    ensures WriteOrderBy(Some(OrderBy(Plain(a), Descending)), false, k)
         == Word(T.Order, Word(T.By, Id(a, Word(T.Desc, k))))
    ensures WriteLimit(Some(n), k) == Word(T.Limit, Word(T.Integer(n), k))
  {
    assert [Plain(a), Plain(b)][1..] == [Plain(b)];
    assert WriteMore([Plain(b)], WriteColumn, k) == Word(T.Comma, Id(b, k));
  }

  /** A SELECT names its clauses in this order. */
  lemma SelectWords(s: SelectStatement, asc: bool, k: Stream)
    requires IsSelect(s)
    ensures WriteStatement(Select(s), asc, k)
         == Word(T.Select, WriteList(s.projections, WriteProjection, Word(T.From, WriteFrom(s.from,
              WriteWhere(s.filter, WriteGroupBy(s.groupBy, WriteOrderBy(s.orderBy, asc, WriteLimit(s.limit, k))))))))
  {
  }

  /** `INSERT INTO t VALUES (n, NULL)`. */
  lemma InsertWords(t: string, n: Int64, k: Stream)
    ensures WriteStatement(Insert(t, [Literal.Integer(n), Null]), false, k)
         == Word(T.Insert, Word(T.Into, Id(t, Word(T.Values, Word(T.LeftParen,
              Word(T.Integer(n), Word(T.Comma, Word(T.Null, Word(T.RightParen, k)))))))))
  {
    var ls := [Literal.Integer(n), Null];
    assert ls[1..] == [Null];
    assert WriteMore([Null], WriteLiteral, Word(T.RightParen, k)) == Word(T.Comma, Word(T.Null, Word(T.RightParen, k)));
  }

  /** `UPDATE t SET a = n, b = NULL`, and what follows the assignments. */
  lemma UpdateWords(t: string, a: string, n: Int64, b: string, filter: Option<Expression>, k: Stream)
    requires filter.Some? ==> IsFilter(filter.value)
    ensures var s := Update(FromClause.Table(TableReference(t, None)),
                            [Assignment(Plain(a), Literal.Integer(n)), Assignment(Plain(b), Null)], filter);
            && IsStatement(s)
            && WriteStatement(s, false, k)
               == Word(T.Update, Id(t, Word(T.Set, Id(a, Word(T.Eq, Word(T.Integer(n), Word(T.Comma,
                    Id(b, Word(T.Eq, Word(T.Null, WriteWhere(filter, k)))))))))))
  {
    hide WriteWhere;
    var xs := [Assignment(Plain(a), Literal.Integer(n)), Assignment(Plain(b), Null)];
    var rest := WriteWhere(filter, k);
    assert xs[1..] == [xs[1]];
    assert WriteMore([xs[1]], WriteAssignment, rest) == Word(T.Comma, WriteAssignment(xs[1], rest));
  }

  /** `DELETE FROM t` and `DELETE a, b FROM t`, and what follows the tables. */
  lemma DeleteWords(a: string, b: string, t: string, filter: Option<Expression>, k: Stream)
    requires filter.Some? ==> IsFilter(filter.value)
    ensures var from := FromClause.Table(TableReference(t, None));
            && IsStatement(Delete(None, from, filter)) && IsStatement(Delete(Some([a, b]), from, filter))
            && WriteStatement(Delete(None, from, filter), false, k)
               == Word(T.Delete, Word(T.From, Id(t, WriteWhere(filter, k))))
            && WriteStatement(Delete(Some([a, b]), from, filter), false, k)
               == Word(T.Delete, Id(a, Word(T.Comma, Id(b, Word(T.From, Id(t, WriteWhere(filter, k)))))))
  {
    hide WriteWhere;
    var rest := Word(T.From, Id(t, WriteWhere(filter, k)));
    assert [a, b][1..] == [b];
    assert WriteMore([b], WriteString, rest) == Word(T.Comma, Id(b, rest));
  }

  /** `CREATE TABLE t (a INT, b BIGINT, c BOOLEAN, d VARCHAR)`. */
  lemma CreateTableWords(t: string, a: string, b: string, c: string, d: string, k: Stream)
    ensures var s := CreateTable(t, [ColumnDefinition(a, IntType), ColumnDefinition(b, BigIntType),
                                     ColumnDefinition(c, BooleanType), ColumnDefinition(d, VarcharType)]);
            WriteStatement(s, false, k)
            == Word(T.Create, Word(T.Table, Id(t, Word(T.LeftParen,
                 Id(a, Word(T.IntType, Word(T.Comma, Id(b, Word(T.BigIntType, Word(T.Comma,
                   Id(c, Word(T.BooleanType, Word(T.Comma,
                     Id(d, Word(T.VarcharType, Word(T.RightParen, k))))))))))))))))
  {
    var xs := [ColumnDefinition(a, IntType), ColumnDefinition(b, BigIntType), ColumnDefinition(c, BooleanType),
               ColumnDefinition(d, VarcharType)];
    var end := Word(T.RightParen, k);
    assert xs[1..] == [xs[1], xs[2], xs[3]] && xs[1..][1..] == [xs[2], xs[3]] && xs[1..][1..][1..] == [xs[3]];
    var k3 := Word(T.Comma, WriteDefinition(xs[3], end));
    assert WriteMore([xs[3]], WriteDefinition, end) == k3;
    var k2 := Word(T.Comma, WriteDefinition(xs[2], k3));
    assert WriteMore([xs[2], xs[3]], WriteDefinition, end) == k2;
  }

  /** `CREATE INDEX x ON t (a)`. */
  lemma CreateIndexWords(x: string, t: string, a: string, k: Stream)
    ensures WriteStatement(CreateIndex(x, t, a), false, k)
         == Word(T.Create, Word(T.Index, Id(x, Word(T.On, Id(t, Word(T.LeftParen, Id(a, Word(T.RightParen, k))))))))
  {
  }
}
