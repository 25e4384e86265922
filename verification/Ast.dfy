/** SQL tokens and statements, and the tokens that write a statement down. */
module Tokens {
  import opened Keys

  datatype Kind =
    | Create | Table | Insert | Into | Index | On | Values | Select | From | Where | Update | Set | Delete
    | Order | Group | By | Asc | Desc | Limit | Count | Sum | Join | Dot
    | IntType | BigIntType | BooleanType | VarcharType | Null
    | Identifier(name: string) | Integer(i: Int64) | StringLiteral(s: string)
    | LeftParen | RightParen | Comma | Semicolon | Asterisk | And | Or
    | Eq | NotEq | Lt | Gt | LtEq | GtEq
    | Eof

  datatype Token = Token(kind: Kind, offset: nat)

  /** Token kinds one after the other. */
  datatype Stream = End | Then(kind: Kind, more: Stream)
}

module Ast {
  import opened Wrappers
  import opened Keys

  datatype ColumnReference = ColumnReference(table: Option<string>, column: string)
  datatype TableReference = TableReference(name: string, alias: Option<string>)
  datatype JoinCondition = JoinCondition(left: ColumnReference, right: ColumnReference)
  datatype FromClause = Table(table: TableReference) | InnerJoin(left: FromClause, on: JoinCondition, right: FromClause)
  datatype Literal = Integer(i: Int64) | String(s: string) | Null
  datatype Operator = Equal | NotEqual | LessThan | GreaterThan | LessThanOrEqual | GreaterThanOrEqual
  datatype Expression =
    | Column(column: ColumnReference)
    | Literal(literal: Literal)
    | Comparison(a: Expression, op: Operator, b: Expression)
    | And(l: Expression, r: Expression)
    | Or(l: Expression, r: Expression)
  datatype Aggregate = CountAll | Sum(column: ColumnReference)
  datatype Projection = All | Expression(e: Expression) | Aggregate(a: Aggregate)
  datatype Direction = Ascending | Descending
  datatype OrderBy = OrderBy(column: ColumnReference, direction: Direction)
  datatype Assignment = Assignment(column: ColumnReference, value: Literal)
  datatype DataType = IntType | BigIntType | BooleanType | VarcharType | NullType
  datatype ColumnDefinition = ColumnDefinition(name: string, dataType: DataType)
  datatype SelectStatement = SelectStatement(projections: seq<Projection>, from: FromClause, filter: Option<Expression>,
                                             groupBy: Option<seq<ColumnReference>>, orderBy: Option<OrderBy>,
                                                 limit: Option<nat>)
  datatype Statement =
    | Select(select: SelectStatement)
    | CreateTable(table: string, columns: seq<ColumnDefinition>)
    | CreateIndex(index: string, onTable: string, column: string)
    | Insert(into: string, literals: seq<Literal>)
    | Update(from: FromClause, assignments: seq<Assignment>, filter: Option<Expression>)
    | Delete(targets: Option<seq<string>>, deleteFrom: FromClause, where_: Option<Expression>)
}
