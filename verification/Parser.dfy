/** The recursive-descent parser. It accepts exactly what can be written down:
    what it returns is what the tokens say, and whatever is written is read back.

    A parsing method can be told, by a ghost argument, what is written at the
    current position and what follows it; then it reads exactly that. */
module Parser {
  import opened Wrappers
  import opened Ast
  import opened Grammar
  import T = Tokens

  datatype ParseError = UnexpectedToken(at: nat)

  /** Something written at the current position, and what follows it. */
  datatype Written<X> = Written(x: X, k: Stream)

  ghost predicate Stops(k: Stream, kinds: set<T.Kind>) {
    k.Then? && k.kind !in kinds
  }

  ghost predicate StopsTable(k: Stream) {
    k.Then? && !k.kind.Identifier?
  }

  lemma ParenStops(k: Stream)
    ensures Stops(Next(T.RightParen, k), {T.Comma})
  {
  }

  /** What follows the projections and the tables of a SELECT ends them. */
  lemma TailStops(t: Tail, asc: bool, k: Stream, from: FromClause)
    requires IsTail(t) && EndsStatement(k) && LeansLeft(from)
    ensures var k1 := WriteTail(t, asc, k);
            && Stops(k1, {T.Dot, T.Join}) && StopsTable(k1)
            && Stops(Next(T.From, WriteFrom(from, k1)), {T.Dot, T.Comma})
  {
    hide IsTail, EndsStatement, WriteTail, LeansLeft, WriteFrom;
    TailBegins(t, asc, k);
  }

  class Parser {
    const tokens: seq<T.Token>
    var position: nat

    /** The last token is an end mark, and the parser has not moved past it. */
    ghost predicate Valid()
      reads this
    {
      position < |tokens| && tokens[|tokens| - 1].kind == T.Eof
    }

    /** The kinds of the tokens from a position on. */
    ghost function Rest(i: nat): Stream
      requires i <= |tokens|
      decreases |tokens| - i
    {
      if i == |tokens| then T.End else T.Then(tokens[i].kind, Rest(i + 1))
    }

    constructor (ts: seq<T.Token>)
      requires ts != [] && ts[|ts| - 1].kind == T.Eof
      ensures Valid() && tokens == ts && position == 0
    {
      tokens, position := ts, 0;
    }

    function Current(): (t: T.Token)
      requires Valid()
      reads this
      ensures Rest(position) == Next(t.kind, Rest(position + 1))
    {
      tokens[position]
    }

    method Advance()
      requires Valid()
      modifies this
      ensures Valid() && position == if old(Current()).kind == T.Eof then old(position) else old(position) + 1
    {
      if Current().kind != T.Eof {
        position := position + 1;
      }
    }

    method Expect(kind: T.Kind) returns (r: Result<(), ParseError>)
      requires Valid()
      modifies this
      ensures Valid() && (r.Ok? <==> old(Current()).kind == kind)
      ensures position == if r.Ok? && kind != T.Eof then old(position) + 1 else old(position)
      ensures r.Ok? && kind != T.Eof ==> Rest(old(position)) == Next(kind, Rest(position))
      ensures r.Err? ==> r == Err(UnexpectedToken(old(Current()).offset))
    {
      if Current().kind != kind {
        return Err(UnexpectedToken(Current().offset));
      }
      Advance();
      return Ok(());
    }

    method ExpectIdentifier() returns (r: Result<string, ParseError>)
      requires Valid()
      modifies this
      ensures Valid() && (r.Ok? <==> old(Current()).kind.Identifier?)
      ensures r.Ok? ==> position == old(position) + 1 && Rest(old(position)) == WriteString(r.value, Rest(position))
      ensures forall s, k :: Rest(old(position)) == WriteString(s, k) ==> r == Ok(s) && Rest(position) == k
      ensures r.Err? ==> position == old(position) && r == Err(UnexpectedToken(old(Current()).offset))
    {
      match Current().kind
      case Identifier(name) =>
        Advance();
        return Ok(name);
      case _ =>
        return Err(UnexpectedToken(Current().offset));
    }

    method ExpectLiteral() returns (r: Result<Literal, ParseError>)
      requires Valid()
      modifies this
      ensures Valid() && (r.Ok? <==> var k := old(Current()).kind; k.Integer? || k.StringLiteral? || k.Null?)
      ensures r.Ok? ==> position == old(position) + 1 && Rest(old(position)) == WriteLiteral(r.value, Rest(position))
      ensures forall l, k :: Rest(old(position)) == WriteLiteral(l, k) ==> r == Ok(l) && Rest(position) == k
      ensures r.Err? ==> position == old(position) && r == Err(UnexpectedToken(old(Current()).offset))
    {
      match Current().kind
      case Integer(i) =>
        Advance();
        return Ok(Literal.Integer(i));
      case StringLiteral(s) =>
        Advance();
        return Ok(Literal.String(s));
      case Null =>
        Advance();
        return Ok(Literal.Null);
      case _ =>
        return Err(UnexpectedToken(Current().offset));
    }

    method ParseColumnReference(ghost w: Option<Written<ColumnReference>>)
      returns (r: Result<ColumnReference, ParseError>)
      requires Valid()
      modifies this
      ensures Valid() && position >= old(position)
      ensures r.Ok? ==> position > old(position) && Rest(old(position)) == WriteColumn(r.value, Rest(position))
      ensures w.Some? && Rest(old(position)) == WriteColumn(w.value.x, w.value.k) && Stops(w.value.k, {T.Dot}) ==>
                r == Ok(w.value.x) && Rest(position) == w.value.k
    {
      var first :- ExpectIdentifier();
      if Current().kind == T.Dot {
        var _ := Expect(T.Dot);
        var column :- ExpectIdentifier();
        return Ok(ColumnReference(Some(first), column));
      }
      return Ok(ColumnReference(None, first));
    }

    method ParseTableReference(ghost w: Option<Written<TableReference>>) returns (r: Result<TableReference, ParseError>)
      requires Valid()
      modifies this
      ensures Valid() && position >= old(position)
      ensures r.Ok? ==> position > old(position) && Rest(old(position)) == WriteTable(r.value, Rest(position))
      ensures w.Some? && Rest(old(position)) == WriteTable(w.value.x, w.value.k) && StopsTable(w.value.k) ==>
                r == Ok(w.value.x) && Rest(position) == w.value.k
    {
      var name :- ExpectIdentifier();
      if Current().kind.Identifier? {
        var alias := ExpectIdentifier();
        return Ok(TableReference(name, Some(alias.value)));
      }
      return Ok(TableReference(name, None));
    }

    // ---------- expressions ----------

    method ParseComparison(ghost w: Option<Written<Expression>>) returns (r: Result<Expression, ParseError>)
      requires Valid()
      modifies this
      ensures Valid() && position >= old(position)
      ensures r.Ok? ==>
                position > old(position) && IsComparison(r.value)
                    && Rest(old(position)) == WriteComparison(r.value, Rest(position))
      ensures w.Some? && IsComparison(w.value.x) && Rest(old(position)) == WriteComparison(w.value.x, w.value.k) ==>
                r == Ok(w.value.x) && Rest(position) == w.value.k
    {
      hide Rest;
      ghost var column' := if w.Some? && IsComparison(w.value.x)
        then Some(Written(w.value.x.a.column,
                          Next(OperatorKind(w.value.x.op), WriteLiteral(w.value.x.b.literal, w.value.k)))) else None;
      var column :- ParseColumnReference(column');
      var op: Operator;
      match Current().kind {
        case Eq => op := Operator.Equal;
        case NotEq => op := NotEqual;
        case Lt => op := LessThan;
        case Gt => op := GreaterThan;
        case LtEq => op := LessThanOrEqual;
        case GtEq => op := GreaterThanOrEqual;
        case _ => return Err(UnexpectedToken(position));
      }
      Advance();
      var literal :- ExpectLiteral();
      return Ok(Comparison(Column(column), op, Expression.Literal(literal)));
    }

    method ParseConjunction(ghost w: Option<Written<Expression>>) returns (r: Result<Expression, ParseError>)
      requires Valid()
      modifies this
      ensures Valid() && position >= old(position)
      ensures r.Ok? ==>
                position > old(position) && IsConjunction(r.value)
                    && Rest(old(position)) == WriteConjunction(r.value, Rest(position))
      ensures w.Some? && IsConjunction(w.value.x) && Rest(old(position)) == WriteConjunction(w.value.x, w.value.k)
              && Stops(w.value.k, {T.And}) ==>
                r == Ok(w.value.x) && Rest(position) == w.value.k
    {
      hide Rest, WriteComparison;
      ghost var start := position;
      ghost var wanted := w.Some? && IsConjunction(w.value.x) && Rest(start) == WriteConjunction(w.value.x, w.value.k)
          && Stops(w.value.k, {T.And});
      ghost var d: nat := if wanted then Ands(w.value.x) else 0;
      if wanted {
        WriteLeft(w.value.x, d, w.value.k);
      }
      var left :- ParseComparison(if wanted then Some(Written(LeftOf(w.value.x, d), AfterLeft(w.value.x, d, w.value.k)))
                                  else None);
      while Current().kind == T.And
        invariant Valid() && position > start
        invariant IsConjunction(left) && Rest(start) == WriteConjunction(left, Rest(position))
        invariant wanted ==>
                    d <= Ands(w.value.x) && left == LeftOf(w.value.x, d)
                        && Rest(position) == AfterLeft(w.value.x, d, w.value.k)
        decreases |tokens| - position
      {
        if wanted {
          WriteLeft(w.value.x, d, w.value.k);
          assert d > 0;
        }
        var _ := Expect(T.And);
        var right :- ParseComparison(if wanted
                                     then Some(Written(LeftOf(w.value.x, d - 1).r,
                                                       AfterLeft(w.value.x, d - 1, w.value.k))) else None);
        left := And(left, right);
        d := if wanted then d - 1 else d;
      }
      if wanted {
        WriteLeft(w.value.x, d, w.value.k);
        assert d == 0;
      }
      return Ok(left);
    }

    method ParseFilter(ghost w: Option<Written<Expression>>) returns (r: Result<Expression, ParseError>)
      requires Valid()
      modifies this
      ensures Valid() && position >= old(position)
      ensures r.Ok? ==>
                position > old(position) && IsFilter(r.value)
                    && Rest(old(position)) == WriteFilter(r.value, Rest(position))
      ensures w.Some? && IsFilter(w.value.x) && Rest(old(position)) == WriteFilter(w.value.x, w.value.k)
              && Stops(w.value.k, {T.And, T.Or}) ==>
                r == Ok(w.value.x) && Rest(position) == w.value.k
    {
      hide Rest, WriteConjunction;
      ghost var wanted := w.Some? && IsFilter(w.value.x);
      var left :- ParseConjunction(if !wanted then None
                                   else if w.value.x.Or? then Some(Written(w.value.x.l,
                                                                           Next(T.Or, WriteConjunction(w.value.x.r,
                                                                                                       w.value.k))))
                                   else w);
      if Current().kind == T.Or {
        var _ := Expect(T.Or);
        var right :- ParseConjunction(if wanted && w.value.x.Or? then Some(Written(w.value.x.r, w.value.k)) else None);
        return Ok(Or(left, right));
      }
      return Ok(left);
    }

    // ---------- lists ----------

    method ParseCount(ghost w: Option<Written<Projection>>) returns (r: Result<Projection, ParseError>)
      requires Valid() && Current().kind == T.Count
      modifies this
      ensures Valid() && position >= old(position)
      ensures r.Ok? ==> position > old(position) && r.value == Projection.Aggregate(CountAll)
                        && Rest(old(position)) == WriteProjection(r.value, Rest(position))
      ensures w.Some? && IsProjection(w.value.x) && Rest(old(position)) == WriteProjection(w.value.x, w.value.k) ==>
                r == Ok(w.value.x) && Rest(position) == w.value.k
    {
      hide Rest;
      var _ := Expect(T.Count);
      var _ :- Expect(T.LeftParen);
      var _ :- Expect(T.Asterisk);
      var _ :- Expect(T.RightParen);
      return Ok(Projection.Aggregate(CountAll));
    }

    method ParseSum(ghost w: Option<Written<Projection>>) returns (r: Result<Projection, ParseError>)
      requires Valid() && Current().kind == T.Sum
      modifies this
      ensures Valid() && position >= old(position)
      ensures r.Ok? ==>
                position > old(position) && IsProjection(r.value)
                    && Rest(old(position)) == WriteProjection(r.value, Rest(position))
      ensures w.Some? && IsProjection(w.value.x) && Rest(old(position)) == WriteProjection(w.value.x, w.value.k) ==>
                r == Ok(w.value.x) && Rest(position) == w.value.k
    {
      hide Rest;
      var _ := Expect(T.Sum);
      var _ :- Expect(T.LeftParen);
      var column :- ParseColumnReference(
        if w.Some? && w.value.x.Aggregate? && w.value.x.a.Sum?
            then Some(Written(w.value.x.a.column, Next(T.RightParen, w.value.k))) else None);
      var _ :- Expect(T.RightParen);
      return Ok(Projection.Aggregate(Sum(column)));
    }

    method ParseProjection(ghost w: Option<Written<Projection>>) returns (r: Result<Projection, ParseError>)
      requires Valid()
      modifies this
      ensures Valid() && position >= old(position)
      ensures r.Ok? ==>
                position > old(position) && IsProjection(r.value)
                    && Rest(old(position)) == WriteProjection(r.value, Rest(position))
      ensures w.Some? && IsProjection(w.value.x) && Rest(old(position)) == WriteProjection(w.value.x, w.value.k)
              && Stops(w.value.k, {T.Dot}) ==>
                r == Ok(w.value.x) && Rest(position) == w.value.k
    {
      match Current().kind
      case Asterisk =>
        var _ := Expect(T.Asterisk);
        return Ok(All);
      case Identifier(_) =>
        var column :- ParseColumnReference(
          if w.Some? && w.value.x.Expression? && w.value.x.e.Column? then Some(Written(w.value.x.e.column, w.value.k))
              else None);
        return Ok(Projection.Expression(Column(column)));
      case Count =>
        r := ParseCount(w);
      case Sum =>
        r := ParseSum(w);
      case _ =>
        return Err(UnexpectedToken(Current().offset));
    }

    method ParseProjections(ghost w: Option<Written<seq<Projection>>>) returns (r: Result<seq<Projection>, ParseError>)
      requires Valid()
      modifies this
      ensures Valid() && position >= old(position)
      ensures r.Ok? ==>
                position > old(position) && r.value != [] && AreProjections(r.value)
                    && Rest(old(position)) == WriteList(r.value, WriteProjection, Rest(position))
      ensures w.Some? && w.value.x != [] && AreProjections(w.value.x)
              && Rest(old(position)) == WriteList(w.value.x, WriteProjection, w.value.k)
                  && Stops(w.value.k, {T.Dot, T.Comma}) ==>
                r == Ok(w.value.x) && Rest(position) == w.value.k
    {
      hide Rest, WriteList, WriteMore, WriteProjection, AreProjections, IsProjection;
      ghost var start := position;
      ghost var wanted := w.Some? && w.value.x != [] && AreProjections(w.value.x)
          && Rest(start) == WriteList(w.value.x, WriteProjection, w.value.k) && Stops(w.value.k, {T.Dot, T.Comma});
      if wanted {
        ListFirst(w.value.x, WriteProjection, w.value.k);
        ProjectionsFirst(w.value.x);
      }
      var first :- ParseProjection(if wanted
                                   then Some(Written(w.value.x[0], WriteMore(w.value.x[1..], WriteProjection,
                                                                             w.value.k))) else None);
      var list := [first];
      ListFirst(list, WriteProjection, Rest(position));
      ProjectionsFirst(list);
      ghost var todo := if wanted then w.value.x[1..] else [];
      while Current().kind == T.Comma
        invariant Valid() && position > start && list != []
                  && Rest(start) == WriteList(list, WriteProjection, Rest(position)) && AreProjections(list)
        invariant wanted ==> list + todo == w.value.x && Rest(position) == WriteMore(todo, WriteProjection, w.value.k)
        decreases |tokens| - position
      {
        if wanted {
          ListNext(list, todo, WriteProjection, w.value.k);
          ProjectionsNext(list, todo);
        }
        var _ := Expect(T.Comma);
        var next :- ParseProjection(if wanted && todo != []
                                    then Some(Written(todo[0], WriteMore(todo[1..], WriteProjection, w.value.k)))
                                        else None);
        WriteListLast(list, next, WriteProjection, Rest(position));
        ProjectionsLast(list, next);
        list, todo := list + [next], if wanted then todo[1..] else todo;
      }
      if wanted {
        ListNext(list, todo, WriteProjection, w.value.k);
      }
      return Ok(list);
    }

    method ParseGroupBy(ghost w: Option<Written<seq<ColumnReference>>>)
      returns (r: Result<seq<ColumnReference>, ParseError>)
      requires Valid()
      modifies this
      ensures Valid() && position >= old(position)
      ensures r.Ok? ==>
                position > old(position) && r.value != []
                    && Rest(old(position)) == WriteList(r.value, WriteColumn, Rest(position))
      ensures w.Some? && w.value.x != [] && Rest(old(position)) == WriteList(w.value.x, WriteColumn, w.value.k)
              && Stops(w.value.k, {T.Dot, T.Comma}) ==>
                r == Ok(w.value.x) && Rest(position) == w.value.k
    {
      hide Rest, WriteList, WriteMore, WriteColumn;
      ghost var start := position;
      ghost var wanted := w.Some? && w.value.x != [] && Rest(start) == WriteList(w.value.x, WriteColumn, w.value.k)
          && Stops(w.value.k, {T.Dot, T.Comma});
      if wanted {
        ListFirst(w.value.x, WriteColumn, w.value.k);
      }
      var first :- ParseColumnReference(if wanted
                                        then Some(Written(w.value.x[0], WriteMore(w.value.x[1..], WriteColumn,
                                                                                  w.value.k))) else None);
      var list := [first];
      ListFirst(list, WriteColumn, Rest(position));
      ghost var todo := if wanted then w.value.x[1..] else [];
      while Current().kind == T.Comma
        invariant Valid() && position > start && list != []
                  && Rest(start) == WriteList(list, WriteColumn, Rest(position))
        invariant wanted ==> list + todo == w.value.x && Rest(position) == WriteMore(todo, WriteColumn, w.value.k)
        decreases |tokens| - position
      {
        if wanted {
          ListNext(list, todo, WriteColumn, w.value.k);
        }
        var _ := Expect(T.Comma);
        var next :- ParseColumnReference(if wanted && todo != []
                                         then Some(Written(todo[0], WriteMore(todo[1..], WriteColumn, w.value.k)))
                                             else None);
        WriteListLast(list, next, WriteColumn, Rest(position));
        list, todo := list + [next], if wanted then todo[1..] else todo;
      }
      if wanted {
        ListNext(list, todo, WriteColumn, w.value.k);
      }
      return Ok(list);
    }

    method ParseAssignment(ghost w: Option<Written<Assignment>>) returns (r: Result<Assignment, ParseError>)
      requires Valid()
      modifies this
      ensures Valid() && position >= old(position)
      ensures r.Ok? ==> position > old(position) && Rest(old(position)) == WriteAssignment(r.value, Rest(position))
      ensures w.Some? && Rest(old(position)) == WriteAssignment(w.value.x, w.value.k) ==>
                r == Ok(w.value.x) && Rest(position) == w.value.k
    {
      hide Rest;
      var column :- ParseColumnReference(
        if w.Some? then Some(Written(w.value.x.column, Next(T.Eq, WriteLiteral(w.value.x.value, w.value.k))))
            else None);
      var _ :- Expect(T.Eq);
      var value :- ExpectLiteral();
      return Ok(Assignment(column, value));
    }

    method ParseAssignments(ghost w: Option<Written<seq<Assignment>>>) returns (r: Result<seq<Assignment>, ParseError>)
      requires Valid()
      modifies this
      ensures Valid() && position >= old(position)
      ensures r.Ok? ==>
                position > old(position) && r.value != []
                    && Rest(old(position)) == WriteList(r.value, WriteAssignment, Rest(position))
      ensures w.Some? && w.value.x != [] && Rest(old(position)) == WriteList(w.value.x, WriteAssignment, w.value.k)
              && Stops(w.value.k, {T.Comma}) ==>
                r == Ok(w.value.x) && Rest(position) == w.value.k
    {
      hide Rest, WriteList, WriteMore, WriteAssignment;
      ghost var start := position;
      ghost var wanted := w.Some? && w.value.x != [] && Rest(start) == WriteList(w.value.x, WriteAssignment, w.value.k)
          && Stops(w.value.k, {T.Comma});
      if wanted {
        ListFirst(w.value.x, WriteAssignment, w.value.k);
      }
      var first :- ParseAssignment(if wanted
                                   then Some(Written(w.value.x[0], WriteMore(w.value.x[1..], WriteAssignment,
                                                                             w.value.k))) else None);
      var list := [first];
      ListFirst(list, WriteAssignment, Rest(position));
      ghost var todo := if wanted then w.value.x[1..] else [];
      while Current().kind == T.Comma
        invariant Valid() && position > start && list != []
                  && Rest(start) == WriteList(list, WriteAssignment, Rest(position))
        invariant wanted ==> list + todo == w.value.x && Rest(position) == WriteMore(todo, WriteAssignment, w.value.k)
        decreases |tokens| - position
      {
        if wanted {
          ListNext(list, todo, WriteAssignment, w.value.k);
        }
        var _ := Expect(T.Comma);
        var next :- ParseAssignment(if wanted && todo != []
                                    then Some(Written(todo[0], WriteMore(todo[1..], WriteAssignment, w.value.k)))
                                        else None);
        WriteListLast(list, next, WriteAssignment, Rest(position));
        list, todo := list + [next], if wanted then todo[1..] else todo;
      }
      if wanted {
        ListNext(list, todo, WriteAssignment, w.value.k);
      }
      return Ok(list);
    }

    method ParseLiteralList(ghost w: Option<Written<seq<Literal>>>) returns (r: Result<seq<Literal>, ParseError>)
      requires Valid()
      modifies this
      ensures Valid() && position >= old(position)
      ensures r.Ok? ==>
                position > old(position) && r.value != []
                    && Rest(old(position)) == WriteList(r.value, WriteLiteral, Rest(position))
      ensures w.Some? && w.value.x != [] && Rest(old(position)) == WriteList(w.value.x, WriteLiteral, w.value.k)
              && Stops(w.value.k, {T.Comma}) ==>
                r == Ok(w.value.x) && Rest(position) == w.value.k
    {
      hide Rest, WriteList, WriteMore, WriteLiteral;
      ghost var start := position;
      ghost var wanted := w.Some? && w.value.x != [] && Rest(start) == WriteList(w.value.x, WriteLiteral, w.value.k)
          && Stops(w.value.k, {T.Comma});
      if wanted {
        ListFirst(w.value.x, WriteLiteral, w.value.k);
      }
      var first :- ExpectLiteral();
      var list := [first];
      ListFirst(list, WriteLiteral, Rest(position));
      ghost var todo := if wanted then w.value.x[1..] else [];
      while Current().kind == T.Comma
        invariant Valid() && position > start && list != []
                  && Rest(start) == WriteList(list, WriteLiteral, Rest(position))
        invariant wanted ==> list + todo == w.value.x && Rest(position) == WriteMore(todo, WriteLiteral, w.value.k)
        decreases |tokens| - position
      {
        if wanted {
          ListNext(list, todo, WriteLiteral, w.value.k);
        }
        var _ := Expect(T.Comma);
        var next :- ExpectLiteral();
        WriteListLast(list, next, WriteLiteral, Rest(position));
        list, todo := list + [next], if wanted then todo[1..] else todo;
      }
      if wanted {
        ListNext(list, todo, WriteLiteral, w.value.k);
      }
      return Ok(list);
    }

    method ParseTargets(ghost w: Option<Written<seq<string>>>) returns (r: Result<seq<string>, ParseError>)
      requires Valid()
      modifies this
      ensures Valid() && position >= old(position)
      ensures r.Ok? ==>
                position > old(position) && r.value != []
                    && Rest(old(position)) == WriteList(r.value, WriteString, Rest(position))
      ensures w.Some? && w.value.x != [] && Rest(old(position)) == WriteList(w.value.x, WriteString, w.value.k)
              && Stops(w.value.k, {T.Comma}) ==>
                r == Ok(w.value.x) && Rest(position) == w.value.k
    {
      hide Rest, WriteList, WriteMore, WriteString;
      ghost var start := position;
      ghost var wanted := w.Some? && w.value.x != [] && Rest(start) == WriteList(w.value.x, WriteString, w.value.k)
          && Stops(w.value.k, {T.Comma});
      if wanted {
        ListFirst(w.value.x, WriteString, w.value.k);
      }
      var first :- ExpectIdentifier();
      var list := [first];
      ListFirst(list, WriteString, Rest(position));
      ghost var todo := if wanted then w.value.x[1..] else [];
      while Current().kind == T.Comma
        invariant Valid() && position > start && list != []
                  && Rest(start) == WriteList(list, WriteString, Rest(position))
        invariant wanted ==> list + todo == w.value.x && Rest(position) == WriteMore(todo, WriteString, w.value.k)
        decreases |tokens| - position
      {
        if wanted {
          ListNext(list, todo, WriteString, w.value.k);
        }
        var _ := Expect(T.Comma);
        var next :- ExpectIdentifier();
        WriteListLast(list, next, WriteString, Rest(position));
        list, todo := list + [next], if wanted then todo[1..] else todo;
      }
      if wanted {
        ListNext(list, todo, WriteString, w.value.k);
      }
      return Ok(list);
    }

    method ParseDataType() returns (r: Result<DataType, ParseError>)
      requires Valid()
      modifies this
      ensures Valid() && (r.Ok? <==> exists t: DataType :: TypeKind(t) == old(Current()).kind)
      ensures r.Ok? ==> position == old(position) + 1 && Rest(old(position)) == Next(TypeKind(r.value), Rest(position))
      ensures r.Err? ==> position == old(position) && r == Err(UnexpectedToken(old(Current()).offset))
    {
      var dataType: DataType;
      match Current().kind {
        case IntType => dataType := DataType.IntType;
        case BigIntType => dataType := DataType.BigIntType;
        case BooleanType => dataType := DataType.BooleanType;
        case VarcharType => dataType := DataType.VarcharType;
        case Null => dataType := NullType;
        case _ => return Err(UnexpectedToken(Current().offset));
      }
      assert TypeKind(dataType) == Current().kind;
      Advance();
      return Ok(dataType);
    }

    method ParseColumnDefinition() returns (r: Result<ColumnDefinition, ParseError>)
      requires Valid()
      modifies this
      ensures Valid() && position >= old(position)
      ensures r.Ok? ==> position > old(position) && Rest(old(position)) == WriteDefinition(r.value, Rest(position))
      ensures forall d, k :: Rest(old(position)) == WriteDefinition(d, k) ==> r == Ok(d) && Rest(position) == k
    {
      hide Rest;
      var name :- ExpectIdentifier();
      var dataType :- ParseDataType();
      return Ok(ColumnDefinition(name, dataType));
    }

    method ParseDefinitionList(ghost w: Option<Written<seq<ColumnDefinition>>>)
      returns (r: Result<seq<ColumnDefinition>, ParseError>)
      requires Valid()
      modifies this
      ensures Valid() && position >= old(position)
      ensures r.Ok? ==>
                position > old(position) && r.value != []
                    && Rest(old(position)) == WriteList(r.value, WriteDefinition, Rest(position))
      ensures w.Some? && w.value.x != [] && Rest(old(position)) == WriteList(w.value.x, WriteDefinition, w.value.k)
              && Stops(w.value.k, {T.Comma}) ==>
                r == Ok(w.value.x) && Rest(position) == w.value.k
    {
      hide Rest, WriteList, WriteMore, WriteDefinition;
      ghost var start := position;
      ghost var wanted := w.Some? && w.value.x != [] && Rest(start) == WriteList(w.value.x, WriteDefinition, w.value.k)
          && Stops(w.value.k, {T.Comma});
      if wanted {
        ListFirst(w.value.x, WriteDefinition, w.value.k);
      }
      var first :- ParseColumnDefinition();
      var list := [first];
      ListFirst(list, WriteDefinition, Rest(position));
      ghost var todo := if wanted then w.value.x[1..] else [];
      while Current().kind == T.Comma
        invariant Valid() && position > start && list != []
                  && Rest(start) == WriteList(list, WriteDefinition, Rest(position))
        invariant wanted ==> list + todo == w.value.x && Rest(position) == WriteMore(todo, WriteDefinition, w.value.k)
        decreases |tokens| - position
      {
        if wanted {
          ListNext(list, todo, WriteDefinition, w.value.k);
        }
        var _ := Expect(T.Comma);
        var next :- ParseColumnDefinition();
        WriteListLast(list, next, WriteDefinition, Rest(position));
        list, todo := list + [next], if wanted then todo[1..] else todo;
      }
      if wanted {
        ListNext(list, todo, WriteDefinition, w.value.k);
      }
      return Ok(list);
    }

    // ---------- FROM clauses ----------

    method ParseJoin(left: FromClause, ghost w: Option<Written<FromClause>>) returns (r: Result<FromClause, ParseError>)
      requires Valid() && Current().kind == T.Join
      modifies this
      ensures Valid() && position >= old(position)
      ensures r.Ok? ==>
                && position > old(position) && r.value.InnerJoin? && r.value.left == left && r.value.right.Table?
                && Rest(old(position)) == WriteJoin(r.value, Rest(position))
      ensures w.Some? && w.value.x.InnerJoin? && w.value.x.right.Table? && w.value.x.left == left
              && Rest(old(position)) == WriteJoin(w.value.x, w.value.k) && Stops(w.value.k, {T.Dot}) ==>
                r == Ok(w.value.x) && Rest(position) == w.value.k
    {
      hide Rest, WriteTable, WriteColumn;
      ghost var told := w.Some? && w.value.x.InnerJoin? && w.value.x.right.Table?;
      ghost var k2 := if told then Next(T.Eq, WriteColumn(w.value.x.on.right, w.value.k)) else T.End;
      ghost var k1 := if told then Next(T.On, WriteColumn(w.value.x.on.left, k2)) else T.End;
      var _ := Expect(T.Join);
      var table :- ParseTableReference(if told then Some(Written(w.value.x.right.table, k1)) else None);
      var _ :- Expect(T.On);
      var leftOn :- ParseColumnReference(if told then Some(Written(w.value.x.on.left, k2)) else None);
      var _ :- Expect(T.Eq);
      var rightOn :- ParseColumnReference(if told then Some(Written(w.value.x.on.right, w.value.k)) else None);
      return Ok(InnerJoin(left, JoinCondition(leftOn, rightOn), FromClause.Table(table)));
    }

    method ParseFromClause(ghost w: Option<Written<FromClause>>) returns (r: Result<FromClause, ParseError>)
      requires Valid()
      modifies this
      ensures Valid() && position >= old(position)
      ensures r.Ok? ==>
                position > old(position) && LeansLeft(r.value)
                    && Rest(old(position)) == WriteFrom(r.value, Rest(position))
      ensures w.Some? && LeansLeft(w.value.x) && Rest(old(position)) == WriteFrom(w.value.x, w.value.k)
              && Stops(w.value.k, {T.Dot, T.Join}) && StopsTable(w.value.k) ==>
                r == Ok(w.value.x) && Rest(position) == w.value.k
    {
      hide Rest, WriteTable, WriteJoin;
      ghost var start := position;
      ghost var wanted := w.Some? && LeansLeft(w.value.x) && Rest(start) == WriteFrom(w.value.x, w.value.k)
                          && Stops(w.value.k, {T.Dot, T.Join}) && StopsTable(w.value.k);
      ghost var d: nat := if wanted then Joins(w.value.x) else 0;
      if wanted {
        WriteLeftJoin(w.value.x, d, w.value.k);
        JoinStops(w.value.x, d, w.value.k);
      }
      var table :- ParseTableReference(if wanted
                                       then Some(Written(LeftJoin(w.value.x, d).table,
                                                         AfterJoin(w.value.x, d, w.value.k))) else None);
      var from := FromClause.Table(table);
      while Current().kind == T.Join
        invariant Valid() && position > start
        invariant LeansLeft(from) && Rest(start) == WriteFrom(from, Rest(position))
        invariant wanted ==>
                    d <= Joins(w.value.x) && from == LeftJoin(w.value.x, d)
                        && Rest(position) == AfterJoin(w.value.x, d, w.value.k)
        decreases |tokens| - position
      {
        if wanted {
          WriteLeftJoin(w.value.x, d, w.value.k);
          JoinStops(w.value.x, d, w.value.k);
          assert d > 0;
          JoinStops(w.value.x, d - 1, w.value.k);
        }
        from :- ParseJoin(from, if wanted then Some(Written(LeftJoin(w.value.x, d - 1),
                                                            AfterJoin(w.value.x, d - 1, w.value.k))) else None);
        d := if wanted then d - 1 else d;
      }
      if wanted {
        WriteLeftJoin(w.value.x, d, w.value.k);
        JoinStops(w.value.x, d, w.value.k);
        assert d == 0;
      }
      return Ok(from);
    }

    // ---------- clauses ----------

    method ParseWhere(ghost w: Option<Written<Option<Expression>>>) returns (r: Result<Option<Expression>, ParseError>)
      requires Valid()
      modifies this
      ensures Valid() && position >= old(position)
      ensures r.Ok? ==>
                (r.value.Some? ==> IsFilter(r.value.value))
                    && Rest(old(position)) == WriteWhere(r.value, Rest(position))
      ensures w.Some? && (w.value.x.Some? ==> IsFilter(w.value.x.value))
              && Rest(old(position)) == WriteWhere(w.value.x, w.value.k)
              && Stops(w.value.k, {T.And, T.Or, T.Where}) ==>
                r == Ok(w.value.x) && Rest(position) == w.value.k
    {
      hide Rest;
      if Current().kind == T.Where {
        var _ := Expect(T.Where);
        var filter :- ParseFilter(if w.Some? && w.value.x.Some? then Some(Written(w.value.x.value, w.value.k))
                                  else None);
        return Ok(Some(filter));
      }
      return Ok(None);
    }

    method ParseGroupByClause(ghost w: Option<Written<Option<seq<ColumnReference>>>>)
      returns (r: Result<Option<seq<ColumnReference>>, ParseError>)
      requires Valid()
      modifies this
      ensures Valid() && position >= old(position)
      ensures r.Ok? ==>
                (r.value.Some? ==> r.value.value != []) && Rest(old(position)) == WriteGroupBy(r.value, Rest(position))
      ensures w.Some? && (w.value.x.Some? ==> w.value.x.value != [])
              && Rest(old(position)) == WriteGroupBy(w.value.x, w.value.k)
              && Stops(w.value.k, {T.Dot, T.Comma, T.Group}) ==>
                r == Ok(w.value.x) && Rest(position) == w.value.k
    {
      hide Rest, WriteList;
      if Current().kind == T.Group {
        var _ := Expect(T.Group);
        var _ :- Expect(T.By);
        var columns :- ParseGroupBy(if w.Some? && w.value.x.Some? then Some(Written(w.value.x.value, w.value.k))
                                    else None);
        return Ok(Some(columns));
      }
      return Ok(None);
    }

    method ParseOrderBy(ghost w: Option<Written<Option<OrderBy>>>, ghost asc: bool)
      returns (r: Result<Option<OrderBy>, ParseError>, ghost ascending: bool)
      requires Valid()
      modifies this
      ensures Valid() && position >= old(position)
      ensures r.Ok? ==> Rest(old(position)) == WriteOrderBy(r.value, ascending, Rest(position))
      ensures w.Some? && Rest(old(position)) == WriteOrderBy(w.value.x, asc, w.value.k)
              && Stops(w.value.k, {T.Dot, T.Asc, T.Desc, T.Order}) ==>
                r == Ok(w.value.x) && Rest(position) == w.value.k
    {
      hide Rest, WriteColumn;
      ascending := false;
      if Current().kind != T.Order {
        return Ok(None), ascending;
      }
      var _ := Expect(T.Order);
      var word := Expect(T.By);
      if word.Err? {
        return Err(word.error), ascending;
      }
      ghost var told := w.Some? && w.value.x.Some?;
      ghost var direction' := if !told then T.End
        else if w.value.x.value.direction.Descending? then Next(T.Desc, w.value.k) else if asc
            then Next(T.Asc, w.value.k) else w.value.k;
      var column := ParseColumnReference(if told then Some(Written(w.value.x.value.column, direction')) else None);
      if column.Err? {
        return Err(column.error), ascending;
      }
      var direction := Ascending;
      if Current().kind == T.Asc {
        var _ := Expect(T.Asc);
        ascending := true;
      } else if Current().kind == T.Desc {
        var _ := Expect(T.Desc);
        direction := Descending;
      }
      return Ok(Some(OrderBy(column.value, direction))), ascending;
    }

    method ParseLimit(ghost w: Option<Written<Option<nat>>>) returns (r: Result<Option<nat>, ParseError>)
      requires Valid()
      modifies this
      ensures Valid() && position >= old(position)
      ensures r.Ok? ==>
                (r.value.Some? ==> r.value.value <= MAX_LIMIT)
                    && Rest(old(position)) == WriteLimit(r.value, Rest(position))
      ensures w.Some? && (w.value.x.Some? ==> w.value.x.value <= MAX_LIMIT)
              && Rest(old(position)) == WriteLimit(w.value.x, w.value.k)
              && Stops(w.value.k, {T.Limit}) ==>
                r == Ok(w.value.x) && Rest(position) == w.value.k
    {
      hide Rest;
      if Current().kind != T.Limit {
        return Ok(None);
      }
      var _ := Expect(T.Limit);
      var literal :- ExpectLiteral();
      match literal
      case Integer(v) =>
        if v < 0 {
          return Err(UnexpectedToken(position));
        }
        return Ok(Some(v));
      case _ =>
        return Err(UnexpectedToken(position));
    }

    // ---------- statements ----------

    method ParseTail(ghost w: Option<Written<Tail>>, ghost asc: bool)
      returns (r: Result<Tail, ParseError>, ghost ascending: bool)
      requires Valid()
      modifies this
      ensures Valid() && position >= old(position)
      ensures r.Ok? ==> IsTail(r.value) && Rest(old(position)) == WriteTail(r.value, ascending, Rest(position))
      ensures w.Some? && IsTail(w.value.x) && EndsStatement(w.value.k)
              && Rest(old(position)) == WriteTail(w.value.x, asc, w.value.k) ==>
                r == Ok(w.value.x) && Rest(position) == w.value.k
    {
      hide Rest, WriteWhere, WriteGroupBy, WriteOrderBy, WriteLimit, IsFilter;
      ascending := false;
      ghost var told := w.Some? && IsTail(w.value.x) && EndsStatement(w.value.k);
      ghost var x := if told then w.value.x else Tail(None, None, None, None);
      ghost var k := if told then w.value.k else T.End;
      if told {
        SelectTails(x, asc, k);
      }
      ghost var k4 := WriteLimit(x.limit, k);
      ghost var k3 := WriteOrderBy(x.orderBy, asc, k4);
      ghost var k2 := WriteGroupBy(x.groupBy, k3);
      var filter := ParseWhere(Some(Written(x.filter, k2)));
      if filter.Err? {
        return Err(filter.error), ascending;
      }
      var groupBy := ParseGroupByClause(Some(Written(x.groupBy, k3)));
      if groupBy.Err? {
        return Err(groupBy.error), ascending;
      }
      var orderBy;
      orderBy, ascending := ParseOrderBy(Some(Written(x.orderBy, k4)), asc);
      if orderBy.Err? {
        return Err(orderBy.error), ascending;
      }
      var limit := ParseLimit(Some(Written(x.limit, k)));
      if limit.Err? {
        return Err(limit.error), ascending;
      }
      return Ok(Tail(filter.value, groupBy.value, orderBy.value, limit.value)), ascending;
    }

    method ParseSelect(ghost w: Option<Written<SelectStatement>>, ghost asc: bool)
      returns (r: Result<SelectStatement, ParseError>, ghost ascending: bool)
      requires Valid()
      modifies this
      ensures Valid() && position >= old(position)
      ensures r.Ok? ==> IsSelect(r.value) && Rest(old(position)) == WriteSelect(r.value, ascending, Rest(position))
      ensures w.Some? && IsSelect(w.value.x) && EndsStatement(w.value.k)
              && Rest(old(position)) == WriteSelect(w.value.x, asc, w.value.k) ==>
                r == Ok(w.value.x) && Rest(position) == w.value.k
    {
      hide Rest, WriteList, WriteFrom, WriteTail, LeansLeft, AreProjections, EndsStatement, IsTail, Stops, StopsTable,
           Begins;
      ascending := false;
      ghost var told := w.Some? && IsSelect(w.value.x) && EndsStatement(w.value.k)
          && Rest(position) == WriteSelect(w.value.x, asc, w.value.k);
      ghost var x := if told then w.value.x
          else SelectStatement([All], FromClause.Table(TableReference([], None)), None, None, None, None);
      ghost var k := if told then w.value.k else T.End;
      if told {
        TailStops(Tail(x.filter, x.groupBy, x.orderBy, x.limit), asc, k, x.from);
      } else {
        SomeSelect();
      }
      ghost var k1 := WriteTail(Tail(x.filter, x.groupBy, x.orderBy, x.limit), asc, k);
      var word := Expect(T.Select);
      if word.Err? {
        return Err(word.error), ascending;
      }
      var projections := ParseProjections(Some(Written(x.projections, Next(T.From, WriteFrom(x.from, k1)))));
      if projections.Err? {
        return Err(projections.error), ascending;
      }
      word := Expect(T.From);
      if word.Err? {
        return Err(word.error), ascending;
      }
      var from := ParseFromClause(Some(Written(x.from, k1)));
      if from.Err? {
        return Err(from.error), ascending;
      }
      var tail;
      tail, ascending := ParseTail(Some(Written(Tail(x.filter, x.groupBy, x.orderBy, x.limit), k)), asc);
      if tail.Err? {
        return Err(tail.error), ascending;
      }
      var Tail(filter, groupBy, orderBy, limit) := tail.value;
      return Ok(SelectStatement(projections.value, from.value, filter, groupBy, orderBy, limit)), ascending;
    }

    method ParseInsert(ghost w: Option<Written<Statement>>) returns (r: Result<Statement, ParseError>)
      requires Valid()
      modifies this
      ensures Valid() && position >= old(position)
      ensures r.Ok? ==>
                && r.value.Insert? && r.value.literals != []
                && Rest(old(position)) == WriteInsert(r.value.into, r.value.literals, Rest(position))
      ensures w.Some? && w.value.x.Insert? && w.value.x.literals != []
              && Rest(old(position)) == WriteInsert(w.value.x.into, w.value.x.literals, w.value.k) ==>
                r == Ok(w.value.x) && Rest(position) == w.value.k
    {
      hide Rest, WriteList, Stops;
      ghost var list := if w.Some? && w.value.x.Insert?
          then Some(Written(w.value.x.literals, Next(T.RightParen, w.value.k))) else None;
      ParenStops(if w.Some? then w.value.k else T.End);
      var _ :- Expect(T.Insert);
      var _ :- Expect(T.Into);
      var table :- ExpectIdentifier();
      var _ :- Expect(T.Values);
      var _ :- Expect(T.LeftParen);
      var literals :- ParseLiteralList(list);
      var _ :- Expect(T.RightParen);
      return Ok(Insert(table, literals));
    }

    /** SET, the assignments and the filter of an UPDATE. */
    method ParseSet(ghost w: Option<Written<(seq<Assignment>, Option<Expression>)>>)
      returns (r: Result<(seq<Assignment>, Option<Expression>), ParseError>)
      requires Valid()
      modifies this
      ensures Valid() && position >= old(position)
      ensures r.Ok? ==>
                && r.value.0 != [] && (r.value.1.Some? ==> IsFilter(r.value.1.value))
                && Rest(old(position)) == WriteSet(r.value.0, r.value.1, Rest(position))
      ensures w.Some? && w.value.x.0 != [] && (w.value.x.1.Some? ==> IsFilter(w.value.x.1.value))
              && EndsStatement(w.value.k)
              && Rest(old(position)) == WriteSet(w.value.x.0, w.value.x.1, w.value.k) ==>
                r == Ok(w.value.x) && Rest(position) == w.value.k
    {
      hide Rest, WriteList, WriteWhere, IsFilter;
      ghost var told := w.Some? && (w.value.x.1.Some? ==> IsFilter(w.value.x.1.value)) && EndsStatement(w.value.k);
      if told {
        WhereEnds(w.value.x.1, w.value.k);
      }
      var _ :- Expect(T.Set);
      var assignments :- ParseAssignments(if told then Some(Written(w.value.x.0, WriteWhere(w.value.x.1, w.value.k)))
                                          else None);
      var filter :- ParseWhere(if told then Some(Written(w.value.x.1, w.value.k)) else None);
      return Ok((assignments, filter));
    }

    method ParseUpdate(ghost w: Option<Written<Statement>>) returns (r: Result<Statement, ParseError>)
      requires Valid()
      modifies this
      ensures Valid() && position >= old(position)
      ensures r.Ok? ==>
                && r.value.Update? && UpdateOk(r.value.from, r.value.assignments, r.value.filter)
                && Rest(old(position)) == WriteUpdate(r.value.from, r.value.assignments, r.value.filter, Rest(position))
      ensures w.Some? && w.value.x.Update? && UpdateOk(w.value.x.from, w.value.x.assignments, w.value.x.filter)
              && EndsStatement(w.value.k)
              && Rest(old(position)) == WriteUpdate(w.value.x.from, w.value.x.assignments, w.value.x.filter,
                                                    w.value.k) ==>
                r == Ok(w.value.x) && Rest(position) == w.value.k
    {
      hide Rest, WriteSet, WriteFrom, IsFilter, LeansLeft;
      ghost var told := w.Some? && w.value.x.Update?
          && UpdateOk(w.value.x.from, w.value.x.assignments, w.value.x.filter);
      ghost var x := if told then Some(Written((w.value.x.assignments, w.value.x.filter), w.value.k)) else None;
      if told {
        SetBegins(w.value.x.assignments, w.value.x.filter, w.value.k);
      }
      var _ :- Expect(T.Update);
      var from :- ParseFromClause(
        if told then Some(Written(w.value.x.from, WriteSet(w.value.x.assignments, w.value.x.filter, w.value.k)))
            else None);
      var changes :- ParseSet(x);
      return Ok(Update(from, changes.0, changes.1));
    }

    method ParseDeleteTargets(ghost w: Option<Written<Option<seq<string>>>>)
      returns (r: Result<Option<seq<string>>, ParseError>)
      requires Valid()
      modifies this
      ensures Valid() && position >= old(position)
      ensures r.Ok? && r.value.None? ==> position == old(position)
      ensures r.Ok? && r.value.Some? ==>
                r.value.value != [] && Rest(old(position)) == WriteList(r.value.value, WriteString, Rest(position))
      ensures w.Some? && w.value.k.Then? && w.value.k.kind == T.From && w.value.x.None?
              && Rest(old(position)) == w.value.k ==>
                r == Ok(None)
      ensures w.Some? && w.value.k.Then? && w.value.k.kind == T.From && w.value.x.Some? && w.value.x.value != []
              && Rest(old(position)) == WriteList(w.value.x.value, WriteString, w.value.k) ==>
                r == Ok(w.value.x) && Rest(position) == w.value.k
    {
      hide Rest;
      if Current().kind == T.From {
        return Ok(None);
      }
      var targets :- ParseTargets(if w.Some? && w.value.x.Some? then Some(Written(w.value.x.value, w.value.k))
                                  else None);
      return Ok(Some(targets));
    }

    /** FROM, the tables and the filter of a DELETE. */
    method ParseFromWhere(ghost w: Option<Written<(FromClause, Option<Expression>)>>)
      returns (r: Result<(FromClause, Option<Expression>), ParseError>)
      requires Valid()
      modifies this
      ensures Valid() && position >= old(position)
      ensures r.Ok? ==>
                && LeansLeft(r.value.0) && (r.value.1.Some? ==> IsFilter(r.value.1.value))
                && Rest(old(position)) == WriteFromWhere(r.value.0, r.value.1, Rest(position))
      ensures w.Some? && LeansLeft(w.value.x.0) && (w.value.x.1.Some? ==> IsFilter(w.value.x.1.value))
              && EndsStatement(w.value.k)
              && Rest(old(position)) == WriteFromWhere(w.value.x.0, w.value.x.1, w.value.k) ==>
                r == Ok(w.value.x) && Rest(position) == w.value.k
    {
      hide Rest, WriteFrom, WriteWhere, IsFilter, LeansLeft;
      ghost var told := w.Some? && (w.value.x.1.Some? ==> IsFilter(w.value.x.1.value)) && EndsStatement(w.value.k);
      if told {
        WhereEnds(w.value.x.1, w.value.k);
      }
      var _ :- Expect(T.From);
      var from :- ParseFromClause(if told then Some(Written(w.value.x.0, WriteWhere(w.value.x.1, w.value.k)))
                                  else None);
      var filter :- ParseWhere(if told then Some(Written(w.value.x.1, w.value.k)) else None);
      return Ok((from, filter));
    }

    method ParseDelete(ghost w: Option<Written<Statement>>) returns (r: Result<Statement, ParseError>)
      requires Valid()
      modifies this
      ensures Valid() && position >= old(position)
      ensures r.Ok? ==>
                && r.value.Delete? && DeleteOk(r.value.targets, r.value.deleteFrom, r.value.where_)
                && Rest(old(position)) == WriteDelete(r.value.targets, r.value.deleteFrom, r.value.where_,
                                                      Rest(position))
      ensures w.Some? && w.value.x.Delete? && DeleteOk(w.value.x.targets, w.value.x.deleteFrom, w.value.x.where_)
              && EndsStatement(w.value.k)
              && Rest(old(position)) == WriteDelete(w.value.x.targets, w.value.x.deleteFrom, w.value.x.where_,
                                                    w.value.k) ==>
                r == Ok(w.value.x) && Rest(position) == w.value.k
    {
      hide Rest, WriteList, WriteFromWhere, IsFilter, LeansLeft;
      ghost var told := w.Some? && w.value.x.Delete?
          && DeleteOk(w.value.x.targets, w.value.x.deleteFrom, w.value.x.where_);
      ghost var x := if told then Some(Written((w.value.x.deleteFrom, w.value.x.where_), w.value.k)) else None;
      if told {
        FromBegins(w.value.x.deleteFrom, w.value.x.where_, w.value.k);
      }
      var _ :- Expect(T.Delete);
      var targets :- ParseDeleteTargets(
        if told then Some(Written(w.value.x.targets, WriteFromWhere(w.value.x.deleteFrom, w.value.x.where_, w.value.k)))
            else None);
      var rest :- ParseFromWhere(x);
      return Ok(Delete(targets, rest.0, rest.1));
    }

    /** After CREATE. */
    method ParseCreateTable(ghost w: Option<Written<Statement>>) returns (r: Result<Statement, ParseError>)
      requires Valid()
      modifies this
      ensures Valid() && position >= old(position)
      ensures r.Ok? ==>
                && r.value.CreateTable? && r.value.columns != []
                && Rest(old(position)) == WriteCreateTable(r.value.table, r.value.columns, Rest(position))
      ensures w.Some? && w.value.x.CreateTable? && w.value.x.columns != []
              && Rest(old(position)) == WriteCreateTable(w.value.x.table, w.value.x.columns, w.value.k) ==>
                r == Ok(w.value.x) && Rest(position) == w.value.k
    {
      hide Rest, WriteList;
      var _ :- Expect(T.Table);
      var table :- ExpectIdentifier();
      var _ :- Expect(T.LeftParen);
      var columns :- ParseDefinitionList(if w.Some? && w.value.x.CreateTable?
                                         then Some(Written(w.value.x.columns, Next(T.RightParen, w.value.k)))
                                             else None);
      var _ :- Expect(T.RightParen);
      return Ok(CreateTable(table, columns));
    }

    /** After CREATE. */
    method ParseCreateIndex(ghost w: Option<Written<Statement>>) returns (r: Result<Statement, ParseError>)
      requires Valid()
      modifies this
      ensures Valid() && position >= old(position)
      ensures r.Ok? ==>
                && r.value.CreateIndex?
                && Rest(old(position)) == WriteCreateIndex(r.value.index, r.value.onTable, r.value.column,
                                                           Rest(position))
      ensures w.Some? && w.value.x.CreateIndex?
              && Rest(old(position)) == WriteCreateIndex(w.value.x.index, w.value.x.onTable, w.value.x.column,
                                                         w.value.k) ==>
                r == Ok(w.value.x) && Rest(position) == w.value.k
    {
      hide Rest;
      var _ :- Expect(T.Index);
      var index :- ExpectIdentifier();
      var _ :- Expect(T.On);
      var table :- ExpectIdentifier();
      var _ :- Expect(T.LeftParen);
      var column :- ExpectIdentifier();
      var _ :- Expect(T.RightParen);
      return Ok(CreateIndex(index, table, column));
    }

    /** Whatever is accepted is what the tokens say; whatever is written with the
        tokens, and a semicolon after it, is read back. */
    method Parse(ghost w: Option<Statement>, ghost asc: bool)
      returns (r: Result<Statement, ParseError>, ghost ascending: bool)
      requires Valid()
      modifies this
      ensures Valid() && position >= old(position)
      ensures r.Ok? ==> IsStatement(r.value) && Tokens(r.value, ascending, Rest(old(position)))
      ensures w.Some? && IsStatement(w.value) && Tokens(w.value, asc, Rest(old(position))) ==> r == Ok(w.value)
    {
      ascending := false;
      ghost var start := position;
      ghost var told := w.Some? && IsStatement(w.value) && Tokens(w.value, asc, Rest(start));
      ghost var w' := if told then Some(Written(w.value, After(w.value, asc, Rest(start)))) else None;
      if told {
        AfterIsEnd(w.value, asc, Rest(start));
      }
      r, ascending := ParseBody(w', asc);
      if r.Err? {
        return;
      }
      var end := Expect(T.Semicolon);
      if end.Err? {
        return Err(end.error), ascending;
      }
      end := Expect(T.Eof);
      if end.Err? {
        return Err(end.error), ascending;
      }
      assert Rest(start) == WriteStatement(r.value, ascending, Next(T.Semicolon, Next(T.Eof, Rest(position + 1))));
    }

    method ParseBody(ghost w: Option<Written<Statement>>, ghost asc: bool)
      returns (r: Result<Statement, ParseError>, ghost ascending: bool)
      requires Valid()
      modifies this
      ensures Valid() && position >= old(position)
      ensures r.Ok? ==>
                IsStatement(r.value) && Rest(old(position)) == WriteStatement(r.value, ascending, Rest(position))
      ensures w.Some? && IsStatement(w.value.x) && EndsStatement(w.value.k)
              && Rest(old(position)) == WriteStatement(w.value.x, asc, w.value.k) ==>
                r == Ok(w.value.x) && Rest(position) == w.value.k
    {
      hide Rest, IsStatement, WriteStatement, WriteSelect, IsSelect, UpdateOk, DeleteOk;
      ascending := false;
      if w.Some? && IsStatement(w.value.x) {
        StatementKind(w.value.x, asc, w.value.k);
      }
      match Current().kind {
      case Select =>
        var select;
        select, ascending := ParseSelect(if w.Some? && w.value.x.Select? then Some(Written(w.value.x.select, w.value.k))
                                         else None, asc);
        if select.Err? {
          return Err(select.error), ascending;
        }
        r := Ok(Select(select.value));
      case Create =>
        var offset := Current().offset;
        var _ := Expect(T.Create);
        match Current().kind {
          case Table => r := ParseCreateTable(w);
          case Index => r := ParseCreateIndex(w);
          case _ => r := Err(UnexpectedToken(offset));
        }
      case Insert =>
        r := ParseInsert(w);
      case Update =>
        r := ParseUpdate(w);
      case Delete =>
        r := ParseDelete(w);
      case _ =>
        r := Err(UnexpectedToken(Current().offset));
      }
      if r.Ok? {
        AnyStatement(r.value);
        StatementKind(r.value, ascending, Rest(position));
      }
    }
  }
}
