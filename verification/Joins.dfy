/** Nested-loop and hash joins. */
module Joins {
  import opened Wrappers
  import opened Keys
  import opened Rows
  import opened RowMeaning

  datatype JoinCondition = JoinCondition(left: Column, right: Column)

  // ---------- the meaning of a join ----------

  function JoinColumnValue(schema: Schema, l: QueryRow, r: QueryRow, c: Column): Result<Value, ExecutorError> {
    if Has(l, c.instance) then ColumnValue(schema, l, c)
    else if Has(r, c.instance) then ColumnValue(schema, r, c)
    else Err(TableInstanceNotFound)
  }

  function Matches(schema: Schema, l: QueryRow, r: QueryRow, on: JoinCondition): Result<bool, ExecutorError> {
    var a, b := JoinColumnValue(schema, l, r, on.left), JoinColumnValue(schema, l, r, on.right);
    if a.Err? then Err(a.error)
    else if b.Err? then Err(b.error)
    else Ok(Holds(a.value, Equals, b.value))
  }

  /** The rows that one left row joins to, up to the first error. */
  function JoinOne(schema: Schema, l: QueryRow, right: seq<QueryRow>, on: JoinCondition):
      Result<seq<QueryRow>, ExecutorError> {
    if right == [] then Ok([])
    else
      var before := JoinOne(schema, l, right[..|right| - 1], on);
      var r := right[|right| - 1];
      var m := Matches(schema, l, r, on);
      if before.Err? then before
      else if m.Err? then Err(m.error)
      else Ok(before.value + if m.value then [l + r] else [])
  }

  function Join(schema: Schema, left: seq<QueryRow>, right: seq<QueryRow>, on: JoinCondition):
      Result<seq<QueryRow>, ExecutorError> {
    if left == [] then Ok([])
    else
      var before := Join(schema, left[..|left| - 1], right, on);
      var last := JoinOne(schema, left[|left| - 1], right, on);
      if before.Err? then before
      else if last.Err? then last
      else Ok(before.value + last.value)
  }

  lemma {:induction false} JoinOneError(schema: Schema, l: QueryRow, right: seq<QueryRow>, on: JoinCondition, n: nat)
    requires n <= |right| && JoinOne(schema, l, right[..n], on).Err?
    ensures JoinOne(schema, l, right, on) == JoinOne(schema, l, right[..n], on)
    decreases |right|
  {
    if n < |right| {
      assert right[..|right| - 1][..n] == right[..n];
      JoinOneError(schema, l, right[..|right| - 1], on, n);
    } else {
      assert right[..n] == right;
    }
  }

  lemma {:induction false} JoinError(schema: Schema, left: seq<QueryRow>, right: seq<QueryRow>, on: JoinCondition,
                                     n: nat)
    requires n <= |left| && Join(schema, left[..n], right, on).Err?
    ensures Join(schema, left, right, on) == Join(schema, left[..n], right, on)
    decreases |left|
  {
    if n < |left| {
      assert left[..|left| - 1][..n] == left[..n];
      JoinError(schema, left[..|left| - 1], right, on, n);
    } else {
      assert left[..n] == left;
    }
  }

  // ---------- a join in plain terms ----------

  /** The two columns of a join condition have one value, and it is not NULL. */
  ghost predicate Agrees(schema: Schema, row: QueryRow, on: JoinCondition) {
    exists k: Key :: HasValue(schema, row, on.left, Some(k)) && HasValue(schema, row, on.right, Some(k))
  }

  ghost predicate Lacks(schema: Schema, row: QueryRow, c: Column) {
    forall v :: !HasValue(schema, row, c, v)
  }

  /** Two rows match if side by side they agree; an error is a column without a value. */
  lemma MatchesMeans(schema: Schema, l: QueryRow, r: QueryRow, on: JoinCondition)
    ensures Matches(schema, l, r, on).Err? <==> Lacks(schema, l + r, on.left) || Lacks(schema, l + r, on.right)
    ensures Matches(schema, l, r, on).Ok? ==> (Matches(schema, l, r, on).value <==> Agrees(schema, l + r, on))
  {
    hide HasValue, ColumnValue;
    ValueInJoined(schema, l, r, on.left);
    ValueInJoined(schema, l, r, on.right);
    NoPartNoValue(schema, r, on.left);
    NoPartNoValue(schema, r, on.right);
    forall v ensures ColumnValue(schema, l + r, on.left) == Ok(v) <==> HasValue(schema, l + r, on.left, v) {
      ColumnValueMeans(schema, l + r, on.left, v);
    }
    forall v ensures ColumnValue(schema, l + r, on.right) == Ok(v) <==> HasValue(schema, l + r, on.right, v) {
      ColumnValueMeans(schema, l + r, on.right, v);
    }
    if Matches(schema, l, r, on).Ok? {
      HoldsMeans(ColumnValue(schema, l + r, on.left).value, Equals, ColumnValue(schema, l + r, on.right).value);
    }
  }

  lemma NoPartNoValue(schema: Schema, row: QueryRow, c: Column)
    ensures !Has(row, c.instance) ==> ColumnValue(schema, row, c).Err?
  {
  }

  /** A left row beside each right row that agrees with it, in order. */
  ghost function AgreeingOne(schema: Schema, l: QueryRow, right: seq<QueryRow>, on: JoinCondition): seq<QueryRow> {
    if right == [] then []
    else
      var n := |right| - 1;
      AgreeingOne(schema, l, right[..n], on) + if Agrees(schema, l + right[n], on) then [l + right[n]] else []
  }

  /** All pairs that agree, left rows outermost. */
  ghost function Agreeing(schema: Schema, left: seq<QueryRow>, right: seq<QueryRow>, on: JoinCondition): seq<QueryRow> {
    if left == [] then []
    else Agreeing(schema, left[..|left| - 1], right, on) + AgreeingOne(schema, left[|left| - 1], right, on)
  }

  /** Some pair cannot be compared. */
  ghost predicate Incomparable(schema: Schema, left: seq<QueryRow>, right: seq<QueryRow>, on: JoinCondition) {
    exists i, j :: 0 <= i < |left| && 0 <= j < |right|
                   && (Lacks(schema, left[i] + right[j], on.left) || Lacks(schema, left[i] + right[j], on.right))
  }

  lemma {:induction false} JoinOneMeans(schema: Schema, l: QueryRow, right: seq<QueryRow>, on: JoinCondition)
    ensures JoinOne(schema, l, right, on).Ok? ==>
              JoinOne(schema, l, right, on).value == AgreeingOne(schema, l, right, on)
    ensures JoinOne(schema, l, right, on).Err? <==>
            exists j :: 0 <= j < |right|
                        && (Lacks(schema, l + right[j], on.left) || Lacks(schema, l + right[j], on.right))
    decreases |right|
  {
    hide Matches, Agrees, Lacks;
    if right == [] {
    } else {
      var n := |right| - 1;
      JoinOneMeans(schema, l, right[..n], on);
      MatchesMeans(schema, l, right[n], on);
      assert forall j :: 0 <= j < n ==> right[..n][j] == right[j];
    }
  }

  lemma {:induction false} JoinMeans(schema: Schema, left: seq<QueryRow>, right: seq<QueryRow>, on: JoinCondition)
    ensures Join(schema, left, right, on).Ok? ==>
              Join(schema, left, right, on).value == Agreeing(schema, left, right, on)
    ensures Join(schema, left, right, on).Err? <==> Incomparable(schema, left, right, on)
    decreases |left|
  {
    hide JoinOne, AgreeingOne, Lacks;
    if left == [] {
    } else {
      var n := |left| - 1;
      JoinMeans(schema, left[..n], right, on);
      JoinOneMeans(schema, left[n], right, on);
      assert forall i :: 0 <= i < n ==> left[..n][i] == left[i];
    }
  }

  method NestedLoopJoin(schema: Schema, left: seq<QueryRow>, right: seq<QueryRow>, on: JoinCondition)
    returns (r: Result<seq<QueryRow>, ExecutorError>)
    ensures r == Join(schema, left, right, on)
    ensures r.Ok? ==> r.value == Agreeing(schema, left, right, on)
    ensures r.Err? <==> Incomparable(schema, left, right, on)
  {
    hide Matches, Agreeing, Incomparable;
    JoinMeans(schema, left, right, on);
    var joined := [];
    var i := 0;
    while i < |left|
      invariant 0 <= i <= |left| && Join(schema, left[..i], right, on) == Ok(joined)
    {
      var j := 0;
      ghost var before := joined;
      assert left[..i + 1][..i] == left[..i];
      while j < |right|
        invariant 0 <= j <= |right|
        invariant JoinOne(schema, left[i], right[..j], on).Ok?
                  && joined == before + JoinOne(schema, left[i], right[..j], on).value
      {
        assert right[..j + 1][..j] == right[..j];
        var m := Matches(schema, left[i], right[j], on);
        if m.Err? {
          JoinOneError(schema, left[i], right, on, j + 1);
          JoinError(schema, left, right, on, i + 1);
          return Err(m.error);
        }
        if m.value {
          joined := joined + [left[i] + right[j]];
        }
        j := j + 1;
      }
      assert right[..j] == right;
      i := i + 1;
    }
    assert left[..i] == left;
    return Ok(joined);
  }

  // ---------- the hash join ----------

  function HashJoinColumn(row: QueryRow, on: JoinCondition): Option<Column> {
    if Has(row, on.left.instance) then Some(on.left)
    else if Has(row, on.right.instance) then Some(on.right)
    else None
  }

  /** The value that the hash join looks at in a row; NULL if there is none. */
  ghost function JoinKey(schema: Schema, row: QueryRow, on: JoinCondition): Value {
    var c := HashJoinColumn(row, on);
    if c.None? then None
    else
      var v := ColumnValue(schema, row, c.value);
      if v.Err? then None else v.value
  }

  /** The positions of the right rows with a given value, in order. */
  ghost function Positions(schema: Schema, right: seq<QueryRow>, on: JoinCondition, v: Value): seq<nat> {
    if right == [] then []
    else
      Positions(schema, right[..|right| - 1], on, v)
      + if JoinKey(schema, right[|right| - 1], on) == v then [|right| - 1] else []
  }

  /** The table holds, for every value but NULL, the positions of its rows. */
  ghost predicate Hashed(schema: Schema, right: seq<QueryRow>, on: JoinCondition, hash: map<Value, seq<nat>>) {
    && None !in hash
    && forall v: Value :: v.Some? ==> (if v in hash then hash[v] else []) == Positions(schema, right, on, v)
  }

  /** The left row beside the right rows at the given positions. */
  ghost function Pick(right: seq<QueryRow>, l: QueryRow, at: seq<nat>): seq<QueryRow> {
    if at == [] then []
    else
      var i := at[|at| - 1];
      Pick(right, l, at[..|at| - 1]) + [l + if i < |right| then right[i] else []]
  }

  lemma {:induction false} PickPrefix(right: seq<QueryRow>, n: nat, l: QueryRow, at: seq<nat>)
    requires n <= |right| && Below(at, n)
    ensures Pick(right[..n], l, at) == Pick(right, l, at)
    decreases |at|
  {
    if at == [] {
    } else {
      PickPrefix(right, n, l, at[..|at| - 1]);
    }
  }

  ghost predicate Below(at: seq<nat>, n: nat) {
    forall j :: 0 <= j < |at| ==> at[j] < n
  }

  lemma {:induction false} PositionsBounded(schema: Schema, right: seq<QueryRow>, on: JoinCondition, v: Value)
    ensures Below(Positions(schema, right, on, v), |right|)
  {
    if right == [] {
    } else {
      PositionsBounded(schema, right[..|right| - 1], on, v);
    }
  }

  /** No table instance occurs on both sides. */
  ghost predicate Disjoint(left: seq<QueryRow>, right: seq<QueryRow>) {
    forall i, j, x: nat :: 0 <= i < |left| && 0 <= j < |right| && Has(left[i], x) ==> !Has(right[j], x)
  }

  /** The columns of the condition have values wherever their instances occur. */
  ghost predicate OnResolves(schema: Schema, rows: seq<QueryRow>, on: JoinCondition) {
    Resolves(schema, rows, on.left) && Resolves(schema, rows, on.right)
  }

  /** When each side has a column of the condition, rows match exactly when their
      keys are equal and not NULL. */
  lemma MatchIsEqualKeys(schema: Schema, l: QueryRow, r: QueryRow, on: JoinCondition)
    requires Comparable(schema, l, r, on)
    ensures Matches(schema, l, r, on) == Ok(JoinKey(schema, l, on).Some?
                                            && JoinKey(schema, l, on) == JoinKey(schema, r, on))
  {
  }

  /** One left and one right row that the hash join can compare. */
  ghost predicate Comparable(schema: Schema, l: QueryRow, r: QueryRow, on: JoinCondition) {
    && HashJoinColumn(l, on).Some? && HashJoinColumn(r, on).Some?
    && ColumnValue(schema, l, HashJoinColumn(l, on).value).Ok?
        && ColumnValue(schema, r, HashJoinColumn(r, on).value).Ok?
    && !(Has(l, on.left.instance) && Has(r, on.left.instance))
        && !(Has(l, on.right.instance) && Has(r, on.right.instance))
  }

  /** The positions a left row looks up. */
  ghost function Found(schema: Schema, l: QueryRow, right: seq<QueryRow>, on: JoinCondition): seq<nat> {
    var k := JoinKey(schema, l, on);
    if k.None? then [] else Positions(schema, right, on, k)
  }

  /** What one left row joins to is what it finds through the positions of its key. */
  lemma {:induction false} JoinOneByKey(schema: Schema, l: QueryRow, right: seq<QueryRow>, on: JoinCondition)
    requires forall i :: 0 <= i < |right| ==> Comparable(schema, l, right[i], on)
    ensures JoinOne(schema, l, right, on) == Ok(Pick(right, l, Found(schema, l, right, on)))
    decreases |right|
  {
    hide Matches, Comparable, JoinKey, HashJoinColumn;
    if right == [] {
    } else {
      var n := |right| - 1;
      JoinOneByKey(schema, l, right[..n], on);
      assert Comparable(schema, l, right[n], on);
      MatchIsEqualKeys(schema, l, right[n], on);
      var before := Found(schema, l, right[..n], on);
      PositionsBounded(schema, right[..n], on, JoinKey(schema, l, on));
      PickPrefix(right, n, l, before);
      FoundStep(schema, l, right, on);
      var joined := Pick(right, l, before);
      assert joined + [] == joined;
    }
  }

  lemma FoundStep(schema: Schema, l: QueryRow, right: seq<QueryRow>, on: JoinCondition)
    requires right != []
    ensures var (n, k) := (|right| - 1, JoinKey(schema, l, on));
            var before := Found(schema, l, right[..n], on);
            if k.Some? && k == JoinKey(schema, right[n], on) then
              && Found(schema, l, right, on) == before + [n]
              && Pick(right, l, before + [n]) == Pick(right, l, before) + [l + right[n]]
            else Found(schema, l, right, on) == before
  {
    var n := |right| - 1;
    var before := Found(schema, l, right[..n], on);
    assert (before + [n])[..|before|] == before;
  }

  /** The row has a column of the condition, with a value. */
  ghost predicate Usable(schema: Schema, row: QueryRow, on: JoinCondition) {
    HashJoinColumn(row, on).Some? && ColumnValue(schema, row, HashJoinColumn(row, on).value).Ok?
  }

  lemma AllComparable(schema: Schema, left: seq<QueryRow>, right: seq<QueryRow>, on: JoinCondition, i: nat)
    requires Disjoint(left, right) && i < |left| && Usable(schema, left[i], on)
    requires forall j :: 0 <= j < |right| ==> Usable(schema, right[j], on)
    ensures forall j :: 0 <= j < |right| ==> Comparable(schema, left[i], right[j], on)
  {
  }

  /** A pair of rows that cannot be compared fails the whole join. */
  lemma PairFails(schema: Schema, left: seq<QueryRow>, right: seq<QueryRow>, on: JoinCondition, i: nat, j: nat)
    requires i < |left| && j < |right| && Matches(schema, left[i], right[j], on).Err?
    ensures Join(schema, left, right, on).Err?
  {
    hide Matches;
    assert right[..j + 1][..j] == right[..j];
    JoinOneError(schema, left[i], right, on, j + 1);
    JoinNext(schema, left, right, on, i);
    JoinError(schema, left, right, on, i + 1);
  }

  /** A row with no value for its column cannot be compared with any of the other side. */
  lemma UnresolvedFails(schema: Schema, left: seq<QueryRow>, right: seq<QueryRow>, on: JoinCondition, i: nat, j: nat)
    requires Disjoint(left, right) && i < |left| && j < |right|
    requires (HashJoinColumn(left[i], on).Some? && !Usable(schema, left[i], on))
             || (HashJoinColumn(right[j], on).Some? && !Usable(schema, right[j], on))
    ensures Join(schema, left, right, on).Err?
  {
    assert forall x: nat :: Has(left[i], x) ==> !Has(right[j], x);
    PairFails(schema, left, right, on, i, j);
  }

  lemma HashStep(schema: Schema, right: seq<QueryRow>, on: JoinCondition, hash: map<Value, seq<nat>>, i: nat)
    requires i < |right| && Hashed(schema, right[..i], on, hash)
    ensures var v := JoinKey(schema, right[i], on);
            var at := (if v in hash then hash[v] else []) + [i];
            Hashed(schema, right[..i + 1], on, if v.None? then hash else hash[v := at])
  {
    hide JoinKey, Positions;
    forall v: Value
      ensures Positions(schema, right[..i + 1], on, v)
              == PositionsMore(Positions(schema, right[..i], on, v), JoinKey(schema, right[i], on) == v, i)
    {
      PositionsStep(schema, right, on, v, i);
    }
  }

  ghost function PositionsMore(at: seq<nat>, more: bool, i: nat): seq<nat> {
    if more then at + [i] else at
  }

  lemma PositionsStep(schema: Schema, right: seq<QueryRow>, on: JoinCondition, v: Value, i: nat)
    requires i < |right|
    ensures Positions(schema, right[..i + 1], on, v)
            == PositionsMore(Positions(schema, right[..i], on, v), JoinKey(schema, right[i], on) == v, i)
  {
    hide JoinKey;
    assert right[..i + 1][..i] == right[..i];
    var at := Positions(schema, right[..i], on, v);
    assert at + [] == at;
  }

  /** The hash join returns what the nested loop does, row for row: with NULL and
      duplicate keys, with the columns of the condition in either order, and when
      both of them lie on one side. Where a column has no value in some row, both
      fail, save that the hash join does so even if the other side is empty. */
  method HashJoin(schema: Schema, left: seq<QueryRow>, right: seq<QueryRow>, on: JoinCondition)
    returns (r: Result<seq<QueryRow>, ExecutorError>)
    ensures Disjoint(left, right) && r.Ok? ==>
              r == Join(schema, left, right, on) && r.value == Agreeing(schema, left, right, on)
    ensures Disjoint(left, right) && r.Err? && left != [] && right != [] ==> Join(schema, left, right, on).Err?
    ensures Disjoint(left, right) && OnResolves(schema, left, on) && OnResolves(schema, right, on) ==>
              r == Join(schema, left, right, on)
  {
    hide Positions, Pick, Join, JoinOne, Disjoint, Comparable, Hashed, JoinKey, Matches, Agreeing, Incomparable;
    JoinMeans(schema, left, right, on);
    var hash: map<Value, seq<nat>> := map[];
    HashStart(schema, right, on);
    var i := 0;
    while i < |right|
      invariant 0 <= i <= |right| && Hashed(schema, right[..i], on, hash)
      invariant forall j :: 0 <= j < i ==> Usable(schema, right[j], on)
    {
      var column := HashJoinColumn(right[i], on);
      if column.None? {
        r := NestedLoopJoin(schema, left, right, on);
        return;
      }
      var value := ColumnValue(schema, right[i], column.value);
      if value.Err? {
        if Disjoint(left, right) && left != [] {
          UnresolvedFails(schema, left, right, on, 0, i);
        }
        return Err(value.error);
      }
      HashStep(schema, right, on, hash, i);
      KeyIs(schema, right[i], on);
      if value.value != None {
        hash := hash[value.value := (if value.value in hash then hash[value.value] else []) + [i]];
      }
      i := i + 1;
    }
    assert right[..i] == right;
    r := Probe(schema, left, right, on, hash);
  }

  lemma HashStart(schema: Schema, right: seq<QueryRow>, on: JoinCondition)
    ensures Hashed(schema, right[..0], on, map[])
  {
  }

  lemma KeyIs(schema: Schema, row: QueryRow, on: JoinCondition)
    requires HashJoinColumn(row, on).Some? && ColumnValue(schema, row, HashJoinColumn(row, on).value).Ok?
    ensures JoinKey(schema, row, on) == ColumnValue(schema, row, HashJoinColumn(row, on).value).value
  {
  }

  lemma FoundIs(schema: Schema, l: QueryRow, right: seq<QueryRow>, on: JoinCondition, hash: map<Value, seq<nat>>)
    requires Hashed(schema, right, on, hash)
    ensures var k := JoinKey(schema, l, on);
            Found(schema, l, right, on) == (if k in hash then hash[k] else [])
                && (k in hash ==> Below(hash[k], |right|))
  {
    var k := JoinKey(schema, l, on);
    PositionsBounded(schema, right, on, k);
  }

  lemma JoinNext(schema: Schema, left: seq<QueryRow>, right: seq<QueryRow>, on: JoinCondition, i: nat)
    requires i < |left|
    ensures var (before, last) := (Join(schema, left[..i], right, on), JoinOne(schema, left[i], right, on));
            Join(schema, left[..i + 1], right, on) == if before.Err? then before else if last.Err? then last
                else Ok(before.value + last.value)
  {
    assert left[..i + 1][..i] == left[..i];
  }

  /** The second half of the hash join: look up every left row. */
  method Probe(schema: Schema, left: seq<QueryRow>, right: seq<QueryRow>, on: JoinCondition, hash: map<Value, seq<nat>>)
    returns (r: Result<seq<QueryRow>, ExecutorError>)
    requires Hashed(schema, right, on, hash) && forall j :: 0 <= j < |right| ==> Usable(schema, right[j], on)
    ensures Disjoint(left, right) && r.Ok? ==> r == Join(schema, left, right, on)
    ensures Disjoint(left, right) && r.Err? && right != [] ==> Join(schema, left, right, on).Err?
    ensures Disjoint(left, right) && OnResolves(schema, left, on) ==> r == Join(schema, left, right, on)
  {
    hide Positions, Pick, JoinOne, Disjoint, Comparable, Hashed, JoinKey, Found, HashJoinColumn, Matches;
    var joined := [];
    var i := 0;
    while i < |left|
      invariant 0 <= i <= |left| && (Disjoint(left, right) ==> Join(schema, left[..i], right, on) == Ok(joined))
    {
      var column := HashJoinColumn(left[i], on);
      if column.None? {
        r := NestedLoopJoin(schema, left, right, on);
        return;
      }
      var value := ColumnValue(schema, left[i], column.value);
      if value.Err? {
        ResolvedColumn(schema, left, on, i);
        if Disjoint(left, right) && right != [] {
          UnresolvedFails(schema, left, right, on, i, 0);
        }
        return Err(value.error);
      }
      KeyIs(schema, left[i], on);
      FoundIs(schema, left[i], right, on, hash);
      JoinNext(schema, left, right, on, i);
      if Disjoint(left, right) {
        AllComparable(schema, left, right, on, i);
        JoinOneByKey(schema, left[i], right, on);
      }
      var more := PickRows(left[i], right, if value.value in hash then hash[value.value] else []);
      joined := joined + more;
      i := i + 1;
    }
    assert left[..i] == left;
    return Ok(joined);
  }

  lemma ResolvedColumn(schema: Schema, rows: seq<QueryRow>, on: JoinCondition, i: nat)
    requires i < |rows| && HashJoinColumn(rows[i], on).Some?
    ensures OnResolves(schema, rows, on) ==> ColumnValue(schema, rows[i], HashJoinColumn(rows[i], on).value).Ok?
  {
  }

  method PickRows(l: QueryRow, right: seq<QueryRow>, at: seq<nat>) returns (rows: seq<QueryRow>)
    requires Below(at, |right|)
    ensures rows == Pick(right, l, at)
  {
    rows := [];
    var k := 0;
    while k < |at|
      invariant 0 <= k <= |at| && rows == Pick(right, l, at[..k])
    {
      assert at[..k + 1][..k] == at[..k];
      rows := rows + [l + right[at[k]]];
      k := k + 1;
    }
    assert at[..k] == at;
  }
}
