/** Reading tables through their indexes does not change the result of a query:
    after filtering, the rows are those of full scans. */
module Pushdown {
  import opened Wrappers
  import opened Keys
  import opened Rows
  import opened RowMeaning
  import opened Joins
  import opened FromClause

  /** How often a row occurs in a list. */
  ghost function Times(rows: seq<QueryRow>, x: QueryRow): nat {
    multiset(rows)[x]
  }

  lemma TimesAppend(rows: seq<QueryRow>, more: seq<QueryRow>, x: QueryRow)
    ensures Times(rows + more, x) == Times(rows, x) + Times(more, x)
  {
  }

  lemma TimesLast(rows: seq<QueryRow>, x: QueryRow)
    requires rows != []
    ensures Times(rows, x) == Times(rows[..|rows| - 1], x) + if rows[|rows| - 1] == x then 1 else 0
  {
    assert rows == rows[..|rows| - 1] + [rows[|rows| - 1]];
  }

  lemma TimesFew(y: QueryRow, x: QueryRow)
    ensures Times([], x) == 0 && Times([y], x) == if y == x then 1 else 0
  {
  }

  lemma TimesOccurs(rows: seq<QueryRow>, x: QueryRow)
    ensures Times(rows, x) > 0 <==> x in rows
  {
  }

  // ---------- filtering ----------

  /** A filter keeps every matching row as often as it occurs. */
  lemma {:induction false} FilterTimes(schema: Schema, rows: seq<QueryRow>, e: Expression, x: QueryRow)
    requires forall i :: 0 <= i < |rows| ==> RowMatches(schema, rows[i], e).Ok?
    ensures Filter(schema, rows, e).Ok?
    ensures Times(Filter(schema, rows, e).value, x)
          == if RowMatches(schema, x, e) == Ok(true) then Times(rows, x) else 0
    decreases |rows|
  {
    hide RowMatches;
    if rows == [] {
    } else {
      var n := |rows| - 1;
      FilterTimes(schema, rows[..n], e, x);
      TimesLast(rows, x);
      TimesAppend(Filter(schema, rows[..n], e).value, if RowMatches(schema, rows[n], e).value then [rows[n]]
                  else [], x);
    }
  }

  // ---------- joining ----------

  ghost function Bit(b: Result<bool, ExecutorError>): nat {
    if b == Ok(true) then 1 else 0
  }

  /** Left rows of one width: a joined row determines its parts. */
  lemma {:induction false} JoinOneTimes(schema: Schema, l: QueryRow, right: seq<QueryRow>, on: JoinCondition,
                                        x: QueryRow)
    requires |l| <= |x| && forall j :: 0 <= j < |right| ==> Matches(schema, l, right[j], on).Ok?
    ensures JoinOne(schema, l, right, on).Ok?
    ensures Times(JoinOne(schema, l, right, on).value, x)
         == if x[..|l|] == l then Bit(Matches(schema, l, x[|l|..], on)) * Times(right, x[|l|..]) else 0
    decreases |right|
  {
    hide Matches, Times;
    TimesFew(x, x);
    TimesFew(x, x[|l|..]);
    if right == [] {
    } else {
      var n := |right| - 1;
      JoinOneTimes(schema, l, right[..n], on, x);
      TimesLast(right, x[|l|..]);
      TimesFew(l + right[n], x);
      var more := if Matches(schema, l, right[n], on).value then [l + right[n]] else [];
      TimesAppend(JoinOne(schema, l, right[..n], on).value, more, x);
      JoinedIs(l, right[n], x);
    }
  }

  lemma JoinedIs(l: QueryRow, r: QueryRow, x: QueryRow)
    requires |l| <= |x|
    ensures l + r == x <==> x[..|l|] == l && x[|l|..] == r
  {
    assert x == x[..|l|] + x[|l|..];
    if l + r == x {
      assert (l + r)[..|l|] == l && (l + r)[|l|..] == r;
    }
  }

  lemma {:induction false} JoinTimes(schema: Schema, left: seq<QueryRow>, right: seq<QueryRow>, on: JoinCondition,
                                     w: nat, x: QueryRow)
    requires w <= |x| && forall i :: 0 <= i < |left| ==> |left[i]| == w
    requires forall i, j :: 0 <= i < |left| && 0 <= j < |right| ==> Matches(schema, left[i], right[j], on).Ok?
    ensures Join(schema, left, right, on).Ok?
    ensures Times(Join(schema, left, right, on).value, x)
         == Bit(Matches(schema, x[..w], x[w..], on)) * Times(left, x[..w]) * Times(right, x[w..])
    decreases |left|
  {
    if left == [] {
    } else {
      hide Bit, Matches, JoinOne;
      var n := |left| - 1;
      var m, r := Bit(Matches(schema, x[..w], x[w..], on)), Times(right, x[w..]);
      JoinTimes(schema, left[..n], right, on, w, x);
      JoinOneTimes(schema, left[n], right, on, x);
      TimesLast(left, x[..w]);
      TimesAppend(Join(schema, left[..n], right, on).value, JoinOne(schema, left[n], right, on).value, x);
      OneMore(m, Times(left[..n], x[..w]), left[n] == x[..w], r);
    }
  }

  lemma OneMore(m: nat, a: nat, hit: bool, r: nat)
    ensures m * (a + if hit then 1 else 0) * r == m * a * r + if hit then m * r else 0
  {
  }

  // ---------- what pushing a predicate down keeps ----------

  /** The parts of a row satisfy the predicates that were used on their tables. */
  ghost predicate Kept(db: Database, from: From, filter: Expression, row: QueryRow) {
    match from
    case Table(t, i) =>
      var p := IndexPredicate(filter, i);
      p.Some? && db.search(t, p.value.0.column, p.value.1).Some? ==>
        var v := ColumnValue(db.schema, row, p.value.0);
        v.Ok? && Holds(v.value, Equals, p.value.1)
    case InnerJoin(l, _, r) =>
      |row| == Width(from) && Kept(db, l, filter, row[..Width(l)]) && Kept(db, r, filter, row[Width(l)..])
  }

  /** A row that passes the filter satisfies each predicate taken from it. */
  lemma {:induction false} PassesPredicate(schema: Schema, row: QueryRow, e: Expression, instance: nat)
    requires RowMatches(schema, row, e) == Ok(true) && IndexPredicate(e, instance).Some?
    ensures var p := IndexPredicate(e, instance).value;
            && p.0.instance == instance && ColumnValue(schema, row, p.0).Ok?
            && Holds(ColumnValue(schema, row, p.0).value, Equals, p.1)
  {
    match e
    case Comparison(_, _, _) =>
    case And(l, r) =>
      if IndexPredicate(l, instance).Some? {
        PassesPredicate(schema, row, l, instance);
      } else {
        PassesPredicate(schema, row, r, instance);
      }
    case Or(_, _) =>
  }

  /** So filtering keeps only rows that all predicates keep. */
  lemma {:induction false} PassesKept(db: Database, from: From, filter: Expression, part: QueryRow, whole: QueryRow)
    requires FromBound(db.schema, from) && Fits(db, from, part) && RowMatches(db.schema, whole, filter) == Ok(true)
    requires forall x: nat :: x in Instances(from) ==> FindTableRow(whole, x) == FindTableRow(part, x)
    ensures Kept(db, from, filter, part)
  {
    match from
    case Table(t, i) =>
      if IndexPredicate(filter, i).Some? {
        PassesPredicate(db.schema, whole, filter, i);
      }
    case InnerJoin(l, on, r) =>
      var a, b := part[..Width(l)], part[Width(l)..];
      assert part == a + b;
      FitsWidth(db, l, a);
      FitsWidth(db, r, b);
      forall x: nat | x in Instances(l) ensures FindTableRow(whole, x) == FindTableRow(a, x) {
        FindInJoined(a, b, x);
      }
      forall x: nat | x in Instances(r) ensures FindTableRow(whole, x) == FindTableRow(b, x) {
        FindInJoined(a, b, x);
      }
      PassesKept(db, l, filter, a, whole);
      PassesKept(db, r, filter, b, whole);
  }

  // ---------- reading one table ----------

  /** The row that a table contributes under an instance. */
  ghost predicate IsTableRow(rows: map<RowId, seq<Value>>, instance: nat, x: QueryRow) {
    |x| == 1 && x[0].instance == instance && x[0].id in rows && x[0].values == rows[x[0].id]
  }

  lemma {:induction false} GetTimes(rows: map<RowId, seq<Value>>, instance: nat, ids: seq<RowId>, x: QueryRow)
    requires forall j :: 0 <= j < |ids| ==> ids[j] in rows
    ensures GetRows(rows, instance, ids).Ok?
    ensures Times(GetRows(rows, instance, ids).value, x)
          == if IsTableRow(rows, instance, x) then multiset(ids)[x[0].id] else 0
    decreases |ids|
  {
    if ids == [] {
    } else {
      var n := |ids| - 1;
      GetTimes(rows, instance, ids[..n], x);
      var row := [TableRow(ids[n], instance, rows[ids[n]])];
      TimesAppend(GetRows(rows, instance, ids[..n]).value, [row], x);
      assert ids == ids[..n] + [ids[n]];
      assert row == x <==> IsTableRow(rows, instance, x) && x[0].id == ids[n];
    }
  }

  /** Columns of the filter that name a table of the clause are columns of it. */
  ghost predicate FilterBoundOn(schema: Schema, from: From, e: Expression) {
    match e
    case Comparison(c, _, _) => c.instance in Instances(from) ==> BoundIn(schema, from, c)
    case And(l, r) => FilterBoundOn(schema, from, l) && FilterBoundOn(schema, from, r)
    case Or(l, r) => FilterBoundOn(schema, from, l) && FilterBoundOn(schema, from, r)
  }

  lemma {:induction false} BoundOnWhole(schema: Schema, from: From, e: Expression)
    requires FilterBound(schema, from, e)
    ensures FilterBoundOn(schema, from, e)
  {
    match e
    case Comparison(_, _, _) =>
    case And(l, r) => BoundOnWhole(schema, from, l); BoundOnWhole(schema, from, r);
    case Or(l, r) => BoundOnWhole(schema, from, l); BoundOnWhole(schema, from, r);
  }

  lemma {:induction false} BoundInstance(schema: Schema, from: From, c: Column)
    requires BoundIn(schema, from, c)
    ensures c.instance in Instances(from)
  {
    match from
    case Table(_, _) =>
    case InnerJoin(l, _, r) =>
      if BoundIn(schema, l, c) { BoundInstance(schema, l, c); } else { BoundInstance(schema, r, c); }
  }

  lemma {:induction false} BoundOnParts(schema: Schema, from: From, e: Expression)
    requires from.InnerJoin? && Instances(from.left) !! Instances(from.right) && FilterBoundOn(schema, from, e)
    ensures FilterBoundOn(schema, from.left, e) && FilterBoundOn(schema, from.right, e)
  {
    match e
    case Comparison(c, _, _) =>
      if c.instance in Instances(from) {
        if BoundIn(schema, from.left, c) { BoundInstance(schema, from.left, c); }
            else { BoundInstance(schema, from.right, c); }
      }
    case And(l, r) => BoundOnParts(schema, from, l); BoundOnParts(schema, from, r);
    case Or(l, r) => BoundOnParts(schema, from, l); BoundOnParts(schema, from, r);
  }

  lemma {:induction false} PredicateBound(schema: Schema, t: nat, i: nat, e: Expression)
    requires FilterBoundOn(schema, Table(t, i), e) && IndexPredicate(e, i).Some?
    ensures var c := IndexPredicate(e, i).value.0;
            c.instance == i && c.table == t && t in schema && c.column in schema[t]
  {
    match e
    case Comparison(_, _, _) =>
    case And(l, r) =>
      if IndexPredicate(l, i).Some? { PredicateBound(schema, t, i, l); } else { PredicateBound(schema, t, i, r); }
    case Or(_, _) =>
  }

  lemma ScanTimes(db: Database, t: nat, i: nat, x: QueryRow)
    requires DatabaseOk(db) && t in db.schema
    ensures FetchTableRows(db, t, i, None).Ok?
    ensures Times(FetchTableRows(db, t, i, None).value, x) == if Fits(db, Table(t, i), x) then 1 else 0
  {
    assert TableOk(db, t);
    forall j | 0 <= j < |db.scan[t]| ensures db.scan[t][j] in db.tables[t] {
      assert db.scan[t][j] in multiset(db.scan[t]);
    }
    GetTimes(db.tables[t], i, db.scan[t], x);
  }

  /** An index lookup yields the scanned rows that satisfy its predicate. */
  lemma LookupTimes(db: Database, t: nat, i: nat, e: Expression, x: QueryRow)
    requires DatabaseOk(db) && t in db.schema && FilterBoundOn(db.schema, Table(t, i), e)
    ensures FetchTableRows(db, t, i, Some(e)).Ok?
    ensures Times(FetchTableRows(db, t, i, Some(e)).value, x)
          == if Fits(db, Table(t, i), x) && Kept(db, Table(t, i), e, x) then 1 else 0
  {
    assert TableOk(db, t);
    var ids := Lookup(db, t, i, Some(e));
    if ids.None? {
      ScanTimes(db, t, i, x);
    } else {
      PredicateBound(db.schema, t, i, e);
      var (c, v) := IndexPredicate(e, i).value;
      assert IndexAgrees(db, t, c.column, v);
      forall j | 0 <= j < |ids.value| ensures ids.value[j] in db.tables[t] {
        assert ids.value[j] in multiset(ids.value);
      }
      GetTimes(db.tables[t], i, ids.value, x);
    }
  }

  // ---------- the FROM clause ----------

  lemma MatchDefined(db: Database, from: From, a: QueryRow, b: QueryRow)
    requires from.InnerJoin? && FromBound(db.schema, from) && Fits(db, from.left, a) && Fits(db, from.right, b)
    ensures Matches(db.schema, a, b, from.on).Ok?
    ensures Fits(db, from, a + b)
  {
    FitsWidth(db, from.left, a);
    FitsWidth(db, from.right, b);
    assert (a + b)[..Width(from.left)] == a && (a + b)[Width(from.left)..] == b;
    FitsResolves(db, from, a + b, from.on.left);
    FitsResolves(db, from, a + b, from.on.right);
    ValueInJoined(db.schema, a, b, from.on.left);
    ValueInJoined(db.schema, a, b, from.on.right);
  }

  lemma {:induction false} FromOk(db: Database, from: From, filter: Option<Expression>)
    requires DatabaseOk(db) && FromBound(db.schema, from)
    requires filter.Some? ==> FilterBoundOn(db.schema, from, filter.value)
    ensures FromRows(db, from, filter).Ok?
    ensures forall x :: x in FromRows(db, from, filter).value ==> Fits(db, from, x)
  {
    match from
    case Table(t, i) =>
      var rows := FetchTableRows(db, t, i, filter);
      if filter.None? { ScanTimes(db, t, i, []); } else { LookupTimes(db, t, i, filter.value, []); }
      forall x | x in rows.value ensures Fits(db, from, x) {
        if filter.None? { ScanTimes(db, t, i, x); } else { LookupTimes(db, t, i, filter.value, x); }
        TimesOccurs(rows.value, x);
      }
    case InnerJoin(l, on, r) =>
      if filter.Some? { BoundOnParts(db.schema, from, filter.value); }
      FromOk(db, l, filter);
      FromOk(db, r, filter);
      JoinOk(db, from, FromRows(db, l, filter).value, FromRows(db, r, filter).value);
  }

  lemma JoinReady(db: Database, from: From, left: seq<QueryRow>, right: seq<QueryRow>)
    requires from.InnerJoin? && FromBound(db.schema, from)
    requires (forall a :: a in left ==> Fits(db, from.left, a)) && (forall b :: b in right ==> Fits(db, from.right, b))
    ensures forall i :: 0 <= i < |left| ==> |left[i]| == Width(from.left)
    ensures forall i, j :: 0 <= i < |left| && 0 <= j < |right| ==> Matches(db.schema, left[i], right[j], from.on).Ok?
  {
    forall i | 0 <= i < |left| ensures |left[i]| == Width(from.left) {
      FitsWidth(db, from.left, left[i]);
    }
    forall i, j | 0 <= i < |left| && 0 <= j < |right| ensures Matches(db.schema, left[i], right[j], from.on).Ok? {
      MatchDefined(db, from, left[i], right[j]);
    }
  }

  lemma {:induction false} JoinMembers(schema: Schema, left: seq<QueryRow>, right: seq<QueryRow>, on: JoinCondition,
                                       x: QueryRow)
    requires Join(schema, left, right, on).Ok? && x in Join(schema, left, right, on).value
    ensures exists a, b :: a in left && b in right && x == a + b
    decreases |left|
  {
    var n := |left| - 1;
    if x in Join(schema, left[..n], right, on).value {
      JoinMembers(schema, left[..n], right, on, x);
    } else {
      JoinOneMembers(schema, left[n], right, on, x);
    }
  }

  lemma {:induction false} JoinOneMembers(schema: Schema, l: QueryRow, right: seq<QueryRow>, on: JoinCondition,
                                          x: QueryRow)
    requires JoinOne(schema, l, right, on).Ok? && x in JoinOne(schema, l, right, on).value
    ensures exists b :: b in right && x == l + b
    decreases |right|
  {
    var n := |right| - 1;
    if x in JoinOne(schema, l, right[..n], on).value {
      JoinOneMembers(schema, l, right[..n], on, x);
    } else {
      assert right[n] in right && x == l + right[n];
    }
  }

  lemma JoinOk(db: Database, from: From, left: seq<QueryRow>, right: seq<QueryRow>)
    requires from.InnerJoin? && FromBound(db.schema, from)
    requires (forall a :: a in left ==> Fits(db, from.left, a)) && (forall b :: b in right ==> Fits(db, from.right, b))
    ensures Join(db.schema, left, right, from.on).Ok?
    ensures forall x :: x in Join(db.schema, left, right, from.on).value ==> Fits(db, from, x)
  {
    JoinReady(db, from, left, right);
    JoinTimes(db.schema, left, right, from.on, Width(from.left),
              seq(Width(from.left), _ => TableRow(RowId(0, 0), 0, [])));
    forall x | x in Join(db.schema, left, right, from.on).value ensures Fits(db, from, x) {
      JoinMembers(db.schema, left, right, from.on, x);
      var a, b :| a in left && b in right && x == a + b;
      MatchDefined(db, from, a, b);
    }
  }

  lemma ProductKept(m: nat, a: nat, b: nat, ka: bool, kb: bool)
    ensures m * (if ka then a else 0) * (if kb then b else 0) == if ka && kb then m * a * b else 0
  {
  }

  /** With predicates pushed down, exactly the rows they keep are read. */
  lemma {:induction false} FromTimes(db: Database, from: From, e: Expression, x: QueryRow)
    requires DatabaseOk(db) && FromBound(db.schema, from) && FilterBoundOn(db.schema, from, e)
    ensures FromRows(db, from, Some(e)).Ok? && FromRows(db, from, None).Ok?
    ensures Times(FromRows(db, from, Some(e)).value, x)
          == if Kept(db, from, e, x) then Times(FromRows(db, from, None).value, x) else 0
  {
    hide Times, Matches, Join, Bit, DatabaseOk, FilterBoundOn;
    FromOk(db, from, Some(e));
    FromOk(db, from, None);
    match from
    case Table(t, i) =>
      ScanTimes(db, t, i, x);
      LookupTimes(db, t, i, e, x);
    case InnerJoin(l, on, r) =>
      BoundOnParts(db.schema, from, e);
      if |x| == Width(from) {
        JoinedTimes(db, from, Some(e), x);
        JoinedTimes(db, from, None, x);
        var a, b := x[..Width(l)], x[Width(l)..];
        FromTimes(db, l, e, a);
        FromTimes(db, r, e, b);
        assert Kept(db, from, e, x) <==> Kept(db, l, e, a) && Kept(db, r, e, b);
        ProductKept(Bit(Matches(db.schema, a, b, on)), Times(FromRows(db, l, None).value, a),
                    Times(FromRows(db, r, None).value, b),
          Kept(db, l, e, a), Kept(db, r, e, b));
      } else {
        WrongWidth(db, from, Some(e), x);
        WrongWidth(db, from, None, x);
      }
  }

  lemma WrongWidth(db: Database, from: From, filter: Option<Expression>, x: QueryRow)
    requires DatabaseOk(db) && FromBound(db.schema, from)
    requires filter.Some? ==> FilterBoundOn(db.schema, from, filter.value)
    requires |x| != Width(from)
    ensures FromRows(db, from, filter).Ok? && Times(FromRows(db, from, filter).value, x) == 0
  {
    FromOk(db, from, filter);
    TimesOccurs(FromRows(db, from, filter).value, x);
    if x in FromRows(db, from, filter).value {
      FitsWidth(db, from, x);
    }
  }

  lemma JoinedTimes(db: Database, from: From, filter: Option<Expression>, x: QueryRow)
    requires DatabaseOk(db) && FromBound(db.schema, from) && from.InnerJoin? && |x| == Width(from)
    requires filter.Some? ==> FilterBoundOn(db.schema, from, filter.value)
    ensures FromRows(db, from, filter).Ok? && FromRows(db, from.left, filter).Ok?
            && FromRows(db, from.right, filter).Ok?
    ensures var w := Width(from.left);
            var m := Bit(Matches(db.schema, x[..w], x[w..], from.on));
            var a, b := Times(FromRows(db, from.left, filter).value, x[..w]),
                Times(FromRows(db, from.right, filter).value, x[w..]);
            Times(FromRows(db, from, filter).value, x) == m * a * b
  {
    FromOk(db, from, filter);
    if filter.Some? { BoundOnParts(db.schema, from, filter.value); }
    FromOk(db, from.left, filter);
    FromOk(db, from.right, filter);
    var left, right := FromRows(db, from.left, filter).value, FromRows(db, from.right, filter).value;
    JoinReady(db, from, left, right);
    JoinTimes(db.schema, left, right, from.on, Width(from.left), x);
  }

  /** A query returns the same rows whether or not indexes are used. */
  lemma PushdownKeepsRows(db: Database, from: From, e: Expression)
    requires DatabaseOk(db) && FromBound(db.schema, from) && FilterBound(db.schema, from, e)
    ensures FromRows(db, from, Some(e)).Ok? && FromRows(db, from, None).Ok?
    ensures var (used, scanned) := (FromRows(db, from, Some(e)).value, FromRows(db, from, None).value);
            && Filter(db.schema, used, e).Ok? && Filter(db.schema, scanned, e).Ok?
            && multiset(Filter(db.schema, used, e).value) == multiset(Filter(db.schema, scanned, e).value)
  {
    BoundOnWhole(db.schema, from, e);
    FromOk(db, from, Some(e));
    FromOk(db, from, None);
    var used, scanned := FromRows(db, from, Some(e)).value, FromRows(db, from, None).value;
    forall i | 0 <= i < |used| ensures RowMatches(db.schema, used[i], e).Ok? {
      FilterDefined(db, from, used[i], e);
    }
    forall i | 0 <= i < |scanned| ensures RowMatches(db.schema, scanned[i], e).Ok? {
      FilterDefined(db, from, scanned[i], e);
    }
    FilterTimes(db.schema, used, e, []);
    FilterTimes(db.schema, scanned, e, []);
    forall x ensures Times(Filter(db.schema, used, e).value, x) == Times(Filter(db.schema, scanned, e).value, x) {
      FilterTimes(db.schema, used, e, x);
      FilterTimes(db.schema, scanned, e, x);
      FromTimes(db, from, e, x);
      TimesOccurs(scanned, x);
      if x in scanned && RowMatches(db.schema, x, e) == Ok(true) {
        PassesKept(db, from, e, x, x);
      }
    }
    SameTimes(Filter(db.schema, used, e).value, Filter(db.schema, scanned, e).value);
  }

  lemma SameTimes(a: seq<QueryRow>, b: seq<QueryRow>)
    requires forall x :: Times(a, x) == Times(b, x)
    ensures multiset(a) == multiset(b)
  {
    forall x ensures multiset(a)[x] == multiset(b)[x] {
      assert Times(a, x) == Times(b, x);
    }
  }

  // ---------- running a query ----------

  lemma JoinInputs(db: Database, from: From, left: seq<QueryRow>, right: seq<QueryRow>)
    requires from.InnerJoin? && FromBound(db.schema, from)
    requires (forall a :: a in left ==> Fits(db, from.left, a)) && (forall b :: b in right ==> Fits(db, from.right, b))
    ensures Disjoint(left, right) && OnResolves(db.schema, left, from.on) && OnResolves(db.schema, right, from.on)
  {
    forall i, j, x: nat | 0 <= i < |left| && 0 <= j < |right| && Has(left[i], x) ensures !Has(right[j], x) {
      FitsWidth(db, from.left, left[i]);
      FitsWidth(db, from.right, right[j]);
    }
    SideResolves(db, from, from.left, left, from.on.left);
    SideResolves(db, from, from.left, left, from.on.right);
    SideResolves(db, from, from.right, right, from.on.left);
    SideResolves(db, from, from.right, right, from.on.right);
  }

  lemma SideResolves(db: Database, from: From, side: From, rows: seq<QueryRow>, c: Column)
    requires from.InnerJoin? && FromBound(db.schema, from) && BoundIn(db.schema, from, c)
             && (side == from.left || side == from.right)
    requires forall a :: a in rows ==> Fits(db, side, a)
    ensures Resolves(db.schema, rows, c)
  {
    forall i | 0 <= i < |rows| && Has(rows[i], c.instance) ensures ColumnValue(db.schema, rows[i], c).Ok? {
      FitsWidth(db, side, rows[i]);
      if BoundIn(db.schema, side, c) {
        FitsResolves(db, side, rows[i], c);
      } else {
        BoundInstance(db.schema, if side == from.left then from.right else from.left, c);
      }
    }
  }

  method FetchTable(db: Database, table: nat, instance: nat, filter: Option<Expression>)
    returns (r: Result<seq<QueryRow>, QueryError>)
    ensures r == FetchTableRows(db, table, instance, filter)
  {
    if table !in db.tables || table !in db.scan {
      return Err(NoSuchTable);
    }
    var found := Lookup(db, table, instance, filter);
    var ids := if found.Some? then found.value else db.scan[table];
    var rows := [];
    var i := 0;
    while i < |ids|
      invariant 0 <= i <= |ids| && GetRows(db.tables[table], instance, ids[..i]) == Ok(rows)
    {
      assert ids[..i + 1][..i] == ids[..i];
      if ids[i] !in db.tables[table] {
        GetRowsError(db.tables[table], instance, ids, i + 1);
        return Err(RowNotFound);
      }
      rows := rows + [[TableRow(ids[i], instance, db.tables[table][ids[i]])]];
      i := i + 1;
    }
    assert ids[..i] == ids;
    return Ok(rows);
  }

  lemma {:induction false} GetRowsError(rows: map<RowId, seq<Value>>, instance: nat, ids: seq<RowId>, n: nat)
    requires n <= |ids| && GetRows(rows, instance, ids[..n]).Err?
    ensures GetRows(rows, instance, ids) == GetRows(rows, instance, ids[..n])
    decreases |ids|
  {
    if n < |ids| {
      assert ids[..|ids| - 1][..n] == ids[..n];
      GetRowsError(rows, instance, ids[..|ids| - 1], n);
    } else {
      assert ids[..n] == ids;
    }
  }

  /** Tables are read with the filter's predicates and joined by hashing. */
  method ExecuteFrom(db: Database, from: From, filter: Option<Expression>)
    returns (r: Result<seq<QueryRow>, QueryError>)
    requires DatabaseOk(db) && FromBound(db.schema, from)
             && (filter.Some? ==> FilterBoundOn(db.schema, from, filter.value))
    ensures r == FromRows(db, from, filter)
    decreases from
  {
    match from
    case Table(t, i) =>
      r := FetchTable(db, t, i, filter);
    case InnerJoin(l, on, right) =>
      if filter.Some? {
        BoundOnParts(db.schema, from, filter.value);
      }
      var leftRows := ExecuteFrom(db, l, filter);
      if leftRows.Err? {
        return leftRows;
      }
      var rightRows := ExecuteFrom(db, right, filter);
      if rightRows.Err? {
        return rightRows;
      }
      FromOk(db, l, filter);
      FromOk(db, right, filter);
      JoinInputs(db, from, leftRows.value, rightRows.value);
      var joined := HashJoin(db.schema, leftRows.value, rightRows.value, on);
      return if joined.Err? then Err(Executor(joined.error)) else Ok(joined.value);
  }

  // ---------- what a query is about ----------

  ghost predicate AllAgree(schema: Schema, from: From, row: QueryRow) {
    match from
    case Table(_, _) => true
    case InnerJoin(l, on, r) =>
      && |row| == Width(from) && AllAgree(schema, l, row[..Width(l)]) && AllAgree(schema, r, row[Width(l)..])
      && Agrees(schema, row, on)
  }

  /** One stored row of each table, such that every join condition holds and the
      filter too. */
  ghost predicate IsAbout(db: Database, from: From, filter: Option<Expression>, row: QueryRow) {
    && Fits(db, from, row) && AllAgree(db.schema, from, row)
    && (filter.Some? ==> Passes(db.schema, row, filter.value))
  }

  /** The rows of a query: each that it is about once, and no other. */
  ghost predicate Selects(db: Database, from: From, filter: Option<Expression>, rows: seq<QueryRow>) {
    forall x :: Times(rows, x) == if IsAbout(db, from, filter, x) then 1 else 0
  }

  lemma MatchesAgree(db: Database, from: From, a: QueryRow, b: QueryRow)
    requires from.InnerJoin? && FromBound(db.schema, from) && Fits(db, from.left, a) && Fits(db, from.right, b)
    ensures Matches(db.schema, a, b, from.on) == Ok(Agrees(db.schema, a + b, from.on))
  {
    MatchDefined(db, from, a, b);
    MatchesMeans(db.schema, a, b, from.on);
  }

  /** Nested loops over full scans list every combination of stored rows that
      agrees with the join conditions once. */
  lemma {:induction false} FromOnce(db: Database, from: From, x: QueryRow)
    requires DatabaseOk(db) && FromBound(db.schema, from)
    ensures FromRows(db, from, None).Ok?
    ensures Times(FromRows(db, from, None).value, x)
          == if Fits(db, from, x) && AllAgree(db.schema, from, x) then 1 else 0
  {
    hide Times, Matches, Join, DatabaseOk, Agrees, FetchTableRows;
    FromOk(db, from, None);
    match from
    case Table(t, i) =>
      ScanTimes(db, t, i, x);
    case InnerJoin(l, on, r) =>
      if |x| == Width(from) {
        var a, b := x[..Width(l)], x[Width(l)..];
        JoinedTimes(db, from, None, x);
        FromOnce(db, l, a);
        FromOnce(db, r, b);
        if Fits(db, l, a) && Fits(db, r, b) {
          MatchesAgree(db, from, a, b);
          assert a + b == x;
        }
        ProductOnce(Bit(Matches(db.schema, a, b, on)), Fits(db, l, a) && AllAgree(db.schema, l, a),
                    Fits(db, r, b) && AllAgree(db.schema, r, b));
      } else {
        WrongWidth(db, from, None, x);
      }
  }

  lemma ProductOnce(m: nat, ka: bool, kb: bool)
    ensures m * (if ka then 1 else 0) * (if kb then 1 else 0) == if ka && kb then m else 0
  {
  }

  lemma FilterOnce(db: Database, from: From, e: Expression)
    requires DatabaseOk(db) && FromBound(db.schema, from) && FilterBound(db.schema, from, e)
    requires FromRows(db, from, None).Ok? && Filter(db.schema, FromRows(db, from, None).value, e).Ok?
    ensures Selects(db, from, Some(e), Filter(db.schema, FromRows(db, from, None).value, e).value)
  {
    hide Times, RowMatches, Passes, AllAgree, FromRows, Filter, DatabaseOk, FilterBound, FromBound, Fits;
    FromOk(db, from, None);
    var rows := FromRows(db, from, None).value;
    forall k | 0 <= k < |rows| ensures RowMatches(db.schema, rows[k], e).Ok? {
      FilterDefined(db, from, rows[k], e);
    }
    forall x ensures Times(Filter(db.schema, rows, e).value, x) == if IsAbout(db, from, Some(e), x) then 1 else 0 {
      FilterTimes(db.schema, rows, e, x);
      FromOnce(db, from, x);
      if Fits(db, from, x) {
        FilterDefined(db, from, x, e);
      }
    }
  }

  lemma SelectsSame(db: Database, from: From, filter: Option<Expression>, a: seq<QueryRow>, b: seq<QueryRow>)
    requires Selects(db, from, filter, a) && multiset(a) == multiset(b)
    ensures Selects(db, from, filter, b)
  {
    forall x ensures Times(b, x) == Times(a, x) {
    }
  }

  /** Run with indexes and hash joins, a query yields every row that it is about
      once, and no other. */
  method SelectRows(db: Database, from: From, filter: Option<Expression>) returns (r: Result<seq<QueryRow>, QueryError>)
    requires DatabaseOk(db) && FromBound(db.schema, from)
             && (filter.Some? ==> FilterBound(db.schema, from, filter.value))
    ensures r.Ok? && Selects(db, from, filter, r.value)
    ensures FromRows(db, from, filter).Ok?
            && r.value == if filter.None? then FromRows(db, from, filter).value
                          else Passing(db.schema, FromRows(db, from, filter).value, filter.value)
  {
    hide Selects, Passing, IsAbout, Times, FilterBound, DatabaseOk, FromRows, Filter;
    FromOk(db, from, None);
    if filter.Some? {
      BoundOnWhole(db.schema, from, filter.value);
      PushdownKeepsRows(db, from, filter.value);
      FilterOnce(db, from, filter.value);
    } else {
      ScansOnce(db, from);
    }
    r := ExecuteFrom(db, from, filter);
    if filter.Some? {
      var kept := FilterRows(db.schema, r.value, filter.value);
      SelectsSame(db, from, filter, Filter(db.schema, FromRows(db, from, None).value, filter.value).value, kept.value);
      r := Ok(kept.value);
    }
  }

  lemma ScansOnce(db: Database, from: From)
    requires DatabaseOk(db) && FromBound(db.schema, from)
    ensures FromRows(db, from, None).Ok? && Selects(db, from, None, FromRows(db, from, None).value)
  {
    hide Times, AllAgree, FromRows, DatabaseOk, FromBound, Fits;
    FromOk(db, from, None);
    forall x ensures Times(FromRows(db, from, None).value, x) == if IsAbout(db, from, None, x) then 1 else 0 {
      FromOnce(db, from, x);
    }
  }

  /** The rows that a query is about fit its FROM clause. */
  lemma SelectedFit(db: Database, from: From, filter: Option<Expression>, rows: seq<QueryRow>)
    requires Selects(db, from, filter, rows)
    ensures forall k :: 0 <= k < |rows| ==> Fits(db, from, rows[k])
  {
    hide Fits, AllAgree, Passes;
    forall k | 0 <= k < |rows| ensures Fits(db, from, rows[k]) {
      assert rows[k] in multiset(rows);
      assert Times(rows, rows[k]) == if IsAbout(db, from, filter, rows[k]) then 1 else 0;
    }
  }
}
