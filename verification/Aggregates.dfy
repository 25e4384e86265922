/** Grouping, sums and sorting. */
module Aggregates {
  import opened Wrappers
  import opened Keys
  import opened KeyOrder
  import opened Rows
  import opened RowMeaning
  import opened Select

  // ---------- groups ----------

  datatype Group = Group(key: seq<Value>, rows: seq<QueryRow>)

  function KeyOf(schema: Schema, row: QueryRow, groupBy: seq<Column>): Result<seq<Value>, ExecutorError> {
    if groupBy == [] then Ok([])
    else
      var before := KeyOf(schema, row, groupBy[..|groupBy| - 1]);
      var last := ColumnValue(schema, row, groupBy[|groupBy| - 1]);
      if before.Err? then before else if last.Err? then Err(last.error) else Ok(before.value + [last.value])
  }

  method ReadKey(schema: Schema, row: QueryRow, groupBy: seq<Column>) returns (r: Result<seq<Value>, ExecutorError>)
    ensures r == KeyOf(schema, row, groupBy)
  {
    var key := [];
    var i := 0;
    while i < |groupBy|
      invariant 0 <= i <= |groupBy| && KeyOf(schema, row, groupBy[..i]) == Ok(key)
    {
      assert groupBy[..i + 1][..i] == groupBy[..i];
      var v := ColumnValue(schema, row, groupBy[i]);
      if v.Err? {
        KeyError(schema, row, groupBy, i + 1);
        return Err(v.error);
      }
      key := key + [v.value];
      i := i + 1;
    }
    assert groupBy[..i] == groupBy;
    return Ok(key);
  }

  lemma {:induction false} KeyError(schema: Schema, row: QueryRow, groupBy: seq<Column>, n: nat)
    requires n <= |groupBy| && KeyOf(schema, row, groupBy[..n]).Err?
    ensures KeyOf(schema, row, groupBy) == KeyOf(schema, row, groupBy[..n])
    decreases |groupBy|
  {
    if n < |groupBy| {
      assert groupBy[..|groupBy| - 1][..n] == groupBy[..n];
      KeyError(schema, row, groupBy[..|groupBy| - 1], n);
    } else {
      assert groupBy[..n] == groupBy;
    }
  }

  /** The key of a row holds its values in the grouped columns, in their order. */
  lemma {:induction false} KeyMeans(schema: Schema, row: QueryRow, groupBy: seq<Column>, key: seq<Value>)
    ensures KeyOf(schema, row, groupBy) == Ok(key) <==>
            |key| == |groupBy| && forall i :: 0 <= i < |groupBy| ==> HasValue(schema, row, groupBy[i], key[i])
    decreases |groupBy|
  {
    hide ColumnValue, HasValue;
    if groupBy == [] {
    } else if key == [] {
    } else {
      var n := |groupBy| - 1;
      var front := key[..|key| - 1];
      KeyMeans(schema, row, groupBy[..n], front);
      ColumnValueMeans(schema, row, groupBy[n], key[|key| - 1]);
      assert key == front + [key[|key| - 1]];
      if |key| == |groupBy| && forall i :: 0 <= i < |groupBy| ==> HasValue(schema, row, groupBy[i], key[i]) {
        assert forall i :: 0 <= i < n ==> HasValue(schema, row, groupBy[..n][i], front[i]);
      }
    }
  }

  /** The rows with a key, in order. */
  ghost function WithKey(schema: Schema, rows: seq<QueryRow>, groupBy: seq<Column>, key: seq<Value>): seq<QueryRow> {
    if rows == [] then []
    else
      var n := |rows| - 1;
      WithKey(schema, rows[..n], groupBy, key) + if KeyOf(schema, rows[n], groupBy) == Ok(key) then [rows[n]] else []
  }

  /** Each group holds exactly the rows with its key, groups have different keys,
      and every row has a group. */
  ghost predicate Grouped(schema: Schema, rows: seq<QueryRow>, groupBy: seq<Column>, groups: seq<Group>) {
    && (forall j :: 0 <= j < |groups| ==>
          groups[j].rows == WithKey(schema, rows, groupBy, groups[j].key) && groups[j].rows != [])
    && (forall i, j :: 0 <= i < j < |groups| ==> groups[i].key != groups[j].key)
    && (forall i :: 0 <= i < |rows| ==> HasGroup(schema, rows[i], groupBy, groups))
  }

  ghost predicate HasGroup(schema: Schema, row: QueryRow, groupBy: seq<Column>, groups: seq<Group>) {
    exists j :: 0 <= j < |groups| && KeyOf(schema, row, groupBy) == Ok(groups[j].key)
  }

  ghost predicate Indexed(groups: seq<Group>, indices: map<seq<Value>, nat>) {
    && (forall k :: k in indices ==> indices[k] < |groups| && groups[indices[k]].key == k)
    && (forall j :: 0 <= j < |groups| ==> groups[j].key in indices)
  }

  ghost function Joined(groups: seq<Group>, indices: map<seq<Value>, nat>, key: seq<Value>, row: QueryRow): seq<Group>
    requires Indexed(groups, indices)
  {
    if key in indices then groups[indices[key] := Group(key, groups[indices[key]].rows + [row])]
        else groups + [Group(key, [row])]
  }

  lemma WithKeyLast(schema: Schema, rows: seq<QueryRow>, groupBy: seq<Column>, key: seq<Value>, i: nat)
    requires i < |rows|
    ensures WithKey(schema, rows[..i + 1], groupBy, key)
         == if KeyOf(schema, rows[i], groupBy) == Ok(key) then WithKey(schema, rows[..i], groupBy, key) + [rows[i]]
             else WithKey(schema, rows[..i], groupBy, key)
  {
    assert rows[..i + 1][..i] == rows[..i];
  }

  lemma {:induction false} NoGroupNoRows(schema: Schema, rows: seq<QueryRow>, groupBy: seq<Column>, key: seq<Value>)
    requires forall i :: 0 <= i < |rows| ==> KeyOf(schema, rows[i], groupBy) != Ok(key)
    ensures WithKey(schema, rows, groupBy, key) == []
  {
    if rows == [] {
    } else {
      NoGroupNoRows(schema, rows[..|rows| - 1], groupBy, key);
    }
  }

  lemma HasGroupStill(schema: Schema, row: QueryRow, groupBy: seq<Column>, groups: seq<Group>, groups': seq<Group>)
    requires HasGroup(schema, row, groupBy, groups) && |groups| <= |groups'|
    requires forall j :: 0 <= j < |groups| ==> groups'[j].key == groups[j].key
    ensures HasGroup(schema, row, groupBy, groups')
  {
    var j :| 0 <= j < |groups| && KeyOf(schema, row, groupBy) == Ok(groups[j].key);
    assert groups'[j].key == groups[j].key;
  }

  lemma GroupStep(schema: Schema, rows: seq<QueryRow>, groupBy: seq<Column>, groups: seq<Group>,
                  indices: map<seq<Value>, nat>, i: nat, key: seq<Value>)
    requires i < |rows| && Grouped(schema, rows[..i], groupBy, groups) && Indexed(groups, indices)
    requires KeyOf(schema, rows[i], groupBy) == Ok(key)
    ensures Grouped(schema, rows[..i + 1], groupBy, Joined(groups, indices, key, rows[i]))
    ensures Indexed(Joined(groups, indices, key, rows[i]), if key in indices then indices else indices[key := |groups|])
  {
    hide KeyOf, WithKey, HasGroup;
    var groups', seen, now := Joined(groups, indices, key, rows[i]), rows[..i], rows[..i + 1];
    if key !in indices {
      NewKeyHasNoRows(schema, seen, groupBy, groups, key);
    }
    forall j | 0 <= j < |groups'|
      ensures groups'[j].rows == WithKey(schema, now, groupBy, groups'[j].key) && groups'[j].rows != [] {
      WithKeyLast(schema, rows, groupBy, groups'[j].key, i);
    }
    forall x | 0 <= x < |now| ensures HasGroup(schema, now[x], groupBy, groups') {
      if x < i {
        assert now[x] == seen[x] && HasGroup(schema, seen[x], groupBy, groups);
        HasGroupStill(schema, now[x], groupBy, groups, groups');
      } else {
        GroupIs(schema, now[x], groupBy, groups', if key in indices then indices[key] else |groups|);
      }
    }
  }

  lemma GroupIs(schema: Schema, row: QueryRow, groupBy: seq<Column>, groups: seq<Group>, j: nat)
    requires j < |groups| && KeyOf(schema, row, groupBy) == Ok(groups[j].key)
    ensures HasGroup(schema, row, groupBy, groups)
  {
  }

  lemma NewKeyHasNoRows(schema: Schema, rows: seq<QueryRow>, groupBy: seq<Column>, groups: seq<Group>, key: seq<Value>)
    requires forall i :: 0 <= i < |rows| ==> HasGroup(schema, rows[i], groupBy, groups)
    requires forall j :: 0 <= j < |groups| ==> groups[j].key != key
    ensures WithKey(schema, rows, groupBy, key) == []
  {
    forall x | 0 <= x < |rows| ensures KeyOf(schema, rows[x], groupBy) != Ok(key) {
      assert HasGroup(schema, rows[x], groupBy, groups);
    }
    NoGroupNoRows(schema, rows, groupBy, key);
  }

  /** Some row has the key of the one group before any has that of the other. */
  ghost predicate Sooner(schema: Schema, rows: seq<QueryRow>, groupBy: seq<Column>, a: seq<Value>, b: seq<Value>) {
    exists p :: 0 <= p < |rows| && KeyOf(schema, rows[p], groupBy) == Ok(a)
                && forall q :: 0 <= q <= p ==> KeyOf(schema, rows[q], groupBy) != Ok(b)
  }

  /** Groups are listed in the order in which their keys first occur. */
  ghost predicate InArrival(schema: Schema, rows: seq<QueryRow>, groupBy: seq<Column>, groups: seq<Group>) {
    forall i, j :: 0 <= i < j < |groups| ==> Sooner(schema, rows, groupBy, groups[i].key, groups[j].key)
  }

  lemma SoonerStill(schema: Schema, rows: seq<QueryRow>, groupBy: seq<Column>, i: nat, a: seq<Value>, b: seq<Value>)
    requires i < |rows| && Sooner(schema, rows[..i], groupBy, a, b)
    ensures Sooner(schema, rows[..i + 1], groupBy, a, b)
  {
    hide KeyOf;
    var was, now := rows[..i], rows[..i + 1];
    var p :| 0 <= p < |was| && KeyOf(schema, was[p], groupBy) == Ok(a)
      && forall q :: 0 <= q <= p ==> KeyOf(schema, was[q], groupBy) != Ok(b);
    assert forall q :: 0 <= q <= p ==> now[q] == was[q];
  }

  /** A key that is new at a row comes after those of all groups before it. */
  lemma SoonerNew(schema: Schema, rows: seq<QueryRow>, groupBy: seq<Column>, i: nat, groups: seq<Group>, j: nat,
                  key: seq<Value>)
    requires i < |rows| && j < |groups| && Grouped(schema, rows[..i], groupBy, groups)
    requires forall k :: 0 <= k < |groups| ==> groups[k].key != key
    ensures Sooner(schema, rows[..i + 1], groupBy, groups[j].key, key)
  {
    hide KeyOf, WithKey;
    var seen := rows[..i];
    if forall x :: 0 <= x < |seen| ==> KeyOf(schema, seen[x], groupBy) != Ok(groups[j].key) {
      NoGroupNoRows(schema, seen, groupBy, groups[j].key);
      assert false;
    }
    var p :| 0 <= p < |seen| && KeyOf(schema, seen[p], groupBy) == Ok(groups[j].key);
    var now := rows[..i + 1];
    forall q | 0 <= q <= p ensures KeyOf(schema, now[q], groupBy) != Ok(key) {
      assert now[q] == seen[q] && HasGroup(schema, seen[q], groupBy, groups);
    }
  }

  lemma ArrivalStep(schema: Schema, rows: seq<QueryRow>, groupBy: seq<Column>, groups: seq<Group>,
                    indices: map<seq<Value>, nat>, i: nat, key: seq<Value>)
    requires i < |rows| && Grouped(schema, rows[..i], groupBy, groups) && Indexed(groups, indices)
    requires InArrival(schema, rows[..i], groupBy, groups)
    ensures InArrival(schema, rows[..i + 1], groupBy, Joined(groups, indices, key, rows[i]))
  {
    hide KeyOf, Grouped, Sooner;
    var groups' := Joined(groups, indices, key, rows[i]);
    forall a, b | 0 <= a < b < |groups'|
      ensures Sooner(schema, rows[..i + 1], groupBy, groups'[a].key, groups'[b].key)
    {
      if b < |groups| {
        SoonerStill(schema, rows, groupBy, i, groups[a].key, groups[b].key);
      } else {
        SoonerNew(schema, rows, groupBy, i, groups, a, key);
      }
    }
  }

  method GroupRows(schema: Schema, rows: seq<QueryRow>, groupBy: seq<Column>)
    returns (r: Result<seq<Group>, ExecutorError>)
    ensures r.Ok? ==> Grouped(schema, rows, groupBy, r.value) && InArrival(schema, rows, groupBy, r.value)
    ensures r.Err? <==> exists i :: 0 <= i < |rows| && KeyOf(schema, rows[i], groupBy).Err?
  {
    hide KeyOf, Grouped, Sooner;
    var groups: seq<Group> := [];
    var indices: map<seq<Value>, nat> := map[];
    NothingGrouped(schema, rows, groupBy);
    var i := 0;
    while i < |rows|
      invariant 0 <= i <= |rows| && Grouped(schema, rows[..i], groupBy, groups) && Indexed(groups, indices)
      invariant InArrival(schema, rows[..i], groupBy, groups)
      invariant forall x :: 0 <= x < i ==> KeyOf(schema, rows[x], groupBy).Ok?
    {
      var key := ReadKey(schema, rows[i], groupBy);
      if key.Err? {
        return Err(key.error);
      }
      GroupStep(schema, rows, groupBy, groups, indices, i, key.value);
      ArrivalStep(schema, rows, groupBy, groups, indices, i, key.value);
      if key.value in indices {
        var g := indices[key.value];
        groups := groups[g := Group(key.value, groups[g].rows + [rows[i]])];
      } else {
        indices := indices[key.value := |groups|];
        groups := groups + [Group(key.value, [rows[i]])];
      }
      i := i + 1;
    }
    assert rows[..i] == rows;
    return Ok(groups);
  }

  lemma NothingGrouped(schema: Schema, rows: seq<QueryRow>, groupBy: seq<Column>)
    ensures Grouped(schema, rows[..0], groupBy, []) && Indexed([], map[])
  {
  }

  // ---------- sums ----------

  predicate InInt64(n: int) {
    -0x8000_0000_0000_0000 <= n < 0x8000_0000_0000_0000
  }

  function Addend(v: Value): Result<Option<Int64>, SelectError> {
    if v.None? then Ok(None)
    else
      match v.value
      case Int(i) => Ok(Some(i))
      case BigInt(b) => Ok(Some(b))
      case _ => Err(Unsupported)
  }

  /** Every row has a number or NULL in the column. */
  ghost predicate Summable(schema: Schema, rows: seq<QueryRow>, c: Column) {
    forall i :: 0 <= i < |rows| ==>
      ColumnValue(schema, rows[i], c).Ok? && IsNumber(ColumnValue(schema, rows[i], c).value)
  }

  ghost predicate IsNumber(v: Value) {
    v.Some? ==> v.value.Int? || v.value.BigInt?
  }

  ghost function NumberIn(v: Value): seq<int> {
    match v
    case Some(Int(x)) => [x]
    case Some(BigInt(x)) => [x]
    case _ => []
  }

  /** The numbers in a column, row by row; NULL is none. */
  ghost function Numbers(schema: Schema, rows: seq<QueryRow>, c: Column): seq<int>
    requires Summable(schema, rows, c)
  {
    if rows == [] then []
    else
      var n := |rows| - 1;
      Numbers(schema, rows[..n], c) + NumberIn(ColumnValue(schema, rows[n], c).value)
  }

  lemma NumbersStep(schema: Schema, rows: seq<QueryRow>, c: Column, i: nat)
    requires Summable(schema, rows, c) && i < |rows|
    ensures Summable(schema, rows[..i], c) && Summable(schema, rows[..i + 1], c)
    ensures ColumnValue(schema, rows[i], c).Ok? && IsNumber(ColumnValue(schema, rows[i], c).value)
    ensures var v := ColumnValue(schema, rows[i], c).value;
            Numbers(schema, rows[..i + 1], c) == Numbers(schema, rows[..i], c) + NumberIn(v)
  {
    assert rows[..i + 1][..i] == rows[..i];
  }

  ghost function Total(ns: seq<int>): int {
    if ns == [] then 0 else Total(ns[..|ns| - 1]) + ns[|ns| - 1]
  }

  /** The number takes more than 64 bits. */
  ghost predicate TooWide(n: int) {
    n < -0x8000_0000_0000_0000 || n > 0x7FFF_FFFF_FFFF_FFFF
  }

  /** Whether some partial sum leaves the range. */
  ghost predicate Overflows(ns: seq<int>) {
    exists i :: 0 <= i <= |ns| && TooWide(Total(ns[..i]))
  }

  lemma OverflowsMore(ns: seq<int>, n: int)
    ensures Total(ns + [n]) == Total(ns) + n
    ensures Overflows(ns + [n]) <==> Overflows(ns) || TooWide(Total(ns) + n)
  {
    assert (ns + [n])[..|ns|] == ns;
    assert (ns + [n])[..|ns| + 1] == ns + [n];
    if Overflows(ns) {
      var i :| 0 <= i <= |ns| && TooWide(Total(ns[..i]));
      assert (ns + [n])[..i] == ns[..i];
    }
    if Overflows(ns + [n]) {
      var i :| 0 <= i <= |ns + [n]| && TooWide(Total((ns + [n])[..i]));
      if i <= |ns| {
        assert (ns + [n])[..i] == ns[..i];
      }
    }
  }

  lemma NoOverflowTotal(ns: seq<int>)
    requires !Overflows(ns)
    ensures !TooWide(Total(ns))
  {
    assert ns[..|ns|] == ns;
  }

  lemma {:induction false} OverflowsPrefix(schema: Schema, rows: seq<QueryRow>, c: Column, i: nat)
    requires Summable(schema, rows, c) && i <= |rows|
    requires Overflows(Numbers(schema, rows[..i], c))
    ensures Overflows(Numbers(schema, rows, c))
    decreases |rows| - i
  {
    hide Summable, Numbers, Overflows;
    if i < |rows| {
      NumbersStep(schema, rows, c, i);
      OverflowsWith(Numbers(schema, rows[..i], c), ColumnValue(schema, rows[i], c).value);
      OverflowsPrefix(schema, rows, c, i + 1);
    } else {
      assert rows[..i] == rows;
    }
  }

  lemma OverflowsWith(ns: seq<int>, v: Value)
    requires Overflows(ns)
    ensures Overflows(ns + NumberIn(v))
  {
    hide Overflows;
    if NumberIn(v) == [] {
      assert ns + [] == ns;
    } else {
      OverflowsMore(ns, NumberIn(v)[0]);
    }
  }

  /** The sum of the values that are not NULL, or NULL if there are none. */
  method SumColumn(schema: Schema, rows: seq<QueryRow>, c: Column) returns (r: Result<Value, SelectError>)
    requires Summable(schema, rows, c)
    ensures var ns := Numbers(schema, rows, c);
            if Overflows(ns) then r == Err(SumOverflow)
            else r.Ok? && if ns == [] then r.value == None
                          else !TooWide(Total(ns)) && r.value == Some(BigInt(Total(ns)))
  {
    hide ColumnValue, Numbers, Overflows, Total;
    var sum: Option<Int64> := None;
    var i := 0;
    NothingSummed(schema, rows, c);
    while i < |rows|
      invariant 0 <= i <= |rows| && Summable(schema, rows[..i], c)
      invariant var ns := Numbers(schema, rows[..i], c);
                !Overflows(ns) && (if ns == [] then sum == None && Total(ns) == 0 else sum == Some(Total(ns)))
    {
      ghost var ns := Numbers(schema, rows[..i], c);
      NumbersStep(schema, rows, c, i);
      var v := ColumnValue(schema, rows[i], c).value;
      var a := Addend(v).value;
      if a.Some? {
        OverflowsMore(ns, a.value);
        var current := if sum.None? then 0 else sum.value;
        if !InInt64(current + a.value) {
          OverflowsPrefix(schema, rows, c, i + 1);
          return Err(SumOverflow);
        }
        sum := Some(current + a.value);
      } else {
        assert ns + [] == ns;
      }
      i := i + 1;
    }
    assert rows[..i] == rows;
    return Ok(if sum.None? then None else Some(BigInt(sum.value)));
  }

  lemma NothingSummed(schema: Schema, rows: seq<QueryRow>, c: Column)
    ensures Summable(schema, rows[..0], c) && Numbers(schema, rows[..0], c) == [] && Total([]) == 0 && !Overflows([])
  {
  }

  // ---------- sorting ----------

  function CompareValues(a: Value, b: Value): Ordering {
    if a.None? then (if b.None? then Ordering.Equal else Greater)
    else if b.None? then Less
    else
      var o := Compare(a.value, b.value);
      if o.None? then Ordering.Equal else o.value
  }

  datatype Keyed<T> = Keyed(key: Value, x: T)

  ghost predicate OfType(v: Value, t: KeyType) {
    v.Some? ==> v.value.Type() == t
  }

  /** Values of one type compare as ORDER BY has them, with NULL last. */
  lemma CompareValuesMeans(a: Value, b: Value, t: KeyType)
    requires OfType(a, t) && OfType(b, t)
    ensures CompareValues(a, b) != Greater <==> NotAfter(a, b)
    ensures CompareValues(a, b) == Ordering.Equal <==> a == b
  {
    if a.Some? && b.Some? {
      CompareMeans(a.value, b.value);
    }
  }

  ghost predicate SortedKeys<T>(xs: seq<Keyed<T>>) {
    forall i, j :: 0 <= i < j < |xs| ==> NotAfter(xs[i].key, xs[j].key)
  }

  /** No item compares greater than a later one. */
  ghost predicate NoneGreater<T>(xs: seq<Keyed<T>>) {
    forall i, j :: 0 <= i < j < |xs| ==> CompareValues(xs[i].key, xs[j].key) != Greater
  }

  lemma NoneGreaterSorted<T>(xs: seq<Keyed<T>>, t: KeyType)
    requires NoneGreater(xs) && forall i :: 0 <= i < |xs| ==> OfType(xs[i].key, t)
    ensures SortedKeys(xs)
  {
    hide NotAfter, CompareValues, OfType;
    forall i, j | 0 <= i < j < |xs| ensures NotAfter(xs[i].key, xs[j].key) {
      CompareValuesMeans(xs[i].key, xs[j].key, t);
    }
  }

  /** The items with a key, in order. */
  ghost function KeyedBy<T>(xs: seq<Keyed<T>>, v: Value): seq<Keyed<T>> {
    if xs == [] then []
    else KeyedBy(xs[..|xs| - 1], v) + if xs[|xs| - 1].key == v then [xs[|xs| - 1]] else []
  }

  /** Within one type, the order is total and equal values are identical. */
  lemma OrderOfType(a: Value, b: Value, c: Value, t: KeyType)
    requires OfType(a, t) && OfType(b, t) && OfType(c, t)
    ensures CompareValues(a, b) == Ordering.Equal ==> a == b
    ensures CompareValues(a, b) == Greater ==> CompareValues(b, a) == Less
    ensures CompareValues(a, b) != Greater && CompareValues(b, c) != Greater ==> CompareValues(a, c) != Greater
  {
    if a.Some? && b.Some? { CompareIsRankOrder(a.value, b.value); CompareIsRankOrder(b.value, a.value); }
    if b.Some? && c.Some? { CompareIsRankOrder(b.value, c.value); }
    if a.Some? && c.Some? { CompareIsRankOrder(a.value, c.value); }
  }

  /** An item goes after all that do not compare greater. */
  function Place<T>(xs: seq<Keyed<T>>, x: Keyed<T>): seq<Keyed<T>> {
    if xs == [] then [x]
    else
      var n := |xs| - 1;
      if CompareValues(xs[n].key, x.key) == Greater then Place(xs[..n], x) + [xs[n]] else xs + [x]
  }

  lemma {:induction false} PlaceMembers<T>(xs: seq<Keyed<T>>, x: Keyed<T>)
    ensures forall y :: y in Place(xs, x) <==> y in xs || y == x
  {
    if xs == [] {
    } else {
      PlaceMembers(xs[..|xs| - 1], x);
      assert xs == xs[..|xs| - 1] + [xs[|xs| - 1]];
    }
  }

  /** Every item of the result is the new one or was there before. */
  lemma {:induction false} PlacedFrom<T>(xs: seq<Keyed<T>>, x: Keyed<T>, i: nat) returns (j: Option<nat>)
    requires i < |Place(xs, x)|
    ensures j.None? ==> Place(xs, x)[i] == x
    ensures j.Some? ==> j.value < |xs| && xs[j.value] == Place(xs, x)[i]
  {
    j := None;
    if xs != [] {
      var n := |xs| - 1;
      if CompareValues(xs[n].key, x.key) != Greater {
        j := if i <= n then Some(i) else None;
      } else if i < |Place(xs[..n], x)| {
        j := PlacedFrom(xs[..n], x, i);
      } else {
        j := Some(n);
      }
    }
  }

  lemma {:induction false} PlaceSorted<T>(xs: seq<Keyed<T>>, x: Keyed<T>, t: KeyType)
    requires NoneGreater(xs) && OfType(x.key, t) && forall i :: 0 <= i < |xs| ==> OfType(xs[i].key, t)
    ensures NoneGreater(Place(xs, x))
    decreases |xs|
  {
    if xs == [] {
    } else {
      var n := |xs| - 1;
      if CompareValues(xs[n].key, x.key) == Greater {
        PlaceSorted(xs[..n], x, t);
        PlaceMembers(xs[..n], x);
        OrderOfType(xs[n].key, x.key, x.key, t);
        var ys := Place(xs[..n], x);
        forall i | 0 <= i < |ys| ensures CompareValues(ys[i].key, xs[n].key) != Greater {
          var j := PlacedFrom(xs[..n], x, i);
          if j.Some? {
            assert xs[j.value] == ys[i];
          }
        }
      } else {
        forall i | 0 <= i < |xs| ensures CompareValues(xs[i].key, x.key) != Greater {
          OrderOfType(xs[i].key, xs[n].key, x.key, t);
        }
      }
    }
  }

  lemma KeyedByLast<T>(xs: seq<Keyed<T>>, x: Keyed<T>, v: Value)
    ensures KeyedBy(xs + [x], v) == KeyedBy(xs, v) + if x.key == v then [x] else []
  {
    assert (xs + [x])[..|xs|] == xs;
  }

  /** Sorting is stable: items with equal keys keep their order. */
  lemma {:induction false} PlaceStable<T>(xs: seq<Keyed<T>>, x: Keyed<T>, v: Value, t: KeyType)
    requires OfType(x.key, t) && forall i :: 0 <= i < |xs| ==> OfType(xs[i].key, t)
    ensures KeyedBy(Place(xs, x), v) == KeyedBy(xs, v) + if x.key == v then [x] else []
    decreases |xs|
  {
    if xs == [] {
      KeyedByLast(xs, x, v);
    } else {
      var n := |xs| - 1;
      if CompareValues(xs[n].key, x.key) == Greater {
        PlaceStable(xs[..n], x, v, t);
        KeyedByLast(Place(xs[..n], x), xs[n], v);
        OrderOfType(x.key, x.key, x.key, t);
        GreaterDiffers(xs[n].key, x.key, t);
        assert xs[..n] + [xs[n]] == xs;
        KeyedByLast(xs[..n], xs[n], v);
        var a := KeyedBy(xs[..n], v);
        assert a + [] == a;
      } else {
        KeyedByLast(xs, x, v);
      }
    }
  }

  lemma GreaterDiffers(a: Value, b: Value, t: KeyType)
    requires OfType(a, t) && OfType(b, t) && CompareValues(a, b) == Greater
    ensures a != b
  {
    if a.Some? && b.Some? { CompareIsRankOrder(a.value, b.value); }
  }

  /** A stable sort: the result is sorted, and for every key it holds the same
      items in the same order. */
  method SortByKey<T>(xs: seq<Keyed<T>>, ghost t: KeyType) returns (sorted: seq<Keyed<T>>)
    requires forall i :: 0 <= i < |xs| ==> OfType(xs[i].key, t)
    ensures SortedKeys(sorted) && forall v :: KeyedBy(sorted, v) == KeyedBy(xs, v)
    ensures multiset(sorted) == multiset(xs)
  {
    sorted := [];
    var i := 0;
    while i < |xs|
      invariant 0 <= i <= |xs| && NoneGreater(sorted) && (forall v :: KeyedBy(sorted, v) == KeyedBy(xs[..i], v))
      invariant forall y :: y in sorted <==> y in xs[..i]
    {
      SortStep(xs, sorted, i, t);
      sorted := Place(sorted, xs[i]);
      i := i + 1;
    }
    assert xs[..i] == xs;
    forall j | 0 <= j < |sorted| ensures OfType(sorted[j].key, t) {
      assert sorted[j] in sorted;
    }
    NoneGreaterSorted(sorted, t);
    SameItems(sorted, xs);
  }

  lemma {:induction false} KeyedCount<T>(xs: seq<Keyed<T>>, y: Keyed<T>)
    ensures multiset(KeyedBy(xs, y.key))[y] == multiset(xs)[y]
  {
    if xs == [] {
    } else {
      var n := |xs| - 1;
      KeyedCount(xs[..n], y);
      assert xs == xs[..n] + [xs[n]];
    }
  }

  lemma SameItems<T>(xs: seq<Keyed<T>>, ys: seq<Keyed<T>>)
    requires forall v :: KeyedBy(xs, v) == KeyedBy(ys, v)
    ensures multiset(xs) == multiset(ys)
  {
    forall y ensures multiset(xs)[y] == multiset(ys)[y] {
      KeyedCount(xs, y);
      KeyedCount(ys, y);
    }
  }

  lemma SortStep<T>(xs: seq<Keyed<T>>, sorted: seq<Keyed<T>>, i: nat, t: KeyType)
    requires i < |xs| && NoneGreater(sorted) && forall j :: 0 <= j < |xs| ==> OfType(xs[j].key, t)
    requires forall v :: KeyedBy(sorted, v) == KeyedBy(xs[..i], v)
    requires forall y :: y in sorted <==> y in xs[..i]
    ensures NoneGreater(Place(sorted, xs[i])) && forall v :: KeyedBy(Place(sorted, xs[i]), v) == KeyedBy(xs[..i + 1], v)
    ensures forall y :: y in Place(sorted, xs[i]) <==> y in xs[..i + 1]
  {
    forall j | 0 <= j < |sorted| ensures OfType(sorted[j].key, t) {
      assert sorted[j] in sorted && sorted[j] in xs[..i];
    }
    PlaceSorted(sorted, xs[i], t);
    PlaceMembers(sorted, xs[i]);
    assert xs[..i + 1] == xs[..i] + [xs[i]];
    forall v ensures KeyedBy(Place(sorted, xs[i]), v) == KeyedBy(xs[..i + 1], v) {
      PlaceStable(sorted, xs[i], v, t);
      KeyedByLast(xs[..i], xs[i], v);
    }
  }
}
