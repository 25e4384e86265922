/** What names mean in a catalog and in the tables of a FROM clause, and that the
    binder resolves them so. */
module Scope {
  import opened Wrappers
  import opened Rows
  import opened Binder
  import A = Ast

  // ---------- the catalog ----------

  /** The first table with the name. */
  ghost predicate TableCalled(cat: Catalog, name: string, t: TableMeta) {
    exists i :: 0 <= i < |cat| && cat[i] == t && t.name == name && forall j :: 0 <= j < i ==> cat[j].name != name
  }

  ghost predicate TableWithId(cat: Catalog, id: nat, t: TableMeta) {
    exists i :: 0 <= i < |cat| && cat[i] == t && t.id == id && forall j :: 0 <= j < i ==> cat[j].id != id
  }

  ghost predicate ColumnCalled(columns: seq<ColumnMeta>, name: string, c: ColumnMeta) {
    exists i :: 0 <= i < |columns| && columns[i] == c && c.name == name
                && forall j :: 0 <= j < i ==> columns[j].name != name
  }

  ghost predicate ColumnWithId(columns: seq<ColumnMeta>, id: nat, c: ColumnMeta) {
    exists i :: 0 <= i < |columns| && columns[i] == c && c.id == id && forall j :: 0 <= j < i ==> columns[j].id != id
  }

  lemma {:induction false} TableNamedMeans(cat: Catalog, name: string, t: TableMeta)
    ensures TableNamed(cat, name) == Some(t) <==> TableCalled(cat, name, t)
  {
    if cat != [] && cat[0].name != name {
      TableNamedMeans(cat[1..], name, t);
      TableCalledNext(cat, name, t);
    }
  }

  lemma TableCalledNext(cat: Catalog, name: string, t: TableMeta)
    requires cat != [] && cat[0].name != name
    ensures TableCalled(cat, name, t) <==> TableCalled(cat[1..], name, t)
  {
    var rest := cat[1..];
    assert forall j :: 0 < j < |cat| ==> cat[j] == rest[j - 1];
    if TableCalled(cat, name, t) {
      var i :| 0 <= i < |cat| && cat[i] == t && t.name == name && forall j :: 0 <= j < i ==> cat[j].name != name;
      assert rest[i - 1] == t;
    }
    if TableCalled(rest, name, t) {
      var i :| 0 <= i < |rest| && rest[i] == t && t.name == name && forall j :: 0 <= j < i ==> rest[j].name != name;
      assert cat[i + 1] == t;
    }
  }

  lemma {:induction false} TableByIdMeans(cat: Catalog, id: nat, t: TableMeta)
    ensures TableById(cat, id) == Some(t) <==> TableWithId(cat, id, t)
  {
    if cat != [] && cat[0].id != id {
      TableByIdMeans(cat[1..], id, t);
      TableWithIdNext(cat, id, t);
    }
  }

  lemma TableWithIdNext(cat: Catalog, id: nat, t: TableMeta)
    requires cat != [] && cat[0].id != id
    ensures TableWithId(cat, id, t) <==> TableWithId(cat[1..], id, t)
  {
    var rest := cat[1..];
    assert forall j :: 0 < j < |cat| ==> cat[j] == rest[j - 1];
    if TableWithId(cat, id, t) {
      var i :| 0 <= i < |cat| && cat[i] == t && t.id == id && forall j :: 0 <= j < i ==> cat[j].id != id;
      assert rest[i - 1] == t;
    }
    if TableWithId(rest, id, t) {
      var i :| 0 <= i < |rest| && rest[i] == t && t.id == id && forall j :: 0 <= j < i ==> rest[j].id != id;
      assert cat[i + 1] == t;
    }
  }

  lemma {:induction false} ColumnNamedMeans(columns: seq<ColumnMeta>, name: string, c: ColumnMeta)
    ensures ColumnNamed(columns, name) == Some(c) <==> ColumnCalled(columns, name, c)
  {
    if columns != [] && columns[0].name != name {
      ColumnNamedMeans(columns[1..], name, c);
      ColumnCalledNext(columns, name, c);
    }
  }

  lemma ColumnCalledNext(columns: seq<ColumnMeta>, name: string, c: ColumnMeta)
    requires columns != [] && columns[0].name != name
    ensures ColumnCalled(columns, name, c) <==> ColumnCalled(columns[1..], name, c)
  {
    var rest := columns[1..];
    assert forall j :: 0 < j < |columns| ==> columns[j] == rest[j - 1];
    if ColumnCalled(columns, name, c) {
      var i :| 0 <= i < |columns| && columns[i] == c && c.name == name
        && forall j :: 0 <= j < i ==> columns[j].name != name;
      assert rest[i - 1] == c;
    }
    if ColumnCalled(rest, name, c) {
      var i :| 0 <= i < |rest| && rest[i] == c && c.name == name && forall j :: 0 <= j < i ==> rest[j].name != name;
      assert columns[i + 1] == c;
    }
  }

  lemma {:induction false} ColumnByIdMeans(columns: seq<ColumnMeta>, id: nat, c: ColumnMeta)
    ensures ColumnById(columns, id) == Some(c) <==> ColumnWithId(columns, id, c)
  {
    if columns != [] && columns[0].id != id {
      ColumnByIdMeans(columns[1..], id, c);
      ColumnWithIdNext(columns, id, c);
    }
  }

  lemma ColumnWithIdNext(columns: seq<ColumnMeta>, id: nat, c: ColumnMeta)
    requires columns != [] && columns[0].id != id
    ensures ColumnWithId(columns, id, c) <==> ColumnWithId(columns[1..], id, c)
  {
    var rest := columns[1..];
    assert forall j :: 0 < j < |columns| ==> columns[j] == rest[j - 1];
    if ColumnWithId(columns, id, c) {
      var i :| 0 <= i < |columns| && columns[i] == c && c.id == id && forall j :: 0 <= j < i ==> columns[j].id != id;
      assert rest[i - 1] == c;
    }
    if ColumnWithId(rest, id, c) {
      var i :| 0 <= i < |rest| && rest[i] == c && c.id == id && forall j :: 0 <= j < i ==> rest[j].id != id;
      assert columns[i + 1] == c;
    }
  }

  // ---------- tables in scope ----------

  /** A table of a FROM clause: the name that refers to it, what the catalog says
      of it, and its number. */
  datatype Named = Named(name: string, meta: TableMeta, instance: nat)

  function Tables(f: A.FromClause): nat {
    match f
    case Table(_) => 1
    case InnerJoin(l, _, r) => Tables(l) + Tables(r)
  }

  /** The tables of a clause from left to right, numbered from `next` on. An alias
      takes the place of the name. */
  ghost predicate ScopeOf(cat: Catalog, f: A.FromClause, next: nat, scope: seq<Named>) {
    match f
    case Table(t) =>
      exists m, e :: TableCalled(cat, t.name, m) && TableWithId(cat, m.id, e)
                     && scope == [Named(if t.alias.Some? then t.alias.value else e.name, e, next)]
    case InnerJoin(l, _, r) =>
      && |scope| == Tables(f)
      && ScopeOf(cat, l, next, scope[..Tables(l)]) && ScopeOf(cat, r, next + Tables(l), scope[Tables(l)..])
  }

  /** The first table that the name refers to. */
  ghost predicate Refers(scope: seq<Named>, name: string, k: int) {
    0 <= k < |scope| && scope[k].name == name && forall j :: 0 <= j < k ==> scope[j].name != name
  }

  /** The column of that name in the table. */
  ghost predicate ColumnIn(n: Named, name: string, c: Column) {
    exists m :: ColumnCalled(n.meta.columns, name, m) && c == Column(n.instance, n.meta.id, m.id)
  }

  /** A qualified column is looked for in the table its qualifier refers to; an
      unqualified one must be in exactly one of the tables. */
  ghost predicate Denotes(scope: seq<Named>, r: A.ColumnReference, c: Column) {
    if r.table.Some? then exists k :: Refers(scope, r.table.value, k) && ColumnIn(scope[k], r.column, c)
    else OnlyOne(scope, r.column, c)
  }

  ghost predicate OnlyIn(scope: seq<Named>, name: string, c: Column, k: int) {
    && 0 <= k < |scope| && ColumnIn(scope[k], name, c)
    && forall j :: 0 <= j < |scope| && j != k ==> NotIn(scope[j], name)
  }

  ghost predicate NotIn(n: Named, name: string) {
    forall c :: !ColumnIn(n, name, c)
  }

  /** The bound tables are those in scope. */
  ghost predicate InView(cat: Catalog, tables: seq<BoundTable>, scope: seq<Named>) {
    |tables| == |scope| && forall k :: 0 <= k < |tables| ==> IsNamed(cat, tables[k], scope[k])
  }

  ghost predicate IsNamed(cat: Catalog, t: BoundTable, n: Named) {
    && t.instance == n.instance && t.table == n.meta.id && TableById(cat, t.table) == Some(n.meta)
    && ReferenceName(cat, t) == Ok(n.name)
  }

  lemma {:induction false} ReferenceMeans(cat: Catalog, tables: seq<BoundTable>, scope: seq<Named>, name: string,
                                          k: nat)
    requires InView(cat, tables, scope) && Refers(scope, name, k)
    ensures FindReference(cat, tables, name) == Ok(tables[k])
  {
    assert IsNamed(cat, tables[0], scope[0]);
    if k > 0 {
      ReferenceMeans(cat, tables[1..], scope[1..], name, k - 1);
    }
  }

  lemma {:induction false} ReferenceFound(cat: Catalog, tables: seq<BoundTable>, scope: seq<Named>, name: string)
    returns (k: nat)
    requires InView(cat, tables, scope) && FindReference(cat, tables, name).Ok?
    ensures Refers(scope, name, k)
  {
    assert IsNamed(cat, tables[0], scope[0]);
    if scope[0].name == name {
      k := 0;
    } else {
      var j := ReferenceFound(cat, tables[1..], scope[1..], name);
      k := j + 1;
    }
  }

  lemma QualifiedMeans(cat: Catalog, tables: seq<BoundTable>, scope: seq<Named>, r: A.ColumnReference, c: Column)
    requires InView(cat, tables, scope) && r.table.Some?
    ensures BindColumn(cat, tables, r) == Ok(c) <==> Denotes(scope, r, c)
  {
    hide ColumnNamed, ColumnCalled, FindReference, Refers;
    var q := r.table.value;
    if FindReference(cat, tables, q).Ok? {
      var k := ReferenceFound(cat, tables, scope, q);
      OneReference(scope, q, k);
      ReferenceMeans(cat, tables, scope, q, k);
      assert IsNamed(cat, tables[k], scope[k]);
      forall m ensures ColumnNamed(scope[k].meta.columns, r.column) == Some(m) <==>
                       ColumnCalled(scope[k].meta.columns, r.column, m) {
        ColumnNamedMeans(scope[k].meta.columns, r.column, m);
      }
    } else {
      forall k | Refers(scope, q, k) ensures false {
        RefersNat(scope, q, k);
        ReferenceMeans(cat, tables, scope, q, k);
      }
    }
  }

  lemma RefersNat(scope: seq<Named>, name: string, k: int)
    requires Refers(scope, name, k)
    ensures 0 <= k < |scope|
  {
  }

  lemma OneReference(scope: seq<Named>, name: string, k: int)
    requires Refers(scope, name, k)
    ensures 0 <= k < |scope|
    ensures forall j :: Refers(scope, name, j) ==> j == k
  {
  }

  ghost predicate NoneIn(scope: seq<Named>, name: string) {
    forall k :: 0 <= k < |scope| ==> NotIn(scope[k], name)
  }

  ghost predicate OnlyOne(scope: seq<Named>, name: string, c: Column) {
    exists k :: OnlyIn(scope, name, c, k)
  }

  lemma NoneInNext(scope: seq<Named>, name: string)
    requires scope != []
    ensures NoneIn(scope, name) <==> NotIn(scope[0], name) && NoneIn(scope[1..], name)
  {
    hide NotIn;
    if NotIn(scope[0], name) && NoneIn(scope[1..], name) {
      assert forall j :: 0 < j < |scope| ==> scope[j] == scope[1..][j - 1];
    }
    if NoneIn(scope, name) {
      assert forall j :: 0 <= j < |scope[1..]| ==> scope[1..][j] == scope[j + 1];
    }
  }

  lemma OnlyOneNext(scope: seq<Named>, name: string, c: Column)
    requires scope != []
    ensures OnlyOne(scope, name, c)
       <==> || (ColumnIn(scope[0], name, c) && NoneIn(scope[1..], name))
            || (NotIn(scope[0], name) && OnlyOne(scope[1..], name, c))
  {
    hide NotIn, ColumnIn;
    var rest := scope[1..];
    if OnlyOne(scope, name, c) {
      var k :| OnlyIn(scope, name, c, k);
      assert forall j :: 0 <= j < |rest| ==> rest[j] == scope[j + 1];
      if k > 0 {
        assert OnlyIn(rest, name, c, k - 1);
      }
    }
    assert forall j :: 0 < j < |scope| ==> scope[j] == rest[j - 1];
    if ColumnIn(scope[0], name, c) && NoneIn(rest, name) {
      assert OnlyIn(scope, name, c, 0);
    }
    if NotIn(scope[0], name) && OnlyOne(rest, name, c) {
      var k :| OnlyIn(rest, name, c, k);
      assert OnlyIn(scope, name, c, k + 1);
    }
  }

  /** The column of a name in one table. */
  lemma HeadCandidate(n: Named, name: string, c: Column)
    ensures var m := ColumnNamed(n.meta.columns, name);
            && (NotIn(n, name) <==> m.None?)
            && (ColumnIn(n, name, c) <==> m.Some? && c == Column(n.instance, n.meta.id, m.value.id))
  {
    hide ColumnCalled, ColumnNamed;
    var found := ColumnNamed(n.meta.columns, name);
    forall m ensures found == Some(m) <==> ColumnCalled(n.meta.columns, name, m) {
      ColumnNamedMeans(n.meta.columns, name, m);
    }
    if found.Some? {
      ColumnNamedMeans(n.meta.columns, name, found.value);
      assert ColumnIn(n, name, Column(n.instance, n.meta.id, found.value.id));
    }
  }

  /** The candidates for a name are the columns of that name in the tables. */
  lemma {:induction false} CandidatesMean(cat: Catalog, tables: seq<BoundTable>, scope: seq<Named>, name: string,
                                          c: Column)
    requires InView(cat, tables, scope)
    ensures Candidates(cat, tables, name).Ok?
    ensures Candidates(cat, tables, name).value == [] <==> NoneIn(scope, name)
    ensures Candidates(cat, tables, name).value == [c] <==> OnlyOne(scope, name, c)
  {
    hide NotIn, ColumnIn, NoneIn, OnlyOne, ColumnNamed;
    if tables == [] {
      NoTables(name, c);
    } else {
      CandidatesMean(cat, tables[1..], scope[1..], name, c);
      assert IsNamed(cat, tables[0], scope[0]);
      HeadCandidate(scope[0], name, c);
      NoneInNext(scope, name);
      OnlyOneNext(scope, name, c);
      var rest := Candidates(cat, tables[1..], name).value;
      var m := ColumnNamed(scope[0].meta.columns, name);
      if m.Some? {
        FirstOfList(Column(scope[0].instance, scope[0].meta.id, m.value.id), rest, c);
      } else {
        assert [] + rest == rest;
      }
    }
  }

  lemma FirstOfList(x: Column, rest: seq<Column>, c: Column)
    ensures [x] + rest != [] && ([x] + rest == [c] <==> x == c && rest == [])
  {
    if [x] + rest == [c] {
      assert |[x] + rest| == 1 && ([x] + rest)[0] == x;
    }
  }

  lemma NoTables(name: string, c: Column)
    ensures NoneIn([], name) && !OnlyOne([], name, c)
  {
  }

  /** A column reference is bound to what it denotes, and refused if it denotes
      nothing. */
  lemma ColumnMeans(cat: Catalog, tables: seq<BoundTable>, scope: seq<Named>, r: A.ColumnReference, c: Column)
    requires InView(cat, tables, scope)
    ensures BindColumn(cat, tables, r) == Ok(c) <==> Denotes(scope, r, c)
  {
    hide Candidates, OnlyIn, ColumnIn;
    if r.table.Some? {
      QualifiedMeans(cat, tables, scope, r, c);
    } else {
      CandidatesMean(cat, tables, scope, r.column, c);
    }
  }
}
