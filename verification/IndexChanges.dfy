/** What a change of a stored row does to the indexes of its table. An index is
    a tree; trees may refuse an entry, may not find one, and may report an error
    after taking one out. */
module IndexChanges {
  import opened Wrappers
  import opened Keys
  import opened Rows
  import opened Prepare
  import BTreeModel
  import BTreeNodes
  import BTree
  import T = BTreeStates

  type Entry = BTreeModel.Entry
  type State = T.State
  type Tables = map<nat, map<RowId, seq<Value>>>

  datatype Metadata = Metadata(schema: Schema, types: Types)

  /** An index of a column, with its tree. */
  datatype Index = Index(table: nat, column: nat, tree: BTree.Tree)

  datatype StatementError = EncodingFailed | HeapFailed | TreeFailed | EntryNotFound | UnsupportedKeyType

  // ---------- agreement ----------

  /** The entries are the non-NULL values at a column position, once per row. */
  ghost predicate Projects(rows: map<RowId, seq<Value>>, pos: nat, entries: multiset<Entry>) {
    forall k: Key, id: RowId :: entries[BTreeModel.Entry(k, id)] == if id in rows && pos < |rows[id]|
        && rows[id][pos] == Some(k) then 1 else 0
  }

  /** The position of the column of an index. */
  function Position(m: Metadata, x: Index): (pos: nat)
    requires x.table in m.schema && x.column in m.schema[x.table]
    ensures pos < |m.schema[x.table]| && m.schema[x.table][pos] == x.column
  {
    ColumnIndex(m.schema[x.table], x.column).value
  }

  /** An index is declared on a column of its table, with keys of the type of
      the column. */
  ghost predicate Declared(m: Metadata, x: Index) {
    && TypesFit(m.schema, m.types) && x.table in m.schema && x.column in m.schema[x.table]
    && x.tree.keyType == KeyTypeOf(m.types[x.table][Position(m, x)])
  }

  ghost predicate Works(m: Metadata, x: Index, s: State) {
    Declared(m, x) && T.SoundState(s) && s.keyType == x.tree.keyType
  }

  /** Searches of the index return exactly what the heap stores in the column. */
  ghost predicate IndexOk(m: Metadata, tables: Tables, x: Index, s: State) {
    && Works(m, x, s) && x.table in tables && T.ExactState(s)
    && Projects(tables[x.table], Position(m, x), s.contents)
  }

  ghost predicate Agree(m: Metadata, tables: Tables, xs: seq<Index>, ss: seq<State>) {
    && |ss| == |xs| && TypesFit(m.schema, m.types) && RowsEncodable(tables, m.types)
    && forall i :: 0 <= i < |xs| ==> IndexOk(m, tables, xs[i], ss[i])
  }

  lemma ProjectsUnique(rows: map<RowId, seq<Value>>, pos: nat, entries: multiset<Entry>, entries': multiset<Entry>)
    requires Projects(rows, pos, entries) && Projects(rows, pos, entries')
    ensures entries' == entries
  {
    forall e ensures entries'[e] == entries[e] {
      assert e == BTreeModel.Entry(e.key, e.row);
    }
  }

  // ---------- changes ----------

  datatype Change =
    | Insertion(target: Target, values: seq<Value>)
    | Removal(target: Target, values: seq<Value>)
    | Replacement(target: Target, before: seq<Value>, after: seq<Value>)

  /** The values of a change can be stored in the columns of its table. */
  ghost predicate Typed(m: Metadata, c: Change) {
    && TypesFit(m.schema, m.types) && c.target.table in m.schema
    && match c
       case Insertion(t, values) => Encodable(values, m.types[t.table])
       case Removal(t, values) => Encodable(values, m.types[t.table])
       case Replacement(t, before, after) =>
         Encodable(before, m.types[t.table]) && Encodable(after, m.types[t.table])
  }

  /** The change starts from what is stored. */
  ghost predicate Current(tables: Tables, c: Change) {
    && c.target.table in tables
    && match c
       case Insertion(t, values) => t.id !in tables[t.table]
       case Removal(t, values) => t.id in tables[t.table] && tables[t.table][t.id] == values
       case Replacement(t, before, after) => t.id in tables[t.table] && tables[t.table][t.id] == before
  }

  function Applied(tables: Tables, c: Change): Tables {
    if c.target.table !in tables then tables
    else
      var rows := tables[c.target.table];
      tables[c.target.table :=
        match c
        case Insertion(t, values) => rows[t.id := values]
        case Removal(t, values) => rows - {t.id}
        case Replacement(t, before, after) => rows[t.id := after]]
  }

  /** The value that an index loses; NULL has no entry, and a value that stays
      is left alone. */
  function Leaving(m: Metadata, x: Index, c: Change): (v: Value)
    requires Declared(m, x) && Typed(m, c)
    ensures v.Some? ==> x.table == c.target.table && v.value.Type() == x.tree.keyType
  {
    if x.table != c.target.table then None
    else
      match c
      case Insertion(t, values) => None
      case Removal(t, values) => values[Position(m, x)]
      case Replacement(t, before, after) =>
        if before[Position(m, x)] == after[Position(m, x)] then None else before[Position(m, x)]
  }

  /** The value that it gains. */
  function Entering(m: Metadata, x: Index, c: Change): (v: Value)
    requires Declared(m, x) && Typed(m, c)
    ensures v.Some? ==> x.table == c.target.table && v.value.Type() == x.tree.keyType
    ensures v.Some? ==> v != Leaving(m, x, c)
  {
    if x.table != c.target.table then None
    else
      match c
      case Insertion(t, values) => values[Position(m, x)]
      case Removal(t, values) => None
      case Replacement(t, before, after) =>
        if before[Position(m, x)] == after[Position(m, x)] then None else after[Position(m, x)]
  }

  function Added(entries: multiset<Entry>, v: Value, id: RowId): multiset<Entry> {
    if v.None? then entries else entries + multiset{BTreeModel.Entry(v.value, id)}
  }

  function Removed(entries: multiset<Entry>, v: Value, id: RowId): multiset<Entry> {
    if v.None? then entries else entries - multiset{BTreeModel.Entry(v.value, id)}
  }

  lemma ProjectsAdded(rows: map<RowId, seq<Value>>, pos: nat, entries: multiset<Entry>, id: RowId, values: seq<Value>)
    requires Projects(rows, pos, entries) && id !in rows && pos < |values|
    ensures Projects(rows[id := values], pos, Added(entries, values[pos], id))
  {
  }

  lemma ProjectsRemoved(rows: map<RowId, seq<Value>>, pos: nat, entries: multiset<Entry>, id: RowId)
    requires Projects(rows, pos, entries) && id in rows && pos < |rows[id]|
    ensures rows[id][pos].Some? ==> entries[BTreeModel.Entry(rows[id][pos].value, id)] == 1
    ensures Projects(rows - {id}, pos, Removed(entries, rows[id][pos], id))
  {
    if rows[id][pos].Some? {
      assert entries[BTreeModel.Entry(rows[id][pos].value, id)] == 1;
    }
  }

  lemma ProjectsReplaced(rows: map<RowId, seq<Value>>, pos: nat, entries: multiset<Entry>, id: RowId, after: seq<Value>)
    requires Projects(rows, pos, entries) && id in rows && pos < |rows[id]| && pos < |after|
    ensures Projects(rows[id := after], pos,
              if rows[id][pos] == after[pos] then entries
                  else Added(Removed(entries, rows[id][pos], id), after[pos], id))
  {
    if rows[id][pos] != after[pos] {
      ProjectsRemoved(rows, pos, entries, id);
      ProjectsAdded(rows - {id}, pos, Removed(entries, rows[id][pos], id), id, after);
      assert (rows - {id})[id := after] == rows[id := after];
    }
  }

  /** The entries of an index after a change. */
  ghost function Changed(m: Metadata, x: Index, entries: multiset<Entry>, c: Change): multiset<Entry>
    requires Declared(m, x) && Typed(m, c)
  {
    Added(Removed(entries, Leaving(m, x, c), c.target.id), Entering(m, x, c), c.target.id)
  }

  /** Trading the entries of one row keeps a projection a projection. */
  lemma ProjectsChanged(m: Metadata, tables: Tables, x: Index, entries: multiset<Entry>, c: Change)
    requires Declared(m, x) && Typed(m, c) && Current(tables, c) && x.table in tables
    requires Projects(tables[x.table], Position(m, x), entries)
    ensures Projects(Applied(tables, c)[x.table], Position(m, x), Changed(m, x, entries, c))
    ensures Leaving(m, x, c).Some? ==> entries[BTreeModel.Entry(Leaving(m, x, c).value, c.target.id)] == 1
  {
    if x.table == c.target.table {
      var rows, pos := tables[x.table], Position(m, x);
      match c
      case Insertion(t, values) => ProjectsAdded(rows, pos, entries, t.id, values);
      case Removal(t, values) => ProjectsRemoved(rows, pos, entries, t.id);
      case Replacement(t, before, after) =>
        ProjectsReplaced(rows, pos, entries, t.id, after);
        ProjectsRemoved(rows, pos, entries, t.id);
    }
  }

  lemma AppliedEncodable(m: Metadata, tables: Tables, c: Change)
    requires Typed(m, c) && RowsEncodable(tables, m.types)
    ensures RowsEncodable(Applied(tables, c), m.types)
  {
  }

  // ---------- one index ----------

  /** Adding a value to an index. */
  ghost predicate Adds(s: State, v: Value, id: RowId, r: Result<(), StatementError>, s': State) {
    T.SoundState(s) &&
    if v.None? then r.Ok? && s' == s
    else
      exists q: Result<(), BTreeNodes.TreeError> :: AddsEntry(s, BTreeModel.Entry(v.value, id), q, s')
        && (r.Ok? <==> q.Ok?) && (r.Err? ==> r.error == TreeFailed)
  }

  ghost predicate AddsEntry(s: State, e: Entry, q: Result<(), BTreeNodes.TreeError>, s': State)
    requires T.SoundState(s)
  {
    T.Inserts(s, e, q, s') && T.Placed(s, e, q, s')
  }

  /** What the tree said when a removal ended so. */
  function Said(r: Result<(), StatementError>): Result<bool, BTreeNodes.TreeError> {
    if r.Ok? then Ok(true) else if r.error == EntryNotFound then Ok(false) else Err(BTreeNodes.PageFull)
  }

  /** Removing a value from an index. */
  ghost predicate Removes(s: State, v: Value, id: RowId, r: Result<(), StatementError>, s': State) {
    T.SoundState(s) && (r.Err? ==> r.error in {TreeFailed, EntryNotFound}) &&
    if v.None? then r.Ok? && s' == s
    else T.Deletes(s, BTreeModel.Entry(v.value, id), Said(r), s')
  }

  /** The old entry goes first; only then is the new one added. */
  ghost predicate StepsVia(m: Metadata, x: Index, s: State, c: Change, mid: State, q: Result<(), StatementError>,
                           r: Result<(), StatementError>, s': State)
    requires Declared(m, x) && Typed(m, c)
  {
    && Removes(s, Leaving(m, x, c), c.target.id, q, mid)
    && if q.Err? then r == q && s' == mid else Adds(mid, Entering(m, x, c), c.target.id, r, s')
  }

  ghost predicate IndexStep(m: Metadata, x: Index, s: State, c: Change, r: Result<(), StatementError>, s': State)
    requires Declared(m, x) && Typed(m, c)
  {
    exists mid, q :: StepsVia(m, x, s, c, mid, q, r, s')
  }

  /** The entry can be taken out of the tree without an error. */
  ghost predicate Gives(s: State, v: Value, id: RowId)
    requires T.SoundState(s)
  {
    v.Some? ==>
      var e := BTreeModel.Entry(v.value, id);
      e in T.LeafOf(s, e.key).entries && !T.RefusedDelete(s, e)
  }

  /** ... and takes no other answer with it. */
  ghost predicate Cleanly(s: State, v: Value, id: RowId)
    requires T.SoundState(s)
  {
    v.Some? ==> T.CleanDelete(s, BTreeModel.Entry(v.value, id))
  }

  /** The tree accepts the entry. */
  ghost predicate Takes(s: State, v: Value, id: RowId)
    requires T.SoundState(s)
  {
    v.Some? ==> T.Accepts(s, BTreeModel.Entry(v.value, id))
  }

  lemma RemovesWhen(s: State, v: Value, id: RowId, r: Result<(), StatementError>, s': State)
    requires Removes(s, v, id, r, s')
    ensures T.SoundState(s') && s'.keyType == s.keyType
    ensures r.Ok? <==> Gives(s, v, id)
    ensures r.Ok? ==> s'.contents == Removed(s.contents, v, id)
    ensures r.Err? ==> r.error in {TreeFailed, EntryNotFound}
    ensures r == Err(EntryNotFound) || v.None? ==> s' == s
    ensures r == Err(TreeFailed) ==> v.Some? && s'.contents == Removed(s.contents, v, id)
    ensures T.ExactState(s) && r.Ok? ==> (T.ExactState(s') <==> Cleanly(s, v, id))
    ensures T.ExactState(s) && r != Err(EntryNotFound) && v.Some? ==> BTreeModel.Entry(v.value, id) in s.contents
  {
    hide T.SoundState, T.ExactState, T.Unstraddled, T.CleanDelete, T.RefusedDelete;
  }

  lemma AddsWhen(s: State, v: Value, id: RowId, r: Result<(), StatementError>, s': State)
    requires Adds(s, v, id, r, s')
    ensures T.SoundState(s') && s'.keyType == s.keyType
    ensures r.Ok? <==> Takes(s, v, id)
    ensures s'.contents == if r.Ok? then Added(s.contents, v, id) else s.contents
    ensures T.ExactState(s) ==> T.ExactState(s')
    ensures r.Ok? && T.ExactState(s') ==> T.ExactState(s)
    ensures r.Err? ==> v.Some? && r.error == TreeFailed
    ensures v.None? ==> s' == s
  {
    hide T.SoundState, T.ExactState, T.Unstraddled, T.Accepts;
  }

  lemma NothingGiven(s: State, id: RowId)
    requires T.SoundState(s)
    ensures Gives(s, None, id)
  {
  }

  lemma StepKeeps(m: Metadata, x: Index, s: State, c: Change, r: Result<(), StatementError>, s': State)
    requires Works(m, x, s) && Typed(m, c) && IndexStep(m, x, s, c, r, s')
    ensures Works(m, x, s')
    ensures r.Ok? ==> s'.contents == Changed(m, x, s.contents, c) && Gives(s, Leaving(m, x, c), c.target.id)
    ensures Entering(m, x, c).None? ==> (r.Ok? <==> Gives(s, Leaving(m, x, c), c.target.id))
    ensures Leaving(m, x, c).None? ==> (r.Ok? <==> Takes(s, Entering(m, x, c), c.target.id))
    ensures r.Err? ==> r.error in {TreeFailed, EntryNotFound}
  {
    hide T.SoundState, T.ExactState, Removes, Adds, Gives, Takes, Declared, Leaving, Entering;
    var mid, q :| StepsVia(m, x, s, c, mid, q, r, s');
    RemovesWhen(s, Leaving(m, x, c), c.target.id, q, mid);
    NothingGiven(s, c.target.id);
    if q.Ok? {
      AddsWhen(mid, Entering(m, x, c), c.target.id, r, s');
    }
  }

  /** A step that succeeds leaves the index exact exactly if the removal in it was
      clean: nothing that is added afterwards repairs it. */
  lemma StepExact(m: Metadata, x: Index, s: State, c: Change, s': State)
    requires Works(m, x, s) && Typed(m, c) && IndexStep(m, x, s, c, Ok(()), s') && T.ExactState(s)
    ensures T.ExactState(s') <==> Cleanly(s, Leaving(m, x, c), c.target.id)
  {
    hide T.SoundState, T.ExactState, Removes, Adds, Gives, Cleanly, Declared, Leaving, Entering;
    var mid, q :| StepsVia(m, x, s, c, mid, q, Ok(()), s');
    RemovesWhen(s, Leaving(m, x, c), c.target.id, q, mid);
    AddsWhen(mid, Entering(m, x, c), c.target.id, Ok(()), s');
  }

  /** While the heap does not follow, the index stays in agreement exactly if its
      entries stay. */
  lemma StepWithoutHeap(m: Metadata, tables: Tables, x: Index, s: State, c: Change, r: Result<(), StatementError>,
                        s': State)
    requires IndexOk(m, tables, x, s) && Typed(m, c) && Current(tables, c) && IndexStep(m, x, s, c, r, s')
    ensures IndexOk(m, tables, x, s') <==> s'.contents == s.contents
    ensures r == Err(TreeFailed) && Entering(m, x, c).None? ==> s'.contents != s.contents
  {
    hide T.SoundState, T.ExactState, Removes, Adds, Gives, Cleanly, Leaving, Entering, Projects;
    var l, e, id := Leaving(m, x, c), Entering(m, x, c), c.target.id;
    StepKeeps(m, x, s, c, r, s');
    var mid, q :| StepsVia(m, x, s, c, mid, q, r, s');
    RemovesWhen(s, l, id, q, mid);
    if q.Ok? {
      AddsWhen(mid, e, id, r, s');
    }
    ProjectsChanged(m, tables, x, s.contents, c);
    if Projects(tables[x.table], Position(m, x), s'.contents) {
      ProjectsUnique(tables[x.table], Position(m, x), s.contents, s'.contents);
    }
    if l.Some? && q != Err(EntryNotFound) {
      assert s'.contents[BTreeModel.Entry(l.value, id)] == 0;
    } else if r.Ok? && e.Some? {
      var x' := BTreeModel.Entry(e.value, id);
      assert s'.contents[x'] == s.contents[x'] + 1;
    }
  }

  /** The three kinds of change, as they are carried out. */
  lemma RemovalStep(m: Metadata, x: Index, s: State, c: Change, r: Result<(), StatementError>, s': State)
    requires Works(m, x, s) && Typed(m, c) && c.Removal?
    requires if x.table == c.target.table then Removes(s, c.values[Position(m, x)], c.target.id, r, s')
             else r.Ok? && s' == s
    ensures IndexStep(m, x, s, c, r, s')
  {
    hide T.SoundState, T.Deletes;
    RemovesWhen(s, Leaving(m, x, c), c.target.id, r, s');
    assert StepsVia(m, x, s, c, s', r, r, s');
  }

  lemma InsertionStep(m: Metadata, x: Index, s: State, c: Change, r: Result<(), StatementError>, s': State)
    requires Works(m, x, s) && Typed(m, c) && c.Insertion?
    requires if x.table == c.target.table then Adds(s, c.values[Position(m, x)], c.target.id, r, s')
             else r.Ok? && s' == s
    ensures IndexStep(m, x, s, c, r, s')
  {
    hide T.SoundState, AddsEntry;
    assert StepsVia(m, x, s, c, s, Ok(()), r, s');
  }

  lemma ReplacementStep(m: Metadata, x: Index, s: State, c: Change, mid: State, q: Result<(), StatementError>,
                        r: Result<(), StatementError>, s': State)
    requires Works(m, x, s) && Typed(m, c) && c.Replacement?
    requires var changes := x.table == c.target.table && c.before[Position(m, x)] != c.after[Position(m, x)];
             if changes then
               && Removes(s, c.before[Position(m, x)], c.target.id, q, mid)
               && if q.Err? then r == q && s' == mid else Adds(mid, c.after[Position(m, x)], c.target.id, r, s')
             else q.Ok? && r.Ok? && mid == s && s' == s
    ensures IndexStep(m, x, s, c, r, s')
  {
    hide T.SoundState, AddsEntry, T.Deletes;
    assert StepsVia(m, x, s, c, mid, q, r, s');
  }

  lemma OkStep(m: Metadata, x: Index, s: State, c: Change, r: Result<(), StatementError>, s': State)
    requires Declared(m, x) && Typed(m, c) && IndexStep(m, x, s, c, r, s') && r.Ok?
    ensures IndexStep(m, x, s, c, Ok(()), s')
  {
    hide IndexStep;
    assert r.value == ();
  }

  lemma NothingEnters(m: Metadata, x: Index, c: Change)
    requires Declared(m, x) && Typed(m, c)
    ensures c.Removal? ==> Entering(m, x, c).None?
    ensures c.Insertion? ==> Leaving(m, x, c).None?
  {
  }

  /** Without a key on both sides of a split every removal finds its entry and is
      clean. */
  lemma RemovesUnstraddled(s: State, v: Value, id: RowId, r: Result<(), StatementError>, s': State)
    requires Removes(s, v, id, r, s') && T.Unstraddled(s)
    requires v.Some? ==> BTreeModel.Entry(v.value, id) in s.contents
    ensures T.Unstraddled(s') && r != Err(EntryNotFound)
    ensures r.Ok? ==> Cleanly(s, v, id)
  {
    hide T.SoundState, T.CleanDelete, T.RefusedDelete;
  }

  lemma StepUnstraddled(m: Metadata, tables: Tables, x: Index, s: State, c: Change, r: Result<(), StatementError>,
                        s': State)
    requires IndexOk(m, tables, x, s) && Typed(m, c) && Current(tables, c) && IndexStep(m, x, s, c, r, s')
    requires T.Unstraddled(s) && c.Removal?
    ensures T.Unstraddled(s') && r != Err(EntryNotFound)
    ensures r.Ok? ==> Cleanly(s, Leaving(m, x, c), c.target.id)
  {
    hide T.SoundState, T.ExactState, T.Unstraddled, Removes, Leaving, Entering, Projects;
    ProjectsChanged(m, tables, x, s.contents, c);
    NothingEnters(m, x, c);
    var mid, q :| StepsVia(m, x, s, c, mid, q, r, s');
    RemovesUnstraddled(s, Leaving(m, x, c), c.target.id, q, mid);
  }

  // ---------- all indexes ----------

  ghost predicate AllWork(m: Metadata, xs: seq<Index>, ss: seq<State>) {
    |ss| == |xs| && forall i :: 0 <= i < |xs| ==> Works(m, xs[i], ss[i])
  }

  /** The indexes follow a change one after the other; index `n` is the first to
      fail, if any does. */
  ghost predicate StopsAt(m: Metadata, xs: seq<Index>, ss: seq<State>, c: Change, r: Result<(), StatementError>,
                          ss': seq<State>, n: nat)
    requires AllWork(m, xs, ss) && Typed(m, c)
  {
    && |ss'| == |ss| && n <= |xs| && (n == |xs| <==> r.Ok?)
    && (forall j :: 0 <= j < n ==> IndexStep(m, xs[j], ss[j], c, Ok(()), ss'[j]))
    && (n < |xs| ==> IndexStep(m, xs[n], ss[n], c, r, ss'[n]))
    && (forall j :: n < j < |xs| ==> ss'[j] == ss[j])
  }

  ghost predicate Follow(m: Metadata, xs: seq<Index>, ss: seq<State>, c: Change, r: Result<(), StatementError>,
                         ss': seq<State>)
    requires AllWork(m, xs, ss) && Typed(m, c)
  {
    exists n :: StopsAt(m, xs, ss, c, r, ss', n)
  }

  /** Every tree finds the entry that it is to lose, and no merge is refused. */
  ghost predicate AllGive(m: Metadata, xs: seq<Index>, ss: seq<State>, c: Change)
    requires AllWork(m, xs, ss) && Typed(m, c)
  {
    forall i :: 0 <= i < |xs| ==> Gives(ss[i], Leaving(m, xs[i], c), c.target.id)
  }

  /** ... and loses nothing else with it. */
  ghost predicate AllClean(m: Metadata, xs: seq<Index>, ss: seq<State>, c: Change)
    requires AllWork(m, xs, ss) && Typed(m, c)
  {
    forall i :: 0 <= i < |xs| ==> Cleanly(ss[i], Leaving(m, xs[i], c), c.target.id)
  }

  /** Every tree accepts the entry that it is to gain. */
  ghost predicate AllTake(m: Metadata, xs: seq<Index>, ss: seq<State>, c: Change)
    requires AllWork(m, xs, ss) && Typed(m, c)
  {
    forall i :: 0 <= i < |xs| ==> Takes(ss[i], Entering(m, xs[i], c), c.target.id)
  }

  ghost predicate SameEntries(ss: seq<State>, ss': seq<State>) {
    |ss'| == |ss| && forall i :: 0 <= i < |ss| ==> ss'[i].contents == ss[i].contents
  }

  ghost predicate AllUnstraddled(ss: seq<State>) {
    forall i :: 0 <= i < |ss| ==> T.Unstraddled(ss[i])
  }

  /** All indexes follow a removal exactly when every tree gives its entry, and an
      insertion exactly when every tree takes its entry. */
  lemma FollowsWhen(m: Metadata, xs: seq<Index>, ss: seq<State>, c: Change, r: Result<(), StatementError>,
                    ss': seq<State>)
    requires AllWork(m, xs, ss) && Typed(m, c) && Follow(m, xs, ss, c, r, ss')
    ensures AllWork(m, xs, ss')
    ensures r.Ok? ==> AllGive(m, xs, ss, c)
    ensures c.Removal? ==> (r.Ok? <==> AllGive(m, xs, ss, c))
    ensures c.Insertion? ==> (r.Ok? <==> AllTake(m, xs, ss, c))
    ensures r.Err? ==> r.error in {TreeFailed, EntryNotFound}
  {
    hide Declared, T.SoundState, IndexStep, Gives, Takes, Leaving, Entering;
    var n: nat :| StopsAt(m, xs, ss, c, r, ss', n);
    forall i | 0 <= i < |xs|
      ensures Works(m, xs[i], ss'[i])
      ensures i < n ==> Gives(ss[i], Leaving(m, xs[i], c), c.target.id)
      ensures i == n && c.Removal? ==> !Gives(ss[i], Leaving(m, xs[i], c), c.target.id)
      ensures i < n && c.Insertion? ==> Takes(ss[i], Entering(m, xs[i], c), c.target.id)
      ensures i == n && c.Insertion? ==> !Takes(ss[i], Entering(m, xs[i], c), c.target.id)
      ensures i == n ==> r.Err? && r.error in {TreeFailed, EntryNotFound}
    {
      assert Works(m, xs[i], ss[i]);
      NothingEnters(m, xs[i], c);
      if i < n {
        StepKeeps(m, xs[i], ss[i], c, Ok(()), ss'[i]);
      } else if i == n {
        StepKeeps(m, xs[i], ss[i], c, r, ss'[i]);
      }
    }
  }

  /** When the indexes and the heap have followed a change, they agree exactly if
      every removal was clean. */
  lemma FollowsExactly(m: Metadata, tables: Tables, xs: seq<Index>, ss: seq<State>, c: Change,
                       r: Result<(), StatementError>, ss': seq<State>)
    requires Agree(m, tables, xs, ss) && AllWork(m, xs, ss) && Typed(m, c) && Current(tables, c)
    requires Follow(m, xs, ss, c, r, ss') && r.Ok?
    ensures Agree(m, Applied(tables, c), xs, ss') <==> AllClean(m, xs, ss, c)
  {
    hide T.SoundState, IndexStep, Cleanly, Leaving, Entering, RowsEncodable, Applied, Projects, T.ExactState, Declared;
    var n: nat :| StopsAt(m, xs, ss, c, r, ss', n);
    AppliedEncodable(m, tables, c);
    forall i | 0 <= i < |xs|
      ensures IndexOk(m, Applied(tables, c), xs[i], ss'[i]) <==> Cleanly(ss[i], Leaving(m, xs[i], c), c.target.id)
    {
      assert IndexOk(m, tables, xs[i], ss[i]);
      StepKeeps(m, xs[i], ss[i], c, Ok(()), ss'[i]);
      StepExact(m, xs[i], ss[i], c, ss'[i]);
      ProjectsChanged(m, tables, xs[i], ss[i].contents, c);
      AppliedTables(tables, c);
    }
  }

  lemma AppliedTables(tables: Tables, c: Change)
    ensures Applied(tables, c).Keys == tables.Keys
  {
  }

  /** While the heap does not follow, they agree exactly if no entry has changed. */
  lemma FollowsAlone(m: Metadata, tables: Tables, xs: seq<Index>, ss: seq<State>, c: Change,
                     r: Result<(), StatementError>, ss': seq<State>)
    requires Agree(m, tables, xs, ss) && AllWork(m, xs, ss) && Typed(m, c) && Current(tables, c)
    requires Follow(m, xs, ss, c, r, ss')
    ensures Agree(m, tables, xs, ss') <==> SameEntries(ss, ss')
    ensures r == Err(TreeFailed) && c.Removal? ==> !SameEntries(ss, ss')
  {
    hide IndexOk, IndexStep, Leaving, Entering, RowsEncodable;
    var n: nat :| StopsAt(m, xs, ss, c, r, ss', n);
    forall i | 0 <= i < |xs|
      ensures IndexOk(m, tables, xs[i], ss'[i]) <==> ss'[i].contents == ss[i].contents
      ensures i == n && r == Err(TreeFailed) && c.Removal? ==> ss'[i].contents != ss[i].contents
    {
      assert IndexOk(m, tables, xs[i], ss[i]);
      if i < n {
        StepWithoutHeap(m, tables, xs[i], ss[i], c, Ok(()), ss'[i]);
      } else if i == n {
        NothingEnters(m, xs[i], c);
        StepWithoutHeap(m, tables, xs[i], ss[i], c, r, ss'[i]);
      }
    }
  }

  /** When the heap has stored a row that an index refuses, they do not agree. */
  lemma HeapAlone(m: Metadata, tables: Tables, xs: seq<Index>, ss: seq<State>, c: Change,
                  r: Result<(), StatementError>, ss': seq<State>)
    requires Agree(m, tables, xs, ss) && AllWork(m, xs, ss) && Typed(m, c) && Current(tables, c)
    requires Follow(m, xs, ss, c, r, ss') && c.Insertion? && r.Err?
    ensures !Agree(m, Applied(tables, c), xs, ss')
  {
    hide IndexStep, RowsEncodable, Applied, T.SoundState, T.ExactState, Projects, Declared;
    var n: nat :| StopsAt(m, xs, ss, c, r, ss', n);
    assert IndexOk(m, tables, xs[n], ss[n]);
    RefusedStays(m, xs[n], ss[n], c, r, ss'[n]);
    ProjectsChanged(m, tables, xs[n], ss[n].contents, c);
    if Agree(m, Applied(tables, c), xs, ss') {
      assert IndexOk(m, Applied(tables, c), xs[n], ss'[n]);
      ProjectsUnique(Applied(tables, c)[xs[n].table], Position(m, xs[n]), ss'[n].contents,
                     Changed(m, xs[n], ss[n].contents, c));
    }
  }

  lemma RefusedStays(m: Metadata, x: Index, s: State, c: Change, r: Result<(), StatementError>, s': State)
    requires Works(m, x, s) && Typed(m, c) && IndexStep(m, x, s, c, r, s') && c.Insertion? && r.Err?
    ensures s'.contents == s.contents && Changed(m, x, s.contents, c) != s.contents
  {
    hide T.SoundState, T.ExactState, Removes, Adds, Declared, Leaving, Entering;
    NothingEnters(m, x, c);
    var mid, q :| StepsVia(m, x, s, c, mid, q, r, s');
    RemovesWhen(s, None, c.target.id, q, mid);
    AddsWhen(mid, Entering(m, x, c), c.target.id, r, s');
    var e := BTreeModel.Entry(Entering(m, x, c).value, c.target.id);
    assert Changed(m, x, s.contents, c)[e] == s.contents[e] + 1;
  }

  /** Without keys on both sides of a split a removal can only be refused. */
  lemma FollowsUnstraddled(m: Metadata, tables: Tables, xs: seq<Index>, ss: seq<State>, c: Change,
                           r: Result<(), StatementError>, ss': seq<State>)
    requires Agree(m, tables, xs, ss) && AllWork(m, xs, ss) && Typed(m, c) && Current(tables, c)
    requires Follow(m, xs, ss, c, r, ss') && c.Removal? && AllUnstraddled(ss)
    ensures AllUnstraddled(ss') && r != Err(EntryNotFound)
    ensures r.Ok? ==> AllClean(m, xs, ss, c)
  {
    hide IndexOk, IndexStep, Leaving, Entering, RowsEncodable, T.Unstraddled, Cleanly;
    var n: nat :| StopsAt(m, xs, ss, c, r, ss', n);
    forall i | 0 <= i < |xs|
      ensures T.Unstraddled(ss'[i])
      ensures i < n ==> Cleanly(ss[i], Leaving(m, xs[i], c), c.target.id)
      ensures i == n ==> r != Err(EntryNotFound)
    {
      assert IndexOk(m, tables, xs[i], ss[i]) && T.Unstraddled(ss[i]);
      if i < n {
        StepUnstraddled(m, tables, xs[i], ss[i], c, Ok(()), ss'[i]);
      } else if i == n {
        StepUnstraddled(m, tables, xs[i], ss[i], c, r, ss'[i]);
      }
    }
  }

  // ---------- whole statements ----------

  /** One row of a statement: the indexes follow first, then the heap, unless it
      is stuck on this row. */
  ghost predicate Carries(m: Metadata, xs: seq<Index>, ss: seq<State>, c: Change, stuck: set<Target>,
                          r: Result<(), StatementError>, ss': seq<State>)
    requires AllWork(m, xs, ss) && Typed(m, c)
  {
    exists q :: Follow(m, xs, ss, c, q, ss')
      && r == if q.Ok? && c.target in stuck then Err(HeapFailed) else q
  }

  /** Nothing stands in the way of this row. */
  ghost predicate Goes(m: Metadata, xs: seq<Index>, ss: seq<State>, c: Change, stuck: set<Target>)
    requires AllWork(m, xs, ss) && Typed(m, c)
  {
    c.target !in stuck && AllGive(m, xs, ss, c)
  }

  ghost predicate AllTyped(m: Metadata, cs: seq<Change>) {
    forall k :: 0 <= k < |cs| ==> Typed(m, cs[k])
  }

  /** The states of the trees before each row of a statement that is tried, and
      after the last one; all rows but the last one tried succeed. */
  ghost predicate Trace(m: Metadata, xs: seq<Index>, cs: seq<Change>, stuck: set<Target>, trace: seq<seq<State>>,
                        r: Result<(), StatementError>)
    requires AllTyped(m, cs)
  {
    && 0 < |trace| <= |cs| + 1 && (r.Ok? ==> |trace| == |cs| + 1) && (r.Err? ==> |trace| > 1)
    && (forall k :: 0 <= k < |trace| ==> AllWork(m, xs, trace[k]))
    && (forall k :: 0 <= k < |trace| - 1 ==>
          Carries(m, xs, trace[k], cs[k], stuck, if k == |trace| - 2 then r else Ok(()), trace[k + 1]))
  }

  /** A statement succeeds if all its rows go, and a DELETE only if. */
  ghost predicate AllGo(m: Metadata, xs: seq<Index>, cs: seq<Change>, stuck: set<Target>, trace: seq<seq<State>>)
    requires AllTyped(m, cs)
  {
    && |trace| == |cs| + 1
    && forall k :: 0 <= k < |cs| ==> AllWork(m, xs, trace[k]) && Goes(m, xs, trace[k], cs[k], stuck)
  }

  /** Every row that was carried out took out nothing but its own entries. */
  ghost predicate CleanSoFar(m: Metadata, xs: seq<Index>, cs: seq<Change>, trace: seq<seq<State>>, n: nat)
    requires AllTyped(m, cs) && n <= |cs| && n <= |trace|
  {
    forall k :: 0 <= k < n ==> AllWork(m, xs, trace[k]) && AllClean(m, xs, trace[k], cs[k])
  }

  lemma CarriesWhen(m: Metadata, xs: seq<Index>, ss: seq<State>, c: Change, stuck: set<Target>,
                    r: Result<(), StatementError>, ss': seq<State>)
    requires AllWork(m, xs, ss) && Typed(m, c) && Carries(m, xs, ss, c, stuck, r, ss')
    ensures AllWork(m, xs, ss')
    ensures r.Ok? ==> Goes(m, xs, ss, c, stuck)
    ensures c.Removal? ==> (r.Ok? <==> Goes(m, xs, ss, c, stuck))
    ensures r.Err? ==> r.error in {TreeFailed, EntryNotFound, HeapFailed}
    ensures r == Err(HeapFailed) ==> c.target in stuck
  {
    hide AllWork, Follow, AllGive, Typed;
    var q :| Follow(m, xs, ss, c, q, ss') && r == if q.Ok? && c.target in stuck then Err(HeapFailed) else q;
    FollowsWhen(m, xs, ss, c, q, ss');
  }

  /** After one row, indexes and heap agree exactly if the removals were clean, or
      when the row fails, if no entry has changed. */
  lemma CarriedAgrees(m: Metadata, tables: Tables, xs: seq<Index>, ss: seq<State>, c: Change, stuck: set<Target>,
                      r: Result<(), StatementError>, ss': seq<State>)
    requires Agree(m, tables, xs, ss) && AllWork(m, xs, ss) && Typed(m, c) && Current(tables, c)
    requires Carries(m, xs, ss, c, stuck, r, ss')
    ensures r.Ok? ==> (Agree(m, Applied(tables, c), xs, ss') <==> AllClean(m, xs, ss, c))
    ensures r.Err? ==> (Agree(m, tables, xs, ss') <==> SameEntries(ss, ss'))
    ensures r == Err(TreeFailed) && c.Removal? ==> !SameEntries(ss, ss')
  {
    hide AllWork, Follow, AllClean, Typed, Agree, SameEntries, Current;
    var q :| Follow(m, xs, ss, c, q, ss') && r == if q.Ok? && c.target in stuck then Err(HeapFailed) else q;
    if r.Ok? {
      FollowsExactly(m, tables, xs, ss, c, q, ss');
    } else {
      FollowsAlone(m, tables, xs, ss, c, q, ss');
    }
  }

  lemma SucceedsWhen(m: Metadata, xs: seq<Index>, cs: seq<Change>, stuck: set<Target>, trace: seq<seq<State>>,
                     r: Result<(), StatementError>)
    requires AllTyped(m, cs) && Trace(m, xs, cs, stuck, trace, r)
    ensures r.Ok? ==> AllGo(m, xs, cs, stuck, trace)
    ensures (forall k :: 0 <= k < |cs| ==> cs[k].Removal?) ==> (r.Ok? <==> AllGo(m, xs, cs, stuck, trace))
    ensures r.Err? ==> r.error in {TreeFailed, EntryNotFound, HeapFailed}
    ensures r == Err(HeapFailed) ==> cs[|trace| - 2].target in stuck
  {
    hide AllWork, Carries, Goes, Typed;
    forall k | 0 <= k < |trace| - 1
      ensures AllWork(m, xs, trace[k]) && (k < |trace| - 2 || r.Ok? ==> Goes(m, xs, trace[k], cs[k], stuck))
    {
      CarriesWhen(m, xs, trace[k], cs[k], stuck, if k == |trace| - 2 then r else Ok(()), trace[k + 1]);
    }
    if r.Err? {
      var last := |trace| - 2;
      CarriesWhen(m, xs, trace[last], cs[last], stuck, r, trace[last + 1]);
      assert cs[last].Removal? ==> !Goes(m, xs, trace[last], cs[last], stuck);
    }
  }

  lemma TraceBounds(m: Metadata, xs: seq<Index>, cs: seq<Change>, stuck: set<Target>, trace: seq<seq<State>>,
                    r: Result<(), StatementError>)
    requires AllTyped(m, cs) && Trace(m, xs, cs, stuck, trace, r)
    ensures 0 < |trace| <= |cs| + 1 && (r.Ok? ==> |trace| == |cs| + 1 && r == Ok(())) && (r.Err? ==> |trace| > 1)
  {
    assert r.Ok? ==> r.value == ();
  }

  lemma TraceStep(m: Metadata, xs: seq<Index>, cs: seq<Change>, stuck: set<Target>, trace: seq<seq<State>>,
                  c: Change, r: Result<(), StatementError>, ss': seq<State>)
    requires AllTyped(m, cs) && Typed(m, c) && Trace(m, xs, cs, stuck, trace, Ok(()))
    requires Carries(m, xs, trace[|trace| - 1], c, stuck, r, ss')
    ensures AllTyped(m, cs + [c]) && Trace(m, xs, cs + [c], stuck, trace + [ss'], r)
  {
    hide AllWork, Carries, Typed;
    CarriesWhen(m, xs, trace[|trace| - 1], c, stuck, r, ss');
  }

  // ---------- the rows of a statement ----------

  ghost function AllApplied(tables: Tables, cs: seq<Change>): Tables {
    if cs == [] then tables else Applied(AllApplied(tables, cs[..|cs| - 1]), cs[|cs| - 1])
  }

  ghost predicate Apart(cs: seq<Change>) {
    forall j, k :: 0 <= j < k < |cs| ==> cs[j].target != cs[k].target
  }

  ghost predicate AllCurrent(tables: Tables, cs: seq<Change>) {
    forall k :: 0 <= k < |cs| ==> Current(tables, cs[k])
  }

  /** A row after a change of it. */
  ghost function RowAfter(c: Change): Option<seq<Value>> {
    match c
    case Insertion(t, values) => Some(values)
    case Removal(t, values) => None
    case Replacement(t, before, after) => Some(after)
  }

  ghost function RowAt(tables: Tables, t: Target): Option<seq<Value>> {
    if t.table in tables && t.id in tables[t.table] then Some(tables[t.table][t.id]) else None
  }

  /** A statement carried out changes each of its rows as planned, and no other. */
  lemma {:induction false} AppliedRows(tables: Tables, cs: seq<Change>, t: Target)
    requires Apart(cs) && forall k :: 0 <= k < |cs| ==> cs[k].target.table in tables
    ensures AllApplied(tables, cs).Keys == tables.Keys
    ensures forall k :: 0 <= k < |cs| && cs[k].target == t ==> RowAt(AllApplied(tables, cs), t) == RowAfter(cs[k])
    ensures (forall k :: 0 <= k < |cs| ==> cs[k].target != t) ==> RowAt(AllApplied(tables, cs), t) == RowAt(tables, t)
  {
    if cs != [] {
      var n := |cs| - 1;
      AppliedRows(tables, cs[..n], t);
      AppliedTables(AllApplied(tables, cs[..n]), cs[n]);
      assert forall k :: 0 <= k < n ==> cs[..n][k] == cs[k];
    }
  }

  /** What a change starts from is still stored when rows before it have changed. */
  lemma StillCurrent(tables: Tables, cs: seq<Change>, n: nat)
    requires Apart(cs) && AllCurrent(tables, cs) && n < |cs|
    ensures Current(AllApplied(tables, cs[..n]), cs[n])
  {
    assert forall k :: 0 <= k < n ==> cs[..n][k] == cs[k] && Current(tables, cs[k]);
    AppliedRows(tables, cs[..n], cs[n].target);
    assert Current(tables, cs[n]);
    assert cs[n].target.table in AllApplied(tables, cs[..n]).Keys;
    assert RowAt(AllApplied(tables, cs[..n]), cs[n].target) == RowAt(tables, cs[n].target);
  }

  /** As long as the rows were clean, indexes and heap agree between them. */
  lemma {:induction false} TraceAgrees(m: Metadata, tables: Tables, xs: seq<Index>, cs: seq<Change>, stuck: set<Target>,
                                       trace: seq<seq<State>>, r: Result<(), StatementError>, n: nat)
    requires AllTyped(m, cs) && Trace(m, xs, cs, stuck, trace, r) && Agree(m, tables, xs, trace[0])
    requires Apart(cs) && AllCurrent(tables, cs) && n < |trace| && (r.Err? ==> n < |trace| - 1)
    requires CleanSoFar(m, xs, cs, trace, n)
    ensures Agree(m, AllApplied(tables, cs[..n]), xs, trace[n])
  {
    hide AllWork, AllClean, Agree, Carries, Typed, Current;
    if n > 0 {
      TraceAgrees(m, tables, xs, cs, stuck, trace, r, n - 1);
      StillCurrent(tables, cs, n - 1);
      assert cs[..n][..n - 1] == cs[..n - 1];
      CarriedAgrees(m, AllApplied(tables, cs[..n - 1]), xs, trace[n - 1], cs[n - 1], stuck,
                    if n == |trace| - 1 then r else Ok(()), trace[n]);
    }
  }

  /** After a row that fails they agree exactly if no index has lost an entry. */
  lemma FailureAgrees(m: Metadata, tables: Tables, xs: seq<Index>, cs: seq<Change>, stuck: set<Target>,
                      trace: seq<seq<State>>, r: Result<(), StatementError>)
    requires AllTyped(m, cs) && Trace(m, xs, cs, stuck, trace, r) && Agree(m, tables, xs, trace[0])
    requires Apart(cs) && AllCurrent(tables, cs) && r.Err? && CleanSoFar(m, xs, cs, trace, |trace| - 2)
    ensures var n := |trace| - 2;
            && (Agree(m, AllApplied(tables, cs[..n]), xs, trace[n + 1]) <==> SameEntries(trace[n], trace[n + 1]))
            && (r == Err(TreeFailed) && cs[n].Removal? ==>
                  !Agree(m, AllApplied(tables, cs[..n]), xs, trace[n + 1]))
  {
    hide AllWork, AllClean, Agree, Carries, Typed, Current, SameEntries;
    var n := |trace| - 2;
    TraceAgrees(m, tables, xs, cs, stuck, trace, r, n);
    StillCurrent(tables, cs, n);
    CarriedAgrees(m, AllApplied(tables, cs[..n]), xs, trace[n], cs[n], stuck, r, trace[n + 1]);
  }

  /** Without keys on both sides of a split every DELETE is clean, and stops only
      at a row on which the heap is stuck or a merge is refused. */
  lemma {:induction false} DeleteUnstraddled(m: Metadata, tables: Tables, xs: seq<Index>, cs: seq<Change>,
                                             stuck: set<Target>, trace: seq<seq<State>>,
                                             r: Result<(), StatementError>, n: nat)
    requires AllTyped(m, cs) && Trace(m, xs, cs, stuck, trace, r) && Agree(m, tables, xs, trace[0])
    requires Apart(cs) && AllCurrent(tables, cs) && AllUnstraddled(trace[0])
    requires n < |trace| && forall k :: 0 <= k < |cs| ==> cs[k].Removal?
    ensures AllUnstraddled(trace[n])
    ensures n < |trace| - 1 || r.Ok? ==> CleanSoFar(m, xs, cs, trace, n)
    ensures n == |trace| - 1 ==> r != Err(EntryNotFound)
  {
    hide AllWork, AllClean, Agree, Follow, Typed, Current, AllUnstraddled;
    if n > 0 {
      DeleteUnstraddled(m, tables, xs, cs, stuck, trace, r, n - 1);
      TraceAgrees(m, tables, xs, cs, stuck, trace, r, n - 1);
      StillCurrent(tables, cs, n - 1);
      var r' := if n == |trace| - 1 then r else Ok(());
      var q :| Follow(m, xs, trace[n - 1], cs[n - 1], q, trace[n])
        && r' == if q.Ok? && cs[n - 1].target in stuck then Err(HeapFailed) else q;
      FollowsUnstraddled(m, AllApplied(tables, cs[..n - 1]), xs, trace[n - 1], cs[n - 1], q, trace[n]);
    }
  }

  // ---------- plans as changes ----------

  function AsRemoval(d: Deletion): Change {
    Removal(d.target, d.values)
  }

  function AsReplacement(u: Update): Change {
    Replacement(u.target, u.before, u.after)
  }

  function Removals(plan: seq<Deletion>): (cs: seq<Change>)
    ensures |cs| == |plan| && forall k :: 0 <= k < |plan| ==> cs[k] == AsRemoval(plan[k])
  {
    seq(|plan|, k requires 0 <= k < |plan| => AsRemoval(plan[k]))
  }

  function Replacements(plan: seq<Update>): (cs: seq<Change>)
    ensures |cs| == |plan| && forall k :: 0 <= k < |plan| ==> cs[k] == AsReplacement(plan[k])
  {
    seq(|plan|, k requires 0 <= k < |plan| => AsReplacement(plan[k]))
  }

  function Plain<V>(r: Result<V, StatementError>): Result<(), StatementError> {
    if r.Ok? then Ok(()) else Err(r.error)
  }

  lemma RemovalsTyped(m: Metadata, tables: Tables, xs: seq<Index>, ss: seq<State>, plan: seq<Deletion>)
    requires Agree(m, tables, xs, ss) && AllCurrent(tables, Removals(plan))
    requires forall k :: 0 <= k < |plan| ==> plan[k].target.table in m.schema
    ensures AllTyped(m, Removals(plan))
  {
    forall k | 0 <= k < |plan| ensures Typed(m, Removals(plan)[k]) {
      assert Current(tables, Removals(plan)[k]);
    }
  }

  /** Storable updates of stored rows. */
  lemma ReplacementsTyped(m: Metadata, tables: Tables, xs: seq<Index>, ss: seq<State>, plan: seq<Update>)
    requires Agree(m, tables, xs, ss) && AllCurrent(tables, Replacements(plan))
    requires forall k :: 0 <= k < |plan| ==> plan[k].target.table in m.schema && Storable(m.types, plan[k])
    ensures AllTyped(m, Replacements(plan))
  {
    forall k | 0 <= k < |plan| ensures Typed(m, Replacements(plan)[k]) {
      assert Current(tables, Replacements(plan)[k]);
    }
  }

  /** A trace that ends in an error does not depend on the rows after it. */
  lemma LongerTrace(m: Metadata, xs: seq<Index>, cs: seq<Change>, stuck: set<Target>, trace: seq<seq<State>>,
                    r: Result<(), StatementError>, n: nat)
    requires AllTyped(m, cs) && n <= |cs| && AllTyped(m, cs[..n]) && Trace(m, xs, cs[..n], stuck, trace, r) && r.Err?
    ensures Trace(m, xs, cs, stuck, trace, r)
  {
    hide AllWork, Carries, Typed;
  }

  /** An insertion takes nothing out. */
  lemma InsertionClean(m: Metadata, xs: seq<Index>, ss: seq<State>, c: Change)
    requires AllWork(m, xs, ss) && Typed(m, c) && c.Insertion?
    ensures AllClean(m, xs, ss, c)
  {
    hide T.SoundState, Leaving;
    forall i | 0 <= i < |xs| ensures Cleanly(ss[i], Leaving(m, xs[i], c), c.target.id) {
      assert Works(m, xs[i], ss[i]);
      NothingEnters(m, xs[i], c);
    }
  }
}
