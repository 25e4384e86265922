/** Whole runs over a heap table: it behaves as a map from row ids to rows. */
module HeapRuns {
  import opened Keys
  import opened PageLayout
  import opened HeapTable

  datatype Op = Put(row: seq<Byte>) | Change(id: RowId, new_: seq<Byte>) | Drop(gone: RowId)

  datatype Outcome = At(id: RowId) | Done | Failed

  type Rows = map<RowId, seq<Byte>>

  /** What an operation with the given outcome makes of a table. */
  ghost function After(table: Rows, op: Op, out: Outcome): Rows {
    match op
    case Put(row) => if out.At? then table[out.id := row] else table
    case Change(id, row) => if out.Done? then table[id := row] else table
    case Drop(id) => if out.Done? then table - {id} else table
  }

  /** Which outcomes an operation may have: a stored row gets an id not in use,
      and only a row that outgrows its space may fail to be changed. */
  ghost predicate Allowed(table: Rows, op: Op, out: Outcome) {
    match op
    case Put(row) => if |row| <= 8180 then out.At? && out.id !in table else out.Failed?
    case Change(id, row) =>
      if id !in table then out.Failed?
      else if Alloc(|row|) <= Alloc(|table[id]|) then out.Done?
      else out.Done? || out.Failed?
    case Drop(id) => out == if id in table then Done else Failed
  }

  ghost function Replay(ops: seq<Op>, outs: seq<Outcome>): Rows
    requires |ops| == |outs|
  {
    if ops == [] then map[]
    else After(Replay(ops[..|ops| - 1], outs[..|ops| - 1]), ops[|ops| - 1], outs[|ops| - 1])
  }

  ghost predicate AllowedAt(ops: seq<Op>, outs: seq<Outcome>, k: int)
    requires |ops| == |outs| && 0 <= k < |ops|
  {
    Allowed(Replay(ops[..k], outs[..k]), ops[k], outs[k])
  }

  lemma ReplayStep(ops: seq<Op>, outs: seq<Outcome>, op: Op, out: Outcome)
    requires |ops| == |outs|
    requires forall k :: 0 <= k < |ops| ==> AllowedAt(ops, outs, k)
    requires Allowed(Replay(ops, outs), op, out)
    ensures Replay(ops + [op], outs + [out]) == After(Replay(ops, outs), op, out)
    ensures forall k :: 0 <= k < |ops + [op]| ==> AllowedAt(ops + [op], outs + [out], k)
  {
    var ops', outs' := ops + [op], outs + [out];
    assert ops'[..|ops|] == ops && outs'[..|ops|] == outs;
    forall k | 0 <= k < |ops'| ensures AllowedAt(ops', outs', k) {
      assert k < |ops| ==> AllowedAt(ops, outs, k);
      assert k < |ops| ==> ops'[..k] == ops[..k] && outs'[..k] == outs[..k];
    }
  }

  /** Live row ids keep their rows until they are changed or dropped. */
  lemma Untouched(table: Rows, op: Op, out: Outcome, id: RowId)
    requires Allowed(table, op, out) && id in table
    requires !(op.Change? && op.id == id) && !(op.Drop? && op.gone == id)
    ensures id in After(table, op, out) && After(table, op, out)[id] == table[id]
  {
  }

  method Step(heap: HeapTable, op: Op) returns (out: Outcome)
    requires heap.Valid()
    modifies heap.Repr()
    ensures heap.Valid() && fresh(heap.Repr() - old(heap.Repr()))
    ensures Allowed(old(heap.Rows()), op, out) && heap.Rows() == After(old(heap.Rows()), op, out)
  {
    match op
    case Put(row) =>
      var r := heap.Insert(row);
      out := if r.Ok? then At(r.value) else Failed;
    case Change(id, row) =>
      var r := heap.Update(id, row);
      out := if r.Ok? then Done else Failed;
    case Drop(id) =>
      var r := heap.Delete(id);
      out := if r.Ok? then Done else Failed;
  }

  /** The table is what replaying the outcomes of the operations makes of a map. */
  ghost predicate Replayed(heap: HeapTable, ops: seq<Op>, outs: seq<Outcome>)
    reads heap
  {
    |outs| == |ops| && heap.Rows() == Replay(ops, outs) && forall k :: 0 <= k < |ops| ==> AllowedAt(ops, outs, k)
  }

  method NextStep(heap: HeapTable, ops: seq<Op>, outs: seq<Outcome>, op: Op) returns (outs': seq<Outcome>)
    requires heap.Valid() && Replayed(heap, ops, outs)
    modifies heap.Repr()
    ensures heap.Valid() && fresh(heap.Repr() - old(heap.Repr())) && Replayed(heap, ops + [op], outs')
  {
    hide HeapTable.Valid, HeapTable.Repr, HeapTable.Rows, Allowed, After, Replay, AllowedAt;
    var out := Step(heap, op);
    ReplayStep(ops, outs, op, out);
    outs' := outs + [out];
  }

  /** A run of any operations from the empty table leaves exactly the rows that
      replaying their outcomes on a map leaves, and a scan lists them. */
  method Run(ops: seq<Op>) returns (outs: seq<Outcome>, list: seq<Scanned>)
    ensures |outs| == |ops| && forall k :: 0 <= k < |ops| ==> AllowedAt(ops, outs, k)
    ensures Scans(list, Replay(ops, outs))
  {
    hide HeapTable.Valid, HeapTable.Rows, Replay, AllowedAt, Scans;
    var heap := new HeapTable();
    outs := [];
    NothingReplayed(heap);
    var i := 0;
    while i < |ops|
      invariant 0 <= i <= |ops| && heap.Valid() && fresh(heap.Repr()) && Replayed(heap, ops[..i], outs)
    {
      outs := NextStep(heap, ops[..i], outs, ops[i]);
      assert ops[..i] + [ops[i]] == ops[..i + 1];
      i := i + 1;
    }
    assert ops[..i] == ops;
    list := heap.Scan();
  }

  lemma NothingReplayed(heap: HeapTable)
    requires heap.Rows() == map[]
    ensures Replayed(heap, [], [])
  {
  }
}
