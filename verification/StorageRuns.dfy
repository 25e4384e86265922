/** Whole runs against the storage manager: whatever the capacity of the cache,
    replies are those of plain files. */
module StorageRuns {
  import opened BufferPool
  import opened StorageModel
  import opened Storage

  datatype Op<P> = Read(key: PageKey) | Write(key: PageKey, page: P) | Flush(key: PageKey)
                 | Allocate(rel: RelationId) | Count(rel: RelationId) | Create(rel: RelationId)

  datatype Reply<P> = Page(page: P) | Number(n: nat) | Done | Missing

  /** The same operation on files without a cache. */
  ghost function Plain<P>(store: Files<P>, op: Op<P>, blank: P): (Files<P>, Reply<P>) {
    match op
    case Read(k) => (store, if OnDisk(store, k) then Page(store[k.rel][k.page]) else Missing)
    case Write(k, p) => if OnDisk(store, k) then (store[k.rel := store[k.rel][k.page := p]], Done) else (store, Missing)
    case Flush(k) => (store, Done)
    case Allocate(r) => if r in store then (store[r := store[r] + [blank]], Number(|store[r]|)) else (store, Missing)
    case Count(r) => (store, if r in store then Number(|store[r]|) else Missing)
    case Create(r) => (if r in store then store else store[r := []], Done)
  }

  ghost function PlainStore<P>(ops: seq<Op<P>>, blank: P): Files<P> {
    if ops == [] then map[] else Plain(PlainStore(ops[..|ops| - 1], blank), ops[|ops| - 1], blank).0
  }

  ghost function PlainReply<P>(ops: seq<Op<P>>, k: nat, blank: P): Reply<P>
    requires k < |ops|
  {
    Plain(PlainStore(ops[..k], blank), ops[k], blank).1
  }

  /** A manager between operations: no guard is alive. */
  ghost predicate Idle<P>(m: StorageManager<P>)
    reads m, m.pool
  {
    m.Valid() && AllUnpinned(m.pool.frames) && |m.pool.frames| > 0 && m.files.Keys == m.registered
  }

  method Step<P>(m: StorageManager<P>, op: Op<P>) returns (reply: Reply<P>)
    requires Idle(m)
    modifies m, m.pool
    ensures Idle(m) && (m.Pages(), reply) == Plain(old(m.Pages()), op, m.blank)
  {
    assert !AllPinned(m.pool.frames) by {
      assert m.pool.frames[0].Some? ==> m.pool.frames[0].value.pins == 0;
    }
    match op
    case Read(k) =>
      var guard := m.FetchPage(k);
      if guard.Err? {
        return Missing;
      }
      reply := Page(m.pool.frames[guard.value].value.page);
      m.GuardDrop(guard.value, k);
    case Write(k, p) =>
      var guard := m.FetchPage(k);
      if guard.Err? {
        return Missing;
      }
      m.GuardWrite(guard.value, k, p);
      m.GuardDrop(guard.value, k);
      reply := Done;
    case Flush(k) =>
      var flushed := m.FlushPage(k);
      reply := Done;
    case Allocate(r) =>
      var id := m.AllocatePage(r);
      reply := if id.Ok? then Number(id.value) else Missing;
    case Count(r) =>
      var n := m.PageCount(r);
      reply := if n.Ok? then Number(n.value) else Missing;
    case Create(r) =>
      m.CreateRelation(r);
      reply := Done;
  }

  /** Replies do not depend on the capacity of the cache, as long as it has any. */
  method Run<P>(capacity: nat, blank: P, ops: seq<Op<P>>) returns (replies: seq<Reply<P>>)
    requires capacity > 0
    ensures |replies| == |ops| && forall k :: 0 <= k < |ops| ==> replies[k] == PlainReply(ops, k, blank)
  {
    var m := new StorageManager<P>(capacity, map[], blank);
    replies := [];
    var i := 0;
    while i < |ops|
      invariant 0 <= i <= |ops| && |replies| == i && fresh(m) && fresh(m.pool)
      invariant Idle(m) && m.blank == blank && m.Pages() == PlainStore(ops[..i], blank)
      invariant forall k :: 0 <= k < i ==> replies[k] == PlainReply(ops, k, blank)
    {
      var reply := Step(m, ops[i]);
      assert ops[..i + 1][..i] == ops[..i];
      replies := replies + [reply];
      i := i + 1;
    }
  }
}
