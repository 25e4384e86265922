/** The storage manager: relation files behind a write-back cache. What a reader
    sees is the plain pages of the registered relations, whatever is cached. */
module Storage {
  import opened Wrappers
  import opened BufferPool
  import opened StorageModel

  datatype StorageError = Pool(error: PoolError) | RelationNotRegistered | PageNotRead | PageNotAllocated

  ghost predicate AllUnpinned<P>(frames: Frames<P>) {
    forall i :: 0 <= i < |frames| && frames[i].Some? ==> frames[i].value.pins == 0
  }

  /** No page can be brought in: every frame holds a pinned page. */
  ghost predicate AllPinned<P>(frames: Frames<P>) {
    forall i :: 0 <= i < |frames| ==> frames[i].Some? && frames[i].value.pins > 0
  }

  /** Pinned frames stay where they are, with their pages and at least their pins. */
  ghost predicate PinnedStay<P>(was: Frames<P>, now: Frames<P>) {
    && |now| == |was|
    && forall i :: 0 <= i < |was| && was[i].Some? && was[i].value.pins > 0 ==>
         && now[i].Some? && now[i].value.key == was[i].value.key && now[i].value.page == was[i].value.page
         && now[i].value.pins >= was[i].value.pins
  }

  class StorageManager<P> {
    const pool: BufferPool<P>
    const blank: P
    var files: Files<P>
    var registered: set<RelationId>
    var pageCount: map<RelationId, nat>

    ghost predicate CountsOk()
      reads this
    {
      forall r :: r in pageCount ==> r in registered && r in files && pageCount[r] == |files[r]|
    }

    ghost predicate Valid()
      reads this, pool
    {
      && pool.Valid() && registered <= files.Keys && CountsOk()
      && TableOk(pool.frames, pool.pageTable) && FramesOk(pool.frames, files, registered)
    }

    /** The pages that readers see. */
    ghost function Pages(): Files<P>
      reads this, pool
    {
      View(pool.frames, pool.pageTable, files, registered)
    }

    constructor (capacity: nat, disk: Files<P>, newPage: P)
      ensures Valid() && fresh(pool) && |pool.frames| == capacity && AllUnpinned(pool.frames)
      ensures Pages() == map[] && files == disk && registered == {} && blank == newPage
    {
      pool := new BufferPool<P>(capacity);
      blank := newPage;
      files, registered, pageCount := disk, {}, map[];
    }

    // ---------- relation files ----------

    method DiskRead(k: PageKey) returns (r: Result<P, StorageError>)
      requires registered <= files.Keys
      ensures r.Ok? <==> k.rel in registered && OnDisk(files, k)
      ensures r.Ok? ==> r.value == files[k.rel][k.page]
      ensures r.Err? ==> r.error == if k.rel in registered then PageNotRead else RelationNotRegistered
    {
      if k.rel !in registered {
        return Err(RelationNotRegistered);
      }
      if k.page >= |files[k.rel]| {
        return Err(PageNotRead);
      }
      return Ok(files[k.rel][k.page]);
    }

    method DiskWrite(k: PageKey, page: P) returns (r: Result<(), StorageError>)
      requires registered <= files.Keys
      modifies this`files
      ensures r.Ok? <==> k.rel in registered && OnDisk(old(files), k)
      ensures r.Ok? ==> files == old(files)[k.rel := old(files)[k.rel][k.page := page]]
      ensures r.Err? ==> files == old(files)
    {
      if k.rel !in registered {
        return Err(RelationNotRegistered);
      }
      if k.page >= |files[k.rel]| {
        return Err(PageNotAllocated);
      }
      files := files[k.rel := files[k.rel][k.page := page]];
      return Ok(());
    }

    method CreateRelation(rel: RelationId)
      requires Valid()
      modifies this`files, this`registered
      ensures files.Keys == old(files.Keys) + {rel} && registered == old(registered) + {rel}
      ensures Valid()
      ensures Pages() == if rel in old(registered) then old(Pages())
                         else old(Pages())[rel := if rel in old(files) then old(files)[rel] else []]
    {
      if rel !in registered {
        RegisterView(pool.frames, pool.pageTable, files, registered, rel, if rel in files then files[rel] else []);
      }
      if rel !in files {
        files := files[rel := []];
      }
      registered := registered + {rel};
      assert rel in old(registered) ==> registered == old(registered);
      assert rel in old(files) ==> files == old(files)[rel := old(files)[rel]];
    }

    // ---------- pages ----------

    /** Write the page of a frame back, holding a guard meanwhile. */
    method WriteBack(k: PageKey)
      requires Valid() && k in pool.pageTable
      modifies this`files, pool`frames
      ensures files.Keys == old(files.Keys)
      ensures Valid() && Pages() == old(Pages()) && OnDisk(files, k) && Exists(k)
              && files[k.rel][k.page] == Pages()[k.rel][k.page]
      ensures var was := old(pool.FrameOf(k));
              pool.frames == old(pool.frames)[pool.pageTable[k] := Some(Frame(k, was.page, was.pins, false, true))]
    {
      hide View, FramesOk;
      CleanIsOnDisk(k);
      var i := pool.pageTable[k];
      FlushView(pool.frames, pool.pageTable, files, registered, i);
      ghost var flushed := pool.frames[i := Some(pool.frames[i].value.(dirty := false))];
      var guard := pool.FetchCached(k);
      var written := DiskWrite(k, pool.frames[i].value.page);
      pool.SetFrame(i, pool.frames[i].value.Unpin());
      pool.SetFrame(i, pool.frames[i].value.(dirty := false));
      SamePagesView(flushed, pool.frames, pool.pageTable, files, registered);
    }

    lemma CleanIsOnDisk(k: PageKey)
      requires Valid() && k in pool.pageTable
      ensures k.rel in registered && OnDisk(files, k) && Exists(k)
              && (!pool.FrameOf(k).dirty ==> files[k.rel][k.page] == Pages()[k.rel][k.page])
    {
      assert FrameOk(pool.frames[pool.pageTable[k]], files, registered);
    }

    /** Write a cached page back if it is dirty. */
    method FlushPage(k: PageKey) returns (r: Result<(), StorageError>)
      requires Valid()
      modifies this`files, pool`frames
      ensures files.Keys == old(files.Keys)
      ensures Valid() && Pages() == old(Pages())
      ensures r == if k in pool.pageTable then Ok(()) else Err(Pool(PageNotCached))
      ensures r.Ok? ==> OnDisk(files, k) && Exists(k) && files[k.rel][k.page] == Pages()[k.rel][k.page]
      ensures r.Ok? ==> !pool.FrameOf(k).dirty && pool.FrameOf(k).pins == old(pool.FrameOf(k)).pins
      ensures |pool.frames| == |old(pool.frames)|
      ensures forall i :: 0 <= i < |pool.frames| && (r.Err? || i != pool.pageTable[k]) ==>
                pool.frames[i] == old(pool.frames)[i]
      ensures r.Ok? ==> pool.FrameOf(k).page == old(pool.FrameOf(k)).page
    {
      if k !in pool.pageTable {
        return Err(Pool(PageNotCached));
      }
      CleanIsOnDisk(k);
      if pool.frames[pool.pageTable[k]].value.dirty {
        WriteBack(k);
      }
      return Ok(());
    }

    /** Write back and drop one unpinned page. */
    method Evict(k: PageKey)
      requires Valid() && k in pool.pageTable && pool.FrameOf(k).pins == 0
      modifies this`files, pool`frames, pool`pageTable
      ensures files.Keys == old(files.Keys)
      ensures Valid() && Pages() == old(Pages())
      ensures pool.pageTable == old(pool.pageTable) - {k} && |pool.frames| == |old(pool.frames)|
      ensures forall i :: 0 <= i < |pool.frames| ==>
                pool.frames[i] == if i == old(pool.pageTable)[k] then None else old(pool.frames)[i]
    {
      var flushed := FlushPage(k);
      RemoveView(pool.frames, pool.pageTable, files, registered, k);
      var removed := pool.RemovePage(k);
    }

    /** Evict the page the clock picks. A pinned page stays. */
    method EvictOne() returns (r: Result<(), StorageError>)
      requires Valid()
      modifies this`files, pool
      ensures files.Keys == old(files.Keys)
      ensures Valid() && Pages() == old(Pages()) && |pool.frames| == |old(pool.frames)|
      ensures r
            == if exists i :: 0 <= i < |pool.frames| && Unpinned(old(pool.frames)[i]) then Ok(())
                else Err(Pool(NoFreeFrame))
      ensures PinnedStay(old(pool.frames), pool.frames) && pool.pageTable.Keys <= old(pool.pageTable.Keys)
      ensures r.Ok? ==> exists i :: 0 <= i < |pool.frames| && pool.frames[i].None?
      ensures old(AllUnpinned(pool.frames)) ==> AllUnpinned(pool.frames)
    {
      hide Swept, SamePages, View, FramesOk, TableOk, PinnedStay, AllUnpinned;
      ghost var was, h := pool.frames, pool.hand;
      var victim;
      ghost var d;
      victim, d := pool.SelectClockFrame();
      ghost var swept := pool.frames;
      SweepKeepsPages(was, swept, h, if victim.Some? && !Referenced(was[victim.value]) then d else |was|);
      SamePagesView(was, swept, pool.pageTable, files, registered);
      if victim.None? {
        return Err(Pool(NoFreeFrame));
      }
      Evict(pool.frames[victim.value].value.key);
      assert pool.frames[victim.value].None?;
      EvictedKeeps(was, swept, pool.frames, victim.value);
      return Ok(());
    }

    /** A cached page, pinned. */
    method FetchHit(k: PageKey) returns (i: nat)
      requires Valid() && k in pool.pageTable
      modifies pool`frames
      ensures Valid() && Pages() == old(Pages()) && GuardOf(i, k)
      ensures pool.frames == old(pool.frames)[i := Some(old(pool.FrameOf(k)).Pin())] && i == pool.pageTable[k]
    {
      ghost var was := pool.frames;
      var r := pool.FetchCached(k);
      i := r.value;
      SamePagesView(was, pool.frames, pool.pageTable, files, registered);
    }

    /** A page that is not cached, from disk, if a frame is free. */
    method FetchMiss(k: PageKey) returns (r: Result<nat, StorageError>)
      requires Valid() && k !in pool.pageTable && exists i :: 0 <= i < |pool.frames| && pool.frames[i].None?
      modifies pool`frames, pool`pageTable
      ensures Valid() && Pages() == old(Pages()) && |pool.frames| == |old(pool.frames)|
      ensures r.Ok? <==> Exists(k)
      ensures r.Err? ==> r.error in {RelationNotRegistered, PageNotRead} && pool.frames == old(pool.frames)
      ensures r.Ok? ==>
                && GuardOf(r.value, k) && old(pool.frames)[r.value] == None && pool.frames[r.value].value.pins == 1
                && pool.frames == old(pool.frames)[r.value := pool.frames[r.value]]
    {
      ghost var was, table := pool.frames, pool.pageTable;
      var page := DiskRead(k);
      if page.Err? {
        return Err(page.error);
      }
      var i := pool.InsertPage(k, page.value);
      InsertView(was, table, files, registered, i.value, k);
      return Ok(i.value);
    }

    /** Bring a page into the cache, pinned. It fails exactly when the page has to
        be read and every frame is pinned, or when it does not exist. */
    method FetchPage(k: PageKey) returns (r: Result<nat, StorageError>)
      requires Valid()
      modifies this`files, pool
      ensures files.Keys == old(files.Keys)
      ensures Valid() && Pages() == old(Pages()) && |pool.frames| == |old(pool.frames)|
      ensures r == Err(Pool(NoFreeFrame)) <==> k !in old(pool.pageTable) && AllPinned(old(pool.frames))
      ensures r.Ok? <==> k in old(pool.pageTable) || (!AllPinned(old(pool.frames)) && Exists(k))
      ensures r.Ok? ==> GuardOf(r.value, k) && Exists(k) && pool.frames[r.value].value.page == Pages()[k.rel][k.page]
      ensures PinnedStay(old(pool.frames), pool.frames)
      ensures old(AllUnpinned(pool.frames)) ==> UnpinnedBut(pool.frames, r)
    {
      hide PinnedStay, AllUnpinned, UnpinnedBut, FramesOk, TableOk, View;
      ghost var was := pool.frames;
      if k in pool.pageTable {
        var i := FetchHit(k);
        HitPins(was, pool.frames, i);
        SeenThroughGuard(i, k);
        return Ok(i);
      }
      var full := pool.IsFull();
      if full {
        var evicted := EvictOne();
        if evicted.Err? {
          FailedPins(was, pool.frames, evicted.error);
          return Err(evicted.error);
        }
      } else {
        NoChange(was);
      }
      ghost var mid := pool.frames;
      r := FetchMiss(k);
      if r.Ok? {
        MissPins(was, mid, pool.frames, r.value);
        SeenThroughGuard(r.value, k);
      } else {
        FailedPins(was, pool.frames, r.error);
      }
    }

    /** The page belongs to a registered relation and has been allocated. */
    ghost predicate Exists(k: PageKey)
      reads this, pool
    {
      k.rel in Pages() && k.page < |Pages()[k.rel]|
    }

    /** A guard on a page: its frame, pinned. */
    ghost predicate GuardOf(i: nat, k: PageKey)
      reads pool
    {
      && i < |pool.frames| && pool.frames[i].Some? && pool.frames[i].value.key == k && pool.frames[i].value.pins > 0
      && k in pool.pageTable
    }

    /** What a guard shows is what a reader sees. */
    lemma SeenThroughGuard(i: nat, k: PageKey)
      requires Valid() && GuardOf(i, k)
      ensures Exists(k) && pool.frames[i].value.page == Pages()[k.rel][k.page]
    {
      assert FrameOk(pool.frames[i], files, registered);
    }

    method GuardWrite(i: nat, k: PageKey, page: P)
      requires Valid() && GuardOf(i, k)
      modifies pool`frames
      ensures Valid() && GuardOf(i, k) && old(Exists(k))
      ensures Pages() == old(Pages())[k.rel := old(Pages())[k.rel][k.page := page]]
      ensures pool.frames == old(pool.frames)[i := Some(old(pool.frames)[i].value.(page := page, dirty := true))]
    {
      SeenThroughGuard(i, k);
      WriteView(pool.frames, pool.pageTable, files, registered, i, page);
      pool.SetFrame(i, pool.frames[i].value.Write(page));
    }

    method GuardDrop(i: nat, k: PageKey)
      requires Valid() && GuardOf(i, k)
      modifies pool`frames
      ensures Valid() && Pages() == old(Pages())
      ensures var f := old(pool.frames)[i].value;
              f.pins > 0 && pool.frames == old(pool.frames)[i := Some(f.(pins := f.pins - 1))]
    {
      ghost var was := pool.frames;
      pool.SetFrame(i, pool.frames[i].value.Unpin());
      SamePagesView(was, pool.frames, pool.pageTable, files, registered);
    }

    /** A new page at the end of the file of a relation. */
    method AllocatePage(rel: RelationId) returns (r: Result<nat, StorageError>)
      requires Valid()
      modifies this`files, this`pageCount
      ensures files.Keys == old(files.Keys)
      ensures Valid()
      ensures r == if rel in old(Pages()) then Ok(|old(Pages())[rel]|) else Err(RelationNotRegistered)
      ensures Pages() == if rel in old(Pages()) then old(Pages())[rel := old(Pages())[rel] + [blank]] else old(Pages())
    {
      if rel !in registered {
        return Err(RelationNotRegistered);
      }
      AllocateView(pool.frames, pool.pageTable, files, registered, rel, blank);
      r := Ok(|files[rel]|);
      files := files[rel := files[rel] + [blank]];
      if rel in pageCount {
        pageCount := pageCount[rel := pageCount[rel] + 1];
      }
    }

    /** The number of pages of a relation, from the file only the first time. */
    method PageCount(rel: RelationId) returns (r: Result<nat, StorageError>)
      requires Valid()
      modifies this`pageCount
      ensures Valid() && Pages() == old(Pages())
      ensures r == if rel in Pages() then Ok(|Pages()[rel]|) else Err(RelationNotRegistered)
    {
      if rel in pageCount {
        return Ok(pageCount[rel]);
      }
      if rel !in registered {
        return Err(RelationNotRegistered);
      }
      pageCount := pageCount[rel := |files[rel]|];
      return Ok(|files[rel]|);
    }
  }

  /** A sweep changes reference bits of unpinned frames only. */
  lemma SweepKeepsPages<P>(was: Frames<P>, now: Frames<P>, hand: nat, d: nat)
    requires (was == [] || hand < |was|) && Swept(was, now, hand, d)
    ensures SamePages(was, now) && PinnedStay(was, now) && (AllUnpinned(was) ==> AllUnpinned(now))
    ensures forall i :: 0 <= i < |was| ==> (Unpinned(was[i]) <==> Unpinned(now[i]))
  {
    if was != [] {
      SweepKeeps(was, now, hand, d);
    }
  }

  /** All pages are unpinned, save for the one that was fetched. */
  ghost predicate UnpinnedBut<P>(frames: Frames<P>, r: Result<nat, StorageError>) {
    && (r.Ok? ==> r.value < |frames| && frames[r.value].Some? && frames[r.value].value.pins == 1)
    && forall i :: 0 <= i < |frames| && frames[i].Some? && !(r.Ok? && r.value == i) ==> frames[i].value.pins == 0
  }

  lemma HitPins<P>(was: Frames<P>, now: Frames<P>, i: nat)
    requires i < |was| && was[i].Some? && now == was[i := Some(was[i].value.Pin())]
    ensures PinnedStay(was, now) && (AllUnpinned(was) ==> UnpinnedBut(now, Ok(i)))
  {
  }

  lemma NoChange<P>(was: Frames<P>)
    ensures PinnedStay(was, was)
  {
  }

  lemma FailedPins<P>(was: Frames<P>, now: Frames<P>, e: StorageError)
    requires AllUnpinned(was) ==> AllUnpinned(now)
    ensures AllUnpinned(was) ==> UnpinnedBut(now, Err(e))
  {
  }

  lemma MissPins<P>(was: Frames<P>, mid: Frames<P>, now: Frames<P>, i: nat)
    requires PinnedStay(was, mid) && (AllUnpinned(was) ==> AllUnpinned(mid)) && i < |mid| == |now|
    requires mid[i] == None && now[i].Some? && now[i].value.pins == 1 && now == mid[i := now[i]]
    ensures PinnedStay(was, now) && (AllUnpinned(was) ==> UnpinnedBut(now, Ok(i)))
  {
  }

  lemma EvictedKeeps<P>(was: Frames<P>, swept: Frames<P>, now: Frames<P>, v: nat)
    requires PinnedStay(was, swept) && |now| == |swept| && v < |swept| && Unpinned(swept[v])
             && !(was[v].Some? && was[v].value.pins > 0)
    requires forall i :: 0 <= i < |now| ==> now[i] == if i == v then None else swept[i]
    ensures PinnedStay(was, now) && (AllUnpinned(swept) ==> AllUnpinned(now))
  {
  }
}
