/** The buffer pool: a fixed number of frames, the table that finds the frame of
    a cached page, and the clock that picks a page to evict. */
module BufferPool {
  import opened Wrappers

  datatype RelationId = Heap(id: nat) | Index(id: nat)

  datatype PageKey = PageKey(rel: RelationId, page: nat)

  datatype PoolError = NoFreeFrame | PageAlreadyCached | PageNotCached | PagePinned | PageDirty

  datatype Frame<P> = Frame(key: PageKey, page: P, pins: nat, dirty: bool, referenced: bool) {
    function Pin(): Frame<P> {
      this.(pins := pins + 1, referenced := true)
    }

    function Unpin(): Frame<P> {
      if pins == 0 then this else this.(pins := pins - 1)
    }

    /** Writing through the guard of a frame marks it dirty. */
    function Write(p: P): Frame<P> {
      this.(page := p, dirty := true)
    }
  }

  // ---------- the clock ----------

  /** The frame at a distance from the hand. */
  function At(hand: nat, n: nat, d: nat): (i: nat)
    requires hand < n && d < n
    ensures i < n
  {
    if hand + d < n then hand + d else hand + d - n
  }

  /** Every frame is at exactly one distance from the hand. */
  lemma AtOnto(hand: nat, n: nat, i: nat)
    requires hand < n && i < n
    ensures var d := if i >= hand then i - hand else i + n - hand;
            d < n && At(hand, n, d) == i && forall e: nat :: e < n && At(hand, n, e) == i ==> e == d
  {
  }

  lemma Advance(hand: nat, n: nat, d: nat)
    requires hand < n && d < n
    ensures (At(hand, n, d) + 1) % n == if d + 1 < n then At(hand, n, d + 1) else hand
  {
    var i := At(hand, n, d);
    if i + 1 < n {
      assert (i + 1) % n == i + 1;
    } else {
      assert (i + 1) % n == 0;
    }
  }

  ghost predicate Unpinned<P>(f: Option<Frame<P>>) {
    f.Some? && f.value.pins == 0
  }

  ghost predicate Referenced<P>(f: Option<Frame<P>>) {
    f.Some? && f.value.referenced
  }

  ghost function Unreferenced<P>(f: Option<Frame<P>>): Option<Frame<P>> {
    if Unpinned(f) then Some(f.value.(referenced := false)) else f
  }

  /** Frames as the hand leaves them after passing the first `d` of them: the
      unpinned ones have lost their reference bits. */
  ghost predicate Swept<P>(was: seq<Option<Frame<P>>>, now: seq<Option<Frame<P>>>, hand: nat, d: nat)
    requires was == [] || hand < |was|
  {
    && |now| == |was|
    && forall e: nat :: e < |was| ==>
         now[At(hand, |was|, e)] == if e < d then Unreferenced(was[At(hand, |was|, e)]) else was[At(hand, |was|, e)]
  }

  /** Frame `d` away from the hand is the one to evict: the first unpinned frame
      without its reference bit or, if all unpinned frames have theirs, the first
      unpinned frame. */
  ghost predicate IsVictim<P>(frames: seq<Option<Frame<P>>>, hand: nat, d: nat)
    requires hand < |frames| && d < |frames|
  {
    && Unpinned(frames[At(hand, |frames|, d)])
    && if Referenced(frames[At(hand, |frames|, d)]) then
         && (forall e: nat :: e < |frames| && Unpinned(frames[At(hand, |frames|, e)]) ==>
               Referenced(frames[At(hand, |frames|, e)]))
         && (forall e: nat :: e < d ==> !Unpinned(frames[At(hand, |frames|, e)]))
       else
         forall e: nat :: e < d && Unpinned(frames[At(hand, |frames|, e)]) ==> Referenced(frames[At(hand, |frames|, e)])
  }

  /** A frame without its reference bit, or with it while all unpinned frames
      have theirs: what a reader of the clock relies on. */
  lemma VictimIsLeastUsed<P>(frames: seq<Option<Frame<P>>>, hand: nat, d: nat)
    requires hand < |frames| && d < |frames| && IsVictim(frames, hand, d)
    ensures var i := At(hand, |frames|, d);
            && Unpinned(frames[i])
            && (Referenced(frames[i]) ==> forall j :: 0 <= j < |frames| && Unpinned(frames[j]) ==>
                  Referenced(frames[j]))
  {
    var i := At(hand, |frames|, d);
    if Referenced(frames[i]) {
      forall j | 0 <= j < |frames| && Unpinned(frames[j]) ensures Referenced(frames[j]) {
        AtOnto(hand, |frames|, j);
        var e: nat := if j >= hand then j - hand else j + |frames| - hand;
        assert At(hand, |frames|, e) == j;
      }
    }
  }

  /** The page table names exactly the frames that hold a page. */
  ghost predicate Mapped<P>(frames: seq<Option<Frame<P>>>, pageTable: map<PageKey, nat>) {
    && (forall k :: k in pageTable ==>
          pageTable[k] < |frames| && frames[pageTable[k]].Some? && frames[pageTable[k]].value.key == k)
    && (forall i :: 0 <= i < |frames| && frames[i].Some? ==>
          frames[i].value.key in pageTable && pageTable[frames[i].value.key] == i)
  }

  class BufferPool<P> {
    var frames: seq<Option<Frame<P>>>
    var pageTable: map<PageKey, nat>
    var hand: nat

    /** Table and frames agree in both directions. */
    ghost predicate Valid()
      reads this
    {
      && Mapped(frames, pageTable)
      && (if frames == [] then hand == 0 else hand < |frames|)
    }

    ghost predicate Cached(k: PageKey)
      reads this
    {
      k in pageTable
    }

    /** The frame of a cached page. */
    ghost function FrameOf(k: PageKey): Frame<P>
      reads this
      requires Valid() && Cached(k)
    {
      frames[pageTable[k]].value
    }

    constructor (capacity: nat)
      ensures Valid() && |frames| == capacity && pageTable == map[]
      ensures forall i :: 0 <= i < capacity ==> frames[i] == None
    {
      frames, pageTable, hand := seq(capacity, _ => None), map[], 0;
    }

    /** Replace a frame by one for the same page. */
    method SetFrame(i: nat, f: Frame<P>)
      requires Valid() && i < |frames| && frames[i].Some? && f.key == frames[i].value.key
      modifies this`frames
      ensures Valid() && frames == old(frames)[i := Some(f)]
    {
      frames := frames[i := Some(f)];
    }

    method FetchCached(k: PageKey) returns (r: Result<nat, PoolError>)
      requires Valid()
      modifies this`frames
      ensures Valid()
      ensures r == if k in pageTable then Ok(pageTable[k]) else Err(PageNotCached)
      ensures k !in pageTable ==> frames == old(frames)
      ensures k in pageTable ==>
                var f := old(FrameOf(k));
                frames == old(frames)[pageTable[k] := Some(Frame(k, f.page, f.pins + 1, f.dirty, true))]
    {
      if k !in pageTable {
        return Err(PageNotCached);
      }
      var i := pageTable[k];
      SetFrame(i, frames[i].value.Pin());
      return Ok(i);
    }

    method IsFull() returns (full: bool)
      ensures full <==> forall i :: 0 <= i < |frames| ==> frames[i].Some?
    {
      var i := 0;
      while i < |frames|
        invariant 0 <= i <= |frames| && forall j :: 0 <= j < i ==> frames[j].Some?
      {
        if frames[i].None? {
          return false;
        }
        i := i + 1;
      }
      return true;
    }

    /** A page enters the first empty frame, pinned and referenced. */
    method InsertPage(k: PageKey, page: P) returns (r: Result<nat, PoolError>)
      requires Valid()
      modifies this`frames, this`pageTable
      ensures Valid() && |frames| == |old(frames)|
      ensures r == Err(NoFreeFrame) <==> forall i :: 0 <= i < |frames| ==> old(frames[i]).Some?
      ensures r == Err(PageAlreadyCached) <==> old(Cached(k)) && exists i :: 0 <= i < |frames| && old(frames[i]).None?
      ensures r.Err? ==>
                r.error in {NoFreeFrame, PageAlreadyCached} && frames == old(frames) && pageTable == old(pageTable)
      ensures r.Ok? ==>
                && r.value < |frames| && old(frames)[r.value] == None && pageTable == old(pageTable)[k := r.value]
                && frames == old(frames)[r.value := Some(Frame(k, page, 1, false, true))]
    {
      var i := 0;
      while i < |frames|
        invariant 0 <= i <= |frames| && forall j :: 0 <= j < i ==> frames[j].Some?
      {
        if frames[i].None? {
          if k in pageTable {
            return Err(PageAlreadyCached);
          }
          pageTable := pageTable[k := i];
          frames := frames[i := Some(Frame(k, page, 1, false, true))];
          return Ok(i);
        }
        i := i + 1;
      }
      return Err(NoFreeFrame);
    }

    method RemovePage(k: PageKey) returns (r: Result<(), PoolError>)
      requires Valid()
      modifies this`frames, this`pageTable
      ensures Valid() && |frames| == |old(frames)|
      ensures r == if !old(Cached(k)) then Err(PageNotCached)
                   else if old(FrameOf(k)).pins > 0 then Err(PagePinned)
                   else if old(FrameOf(k)).dirty then Err(PageDirty)
                   else Ok(())
      ensures r.Err? ==> frames == old(frames) && pageTable == old(pageTable)
      ensures r.Ok? ==> frames == old(frames)[old(pageTable)[k] := None] && pageTable == old(pageTable) - {k}
    {
      if k !in pageTable {
        return Err(PageNotCached);
      }
      var i := pageTable[k];
      if frames[i].value.pins > 0 {
        return Err(PagePinned);
      }
      if frames[i].value.dirty {
        return Err(PageDirty);
      }
      pageTable := pageTable - {k};
      frames := frames[i := None];
      return Ok(());
    }

    /** Take away the second chance of a frame. */
    method ClearReferenced(i: nat)
      requires Valid() && i < |frames| && frames[i].Some? && frames[i].value.pins == 0
      modifies this`frames
      ensures Valid() && frames == old(frames)[i := Unreferenced(old(frames)[i])]
    {
      SetFrame(i, frames[i].value.(referenced := false));
    }

    /** Clear reference bits until an unpinned frame without one comes up; two
        sweeps always find a victim if there is one. */
    method SelectClockFrame() returns (r: Option<nat>, ghost d: nat)
      requires Valid()
      modifies this`frames, this`hand
      ensures Valid() && |frames| == |old(frames)|
      ensures r.None? <==> forall i :: 0 <= i < |frames| ==> !Unpinned(old(frames)[i])
      ensures r.Some? ==>
                && d < |old(frames)| && IsVictim(old(frames), old(hand), d)
                    && r.value == At(old(hand), |old(frames)|, d)
                && hand == (r.value + 1) % |old(frames)|
      ensures Swept(old(frames), frames, old(hand), if r.Some? && !Referenced(old(frames)[r.value]) then d
                    else |frames|)
    {
      ghost var was, h := frames, hand;
      var n := |frames|;
      d := 0;
      if n == 0 {
        return None, d;
      }
      assert At(h, n, 0) == h;
      hide Swept, IsVictim, Sweeping, At, Unpinned, Referenced, Mapped;
      SweepStart(was, h);
      var step := 0;
      while step < 2 * n
        invariant 0 <= step <= 2 * n && |frames| == n && Valid() && hand < n
        invariant d == if step < n then step else step - n
        invariant step < 2 * n ==> hand == At(h, n, d)
        invariant Sweeping(was, frames, h, step)
      {
        var index := hand;
        Advance(h, n, d);
        hand := (index + 1) % n;
        var victim := PassFrame(index, was, h, step, d);
        if victim {
          SweepingKeeps(was, frames, h, step);
          return Some(index), d;
        }
        step := step + 1;
        d := if step < n then step else step - n;
      }
      SweepingKeeps(was, frames, h, 2 * n);
      NoneUnpinned(was, frames, h);
      return None, d;
    }

    /** Whether the frame under the hand is the victim; if not, it has lost its
        second chance. */
    method PassFrame(index: nat, ghost was: seq<Option<Frame<P>>>, ghost h: nat, ghost step: nat, ghost d: nat)
      returns (victim: bool)
      requires Valid() && h < |was| == |frames| && Sweeping(was, frames, h, step) && step < 2 * |was|
      requires d == if step < |was| then step else step - |was|
      requires index == At(h, |was|, d)
      modifies this`frames
      ensures Valid() && |frames| == |old(frames)|
      ensures victim ==>
                && frames == old(frames) && Unpinned(was[index]) && IsVictim(was, h, d)
                && (Referenced(was[index]) <==> step >= |was|)
      ensures !victim ==> Sweeping(was, frames, h, step + 1)
    {
      hide Swept, IsVictim, Sweeping, At;
      SweepAt(was, frames, h, step, d);
      victim := false;
      if frames[index].Some? && frames[index].value.pins == 0 {
        if !frames[index].value.referenced {
          victim := true;
        } else {
          ClearReferenced(index);
        }
      }
    }
  }

  /** The state of the clock after some steps without a victim: in the second
      sweep every bit is cleared, so that only pinned frames were passed. */
  ghost predicate Sweeping<P>(was: seq<Option<Frame<P>>>, now: seq<Option<Frame<P>>>, hand: nat, step: nat)
    requires hand < |was|
  {
    && Swept(was, now, hand, if step < |was| then step else |was|)
    && (forall e: nat :: e < |was| && e < step && Unpinned(was[At(hand, |was|, e)]) ==>
          Referenced(was[At(hand, |was|, e)]))
    && (forall e: nat :: e < |was| && e < step - |was| ==> !Unpinned(was[At(hand, |was|, e)]))
  }

  lemma SweepStart<P>(was: seq<Option<Frame<P>>>, hand: nat)
    requires hand < |was|
    ensures Sweeping(was, was, hand, 0)
  {
  }

  /** The next frame either ends the search or is passed. */
  lemma SweepAt<P>(was: seq<Option<Frame<P>>>, now: seq<Option<Frame<P>>>, hand: nat, step: nat, d: nat)
    requires hand < |was| && Sweeping(was, now, hand, step) && step < 2 * |was|
    requires d == if step < |was| then step else step - |was|
    ensures |now| == |was| && (Unpinned(now[At(hand, |was|, d)]) <==> Unpinned(was[At(hand, |was|, d)]))
    ensures Unpinned(now[At(hand, |was|, d)]) && !Referenced(now[At(hand, |was|, d)]) ==>
              IsVictim(was, hand, d) && (Referenced(was[At(hand, |was|, d)]) <==> step >= |was|)
    ensures Unpinned(now[At(hand, |was|, d)]) && Referenced(now[At(hand, |was|, d)]) ==>
              Sweeping(was, now[At(hand, |was|, d) := Unreferenced(now[At(hand, |was|, d)])], hand, step + 1)
    ensures !Unpinned(now[At(hand, |was|, d)]) ==> Sweeping(was, now, hand, step + 1)
  {
    var n, i := |was|, At(hand, |was|, d);
    assert now[i] == if step < n then was[i] else Unreferenced(was[i]);
    forall e: nat | e < n && e != d ensures At(hand, n, e) != i {
    }
  }

  lemma SweepKeeps<P>(was: seq<Option<Frame<P>>>, now: seq<Option<Frame<P>>>, hand: nat, d: nat)
    requires hand < |was| && Swept(was, now, hand, d)
    ensures |now| == |was| && forall i :: 0 <= i < |was| ==> now[i] == was[i] || now[i] == Unreferenced(was[i])
  {
    forall i: nat | i < |was| ensures now[i] == was[i] || now[i] == Unreferenced(was[i]) {
      AtOnto(hand, |was|, i);
      var e: nat := if i >= hand then i - hand else i + |was| - hand;
      assert now[At(hand, |was|, e)] == if e < d then Unreferenced(was[At(hand, |was|, e)])
             else was[At(hand, |was|, e)];
    }
  }

  lemma SweepingKeeps<P>(was: seq<Option<Frame<P>>>, now: seq<Option<Frame<P>>>, hand: nat, step: nat)
    requires hand < |was| && Sweeping(was, now, hand, step)
    ensures Swept(was, now, hand, if step < |was| then step else |was|)
    ensures |now| == |was| && forall i :: 0 <= i < |was| ==> now[i] == was[i] || now[i] == Unreferenced(was[i])
  {
    hide Swept;
    SweepKeeps(was, now, hand, if step < |was| then step else |was|);
  }

  lemma NoneUnpinned<P>(was: seq<Option<Frame<P>>>, now: seq<Option<Frame<P>>>, hand: nat)
    requires hand < |was| && Sweeping(was, now, hand, 2 * |was|)
    ensures forall i :: 0 <= i < |was| ==> !Unpinned(was[i])
  {
    forall i: nat | i < |was| ensures !Unpinned(was[i]) {
      AtOnto(hand, |was|, i);
      var e: nat := if i >= hand then i - hand else i + |was| - hand;
      assert !Unpinned(was[At(hand, |was|, e)]);
    }
  }
}
