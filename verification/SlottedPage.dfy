/** The slotted page: an array of 8192 bytes with a slot directory growing up,
    rows growing down, and a free list threaded through the space that deleted
    and moved rows have left. */
module SlottedPage {
  import opened Wrappers
  import opened Keys
  import opened PageLayout
  import opened PageSteps
  import opened PageBytes
  import opened PageWrites
  import opened PageCompaction

  /** `OutOfBounds` stands for a slice that runs past the page: there the engine
      aborts. */
  datatype PageError = RowTooLarge | StorageFull | SlotNotFound | InvalidRowBounds | OutOfBounds

  /** Some block of the free list is at least that long. */
  ghost predicate HasBlock(free: seq<Block>, len: int) {
    exists x :: 0 <= x < |free| && free[x].len >= len
  }

  /** Lengths of free blocks have 16 bits. A longer row is looked for by what its
      rounded length leaves of it in 16 bits, and a block that is found for it is
      too short. */
  ghost predicate Overruns(l: Layout, len: nat) {
    Alloc(len) > 0xFFFF && HasBlock(l.free, Alloc(len) % 0x1_0000)
  }

  /** What comes of updating a row of one length to another: it stays where it is,
      or moves if there is room for it beside all rows packed together. */
  ghost function UpdateOutcome(l: Layout, was: nat, now: nat): Result<(), PageError> {
    if Alloc(now) <= Alloc(was) then Ok(())
    else if Overruns(l, now) then Err(OutOfBounds)
    else if Alloc(now) <= Space(l) then Ok(())
    else Err(StorageFull)
  }

  class Page {
    const data: array<Byte>
    ghost var layout: Layout

    ghost predicate Consistent()
      reads this, data
    {
      data.Length == PAGE_SIZE && Encodes(data[..], layout) && LayoutOk(layout)
    }

    ghost predicate Valid()
      reads this, data
    {
      Consistent() && Settled(layout)
    }

    /** The abstract value of the page. */
    ghost function Content(): map<nat, seq<Byte>>
      reads this, data
    {
      Rows(data[..], layout)
    }

    constructor New()
      ensures Valid() && fresh(data) && Content() == map[] && layout.slots == []
    {
      data := new Byte[PAGE_SIZE](_ => 0);
      layout := Layout([], [], PAGE_SIZE, PAGE_SIZE, None, []);
      new;
      SetU16(2, HEADER_SIZE);
      SetU16(4, PAGE_SIZE);
      SetU16(6, NO_BLOCK);
    }

    // ---------- bytes ----------

    function Get16(i: nat): (v: nat)
      reads data
      requires i + 1 < data.Length
      ensures v == U16(data[..], i)
    {
      data[i] as int * 256 + data[i + 1] as int
    }

    method SetU16(i: nat, v: nat)
      requires i + 1 < data.Length && v <= 0xFFFF
      modifies data
      ensures SameOutside(old(data[..]), data[..], i, i + 2) && U16(data[..], i) == v
      ensures data[i] as int == v / 256 && data[i + 1] as int == v % 256
    {
      data[i] := v / 256;
      data[i + 1] := v % 256;
    }

    method WriteRowBytes(off: nat, row: seq<Byte>)
      requires off + |row| <= data.Length
      modifies data
      ensures SameOutside(old(data[..]), data[..], off, off + |row|) && data[off..off + |row|] == row
    {
      var i := 0;
      while i < |row|
        invariant 0 <= i <= |row| && SameOutside(old(data[..]), data[..], off, off + i)
        invariant forall k :: 0 <= k < i ==> data[off + k] == row[k]
      {
        data[off + i] := row[i];
        i := i + 1;
      }
    }

    method WriteSlot(s: nat, slot: Slot)
      requires HEADER_SIZE + SLOT_SIZE * s + 4 <= data.Length && slot.off <= 0xFFFF && slot.len <= 0xFFFF
      modifies data
      ensures var p := HEADER_SIZE + SLOT_SIZE * s;
              && SameOutside(old(data[..]), data[..], p, p + 4)
              && U16(data[..], p) == slot.off && U16(data[..], p + 2) == slot.len
    {
      SetU16(HEADER_SIZE + SLOT_SIZE * s, slot.off);
      SetU16(HEADER_SIZE + SLOT_SIZE * s + 2, slot.len);
    }

    method WriteFreeBlock(off: nat, next: nat, len: nat)
      requires off + 4 <= data.Length && next <= 0xFFFF && len <= 0xFFFF
      modifies data
      ensures SameOutside(old(data[..]), data[..], off, off + 4)
      ensures U16(data[..], off) == next && U16(data[..], off + 2) == len
    {
      SetU16(off, next);
      SetU16(off + 2, len);
    }

    /** Put a block at the head of the free list. */
    method AddFreeBlock(off: nat, len: nat)
      requires HEADER_SIZE <= off && off + 4 <= data.Length && off <= 0xFFFF && len <= 0xFFFF
      modifies data
      ensures PushesBlock(old(data[..]), data[..], off, len)
    {
      var head := Get16(6);
      WriteFreeBlock(off, head, len);
      SetU16(6, off);
    }

    // ---------- reading ----------

    method ReadSlot(s: nat) returns (r: Result<Slot, PageError>)
      requires Consistent()
      ensures s < |layout.slots| && layout.slots[s].Live() ==> r == Ok(layout.slots[s])
      ensures !(s < |layout.slots| && layout.slots[s].Live()) ==> r == Err(SlotNotFound)
    {
      if s >= Get16(0) {
        return Err(SlotNotFound);
      }
      assert SlotEncoded(data[..], layout.slots, s);
      var slot := Slot(Get16(HEADER_SIZE + SLOT_SIZE * s), Get16(HEADER_SIZE + SLOT_SIZE * s + 2));
      return if slot.Live() then Ok(slot) else Err(SlotNotFound);
    }

    method ReadRow(s: nat) returns (r: Result<seq<Byte>, PageError>)
      requires Valid()
      ensures s in Content() ==> r == Ok(Content()[s])
      ensures s !in Content() ==> r == Err(SlotNotFound)
    {
      var slot := ReadSlot(s);
      if slot.Err? {
        return Err(slot.error);
      }
      RowBounds(layout, s);
      var end := slot.value.off + slot.value.len;
      if end > PAGE_SIZE || slot.value.off < Get16(4) {
        return Err(InvalidRowBounds);
      }
      return Ok(data[slot.value.off..end]);
    }

    method FindTombstone() returns (r: Option<nat>)
      requires Consistent()
      ensures FirstTombstone(layout.slots, if r.Some? then r.value else |layout.slots|)
      ensures r.Some? ==> r.value < |layout.slots|
    {
      var n := Get16(0);
      var i := 0;
      while i < n
        invariant 0 <= i <= n && forall x :: 0 <= x < i ==> layout.slots[x].Live()
      {
        assert SlotEncoded(data[..], layout.slots, i);
        var slot := Slot(Get16(HEADER_SIZE + SLOT_SIZE * i), Get16(HEADER_SIZE + SLOT_SIZE * i + 2));
        if !slot.Live() {
          return Some(i);
        }
        i := i + 1;
      }
      return None;
    }

    method FreeSpace() returns (n: nat)
      requires Consistent()
      ensures n == layout.freeEnd - FreeStart(layout)
    {
      n := Get16(4) - Get16(2);
    }

    // ---------- allocation ----------

    /** The first block of the list that is long enough, and the one before it. */
    method FindFreeBlock(required: nat) returns (found: Option<Block>, prev: Option<nat>, ghost j: nat)
      requires Consistent()
      ensures found.None? ==> forall x :: 0 <= x < |layout.free| ==> layout.free[x].len < required
      ensures found.Some? ==>
                && j < |layout.free| && found.value == layout.free[j] && found.value.len >= required
                && (forall x :: 0 <= x < j ==> layout.free[x].len < required)
                && prev == if j == 0 then None else Some(layout.free[j - 1].off)
    {
      var current := Get16(6);
      prev, j := None, 0;
      while current != NO_BLOCK
        invariant j <= |layout.free| && current == LinkTo(layout.free, j)
        invariant prev == if j == 0 then None else Some(layout.free[j - 1].off)
        invariant forall x :: 0 <= x < j ==> layout.free[x].len < required
        decreases |layout.free| - j
      {
        BlockBounds(layout, j);
        assert BlockEncoded(data[..], layout.free, j);
        var len := Get16(current + 2);
        if len >= required {
          return Some(Block(current, len)), prev, j;
        }
        prev, current, j := Some(current), Get16(current), j + 1;
      }
      if j < |layout.free| {
        BlockBounds(layout, j);
      }
      return None, prev, j;
    }
  
    /** Redirect the link to a block, kept in the block before it or the header. */
    method ReplaceLink(prev: Option<nat>, next: nat)
      requires data.Length == PAGE_SIZE && next <= 0xFFFF && (prev.Some? ==> prev.value + 4 <= PAGE_SIZE)
      modifies data
      ensures var p := if prev.None? then 6 else prev.value;
              SameOutside(old(data[..]), data[..], p, p + 2) && U16(data[..], p) == next
    {
      if prev.Some? {
        var len := Get16(prev.value + 2);
        SetU16(prev.value, next);
        SetU16(prev.value + 2, len);
      } else {
        SetU16(6, next);
      }
    }

    /** Adopt a new layout that the bytes already encode. */
    ghost method Adopt(l: Layout)
      requires data.Length == PAGE_SIZE && Encodes(data[..], l) && LayoutOk(l)
      modifies this`layout
      ensures layout == l && Consistent() && Content() == Rows(data[..], l)
    {
      layout := l;
    }

    /** Unlink a block, or its first `len` bytes, from the free list. */
    method TakeFromList(block: Block, prev: Option<nat>, len: nat, ghost j: nat)
      requires Consistent() && j < |layout.free| && block == layout.free[j] && 0 < len <= block.len && len % 4 == 0
      requires prev == if j == 0 then None else Some(layout.free[j - 1].off)
      modifies data
      ensures TakesBlock(old(data[..]), data[..], layout, j, len)
    {
      hide LayoutOk;
      BlockBounds(layout, j);
      LinkBounds(layout, j);
      RowStart(layout);
      Multiples(block.len, len);
      if j > 0 {
        BlockBounds(layout, j - 1);
      }
      assert BlockEncoded(data[..], layout.free, j);
      var next := Get16(block.off);
      if block.len > len {
        ghost var b := data[..];
        WriteFreeBlock(block.off + len, next, block.len - len);
        ghost var mid := data[..];
        ReplaceLink(prev, block.off + len);
        PartTaken(b, mid, data[..], layout, j, len);
      } else {
        ReplaceLink(prev, next);
      }
    }

    /** First fit by the low 16 bits of a length, splitting a longer block; a block
        that is too short is left as it is. */
    method TryAllocateFromFreeBlock(len: nat) returns (r: Option<nat>)
      requires Consistent() && layout.held == None && 0 < len && len % 4 == 0
      modifies this`layout, data
      ensures Consistent() && Content() == old(Content())
      ensures layout.slots == old(layout.slots) && layout.freeEnd == old(layout.freeEnd)
              && layout.base == old(layout.base)
      ensures r.Some? <==> HasBlock(old(layout.free), len % 0x1_0000)
      ensures r.None? || len > 0xFFFF ==> layout == old(layout)
      ensures r.Some? && len <= 0xFFFF ==>
                len <= FreeSum(old(layout.free)) && layout.held == Some(Block(r.value, len))
    {
      var found, prev;
      ghost var j;
      found, prev, j := FindFreeBlock(len % 0x1_0000);
      if found.None? {
        return None;
      }
      BlockBounds(layout, j);
      if found.value.len < len {
        return Some(found.value.off);
      }
      ghost var l, b := layout, data[..];
      ghost var i := BlockIndex(l, j);
      TakeFromList(found.value, prev, len, j);
      TakeBlockOk(b, data[..], l, j, i, len);
      FreeSumSplice(l.free, j, []);
      Adopt(TakeBlock(l, j, i, len));
      return Some(found.value.off);
    }

    method TryAllocateFromFreeEnd(len: nat) returns (r: Option<nat>)
      requires Valid() && 0 < len && len % 4 == 0
      modifies this`layout, data
      ensures Consistent() && Content() == old(Content()) && layout.slots == old(layout.slots)
              && layout.free == old(layout.free)
      ensures r.None? <==> len > old(layout.freeEnd) - FreeStart(old(layout))
      ensures r.None? ==> layout == old(layout)
      ensures r.Some? ==> layout.held == Some(Block(r.value, len)) && layout.base == layout.freeEnd
    {
      var space := FreeSpace();
      if len > space {
        return None;
      }
      ghost var l, b := layout, data[..];
      var rowStart := Get16(4) - len;
      SetU16(4, rowStart);
      ghost var l' := TakeBelow(l, len).(freeEnd := rowStart);
      TakeBelowOk(l, len);
      MovedEndOk(TakeBelow(l, len), b, data[..], {});
      Adopt(l');
      return Some(rowStart);
    }

    // ---------- storing rows ----------

    /** Write a slot, extending the directory if it is the next new one, and the
        row it points at. */
    method PutRowBytes(s: nat, off: nat, row: seq<Byte>)
      requires Consistent() && s <= |layout.slots| && off <= 0xFFFF && |row| <= 0xFFFF
      requires HEADER_SIZE + SLOT_SIZE * s + 4 <= off && off + |row| <= PAGE_SIZE
      requires FreeStart(layout) <= off
      modifies data
      ensures PutsRow(old(data[..]), data[..], |layout.slots|, s, off, row)
    {
      var count := Get16(0);
      WriteSlot(s, Slot(off, |row|));
      if s == count {
        SetU16(0, count + 1);
        SetU16(2, HEADER_SIZE + SLOT_SIZE * (count + 1));
      }
      ghost var mid := data[..];
      WriteRowBytes(off, row);
      PutMid(mid, data[..], s, off, row);
    }

    /** Make held space a row of the given slot. */
    method WriteRowAt(off: nat, row: seq<Byte>, tombstone: Option<nat>) returns (s: nat)
      requires Consistent() && layout.held == Some(Block(off, Alloc(|row|))) && |row| <= 0xFFFF
      requires tombstone.Some? ==> tombstone.value < |layout.slots| && !layout.slots[tombstone.value].Live()
      requires tombstone.None? ==> FreeStart(layout) + SLOT_SIZE <= layout.base
      modifies this`layout, data
      ensures s == if tombstone.Some? then tombstone.value else |old(layout.slots)|
      ensures Consistent() && layout.held == None && layout.base == old(layout.base)
              && layout.freeEnd == old(layout.freeEnd)
      ensures layout.slots == WithSlot(old(layout.slots), s, Slot(off, |row|))
      ensures Content() == old(Content())[s := row]
    {
      s := if tombstone.Some? then tombstone.value else Get16(0);
      ghost var l, b := layout, data[..];
      ghost var i := HeldIndex(l);
      HeldPlace(l, s, off, |row|);
      PutRowBytes(s, off, row);
      AssignRowOk(b, data[..], l, i, s, off, row);
      Adopt(Assign(l, i, s, |row|));
    }

    // ---------- compaction ----------

    /** The live rows in slot order, as a scan and as compaction see them. */
    method ScanRows() returns (live: seq<Stored>)
      requires Valid()
      ensures live == InOrder(Content(), |layout.slots|)
    {
      live := [];
      var n := Get16(0);
      var s := 0;
      while s < n
        invariant 0 <= s <= n && live == InOrder(Content(), s)
      {
        var row := ReadRow(s);
        if row.Ok? {
          live := live + [Stored(s, row.value)];
        }
        s := s + 1;
      }
    }

    /** Place one saved row below those already placed. */
    method PlaceRow(s: nat, row: seq<Byte>, ghost l: Layout, ghost pending: set<nat>) returns (ghost l': Layout)
      requires data.Length == PAGE_SIZE && LayoutOk(l) && EncodesBut(data[..], l, pending)
      requires l.held == None && l.base == l.freeEnd && l.free == []
      requires s < |l.slots| && !l.slots[s].Live() && |row| <= 0xFFFF && FreeStart(l) + Alloc(|row|) <= l.base
      modifies data
      ensures LayoutOk(l') && EncodesBut(data[..], l', pending - {s})
      ensures l'.held == None && l'.base == l'.freeEnd && l'.free == []
      ensures l'.slots == l.slots[s := Slot(l.base - Alloc(|row|), |row|)]
      ensures Rows(data[..], l') == Rows(old(data[..]), l)[s := row]
    {
      ghost var b := data[..];
      var newOffset := Get16(4) - Alloc(|row|);
      WriteRowBytes(newOffset, row);
      WriteSlot(s, Slot(newOffset, |row|));
      ghost var mid := data[..];
      SetU16(4, newOffset);
      l' := PlacedOk(b, mid, data[..], l, s, newOffset, row, pending);
    }

    /** Place the next of the saved rows. */
    method PlaceNext(live: seq<Stored>, k: nat, ghost l0: Layout, ghost b0: seq<Byte>, ghost l: Layout,
                     ghost rest: seq<Slot>)
      returns (ghost l': Layout)
      requires data.Length == PAGE_SIZE && LayoutOk(l0) && Encodes(b0, l0)
      requires live == InOrder(Rows(b0, l0), |l0.slots|) && k < |live|
      requires Packed(data[..], l, l0.slots, rest, Rows(b0, l0), SlotsFrom(live, k))
      modifies data
      ensures live[k].slot < |rest|
      ensures Packed(data[..], l', l0.slots, rest[live[k].slot := Slot(0, 0)], Rows(b0, l0), SlotsFrom(live, k + 1))
    {
      hide LayoutOk, EncodesBut, Encodes, Rows, Packed, InOrder, SlotsFrom;
      ghost var b := data[..];
      NextFits(l0, b0, l, b, rest, k);
      l' := PlaceRow(live[k].slot, live[k].row, l, SlotsFrom(live, k));
      NextPlaced(l0, b0, l, b, l', data[..], rest, k);
    }

    /** Place all saved rows, from the end of the page downwards. */
    method PlaceAll(live: seq<Stored>, ghost l0: Layout, ghost b0: seq<Byte>)
      returns (ghost l: Layout, ghost rest: seq<Slot>)
      requires data.Length == PAGE_SIZE && LayoutOk(l0) && Encodes(b0, l0) && live == InOrder(Rows(b0, l0), |l0.slots|)
      requires Packed(data[..], Emptied(l0), l0.slots, l0.slots, Rows(b0, l0), SlotsFrom(live, 0))
      modifies data
      ensures Packed(data[..], l, l0.slots, rest, Rows(b0, l0), {})
    {
      hide LayoutOk, Encodes, Rows, Packed, InOrder;
      l, rest := Emptied(l0), l0.slots;
      var k := 0;
      while k < |live|
        invariant 0 <= k <= |live| && Packed(data[..], l, l0.slots, rest, Rows(b0, l0), SlotsFrom(live, k))
      {
        l := PlaceNext(live, k, l0, b0, l, rest);
        rest := rest[live[k].slot := Slot(0, 0)];
        k := k + 1;
      }
      assert SlotsFrom(live, k) == {};
    }

    /** Pack the rows together at the end of the page. Nothing that is stored
        changes, and all free space becomes one stretch. */
    method Compact()
      requires Valid()
      modifies this`layout, data
      ensures Valid() && Content() == old(Content()) && layout.free == []
      ensures SameRows(old(layout.slots), layout.slots)
      ensures layout.freeEnd - FreeStart(layout) == Space(old(layout)) == Space(layout)
    {
      var live := ScanRows();
      ghost var l0, b := layout, data[..];
      SetU16(6, NO_BLOCK);
      SetU16(4, PAGE_SIZE);
      CompactStart(l0, b, data[..]);
      ghost var l, rest := PlaceAll(live, l0, b);
      CompactDone(data[..], l, l0.slots, rest, Rows(b, l0));
      Adopt(l);
    }

    // ---------- inserting ----------

    /** Take space from the free list, if the directory need not grow or can. */
    method TryInsertFromFreeBlock(row: seq<Byte>, tombstone: Option<nat>) returns (r: Option<nat>)
      requires Valid() && |row| <= MAX_ALLOCATION && GivenSlot(layout.slots, tombstone)
      modifies this`layout, data
      ensures Valid()
      ensures r.None? <==>
                || (tombstone.None? && old(layout.freeEnd - FreeStart(layout)) < SLOT_SIZE)
                || !HasBlock(old(layout.free), Alloc(|row|))
      ensures r.None? ==> layout == old(layout) && Content() == old(Content())
      ensures r.Some? ==>
                && r.value == SlotFor(old(layout.slots), tombstone) && Content() == old(Content())[r.value := row]
                && Alloc(|row|) + SlotCost(tombstone) <= Space(old(layout))
    {
      hide LayoutOk, Encodes;
      SpaceSplit(layout);
      RowStart(layout);
      if tombstone.None? {
        var space := FreeSpace();
        if SLOT_SIZE > space {
          return None;
        }
      }
      var off := TryAllocateFromFreeBlock(Alloc(|row|));
      if off.None? {
        return None;
      }
      var s := WriteRowAt(off.value, row, tombstone);
      return Some(s);
    }

    /** Take space between the directory and the rows. */
    method InsertFromFreeEnd(row: seq<Byte>, tombstone: Option<nat>) returns (r: Result<nat, PageError>)
      requires Valid() && |row| <= MAX_ALLOCATION && GivenSlot(layout.slots, tombstone)
      modifies this`layout, data
      ensures Valid()
      ensures r.Ok? <==> Alloc(|row|) + SlotCost(tombstone) <= old(layout.freeEnd - FreeStart(layout))
      ensures r.Err? ==> r == Err(StorageFull) && layout == old(layout) && Content() == old(Content())
      ensures r.Ok? ==> r.value == SlotFor(old(layout.slots), tombstone) && Content() == old(Content())[r.value := row]
    {
      hide LayoutOk;
      RowStart(layout);
      var space := FreeSpace();
      if tombstone.Some? && Alloc(|row|) > space {
        return Err(StorageFull);
      }
      if tombstone.None? && SLOT_SIZE + Alloc(|row|) > space {
        return Err(StorageFull);
      }
      var rowStart := Get16(4) - Alloc(|row|);
      TakeBelowOk(layout, Alloc(|row|));
      Adopt(TakeBelow(layout, Alloc(|row|)));
      var s := WriteRowAt(rowStart, row, tombstone);
      ghost var l, b := layout, data[..];
      SetU16(4, rowStart);
      MovedEndOk(l, b, data[..], {});
      Adopt(l.(freeEnd := l.base));
      return Ok(s);
    }

    /** Insert a row: from the free list, else below the rows, else below the rows
        after compaction. It fails exactly when packing all rows would not help. */
    method InsertRow(row: seq<Byte>) returns (r: Result<nat, PageError>)
      requires Valid()
      modifies this`layout, data
      ensures Valid()
      ensures r == Err(RowTooLarge) <==> |row| > 8180
      ensures |row| <= 8180 ==>
                (r == Err(StorageFull) <==> !HasRoom(old(layout), |row|))
      ensures r.Err? ==> r.error in {RowTooLarge, StorageFull} && Content() == old(Content())
      ensures r.Ok? ==> FirstUnused(old(Content()), r.value) && Content() == old(Content())[r.value := row]
    {
      LongestRow(|row|);
      var tombstone := FindTombstone();
      if Alloc(|row|) > MAX_ALLOCATION {
        return Err(RowTooLarge);
      }
      ghost var l, slots := layout, layout.slots;
      FirstTombstoneUnused(data[..], l, SlotFor(slots, tombstone));
      SpaceSplit(l);
      var s := TryInsertFromFreeBlock(row, tombstone);
      if s.Some? {
        return Ok(s.value);
      }
      r := InsertFromFreeEnd(row, tombstone);
      if r.Err? {
        Compact();
        SameTombstone(slots, layout.slots, tombstone);
        r := InsertFromFreeEnd(row, tombstone);
      }
    }

    // ---------- updating ----------

    /** Write a row and then its slot. */
    method RewriteRow(s: nat, off: nat, row: seq<Byte>)
      requires Consistent() && s < |layout.slots| && off <= 0xFFFF && |row| <= 0xFFFF
      requires FreeStart(layout) <= off && off + |row| <= PAGE_SIZE
      modifies data
      ensures PutsRow(old(data[..]), data[..], |layout.slots|, s, off, row)
    {
      WriteRowBytes(off, row);
      WriteSlot(s, Slot(off, |row|));
    }

    /** Put what is held at the head of the free list. */
    method GiveBackHeld(off: nat, len: nat)
      requires Consistent() && layout.held == Some(Block(off, len))
      modifies this`layout, data
      ensures Consistent() && layout.held == None && Content() == old(Content())
      ensures layout.base == old(layout.base) && layout.freeEnd == old(layout.freeEnd)
    {
      ghost var l, b := layout, data[..];
      ghost var i := HeldIndex(l);
      HeldBounds(l);
      AddFreeBlock(off, len);
      GiveBackOk(l, i);
      GiveBackEncodes(b, data[..], l, i);
      GiveBackRows(b, data[..], l, i);
      Adopt(GiveBack(l, i));
    }

    method UpdateEqual(s: nat, slot: Slot, row: seq<Byte>)
      requires Valid() && s < |layout.slots| && slot == layout.slots[s] && slot.Live()
               && Alloc(|row|) == Alloc(slot.len)
      modifies this`layout, data
      ensures Valid() && Content() == old(Content())[s := row]
    {
      ghost var l, b := layout, data[..];
      ghost var i := RowIndex(l, s);
      RowBounds(l, s);
      PutRowBytes(s, slot.off, row);
      ShrinkRowOk(b, data[..], l, i, s, row);
      Adopt(Shrink(l, i, s, |row|));
    }

    method UpdateLess(s: nat, slot: Slot, row: seq<Byte>)
      requires Valid() && s < |layout.slots| && slot == layout.slots[s] && slot.Live() && Alloc(|row|) < Alloc(slot.len)
      modifies this`layout, data
      ensures Valid() && Content() == old(Content())[s := row]
    {
      ghost var l, b := layout, data[..];
      ghost var i := RowIndex(l, s);
      RowBounds(l, s);
      RewriteRow(s, slot.off, row);
      ShrinkRowOk(b, data[..], l, i, s, row);
      Adopt(Shrink(l, i, s, |row|));
      GiveBackHeld(slot.off + Alloc(|row|), Alloc(slot.len) - Alloc(|row|));
    }

    /** Find space for a row that outgrows its own, compacting as a last resort. */
    method AllocateForUpdate(s: nat, slot: Slot, len: nat) returns (r: Option<nat>, slot': Slot)
      requires Valid() && s < |layout.slots| && slot == layout.slots[s] && slot.Live() && 0 < len && len % 4 == 0
      modifies this`layout, data
      ensures Consistent() && layout.base == layout.freeEnd && Content() == old(Content())
      ensures s < |layout.slots| && slot' == layout.slots[s] && slot'.Live() && slot'.len == slot.len
      ensures len <= 0xFFFF ==> (r.Some? <==> len <= Space(old(layout)))
      ensures len > 0xFFFF ==> (r.Some? <==> HasBlock(old(layout.free), len % 0x1_0000))
      ensures layout.held == if r.Some? && len <= 0xFFFF then Some(Block(r.value, len)) else None
    {
      SpaceSplit(layout);
      slot' := slot;
      r := TryAllocateFromFreeBlock(len);
      if r.None? {
        r := TryAllocateFromFreeEnd(len);
        if r.None? {
          Compact();
          var read := ReadSlot(s);
          slot' := read.value;
          r := TryAllocateFromFreeEnd(len);
        }
      }
    }

    method UpdateGreater(s: nat, slot: Slot, row: seq<Byte>) returns (r: Result<(), PageError>)
      requires Valid() && s < |layout.slots| && slot == layout.slots[s] && slot.Live()
      modifies this`layout, data
      ensures Valid()
      ensures r == if Overruns(old(layout), |row|) then Err(OutOfBounds)
                   else if Alloc(|row|) <= Space(old(layout)) then Ok(())
                   else Err(StorageFull)
      ensures Content() == if r.Ok? then old(Content())[s := row] else old(Content())
    {
      var off, slot' := AllocateForUpdate(s, slot, Alloc(|row|));
      if off.None? {
        return Err(StorageFull);
      }
      if Alloc(|row|) <= 0xFFFF {
        HeldBounds(layout);
      }
      if off.value + |row| > PAGE_SIZE {
        return Err(OutOfBounds);
      }
      MoveRow(s, slot', off.value, row);
      GiveBackHeld(slot'.off, Alloc(slot'.len));
      return Ok(());
    }

    /** Make held space the row's, and hold what it had instead. */
    method MoveRow(s: nat, slot: Slot, off: nat, row: seq<Byte>)
      requires Consistent() && layout.held == Some(Block(off, Alloc(|row|))) && |row| <= 0xFFFC
      requires s < |layout.slots| && slot == layout.slots[s] && slot.Live()
      modifies this`layout, data
      ensures Consistent() && layout.held == Some(Block(slot.off, Alloc(slot.len)))
              && Content() == old(Content())[s := row]
      ensures layout.base == old(layout.base) && layout.freeEnd == old(layout.freeEnd)
    {
      ghost var l, b := layout, data[..];
      ghost var h := HeldIndex(l);
      ghost var i := RowIndex(l, s);
      HeldBounds(l);
      RewriteRow(s, off, row);
      MoveRowOk(b, data[..], l, h, i, s, row);
      Adopt(Move(l, h, i, s, |row|));
    }

    /** Update a row. A row that needs no more space than it has is rewritten in
        place; a longer one moves, and fails exactly when it would not fit beside
        all rows packed together, its old self included. A row whose rounded
        length exceeds 16 bits is refused too, unless the free list has a block
        for what the 16 bits leave of that length. */
    method UpdateRow(s: nat, row: seq<Byte>) returns (r: Result<(), PageError>)
      requires Valid()
      modifies this`layout, data
      ensures Valid()
      ensures s !in old(Content()) ==> r == Err(SlotNotFound) && Content() == old(Content())
      ensures s in old(Content()) ==>
                && r == UpdateOutcome(old(layout), |old(Content())[s]|, |row|)
                && Content() == if r.Ok? then old(Content())[s := row] else old(Content())
    {
      hide LayoutOk, Space, HasBlock;
      var slot := ReadSlot(s);
      if slot.Err? {
        return Err(slot.error);
      }
      RowBounds(layout, s);
      if slot.value.off + Alloc(slot.value.len) > PAGE_SIZE || slot.value.off < Get16(4) {
        return Err(InvalidRowBounds);
      }
      if Alloc(|row|) == Alloc(slot.value.len) {
        UpdateEqual(s, slot.value, row);
        return Ok(());
      } else if Alloc(|row|) < Alloc(slot.value.len) {
        UpdateLess(s, slot.value, row);
        return Ok(());
      } else {
        r := UpdateGreater(s, slot.value, row);
      }
    }

    // ---------- deleting ----------

    method DeleteRow(s: nat) returns (r: Result<(), PageError>)
      requires Valid()
      modifies this`layout, data
      ensures Valid() && Content() == old(Content()) - {s}
      ensures r == if s in old(Content()) then Ok(()) else Err(SlotNotFound)
    {
      var slot := ReadSlot(s);
      if slot.Err? {
        return Err(slot.error);
      }
      ghost var l, b := layout, data[..];
      ghost var i := RowIndex(l, s);
      RowBounds(l, s);
      AddFreeBlock(slot.value.off, Alloc(slot.value.len));
      ghost var mid := data[..];
      WriteSlot(s, Slot(0, 0));
      DeleteRowOk(b, mid, data[..], l, i, s);
      Adopt(GiveBack(Release(l, i, s), i));
      return Ok(());
    }
  }
}
