/** What the writes of a page operation add up to, as one step of the layout. */
module PageWrites {
  import opened Wrappers
  import opened Keys
  import opened PageLayout
  import opened PageSteps
  import opened PageBytes

  /** What is left for rows when all live ones are packed together. */
  ghost function Space(l: Layout): int {
    PAGE_SIZE - FreeStart(l) - LiveSum(l.slots)
  }

  /** The bytes a new row needs in the directory. */
  function SlotCost(tombstone: Option<nat>): nat {
    if tombstone.None? then SLOT_SIZE else 0
  }

  ghost function SlotFor(slots: seq<Slot>, tombstone: Option<nat>): nat {
    if tombstone.None? then |slots| else tombstone.value
  }

  ghost predicate GivenSlot(slots: seq<Slot>, tombstone: Option<nat>) {
    tombstone.Some? ==> tombstone.value < |slots| && !slots[tombstone.value].Live()
  }

  /** A row fits if it, and a slot if all are in use, fit beside all rows packed. */
  ghost predicate HasRoom(l: Layout, len: nat) {
    Alloc(len) + (if forall s :: 0 <= s < |l.slots| ==> l.slots[s].Live() then SLOT_SIZE else 0) <= Space(l)
  }

  /** The least slot number not in use. */
  ghost predicate FirstUnused(rows: map<nat, seq<Byte>>, s: nat) {
    s !in rows && forall x: nat :: x < s ==> x in rows
  }

  /** Free space is what is on the free list and what lies below the rows. */
  lemma SpaceSplit(l: Layout)
    requires Settled(l)
    ensures Space(l) == FreeSum(l.free) + l.freeEnd - FreeStart(l)
  {
  }

  /** The slot a new row is given: the first tombstone, or the next new slot. */
  ghost predicate FirstTombstone(slots: seq<Slot>, s: nat) {
    && s <= |slots|
    && (forall x :: 0 <= x < s ==> slots[x].Live())
    && (s < |slots| ==> !slots[s].Live())
  }

  lemma FirstTombstoneUnused(b: seq<Byte>, l: Layout, s: nat)
    requires LayoutOk(l) && Encodes(b, l) && FirstTombstone(l.slots, s)
    ensures FirstUnused(Rows(b, l), s)
    ensures (forall x :: 0 <= x < |l.slots| ==> l.slots[x].Live()) <==> s == |l.slots|
  {
    forall x: nat | x < s ensures x in Rows(b, l) {
      RowBounds(l, x);
    }
  }

  lemma PutMid(mid: seq<Byte>, b': seq<Byte>, s: nat, off: nat, row: seq<Byte>)
    requires HEADER_SIZE + SLOT_SIZE * s + 4 <= off && off + |row| <= |mid|
    requires SameOutside(mid, b', off, off + |row|)
    ensures U16(b', 0) == U16(mid, 0) && U16(b', 2) == U16(mid, 2)
    ensures U16(b', HEADER_SIZE + SLOT_SIZE * s) == U16(mid, HEADER_SIZE + SLOT_SIZE * s)
    ensures U16(b', HEADER_SIZE + SLOT_SIZE * s + 2) == U16(mid, HEADER_SIZE + SLOT_SIZE * s + 2)
  {
  }

  /** Held space is a place for a row of its length. */
  lemma HeldPlace(l: Layout, s: nat, off: nat, len: nat)
    requires LayoutOk(l) && l.held == Some(Block(off, Alloc(len))) && s <= |l.slots|
    requires if s < |l.slots| then true else FreeStart(l) + SLOT_SIZE <= l.base
    ensures PlaceFor(l, s, off, len)
  {
    HeldApart(l);
    HeldBounds(l);
    forall j | 0 <= j < |l.free| ensures l.free[j].off + 4 <= off || off + len <= l.free[j].off {
      BlockBounds(l, j);
    }
  }

  lemma AssignRowOk(b: seq<Byte>, b': seq<Byte>, l: Layout, i: nat, s: nat, off: nat, row: seq<Byte>)
    requires LayoutOk(l) && Encodes(b, l) && HeldAt(l, i) && l.held == Some(Block(off, Alloc(|row|)))
    requires s <= |l.slots| && if s < |l.slots| then !l.slots[s].Live() else FreeStart(l) + SLOT_SIZE <= l.base
    requires PutsRow(b, b', |l.slots|, s, off, row)
    ensures var l' := Assign(l, i, s, |row|);
            && LayoutOk(l') && Encodes(b', l') && Rows(b', l') == Rows(b, l)[s := row]
            && l'.slots == WithSlot(l.slots, s, Slot(off, |row|)) && l'.base == l.base && l'.freeEnd == l.freeEnd
  {
    HeldPlace(l, s, off, |row|);
    AssignOk(l, i, s, |row|);
    PutRowEncodes(b, b', l, Assign(l, i, s, |row|), s, off, row, {});
    assert {} - {s} == {};
    PutRowRows(b, b', l, Assign(l, i, s, |row|), s, off, row);
  }

  lemma PartTaken(b: seq<Byte>, mid: seq<Byte>, b': seq<Byte>, l: Layout, j: nat, len: nat)
    requires LayoutOk(l) && |b| == PAGE_SIZE && j < |l.free| && 0 < len < l.free[j].len
    requires var o := l.free[j].off + len;
             && o + 4 <= PAGE_SIZE && l.free[j].off + l.free[j].len >= o + 4
             && SameOutside(b, mid, o, o + 4) && U16(mid, o) == LinkTo(l.free, j + 1)
                 && U16(mid, o + 2) == l.free[j].len - len
             && SameOutside(mid, b', LinkAt(l, j), LinkAt(l, j) + 2) && U16(b', LinkAt(l, j)) == o
    ensures TakesBlock(b, b', l, j, len)
  {
    LinkBounds(l, j);
    BlockBounds(l, j);
    var o := l.free[j].off + len;
    SameU16(mid, b', o);
    SameU16(mid, b', o + 2);
  }

  lemma TakeBlockOk(b: seq<Byte>, b': seq<Byte>, l: Layout, j: nat, i: nat, len: nat)
    requires LayoutOk(l) && Encodes(b, l) && l.held == None && j < |l.free| && 0 < len <= l.free[j].len && len % 4 == 0
    requires i < |l.tiles| && l.tiles[i] == Tile(l.free[j].off, l.free[j].len, Free)
    requires TakesBlock(b, b', l, j, len)
    ensures var l' := TakeBlock(l, j, i, len);
            && LayoutOk(l') && Encodes(b', l') && Rows(b', l') == Rows(b, l)
            && l'.slots == l.slots && l'.freeEnd == l.freeEnd && l'.base == l.base
            && l'.held == Some(Block(l.free[j].off, len))
  {
    TakeBlockEncodes(b, b', l, j, i, len);
    TakeBlockRows(b, b', l, j, i, len);
    if l.free[j].len > len {
      TakePartOk(l, j, i, len);
    } else {
      TakeWholeOk(l, j, i);
    }
  }

  lemma BlockIndex(l: Layout, j: nat) returns (i: nat)
    requires LayoutOk(l) && j < |l.free|
    ensures i < |l.tiles| && l.tiles[i] == Tile(l.free[j].off, l.free[j].len, Free)
  {
    var x :| 0 <= x < |l.tiles| && l.tiles[x] == Tile(l.free[j].off, l.free[j].len, Free);
    i := x;
  }

  /** Setting `freeEnd` to the start of the tiling, in the layout and in the bytes. */
  lemma MovedEndOk(l: Layout, b: seq<Byte>, b': seq<Byte>, pending: set<nat>)
    requires LayoutOk(l) && EncodesBut(b, l, pending) && SameOutside(b, b', 4, 6) && U16(b', 4) == l.base
    ensures LayoutOk(l.(freeEnd := l.base)) && EncodesBut(b', l.(freeEnd := l.base), pending)
    ensures Rows(b', l.(freeEnd := l.base)) == Rows(b, l)
  {
    var l' := l.(freeEnd := l.base);
    forall t | t in l'.tiles ensures OwnerOk(l', t) {
      assert OwnerOk(l, t);
    }
    forall s | 0 <= s < |l'.slots| ensures SlotOk(l', s) {
      assert SlotOk(l, s);
    }
    forall s | 0 <= s < |l'.slots| && s !in pending ensures SlotEncoded(b', l'.slots, s) {
      assert SlotEncoded(b, l.slots, s);
    }
    forall j | 0 <= j < |l'.free| ensures BlockEncoded(b', l'.free, j) {
      BlockBounds(l, j);
      assert BlockEncoded(b, l.free, j);
    }
    RowsKeptBelow(b, b', l, l');
  }

  lemma RowsKeptBelow(b: seq<Byte>, b': seq<Byte>, l: Layout, l': Layout)
    requires LayoutOk(l) && |b| == PAGE_SIZE && SameOutside(b, b', 0, HEADER_SIZE) && l'.slots == l.slots
    ensures Rows(b', l') == Rows(b, l)
  {
    forall s: nat | s < |l.slots| && l.slots[s].Live() ensures RowKept(b, b', l.slots[s]) {
      RowBounds(l, s);
    }
    RowsKept(b, b', l, l');
  }

  // ---------- rewriting a row ----------

  /** The space a row already has is a place for a row that needs no more. */
  lemma RowPlace(l: Layout, s: nat, len: nat)
    requires LayoutOk(l) && s < |l.slots| && l.slots[s].Live() && Alloc(len) <= Alloc(l.slots[s].len)
    ensures PlaceFor(l, s, l.slots[s].off, len)
  {
    RowsApart(l, s);
    RowBounds(l, s);
    forall j | 0 <= j < |l.free| ensures l.free[j].off + 4 <= l.slots[s].off || l.slots[s].off + len <= l.free[j].off {
      BlockBounds(l, j);
    }
  }

  lemma ShrinkRowOk(b: seq<Byte>, b': seq<Byte>, l: Layout, i: nat, s: nat, row: seq<Byte>)
    requires LayoutOk(l) && Encodes(b, l) && l.held == None && RowAt(l, i, s) && Alloc(|row|) <= l.tiles[i].len
    requires PutsRow(b, b', |l.slots|, s, l.slots[s].off, row)
    ensures var l' := Shrink(l, i, s, |row|);
            LayoutOk(l') && Encodes(b', l') && Rows(b', l') == Rows(b, l)[s := row]
  {
    var off, l' := l.slots[s].off, Shrink(l, i, s, |row|);
    RowPlace(l, s, |row|);
    ShrinkLayoutOk(l, i, s, |row|);
    PutRowEncodes(b, b', l, l', s, off, row, {});
    assert {} - {s} == {};
    PutRowRows(b, b', l, l', s, off, row);
  }

  lemma MoveRowOk(b: seq<Byte>, b': seq<Byte>, l: Layout, h: nat, i: nat, s: nat, row: seq<Byte>)
    requires LayoutOk(l) && Encodes(b, l) && HeldAt(l, h) && RowAt(l, i, s) && Alloc(|row|) == l.held.value.len
    requires PutsRow(b, b', |l.slots|, s, l.held.value.off, row)
    ensures var l' := Move(l, h, i, s, |row|);
            LayoutOk(l') && Encodes(b', l') && Rows(b', l') == Rows(b, l)[s := row]
  {
    var off, l' := l.held.value.off, Move(l, h, i, s, |row|);
    HeldPlace(l, s, off, |row|);
    MoveOk(l, h, i, s, |row|);
    PutRowEncodes(b, b', l, l', s, off, row, {});
    assert {} - {s} == {};
    PutRowRows(b, b', l, l', s, off, row);
  }

  // ---------- removing a row ----------

  /** The page with the four bytes of a slot cleared. */
  ghost function Cleared(b: seq<Byte>, s: nat): seq<Byte>
    requires HEADER_SIZE + SLOT_SIZE * s + 4 <= |b|
  {
    var p := HEADER_SIZE + SLOT_SIZE * s;
    b[p := 0][p + 1 := 0][p + 2 := 0][p + 3 := 0]
  }

  lemma ClearedEncodes(b: seq<Byte>, l: Layout, i: nat, s: nat)
    requires LayoutOk(l) && Encodes(b, l) && RowAt(l, i, s)
    ensures HEADER_SIZE + SLOT_SIZE * s + 4 <= |b| && Encodes(Cleared(b, s), Release(l, i, s))
  {
    var b', l' := Cleared(b, s), Release(l, i, s);
    forall x | 0 <= x < |l'.slots| ensures SlotEncoded(b', l'.slots, x) {
      assert SlotEncoded(b, l.slots, x);
    }
    forall j | 0 <= j < |l'.free| ensures BlockEncoded(b', l'.free, j) {
      BlockBounds(l, j);
      assert BlockEncoded(b, l.free, j);
    }
  }

  lemma RowStart(l: Layout)
    requires LayoutOk(l)
    ensures FreeStart(l) <= l.base <= PAGE_SIZE
  {
  }

  lemma ClearedRows(b: seq<Byte>, l: Layout, i: nat, s: nat)
    requires LayoutOk(l) && |b| == PAGE_SIZE && RowAt(l, i, s)
    ensures HEADER_SIZE + SLOT_SIZE * s + 4 <= |b|
    ensures Rows(Cleared(b, s), Release(l, i, s)) == Rows(b, l) - {s}
  {
    hide LayoutOk;
    assert FreeStart(l) <= PAGE_SIZE by { RowStart(l); }
    var b', l' := Cleared(b, s), Release(l, i, s);
    var rows, rows' := Rows(b, l), Rows(b', l');
    forall x: nat | x != s ensures (x in rows' <==> x in rows) && (x in rows ==> rows'[x] == rows[x]) {
      if x < |l.slots| && l.slots[x].Live() {
        ClearedOther(b, l, s, x);
      }
    }
  }

  lemma ClearedOther(b: seq<Byte>, l: Layout, s: nat, x: nat)
    requires LayoutOk(l) && |b| == PAGE_SIZE && s < |l.slots| && x < |l.slots| && l.slots[x].Live()
    ensures HEADER_SIZE + SLOT_SIZE * s + 4 <= |b| && l.slots[x].off + l.slots[x].len <= PAGE_SIZE
    ensures var (o, e) := (l.slots[x].off, l.slots[x].off + l.slots[x].len);
            Cleared(b, s)[o..e] == b[o..e]
  {
    RowBounds(l, x);
  }

  /** Freeing a row's space and then clearing its slot writes what clearing first
      would have written. */
  lemma ClearLast(b: seq<Byte>, mid: seq<Byte>, b': seq<Byte>, l: Layout, s: nat)
    requires LayoutOk(l) && |b| == PAGE_SIZE && s < |l.slots| && l.slots[s].Live()
    requires PushesBlock(b, mid, l.slots[s].off, Alloc(l.slots[s].len))
    requires var p := HEADER_SIZE + SLOT_SIZE * s;
             SameOutside(mid, b', p, p + 4) && U16(b', p) == 0 && U16(b', p + 2) == 0
    ensures HEADER_SIZE + SLOT_SIZE * s + 4 <= |b|
    ensures PushesBlock(Cleared(b, s), b', l.slots[s].off, Alloc(l.slots[s].len))
  {
    RowBounds(l, s);
    var p, off := HEADER_SIZE + SLOT_SIZE * s, l.slots[s].off;
    assert FreeStart(l) <= off && p + 4 <= FreeStart(l);
    SameU16(mid, b', 6);
    SameU16(mid, b', off);
    SameU16(mid, b', off + 2);
    SameU16(b, Cleared(b, s), 6);
    ZeroU16(b', p);
    ZeroU16(b', p + 2);
  }

  lemma ZeroU16(b: seq<Byte>, i: nat)
    requires i + 1 < |b| && U16(b, i) == 0
    ensures b[i] == 0 && b[i + 1] == 0
  {
  }

  /** Deleting a row as one step: its slot is cleared, its space is freed. */
  lemma DeleteRowOk(b: seq<Byte>, mid: seq<Byte>, b': seq<Byte>, l: Layout, i: nat, s: nat)
    requires LayoutOk(l) && Encodes(b, l) && l.held == None && RowAt(l, i, s)
    requires PushesBlock(b, mid, l.slots[s].off, Alloc(l.slots[s].len))
    requires var p := HEADER_SIZE + SLOT_SIZE * s;
             SameOutside(mid, b', p, p + 4) && U16(b', p) == 0 && U16(b', p + 2) == 0
    ensures HeldAt(Release(l, i, s), i)
    ensures var l' := GiveBack(Release(l, i, s), i);
            LayoutOk(l') && Encodes(b', l') && Rows(b', l') == Rows(b, l) - {s}
  {
    var r := Release(l, i, s);
    ClearLast(b, mid, b', l, s);
    ReleaseOk(l, i, s);
    ClearedEncodes(b, l, i, s);
    ClearedRows(b, l, i, s);
    GiveBackOk(r, i);
    GiveBackEncodes(Cleared(b, s), b', r, i);
    GiveBackRows(Cleared(b, s), b', r, i);
  }

  // ---------- the invariant, in terms of rows and free blocks ----------

  /** Live rows and free blocks are aligned, disjoint and leave no byte of
      `[freeEnd, 8192)` uncovered. */
  lemma SettledIsExact(l: Layout)
    requires Settled(l)
    ensures forall s: nat :: s < |l.slots| && l.slots[s].Live() ==>
              l.slots[s].off % 4 == 0 && l.freeEnd <= l.slots[s].off
                  && l.slots[s].off + Alloc(l.slots[s].len) <= PAGE_SIZE
    ensures forall j :: 0 <= j < |l.free| ==>
              l.free[j].off % 4 == 0 && l.freeEnd <= l.free[j].off && l.free[j].off + l.free[j].len <= PAGE_SIZE
    ensures forall s: nat, x: nat ::
              s < |l.slots| && x < |l.slots| && s != x && l.slots[s].Live() && l.slots[x].Live() ==>
              l.slots[x].off + Alloc(l.slots[x].len) <= l.slots[s].off
              || l.slots[s].off + Alloc(l.slots[s].len) <= l.slots[x].off
    ensures forall s: nat, j :: s < |l.slots| && l.slots[s].Live() && 0 <= j < |l.free| ==>
              l.free[j].off + l.free[j].len <= l.slots[s].off || l.slots[s].off + Alloc(l.slots[s].len) <= l.free[j].off
    ensures forall c :: l.freeEnd <= c < PAGE_SIZE ==>
              Covered(l, c)
  {
    forall s: nat | s < |l.slots| && l.slots[s].Live()
      ensures l.slots[s].off % 4 == 0 && l.freeEnd <= l.slots[s].off
              && l.slots[s].off + Alloc(l.slots[s].len) <= PAGE_SIZE
    {
      RowBounds(l, s);
      var i := RowIndex(l, s);
      TilesAligned(l.tiles, l.base, i);
    }
    forall j | 0 <= j < |l.free|
      ensures l.free[j].off % 4 == 0 && l.freeEnd <= l.free[j].off && l.free[j].off + l.free[j].len <= PAGE_SIZE
    {
      BlockBounds(l, j);
      var i := BlockIndex(l, j);
      TilesAligned(l.tiles, l.base, i);
    }
    forall s: nat, x: nat | s < |l.slots| && x < |l.slots| && s != x && l.slots[s].Live() && l.slots[x].Live()
      ensures l.slots[x].off + Alloc(l.slots[x].len) <= l.slots[s].off
              || l.slots[s].off + Alloc(l.slots[s].len) <= l.slots[x].off
    {
      RowsApart(l, s);
    }
    forall s: nat, j | s < |l.slots| && l.slots[s].Live() && 0 <= j < |l.free|
      ensures l.free[j].off + l.free[j].len <= l.slots[s].off || l.slots[s].off + Alloc(l.slots[s].len) <= l.free[j].off
    {
      RowsApart(l, s);
    }
    forall c | l.freeEnd <= c < PAGE_SIZE ensures Covered(l, c) {
      CoverOwner(l, c);
    }
  }

  ghost predicate Covered(l: Layout, c: int) {
    || (exists s: nat ::
          s < |l.slots| && l.slots[s].Live() && l.slots[s].off <= c < l.slots[s].off + Alloc(l.slots[s].len))
    || (exists j :: 0 <= j < |l.free| && l.free[j].off <= c < l.free[j].off + l.free[j].len)
  }

  lemma CoverOwner(l: Layout, c: nat)
    requires Settled(l) && l.freeEnd <= c < PAGE_SIZE
    ensures Covered(l, c)
  {
    TilesCover(l.tiles, l.base, c);
    var t :| t in l.tiles && t.off <= c < t.off + t.len;
    assert OwnerOk(l, t);
    match t.owner
    case Row(s) =>
      TilesApart(l.tiles, l.base);
      assert l.slots[s].Live();
    case Free =>
      var j :| 0 <= j < |l.free| && l.free[j] == Block(t.off, t.len);
      assert l.free[j].off <= c;
    case Held =>
      assert false;
  }
}
