/** What writing single bytes does to the layout a page encodes and to the rows
    it stores. */
module PageBytes {
  import opened Keys
  import opened PageLayout
  import opened PageSteps

  /** The bytes of two pages agree outside two stretches. */
  ghost predicate SameBut(b: seq<Byte>, b': seq<Byte>, lo: int, hi: int, lo2: int, hi2: int) {
    |b| == |b'| && forall i :: 0 <= i < |b| && !(lo <= i < hi) && !(lo2 <= i < hi2) ==> b'[i] == b[i]
  }

  lemma SameU16(b: seq<Byte>, b': seq<Byte>, i: nat)
    requires |b| == |b'| && i + 1 < |b| && b'[i] == b[i] && b'[i + 1] == b[i + 1]
    ensures U16(b', i) == U16(b, i)
  {
  }

  /** A live row lies within its tile. */
  lemma RowBounds(l: Layout, s: nat)
    requires LayoutOk(l) && s < |l.slots| && l.slots[s].Live()
    ensures l.base <= l.slots[s].off && l.slots[s].off + l.slots[s].len <= PAGE_SIZE
    ensures l.slots[s].off + Alloc(l.slots[s].len) <= PAGE_SIZE
  {
    assert SlotOk(l, s);
    TilesApart(l.tiles, l.base);
  }

  lemma BlockBounds(l: Layout, j: nat)
    requires LayoutOk(l) && j < |l.free|
    ensures l.base <= l.free[j].off && l.free[j].off + 4 <= l.free[j].off + l.free[j].len <= PAGE_SIZE
    ensures l.free[j].len % 4 == 0
  {
    TilesApart(l.tiles, l.base);
    var t := Tile(l.free[j].off, l.free[j].len, Free);
    var i :| 0 <= i < |l.tiles| && l.tiles[i] == t;
    assert TileAt(l.tiles, i);
  }

  lemma HeldBounds(l: Layout)
    requires LayoutOk(l) && l.held.Some?
    ensures l.base <= l.held.value.off && l.held.value.off + l.held.value.len <= PAGE_SIZE && l.held.value.len >= 4
    ensures l.held.value.len % 4 == 0
  {
    var i := HeldIndex(l);
    TilesApart(l.tiles, l.base);
    assert TileAt(l.tiles, i);
  }

  /** Held space overlaps no row and no free block. */
  lemma HeldApart(l: Layout)
    requires LayoutOk(l) && l.held.Some?
    ensures var h := l.held.value;
            && (forall s: nat :: s < |l.slots| && l.slots[s].Live() ==>
                  l.slots[s].off + Alloc(l.slots[s].len) <= h.off || h.off + h.len <= l.slots[s].off)
            && (forall j :: 0 <= j < |l.free| ==>
                  l.free[j].off + l.free[j].len <= h.off || h.off + h.len <= l.free[j].off)
  {
    TilesApart(l.tiles, l.base);
    forall s: nat | s < |l.slots| && l.slots[s].Live()
      ensures l.slots[s].off + Alloc(l.slots[s].len) <= l.held.value.off
           || l.held.value.off + l.held.value.len <= l.slots[s].off
    {
      assert SlotOk(l, s);
    }
  }

  /** Free blocks overlap no row. */
  lemma BlockApart(l: Layout, j: nat)
    requires LayoutOk(l) && j < |l.free|
    ensures forall s: nat :: s < |l.slots| && l.slots[s].Live() ==>
              l.slots[s].off + Alloc(l.slots[s].len) <= l.free[j].off || l.free[j].off + l.free[j].len <= l.slots[s].off
    ensures forall k :: 0 <= k < |l.free| && k != j ==>
              l.free[k].off + l.free[k].len <= l.free[j].off || l.free[j].off + l.free[j].len <= l.free[k].off
  {
    TilesApart(l.tiles, l.base);
    forall s: nat | s < |l.slots| && l.slots[s].Live()
      ensures l.slots[s].off + Alloc(l.slots[s].len) <= l.free[j].off || l.free[j].off + l.free[j].len <= l.slots[s].off
    {
      assert SlotOk(l, s);
    }
    forall k | 0 <= k < |l.free| && k != j
      ensures l.free[k].off + l.free[k].len <= l.free[j].off || l.free[j].off + l.free[j].len <= l.free[k].off
    {
      assert l.free[k].off != l.free[j].off;
    }
  }

  /** Two live rows do not overlap. */
  lemma RowsApart(l: Layout, s: nat)
    requires LayoutOk(l) && s < |l.slots| && l.slots[s].Live()
    ensures forall x: nat :: x < |l.slots| && x != s && l.slots[x].Live() ==>
              l.slots[x].off + Alloc(l.slots[x].len) <= l.slots[s].off
              || l.slots[s].off + Alloc(l.slots[s].len) <= l.slots[x].off
    ensures forall j :: 0 <= j < |l.free| ==>
              l.free[j].off + l.free[j].len <= l.slots[s].off
              || l.slots[s].off + Alloc(l.slots[s].len) <= l.free[j].off
  {
    TilesApart(l.tiles, l.base);
    assert SlotOk(l, s);
    forall x: nat | x < |l.slots| && x != s && l.slots[x].Live()
      ensures l.slots[x].off + Alloc(l.slots[x].len) <= l.slots[s].off
           || l.slots[s].off + Alloc(l.slots[s].len) <= l.slots[x].off
    {
      assert SlotOk(l, x);
    }
  }

  ghost predicate RowKept(b: seq<Byte>, b': seq<Byte>, s: Slot) {
    |b| == |b'| && forall i :: s.off <= i < s.off + s.len && i < |b| ==> b'[i] == b[i]
  }

  /** The stored rows are determined by the slots and the bytes they point at. */
  lemma RowsKept(b: seq<Byte>, b': seq<Byte>, l: Layout, l': Layout)
    requires LayoutOk(l) && |b| == |b'| == PAGE_SIZE && l'.slots == l.slots
    requires forall s: nat :: s < |l.slots| && l.slots[s].Live() ==> RowKept(b, b', l.slots[s])
    ensures Rows(b', l') == Rows(b, l)
  {
    forall s: nat | s < |l.slots| && l.slots[s].Live()
      ensures l.slots[s].off + l.slots[s].len <= PAGE_SIZE
      ensures b'[l.slots[s].off..l.slots[s].off + l.slots[s].len] == b[l.slots[s].off..l.slots[s].off + l.slots[s].len]
    {
      RowBounds(l, s);
      assert RowKept(b, b', l.slots[s]);
    }
  }

  // ---------- giving held space back ----------

  /** The bytes written when a block is put at the head of the free list. */
  ghost predicate PushesBlock(b: seq<Byte>, b': seq<Byte>, off: nat, len: nat) {
    && SameBut(b, b', 6, 8, off, off + 4) && off + 4 <= |b|
    && U16(b', 6) == off && U16(b', off) == U16(b, 6) && U16(b', off + 2) == len
  }

  lemma GiveBackRows(b: seq<Byte>, b': seq<Byte>, l: Layout, i: nat)
    requires LayoutOk(l) && HeldAt(l, i) && |b| == PAGE_SIZE
    requires PushesBlock(b, b', l.held.value.off, l.held.value.len)
    ensures Rows(b', GiveBack(l, i)) == Rows(b, l)
  {
    HeldApart(l);
    HeldBounds(l);
    forall s: nat | s < |l.slots| && l.slots[s].Live() ensures RowKept(b, b', l.slots[s]) {
      RowBounds(l, s);
    }
    RowsKept(b, b', l, GiveBack(l, i));
  }

  lemma GiveBackEncodes(b: seq<Byte>, b': seq<Byte>, l: Layout, i: nat)
    requires LayoutOk(l) && HeldAt(l, i) && Encodes(b, l)
    requires PushesBlock(b, b', l.held.value.off, l.held.value.len)
    ensures Encodes(b', GiveBack(l, i))
  {
    HeldApart(l);
    HeldBounds(l);
    assert FreeStart(l) <= l.base;
    hide LayoutOk, HeldAt;
    var l' := GiveBack(l, i);
    forall s | 0 <= s < |l'.slots| ensures SlotEncoded(b', l'.slots, s) {
      assert SlotEncoded(b, l.slots, s);
    }
    forall j | 0 <= j < |l'.free| ensures BlockEncoded(b', l'.free, j) {
      if j > 0 {
        BlockBounds(l, j - 1);
        assert BlockEncoded(b, l.free, j - 1);
      }
    }
  }

  // ---------- taking a free block ----------

  /** Where the link to list position `j` is stored. */
  ghost function LinkAt(l: Layout, j: nat): nat
    requires j <= |l.free|
  {
    if j == 0 then 6 else l.free[j - 1].off
  }

  /** The bytes written when `len` bytes of free block `j` are taken. */
  ghost predicate TakesBlock(b: seq<Byte>, b': seq<Byte>, l: Layout, j: nat, len: nat)
    requires j < |l.free|
  {
    var p, o, rest := LinkAt(l, j), l.free[j].off + len, l.free[j].len - len;
    if len < l.free[j].len then
      && SameBut(b, b', p, p + 2, o, o + 4)
      && U16(b', p) == o && U16(b', o) == LinkTo(l.free, j + 1) && U16(b', o + 2) == rest
    else
      SameOutside(b, b', p, p + 2) && U16(b', p) == LinkTo(l.free, j + 1)
  }

  lemma LinkBounds(l: Layout, j: nat)
    requires LayoutOk(l) && j < |l.free|
    ensures LinkAt(l, j) == 6 || (l.base <= LinkAt(l, j) && LinkAt(l, j) + 2 <= PAGE_SIZE)
    ensures LinkAt(l, j) + 2 <= l.free[j].off || l.free[j].off + l.free[j].len <= LinkAt(l, j)
    ensures forall s: nat :: s < |l.slots| && l.slots[s].Live() ==>
              LinkAt(l, j) + 2 <= l.slots[s].off || l.slots[s].off + l.slots[s].len <= LinkAt(l, j)
  {
    BlockBounds(l, j);
    forall s: nat | s < |l.slots| && l.slots[s].Live()
      ensures LinkAt(l, j) + 2 <= l.slots[s].off || l.slots[s].off + l.slots[s].len <= LinkAt(l, j)
    {
      RowBounds(l, s);
      if j > 0 { BlockApart(l, j - 1); BlockBounds(l, j - 1); }
    }
    if j > 0 { BlockBounds(l, j - 1); BlockApart(l, j); }
  }

  lemma TakeBlockRows(b: seq<Byte>, b': seq<Byte>, l: Layout, j: nat, i: nat, len: nat)
    requires LayoutOk(l) && |b| == PAGE_SIZE && j < |l.free| && 0 < len <= l.free[j].len && len % 4 == 0
    requires i < |l.tiles| && l.tiles[i] == Tile(l.free[j].off, l.free[j].len, Free)
    requires TakesBlock(b, b', l, j, len)
    ensures Rows(b', TakeBlock(l, j, i, len)) == Rows(b, l)
  {
    LinkBounds(l, j);
    BlockApart(l, j);
    BlockBounds(l, j);
    Multiples(l.free[j].len, len);
    forall s: nat | s < |l.slots| && l.slots[s].Live() ensures RowKept(b, b', l.slots[s]) {
      RowBounds(l, s);
    }
    RowsKept(b, b', l, TakeBlock(l, j, i, len));
  }

  lemma TakeBlockLinks(l: Layout, j: nat, i: nat, len: nat, x: int)
    requires j < |l.free| && 0 < len <= l.free[j].len
    requires i < |l.tiles| && l.tiles[i] == Tile(l.free[j].off, l.free[j].len, Free)
    requires 0 <= x < |TakeBlock(l, j, i, len).free|
    ensures var free' := TakeBlock(l, j, i, len).free;
            var y := if len < l.free[j].len || x < j then x else x + 1;
            if y == j then
              free'[x] == Block(l.free[j].off + len, l.free[j].len - len)
                  && LinkTo(free', x + 1) == LinkTo(l.free, j + 1)
            else
              && y < |l.free| && free'[x] == l.free[y]
              && LinkTo(free', x + 1) == if y + 1 != j then LinkTo(l.free, y + 1)
                                         else if len < l.free[j].len then l.free[j].off + len else LinkTo(l.free, j + 1)
  {
  }

  lemma TakeBlockHeader(b: seq<Byte>, b': seq<Byte>, l: Layout, j: nat, i: nat, len: nat)
    requires LayoutOk(l) && Encodes(b, l) && j < |l.free| && 0 < len <= l.free[j].len && len % 4 == 0
    requires i < |l.tiles| && l.tiles[i] == Tile(l.free[j].off, l.free[j].len, Free)
    requires TakesBlock(b, b', l, j, len)
    ensures var l' := TakeBlock(l, j, i, len);
            && |b'| == PAGE_SIZE && U16(b', 0) == |l.slots| && U16(b', 2) == FreeStart(l) && U16(b', 4) == l.freeEnd
            && U16(b', 6) == LinkTo(l'.free, 0)
            && forall s :: 0 <= s < |l.slots| ==> SlotEncoded(b', l.slots, s)
  {
    LinkBounds(l, j);
    BlockBounds(l, j);
    Multiples(l.free[j].len, len);
    if j > 0 {
      BlockBounds(l, j - 1);
    }
    if |TakeBlock(l, j, i, len).free| > 0 {
      TakeBlockLinks(l, j, i, len, 0);
    }
    forall s | 0 <= s < |l.slots| ensures SlotEncoded(b', l.slots, s) {
      assert SlotEncoded(b, l.slots, s);
    }
  }

  /** A free block that is neither taken nor linked to the taken one. */
  lemma OtherBlockKept(b: seq<Byte>, b': seq<Byte>, l: Layout, j: nat, len: nat, y: nat)
    requires LayoutOk(l) && |b| == PAGE_SIZE && j < |l.free| && 0 < len <= l.free[j].len && len % 4 == 0
    requires TakesBlock(b, b', l, j, len) && y < |l.free| && y != j
    ensures l.free[y].off + 3 < |b| && U16(b', l.free[y].off + 2) == U16(b, l.free[y].off + 2)
    ensures y + 1 != j ==> U16(b', l.free[y].off) == U16(b, l.free[y].off)
  {
    BlockBounds(l, j);
    BlockBounds(l, y);
    Multiples(l.free[j].len, len);
    BlockApart(l, y);
    if j > 0 { BlockBounds(l, j - 1); }
  }

  lemma TakeBlockList(b: seq<Byte>, b': seq<Byte>, l: Layout, j: nat, i: nat, len: nat, x: int)
    requires LayoutOk(l) && Encodes(b, l) && j < |l.free| && 0 < len <= l.free[j].len && len % 4 == 0
    requires i < |l.tiles| && l.tiles[i] == Tile(l.free[j].off, l.free[j].len, Free)
    requires TakesBlock(b, b', l, j, len)
    requires 0 <= x < |TakeBlock(l, j, i, len).free|
    ensures BlockEncoded(b', TakeBlock(l, j, i, len).free, x)
  {
    hide LayoutOk, TakeBlock;
    var free' := TakeBlock(l, j, i, len).free;
    var y := if len < l.free[j].len || x < j then x else x + 1;
    TakeBlockLinks(l, j, i, len, x);
    if y != j {
      OtherBlockKept(b, b', l, j, len, y);
      assert BlockEncoded(b, l.free, y);
    }
  }

  lemma TakeBlockEncodes(b: seq<Byte>, b': seq<Byte>, l: Layout, j: nat, i: nat, len: nat)
    requires LayoutOk(l) && Encodes(b, l) && j < |l.free| && 0 < len <= l.free[j].len && len % 4 == 0
    requires i < |l.tiles| && l.tiles[i] == Tile(l.free[j].off, l.free[j].len, Free)
    requires TakesBlock(b, b', l, j, len)
    ensures Encodes(b', TakeBlock(l, j, i, len))
  {
    TakeBlockHeader(b, b', l, j, i, len);
    forall x | 0 <= x < |TakeBlock(l, j, i, len).free| ensures BlockEncoded(b', TakeBlock(l, j, i, len).free, x) {
      TakeBlockList(b, b', l, j, i, len, x);
    }
  }

  // ---------- storing a row ----------

  /** The bytes written when slot `s` is made to hold `row` at `off`; a slot one
      past the directory also extends it. */
  ghost predicate PutsRow(b: seq<Byte>, b': seq<Byte>, n: nat, s: nat, off: nat, row: seq<Byte>) {
    var n' := if s < n then n else n + 1;
    && |b'| == |b| && off + |row| <= |b| && HEADER_SIZE + SLOT_SIZE * s + 4 <= |b|
    && U16(b', 0) == n' && U16(b', 2) == HEADER_SIZE + SLOT_SIZE * n'
    && U16(b', HEADER_SIZE + SLOT_SIZE * s) == off && U16(b', HEADER_SIZE + SLOT_SIZE * s + 2) == |row|
    && b'[off..off + |row|] == row
    && forall i | 4 <= i < |b| && !(HEADER_SIZE + SLOT_SIZE * s <= i < HEADER_SIZE + SLOT_SIZE * s + 4)
                  && !(off <= i < off + |row|) :: b'[i] == b[i]
  }

  /** The place for a row overlaps nothing that is kept. */
  ghost predicate PlaceFor(l: Layout, s: nat, off: nat, len: nat) {
    && s <= |l.slots|
    && HEADER_SIZE + SLOT_SIZE * (if s < |l.slots| then |l.slots| else |l.slots| + 1) <= l.base <= off
    && off + len <= PAGE_SIZE
    && (forall j :: 0 <= j < |l.free| ==> l.free[j].off + 4 <= off || off + len <= l.free[j].off)
    && (forall x: nat :: x < |l.slots| && x != s && l.slots[x].Live() ==>
          l.slots[x].off + l.slots[x].len <= off || off + len <= l.slots[x].off)
  }

  ghost function WithSlot(slots: seq<Slot>, s: nat, slot: Slot): seq<Slot>
    requires s <= |slots|
  {
    if s < |slots| then slots[s := slot] else slots + [slot]
  }

  lemma PutRowEncodes(b: seq<Byte>, b': seq<Byte>, l: Layout, l': Layout, s: nat, off: nat, row: seq<Byte>,
                      pending: set<nat>)
    requires LayoutOk(l) && EncodesBut(b, l, pending) && PlaceFor(l, s, off, |row|)
             && PutsRow(b, b', |l.slots|, s, off, row)
    requires l'.slots == WithSlot(l.slots, s, Slot(off, |row|)) && l'.free == l.free && l'.freeEnd == l.freeEnd
    ensures EncodesBut(b', l', pending - {s})
  {
    forall x | 0 <= x < |l'.slots| && x !in pending - {s} ensures SlotEncoded(b', l'.slots, x) {
      if x != s {
        assert SlotEncoded(b, l.slots, x);
      }
    }
    forall j | 0 <= j < |l'.free| ensures BlockEncoded(b', l'.free, j) {
      BlockBounds(l, j);
      assert BlockEncoded(b, l.free, j);
    }
  }

  lemma PutRowOther(b: seq<Byte>, b': seq<Byte>, l: Layout, s: nat, off: nat, row: seq<Byte>, x: nat)
    requires LayoutOk(l) && |b| == PAGE_SIZE && PlaceFor(l, s, off, |row|) && PutsRow(b, b', |l.slots|, s, off, row)
    requires x < |l.slots| && l.slots[x].Live() && x != s
    ensures l.slots[x].off + l.slots[x].len <= PAGE_SIZE
    ensures b'[l.slots[x].off..l.slots[x].off + l.slots[x].len] == b[l.slots[x].off..l.slots[x].off + l.slots[x].len]
  {
    RowBounds(l, x);
  }

  lemma PutRowRows(b: seq<Byte>, b': seq<Byte>, l: Layout, l': Layout, s: nat, off: nat, row: seq<Byte>)
    requires LayoutOk(l) && |b| == PAGE_SIZE && PlaceFor(l, s, off, |row|) && PutsRow(b, b', |l.slots|, s, off, row)
    requires l'.slots == WithSlot(l.slots, s, Slot(off, |row|))
    ensures Rows(b', l') == Rows(b, l)[s := row]
  {
    hide LayoutOk;
    var rows, rows' := Rows(b, l), Rows(b', l');
    assert s in rows' && rows'[s] == row;
    forall x: nat | x != s ensures (x in rows' <==> x in rows) && (x in rows ==> rows'[x] == rows[x]) {
      if x < |l.slots| && l.slots[x].Live() {
        PutRowOther(b, b', l, s, off, row, x);
      }
    }
  }
}
