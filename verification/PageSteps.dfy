/** The elementary changes of a page layout, each of which keeps the exact
    tiling: taking a free block or part of one, taking space below the rows,
    giving held space to a slot or to the free list, shrinking and moving rows. */
module PageSteps {
  import opened Wrappers
  import opened PageLayout

  // ---------- re-owning tiles ----------

  lemma SetOwner(tiles: seq<Tile>, base: nat, i: nat, o: Owner)
    requires Tiling(tiles, base) && i < |tiles|
    ensures var t' := tiles[i].(owner := o);
            && Tiling(tiles[i := t'], base) && t' in tiles[i := t']
            && forall t :: t in tiles[i := t'] <==> t == t' || (t in tiles && t != tiles[i])
  {
    TilesApart(tiles, base);
    var t' := tiles[i].(owner := o);
    var tiles' := tiles[i := t'];
    forall j | 0 <= j < |tiles'| ensures TileAt(tiles', j) {
      assert TileAt(tiles, j);
    }
    assert tiles'[i] == t';
    forall t ensures t in tiles' <==> t == t' || (t in tiles && t != tiles[i]) {
      if t in tiles && t != tiles[i] {
        var j :| 0 <= j < |tiles| && tiles[j] == t;
        assert tiles'[j] == t;
      }
    }
  }

  ghost function Cut(tiles: seq<Tile>, i: nat, k: nat, o1: Owner, o2: Owner): seq<Tile>
    requires i < |tiles| && k < tiles[i].len
  {
    var t := tiles[i];
    tiles[..i] + [Tile(t.off, k, o1), Tile(t.off + k, t.len - k, o2)] + tiles[i + 1..]
  }

  lemma CutMembers(tiles: seq<Tile>, base: nat, i: nat, k: nat, o1: Owner, o2: Owner)
    requires Tiling(tiles, base) && i < |tiles| && k < tiles[i].len
    ensures forall t :: t in Cut(tiles, i, k, o1, o2) <==>
              || t == Tile(tiles[i].off, k, o1) || t == Tile(tiles[i].off + k, tiles[i].len - k, o2)
              || (t in tiles && t != tiles[i])
  {
    TilesApart(tiles, base);
    forall t ensures t in tiles[..i] || t in tiles[i + 1..] <==> t in tiles && t != tiles[i] {
      if t in tiles && t != tiles[i] {
        var j :| 0 <= j < |tiles| && tiles[j] == t;
        assert j < i ==> tiles[..i][j] == t;
        assert i < j ==> tiles[i + 1..][j - i - 1] == t;
      }
    }
  }

  lemma CutTiling(tiles: seq<Tile>, base: nat, i: nat, k: nat, o1: Owner, o2: Owner)
    requires Tiling(tiles, base) && i < |tiles| && 0 < k < tiles[i].len && k % 4 == 0
    ensures Tiling(Cut(tiles, i, k, o1, o2), base)
  {
    var tiles' := Cut(tiles, i, k, o1, o2);
    assert TileAt(tiles, i);
    Multiples(tiles[i].len, k);
    forall j | 0 <= j < |tiles'| ensures TileAt(tiles', j) {
      if j < i {
        assert TileAt(tiles, j) && tiles'[j] == tiles[j];
        assert tiles'[j + 1].off == tiles[j + 1].off;
      } else if j > i + 1 {
        assert TileAt(tiles, j - 1) && tiles'[j] == tiles[j - 1];
        assert j + 1 < |tiles'| ==> tiles'[j + 1] == tiles[j];
      } else {
        assert i + 2 < |tiles'| ==> tiles'[i + 2] == tiles[i + 1];
      }
    }
  }

  // ---------- giving space back ----------

  /** What is held goes to the head of the free list. */
  ghost function GiveBack(l: Layout, i: nat): Layout
    requires i < |l.tiles| && l.held.Some?
  {
    l.(free := [l.held.value] + l.free, held := None, tiles := l.tiles[i := l.tiles[i].(owner := Free)])
  }

  ghost predicate HeldAt(l: Layout, i: nat) {
    i < |l.tiles| && l.held.Some? && l.tiles[i] == Tile(l.held.value.off, l.held.value.len, Held)
  }

  lemma HeldIndex(l: Layout) returns (i: nat)
    requires LayoutOk(l) && l.held.Some?
    ensures HeldAt(l, i)
  {
    var j :| 0 <= j < |l.tiles| && l.tiles[j] == Tile(l.held.value.off, l.held.value.len, Held);
    i := j;
  }

  lemma GiveBackOk(l: Layout, i: nat)
    requires LayoutOk(l) && HeldAt(l, i)
    ensures LayoutOk(GiveBack(l, i))
  {
    SetOwner(l.tiles, l.base, i, Free);
    TilesApart(l.tiles, l.base);
    var l' := GiveBack(l, i);
    forall t | t in l'.tiles ensures OwnerOk(l', t) {
      assert t in l.tiles ==> OwnerOk(l, t);
    }
    forall s | 0 <= s < |l'.slots| ensures SlotOk(l', s) {
      assert SlotOk(l, s);
    }
    assert l'.free[1..] == l.free;
  }

  // ---------- taking space ----------

  /** Take `len` bytes from the front of free block `j`. */
  ghost function TakeBlock(l: Layout, j: nat, i: nat, len: nat): Layout
    requires j < |l.free| && i < |l.tiles| && len <= l.free[j].len && l.tiles[i].len == l.free[j].len
  {
    var b := l.free[j];
    if len < b.len then
      l.(free := l.free[..j] + [Block(b.off + len, b.len - len)] + l.free[j + 1..],
         held := Some(Block(b.off, len)), tiles := Cut(l.tiles, i, len, Held, Free))
    else
      l.(free := l.free[..j] + [] + l.free[j + 1..],
         held := Some(b), tiles := l.tiles[i := l.tiles[i].(owner := Held)])
  }

  lemma FreeMembers(free: seq<Block>, j: nat, with: seq<Block>)
    requires j < |free| && forall a, b :: 0 <= a < b < |free| ==> free[a].off != free[b].off
    ensures forall x :: x in free[..j] + with + free[j + 1..] <==> (x in free && x != free[j]) || x in with
  {
    forall x ensures x in free[..j] || x in free[j + 1..] <==> x in free && x != free[j] {
      if x in free && x != free[j] {
        var k :| 0 <= k < |free| && free[k] == x;
        assert k < j ==> free[..j][k] == x;
        assert j < k ==> free[j + 1..][k - j - 1] == x;
      }
    }
  }

  lemma TakeWholeOwners(l: Layout, j: nat, i: nat)
    requires LayoutOk(l) && l.held == None && j < |l.free|
    requires i < |l.tiles| && l.tiles[i] == Tile(l.free[j].off, l.free[j].len, Free)
    ensures var l' := TakeBlock(l, j, i, l.free[j].len);
            && (forall t :: t in l'.tiles ==> OwnerOk(l', t))
            && (forall s :: 0 <= s < |l'.slots| ==> SlotOk(l', s))
            && Tile(l'.held.value.off, l'.held.value.len, Held) in l'.tiles
  {
    SetOwner(l.tiles, l.base, i, Held);
    FreeMembers(l.free, j, []);
    var l' := TakeBlock(l, j, i, l.free[j].len);
    forall t | t in l'.tiles ensures OwnerOk(l', t) {
      assert t in l.tiles ==> OwnerOk(l, t);
    }
    forall s | 0 <= s < |l'.slots| ensures SlotOk(l', s) {
      assert SlotOk(l, s);
    }
  }

  lemma TakeWholeFree(l: Layout, j: nat, i: nat)
    requires LayoutOk(l) && l.held == None && j < |l.free|
    requires i < |l.tiles| && l.tiles[i] == Tile(l.free[j].off, l.free[j].len, Free)
    ensures var l' := TakeBlock(l, j, i, l.free[j].len);
            && (forall x :: 0 <= x < |l'.free| ==> Tile(l'.free[x].off, l'.free[x].len, Free) in l'.tiles)
            && (forall a, b :: 0 <= a < b < |l'.free| ==> l'.free[a].off != l'.free[b].off)
  {
    SetOwner(l.tiles, l.base, i, Held);
    var l' := TakeBlock(l, j, i, l.free[j].len);
    forall x | 0 <= x < |l'.free|
      ensures l'.free[x] == l.free[if x < j then x else x + 1]
      ensures Tile(l'.free[x].off, l'.free[x].len, Free) in l'.tiles
    {
      var y := if x < j then x else x + 1;
      assert Tile(l.free[y].off, l.free[y].len, Free) in l.tiles && l.free[y].off != l.free[j].off;
    }
  }

  lemma TakeWholeOk(l: Layout, j: nat, i: nat)
    requires LayoutOk(l) && l.held == None && j < |l.free|
    requires i < |l.tiles| && l.tiles[i] == Tile(l.free[j].off, l.free[j].len, Free)
    ensures LayoutOk(TakeBlock(l, j, i, l.free[j].len))
  {
    TakeWholeOwners(l, j, i);
    TakeWholeFree(l, j, i);
    SetOwner(l.tiles, l.base, i, Held);
    FreeSumSplice(l.free, j, []);
  }

  lemma TakePartOwners(l: Layout, j: nat, i: nat, len: nat)
    requires LayoutOk(l) && l.held == None && j < |l.free| && 0 < len < l.free[j].len
    requires i < |l.tiles| && l.tiles[i] == Tile(l.free[j].off, l.free[j].len, Free)
    ensures var l' := TakeBlock(l, j, i, len);
            && (forall t :: t in l'.tiles ==> OwnerOk(l', t))
            && (forall s :: 0 <= s < |l'.slots| ==> SlotOk(l', s))
            && Tile(l'.held.value.off, l'.held.value.len, Held) in l'.tiles
  {
    var rest := Block(l.free[j].off + len, l.free[j].len - len);
    CutMembers(l.tiles, l.base, i, len, Held, Free);
    FreeMembers(l.free, j, [rest]);
    var l' := TakeBlock(l, j, i, len);
    forall t | t in l'.tiles ensures OwnerOk(l', t) {
      assert t in l.tiles ==> OwnerOk(l, t);
    }
    forall s | 0 <= s < |l'.slots| ensures SlotOk(l', s) {
      assert SlotOk(l, s);
    }
  }

  lemma TakePartFree(l: Layout, j: nat, i: nat, len: nat)
    requires LayoutOk(l) && l.held == None && j < |l.free| && 0 < len < l.free[j].len
    requires i < |l.tiles| && l.tiles[i] == Tile(l.free[j].off, l.free[j].len, Free)
    ensures var l' := TakeBlock(l, j, i, len);
            forall x :: 0 <= x < |l'.free| ==> Tile(l'.free[x].off, l'.free[x].len, Free) in l'.tiles
  {
    CutMembers(l.tiles, l.base, i, len, Held, Free);
    var l' := TakeBlock(l, j, i, len);
    forall x | 0 <= x < |l'.free| ensures Tile(l'.free[x].off, l'.free[x].len, Free) in l'.tiles {
      if x != j {
        assert l'.free[x] == l.free[x];
        assert Tile(l.free[x].off, l.free[x].len, Free) in l.tiles && l.free[x].off != l.free[j].off;
      }
    }
  }

  lemma TakePartOk(l: Layout, j: nat, i: nat, len: nat)
    requires LayoutOk(l) && l.held == None && j < |l.free| && 0 < len < l.free[j].len && len % 4 == 0
    requires i < |l.tiles| && l.tiles[i] == Tile(l.free[j].off, l.free[j].len, Free)
    ensures LayoutOk(TakeBlock(l, j, i, len))
  {
    TakePartOwners(l, j, i, len);
    TakePartFree(l, j, i, len);
    TakePartDistinct(l, j, i, len);
    CutTiling(l.tiles, l.base, i, len, Held, Free);
    TakePartSum(l, j, i, len);
  }

  lemma TakePartSum(l: Layout, j: nat, i: nat, len: nat)
    requires LayoutOk(l) && l.held == None && j < |l.free| && 0 < len < l.free[j].len
    requires i < |l.tiles| && l.tiles[i] == Tile(l.free[j].off, l.free[j].len, Free)
    ensures var l' := TakeBlock(l, j, i, len);
            LiveSum(l'.slots) + FreeSum(l'.free) + HeldSum(l') == PAGE_SIZE - l'.base
  {
    FreeSumReplace(l.free, j, Block(l.free[j].off + len, l.free[j].len - len));
  }

  lemma TakePartDistinct(l: Layout, j: nat, i: nat, len: nat)
    requires LayoutOk(l) && j < |l.free| && 0 < len < l.free[j].len
    requires i < |l.tiles| && l.tiles[i] == Tile(l.free[j].off, l.free[j].len, Free)
    ensures var free := l.free[..j] + [Block(l.free[j].off + len, l.free[j].len - len)] + l.free[j + 1..];
            TakeBlock(l, j, i, len).free == free
            && forall a, b :: 0 <= a < b < |free| ==> free[a].off != free[b].off
  {
    CutDistinct(l.tiles, l.base, l.free, j, len);
  }

  lemma CutDistinct(tiles: seq<Tile>, base: nat, free: seq<Block>, j: nat, len: nat)
    requires Tiling(tiles, base) && j < |free| && 0 < len < free[j].len
    requires forall x :: 0 <= x < |free| ==> Tile(free[x].off, free[x].len, Free) in tiles
    requires forall a, b :: 0 <= a < b < |free| ==> free[a].off != free[b].off
    ensures var free' := free[..j] + [Block(free[j].off + len, free[j].len - len)] + free[j + 1..];
            forall a, b :: 0 <= a < b < |free'| ==> free'[a].off != free'[b].off
  {
    TilesApart(tiles, base);
    hide Tiling;
    var free' := free[..j] + [Block(free[j].off + len, free[j].len - len)] + free[j + 1..];
    forall x | 0 <= x < |free'| && x != j ensures free'[x] == free[x] && free'[x].off != free[j].off + len {
      assert Tile(free[x].off, free[x].len, Free) in tiles && Tile(free[j].off, free[j].len, Free) in tiles;
    }
  }

  /** Take `len` bytes just below the rows; `freeEnd` follows later. */
  ghost function TakeBelow(l: Layout, len: nat): Layout
    requires len <= l.base
  {
    l.(base := l.base - len, held := Some(Block(l.base - len, len)), tiles := [Tile(l.base - len, len, Held)] + l.tiles)
  }

  lemma TakeBelowOk(l: Layout, len: nat)
    requires LayoutOk(l) && l.held == None && 0 < len && len % 4 == 0 && FreeStart(l) + len <= l.base
    ensures LayoutOk(TakeBelow(l, len))
  {
    var l' := TakeBelow(l, len);
    forall i | 0 <= i < |l'.tiles| ensures TileAt(l'.tiles, i) {
      assert i > 0 ==> TileAt(l.tiles, i - 1);
    }
    TilesApart(l.tiles, l.base);
    forall t | t in l'.tiles ensures OwnerOk(l', t) {
      assert t in l.tiles ==> OwnerOk(l, t);
    }
    forall s | 0 <= s < |l'.slots| ensures SlotOk(l', s) {
      assert SlotOk(l, s);
    }
  }

  // ---------- slots ----------

  /** What is held goes to slot `s`, a tombstone or the next new slot. */
  ghost function Assign(l: Layout, i: nat, s: nat, len: nat): Layout
    requires HeldAt(l, i) && s <= |l.slots|
  {
    var slot := Slot(l.held.value.off, len);
    l.(slots := if s < |l.slots| then l.slots[s := slot] else l.slots + [slot],
       held := None, tiles := l.tiles[i := l.tiles[i].(owner := Row(s))])
  }

  lemma AssignOk(l: Layout, i: nat, s: nat, len: nat)
    requires LayoutOk(l) && HeldAt(l, i) && s <= |l.slots| && Alloc(len) == l.held.value.len
    requires if s < |l.slots| then !l.slots[s].Live() else FreeStart(l) + SLOT_SIZE <= l.base
    ensures LayoutOk(Assign(l, i, s, len))
  {
    SetOwner(l.tiles, l.base, i, Row(s));
    TilesApart(l.tiles, l.base);
    var l' := Assign(l, i, s, len);
    if s < |l.slots| {
      LiveSumUpdate(l.slots, s, Slot(l.held.value.off, len));
    } else {
      LiveSumAppend(l.slots, Slot(l.held.value.off, len));
    }
    forall t | t in l'.tiles ensures OwnerOk(l', t) {
      assert t in l.tiles ==> OwnerOk(l, t);
    }
    forall x | 0 <= x < |l'.slots| ensures SlotOk(l', x) {
      assert x < |l.slots| ==> SlotOk(l, x);
    }
  }

  ghost predicate RowAt(l: Layout, i: nat, s: nat) {
    i < |l.tiles| && s < |l.slots| && l.slots[s].Live()
        && l.tiles[i] == Tile(l.slots[s].off, Alloc(l.slots[s].len), Row(s))
  }

  lemma RowIndex(l: Layout, s: nat) returns (i: nat)
    requires LayoutOk(l) && s < |l.slots| && l.slots[s].Live()
    ensures RowAt(l, i, s)
  {
    assert SlotOk(l, s);
    var j :| 0 <= j < |l.tiles| && l.tiles[j] == Tile(l.slots[s].off, Alloc(l.slots[s].len), Row(s));
    i := j;
  }

  /** A row's slot becomes a tombstone, and its space is held. */
  ghost function Release(l: Layout, i: nat, s: nat): Layout
    requires RowAt(l, i, s)
  {
    l.(slots := l.slots[s := Slot(0, 0)], held := Some(Block(l.tiles[i].off, l.tiles[i].len)),
       tiles := l.tiles[i := l.tiles[i].(owner := Held)])
  }

  lemma ReleaseOk(l: Layout, i: nat, s: nat)
    requires LayoutOk(l) && l.held == None && RowAt(l, i, s)
    ensures LayoutOk(Release(l, i, s))
  {
    SetOwner(l.tiles, l.base, i, Held);
    TilesApart(l.tiles, l.base);
    var l' := Release(l, i, s);
    LiveSumUpdate(l.slots, s, Slot(0, 0));
    forall t | t in l'.tiles ensures OwnerOk(l', t) {
      assert t in l.tiles ==> OwnerOk(l, t);
    }
    forall x | 0 <= x < |l'.slots| ensures SlotOk(l', x) {
      assert SlotOk(l, x);
    }
  }

  /** A row that needs the same space or less keeps its place; what it no longer
      needs is held. */
  ghost function Shrink(l: Layout, i: nat, s: nat, len: nat): Layout
    requires RowAt(l, i, s) && Alloc(len) <= l.tiles[i].len
  {
    var t, a := l.tiles[i], Alloc(len);
    var slots := l.slots[s := Slot(t.off, len)];
    if a < t.len then
      l.(slots := slots, held := Some(Block(t.off + a, t.len - a)), tiles := Cut(l.tiles, i, a, Row(s), Held))
    else
      l.(slots := slots)
  }

  lemma ShrinkOwners(l: Layout, i: nat, s: nat, len: nat)
    requires LayoutOk(l) && l.held == None && RowAt(l, i, s) && Alloc(len) < l.tiles[i].len
    ensures var l' := Shrink(l, i, s, len);
            forall t :: t in l'.tiles ==> OwnerOk(l', t)
  {
    hide LiveSum, FreeSum, SlotOk, Alloc;
    var l' := Shrink(l, i, s, len);
    CutMembers(l.tiles, l.base, i, Alloc(len), Row(s), Held);
    TilesApart(l.tiles, l.base);
    forall t | t in l'.tiles ensures OwnerOk(l', t) {
      assert t in l.tiles ==> OwnerOk(l, t);
    }
  }

  lemma ShrinkTiles(l: Layout, i: nat, s: nat, len: nat)
    requires LayoutOk(l) && l.held == None && RowAt(l, i, s) && Alloc(len) < l.tiles[i].len
    ensures var l' := Shrink(l, i, s, len);
            && (forall x :: 0 <= x < |l'.slots| ==> SlotOk(l', x))
            && Tile(l'.held.value.off, l'.held.value.len, Held) in l'.tiles
            && (forall x :: 0 <= x < |l'.free| ==> Tile(l'.free[x].off, l'.free[x].len, Free) in l'.tiles)
  {
    var l' := Shrink(l, i, s, len);
    CutMembers(l.tiles, l.base, i, Alloc(len), Row(s), Held);
    forall x | 0 <= x < |l'.slots| ensures SlotOk(l', x) {
      assert SlotOk(l, x);
    }
  }

  lemma ShrinkLayoutOk(l: Layout, i: nat, s: nat, len: nat)
    requires LayoutOk(l) && l.held == None && RowAt(l, i, s) && Alloc(len) <= l.tiles[i].len
    ensures LayoutOk(Shrink(l, i, s, len))
  {
    var l' := Shrink(l, i, s, len);
    LiveSumUpdate(l.slots, s, Slot(l.tiles[i].off, len));
    TilesApart(l.tiles, l.base);
    if Alloc(len) < l.tiles[i].len {
      CutTiling(l.tiles, l.base, i, Alloc(len), Row(s), Held);
      ShrinkOwners(l, i, s, len);
      ShrinkTiles(l, i, s, len);
    } else {
      forall t | t in l'.tiles ensures OwnerOk(l', t) {
        assert OwnerOk(l, t);
      }
      forall x | 0 <= x < |l'.slots| ensures SlotOk(l', x) {
        assert SlotOk(l, x);
      }
    }
  }

  /** A row moves into what is held, and its old space is held instead. */
  ghost function Move(l: Layout, h: nat, i: nat, s: nat, len: nat): Layout
    requires HeldAt(l, h) && RowAt(l, i, s)
  {
    var old_ := l.tiles[i];
    l.(slots := l.slots[s := Slot(l.held.value.off, len)], held := Some(Block(old_.off, old_.len)),
       tiles := l.tiles[h := l.tiles[h].(owner := Row(s))][i := old_.(owner := Held)])
  }

  lemma MoveOk(l: Layout, h: nat, i: nat, s: nat, len: nat)
    requires LayoutOk(l) && HeldAt(l, h) && RowAt(l, i, s) && Alloc(len) == l.held.value.len
    ensures LayoutOk(Move(l, h, i, s, len))
  {
    TilesApart(l.tiles, l.base);
    SetOwner(l.tiles, l.base, h, Row(s));
    SetOwner(l.tiles[h := l.tiles[h].(owner := Row(s))], l.base, i, Held);
    var l' := Move(l, h, i, s, len);
    LiveSumUpdate(l.slots, s, Slot(l.held.value.off, len));
    forall t | t in l'.tiles ensures OwnerOk(l', t) {
      assert t in l.tiles ==> OwnerOk(l, t);
    }
    forall x | 0 <= x < |l'.slots| ensures SlotOk(l', x) {
      assert SlotOk(l, x);
    }
  }
}
