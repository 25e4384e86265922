/** A slotted page as its slot directory, its free list and an exact tiling of
    the space above the directory; and how the bytes of a page encode them. */
module PageLayout {
  import opened Wrappers
  import opened Keys

  const PAGE_SIZE: nat := 8192
  const HEADER_SIZE: nat := 8
  const SLOT_SIZE: nat := 4
  const NO_BLOCK: nat := 0xFFFF
  /** The largest allocation an empty page can hold. */
  const MAX_ALLOCATION: nat := PAGE_SIZE - HEADER_SIZE - SLOT_SIZE

  datatype Slot = Slot(off: nat, len: nat) {
    /** A slot of zeros is a tombstone. */
    predicate Live() {
      off != 0 || len != 0
    }
  }

  datatype Block = Block(off: nat, len: nat)

  /** Who owns a stretch of the page: a row, the free list, or an operation that
      has taken it from there and not yet given it to a row. */
  datatype Owner = Row(slot: nat) | Free | Held

  datatype Tile = Tile(off: nat, len: nat, owner: Owner)

  datatype Layout = Layout(slots: seq<Slot>, free: seq<Block>, freeEnd: nat,
                           base: nat, held: Option<Block>, tiles: seq<Tile>)

  /** The space set aside for a row: its length rounded up to a multiple of 4,
      and never zero. */
  function Alloc(n: nat): (a: nat)
    ensures n <= a < n + 5 && a % 4 == 0 && a > 0
  {
    if n % 4 == 0 then (if n == 0 then 4 else n) else n + 4 - n % 4
  }

  /** No smaller allocation would do. */
  lemma AllocLeast(n: nat, m: nat)
    requires m % 4 == 0 && m > 0 && n <= m
    ensures Alloc(n) <= m
  {
    Multiples(m, Alloc(n));
  }

  /** An empty page takes rows of up to 8180 bytes: 8192 without the 8 of the
      header and the 4 of a slot. */
  lemma LongestRow(n: nat)
    ensures Alloc(n) <= MAX_ALLOCATION <==> n <= 8180
  {
    if n <= 8180 {
      AllocLeast(n, 8180);
    }
  }

  // ---------- tilings ----------

  ghost predicate TileAt(tiles: seq<Tile>, i: int)
    requires 0 <= i < |tiles|
  {
    && tiles[i].len > 0 && tiles[i].len % 4 == 0
    && tiles[i].off + tiles[i].len == if i + 1 < |tiles| then tiles[i + 1].off else PAGE_SIZE
  }

  /** The tiles follow one another without gap or overlap from `base` to the end
      of the page. */
  ghost predicate Tiling(tiles: seq<Tile>, base: nat) {
    && (if tiles == [] then base == PAGE_SIZE else tiles[0].off == base)
    && forall i :: 0 <= i < |tiles| ==> TileAt(tiles, i)
  }

  lemma {:induction false} TilesInOrder(tiles: seq<Tile>, base: nat, i: nat, j: nat)
    requires Tiling(tiles, base) && i < j < |tiles|
    ensures tiles[i].off + tiles[i].len <= tiles[j].off
    decreases j
  {
    assert TileAt(tiles, j - 1);
    if i + 1 < j {
      TilesInOrder(tiles, base, i, j - 1);
    }
  }

  /** Tiles are disjoint, lie within the page and start at multiples of 4. */
  lemma TilesApart(tiles: seq<Tile>, base: nat)
    requires Tiling(tiles, base)
    ensures forall t, u :: t in tiles && u in tiles && t != u ==> t.off + t.len <= u.off || u.off + u.len <= t.off
    ensures forall t :: t in tiles ==> base <= t.off && t.off + t.len <= PAGE_SIZE && t.len >= 4
    ensures forall i, j :: 0 <= i < |tiles| && 0 <= j < |tiles| && tiles[i] == tiles[j] ==> i == j
  {
    forall i, j | 0 <= i < j < |tiles| ensures tiles[i].off + tiles[i].len <= tiles[j].off {
      TilesInOrder(tiles, base, i, j);
    }
    forall i | 0 <= i < |tiles| ensures base <= tiles[i].off && tiles[i].off + tiles[i].len <= PAGE_SIZE {
      var last := |tiles| - 1;
      assert TileAt(tiles, last) && TileAt(tiles, i);
      if i > 0 { TilesInOrder(tiles, base, 0, i); }
      if i < last { TilesInOrder(tiles, base, i, last); }
    }
    forall t | t in tiles ensures base <= t.off && t.off + t.len <= PAGE_SIZE && t.len >= 4 {
      var i :| 0 <= i < |tiles| && tiles[i] == t;
      assert TileAt(tiles, i);
    }
    forall t, u | t in tiles && u in tiles && t != u ensures t.off + t.len <= u.off || u.off + u.len <= t.off {
      var i, j :| 0 <= i < |tiles| && 0 <= j < |tiles| && tiles[i] == t && tiles[j] == u;
      assert i < j || j < i;
    }
  }

  lemma Multiples(a: nat, b: nat)
    requires a % 4 == 0 && b % 4 == 0
    ensures (a - b) % 4 == 0
  {
    assert a == 4 * (a / 4) && b == 4 * (b / 4);
    var x := a / 4 - b / 4;
    assert a - b == 4 * x;
    assert (4 * x) % 4 == 0;
  }

  lemma {:induction false} TilesAligned(tiles: seq<Tile>, base: nat, i: nat)
    requires Tiling(tiles, base) && i < |tiles|
    ensures tiles[i].off % 4 == 0
    decreases |tiles| - i
  {
    var t := tiles[i];
    assert TileAt(tiles, i);
    if i + 1 < |tiles| {
      TilesAligned(tiles, base, i + 1);
      Multiples(tiles[i + 1].off, t.len);
    } else {
      Multiples(PAGE_SIZE, t.len);
    }
  }

  /** Every byte from `base` on belongs to exactly one tile. */
  lemma {:induction false} TilesCover(tiles: seq<Tile>, base: nat, c: nat)
    requires Tiling(tiles, base) && base <= c < PAGE_SIZE
    ensures exists t :: t in tiles && t.off <= c < t.off + t.len
    decreases |tiles|
  {
    var t := tiles[0];
    assert TileAt(tiles, 0);
    if c < t.off + t.len {
      assert t in tiles;
    } else {
      var rest := tiles[1..];
      forall i | 0 <= i < |rest| ensures TileAt(rest, i) {
        assert TileAt(tiles, i + 1);
      }
      TilesCover(rest, rest[0].off, c);
    }
  }

  // ---------- sums ----------

  function LiveSum(slots: seq<Slot>): nat {
    if slots == [] then 0
    else
      var s := slots[|slots| - 1];
      LiveSum(slots[..|slots| - 1]) + if s.Live() then Alloc(s.len) else 0
  }

  ghost function SlotAlloc(s: Slot): nat {
    if s.Live() then Alloc(s.len) else 0
  }

  lemma {:induction false} LiveSumUpdate(slots: seq<Slot>, i: nat, s: Slot)
    requires i < |slots|
    ensures LiveSum(slots[i := s]) == LiveSum(slots) - SlotAlloc(slots[i]) + SlotAlloc(s)
    ensures SlotAlloc(slots[i]) <= LiveSum(slots)
    decreases |slots|
  {
    var n := |slots| - 1;
    if i < n {
      LiveSumUpdate(slots[..n], i, s);
      assert slots[i := s][..n] == slots[..n][i := s];
    } else {
      assert slots[i := s][..n] == slots[..n];
    }
  }

  lemma LiveSumAppend(slots: seq<Slot>, s: Slot)
    ensures LiveSum(slots + [s]) == LiveSum(slots) + SlotAlloc(s)
  {
    assert (slots + [s])[..|slots|] == slots;
  }

  ghost function FreeSum(free: seq<Block>): nat {
    if free == [] then 0 else free[0].len + FreeSum(free[1..])
  }

  lemma {:induction false} FreeSumSplice(free: seq<Block>, i: nat, with: seq<Block>)
    requires i < |free|
    ensures FreeSum(free[..i] + with + free[i + 1..]) == FreeSum(free) - free[i].len + FreeSum(with)
    ensures free[i].len <= FreeSum(free)
  {
    if i == 0 {
      FreeSumConcat(with, free[1..]);
      assert free[..0] + with + free[1..] == with + free[1..];
    } else {
      FreeSumSplice(free[1..], i - 1, with);
      var s := free[..i] + with + free[i + 1..];
      assert s[1..] == free[1..][..i - 1] + with + free[1..][i..];
    }
  }

  lemma FreeSumReplace(free: seq<Block>, i: nat, b: Block)
    requires i < |free|
    ensures FreeSum(free[..i] + [b] + free[i + 1..]) == FreeSum(free) - free[i].len + b.len
  {
    FreeSumSplice(free, i, [b]);
  }

  lemma {:induction false} FreeSumConcat(a: seq<Block>, b: seq<Block>)
    ensures FreeSum(a + b) == FreeSum(a) + FreeSum(b)
  {
    if a == [] {
      assert a + b == b;
    } else {
      FreeSumConcat(a[1..], b);
      assert (a + b)[1..] == a[1..] + b;
    }
  }

  // ---------- the layout invariant ----------

  ghost function FreeStart(l: Layout): nat {
    HEADER_SIZE + SLOT_SIZE * |l.slots|
  }

  ghost predicate OwnerOk(l: Layout, t: Tile) {
    match t.owner
    case Row(s) => s < |l.slots| && l.slots[s].off == t.off && Alloc(l.slots[s].len) == t.len
    case Free => Block(t.off, t.len) in l.free
    case Held => l.held == Some(Block(t.off, t.len))
  }

  ghost predicate SlotOk(l: Layout, s: int)
    requires 0 <= s < |l.slots|
  {
    l.slots[s].Live() ==> Tile(l.slots[s].off, Alloc(l.slots[s].len), Row(s)) in l.tiles
  }

  ghost function HeldSum(l: Layout): nat {
    if l.held.None? then 0 else l.held.value.len
  }

  /** The live rows, the free blocks and what is held tile the page exactly. */
  ghost predicate LayoutOk(l: Layout) {
    && FreeStart(l) <= l.base <= l.freeEnd <= PAGE_SIZE
    && Tiling(l.tiles, l.base)
    && (forall t :: t in l.tiles ==> OwnerOk(l, t))
    && (forall s :: 0 <= s < |l.slots| ==> SlotOk(l, s))
    && (forall j :: 0 <= j < |l.free| ==> Tile(l.free[j].off, l.free[j].len, Free) in l.tiles)
    && (forall i, j :: 0 <= i < j < |l.free| ==> l.free[i].off != l.free[j].off)
    && (l.held.Some? ==> Tile(l.held.value.off, l.held.value.len, Held) in l.tiles)
    && LiveSum(l.slots) + FreeSum(l.free) + HeldSum(l) == PAGE_SIZE - l.base
  }

  /** Between operations nothing is held, and the tiling starts at `freeEnd`. */
  ghost predicate Settled(l: Layout) {
    LayoutOk(l) && l.held == None && l.base == l.freeEnd
  }

  // ---------- how bytes encode a layout ----------

  function U16(b: seq<Byte>, i: nat): nat {
    if i + 1 < |b| then b[i] as int * 256 + b[i + 1] as int else 0
  }

  /** What the link before list position `j` holds. */
  function LinkTo(free: seq<Block>, j: nat): nat {
    if j < |free| then free[j].off else NO_BLOCK
  }

  ghost predicate SlotEncoded(b: seq<Byte>, slots: seq<Slot>, s: int)
    requires 0 <= s < |slots|
  {
    U16(b, HEADER_SIZE + SLOT_SIZE * s) == slots[s].off && U16(b, HEADER_SIZE + SLOT_SIZE * s + 2) == slots[s].len
  }

  ghost predicate BlockEncoded(b: seq<Byte>, free: seq<Block>, j: int)
    requires 0 <= j < |free|
  {
    U16(b, free[j].off) == LinkTo(free, j + 1) && U16(b, free[j].off + 2) == free[j].len
  }

  /** The bytes encode the layout, except for the slots named in `pending`. */
  ghost predicate EncodesBut(b: seq<Byte>, l: Layout, pending: set<nat>) {
    && |b| == PAGE_SIZE
    && U16(b, 0) == |l.slots| && U16(b, 2) == FreeStart(l) && U16(b, 4) == l.freeEnd && U16(b, 6) == LinkTo(l.free, 0)
    && (forall s :: 0 <= s < |l.slots| && s !in pending ==> SlotEncoded(b, l.slots, s))
    && (forall j :: 0 <= j < |l.free| ==> BlockEncoded(b, l.free, j))
  }

  ghost predicate Encodes(b: seq<Byte>, l: Layout) {
    EncodesBut(b, l, {})
  }

  /** The rows a page stores, by slot. */
  ghost function Rows(b: seq<Byte>, l: Layout): map<nat, seq<Byte>> {
    map s: nat | 0 <= s < |l.slots| && l.slots[s].Live() && l.slots[s].off + l.slots[s].len <= |b|
      :: b[l.slots[s].off..l.slots[s].off + l.slots[s].len]
  }

  /** The bytes of two pages agree outside a stretch. */
  ghost predicate SameOutside(b: seq<Byte>, b': seq<Byte>, lo: int, hi: int) {
    |b| == |b'| && forall i :: 0 <= i < |b| && !(lo <= i < hi) ==> b'[i] == b[i]
  }
}
