/** Compaction: saving the live rows, emptying the page, and placing the rows
    again one below the other. */
module PageCompaction {
  import opened Wrappers
  import opened Keys
  import opened PageLayout
  import opened PageSteps
  import opened PageBytes
  import opened PageWrites

  datatype Stored = Stored(slot: nat, row: seq<Byte>)

  /** The rows of slots below `n`, in slot order. */
  ghost function InOrder(rows: map<nat, seq<Byte>>, n: nat): seq<Stored> {
    if n == 0 then []
    else InOrder(rows, n - 1) + if n - 1 in rows then [Stored(n - 1, rows[n - 1])] else []
  }

  /** What it means to list the rows of slots below `n` in slot order. */
  ghost predicate ListedAt(live: seq<Stored>, rows: map<nat, seq<Byte>>, n: nat, j: int)
    requires 0 <= j < |live|
  {
    live[j].slot < n && live[j].slot in rows && rows[live[j].slot] == live[j].row
  }

  ghost predicate Lists(live: seq<Stored>, rows: map<nat, seq<Byte>>, n: nat) {
    && (forall j :: 0 <= j < |live| ==> ListedAt(live, rows, n, j))
    && (forall i, j :: 0 <= i < j < |live| ==> live[i].slot < live[j].slot)
    && (forall s: nat :: s < n && s in rows ==> exists j :: 0 <= j < |live| && live[j].slot == s)
  }

  lemma ListsSkip(live: seq<Stored>, rows: map<nat, seq<Byte>>, n: nat)
    requires Lists(live, rows, n) && n !in rows
    ensures Lists(live, rows, n + 1)
  {
    var n' := n + 1;
    forall j | 0 <= j < |live| ensures ListedAt(live, rows, n', j) {
      assert ListedAt(live, rows, n, j);
    }
  }

  lemma ListsMore(live: seq<Stored>, rows: map<nat, seq<Byte>>, n: nat)
    requires Lists(live, rows, n) && n in rows
    ensures Lists(live + [Stored(n, rows[n])], rows, n + 1)
  {
    var live', n' := live + [Stored(n, rows[n])], n + 1;
    forall j | 0 <= j < |live'| ensures ListedAt(live', rows, n', j) {
      assert j < |live| ==> ListedAt(live, rows, n, j);
    }
    forall i, j | 0 <= i < j < |live'| ensures live'[i].slot < live'[j].slot {
      assert ListedAt(live, rows, n, i);
    }
    forall s: nat | s < n + 1 && s in rows ensures exists j :: 0 <= j < |live'| && live'[j].slot == s {
      if s < n {
        var j :| 0 <= j < |live| && live[j].slot == s;
        assert live'[j].slot == s;
      } else {
        assert live'[|live|].slot == s;
      }
    }
  }

  /** Every row is listed exactly once, and slots ascend. */
  lemma {:induction false} InOrderLists(rows: map<nat, seq<Byte>>, n: nat)
    ensures Lists(InOrder(rows, n), rows, n)
  {
    if n == 0 {
    } else {
      InOrderLists(rows, n - 1);
      if n - 1 in rows {
        ListsMore(InOrder(rows, n - 1), rows, n - 1);
      } else {
        ListsSkip(InOrder(rows, n - 1), rows, n - 1);
        assert InOrder(rows, n) == InOrder(rows, n - 1);
      }
    }
  }

  /** The slots of the rows from position `k` on. */
  ghost function SlotsFrom(live: seq<Stored>, k: nat): set<nat> {
    set j | k <= j < |live| :: live[j].slot
  }

  lemma SlotsFromStart(rows: map<nat, seq<Byte>>, n: nat)
    requires forall s :: s in rows ==> s < n
    ensures SlotsFrom(InOrder(rows, n), 0) == rows.Keys
  {
    InOrderLists(rows, n);
    var live := InOrder(rows, n);
    forall s | s in SlotsFrom(live, 0) ensures s in rows {
      var j :| 0 <= j < |live| && live[j].slot == s;
      assert ListedAt(live, rows, n, j);
    }
  }

  lemma SlotsFromStep(rows: map<nat, seq<Byte>>, n: nat, k: nat)
    requires k < |InOrder(rows, n)|
    ensures var (live, s) := (InOrder(rows, n), InOrder(rows, n)[k].slot);
            && s in rows && rows[s] == live[k].row && s < n
            && s in SlotsFrom(live, k) && SlotsFrom(live, k + 1) == SlotsFrom(live, k) - {s}
            && rows - SlotsFrom(live, k + 1) == (rows - SlotsFrom(live, k))[s := rows[s]]
  {
    InOrderLists(rows, n);
    var live := InOrder(rows, n);
    var s := live[k].slot;
    assert ListedAt(live, rows, n, k);
    forall x | x in SlotsFrom(live, k) - {s} ensures x in SlotsFrom(live, k + 1) {
      var j :| k <= j < |live| && live[j].slot == x;
      assert j != k;
    }
  }

  /** The directories agree on which slots are live and how long their rows are. */
  ghost predicate SameRows(a: seq<Slot>, b: seq<Slot>) {
    |a| == |b| && forall s :: 0 <= s < |a| ==> a[s].len == b[s].len && (a[s].Live() <==> b[s].Live())
  }

  /** A page with its directory's size but no rows. */
  ghost function Emptied(l: Layout): Layout {
    Layout(seq(|l.slots|, _ => Slot(0, 0)), [], PAGE_SIZE, PAGE_SIZE, None, [])
  }

  lemma SameTombstone(a: seq<Slot>, b: seq<Slot>, tombstone: Option<nat>)
    requires SameRows(a, b) && GivenSlot(a, tombstone)
    ensures GivenSlot(b, tombstone) && SlotFor(b, tombstone) == SlotFor(a, tombstone)
  {
  }

  lemma {:induction false} EmptySum(n: nat)
    ensures LiveSum(seq(n, _ => Slot(0, 0))) == 0
  {
    if n > 0 {
      EmptySum(n - 1);
      assert seq(n, _ => Slot(0, 0))[..n - 1] == seq(n - 1, _ => Slot(0, 0));
    }
  }

  lemma EmptiedOk(l: Layout, b: seq<Byte>, b': seq<Byte>)
    requires LayoutOk(l) && Encodes(b, l) && SameOutside(b, b', 4, 8) && U16(b', 4) == PAGE_SIZE
             && U16(b', 6) == NO_BLOCK
    ensures LayoutOk(Emptied(l)) && Rows(b', Emptied(l)) == map[]
    ensures EncodesBut(b', Emptied(l), set s: nat | s < |l.slots| && l.slots[s].Live())
  {
    EmptySum(|l.slots|);
    var l' := Emptied(l);
    forall s | 0 <= s < |l'.slots| && !l.slots[s].Live() ensures SlotEncoded(b', l'.slots, s) {
      assert SlotEncoded(b, l.slots, s);
    }
  }

  lemma PlacedOk(b: seq<Byte>, mid: seq<Byte>, b': seq<Byte>, l: Layout, s: nat, off: nat, row: seq<Byte>,
                 pending: set<nat>)
    returns (l': Layout)
    requires LayoutOk(l) && EncodesBut(b, l, pending) && l.held == None && l.base == l.freeEnd && l.free == []
    requires s < |l.slots| && !l.slots[s].Live() && FreeStart(l) + Alloc(|row|) <= l.base
             && off == l.base - Alloc(|row|)
    requires PutsRow(b, mid, |l.slots|, s, off, row) && SameOutside(mid, b', 4, 6) && U16(b', 4) == off
    ensures LayoutOk(l') && EncodesBut(b', l', pending - {s})
    ensures l'.held == None && l'.base == l'.freeEnd && l'.free == []
    ensures l'.slots == l.slots[s := Slot(off, |row|)]
    ensures Rows(b', l') == Rows(b, l)[s := row]
  {
    TakeBelowOk(l, Alloc(|row|));
    var held := TakeBelow(l, Alloc(|row|));
    var i := HeldIndex(held);
    HeldPlace(held, s, off, |row|);
    AssignOk(held, i, s, |row|);
    var placed := Assign(held, i, s, |row|);
    PutRowEncodes(b, mid, held, placed, s, off, row, pending);
    PutRowRows(b, mid, held, placed, s, off, row);
    MovedEndOk(placed, mid, b', pending - {s});
    l' := placed.(freeEnd := placed.base);
  }

  /** A slot whose row is placed again, or still pending. */
  ghost predicate PackAt(was: Slot, cur: Slot, rest: Slot) {
    || (rest == Slot(0, 0) && cur.len == was.len && (cur.Live() <==> was.Live()))
    || (cur == Slot(0, 0) && rest == was && was.Live())
  }

  /** The directory part of the way through compaction. */
  ghost predicate Packing(was: seq<Slot>, cur: seq<Slot>, rest: seq<Slot>) {
    && |cur| == |was| == |rest|
    && (forall s :: 0 <= s < |was| ==> PackAt(was[s], cur[s], rest[s]))
    && LiveSum(cur) + LiveSum(rest) == LiveSum(was)
  }

  /** Which slots a settled page's rows belong to. */
  lemma RowsDomain(b: seq<Byte>, l: Layout)
    requires LayoutOk(l) && Encodes(b, l)
    ensures forall s: nat :: s in Rows(b, l) <==> s < |l.slots| && l.slots[s].Live()
    ensures forall s: nat :: s in Rows(b, l) ==> |Rows(b, l)[s]| == l.slots[s].len
    ensures forall s :: 0 <= s < |l.slots| ==> l.slots[s].len <= 0xFFFF
  {
    forall s: nat | s < |l.slots| && l.slots[s].Live() ensures l.slots[s].off + l.slots[s].len <= PAGE_SIZE {
      RowBounds(l, s);
    }
  }

  lemma PackStart(l: Layout)
    ensures Packing(l.slots, Emptied(l).slots, l.slots)
  {
    EmptySum(|l.slots|);
  }

  /** There is room for the next pending row, and placing it is a step. */
  lemma PackStep(was: seq<Slot>, l: Layout, rest: seq<Slot>, s: nat)
    requires LayoutOk(l) && l.held == None && l.free == [] && Packing(was, l.slots, rest)
    requires s < |was| && rest[s].Live() && FreeStart(l) + LiveSum(was) <= PAGE_SIZE
    ensures !l.slots[s].Live() && rest[s] == was[s] && FreeStart(l) + Alloc(was[s].len) <= l.base
  {
    assert PackAt(was[s], l.slots[s], rest[s]);
    LiveSumUpdate(rest, s, Slot(0, 0));
  }

  lemma PackNext(was: seq<Slot>, cur: seq<Slot>, rest: seq<Slot>, s: nat, off: nat)
    requires Packing(was, cur, rest) && s < |was| && rest[s].Live() && off > 0
    ensures Packing(was, cur[s := Slot(off, was[s].len)], rest[s := Slot(0, 0)])
  {
    assert PackAt(was[s], cur[s], rest[s]);
    LiveSumUpdate(rest, s, Slot(0, 0));
    LiveSumUpdate(cur, s, Slot(off, was[s].len));
    var cur', rest' := cur[s := Slot(off, was[s].len)], rest[s := Slot(0, 0)];
    forall x | 0 <= x < |was| ensures PackAt(was[x], cur'[x], rest'[x]) {
      assert PackAt(was[x], cur[x], rest[x]);
    }
  }

  lemma PackDone(was: seq<Slot>, cur: seq<Slot>, rest: seq<Slot>)
    requires Packing(was, cur, rest) && forall s :: 0 <= s < |rest| ==> !rest[s].Live()
    ensures SameRows(was, cur) && LiveSum(cur) == LiveSum(was)
  {
    EmptySum(|rest|);
    assert rest == seq(|rest|, _ => Slot(0, 0));
    forall s | 0 <= s < |was| ensures was[s].len == cur[s].len && (was[s].Live() <==> cur[s].Live()) {
      assert PackAt(was[s], cur[s], rest[s]);
    }
  }

  /** The state of compaction: the rows still pending are gone from the page, all
      others are stored as before, and what is free is one stretch. */
  ghost predicate Packed(b: seq<Byte>, l: Layout, was: seq<Slot>, rest: seq<Slot>, rows: map<nat, seq<Byte>>,
                         pending: set<nat>) {
    && LayoutOk(l) && EncodesBut(b, l, pending) && l.held == None && l.base == l.freeEnd && l.free == []
    && Packing(was, l.slots, rest)
    && (forall s: nat :: s in pending <==> s < |rest| && rest[s].Live())
    && Rows(b, l) == rows - pending
  }

  lemma CompactStart(l: Layout, b: seq<Byte>, b': seq<Byte>)
    requires LayoutOk(l) && Encodes(b, l) && SameOutside(b, b', 4, 8) && U16(b', 4) == PAGE_SIZE
             && U16(b', 6) == NO_BLOCK
    ensures var live := InOrder(Rows(b, l), |l.slots|);
            Packed(b', Emptied(l), l.slots, l.slots, Rows(b, l), SlotsFrom(live, 0))
  {
    EmptiedOk(l, b, b');
    PackStart(l);
    RowsDomain(b, l);
    SlotsFromStart(Rows(b, l), |l.slots|);
    assert Rows(b, l).Keys == set s: nat | s < |l.slots| && l.slots[s].Live();
    assert Rows(b, l) - Rows(b, l).Keys == map[];
  }

  lemma CompactRoom(l0: Layout, b0: seq<Byte>, l: Layout, b: seq<Byte>, rest: seq<Slot>, pending: set<nat>, s: nat)
    requires LayoutOk(l0) && Encodes(b0, l0) && Packed(b, l, l0.slots, rest, Rows(b0, l0), pending) && s in pending
    ensures LayoutOk(l) && EncodesBut(b, l, pending) && l.held == None && l.base == l.freeEnd && l.free == []
    ensures s < |l.slots| == |l0.slots| && !l.slots[s].Live() && s in Rows(b0, l0)
    ensures |Rows(b0, l0)[s]| == l0.slots[s].len <= 0xFFFF
    ensures FreeStart(l) + Alloc(|Rows(b0, l0)[s]|) <= l.base
  {
    RowsDomain(b0, l0);
    assert PackAt(l0.slots[s], l.slots[s], rest[s]);
    PackStep(l0.slots, l, rest, s);
  }

  lemma CompactNext(b: seq<Byte>, l: Layout, b': seq<Byte>, l': Layout, was: seq<Slot>, rest: seq<Slot>,
                    rows: map<nat, seq<Byte>>, pending: set<nat>, s: nat, row: seq<Byte>, pending': set<nat>)
    requires Packed(b, l, was, rest, rows, pending) && s in pending && pending' == pending - {s}
    requires s < |was| && |row| == was[s].len && Alloc(|row|) < l.base
    requires LayoutOk(l') && EncodesBut(b', l', pending - {s}) && l'.held == None && l'.base == l'.freeEnd
             && l'.free == []
    requires l'.slots == l.slots[s := Slot(l.base - Alloc(|row|), |row|)]
    requires Rows(b', l') == Rows(b, l)[s := row] && rows - pending' == (rows - pending)[s := row]
    ensures Packed(b', l', was, rest[s := Slot(0, 0)], rows, pending')
  {
    PackNext(was, l.slots, rest, s, l.base - Alloc(was[s].len));
  }

  /** The next saved row can be placed ... */
  lemma NextFits(l0: Layout, b0: seq<Byte>, l: Layout, b: seq<Byte>, rest: seq<Slot>, k: nat)
    requires LayoutOk(l0) && Encodes(b0, l0) && k < |InOrder(Rows(b0, l0), |l0.slots|)|
    requires Packed(b, l, l0.slots, rest, Rows(b0, l0), SlotsFrom(InOrder(Rows(b0, l0), |l0.slots|), k))
    ensures var live := InOrder(Rows(b0, l0), |l0.slots|);
            && LayoutOk(l) && EncodesBut(b, l, SlotsFrom(live, k)) && l.held == None && l.base == l.freeEnd
                && l.free == []
            && live[k].slot < |l.slots| && !l.slots[live[k].slot].Live()
            && |live[k].row| <= 0xFFFF && FreeStart(l) + Alloc(|live[k].row|) <= l.base
  {
    var live := InOrder(Rows(b0, l0), |l0.slots|);
    SlotsFromStep(Rows(b0, l0), |l0.slots|, k);
    CompactRoom(l0, b0, l, b, rest, SlotsFrom(live, k), live[k].slot);
  }

  /** ... and then one row less is pending. */
  lemma NextPlaced(l0: Layout, b0: seq<Byte>, l: Layout, b: seq<Byte>, l': Layout, b': seq<Byte>, rest: seq<Slot>,
                   k: nat)
    requires LayoutOk(l0) && Encodes(b0, l0) && k < |InOrder(Rows(b0, l0), |l0.slots|)|
    requires Packed(b, l, l0.slots, rest, Rows(b0, l0), SlotsFrom(InOrder(Rows(b0, l0), |l0.slots|), k))
    requires var live := InOrder(Rows(b0, l0), |l0.slots|);
             && LayoutOk(l') && EncodesBut(b', l', SlotsFrom(live, k) - {live[k].slot})
             && l'.held == None && l'.base == l'.freeEnd && l'.free == []
             && live[k].slot < |l.slots| && Alloc(|live[k].row|) < l.base
             && l'.slots == l.slots[live[k].slot := Slot(l.base - Alloc(|live[k].row|), |live[k].row|)]
             && Rows(b', l') == Rows(b, l)[live[k].slot := live[k].row]
    ensures var live := InOrder(Rows(b0, l0), |l0.slots|);
            && live[k].slot < |rest|
            && Packed(b', l', l0.slots, rest[live[k].slot := Slot(0, 0)], Rows(b0, l0), SlotsFrom(live, k + 1))
  {
    var live := InOrder(Rows(b0, l0), |l0.slots|);
    SlotsFromStep(Rows(b0, l0), |l0.slots|, k);
    CompactRoom(l0, b0, l, b, rest, SlotsFrom(live, k), live[k].slot);
    CompactNext(b, l, b', l', l0.slots, rest, Rows(b0, l0), SlotsFrom(live, k), live[k].slot, live[k].row,
                SlotsFrom(live, k + 1));
  }

  lemma CompactDone(b: seq<Byte>, l: Layout, was: seq<Slot>, rest: seq<Slot>, rows: map<nat, seq<Byte>>)
    requires Packed(b, l, was, rest, rows, {})
    ensures SameRows(was, l.slots) && LiveSum(l.slots) == LiveSum(was) && Rows(b, l) == rows && Encodes(b, l)
    ensures l.freeEnd - FreeStart(l) == PAGE_SIZE - FreeStart(l) - LiveSum(was)
  {
    forall s | 0 <= s < |rest| ensures !rest[s].Live() {
      var x: nat := s;
      assert x !in {};
    }
    PackDone(was, l.slots, rest);
    assert rows - {} == rows;
  }
}
