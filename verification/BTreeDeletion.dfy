/** What rewriting a leaf and merging it change about the answers of a tree, for
    every tree: duplicate keys may stand on both sides of a split. */
module BTreeDeletion {
  import opened Wrappers
  import opened Keys
  import opened BTreeModel
  import opened BTreeNodes
  import opened BTreeWalk

  // ---------- walks and unchanged pages ----------

  /** A walk only depends on pages from its start on. */
  lemma {:induction false} WalkAhead(pages: seq<Node>, pages': seq<Node>, t: KeyType, info: map<PageId, Info>,
                                     cut: real,
                                     p: PageId, k: Key)
    requires Linked(pages, t, info) && Linked(pages', t, info) && p in info && info[p].pos > cut
    requires forall x :: x in info && info[x].pos > cut ==> x < |pages| && x < |pages'| && pages'[x] == pages[x]
    ensures Walk(pages', t, info, p, k) == Walk(pages, t, info, p, k)
    decreases Ahead(info, p)
  {
    assert PageOk(pages, t, info, p);
    if GoesOn(pages[p], k) {
      var q := pages[p].next.value;
      assert q in Ahead(info, p) && q !in Ahead(info, q);
      WalkAhead(pages, pages', t, info, cut, q, k);
    }
  }

  lemma {:induction false} ThroughRises(pages: seq<Node>, t: KeyType, info: map<PageId, Info>, p: PageId, k: Key,
                                        y: PageId)
    requires Linked(pages, t, info) && p in info && Through(pages, t, info, p, k, y)
    ensures y in info && (p == y || info[p].pos < info[y].pos)
    decreases Ahead(info, p)
  {
    assert PageOk(pages, t, info, p);
    if p != y {
      var q := pages[p].next.value;
      assert q in Ahead(info, p) && q !in Ahead(info, q);
      ThroughRises(pages, t, info, q, k, y);
    }
  }

  lemma RowsAtMerged(a: seq<Entry>, b: seq<Entry>, m: seq<Entry>, k: Key)
    requires multiset(m) == multiset(a) + multiset(b)
    ensures RowsAt(m, k) == RowsAt(a, k) + RowsAt(b, k)
    ensures NoGreater(m, k) <==> NoGreater(a, k) && NoGreater(b, k)
  {
    forall r ensures RowsAt(m, k)[r] == (RowsAt(a, k) + RowsAt(b, k))[r] {
      RowsAtCounts(m, k, r);
      RowsAtCounts(a, k, r);
      RowsAtCounts(b, k, r);
    }
    MergeMembers(a, b, m);
  }

  lemma RowsAtRemoved(es: seq<Entry>, x: int, k: Key)
    requires 0 <= x < |es|
    ensures RowsAt(es, k) == RowsAt(es[..x] + es[x + 1..], k) + if es[x].key == k then multiset{es[x].row}
            else multiset{}
  {
    forall r ensures RowsAt(es, k)[r]
                  == (RowsAt(es[..x] + es[x + 1..], k) + if es[x].key == k then multiset{es[x].row} else multiset{})[r]
    {
      RowsAtCounts(es, k, r);
      RowsAtCounts(es[..x] + es[x + 1..], k, r);
      RemovedCount(es, x, Entry(k, r));
    }
  }

  lemma NoRowsBelow(pages: seq<Node>, t: KeyType, info: map<PageId, Info>, p: PageId, k: Key)
    requires p in info && PageOk(pages, t, info, p) && Rank(k) < info[p].LoRank()
    ensures RowsAt(pages[p].entries, k) == multiset{}
  {
    forall r ensures RowsAt(pages[p].entries, k)[r] == 0 {
      RowsAtCounts(pages[p].entries, k, r);
      assert Entry(k, r) !in pages[p].entries;
    }
  }

  // ---------- rewriting a leaf without an entry ----------

  /** Page `p` is rewritten without entry `x` and without its link. */
  ghost predicate Rewrites(pages: seq<Node>, pages': seq<Node>, p: PageId, x: int) {
    && p < |pages| && pages[p].Leaf? && 0 <= x < |pages[p].entries|
    && pages' == pages[p := Leaf(pages[p].entries[..x] + pages[p].entries[x + 1..], None)]
  }

  /** Below the key of the removed entry every walk is as before: it used to
      stop at that entry's page. */
  lemma {:induction false} RewrittenWalk(pages: seq<Node>, pages': seq<Node>, t: KeyType, info: map<PageId, Info>,
                                         p: PageId, x: int, y: PageId, k: Key)
    requires Linked(pages, t, info) && Linked(pages', t, info) && Rewrites(pages, pages', p, x) && y in info
    requires Rank(k) < Rank(pages[p].entries[x].key)
    ensures Walk(pages', t, info, y, k) == Walk(pages, t, info, y, k)
    ensures forall z :: Through(pages', t, info, y, k, z) <==> Through(pages, t, info, y, k, z)
    decreases Ahead(info, y)
  {
    assert PageOk(pages, t, info, y) && PageOk(pages', t, info, y);
    if y == p {
      RowsAtRemoved(pages[p].entries, x, k);
      assert pages[p].entries[x] in pages[p].entries;
    } else if GoesOn(pages[y], k) {
      var q := pages[y].next.value;
      assert q in Ahead(info, y) && q !in Ahead(info, q);
      RewrittenWalk(pages, pages', t, info, p, x, q, k);
    }
  }

  /** The rows under the separator after a leaf that are found past it. */
  ghost function Hidden(pages: seq<Node>, t: KeyType, f: Flat, i: int): multiset<RowId>
    requires LeavesOk(pages, t, f) && 0 <= i < |f.leaves|
  {
    assert LiveOk(pages, f, i);
    if i < |f.seps| then Past(pages, t, f.info, f.leaves[i], f.seps[i]) else multiset{}
  }

  /** A leaf's link leads to no other key of its range. */
  lemma PastInRange(pages: seq<Node>, t: KeyType, f: Flat, i: int, k: Key)
    requires LeavesOk(pages, t, f) && 0 <= i < |f.leaves| && k.Type() == t && InRange(f.seps, i, k)
    ensures Past(pages, t, f.info, f.leaves[i], k)
         == if i < |f.seps| && k == f.seps[i] then Hidden(pages, t, f, i) else multiset{}
  {
    assert LiveOk(pages, f, i);
    RankInjective(t);
    if GoesOn(pages[f.leaves[i]], k) && k != f.seps[i] {
      assert PageOk(pages, t, f.info, f.leaves[i]);
      WalkBelow(pages, t, f.info, pages[f.leaves[i]].next.value, k);
    }
  }

  lemma RewriteOk(pages: seq<Node>, pages': seq<Node>, t: KeyType, f: Flat, i: int, x: int)
    requires LeavesOk(pages, t, f) && AllFiled(pages, f.info) && 0 <= i < |f.leaves|
    requires Rewrites(pages, pages', f.leaves[i], x) && InRange(f.seps, i, pages[f.leaves[i]].entries[x].key)
    ensures LeavesOk(pages', t, f) && AllFiled(pages', f.info)
  {
    var es := pages[f.leaves[i]].entries;
    ShrinkOk(pages, t, f, i, es[..x] + es[x + 1..]);
    assert LiveOk(pages, f, i);
    forall q | q in f.info ensures q < |pages'| && pages'[q].Leaf? && Filed(pages', f.info, q) {
      assert PageOk(pages, t, f.info, q);
      RemoveFiled(pages, t, f, i, x, q);
    }
  }

  /** What the rewriting takes away: the entry, and the rows that were hidden
      behind the link. */
  lemma RewriteFound(pages: seq<Node>, pages': seq<Node>, t: KeyType, f: Flat, i: int, x: int, k: Key)
    requires LeavesOk(pages, t, f) && AllFiled(pages, f.info) && 0 <= i < |f.leaves| && k.Type() == t
    requires LeavesOk(pages', t, f) && AllFiled(pages', f.info)
    requires Rewrites(pages, pages', f.leaves[i], x) && InRange(f.seps, i, pages[f.leaves[i]].entries[x].key)
    ensures var e := pages[f.leaves[i]].entries[x];
            Found(pages, t, f, k)
            == Found(pages', t, f, k) + (if k == e.key then multiset{e.row} else multiset{})
               + (if i < |f.seps| && k == f.seps[i] then Hidden(pages, t, f, i) else multiset{})
  {
    var j := RouteIndex(f.seps, k);
    var p := f.leaves[i];
    assert InRange(f.seps, j, k);
    if j == i {
      PastInRange(pages, t, f, i, k);
      RowsAtRemoved(pages[p].entries, x, k);
    } else {
      RangesAreDisjoint(f.seps, t, i, j, pages[p].entries[x].key, k);
      NotItsSeparator(f, t, i, j, pages[p].entries[x].key, k);
      assert f.leaves[j] != p;
      forall r ensures Found(pages, t, f, k)[r] == Found(pages', t, f, k)[r] {
        FoundIsHere(pages, t, f, j, k, r);
        FoundIsHere(pages', t, f, j, k, r);
      }
    }
  }

  /** The separator after a leaf with a key in its range belongs to the leaf. */
  lemma NotItsSeparator(f: Flat, t: KeyType, i: int, j: int, a: Key, k: Key)
    requires SepsSorted(f.seps, t) && 0 <= i <= |f.seps| && 0 <= j <= |f.seps| && i != j
    requires InRange(f.seps, i, a) && InRange(f.seps, j, k)
    ensures i < |f.seps| ==> k != f.seps[i]
  {
    assert j < i ==> Rank(f.seps[j]) <= Rank(f.seps[i - 1]);
    assert i < j ==> Rank(f.seps[i]) <= Rank(f.seps[j - 1]);
  }

  // ---------- merging two neighbours ----------

  /** Below the separator between the two leaves nothing changes. */
  lemma {:induction false} MergedBelow(pages: seq<Node>, pages': seq<Node>, t: KeyType, f: Flat, m: int, es: seq<Entry>,
                                       y: PageId, k: Key)
    requires LeavesOk(pages, t, f) && Linked(pages', t, f.info) && 0 <= m < |f.seps|
             && MergeWrites(pages, pages', f, m, es)
    requires y in f.info && Rank(k) < Rank(f.seps[m])
    ensures Walk(pages', t, f.info, y, k) == Walk(pages, t, f.info, y, k)
    decreases Ahead(f.info, y)
  {
    var l, q := f.leaves[m], f.leaves[m + 1];
    assert LiveOk(pages, f, m) && LiveOk(pages, f, m + 1);
    assert PageOk(pages, t, f.info, y) && PageOk(pages', t, f.info, y) && PageOk(pages, t, f.info, q);
    if y == q {
      WalkBelow(pages, t, f.info, q, k);
    } else if y == l {
      RowsAtMerged(pages[l].entries, pages[q].entries, es, k);
      NoRowsBelow(pages, t, f.info, q, k);
      if GoesOn(pages[l], k) {
        WalkBelow(pages, t, f.info, pages[l].next.value, k);
      }
      if GoesOn(pages'[l], k) {
        WalkBelow(pages', t, f.info, pages'[l].next.value, k);
      }
    } else if GoesOn(pages[y], k) {
      var z := pages[y].next.value;
      assert z in Ahead(f.info, y) && z !in Ahead(f.info, z);
      MergedBelow(pages, pages', t, f, m, es, z, k);
    }
  }

  /** From its separator on, the merged leaf answers as the right one did. */
  lemma MergedLeaf(pages: seq<Node>, pages': seq<Node>, t: KeyType, f: Flat, m: int, es: seq<Entry>, k: Key)
    requires LeavesOk(pages, t, f) && Linked(pages', t, f.info) && 0 <= m < |f.seps|
             && MergeWrites(pages, pages', f, m, es)
    requires Rank(f.seps[m]) <= Rank(k)
    ensures f.leaves[m] in f.info && f.leaves[m + 1] in f.info && f.leaves[m] < |pages| && pages[f.leaves[m]].Leaf?
    ensures Walk(pages', t, f.info, f.leaves[m], k)
         == RowsAt(pages[f.leaves[m]].entries, k) + Walk(pages, t, f.info, f.leaves[m + 1], k)
  {
    var l, q := f.leaves[m], f.leaves[m + 1];
    assert LiveOk(pages, f, m) && LiveOk(pages, f, m + 1);
    assert PageOk(pages, t, f.info, q) && PageOk(pages', t, f.info, l);
    RowsAtMerged(pages[l].entries, pages[q].entries, es, k);
    assert NoGreater(pages[l].entries, k);
    if GoesOn(pages[q], k) {
      WalkAhead(pages, pages', t, f.info, f.info[q].pos, pages[q].next.value, k);
    }
  }

  /** How a walk changes, when it first comes to the left of two merged pages,
      to the right one, or to neither. */
  ghost predicate Shifted(left: bool, right: bool, was: multiset<RowId>, now: multiset<RowId>,
                          past: multiset<RowId>, whole: multiset<RowId>) {
    if left then now + past == was + whole else if right then now + whole == was else now == was
  }

  lemma ShiftedMore(left: bool, right: bool, was: multiset<RowId>, now: multiset<RowId>, past: multiset<RowId>,
                    whole: multiset<RowId>, a: multiset<RowId>)
    requires Shifted(left, right, was, now, past, whole)
    ensures Shifted(left, right, a + was, a + now, past, whole)
  {
    assert a + now + past == a + (now + past) && a + was + whole == a + (was + whole);
    assert a + now + whole == a + (now + whole);
  }

  ghost predicate MergeShifts(pages: seq<Node>, pages': seq<Node>, t: KeyType, info: map<PageId, Info>, l: PageId,
                              q: PageId,
                              y: PageId, s: Key)
    requires Linked(pages, t, info) && Linked(pages', t, info) && l in info && q in info && y in info
  {
    Shifted(Through(pages, t, info, y, s, l), Through(pages, t, info, y, s, q), Walk(pages, t, info, y, s),
            Walk(pages', t, info, y, s), Past(pages, t, info, l, s), Walk(pages, t, info, q, s))
  }

  lemma MergeShiftsStep(pages: seq<Node>, pages': seq<Node>, t: KeyType, info: map<PageId, Info>, l: PageId, q: PageId,
                        y: PageId, s: Key)
    requires Linked(pages, t, info) && Linked(pages', t, info) && l in info && q in info && y in info
    requires y != l && y != q && y < |pages| && y < |pages'| && pages'[y] == pages[y]
    requires GoesOn(pages[y], s) ==> pages[y].next.value in info
    requires GoesOn(pages[y], s) ==> MergeShifts(pages, pages', t, info, l, q, pages[y].next.value, s)
    ensures MergeShifts(pages, pages', t, info, l, q, y, s)
  {
    if GoesOn(pages[y], s) {
      var z := pages[y].next.value;
      ShiftedMore(Through(pages, t, info, z, s, l), Through(pages, t, info, z, s, q), Walk(pages, t, info, z, s),
                  Walk(pages', t, info, z, s), Past(pages, t, info, l, s), Walk(pages, t, info, q, s),
                  RowsAt(pages[y].entries, s));
    }
  }

  lemma MergeShiftsHere(pages: seq<Node>, pages': seq<Node>, t: KeyType, f: Flat, m: int, es: seq<Entry>)
    requires LeavesOk(pages, t, f) && Linked(pages', t, f.info) && 0 <= m < |f.seps|
             && MergeWrites(pages, pages', f, m, es)
    ensures f.leaves[m] in f.info && f.leaves[m + 1] in f.info
    ensures MergeShifts(pages, pages', t, f.info, f.leaves[m], f.leaves[m + 1], f.leaves[m], f.seps[m])
    ensures MergeShifts(pages, pages', t, f.info, f.leaves[m], f.leaves[m + 1], f.leaves[m + 1], f.seps[m])
  {
    var l, q, s := f.leaves[m], f.leaves[m + 1], f.seps[m];
    assert LiveOk(pages, f, m) && LiveOk(pages, f, m + 1);
    MergedLeaf(pages, pages', t, f, m, es, s);
    WalkSplits(pages, t, f.info, l, s);
    var rows, past, whole := RowsAt(pages[l].entries, s), Past(pages, t, f.info, l, s), Walk(pages, t, f.info, q, s);
    assert (rows + whole) + past == (rows + past) + whole;
    if Through(pages, t, f.info, q, s, l) {
      ThroughRises(pages, t, f.info, q, s, l);
      assert false;
    }
    assert Walk(pages', t, f.info, q, s) == multiset{};
  }

  lemma WalkSplits(pages: seq<Node>, t: KeyType, info: map<PageId, Info>, p: PageId, k: Key)
    requires Linked(pages, t, info) && p in info
    ensures p < |pages| && pages[p].Leaf?
    ensures Walk(pages, t, info, p, k) == RowsAt(pages[p].entries, k) + Past(pages, t, info, p, k)
  {
    assert PageOk(pages, t, info, p);
  }

  /** Under the separator itself, what changes depends on which of the two
      pages the walk comes to first. */
  lemma {:induction false} MergedAt(pages: seq<Node>, pages': seq<Node>, t: KeyType, f: Flat, m: int, es: seq<Entry>,
                                    y: PageId)
    requires LeavesOk(pages, t, f) && Linked(pages', t, f.info) && 0 <= m < |f.seps|
             && MergeWrites(pages, pages', f, m, es)
    requires y in f.info
    ensures f.leaves[m] in f.info && f.leaves[m + 1] in f.info
    ensures MergeShifts(pages, pages', t, f.info, f.leaves[m], f.leaves[m + 1], y, f.seps[m])
    decreases Ahead(f.info, y)
  {
    hide MergeShifts;
    var l, q, s := f.leaves[m], f.leaves[m + 1], f.seps[m];
    MergeShiftsHere(pages, pages', t, f, m, es);
    if y != l && y != q {
      assert PageOk(pages, t, f.info, y);
      if GoesOn(pages[y], s) {
        var z := pages[y].next.value;
        assert z in Ahead(f.info, y) && z !in Ahead(f.info, z);
        MergedAt(pages, pages', t, f, m, es, z);
      }
      MergeShiftsStep(pages, pages', t, f.info, l, q, y, s);
    }
  }

  lemma RouteWithout(seps: seq<Key>, t: KeyType, m: int, k: Key, j: int)
    requires 0 <= m < |seps| && SepsSorted(seps, t) && IsRoute(seps, k, j)
    ensures IsRoute(seps[..m] + seps[m + 1..], k, if j <= m then j else j - 1)
  {
    hide Rank;
    var less := seps[..m] + seps[m + 1..];
    forall x | 0 <= x < |less| ensures less[x] == seps[if x < m then x else x + 1] {
    }
    if j == m && m + 1 < |seps| {
      assert Rank(seps[m]) <= Rank(seps[m + 1]);
    }
  }

  /** Where a key is looked up after the merge. */
  lemma MergedRoute(f: Flat, t: KeyType, m: int, k: Key)
    requires 0 <= m < |f.seps| && |f.leaves| == |f.seps| + 1 && SepsSorted(f.seps, t)
    ensures var j := RouteIndex(f.seps, k);
            var f' := MergeFlat(f, m);
            && RouteIndex(f'.seps, k) == (if j <= m then j else j - 1)
            && f'.leaves[RouteIndex(f'.seps, k)] == if j == m + 1 then f.leaves[m] else f.leaves[j]
  {
    hide Rank;
    var j := RouteIndex(f.seps, k);
    RouteWithout(f.seps, t, m, k, j);
    RouteIndexUnique(MergeFlat(f, m).seps, k, if j <= m then j else j - 1);
  }

  lemma MergeFoundBelow(pages: seq<Node>, pages': seq<Node>, t: KeyType, f: Flat, m: int, es: seq<Entry>, k: Key)
    requires LeavesOk(pages, t, f) && 0 <= m < |f.seps| && MergeWrites(pages, pages', f, m, es)
    requires LeavesOk(pages', t, MergeFlat(f, m)) && Rank(k) < Rank(f.seps[m])
    ensures Found(pages', t, MergeFlat(f, m), k) == Found(pages, t, f, k)
  {
    var j := RouteIndex(f.seps, k);
    MergedRoute(f, t, m, k);
    assert LiveOk(pages, f, j);
    hide LeavesOk, MergeWrites, MergeFlat;
    assert j <= m;
    MergedLinked(pages, pages', t, f, m);
    MergedBelow(pages, pages', t, f, m, es, f.leaves[j], k);
  }

  lemma MergedLinked(pages: seq<Node>, pages': seq<Node>, t: KeyType, f: Flat, m: int)
    requires 0 <= m < |f.seps| && |f.leaves| == |f.seps| + 1 && LeavesOk(pages', t, MergeFlat(f, m))
    ensures Linked(pages', t, f.info) && MergeFlat(f, m).info == f.info
  {
  }

  lemma MergeFoundRight(pages: seq<Node>, pages': seq<Node>, t: KeyType, f: Flat, m: int, es: seq<Entry>, k: Key)
    requires LeavesOk(pages, t, f) && 0 <= m < |f.seps| && MergeWrites(pages, pages', f, m, es)
    requires Linked(pages', t, f.info) && Rank(f.seps[m]) < Rank(k)
    ensures f.leaves[m] in f.info && f.leaves[m + 1] in f.info
    ensures Walk(pages', t, f.info, f.leaves[m], k) == Walk(pages, t, f.info, f.leaves[m + 1], k)
  {
    assert LiveOk(pages, f, m) && LiveOk(pages, f, m + 1);
    MergedLeaf(pages, pages', t, f, m, es, k);
    NoRowsAbove(pages, f, m, k);
  }

  lemma MergeFoundBeyond(pages: seq<Node>, pages': seq<Node>, t: KeyType, f: Flat, m: int, es: seq<Entry>, j: int,
                         k: Key)
    requires LeavesOk(pages, t, f) && 0 <= m < |f.seps| && MergeWrites(pages, pages', f, m, es)
    requires Linked(pages', t, f.info) && m + 1 < j < |f.leaves|
    ensures f.leaves[j] in f.info
    ensures Walk(pages', t, f.info, f.leaves[j], k) == Walk(pages, t, f.info, f.leaves[j], k)
  {
    assert LiveOk(pages, f, j) && LiveOk(pages, f, m) && LiveOk(pages, f, m + 1);
    WalkAhead(pages, pages', t, f.info, f.info[f.leaves[m + 1]].pos, f.leaves[j], k);
  }

  lemma MergeFoundAbove(pages: seq<Node>, pages': seq<Node>, t: KeyType, f: Flat, m: int, es: seq<Entry>, k: Key)
    requires LeavesOk(pages, t, f) && 0 <= m < |f.seps| && MergeWrites(pages, pages', f, m, es)
    requires LeavesOk(pages', t, MergeFlat(f, m)) && Rank(f.seps[m]) < Rank(k)
    ensures Found(pages', t, MergeFlat(f, m), k) == Found(pages, t, f, k)
  {
    var j := RouteIndex(f.seps, k);
    MergedRoute(f, t, m, k);
    MergedLinked(pages, pages', t, f, m);
    hide MergeWrites, MergeFlat;
    AboveSeparator(f, t, m, k);
    if j == m + 1 {
      MergeFoundRight(pages, pages', t, f, m, es, k);
    } else {
      MergeFoundBeyond(pages, pages', t, f, m, es, j, k);
    }
  }

  /** A merge changes no answer but, at most, that for the separator it removes. */
  lemma MergeFound(pages: seq<Node>, pages': seq<Node>, t: KeyType, f: Flat, m: int, es: seq<Entry>, k: Key)
    requires LeavesOk(pages, t, f) && 0 <= m < |f.seps| && MergeWrites(pages, pages', f, m, es)
    requires LeavesOk(pages', t, MergeFlat(f, m)) && k.Type() == t && k != f.seps[m]
    ensures Found(pages', t, MergeFlat(f, m), k) == Found(pages, t, f, k)
  {
    RankInjective(t);
    assert f.seps[m].Type() == t;
    hide LeavesOk, MergeWrites, MergeFlat, Found;
    if Rank(k) < Rank(f.seps[m]) {
      MergeFoundBelow(pages, pages', t, f, m, es, k);
    } else {
      MergeFoundAbove(pages, pages', t, f, m, es, k);
    }
  }

  lemma AboveSeparator(f: Flat, t: KeyType, m: int, k: Key)
    requires 0 <= m < |f.seps| && SepsSorted(f.seps, t) && Rank(f.seps[m]) < Rank(k)
    ensures RouteIndex(f.seps, k) >= m + 1
  {
    assert IsRoute(f.seps, k, RouteIndex(f.seps, k));
    assert forall x :: 0 <= x <= m ==> Rank(f.seps[x]) <= Rank(f.seps[m]);
  }

  lemma NoRowsAbove(pages: seq<Node>, f: Flat, m: int, k: Key)
    requires |f.leaves| == |f.seps| + 1 && 0 <= m < |f.seps| && LiveOk(pages, f, m) && Rank(f.seps[m]) < Rank(k)
    ensures RowsAt(pages[f.leaves[m]].entries, k) == multiset{}
  {
    forall r ensures RowsAt(pages[f.leaves[m]].entries, k)[r] == 0 {
      RowsAtCounts(pages[f.leaves[m]].entries, k, r);
      assert Entry(k, r) !in pages[f.leaves[m]].entries;
    }
  }

  /** When it does not change that one either: the first of the two leaves that
      the search for the separator comes to must lead to the same rows. */
  ghost predicate MergeKeeps(pages: seq<Node>, t: KeyType, f: Flat, m: int)
    requires LeavesOk(pages, t, f) && 0 <= m < |f.seps|
  {
    var l, q, s := f.leaves[m], f.leaves[m + 1], f.seps[m];
    var start := f.leaves[RouteIndex(f.seps, s)];
    if Through(pages, t, f.info, start, s, l) then Past(pages, t, f.info, l, s) == Walk(pages, t, f.info, q, s)
    else Through(pages, t, f.info, start, s, q) ==> Walk(pages, t, f.info, q, s) == multiset{}
  }

  lemma MergeFoundAt(pages: seq<Node>, pages': seq<Node>, t: KeyType, f: Flat, m: int, es: seq<Entry>)
    requires LeavesOk(pages, t, f) && 0 <= m < |f.seps| && MergeWrites(pages, pages', f, m, es)
    requires LeavesOk(pages', t, MergeFlat(f, m))
    ensures Found(pages', t, MergeFlat(f, m), f.seps[m]) == Found(pages, t, f, f.seps[m]) <==>
              MergeKeeps(pages, t, f, m)
  {
    var s := f.seps[m];
    var j := RouteIndex(f.seps, s);
    MergedRoute(f, t, m, s);
    SeparatorRoute(f, t, m);
    assert LiveOk(pages, f, j);
    MergedAt(pages, pages', t, f, m, es, f.leaves[j]);
    Cancel(Walk(pages', t, f.info, f.leaves[j], s), Walk(pages, t, f.info, f.leaves[j], s),
           Past(pages, t, f.info, f.leaves[m], s), Walk(pages, t, f.info, f.leaves[m + 1], s));
  }

  /** A separator is looked up at or before the leaf it ends. */
  lemma SeparatorRoute(f: Flat, t: KeyType, m: int)
    requires 0 <= m < |f.seps| && SepsSorted(f.seps, t)
    ensures RouteIndex(f.seps, f.seps[m]) <= m
  {
    assert IsRoute(f.seps, f.seps[m], RouteIndex(f.seps, f.seps[m]));
  }

  lemma Cancel<T>(now: multiset<T>, was: multiset<T>, a: multiset<T>, b: multiset<T>)
    ensures now + a == was + b ==> (now == was <==> a == b)
    ensures now + b == was ==> (now == was <==> b == multiset{})
  {
    if now + a == was + b {
      assert forall x :: now[x] + a[x] == was[x] + b[x] by {
        forall x ensures now[x] + a[x] == was[x] + b[x] {
          assert (now + a)[x] == (was + b)[x];
        }
      }
    }
    if now + b == was {
      forall x ensures now[x] + b[x] == was[x] {
        assert (now + b)[x] == was[x];
      }
    }
  }

  // ---------- when a deletion is exact ----------

  /** Every key but `s` is answered exactly. */
  ghost predicate ExactBut(pages: seq<Node>, t: KeyType, f: Flat, c: multiset<Entry>, s: Key)
    requires LeavesOk(pages, t, f)
  {
    && (forall e :: e in c ==> e.key.Type() == t)
    && (forall k: Key :: k.Type() == t && k != s ==> RowsOf(c, Found(pages, t, f, k), k))
  }

  /** The rows stored under a key. */
  ghost predicate RowsOf(c: multiset<Entry>, rows: multiset<RowId>, k: Key) {
    forall r: RowId :: rows[r] == c[Entry(k, r)]
  }

  lemma ExactSplits(pages: seq<Node>, t: KeyType, f: Flat, c: multiset<Entry>, s: Key)
    requires LeavesOk(pages, t, f) && s.Type() == t
    ensures Exact(pages, t, f, c) <==> ExactBut(pages, t, f, c, s) && RowsOf(c, Found(pages, t, f, s), s)
  {
    hide LeavesOk, Found;
  }

  lemma SameRows(c: multiset<Entry>, a: multiset<RowId>, b: multiset<RowId>, s: Key)
    requires RowsOf(c, a, s)
    ensures RowsOf(c, b, s) <==> a == b
  {
    if RowsOf(c, b, s) {
      forall r ensures a[r] == b[r] {
        assert c[Entry(s, r)] == a[r];
      }
    }
  }

  lemma RowsWithout(c: multiset<Entry>, e: Entry, k: Key, was: multiset<RowId>, now: multiset<RowId>)
    requires RowsOf(c, was, k) && was == now + if k == e.key then multiset{e.row} else multiset{}
    ensures RowsOf(c - multiset{e}, now, k)
    ensures k == e.key ==> e in c
  {
    forall r ensures now[r] == (c - multiset{e})[Entry(k, r)] {
      assert was[r] == c[Entry(k, r)];
    }
    if k == e.key {
      assert was[e.row] == c[Entry(k, e.row)] && e == Entry(k, e.row);
    }
  }

  /** Entry `e` is taken out of its leaf, number `i`. */
  ghost predicate Takes(pages: seq<Node>, pages': seq<Node>, f: Flat, i: int, x: int, e: Entry) {
    && 0 <= i < |f.leaves| && i <= |f.seps| && Rewrites(pages, pages', f.leaves[i], x)
    && pages[f.leaves[i]].entries[x] == e && InRange(f.seps, i, e.key)
  }

  ghost predicate Before(pages: seq<Node>, t: KeyType, f: Flat, c: multiset<Entry>) {
    LeavesOk(pages, t, f) && AllFiled(pages, f.info) && Exact(pages, t, f, c)
  }

  /** The answers after the leaf was rewritten: those hidden behind its link are
      missing from the ones under its separator, and nothing else is. */
  lemma TakenFound(pages: seq<Node>, pages': seq<Node>, t: KeyType, f: Flat, c: multiset<Entry>, i: int, x: int,
                   e: Entry,
                   k: Key)
    requires Before(pages, t, f, c) && Takes(pages, pages', f, i, x, e) && k.Type() == t
    requires LeavesOk(pages', t, f) && AllFiled(pages', f.info)
    ensures var lost := if i < |f.seps| && k == f.seps[i] then Hidden(pages, t, f, i) else multiset{};
            RowsOf(c - multiset{e}, Found(pages', t, f, k) + lost, k) && (k == e.key ==> e in c)
  {
    hide LeavesOk, Found, Hidden, AllFiled;
    RewriteFound(pages, pages', t, f, i, x, k);
    var lost := if i < |f.seps| && k == f.seps[i] then Hidden(pages, t, f, i) else multiset{};
    var one := if k == e.key then multiset{e.row} else multiset{};
    assert Found(pages', t, f, k) + one + lost == Found(pages', t, f, k) + lost + one;
    RowsWithout(c, e, k, Found(pages, t, f, k), Found(pages', t, f, k) + lost);
  }

  /** Nothing is lost but what was hidden. */
  lemma TakenElsewhere(pages: seq<Node>, pages': seq<Node>, t: KeyType, f: Flat, c: multiset<Entry>, i: int, x: int,
                       e: Entry, k: Key)
    requires Before(pages, t, f, c) && Takes(pages, pages', f, i, x, e) && k.Type() == t
    requires LeavesOk(pages', t, f) && AllFiled(pages', f.info) && (i < |f.seps| ==> k != f.seps[i])
    ensures RowsOf(c - multiset{e}, Found(pages', t, f, k), k)
  {
    hide LeavesOk, Found, Hidden, AllFiled, RowsOf, Takes, Exact;
    TakenFound(pages, pages', t, f, c, i, x, e, k);
    assert Found(pages', t, f, k) + multiset{} == Found(pages', t, f, k);
  }

  lemma TypesWithout(pages: seq<Node>, t: KeyType, f: Flat, c: multiset<Entry>, e: Entry)
    requires LeavesOk(pages, t, f) && Exact(pages, t, f, c)
    ensures forall x :: x in c - multiset{e} ==> x.key.Type() == t
  {
    hide LeavesOk, Found;
  }

  lemma TakenBut(pages: seq<Node>, pages': seq<Node>, t: KeyType, f: Flat, c: multiset<Entry>, i: int, x: int, e: Entry)
    requires Before(pages, t, f, c) && Takes(pages, pages', f, i, x, e) && i < |f.seps| && f.seps[i].Type() == t
    requires LeavesOk(pages', t, f) && AllFiled(pages', f.info)
    ensures ExactBut(pages', t, f, c - multiset{e}, f.seps[i])
    ensures RowsOf(c - multiset{e}, Found(pages', t, f, f.seps[i]) + Hidden(pages, t, f, i), f.seps[i])
  {
    hide LeavesOk, Found, Hidden, AllFiled, RowsOf, Rewrites, InRange, Exact;
    TypesWithout(pages, t, f, c, e);
    forall k: Key | k.Type() == t && k != f.seps[i] ensures RowsOf(c - multiset{e}, Found(pages', t, f, k), k) {
      TakenElsewhere(pages, pages', t, f, c, i, x, e, k);
    }
    TakenFound(pages, pages', t, f, c, i, x, e, f.seps[i]);
  }

  lemma TakenLast(pages: seq<Node>, pages': seq<Node>, t: KeyType, f: Flat, c: multiset<Entry>, i: int, x: int,
                  e: Entry)
    requires Before(pages, t, f, c) && Takes(pages, pages', f, i, x, e) && i == |f.seps| && e.key.Type() == t
    requires LeavesOk(pages', t, f) && AllFiled(pages', f.info)
    ensures Exact(pages', t, f, c - multiset{e}) && Hidden(pages, t, f, i) == multiset{}
  {
    hide LeavesOk, Found, Hidden, AllFiled, RowsOf, Rewrites, InRange, Exact;
    TypesWithout(pages, t, f, c, e);
    NothingHidden(pages, t, f, i);
    forall k: Key | k.Type() == t ensures RowsOf(c - multiset{e}, Found(pages', t, f, k), k) {
      TakenElsewhere(pages, pages', t, f, c, i, x, e, k);
    }
    ExactSplits(pages', t, f, c - multiset{e}, e.key);
  }

  lemma TakenExact(pages: seq<Node>, pages': seq<Node>, t: KeyType, f: Flat, c: multiset<Entry>, i: int, x: int,
                   e: Entry)
    requires Before(pages, t, f, c) && Takes(pages, pages', f, i, x, e)
    requires LeavesOk(pages', t, f) && AllFiled(pages', f.info)
    ensures e in c && e.key.Type() == t
    ensures Exact(pages', t, f, c - multiset{e}) <==> Hidden(pages, t, f, i) == multiset{}
    ensures i < |f.seps| ==>
              && f.seps[i].Type() == t && ExactBut(pages', t, f, c - multiset{e}, f.seps[i])
              && RowsOf(c - multiset{e}, Found(pages', t, f, f.seps[i]) + Hidden(pages, t, f, i), f.seps[i])
  {
    EntryType(pages, pages', t, f, i, x, e);
    hide LeavesOk, Found, Hidden, AllFiled, RowsOf, Rewrites, InRange, Exact, ExactBut;
    TakenFound(pages, pages', t, f, c, i, x, e, e.key);
    var c' := c - multiset{e};
    if i < |f.seps| {
      var s := f.seps[i];
      TakenBut(pages, pages', t, f, c, i, x, e);
      ExactSplits(pages', t, f, c', s);
      SameRows(c', Found(pages', t, f, s) + Hidden(pages, t, f, i), Found(pages', t, f, s), s);
      Cancel(Found(pages', t, f, s), Found(pages', t, f, s) + Hidden(pages, t, f, i), Hidden(pages, t, f, i),
             multiset{});
    } else {
      TakenLast(pages, pages', t, f, c, i, x, e);
    }
  }

  lemma EntryType(pages: seq<Node>, pages': seq<Node>, t: KeyType, f: Flat, i: int, x: int, e: Entry)
    requires LeavesOk(pages, t, f) && Takes(pages, pages', f, i, x, e)
    ensures e.key.Type() == t && |f.leaves| == |f.seps| + 1 && (i < |f.seps| ==> f.seps[i].Type() == t)
  {
    assert LiveOk(pages, f, i) && PageOk(pages, t, f.info, f.leaves[i]);
    assert e in pages[f.leaves[i]].entries;
  }

  lemma NothingHidden(pages: seq<Node>, t: KeyType, f: Flat, i: int)
    requires LeavesOk(pages, t, f) && i == |f.seps|
    ensures i < |f.leaves| && Hidden(pages, t, f, i) == multiset{}
  {
    assert LiveOk(pages, f, i);
  }

  /** The walk from leaf `i`. */
  ghost function From(pages: seq<Node>, t: KeyType, f: Flat, i: int, k: Key): multiset<RowId>
    requires LeavesOk(pages, t, f) && 0 <= i < |f.leaves|
  {
    Walk(pages, t, f.info, f.leaves[i], k)
  }

  /** The leaf is then merged with its right neighbour: exact if and only if the
      neighbour leads to the rows that the leaf's link led to. */
  lemma RightMergeExact(pages: seq<Node>, pages1: seq<Node>, pages': seq<Node>, t: KeyType, f: Flat, c: multiset<Entry>,
                        i: int, x: int, e: Entry, es: seq<Entry>)
    requires Before(pages, t, f, c) && Takes(pages, pages1, f, i, x, e) && i < |f.seps| && i + 1 < |f.leaves|
    requires LeavesOk(pages1, t, f) && AllFiled(pages1, f.info) && |f.leaves| == |f.seps| + 1
    requires MergeWrites(pages1, pages', f, i, es) && LeavesOk(pages', t, MergeFlat(f, i))
    ensures Exact(pages', t, MergeFlat(f, i), c - multiset{e})
       <==> Hidden(pages, t, f, i) == From(pages, t, f, i + 1, f.seps[i])
  {
    EntryType(pages, pages1, t, f, i, x, e);
    hide LeavesOk, Exact, ExactBut, RowsOf, MergeWrites, Takes, AllFiled, Hidden, Found, From;
    var c', s, f' := c - multiset{e}, f.seps[i], MergeFlat(f, i);
    TakenExact(pages, pages1, t, f, c, i, x, e);
    MergeExactBut(pages1, pages', t, f, c', i, es);
    RightMergeFound(pages, pages1, pages', t, f, i, x, e, es);
    ExactSplits(pages', t, f', c', s);
    var rest := Found(pages1, t, f, s);
    var whole := From(pages, t, f, i + 1, s);
    SameRows(c', rest + Hidden(pages, t, f, i), rest + whole, s);
    CancelLeft(rest, Hidden(pages, t, f, i), whole);
  }

  lemma CancelLeft<T>(a: multiset<T>, b: multiset<T>, d: multiset<T>)
    ensures a + b == a + d <==> b == d
  {
    if a + b == a + d {
      forall x ensures b[x] == d[x] {
        assert (a + b)[x] == (a + d)[x];
      }
    }
  }

  /** A merge keeps exactness, its separator aside. */
  lemma MergeExactBut(pages: seq<Node>, pages': seq<Node>, t: KeyType, f: Flat, c: multiset<Entry>, m: int,
                      es: seq<Entry>)
    requires LeavesOk(pages, t, f) && 0 <= m < |f.seps| && |f.leaves| == |f.seps| + 1
             && MergeWrites(pages, pages', f, m, es)
    requires LeavesOk(pages', t, MergeFlat(f, m))
    ensures ExactBut(pages', t, MergeFlat(f, m), c, f.seps[m]) <==> ExactBut(pages, t, f, c, f.seps[m])
  {
    hide LeavesOk, MergeWrites, Found, RowsOf;
    forall k: Key | k.Type() == t && k != f.seps[m]
      ensures Found(pages', t, MergeFlat(f, m), k) == Found(pages, t, f, k)
    {
      MergeFound(pages, pages', t, f, m, es, k);
    }
  }

  lemma RightMergeFound(pages: seq<Node>, pages1: seq<Node>, pages': seq<Node>, t: KeyType, f: Flat, i: int, x: int,
                        e: Entry,
                        es: seq<Entry>)
    requires LeavesOk(pages, t, f) && LeavesOk(pages1, t, f) && Takes(pages, pages1, f, i, x, e)
    requires i < |f.seps| && i + 1 < |f.leaves| == |f.seps| + 1
    requires MergeWrites(pages1, pages', f, i, es) && LeavesOk(pages', t, MergeFlat(f, i))
    ensures Found(pages', t, MergeFlat(f, i), f.seps[i])
            == Found(pages1, t, f, f.seps[i]) + From(pages, t, f, i + 1, f.seps[i])
  {
    var s := f.seps[i];
    assert LiveOk(pages, f, i) && LiveOk(pages, f, i + 1);
    assert InRange(f.seps, i, s);
    RangeIsRoute(f, t, i, s);
    MergedRoute(f, t, i, s);
    MergedLeaf(pages1, pages', t, f, i, es, s);
    WalkAhead(pages, pages1, t, f.info, f.info[f.leaves[i]].pos, f.leaves[i + 1], s);
  }

  /** ... or with its left neighbour: nothing may be hidden behind its own link,
      and the merge must keep what is found under the separator it removes. */
  lemma LeftMergeExact(pages: seq<Node>, pages1: seq<Node>, pages': seq<Node>, t: KeyType, f: Flat, c: multiset<Entry>,
                       i: int, x: int, e: Entry, es: seq<Entry>)
    requires Before(pages, t, f, c) && Takes(pages, pages1, f, i, x, e) && 0 < i <= |f.seps|
    requires LeavesOk(pages1, t, f) && AllFiled(pages1, f.info) && |f.leaves| == |f.seps| + 1
    requires MergeWrites(pages1, pages', f, i - 1, es) && LeavesOk(pages', t, MergeFlat(f, i - 1))
    ensures Exact(pages', t, MergeFlat(f, i - 1), c - multiset{e})
       <==> Hidden(pages, t, f, i) == multiset{} && MergeKeeps(pages, t, f, i - 1)
  {
    hide LeavesOk, Exact, ExactBut, RowsOf, MergeWrites, AllFiled, Hidden, Found, MergeKeeps, MergeFlat;
    LeftSeparator(pages, pages1, t, f, i, x, e);
    var c', s, f' := c - multiset{e}, f.seps[i - 1], MergeFlat(f, i - 1);
    TakenExact(pages, pages1, t, f, c, i, x, e);
    KeepsRewritten(pages, pages1, t, f, i, x, e);
    LeftSeparatorFound(pages, pages1, t, f, c, i, x, e);
    MergeExact(pages1, pages', t, f, c', i - 1, es);
  }

  lemma LeftSeparatorFound(pages: seq<Node>, pages1: seq<Node>, t: KeyType, f: Flat, c: multiset<Entry>, i: int, x: int,
                           e: Entry)
    requires Before(pages, t, f, c) && Takes(pages, pages1, f, i, x, e) && 0 < i <= |f.seps|
    requires LeavesOk(pages1, t, f) && AllFiled(pages1, f.info)
    ensures RowsOf(c - multiset{e}, Found(pages1, t, f, f.seps[i - 1]), f.seps[i - 1])
  {
    LeftSeparator(pages, pages1, t, f, i, x, e);
    hide LeavesOk, RowsOf, AllFiled, Hidden, Found, Takes, Before;
    TakenFound(pages, pages1, t, f, c, i, x, e, f.seps[i - 1]);
    assert Found(pages1, t, f, f.seps[i - 1]) + multiset{} == Found(pages1, t, f, f.seps[i - 1]);
  }

  /** A merge keeps exactness if and only if it keeps what is found under its
      separator. */
  lemma MergeExact(pages: seq<Node>, pages': seq<Node>, t: KeyType, f: Flat, c: multiset<Entry>, m: int, es: seq<Entry>)
    requires LeavesOk(pages, t, f) && 0 <= m < |f.seps| && |f.leaves| == |f.seps| + 1
             && MergeWrites(pages, pages', f, m, es)
    requires LeavesOk(pages', t, MergeFlat(f, m)) && f.seps[m].Type() == t
             && RowsOf(c, Found(pages, t, f, f.seps[m]), f.seps[m])
    ensures Exact(pages', t, MergeFlat(f, m), c) <==> Exact(pages, t, f, c) && MergeKeeps(pages, t, f, m)
  {
    hide LeavesOk, Exact, ExactBut, RowsOf, MergeWrites, Found, MergeKeeps, MergeFlat;
    var s, f' := f.seps[m], MergeFlat(f, m);
    MergeExactBut(pages, pages', t, f, c, m, es);
    MergeFoundAt(pages, pages', t, f, m, es);
    ExactSplits(pages', t, f', c, s);
    ExactSplits(pages, t, f, c, s);
    SameRows(c, Found(pages, t, f, s), Found(pages', t, f', s), s);
  }

  lemma LeftSeparator(pages: seq<Node>, pages': seq<Node>, t: KeyType, f: Flat, i: int, x: int, e: Entry)
    requires LeavesOk(pages, t, f) && Takes(pages, pages', f, i, x, e) && 0 < i <= |f.seps|
    ensures f.seps[i - 1].Type() == t && (i < |f.seps| ==> f.seps[i - 1] != f.seps[i])
  {
  }

  lemma KeepsRewritten(pages: seq<Node>, pages': seq<Node>, t: KeyType, f: Flat, i: int, x: int, e: Entry)
    requires LeavesOk(pages, t, f) && LeavesOk(pages', t, f) && Takes(pages, pages', f, i, x, e) && 0 < i <= |f.seps|
    ensures MergeKeeps(pages', t, f, i - 1) <==> MergeKeeps(pages, t, f, i - 1)
  {
    var s := f.seps[i - 1];
    var l := f.leaves[i - 1];
    assert LiveOk(pages, f, i) && LiveOk(pages, f, i - 1) && PageOk(pages, t, f.info, l);
    forall y | y in f.info
      ensures Walk(pages', t, f.info, y, s) == Walk(pages, t, f.info, y, s)
      ensures forall z :: Through(pages', t, f.info, y, s, z) <==> Through(pages, t, f.info, y, s, z)
    {
      RewrittenWalk(pages, pages', t, f.info, f.leaves[i], x, y, s);
    }
    assert pages'[l] == pages[l];
    var j := RouteIndex(f.seps, s);
    SeparatorRoute(f, t, i - 1);
    assert LiveOk(pages, f, j);
  }
}
