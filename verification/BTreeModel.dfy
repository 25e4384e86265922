/** The index pages as values, and the invariant that ties them to the
    multiset of (key, row) pairs the index stands for.

    Every leaf page that was ever linked into the tree keeps three ghost
    constants, fixed when the page is written by a split: a low bound `lo`
    on its keys, the rows `atLo` filed under exactly that bound at or after
    the page, and a position `pos` that grows along every `next` link. A page
    superseded by a split keeps them too, because its predecessor may go on
    linking to it. */
module BTreeModel {
  import opened Wrappers
  import opened Keys

  type PageId = nat
  datatype Entry = Entry(key: Key, row: RowId)
  datatype Child = Child(left: PageId, sep: Key)

  /** A decoded index page; `Blank` is a page just allocated, which no reader
      accepts. */
  datatype Node =
    | Leaf(entries: seq<Entry>, next: Option<PageId>)
    | Internal(children: seq<Child>, rightmost: PageId)
    | Blank

  datatype Info = Info(lo: Option<Key>, atLo: multiset<RowId>, pos: real) {
    ghost function LoRank(): real {
      if lo.None? then -1.0 else Rank(lo.value)
    }
  }

  /** The live leaves in key order with the separators between them, and the
      ghost constants of every leaf page a chain walk may meet. */
  datatype Flat = Flat(leaves: seq<PageId>, seps: seq<Key>, info: map<PageId, Info>)

  // ---------- rows found from a leaf onwards ----------

  ghost predicate NoGreater(es: seq<Entry>, k: Key) {
    forall e :: e in es ==> Rank(e.key) <= Rank(k)
  }

  /** Rows under `k` that a walk picks up after following `next`. */
  ghost function Beyond(info: map<PageId, Info>, next: Option<PageId>, k: Key, r: RowId): nat {
    if next.Some? && next.value in info && info[next.value].lo == Some(k)
    then info[next.value].atLo[r] else 0
  }

  /** How often a walk that starts in leaf `n` meets row `r` under key `k`. */
  ghost function Here(info: map<PageId, Info>, n: Node, k: Key, r: RowId): nat
    requires n.Leaf?
  {
    multiset(n.entries)[Entry(k, r)] + if NoGreater(n.entries, k) then Beyond(info, n.next, k, r) else 0
  }

  // ---------- the invariant ----------

  /** Keys of the page are not below its low bound, and its link leads strictly
      forward, to a page whose low bound is not below this one's. */
  ghost predicate PageOk(pages: seq<Node>, t: KeyType, info: map<PageId, Info>, p: PageId)
    requires p in info
  {
    && p < |pages| && pages[p].Leaf?
    && (info[p].lo.Some? ==> info[p].lo.value.Type() == t)
    && (forall e :: e in pages[p].entries ==> e.key.Type() == t && info[p].LoRank() <= Rank(e.key))
    && (pages[p].next.Some? ==>
          var q := pages[p].next.value;
          q in info && info[p].pos < info[q].pos && info[q].lo.Some? && info[p].LoRank() <= info[q].LoRank())
  }

  /** The rows recorded for the page's low bound are those a walk from the page
      finds under it. */
  ghost predicate Filed(pages: seq<Node>, info: map<PageId, Info>, p: PageId)
    requires p in info && p < |pages| && pages[p].Leaf?
  {
    if info[p].lo.None? then info[p].atLo == multiset{}
    else forall r :: info[p].atLo[r] == Here(info, pages[p], info[p].lo.value, r)
  }

  ghost predicate SepsSorted(seps: seq<Key>, t: KeyType) {
    && (forall i :: 0 <= i < |seps| ==> seps[i].Type() == t)
    && (forall i, j :: 0 <= i < j < |seps| ==> Rank(seps[i]) <= Rank(seps[j]))
  }

  /** Key `k` belongs to leaf `i`: above the separator before it, and not above
      the one after it. */
  ghost predicate InRange(seps: seq<Key>, i: int, k: Key)
    requires 0 <= i <= |seps|
  {
    (i > 0 ==> Rank(seps[i - 1]) < Rank(k)) && (i < |seps| ==> Rank(k) <= Rank(seps[i]))
  }

  ghost predicate LiveOk(pages: seq<Node>, f: Flat, i: int)
    requires 0 <= i < |f.leaves| && |f.leaves| == |f.seps| + 1
  {
    var p := f.leaves[i];
    && p in f.info && p < |pages| && pages[p].Leaf?
    && f.info[p].lo == (if i == 0 then None else Some(f.seps[i - 1]))
    && (i < |f.seps| ==> forall e :: e in pages[p].entries ==> Rank(e.key) <= Rank(f.seps[i]))
    && (pages[p].next.Some? ==>
          && i < |f.seps| && pages[p].next.value in f.info
          && Rank(f.seps[i]) <= f.info[pages[p].next.value].LoRank())
  }

  ghost predicate PositionsRise(f: Flat) {
    && (forall i :: 0 <= i < |f.leaves| ==> f.leaves[i] in f.info)
    && (forall i, j :: 0 <= i < j < |f.leaves| ==> f.info[f.leaves[i]].pos < f.info[f.leaves[j]].pos)
  }

  /** Leaf `i` answers every key of its range correctly. */
  ghost predicate Answers(pages: seq<Node>, t: KeyType, f: Flat, contents: multiset<Entry>, i: int)
    requires 0 <= i < |f.leaves| && |f.leaves| == |f.seps| + 1
    requires f.leaves[i] < |pages| && pages[f.leaves[i]].Leaf?
  {
    forall k: Key, r: RowId :: k.Type() == t && InRange(f.seps, i, k) ==>
      contents[Entry(k, r)] == Here(f.info, pages[f.leaves[i]], k, r)
  }

  ghost predicate LeavesOk(pages: seq<Node>, t: KeyType, f: Flat) {
    && |f.leaves| == |f.seps| + 1
    && SepsSorted(f.seps, t)
    && (forall p :: p in f.info ==> PageOk(pages, t, f.info, p))
    && PositionsRise(f)
    && (forall i :: 0 <= i < |f.leaves| ==> LiveOk(pages, f, i))
  }

  ghost predicate Represents(pages: seq<Node>, t: KeyType, f: Flat, contents: multiset<Entry>)
    requires LeavesOk(pages, t, f)
  {
    && (forall e :: e in contents ==> e.key.Type() == t)
    && (forall p :: p in f.info ==> PageOk(pages, t, f.info, p) && Filed(pages, f.info, p))
    && (forall i :: 0 <= i < |f.leaves| ==> Answers(pages, t, f, contents, i))
  }

  /** No split has left equal keys on both of its sides. */
  ghost predicate NoStraddle(info: map<PageId, Info>) {
    forall p :: p in info ==> info[p].atLo == multiset{}
  }

  // ---------- walking the chain ----------

  /** For a key not above a page's low bound, what lies beyond the link to the
      page is what a walk finds from the page on. */
  lemma BeyondIsHere(pages: seq<Node>, t: KeyType, info: map<PageId, Info>, q: PageId, k: Key, r: RowId)
    requires q in info && PageOk(pages, t, info, q) && Filed(pages, info, q)
    requires k.Type() == t && Rank(k) <= info[q].LoRank()
    ensures Beyond(info, Some(q), k, r) == Here(info, pages[q], k, r)
  {
    RankInjective(t);
    if info[q].lo != Some(k) {
      assert Rank(k) < info[q].LoRank();
      assert Entry(k, r) !in pages[q].entries;
    }
  }

  // ---------- inserting into a leaf with room ----------

  lemma AppendedCount(es: seq<Entry>, e: Entry, x: Entry)
    ensures multiset(es + [e])[x] == multiset(es)[x] + if x == e then 1 else 0
  {
  }

  lemma AppendKeepsHere(info: map<PageId, Info>, n: Node, e: Entry, k: Key, r: RowId, t: KeyType)
    requires n.Leaf? && k.Type() == t && e.key.Type() == t
    requires n.next.Some? && n.next.value in info ==> Rank(e.key) <= info[n.next.value].LoRank()
    ensures Here(info, Leaf(n.entries + [e], n.next), k, r)
         == Here(info, n, k, r) + if e == Entry(k, r) then 1 else 0
  {
    AppendedCount(n.entries, e, Entry(k, r));
    assert e in n.entries + [e];
    if Rank(e.key) <= Rank(k) {
      assert NoGreater(n.entries + [e], k) <==> NoGreater(n.entries, k);
    } else {
      assert !NoGreater(n.entries + [e], k);
      assert Beyond(info, n.next, k, r) == 0;
    }
  }

  /** Adding an entry to the leaf its key belongs to keeps the leaf level
      intact. */
  lemma InsertInPlaceOk(pages: seq<Node>, t: KeyType, f: Flat, i: int, e: Entry)
    requires LeavesOk(pages, t, f)
    requires 0 <= i < |f.leaves| && e.key.Type() == t && InRange(f.seps, i, e.key)
    requires f.leaves[i] < |pages| && pages[f.leaves[i]].Leaf?
    ensures var p := f.leaves[i];
            LeavesOk(pages[p := Leaf(pages[p].entries + [e], pages[p].next)], t, f)
  {
    var p := f.leaves[i];
    assert LiveOk(pages, f, i);
    var pages' := pages[p := Leaf(pages[p].entries + [e], pages[p].next)];
    forall q | q in f.info ensures PageOk(pages', t, f.info, q) {
      assert PageOk(pages, t, f.info, q);
    }
    forall j | 0 <= j < |f.leaves| ensures LiveOk(pages', f, j) {
      assert LiveOk(pages, f, j);
      assert j != i ==> f.leaves[j] != p;
    }
  }

  /** ... and it adds exactly that entry to what the leaves stand for. */
  lemma InsertInPlace(pages: seq<Node>, t: KeyType, f: Flat, contents: multiset<Entry>, i: int, e: Entry)
    requires LeavesOk(pages, t, f) && Represents(pages, t, f, contents)
    requires 0 <= i < |f.leaves| && e.key.Type() == t && InRange(f.seps, i, e.key)
    requires f.leaves[i] < |pages| && pages[f.leaves[i]].Leaf?
    ensures
      var p := f.leaves[i];
      var pages' := pages[p := Leaf(pages[p].entries + [e], pages[p].next)];
      LeavesOk(pages', t, f) && Represents(pages', t, f, contents + multiset{e})
  {
    InsertInPlaceOk(pages, t, f, i, e);
    var p := f.leaves[i];
    assert LiveOk(pages, f, i);
    var n := pages[p];
    var pages' := pages[p := Leaf(n.entries + [e], n.next)];
    forall q | q in f.info ensures PageOk(pages', t, f.info, q) && Filed(pages', f.info, q) {
      assert PageOk(pages, t, f.info, q) && Filed(pages, f.info, q);
      if q == p && f.info[p].lo.Some? {
        forall r ensures f.info[p].atLo[r] == Here(f.info, pages'[p], f.info[p].lo.value, r) {
          AppendKeepsHere(f.info, n, e, f.info[p].lo.value, r, t);
        }
      }
    }
    forall j | 0 <= j < |f.leaves| ensures Answers(pages', t, f, contents + multiset{e}, j) {
      assert LiveOk(pages, f, j) && Answers(pages, t, f, contents, j);
      forall k: Key, r: RowId | k.Type() == t && InRange(f.seps, j, k)
        ensures (contents + multiset{e})[Entry(k, r)] == Here(f.info, pages'[f.leaves[j]], k, r)
      {
        if j == i {
          AppendKeepsHere(f.info, n, e, k, r, t);
        } else {
          RangesAreDisjoint(f.seps, t, i, j, e.key, k);
        }
      }
    }
  }

  lemma RangesAreDisjoint(seps: seq<Key>, t: KeyType, i: int, j: int, a: Key, b: Key)
    requires SepsSorted(seps, t)
    requires 0 <= i <= |seps| && 0 <= j <= |seps| && i != j
    requires InRange(seps, i, a) && InRange(seps, j, b)
    ensures a != b
  {
    if i < j {
      assert Rank(a) <= Rank(seps[i]) <= Rank(seps[j - 1]) < Rank(b);
    } else {
      assert Rank(b) <= Rank(seps[j]) <= Rank(seps[i - 1]) < Rank(a);
    }
  }

  // ---------- splitting a leaf ----------

  ghost function RowsAt(es: seq<Entry>, k: Key): multiset<RowId> {
    if es == [] then multiset{}
    else RowsAt(es[1..], k) + if es[0].key == k then multiset{es[0].row} else multiset{}
  }

  lemma {:induction false} RowsAtCounts(es: seq<Entry>, k: Key, r: RowId)
    ensures RowsAt(es, k)[r] == multiset(es)[Entry(k, r)]
  {
    if es != [] {
      RowsAtCounts(es[1..], k, r);
      assert es == [es[0]] + es[1..];
    }
  }

  lemma {:induction false} RowsAtAppend(es: seq<Entry>, e: Entry, k: Key)
    ensures RowsAt(es + [e], k) == RowsAt(es, k) + if e.key == k then multiset{e.row} else multiset{}
  {
    if es == [] {
      assert es + [e] == [e];
    } else {
      RowsAtAppend(es[1..], e, k);
      assert (es + [e])[1..] == es[1..] + [e];
    }
  }

  lemma RowsAtPrefix(es: seq<Entry>, i: nat, k: Key)
    requires i < |es|
    ensures RowsAt(es[..i + 1], k) == RowsAt(es[..i], k) + if es[i].key == k then multiset{es[i].row} else multiset{}
  {
    assert es[..i + 1] == es[..i] + [es[i]];
    RowsAtAppend(es[..i], es[i], k);
  }

  /** A split of leaf `i` caused by entry `e`: the halves, the separator and
      the two fresh pages they go to. */
  datatype Split = Split(i: nat, e: Entry, left: seq<Entry>, right: seq<Entry>, sep: Key, a: PageId, b: PageId)

  /** How a full leaf and the entry that did not fit are divided: two non-empty
      halves in key order, together the old entries and the new one. */
  ghost predicate Divides(es: seq<Entry>, e: Entry, left: seq<Entry>, right: seq<Entry>, sep: Key) {
    && multiset(left) + multiset(right) == multiset(es + [e])
    && right != []
    && (exists x :: x in left && x.key == sep)
    && (forall x :: x in left ==> Rank(x.key) <= Rank(sep))
    && (forall x :: x in right ==> Rank(sep) <= Rank(x.key))
  }

  lemma DividesMembers(es: seq<Entry>, e: Entry, left: seq<Entry>, right: seq<Entry>, sep: Key)
    requires Divides(es, e, left, right, sep)
    ensures forall x :: x in left || x in right <==> x in es || x == e
  {
    forall x ensures x in left || x in right <==> x in es || x == e {
      assert x in es + [e] <==> x in multiset(left) + multiset(right);
    }
  }

  /** A position after leaf `i` but before the leaf that follows it and before
      the page it links to. */
  ghost function PosAfter(f: Flat, i: int, next: Option<PageId>): (x: real)
    requires 0 <= i < |f.leaves| && PositionsRise(f)
    ensures var me := f.info[f.leaves[i]].pos;
            (next.Some? && next.value in f.info && me < f.info[next.value].pos ==> x < f.info[next.value].pos)
            && me < x && (i + 1 < |f.leaves| ==> x < f.info[f.leaves[i + 1]].pos)
  {
    var me := f.info[f.leaves[i]].pos;
    var x := if i + 1 < |f.leaves| then f.info[f.leaves[i + 1]].pos else me + 1.0;
    var y := if next.Some? && next.value in f.info && me < f.info[next.value].pos
             then f.info[next.value].pos else me + 1.0;
    (me + if x < y then x else y) / 2.0
  }

  ghost function SplitInfo(f: Flat, next: Option<PageId>, s: Split): map<PageId, Info>
    requires s.i < |f.leaves| && PositionsRise(f)
  {
    var me := f.info[f.leaves[s.i]];
    var beyond := if NoGreater(s.right, s.sep) && next.Some? && next.value in f.info
                     && f.info[next.value].lo == Some(s.sep)
                  then f.info[next.value].atLo else multiset{};
    f.info[s.a := me][s.b := Info(Some(s.sep), RowsAt(s.right, s.sep) + beyond, PosAfter(f, s.i, next))]
  }

  ghost function SplitFlat(f: Flat, next: Option<PageId>, s: Split): Flat
    requires s.i < |f.leaves| && |f.leaves| == |f.seps| + 1 && PositionsRise(f)
  {
    Flat(f.leaves[..s.i] + [s.a, s.b] + f.leaves[s.i + 1..],
         f.seps[..s.i] + [s.sep] + f.seps[s.i..],
         SplitInfo(f, next, s))
  }

  /** All that the split argument needs to know about the leaf being split. */
  ghost predicate Splittable(f: Flat, t: KeyType, n: Node, s: Split) {
    && s.i < |f.leaves| && PositionsRise(f)
    && n.Leaf? && Divides(n.entries, s.e, s.left, s.right, s.sep)
    && s.a !in f.info && s.b !in f.info && s.a != s.b
    && s.e.key.Type() == t && s.sep.Type() == t
    && (forall x :: x in n.entries ==> x.key.Type() == t)
    && f.info[f.leaves[s.i]].LoRank() < Rank(s.e.key)
    && f.info[f.leaves[s.i]].LoRank() <= Rank(s.sep)
    && (n.next.Some? ==>
          && n.next.value in f.info && f.info[n.next.value].lo.Some?
          && f.info[f.leaves[s.i]].pos < f.info[n.next.value].pos
          && Rank(s.e.key) <= f.info[n.next.value].LoRank()
          && Rank(s.sep) <= f.info[n.next.value].LoRank())
  }

  /** The two halves together answer every key as the undivided leaf did: keys
      up to the separator through the left half, greater ones through the right. */
  lemma DividedHere(f: Flat, t: KeyType, n: Node, s: Split, k: Key, r: RowId)
    requires Splittable(f, t, n, s) && k.Type() == t
    ensures
      var info := SplitInfo(f, n.next, s);
      var whole := Here(f.info, n, k, r) + if s.e == Entry(k, r) then 1 else 0;
      (Rank(k) <= Rank(s.sep) ==> Here(info, Leaf(s.left, Some(s.b)), k, r) == whole)
      && (Rank(s.sep) < Rank(k) ==> Here(info, Leaf(s.right, n.next), k, r) == whole)
  {
    RankInjective(t);
    AppendKeepsHere(f.info, n, s.e, k, r, t);
    DividesMembers(n.entries, s.e, s.left, s.right, s.sep);
    var all := n.entries + [s.e];
    assert multiset(all)[Entry(k, r)] == multiset(s.left)[Entry(k, r)] + multiset(s.right)[Entry(k, r)];
    var x :| x in s.left && x.key == s.sep;
    if Rank(k) < Rank(s.sep) {
      assert Entry(k, r) !in s.right;
      assert !NoGreater(s.left, k) && !NoGreater(all, k);
    } else if Rank(s.sep) < Rank(k) {
      assert Entry(k, r) !in s.left;
      assert NoGreater(s.right, k) <==> NoGreater(all, k);
    } else {
      RowsAtCounts(s.right, s.sep, r);
      assert NoGreater(s.left, k);
      assert NoGreater(s.right, k) <==> NoGreater(all, k);
    }
  }

  /** The fresh pages satisfy the page invariant. */
  lemma SplitHalvesOk(pages: seq<Node>, pages': seq<Node>, t: KeyType, f: Flat, n: Node, s: Split)
    requires Splittable(f, t, n, s)
    requires f.leaves[s.i] < |pages| && pages[f.leaves[s.i]] == n && PageOk(pages, t, f.info, f.leaves[s.i])
    requires s.a < |pages'| && s.b < |pages'|
    requires pages'[s.a] == Leaf(s.left, Some(s.b)) && pages'[s.b] == Leaf(s.right, n.next)
    ensures PageOk(pages', t, SplitInfo(f, n.next, s), s.a) && PageOk(pages', t, SplitInfo(f, n.next, s), s.b)
  {
    DividesMembers(n.entries, s.e, s.left, s.right, s.sep);
  }

  lemma SplitHalvesFiled(pages: seq<Node>, pages': seq<Node>, t: KeyType, f: Flat, n: Node, s: Split)
    requires Splittable(f, t, n, s)
    requires f.leaves[s.i] < |pages| && pages[f.leaves[s.i]] == n
    requires PageOk(pages, t, f.info, f.leaves[s.i]) && Filed(pages, f.info, f.leaves[s.i])
    requires s.a < |pages'| && s.b < |pages'|
    requires pages'[s.a] == Leaf(s.left, Some(s.b)) && pages'[s.b] == Leaf(s.right, n.next)
    ensures Filed(pages', SplitInfo(f, n.next, s), s.a) && Filed(pages', SplitInfo(f, n.next, s), s.b)
  {
    var info := SplitInfo(f, n.next, s);
    if info[s.a].lo.Some? {
      var k := info[s.a].lo.value;
      forall r ensures info[s.a].atLo[r] == Here(info, pages'[s.a], k, r) {
        DividedHere(f, t, n, s, k, r);
      }
    }
    forall r ensures info[s.b].atLo[r] == Here(info, pages'[s.b], s.sep, r) {
      RowsAtCounts(s.right, s.sep, r);
    }
  }

  /** Adding ghost constants for fresh pages does not disturb a page. */
  lemma FiledExtends(pages: seq<Node>, pages': seq<Node>, t: KeyType, info: map<PageId, Info>, info': map<PageId, Info>,
                     p: PageId)
    requires p in info && PageOk(pages, t, info, p) && Filed(pages, info, p)
    requires forall q :: q in info ==> q in info' && info'[q] == info[q]
    requires p < |pages'| && pages'[p] == pages[p]
    ensures Filed(pages', info', p)
  {
    if info[p].lo.Some? {
      var k := info[p].lo.value;
      forall r ensures info'[p].atLo[r] == Here(info', pages'[p], k, r) {
        assert info[p].atLo[r] == Here(info, pages[p], k, r);
      }
    }
  }

  /** What a split writes: two fresh pages, and nothing that was linked before. */
  ghost predicate SplitWrites(pages: seq<Node>, pages': seq<Node>, f: Flat, next: Option<PageId>, s: Split) {
    && s.a < |pages'| && s.b < |pages'|
    && pages'[s.a] == Leaf(s.left, Some(s.b)) && pages'[s.b] == Leaf(s.right, next)
    && (forall q :: q in f.info ==> q < |pages| && q < |pages'| && pages'[q] == pages[q])
  }

  ghost predicate SplitArgs(pages: seq<Node>, t: KeyType, f: Flat, s: Split) {
    && LeavesOk(pages, t, f)
    && s.i < |f.leaves| && f.leaves[s.i] < |pages| && pages[f.leaves[s.i]].Leaf?
    && s.e.key.Type() == t && InRange(f.seps, s.i, s.e.key)
    && Divides(pages[f.leaves[s.i]].entries, s.e, s.left, s.right, s.sep)
    && s.a !in f.info && s.b !in f.info && s.a != s.b
  }

  lemma SplitArgsSplittable(pages: seq<Node>, t: KeyType, f: Flat, s: Split)
    requires SplitArgs(pages, t, f, s)
    ensures Splittable(f, t, pages[f.leaves[s.i]], s)
    ensures s.i < |f.seps| ==> Rank(s.sep) <= Rank(f.seps[s.i])
    ensures s.i > 0 ==> Rank(f.seps[s.i - 1]) <= Rank(s.sep)
  {
    var n := pages[f.leaves[s.i]];
    assert LiveOk(pages, f, s.i) && PageOk(pages, t, f.info, f.leaves[s.i]);
    DividesMembers(n.entries, s.e, s.left, s.right, s.sep);
    var x :| x in s.left && x.key == s.sep;
  }

  /** Where the leaves and separators of the split level come from. */
  lemma SplitIndex(f: Flat, next: Option<PageId>, s: Split, j: int)
    requires s.i < |f.leaves| && |f.leaves| == |f.seps| + 1 && PositionsRise(f) && 0 <= j <= |f.leaves|
    ensures var f' := SplitFlat(f, next, s);
            f'.leaves[j] == (if j < s.i then f.leaves[j] else if j == s.i then s.a
                             else if j == s.i + 1 then s.b else f.leaves[j - 1])
            && (j < |f'.seps| ==>
                  f'.seps[j] == if j < s.i then f.seps[j] else if j == s.i then s.sep else f.seps[j - 1])
            && (j > 0 ==>
                  f'.seps[j - 1] == if j <= s.i then f.seps[j - 1] else if j == s.i + 1 then s.sep else f.seps[j - 2])
  {
  }

  lemma SplitLive(pages: seq<Node>, pages': seq<Node>, t: KeyType, f: Flat, n: Node, s: Split, j: int)
    requires Splittable(f, t, n, s) && SplitWrites(pages, pages', f, n.next, s)
    requires |f.leaves| == |f.seps| + 1 && 0 <= j <= |f.leaves|
    requires pages[f.leaves[s.i]] == n
    requires s.i < |f.seps| ==> Rank(s.sep) <= Rank(f.seps[s.i]) && Rank(s.e.key) <= Rank(f.seps[s.i])
    requires LiveOk(pages, f, s.i) && LiveOk(pages, f, if j <= s.i then j else j - 1)
    ensures LiveOk(pages', SplitFlat(f, n.next, s), j)
  {
    DividesMembers(n.entries, s.e, s.left, s.right, s.sep);
    var f' := SplitFlat(f, n.next, s);
    var j0 := if j <= s.i then j else j - 1;
    SplitIndex(f, n.next, s, j);
  }

  lemma InsertKeepsSorted(seps: seq<Key>, t: KeyType, i: nat, sep: Key)
    requires SepsSorted(seps, t) && i <= |seps| && sep.Type() == t
    requires i < |seps| ==> Rank(sep) <= Rank(seps[i])
    requires i > 0 ==> Rank(seps[i - 1]) <= Rank(sep)
    ensures SepsSorted(seps[..i] + [sep] + seps[i..], t)
  {
    var seps' := seps[..i] + [sep] + seps[i..];
    forall x, y | 0 <= x < y < |seps'| ensures Rank(seps'[x]) <= Rank(seps'[y]) {
      assert x < i - 1 ==> Rank(seps[x]) <= Rank(seps[i - 1]);
      assert i < y - 1 ==> Rank(seps[i]) <= Rank(seps[y - 1]);
    }
  }

  lemma SplitPosition(f: Flat, next: Option<PageId>, s: Split, j: int)
    requires PositionsRise(f) && |f.leaves| == |f.seps| + 1 && 0 <= j <= |f.leaves|
    requires s.i < |f.leaves| && s.a !in f.info && s.b !in f.info && s.a != s.b
    ensures var f' := SplitFlat(f, next, s);
            f'.leaves[j] in f'.info
            && f'.info[f'.leaves[j]].pos == if j <= s.i then f.info[f.leaves[j]].pos
                                            else if j == s.i + 1 then PosAfter(f, s.i, next)
                                            else f.info[f.leaves[j - 1]].pos
  {
    SplitIndex(f, next, s, j);
  }

  lemma SplitPositions(f: Flat, next: Option<PageId>, s: Split)
    requires PositionsRise(f) && |f.leaves| == |f.seps| + 1
    requires s.i < |f.leaves| && s.a !in f.info && s.b !in f.info && s.a != s.b
    ensures PositionsRise(SplitFlat(f, next, s))
  {
    var f' := SplitFlat(f, next, s);
    forall j | 0 <= j < |f'.leaves| ensures f'.leaves[j] in f'.info {
      SplitPosition(f, next, s, j);
    }
    forall i, j | 0 <= i < j < |f'.leaves| ensures f'.info[f'.leaves[i]].pos < f'.info[f'.leaves[j]].pos {
      SplitPosition(f, next, s, i);
      SplitPosition(f, next, s, j);
    }
  }

  lemma SplitLeavesOk(pages: seq<Node>, pages': seq<Node>, t: KeyType, f: Flat, s: Split)
    requires SplitArgs(pages, t, f, s) && SplitWrites(pages, pages', f, pages[f.leaves[s.i]].next, s)
    ensures LeavesOk(pages', t, SplitFlat(f, pages[f.leaves[s.i]].next, s))
  {
    SplitArgsSplittable(pages, t, f, s);
    var n := pages[f.leaves[s.i]];
    var f' := SplitFlat(f, n.next, s);
    InsertKeepsSorted(f.seps, t, s.i, s.sep);
    SplitPositions(f, n.next, s);
    forall p | p in f'.info ensures PageOk(pages', t, f'.info, p) {
      if p == s.a || p == s.b {
        assert PageOk(pages, t, f.info, f.leaves[s.i]);
        SplitHalvesOk(pages, pages', t, f, n, s);
      } else {
        assert PageOk(pages, t, f.info, p);
      }
    }
    forall j | 0 <= j < |f'.leaves| ensures LiveOk(pages', f', j) {
      SplitLive(pages, pages', t, f, n, s, j);
    }
  }

  lemma SplitFrame(pages: seq<Node>, pages': seq<Node>, f: Flat, n: Node, s: Split, j: int, k: Key, r: RowId)
    requires 0 <= j < |f.leaves| && |f.leaves| == |f.seps| + 1 && s.i < |f.leaves| && PositionsRise(f)
    requires n.Leaf? && s.a !in f.info && s.b !in f.info && LiveOk(pages, f, j)
             && SplitWrites(pages, pages', f, n.next, s)
    ensures pages'[f.leaves[j]] == pages[f.leaves[j]]
    ensures Here(SplitInfo(f, n.next, s), pages[f.leaves[j]], k, r) == Here(f.info, pages[f.leaves[j]], k, r)
  {
  }

  lemma SplitRange(f: Flat, next: Option<PageId>, s: Split, j: int, k: Key)
    requires s.i < |f.leaves| && |f.leaves| == |f.seps| + 1 && PositionsRise(f) && 0 <= j <= |f.leaves|
    requires s.i < |f.seps| ==> Rank(s.sep) <= Rank(f.seps[s.i])
    requires s.i > 0 ==> Rank(f.seps[s.i - 1]) <= Rank(s.sep)
    requires InRange(SplitFlat(f, next, s).seps, j, k)
    ensures InRange(f.seps, if j <= s.i then j else j - 1, k)
    ensures j == s.i ==> Rank(k) <= Rank(s.sep)
    ensures j == s.i + 1 ==> Rank(s.sep) < Rank(k)
  {
    SplitIndex(f, next, s, j);
  }

  lemma SplitAnswers(pages: seq<Node>, pages': seq<Node>, t: KeyType, f: Flat, contents: multiset<Entry>,
                     n: Node, s: Split, j: int, k: Key, r: RowId)
    requires Splittable(f, t, n, s) && SplitWrites(pages, pages', f, n.next, s)
    requires SepsSorted(f.seps, t) && |f.leaves| == |f.seps| + 1 && InRange(f.seps, s.i, s.e.key)
    requires k.Type() == t && 0 <= j <= |f.leaves|
    requires InRange(f.seps, if j <= s.i then j else j - 1, k)
    requires j == s.i ==> Rank(k) <= Rank(s.sep)
    requires j == s.i + 1 ==> Rank(s.sep) < Rank(k)
    requires var j0 := if j <= s.i then j else j - 1;
             LiveOk(pages, f, j0) && (j0 == s.i ==> pages[f.leaves[j0]] == n)
             && contents[Entry(k, r)] == Here(f.info, pages[f.leaves[j0]], k, r)
    ensures var p := SplitFlat(f, n.next, s).leaves[j];
            p < |pages'| && pages'[p].Leaf?
            && (contents + multiset{s.e})[Entry(k, r)] == Here(SplitInfo(f, n.next, s), pages'[p], k, r)
  {
    var j0 := if j <= s.i then j else j - 1;
    SplitIndex(f, n.next, s, j);
    if j0 == s.i {
      DividedHere(f, t, n, s, k, r);
    } else {
      RangesAreDisjoint(f.seps, t, s.i, j0, s.e.key, k);
      SplitFrame(pages, pages', f, n, s, j0, k, r);
    }
  }

  lemma SplitAllAnswers(pages: seq<Node>, pages': seq<Node>, t: KeyType, f: Flat, contents: multiset<Entry>, s: Split,
                        j: int)
    requires SplitArgs(pages, t, f, s) && SplitWrites(pages, pages', f, pages[f.leaves[s.i]].next, s)
    requires LeavesOk(pages', t, SplitFlat(f, pages[f.leaves[s.i]].next, s))
    requires 0 <= j <= |f.leaves|
    requires var j0 := if j <= s.i then j else j - 1;
             LiveOk(pages, f, j0) && Answers(pages, t, f, contents, j0)
    ensures LiveOk(pages', SplitFlat(f, pages[f.leaves[s.i]].next, s), j)
    ensures Answers(pages', t, SplitFlat(f, pages[f.leaves[s.i]].next, s), contents + multiset{s.e}, j)
  {
    SplitArgsSplittable(pages, t, f, s);
    var n := pages[f.leaves[s.i]];
    var f' := SplitFlat(f, n.next, s);
    assert LiveOk(pages', f', j);
    forall k: Key, r: RowId | k.Type() == t && InRange(f'.seps, j, k)
      ensures (contents + multiset{s.e})[Entry(k, r)] == Here(f'.info, pages'[f'.leaves[j]], k, r)
    {
      SplitRange(f, n.next, s, j, k);
      SplitAnswers(pages, pages', t, f, contents, n, s, j, k, r);
    }
  }

  lemma SplitAllFiled(pages: seq<Node>, pages': seq<Node>, t: KeyType, f: Flat, s: Split, p: PageId)
    requires SplitArgs(pages, t, f, s) && SplitWrites(pages, pages', f, pages[f.leaves[s.i]].next, s)
    requires PageOk(pages, t, f.info, f.leaves[s.i]) && Filed(pages, f.info, f.leaves[s.i])
    requires p in SplitInfo(f, pages[f.leaves[s.i]].next, s)
    requires p != s.a && p != s.b ==> PageOk(pages, t, f.info, p) && Filed(pages, f.info, p)
    ensures p < |pages'| && pages'[p].Leaf? && Filed(pages', SplitInfo(f, pages[f.leaves[s.i]].next, s), p)
  {
    SplitArgsSplittable(pages, t, f, s);
    var n := pages[f.leaves[s.i]];
    if p == s.a || p == s.b {
      SplitHalvesFiled(pages, pages', t, f, n, s);
    } else {
      FiledExtends(pages, pages', t, f.info, SplitInfo(f, n.next, s), p);
    }
  }

  /** A split keeps the leaf level intact and adds exactly the new entry. */
  lemma SplitLeaf(pages: seq<Node>, pages': seq<Node>, t: KeyType, f: Flat, contents: multiset<Entry>, s: Split)
    requires SplitArgs(pages, t, f, s) && SplitWrites(pages, pages', f, pages[f.leaves[s.i]].next, s)
    requires Represents(pages, t, f, contents)
    ensures var f' := SplitFlat(f, pages[f.leaves[s.i]].next, s);
            LeavesOk(pages', t, f') && Represents(pages', t, f', contents + multiset{s.e})
  {
    SplitLeavesOk(pages, pages', t, f, s);
    var f' := SplitFlat(f, pages[f.leaves[s.i]].next, s);
    forall p | p in f'.info ensures PageOk(pages', t, f'.info, p) && Filed(pages', f'.info, p) {
      SplitAllFiled(pages, pages', t, f, s, p);
    }
    forall j | 0 <= j < |f'.leaves| ensures Answers(pages', t, f', contents + multiset{s.e}, j) {
      var j0 := if j <= s.i then j else j - 1;
      assert LiveOk(pages, f, j0) && Answers(pages, t, f, contents, j0);
      SplitAllAnswers(pages, pages', t, f, contents, s, j);
    }
  }

  /** A split whose separator does not recur on the right leaves no straddle. */
  lemma SplitNoStraddle(f: Flat, next: Option<PageId>, s: Split)
    requires s.i < |f.leaves| && PositionsRise(f) && NoStraddle(f.info)
    requires forall x :: x in s.right ==> x.key != s.sep
    ensures NoStraddle(SplitInfo(f, next, s))
  {
    forall r ensures RowsAt(s.right, s.sep)[r] == 0 {
      RowsAtCounts(s.right, s.sep, r);
      assert Entry(s.sep, r) !in s.right;
    }
    assert RowsAt(s.right, s.sep) == multiset{};
  }

  // ---------- deleting from a leaf ----------

  /** No row is filed beyond leaf `i` under a key that belongs to the leaf. */
  ghost predicate EndsCleanly(pages: seq<Node>, t: KeyType, f: Flat, i: int)
    requires 0 <= i < |f.leaves| && |f.leaves| == |f.seps| + 1
    requires f.leaves[i] < |pages| && pages[f.leaves[i]].Leaf?
  {
    forall k: Key, r: RowId :: k.Type() == t && InRange(f.seps, i, k) ==>
      Beyond(f.info, pages[f.leaves[i]].next, k, r) == 0
  }

  /** Rewriting a leaf with some of its entries and no link keeps the leaf
      level intact. */
  lemma ShrinkOk(pages: seq<Node>, t: KeyType, f: Flat, i: int, es: seq<Entry>)
    requires LeavesOk(pages, t, f) && 0 <= i < |f.leaves|
    requires f.leaves[i] < |pages| && pages[f.leaves[i]].Leaf?
    requires forall x :: x in es ==> x in pages[f.leaves[i]].entries
    ensures LeavesOk(pages[f.leaves[i] := Leaf(es, None)], t, f)
  {
    var p := f.leaves[i];
    var pages' := pages[p := Leaf(es, None)];
    forall q | q in f.info ensures PageOk(pages', t, f.info, q) {
      assert PageOk(pages, t, f.info, q);
    }
    forall j | 0 <= j < |f.leaves| ensures LiveOk(pages', f, j) {
      assert LiveOk(pages, f, j);
      assert j != i ==> f.leaves[j] != p;
    }
  }

  lemma RemovedCount(es: seq<Entry>, x: int, e: Entry)
    requires 0 <= x < |es|
    ensures multiset(es[..x] + es[x + 1..])[e] == multiset(es)[e] - if e == es[x] then 1 else 0
  {
    assert es == es[..x] + [es[x]] + es[x + 1..];
  }

  lemma RemoveFiled(pages: seq<Node>, t: KeyType, f: Flat, i: int, x: int, q: PageId)
    requires LeavesOk(pages, t, f) && 0 <= i < |f.leaves| && LiveOk(pages, f, i)
    requires 0 <= x < |pages[f.leaves[i]].entries| && InRange(f.seps, i, pages[f.leaves[i]].entries[x].key)
    requires q in f.info && PageOk(pages, t, f.info, q) && Filed(pages, f.info, q)
    ensures var p := f.leaves[i];
            var es := pages[p].entries;
            Filed(pages[p := Leaf(es[..x] + es[x + 1..], None)], f.info, q)
  {
    var p := f.leaves[i];
    var es := pages[p].entries;
    if q == p && f.info[p].lo.Some? {
      var k := f.info[p].lo.value;
      assert !NoGreater(es, k) by { assert es[x] in es; }
      forall r ensures f.info[p].atLo[r] == Here(f.info, Leaf(es[..x] + es[x + 1..], None), k, r) {
        RemovedCount(es, x, Entry(k, r));
      }
    }
  }

  /** Removing an entry from its leaf removes exactly that entry from what the
      leaves stand for if and only if no row is filed beyond the leaf under a
      key of the leaf: the rewritten leaf has lost its link. */
  lemma RemoveExactIff(pages: seq<Node>, t: KeyType, f: Flat, contents: multiset<Entry>, i: int, x: int)
    requires LeavesOk(pages, t, f) && Represents(pages, t, f, contents)
    requires 0 <= i < |f.leaves| && f.leaves[i] < |pages| && pages[f.leaves[i]].Leaf?
    requires 0 <= x < |pages[f.leaves[i]].entries| && InRange(f.seps, i, pages[f.leaves[i]].entries[x].key)
    ensures
      var p := f.leaves[i];
      var es := pages[p].entries;
      var pages' := pages[p := Leaf(es[..x] + es[x + 1..], None)];
      es[x] in contents && LeavesOk(pages', t, f)
      && (Represents(pages', t, f, contents - multiset{es[x]}) <==> EndsCleanly(pages, t, f, i))
  {
    var p := f.leaves[i];
    var es := pages[p].entries;
    var es' := es[..x] + es[x + 1..];
    var pages' := pages[p := Leaf(es', None)];
    var contents' := contents - multiset{es[x]};
    ShrinkOk(pages, t, f, i, es');
    assert LiveOk(pages, f, i) && PageOk(pages, t, f.info, p) && Answers(pages, t, f, contents, i);
    assert es[x] in es && es[x] == Entry(es[x].key, es[x].row);
    assert contents[es[x]] == Here(f.info, pages[p], es[x].key, es[x].row);
    if EndsCleanly(pages, t, f, i) {
      RemoveExact(pages, t, f, contents, i, x);
    } else {
      RemoveNotExact(pages, t, f, contents, i, x);
    }
  }

  lemma RemoveExact(pages: seq<Node>, t: KeyType, f: Flat, contents: multiset<Entry>, i: int, x: int)
    requires LeavesOk(pages, t, f) && Represents(pages, t, f, contents)
    requires 0 <= i < |f.leaves| && f.leaves[i] < |pages| && pages[f.leaves[i]].Leaf?
    requires 0 <= x < |pages[f.leaves[i]].entries| && InRange(f.seps, i, pages[f.leaves[i]].entries[x].key)
    requires EndsCleanly(pages, t, f, i)
    ensures
      var p := f.leaves[i];
      var es := pages[p].entries;
      var pages' := pages[p := Leaf(es[..x] + es[x + 1..], None)];
      LeavesOk(pages', t, f) && Represents(pages', t, f, contents - multiset{es[x]})
  {
    var p := f.leaves[i];
    var es := pages[p].entries;
    var pages' := pages[p := Leaf(es[..x] + es[x + 1..], None)];
    var contents' := contents - multiset{es[x]};
    assert LiveOk(pages, f, i) && PageOk(pages, t, f.info, p) && Answers(pages, t, f, contents, i);
    ShrinkOk(pages, t, f, i, es[..x] + es[x + 1..]);
    forall q | q in f.info ensures PageOk(pages', t, f.info, q) && Filed(pages', f.info, q) {
      assert PageOk(pages, t, f.info, q) && Filed(pages, f.info, q);
      RemoveFiled(pages, t, f, i, x, q);
    }
    forall j | 0 <= j < |f.leaves| ensures Answers(pages', t, f, contents', j) {
      assert LiveOk(pages, f, j) && Answers(pages, t, f, contents, j);
      forall k: Key, r: RowId | k.Type() == t && InRange(f.seps, j, k)
        ensures contents'[Entry(k, r)] == Here(f.info, pages'[f.leaves[j]], k, r)
      {
        if j == i {
          RemovedCount(es, x, Entry(k, r));
        } else {
          RangesAreDisjoint(f.seps, t, i, j, es[x].key, k);
          assert f.leaves[j] != p;
        }
      }
    }
  }

  lemma RemoveNotExact(pages: seq<Node>, t: KeyType, f: Flat, contents: multiset<Entry>, i: int, x: int)
    requires LeavesOk(pages, t, f) && Represents(pages, t, f, contents)
    requires 0 <= i < |f.leaves| && f.leaves[i] < |pages| && pages[f.leaves[i]].Leaf?
    requires 0 <= x < |pages[f.leaves[i]].entries|
    requires !EndsCleanly(pages, t, f, i)
    ensures
      var p := f.leaves[i];
      var es := pages[p].entries;
      var pages' := pages[p := Leaf(es[..x] + es[x + 1..], None)];
      LeavesOk(pages', t, f) ==> !Represents(pages', t, f, contents - multiset{es[x]})
  {
    var p := f.leaves[i];
    var n := pages[p];
    var es' := n.entries[..x] + n.entries[x + 1..];
    var pages' := pages[p := Leaf(es', None)];
    var k: Key, r: RowId :| k.Type() == t && InRange(f.seps, i, k) && Beyond(f.info, n.next, k, r) != 0;
    assert LiveOk(pages, f, i) && Answers(pages, t, f, contents, i);
    assert contents[Entry(k, r)] == Here(f.info, n, k, r);
    assert NoGreater(n.entries, k);
    RemovedCount(n.entries, x, Entry(k, r));
    assert (contents - multiset{n.entries[x]})[Entry(k, r)] != Here(f.info, pages'[p], k, r);
    assert !Answers(pages', t, f, contents - multiset{n.entries[x]}, i);
  }

  // ---------- merging two neighbouring leaves ----------

  ghost function MergeFlat(f: Flat, i: int): Flat
    requires 0 <= i < |f.seps| && |f.leaves| == |f.seps| + 1
  {
    Flat(f.leaves[..i + 1] + f.leaves[i + 2..], f.seps[..i] + f.seps[i + 1..], f.info)
  }

  lemma MergeIndex(f: Flat, i: int, j: int)
    requires 0 <= i < |f.seps| && |f.leaves| == |f.seps| + 1 && 0 <= j < |f.seps|
    ensures var f' := MergeFlat(f, i);
            f'.leaves[j] == (if j <= i then f.leaves[j] else f.leaves[j + 1])
            && (j < |f'.seps| ==> f'.seps[j] == if j < i then f.seps[j] else f.seps[j + 1])
            && (j > 0 ==> f'.seps[j - 1] == if j <= i then f.seps[j - 1] else f.seps[j])
  {
  }

  ghost predicate MergeWrites(pages: seq<Node>, pages': seq<Node>, f: Flat, i: int, m: seq<Entry>)
    requires 0 <= i < |f.seps| && |f.leaves| == |f.seps| + 1
  {
    var p, q := f.leaves[i], f.leaves[i + 1];
    && p != q && p < |pages| && q < |pages| && pages[p].Leaf? && pages[q].Leaf? && |pages'| == |pages|
    && multiset(m) == multiset(pages[p].entries) + multiset(pages[q].entries)
    && pages'[p] == Leaf(m, pages[q].next) && pages'[q] == Leaf([], None)
    && (forall x :: x in f.info && x != p && x != q ==> x < |pages| && pages'[x] == pages[x])
  }

  lemma MergeMembers(a: seq<Entry>, b: seq<Entry>, m: seq<Entry>)
    requires multiset(m) == multiset(a) + multiset(b)
    ensures forall x :: x in m <==> x in a || x in b
  {
    forall x ensures x in m <==> x in a || x in b {
      assert x in m <==> x in multiset(m);
    }
  }

  lemma MergeLive(pages: seq<Node>, pages': seq<Node>, f: Flat, i: int, m: seq<Entry>, j: int)
    requires 0 <= i < |f.seps| && |f.leaves| == |f.seps| + 1 && 0 <= j < |f.seps| && PositionsRise(f)
    requires MergeWrites(pages, pages', f, i, m)
    requires i + 1 < |f.seps| ==> Rank(f.seps[i]) <= Rank(f.seps[i + 1])
    requires LiveOk(pages, f, i) && LiveOk(pages, f, i + 1) && LiveOk(pages, f, if j <= i then j else j + 1)
    ensures LiveOk(pages', MergeFlat(f, i), j)
  {
    MergeIndex(f, i, j);
    MergeMembers(pages[f.leaves[i]].entries, pages[f.leaves[i + 1]].entries, m);
  }

  /** Merging neighbours keeps the leaf level intact. */
  lemma MergeOk(pages: seq<Node>, pages': seq<Node>, t: KeyType, f: Flat, i: int, m: seq<Entry>)
    requires LeavesOk(pages, t, f) && 0 <= i < |f.seps| && MergeWrites(pages, pages', f, i, m)
    ensures LeavesOk(pages', t, MergeFlat(f, i))
  {
    var p, q := f.leaves[i], f.leaves[i + 1];
    var f' := MergeFlat(f, i);
    assert LiveOk(pages, f, i) && LiveOk(pages, f, i + 1);
    assert PageOk(pages, t, f.info, p) && PageOk(pages, t, f.info, q);
    MergeMembers(pages[p].entries, pages[q].entries, m);
    forall x | x in f.info ensures PageOk(pages', t, f.info, x) {
      assert PageOk(pages, t, f.info, x);
    }
    forall j | 0 <= j < |f'.leaves| ensures LiveOk(pages', f', j) {
      assert LiveOk(pages, f, if j <= i then j else j + 1);
      MergeLive(pages, pages', f, i, m, j);
    }
    MergeSorted(f, t, i);
  }

  lemma MergeSorted(f: Flat, t: KeyType, i: int)
    requires 0 <= i < |f.seps| && |f.leaves| == |f.seps| + 1 && SepsSorted(f.seps, t) && PositionsRise(f)
    ensures SepsSorted(MergeFlat(f, i).seps, t) && PositionsRise(MergeFlat(f, i))
  {
  }

  /** With no straddle, a key at or below a page's low bound is not on it. */
  lemma NotAtLow(pages: seq<Node>, t: KeyType, info: map<PageId, Info>, q: PageId, k: Key, r: RowId)
    requires q in info && PageOk(pages, t, info, q) && Filed(pages, info, q) && info[q].atLo == multiset{}
    requires k.Type() == t && Rank(k) <= info[q].LoRank()
    ensures multiset(pages[q].entries)[Entry(k, r)] == 0
  {
    BeyondIsHere(pages, t, info, q, k, r);
  }

  lemma MergeFiled(pages: seq<Node>, pages': seq<Node>, t: KeyType, f: Flat, i: int, m: seq<Entry>)
    requires 0 <= i < |f.seps| && |f.leaves| == |f.seps| + 1 && MergeWrites(pages, pages', f, i, m)
    requires LiveOk(pages, f, i) && LiveOk(pages, f, i + 1) && NoStraddle(f.info)
    requires var p := f.leaves[i]; PageOk(pages, t, f.info, p) && Filed(pages, f.info, p)
    requires var q := f.leaves[i + 1]; PageOk(pages, t, f.info, q) && Filed(pages, f.info, q)
    requires f.info[f.leaves[i]].LoRank() <= f.info[f.leaves[i + 1]].LoRank()
    ensures Filed(pages', f.info, f.leaves[i]) && Filed(pages', f.info, f.leaves[i + 1])
  {
    var p, q := f.leaves[i], f.leaves[i + 1];
    if f.info[p].lo.Some? {
      forall r ensures Here(f.info, pages'[p], f.info[p].lo.value, r) == 0 {
        NotAtLow(pages, t, f.info, p, f.info[p].lo.value, r);
        NotAtLow(pages, t, f.info, q, f.info[p].lo.value, r);
      }
    }
  }

  lemma MergeAnswers(pages: seq<Node>, pages': seq<Node>, t: KeyType, f: Flat, contents: multiset<Entry>, i: int,
                     m: seq<Entry>, k: Key, r: RowId)
    requires 0 <= i < |f.seps| && |f.leaves| == |f.seps| + 1 && MergeWrites(pages, pages', f, i, m)
    requires LiveOk(pages, f, i) && LiveOk(pages, f, i + 1) && NoStraddle(f.info)
    requires Answers(pages, t, f, contents, i) && Answers(pages, t, f, contents, i + 1)
    requires var q := f.leaves[i + 1]; PageOk(pages, t, f.info, q) && Filed(pages, f.info, q)
    requires k.Type() == t && (i > 0 ==> Rank(f.seps[i - 1]) < Rank(k))
    requires i + 1 < |f.seps| ==> Rank(k) <= Rank(f.seps[i + 1])
    ensures contents[Entry(k, r)] == Here(f.info, pages'[f.leaves[i]], k, r)
  {
    var p, q := f.leaves[i], f.leaves[i + 1];
    if Rank(k) <= Rank(f.seps[i]) {
      assert InRange(f.seps, i, k);
      assert contents[Entry(k, r)] == Here(f.info, pages[p], k, r);
      NotAtLow(pages, t, f.info, q, k, r);
    } else {
      assert InRange(f.seps, i + 1, k);
      assert contents[Entry(k, r)] == Here(f.info, pages[q], k, r);
      assert Entry(k, r) !in pages[p].entries;
    }
  }

  lemma MergeAllAnswers(pages: seq<Node>, pages': seq<Node>, t: KeyType, f: Flat, contents: multiset<Entry>, i: int,
                        m: seq<Entry>, j: int)
    requires LeavesOk(pages, t, f) && Represents(pages, t, f, contents) && NoStraddle(f.info)
    requires 0 <= i < |f.seps| && MergeWrites(pages, pages', f, i, m) && 0 <= j < |f.seps|
    requires LeavesOk(pages', t, MergeFlat(f, i)) && LiveOk(pages', MergeFlat(f, i), j)
    ensures Answers(pages', t, MergeFlat(f, i), contents, j)
  {
    var f' := MergeFlat(f, i);
    MergeIndex(f, i, j);
    var j0 := if j <= i then j else j + 1;
    assert LiveOk(pages, f, j0) && Answers(pages, t, f, contents, j0);
    assert LiveOk(pages, f, i + 1) && Answers(pages, t, f, contents, i + 1);
    if j == i {
      assert PageOk(pages, t, f.info, f.leaves[i + 1]) && Filed(pages, f.info, f.leaves[i + 1]);
      forall k: Key, r: RowId | k.Type() == t && InRange(f'.seps, j, k)
        ensures contents[Entry(k, r)] == Here(f'.info, pages'[f'.leaves[j]], k, r)
      {
        MergeAnswers(pages, pages', t, f, contents, i, m, k, r);
      }
    } else {
      assert forall k :: InRange(f'.seps, j, k) ==> InRange(f.seps, j0, k);
      assert pages'[f'.leaves[j]] == pages[f.leaves[j0]];
    }
  }

  /** With no straddle, merging neighbours changes no answer. */
  lemma MergeLeaves(pages: seq<Node>, pages': seq<Node>, t: KeyType, f: Flat, contents: multiset<Entry>, i: int,
                    m: seq<Entry>)
    requires LeavesOk(pages, t, f) && Represents(pages, t, f, contents) && NoStraddle(f.info)
    requires 0 <= i < |f.seps| && MergeWrites(pages, pages', f, i, m)
    ensures LeavesOk(pages', t, MergeFlat(f, i)) && Represents(pages', t, MergeFlat(f, i), contents)
  {
    MergeOk(pages, pages', t, f, i, m);
    var p, q := f.leaves[i], f.leaves[i + 1];
    var f' := MergeFlat(f, i);
    assert LiveOk(pages, f, i) && LiveOk(pages, f, i + 1);
    assert PageOk(pages, t, f.info, p) && Filed(pages, f.info, p);
    assert PageOk(pages, t, f.info, q) && Filed(pages, f.info, q);
    MergeFiled(pages, pages', t, f, i, m);
    forall x | x in f'.info ensures PageOk(pages', t, f'.info, x) && Filed(pages', f'.info, x) {
      assert PageOk(pages, t, f.info, x) && Filed(pages, f.info, x);
    }
    forall j | 0 <= j < |f'.leaves| ensures Answers(pages', t, f', contents, j) {
      assert LiveOk(pages', f', j);
      MergeAllAnswers(pages, pages', t, f, contents, i, m, j);
    }
  }
}
