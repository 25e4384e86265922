/** Trees whose keys are pairwise distinct: no split leaves a straddle, the
    separator of a split lies strictly inside the leaf's range, and with
    fixed-width keys both halves of any page fit again. */
module BTreeDistinct {
  import opened Keys
  import opened BTreeModel
  import opened BTreeNodes

  ghost predicate Distinct(c: multiset<Entry>) {
    forall a, b :: a in c && b in c && a.key == b.key ==> a == b && c[a] == 1
  }

  /** Without straddles, the entries of a leaf lie strictly above its low bound
      and are all among the contents. */
  lemma LeafWithin(pages: seq<Node>, t: KeyType, f: Flat, contents: multiset<Entry>, i: int)
    requires LeavesOk(pages, t, f) && Represents(pages, t, f, contents) && NoStraddle(f.info)
    requires 0 <= i < |f.leaves| && LiveOk(pages, f, i)
    ensures forall x :: x in pages[f.leaves[i]].entries ==> InRange(f.seps, i, x.key)
    ensures multiset(pages[f.leaves[i]].entries) <= contents
  {
    var p := f.leaves[i];
    var es := pages[p].entries;
    assert PageOk(pages, t, f.info, p) && Filed(pages, f.info, p) && Answers(pages, t, f, contents, i);
    forall x | x in es ensures InRange(f.seps, i, x.key) && multiset(es)[x] <= contents[x] {
      assert x == Entry(x.key, x.row);
      if i > 0 && Rank(x.key) <= Rank(f.seps[i - 1]) {
        NotAtLow(pages, t, f.info, p, x.key, x.row);
        assert false;
      }
      assert contents[Entry(x.key, x.row)] == Here(f.info, pages[p], x.key, x.row);
    }
  }

  lemma SidesDiffer(left: seq<Entry>, right: seq<Entry>, all: multiset<Entry>, y: Entry, x: Entry)
    requires multiset(left) + multiset(right) <= all && Distinct(all) && y in left && x in right
    ensures x.key != y.key
  {
    assert multiset(left)[y] >= 1 && multiset(right)[x] >= 1;
    assert all[x] >= 1 && all[y] >= 1;
    assert all[y] >= multiset(left)[y] + multiset(right)[y];
  }

  /** With distinct keys the separator does not recur on the right, and it lies
      above the split leaf's low bound. */
  lemma SeparatorFresh(pages: seq<Node>, t: KeyType, f: Flat, contents: multiset<Entry>, s: Split)
    requires SplitArgs(pages, t, f, s) && Represents(pages, t, f, contents) && NoStraddle(f.info)
    requires Distinct(contents + multiset{s.e})
    ensures forall x :: x in s.right ==> x.key != s.sep
    ensures s.i > 0 ==> Rank(f.seps[s.i - 1]) < Rank(s.sep)
  {
    var es := pages[f.leaves[s.i]].entries;
    assert LiveOk(pages, f, s.i);
    LeafWithin(pages, t, f, contents, s.i);
    FreshWithin(es, f, contents, s);
  }

  lemma FreshWithin(es: seq<Entry>, f: Flat, contents: multiset<Entry>, s: Split)
    requires Divides(es, s.e, s.left, s.right, s.sep) && Distinct(contents + multiset{s.e})
    requires multiset(es) <= contents && s.i <= |f.seps| && InRange(f.seps, s.i, s.e.key)
    requires forall x :: x in es ==> InRange(f.seps, s.i, x.key)
    ensures forall x :: x in s.right ==> x.key != s.sep
    ensures s.i > 0 ==> Rank(f.seps[s.i - 1]) < Rank(s.sep)
  {
    DividesMembers(es, s.e, s.left, s.right, s.sep);
    var y :| y in s.left && y.key == s.sep;
    assert multiset(es + [s.e]) == multiset(es) + multiset{s.e};
    forall x | x in s.right ensures x.key != s.sep {
      SidesDiffer(s.left, s.right, contents + multiset{s.e}, y, x);
    }
  }

  // ---------- capacity with fixed-width keys ----------

  ghost predicate FixedWidth(t: KeyType) {
    t != VarcharKey
  }

  ghost function Width(t: KeyType): nat
    requires FixedWidth(t)
  {
    match t
    case IntKey => 4
    case BigIntKey => 8
    case BooleanKey => 1
  }

  lemma {:induction false} LeafBytesFixed(es: seq<Entry>, t: KeyType)
    requires FixedWidth(t) && forall x :: x in es ==> x.key.Type() == t
    ensures LeafBytes(es) == LEAF_HEADER + (12 + Width(t)) * |es|
  {
    if es != [] {
      LeafBytesFixed(es[..|es| - 1], t);
    }
  }

  lemma {:induction false} InternalBytesFixed(cs: seq<Child>, t: KeyType)
    requires FixedWidth(t) && forall x :: x in Seps(cs) ==> x.Type() == t
    ensures InternalBytes(cs) == INTERNAL_HEADER + (10 + Width(t)) * |cs|
  {
    if cs != [] {
      assert forall i :: 0 <= i < |cs| ==> cs[i].sep == Seps(cs)[i];
      forall x | x in Seps(cs[..|cs| - 1]) ensures x.Type() == t {
        assert x in Seps(cs);
      }
      InternalBytesFixed(cs[..|cs| - 1], t);
      assert Seps(cs)[|cs| - 1] in Seps(cs);
    }
  }

  /** No half of a full leaf is too long. */
  lemma HalvesFit(es: seq<Entry>, e: Entry, left: seq<Entry>, right: seq<Entry>, sep: Key, t: KeyType)
    requires FixedWidth(t) && e.key.Type() == t && forall x :: x in es ==> x.key.Type() == t
    requires LeafBytes(es) <= PAGE_SIZE && Halves(es, e, left, right, sep) && es != []
    ensures LeafBytes(left) <= PAGE_SIZE && LeafBytes(right) <= PAGE_SIZE
  {
    hide LeafBytes, Divides;
    SameCounts(es, e, left, right, sep);
    DividesMembers(es, e, left, right, sep);
    LeafBytesFixed(es, t);
    LeafBytesFixed(left, t);
    LeafBytesFixed(right, t);
    Wider(12 + Width(t), |left|, |es|);
    Wider(12 + Width(t), |right|, |es|);
  }

  lemma Wider(w: nat, a: nat, n: nat)
    requires a <= n
    ensures w * a <= w * n
  {
  }

  /** With fixed-width keys a full leaf can always be split. */
  lemma FullLeafSplits(es: seq<Entry>, e: Entry, t: KeyType)
    requires FixedWidth(t) && e.key.Type() == t && forall x :: x in es ==> x.key.Type() == t
    requires LeafBytes(es) <= PAGE_SIZE < LeafBytes(es) + 12 + e.key.Size()
    ensures Splits(es, e)
  {
    forall left, right, sep | Halves(es, e, left, right, sep)
      ensures LeafBytes(left) <= PAGE_SIZE && LeafBytes(right) <= PAGE_SIZE {
      HalvesFit(es, e, left, right, sep, t);
    }
  }

  /** A separator, being the key of a stored entry, fits in an internal page. */
  lemma SeparatorFits(left: seq<Entry>, sep: Key)
    requires LeafBytes(left) <= PAGE_SIZE && exists x :: x in left && x.key == sep
    ensures INTERNAL_HEADER + 10 + sep.Size() <= PAGE_SIZE
  {
    var i :| 0 <= i < |left| && left[i].key == sep;
    LeafBytesMember(left, i);
  }

  lemma SomeSeps(seps: seq<Key>, lo: nat, hi: nat, t: KeyType)
    requires lo <= hi <= |seps| && forall x :: x in seps ==> x.Type() == t
    ensures forall x :: x in seps[lo..hi] ==> x.Type() == t
  {
  }

  lemma HalfCount(n: nat, w: nat)
    requires w in {1, 4, 8} && INTERNAL_HEADER + (10 + w) * n <= PAGE_SIZE < INTERNAL_HEADER + (10 + w) * n + 10 + w
    ensures INTERNAL_HEADER + (10 + w) * (n / 2) + 10 + w <= PAGE_SIZE
    ensures n > 0 && INTERNAL_HEADER + (10 + w) * (n - n / 2 - 1) + 10 + w <= PAGE_SIZE
  {
    if w == 1 {
    } else if w == 4 {
    } else {
    }
  }

  /** Half of a full internal page has room for one more child. */
  lemma HalfHasRoom(n: Node, l: Node, r: Node, m: Key, sep: Key, t: KeyType)
    requires FixedWidth(t) && Halved(n, l, r, m) && Fits(n)
    requires sep.Type() == t && forall x :: x in Seps(n.children) ==> x.Type() == t
    requires InternalBytes(n.children) + 10 + sep.Size() > PAGE_SIZE
    ensures InternalBytes(l.children) + 10 + sep.Size() <= PAGE_SIZE
    ensures InternalBytes(r.children) + 10 + sep.Size() <= PAGE_SIZE
  {
    hide InternalBytes;
    var h := |n.children| / 2;
    InternalBytesFixed(n.children, t);
    assert |l.children| == |Seps(l.children)| == h && |r.children| == |Seps(r.children)| == |n.children| - h - 1;
    SomeSeps(Seps(n.children), 0, h, t);
    SomeSeps(Seps(n.children), h + 1, |n.children|, t);
    InternalBytesFixed(l.children, t);
    InternalBytesFixed(r.children, t);
    assert sep.Size() == Width(t);
    HalfCount(|n.children|, Width(t));
  }
}
