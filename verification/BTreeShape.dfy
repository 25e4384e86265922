/** How the root reaches the leaves. The engine grows a tree to at most three
    levels: the split of a leaf is always entered into the root page. */
module BTreeShape {
  import opened Wrappers
  import opened Keys
  import opened BTreeModel
  import opened BTreeNodes

  /** `ThreeLevel` names the two pages below the root; `cut` is the index of the
      separator between them. */
  datatype Shape = OneLeaf | TwoLevel | ThreeLevel(left: PageId, right: PageId, cut: nat)

  ghost predicate Holds(pages: seq<Node>, p: PageId, kids: seq<PageId>, seps: seq<Key>) {
    p < |pages| && pages[p].Internal? && Kids(pages[p]) == kids && Seps(pages[p].children) == seps
  }

  ghost predicate ShapeOk(pages: seq<Node>, root: PageId, s: Shape, f: Flat) {
    match s
    case OneLeaf => f.leaves == [root] && f.seps == [] && f.info.Keys == {root}
    case TwoLevel => Holds(pages, root, f.leaves, f.seps)
    case ThreeLevel(l, r, cut) =>
      && cut < |f.seps| && |f.leaves| == |f.seps| + 1 && root != l && root != r && l != r
      && Holds(pages, root, [l, r], [f.seps[cut]])
      && Holds(pages, l, f.leaves[..cut + 1], f.seps[..cut])
      && Holds(pages, r, f.leaves[cut + 1..], f.seps[cut + 1..])
  }

  /** The page above leaf `i`, if any. */
  ghost function ParentOf(root: PageId, s: Shape, i: int): Option<PageId> {
    match s
    case OneLeaf => None
    case TwoLevel => Some(root)
    case ThreeLevel(l, r, cut) => Some(if i <= cut then l else r)
  }

  /** Index of leaf `i` among the children of its parent. */
  ghost function KidIndex(s: Shape, i: int): int {
    if s.ThreeLevel? && i > s.cut then i - s.cut - 1 else i
  }

  // ---------- descending ----------

  /** `p`, reached below `parent`, still leads to the leaf that `k` belongs to. */
  ghost predicate OnPath(root: PageId, s: Shape, f: Flat, k: Key, p: PageId, parent: Option<PageId>, i: int) {
    && 0 <= i < |f.leaves| == |f.seps| + 1 && InRange(f.seps, i, k)
    && if s.OneLeaf? || p == f.leaves[i] then p == f.leaves[i] && parent == ParentOf(root, s, i)
       else p == root || (s.ThreeLevel? && Some(p) == ParentOf(root, s, i))
  }

  /** A leaf's range, in terms of the page above it. */
  lemma KidRange(pages: seq<Node>, root: PageId, s: Shape, f: Flat, t: KeyType, k: Key, p: PageId, i: int)
    requires LeavesOk(pages, t, f) && ShapeOk(pages, root, s, f)
    requires 0 <= i < |f.leaves| && InRange(f.seps, i, k) && ParentOf(root, s, i) == Some(p)
    ensures Route(pages[p], k) == f.leaves[i]
  {
    var x := KidIndex(s, i);
    var seps := Seps(pages[p].children);
    assert forall j :: 0 <= j < i ==> Rank(f.seps[j]) <= Rank(f.seps[i - 1]);
    RouteIndexUnique(seps, k, x);
  }

  /** At the root of a three-level tree the separator decides the side. */
  lemma RootRange(pages: seq<Node>, root: PageId, s: Shape, f: Flat, t: KeyType, k: Key, i: int)
    requires LeavesOk(pages, t, f) && ShapeOk(pages, root, s, f) && s.ThreeLevel?
    requires 0 <= i < |f.leaves| && InRange(f.seps, i, k)
    ensures Some(Route(pages[root], k)) == ParentOf(root, s, i)
  {
    assert i < s.cut ==> Rank(f.seps[i]) <= Rank(f.seps[s.cut]);
    assert s.cut < i - 1 ==> Rank(f.seps[s.cut]) <= Rank(f.seps[i - 1]);
    RouteIndexUnique([f.seps[s.cut]], k, if i <= s.cut then 0 else 1);
  }

  /** Every key belongs to a leaf. */
  lemma RangeExists(seps: seq<Key>, k: Key) returns (i: nat)
    ensures i <= |seps| && InRange(seps, i, k)
  {
    i := RouteExists(seps, k);
  }

  // ---------- what does not disturb a tree ----------

  /** The pages of the tree are untouched; others may have been added. */
  ghost predicate SamePages(pages: seq<Node>, pages': seq<Node>, f: Flat) {
    forall p :: p in f.info ==> p < |pages| && p < |pages'| && pages'[p] == pages[p]
  }

  lemma UndisturbedLeaves(pages: seq<Node>, pages': seq<Node>, t: KeyType, f: Flat, contents: multiset<Entry>)
    requires LeavesOk(pages, t, f) && SamePages(pages, pages', f)
    ensures LeavesOk(pages', t, f)
    ensures Represents(pages, t, f, contents) ==> Represents(pages', t, f, contents)
  {
    forall p | p in f.info ensures PageOk(pages', t, f.info, p) {
      assert PageOk(pages, t, f.info, p);
    }
    forall i | 0 <= i < |f.leaves| ensures LiveOk(pages', f, i) {
      assert LiveOk(pages, f, i);
    }
    if Represents(pages, t, f, contents) {
      forall p | p in f.info ensures PageOk(pages', t, f.info, p) && Filed(pages', f.info, p) {
        assert PageOk(pages, t, f.info, p) && Filed(pages, f.info, p);
      }
      forall i | 0 <= i < |f.leaves| ensures Answers(pages', t, f, contents, i) {
        assert LiveOk(pages, f, i) && Answers(pages, t, f, contents, i);
      }
    }
  }

  lemma LinkedAreLeaves(pages: seq<Node>, t: KeyType, f: Flat, p: PageId)
    requires LeavesOk(pages, t, f) && p in f.info
    ensures p < |pages| && pages[p].Leaf?
  {
    assert PageOk(pages, t, f.info, p);
  }

  /** Leaves are distinct pages, so a leaf's first occurrence is its index. */
  lemma LeafFirstAt(f: Flat, i: int)
    requires PositionsRise(f) && 0 <= i < |f.leaves|
    ensures FirstAt(f.leaves, f.leaves[i], i)
    ensures forall lo, hi :: 0 <= lo <= i < hi <= |f.leaves| ==> FirstAt(f.leaves[lo..hi], f.leaves[i], i - lo)
  {
  }

  // ---------- the root after a split ----------

  /** The first split: the root leaf's contents move to two fresh leaves, and
      the root page leaves the chain. */
  ghost function Unroot(f: Flat, root: PageId): Flat {
    Flat(f.leaves, f.seps, map p | p in f.info && p != root :: f.info[p])
  }

  ghost predicate UnrootWrites(pages: seq<Node>, pages': seq<Node>, f: Flat, root: PageId) {
    && root !in f.leaves
    && (forall p :: p in f.info && p != root ==>
          p < |pages| && p < |pages'| && pages'[p] == pages[p] && pages[p].Leaf? && pages[p].next != Some(root))
  }

  lemma UnrootOk(pages: seq<Node>, pages': seq<Node>, t: KeyType, f: Flat, root: PageId)
    requires LeavesOk(pages, t, f) && UnrootWrites(pages, pages', f, root)
    ensures LeavesOk(pages', t, Unroot(f, root))
  {
    var f' := Unroot(f, root);
    forall p | p in f'.info ensures PageOk(pages', t, f'.info, p) {
      assert PageOk(pages, t, f.info, p);
    }
    forall i | 0 <= i < |f.leaves| ensures LiveOk(pages', f', i) {
      assert LiveOk(pages, f, i);
    }
  }

  lemma UnrootHere(f: Flat, root: PageId, n: Node, k: Key, r: RowId)
    requires n.Leaf? && n.next != Some(root)
    ensures Here(Unroot(f, root).info, n, k, r) == Here(f.info, n, k, r)
  {
  }

  lemma UnrootRepresents(pages: seq<Node>, pages': seq<Node>, t: KeyType, f: Flat, contents: multiset<Entry>,
                         root: PageId)
    requires LeavesOk(pages, t, f) && UnrootWrites(pages, pages', f, root) && Represents(pages, t, f, contents)
    ensures LeavesOk(pages', t, Unroot(f, root)) && Represents(pages', t, Unroot(f, root), contents)
  {
    UnrootOk(pages, pages', t, f, root);
    var f' := Unroot(f, root);
    forall p | p in f'.info ensures PageOk(pages', t, f'.info, p) && Filed(pages', f'.info, p) {
      assert PageOk(pages, t, f.info, p) && Filed(pages, f.info, p);
      forall k, r ensures Here(f'.info, pages'[p], k, r) == Here(f.info, pages[p], k, r) {
        UnrootHere(f, root, pages[p], k, r);
      }
    }
    forall i | 0 <= i < |f.leaves| ensures Answers(pages', t, f', contents, i) {
      assert LiveOk(pages, f, i) && Answers(pages, t, f, contents, i);
      forall k, r ensures Here(f'.info, pages'[f.leaves[i]], k, r) == Here(f.info, pages[f.leaves[i]], k, r) {
        UnrootHere(f, root, pages[f.leaves[i]], k, r);
      }
    }
  }

  lemma ReplaceLeft<T>(xs: seq<T>, i: nat, a: T, b: T, h: nat)
    requires i <= h < |xs|
    ensures var ys := xs[..i] + [a, b] + xs[i + 1..];
            xs[..h + 1][..i] + [a, b] + xs[..h + 1][i + 1..] == ys[..h + 2] && xs[h + 1..] == ys[h + 2..]
  {
  }

  lemma ReplaceRight<T>(xs: seq<T>, i: nat, a: T, b: T, h: nat)
    requires h < i < |xs|
    ensures var ys := xs[..i] + [a, b] + xs[i + 1..];
            xs[..h + 1] == ys[..h + 1]
            && xs[h + 1..][..i - h - 1] + [a, b] + xs[h + 1..][i - h..] == ys[h + 1..]
  {
  }

  lemma InsertLeft<T>(xs: seq<T>, i: nat, s: T, h: nat)
    requires i <= h < |xs|
    ensures var ys := xs[..i] + [s] + xs[i..];
            xs[..h][..i] + [s] + xs[..h][i..] == ys[..h + 1] && xs[h] == ys[h + 1] && xs[h + 1..] == ys[h + 2..]
  {
  }

  lemma InsertRight<T>(xs: seq<T>, i: nat, s: T, h: nat)
    requires h < i <= |xs|
    ensures var ys := xs[..i] + [s] + xs[i..];
            xs[..h] == ys[..h] && xs[h] == ys[h]
            && xs[h + 1..][..i - h - 1] + [s] + xs[h + 1..][i - h - 1..] == ys[h + 1..]
  {
  }

  ghost predicate ReplacedIn(from: Node, x: Node, j: nat, s: Split) {
    Replaced(from, x, j, s.a, s.b, s.sep)
  }

  lemma ThreeLevelSeqs(f: Flat, next: Option<PageId>, s: Split, h: nat)
    requires |f.leaves| == |f.seps| + 1 && PositionsRise(f) && s.i < |f.leaves| && h < |f.seps|
    ensures var f' := SplitFlat(f, next, s);
      if s.i <= h then
        && f'.leaves[..h + 2] == f.leaves[..h + 1][..s.i] + [s.a, s.b] + f.leaves[..h + 1][s.i + 1..]
        && f'.leaves[h + 2..] == f.leaves[h + 1..]
        && f'.seps[..h + 1] == f.seps[..h][..s.i] + [s.sep] + f.seps[..h][s.i..]
        && f'.seps[h + 1] == f.seps[h] && f'.seps[h + 2..] == f.seps[h + 1..]
      else
        && f'.leaves[..h + 1] == f.leaves[..h + 1]
        && f'.leaves[h + 1..] == f.leaves[h + 1..][..s.i - h - 1] + [s.a, s.b] + f.leaves[h + 1..][s.i - h..]
        && f'.seps[..h] == f.seps[..h] && f'.seps[h] == f.seps[h]
        && f'.seps[h + 1..] == f.seps[h + 1..][..s.i - h - 1] + [s.sep] + f.seps[h + 1..][s.i - h - 1..]
  {
    hide PositionsRise, SplitInfo;
    if s.i <= h {
      ReplaceLeft(f.leaves, s.i, s.a, s.b, h);
      InsertLeft(f.seps, s.i, s.sep, h);
    } else {
      ReplaceRight(f.leaves, s.i, s.a, s.b, h);
      InsertRight(f.seps, s.i, s.sep, h);
    }
  }

  lemma SplitLengths(f: Flat, next: Option<PageId>, s: Split)
    requires |f.leaves| == |f.seps| + 1 && PositionsRise(f) && s.i < |f.leaves|
    ensures |SplitFlat(f, next, s).leaves| == |f.leaves| + 1 && |SplitFlat(f, next, s).seps| == |f.seps| + 1
  {
  }

  /** A root that was too full has become two internal pages, the split child
      replaced in the half that holds it. */
  lemma ThreeLevelLeft(n: Node, l: Node, r: Node, m: Key, s: Split, x: Node, f: Flat, next: Option<PageId>)
    requires Halved(n, l, r, m) && s.i <= |n.children| / 2 && ReplacedIn(l, x, s.i, s)
    requires |f.leaves| == |f.seps| + 1 && PositionsRise(f) && s.i < |f.leaves|
    requires Kids(n) == f.leaves && Seps(n.children) == f.seps
    ensures var f', cut := SplitFlat(f, next, s), |n.children| / 2 + 1;
            && cut < |f'.seps| && |f'.leaves| == |f'.seps| + 1 && f'.seps[cut] == m
            && Kids(x) == f'.leaves[..cut + 1] && Seps(x.children) == f'.seps[..cut]
            && Kids(r) == f'.leaves[cut + 1..] && Seps(r.children) == f'.seps[cut + 1..]
  {
    hide PositionsRise, SplitFlat;
    SplitLengths(f, next, s);
    ThreeLevelSeqs(f, next, s, |n.children| / 2);
  }

  lemma ThreeLevelRight(n: Node, l: Node, r: Node, m: Key, s: Split, x: Node, f: Flat, next: Option<PageId>)
    requires Halved(n, l, r, m) && s.i > |n.children| / 2 && ReplacedIn(r, x, s.i - |n.children| / 2 - 1, s)
    requires |f.leaves| == |f.seps| + 1 && PositionsRise(f) && s.i < |f.leaves|
    requires Kids(n) == f.leaves && Seps(n.children) == f.seps
    ensures var f', cut := SplitFlat(f, next, s), |n.children| / 2;
            && cut < |f'.seps| && |f'.leaves| == |f'.seps| + 1 && f'.seps[cut] == m
            && Kids(l) == f'.leaves[..cut + 1] && Seps(l.children) == f'.seps[..cut]
            && Kids(x) == f'.leaves[cut + 1..] && Seps(x.children) == f'.seps[cut + 1..]
  {
    hide PositionsRise, SplitFlat;
    SplitLengths(f, next, s);
    ThreeLevelSeqs(f, next, s, |n.children| / 2);
  }

  // ---------- the three ways a leaf split ends ----------

  /** The root leaf was split: it becomes an internal page over two leaves. */
  lemma RootSplit(pages: seq<Node>, pages': seq<Node>, root: PageId, t: KeyType, f: Flat, contents: multiset<Entry>,
                  s: Split)
    requires LeavesOk(pages, t, f) && ShapeOk(pages, root, OneLeaf, f) && s.i == 0 && root < |pages|
    requires SplitArgs(pages, t, f, s) && s.a >= |pages| && s.b >= |pages| && root < |pages'|
    requires SplitWrites(pages, pages'[root := pages[root]], f, pages[root].next, s)
    requires pages'[root] == Internal([Child(s.a, s.sep)], s.b)
    ensures var f' := Unroot(SplitFlat(f, pages[root].next, s), root);
            && LeavesOk(pages', t, f') && ShapeOk(pages', root, TwoLevel, f')
            && (Represents(pages, t, f, contents) ==> Represents(pages', t, f', contents + multiset{s.e}))
            && (NoStraddle(SplitInfo(f, pages[root].next, s)) ==> NoStraddle(f'.info))
  {
    var mid := pages'[root := pages[root]];
    var f1 := SplitFlat(f, pages[root].next, s);
    assert LiveOk(pages, f, 0);
    assert f1.leaves == [s.a, s.b] && f1.seps == [s.sep];
    SplitLeavesOk(pages, mid, t, f, s);
    assert UnrootWrites(mid, pages', f1, root);
    UnrootOk(mid, pages', t, f1, root);
    assert Kids(pages'[root]) == [s.a, s.b] && Seps(pages'[root].children) == [s.sep];
    if Represents(pages, t, f, contents) {
      SplitLeaf(pages, mid, t, f, contents, s);
      UnrootRepresents(mid, pages', t, f1, contents + multiset{s.e}, root);
    }
  }

  /** The leaf's parent is the root, and the root had room. */
  lemma ChildSplit(pages: seq<Node>, pages': seq<Node>, root: PageId, t: KeyType, f: Flat, contents: multiset<Entry>,
                   s: Split)
    requires LeavesOk(pages, t, f) && ShapeOk(pages, root, TwoLevel, f)
    requires SplitArgs(pages, t, f, s)
    requires SplitWrites(pages, pages', f, pages[f.leaves[s.i]].next, s)
    requires root < |pages'| && ReplacedIn(pages[root], pages'[root], s.i, s)
    ensures var f' := SplitFlat(f, pages[f.leaves[s.i]].next, s);
            && LeavesOk(pages', t, f') && ShapeOk(pages', root, TwoLevel, f')
            && (Represents(pages, t, f, contents) ==> Represents(pages', t, f', contents + multiset{s.e}))
  {
    SplitLeavesOk(pages, pages', t, f, s);
    if Represents(pages, t, f, contents) {
      SplitLeaf(pages, pages', t, f, contents, s);
    }
  }

  /** The shape the tree takes when the full root is split at its middle. */
  ghost function GrownShape(n: Node, i: nat, lp: PageId, rp: PageId): Shape
    requires n.Internal?
  {
    ThreeLevel(lp, rp, if i <= |n.children| / 2 then |n.children| / 2 + 1 else |n.children| / 2)
  }

  /** What the pages above the leaves are when the full root has been split. */
  ghost predicate Grown(n: Node, pages': seq<Node>, root: PageId, s: Split, l: Node, r: Node, m: Key, x: Node,
                        lp: PageId, rp: PageId) {
    && Halved(n, l, r, m)
    && (if s.i <= |n.children| / 2 then ReplacedIn(l, x, s.i, s) else ReplacedIn(r, x, s.i - |n.children| / 2 - 1, s))
    && root < |pages'| && lp < |pages'| && rp < |pages'| && root != lp && root != rp && lp != rp
    && pages'[root] == Internal([Child(lp, m)], rp)
    && pages'[lp] == (if s.i <= |n.children| / 2 then x else l)
    && pages'[rp] == (if s.i <= |n.children| / 2 then r else x)
  }

  lemma GrownLeft(n: Node, pages': seq<Node>, root: PageId, f: Flat, next: Option<PageId>, s: Split,
                  l: Node, r: Node, m: Key, x: Node, lp: PageId, rp: PageId)
    requires Grown(n, pages', root, s, l, r, m, x, lp, rp) && s.i <= |n.children| / 2
    requires |f.leaves| == |f.seps| + 1 && PositionsRise(f) && s.i < |f.leaves|
    requires Kids(n) == f.leaves && Seps(n.children) == f.seps
    ensures ShapeOk(pages', root, ThreeLevel(lp, rp, |n.children| / 2 + 1), SplitFlat(f, next, s))
  {
    ThreeLevelLeft(n, l, r, m, s, x, f, next);
    assert Kids(pages'[root]) == [lp, rp] && Seps(pages'[root].children) == [m];
  }

  lemma GrownRight(n: Node, pages': seq<Node>, root: PageId, f: Flat, next: Option<PageId>, s: Split,
                   l: Node, r: Node, m: Key, x: Node, lp: PageId, rp: PageId)
    requires Grown(n, pages', root, s, l, r, m, x, lp, rp) && s.i > |n.children| / 2
    requires |f.leaves| == |f.seps| + 1 && PositionsRise(f) && s.i < |f.leaves|
    requires Kids(n) == f.leaves && Seps(n.children) == f.seps
    ensures ShapeOk(pages', root, ThreeLevel(lp, rp, |n.children| / 2), SplitFlat(f, next, s))
  {
    ThreeLevelRight(n, l, r, m, s, x, f, next);
    assert Kids(pages'[root]) == [lp, rp] && Seps(pages'[root].children) == [m];
  }

  lemma GrowingRoot(pages: seq<Node>, root: PageId, t: KeyType, f: Flat, s: Split)
    requires LeavesOk(pages, t, f) && ShapeOk(pages, root, TwoLevel, f) && SplitArgs(pages, t, f, s)
    ensures |f.leaves| == |f.seps| + 1 && PositionsRise(f) && s.i < |f.leaves| && f.leaves[s.i] < |pages|
    ensures pages[f.leaves[s.i]].Leaf? && root < |pages| && pages[root].Internal?
    ensures Kids(pages[root]) == f.leaves && Seps(pages[root].children) == f.seps
  {
  }

  /** The leaf's parent is the root, and the root was full: the tree grows. */
  lemma RootGrows(pages: seq<Node>, pages': seq<Node>, root: PageId, t: KeyType, f: Flat, contents: multiset<Entry>,
                  s: Split,
                  l: Node, r: Node, m: Key, x: Node, lp: PageId, rp: PageId)
    requires LeavesOk(pages, t, f) && ShapeOk(pages, root, TwoLevel, f)
    requires SplitArgs(pages, t, f, s)
    requires SplitWrites(pages, pages', f, pages[f.leaves[s.i]].next, s)
    requires Grown(pages[root], pages', root, s, l, r, m, x, lp, rp)
    ensures var f' := SplitFlat(f, pages[f.leaves[s.i]].next, s);
            && LeavesOk(pages', t, f') && ShapeOk(pages', root, GrownShape(pages[root], s.i, lp, rp), f')
            && (Represents(pages, t, f, contents) ==> Represents(pages', t, f', contents + multiset{s.e}))
  {
    hide LeavesOk, Represents, ShapeOk, SplitWrites, Grown, SplitFlat, PositionsRise, SplitArgs;
    GrowingRoot(pages, root, t, f, s);
    if s.i <= |pages[root].children| / 2 {
      GrownLeft(pages[root], pages', root, f, pages[f.leaves[s.i]].next, s, l, r, m, x, lp, rp);
    } else {
      GrownRight(pages[root], pages', root, f, pages[f.leaves[s.i]].next, s, l, r, m, x, lp, rp);
    }
    SplitLeavesOk(pages, pages', t, f, s);
    if Represents(pages, t, f, contents) {
      SplitLeaf(pages, pages', t, f, contents, s);
    }
  }

  // ---------- merging below a parent ----------

  /** Leaves `i` and `i + 1` hang from one page. */
  ghost predicate Siblings(s: Shape, i: int) {
    !s.OneLeaf? && (s.ThreeLevel? ==> i != s.cut)
  }

  ghost function ShrunkShape(s: Shape, i: int): Shape {
    if s.ThreeLevel? && 0 < s.cut && i < s.cut then s.(cut := s.cut - 1) else s
  }

  /** A parent without the child after `j`, and without the separator between. */
  ghost predicate Removed(from: Node, x: Node, j: int) {
    && from.Internal? && x.Internal? && 0 <= j < |from.children|
    && Kids(x) == Kids(from)[..j + 1] + Kids(from)[j + 2..]
    && Seps(x.children) == Seps(from.children)[..j] + Seps(from.children)[j + 1..]
  }

  lemma RemoveLeftSeqs<T>(xs: seq<T>, i: nat, h: nat)
    requires i < h < |xs|
    ensures var ys := xs[..i] + xs[i + 1..];
            xs[..h][..i] + xs[..h][i + 1..] == ys[..h - 1] && xs[h..] == ys[h - 1..] && xs[h] == ys[h - 1]
            && xs[h + 1..] == ys[h..]
  {
  }

  lemma RemoveRightSeqs<T>(xs: seq<T>, i: nat, h: nat)
    requires h <= i < |xs|
    ensures var ys := xs[..i] + xs[i + 1..];
            xs[..h] == ys[..h] && xs[h..][..i - h] + xs[h..][i - h + 1..] == ys[h..]
  {
  }

  lemma MergeSeqsLeft(f: Flat, i: nat, h: nat)
    requires |f.leaves| == |f.seps| + 1 && i < h < |f.seps|
    ensures var f' := MergeFlat(f, i);
            && f.leaves[..h + 1][..i + 1] + f.leaves[..h + 1][i + 2..] == f'.leaves[..h]
            && f.leaves[h + 1..] == f'.leaves[h..]
            && f.seps[..h][..i] + f.seps[..h][i + 1..] == f'.seps[..h - 1]
            && f.seps[h] == f'.seps[h - 1] && f.seps[h + 1..] == f'.seps[h..]
  {
    RemoveLeftSeqs(f.leaves, i + 1, h + 1);
    RemoveLeftSeqs(f.seps, i, h);
  }

  lemma MergeShapeLeft(pages: seq<Node>, pages': seq<Node>, root: PageId, s: Shape, f: Flat, i: int)
    requires s.ThreeLevel? && |f.leaves| == |f.seps| + 1 && 0 <= i < s.cut
    requires ShapeOk(pages, root, s, f)
    requires root < |pages'| && s.left < |pages'| && s.right < |pages'|
    requires pages'[root] == pages[root] && pages'[s.right] == pages[s.right]
    requires Removed(pages[s.left], pages'[s.left], i)
    ensures ShapeOk(pages', root, ShrunkShape(s, i), MergeFlat(f, i))
  {
    MergeSeqsLeft(f, i, s.cut);
  }

  lemma MergeShapeRight(pages: seq<Node>, pages': seq<Node>, root: PageId, s: Shape, f: Flat, i: int)
    requires s.ThreeLevel? && |f.leaves| == |f.seps| + 1 && s.cut < i < |f.seps|
    requires ShapeOk(pages, root, s, f)
    requires root < |pages'| && s.left < |pages'| && s.right < |pages'|
    requires pages'[root] == pages[root] && pages'[s.left] == pages[s.left]
    requires Removed(pages[s.right], pages'[s.right], i - s.cut - 1)
    ensures ShapeOk(pages', root, ShrunkShape(s, i), MergeFlat(f, i))
  {
    RemoveRightSeqs(f.leaves, i + 1, s.cut + 1);
    RemoveRightSeqs(f.seps, i, s.cut + 1);
    var f' := MergeFlat(f, i);
    assert Kids(pages'[s.left]) == f'.leaves[..s.cut + 1] && Seps(pages'[s.left].children) == f'.seps[..s.cut];
    assert Kids(pages'[s.right]) == f'.leaves[s.cut + 1..] && Seps(pages'[s.right].children) == f'.seps[s.cut + 1..];
    assert f'.seps[s.cut] == f.seps[s.cut];
  }

  /** The pages above the leaves after a merge. */
  lemma MergeShape(pages: seq<Node>, pages': seq<Node>, root: PageId, s: Shape, f: Flat, i: int, parent: PageId)
    requires ShapeOk(pages, root, s, f) && |f.leaves| == |f.seps| + 1 && 0 <= i < |f.seps| && Siblings(s, i)
    requires ParentOf(root, s, i) == Some(parent) && |pages| == |pages'| && parent < |pages|
    requires Removed(pages[parent], pages'[parent], KidIndex(s, i))
    requires forall p :: 0 <= p < |pages| && pages[p].Internal? && p != parent ==> pages'[p] == pages[p]
    ensures ShapeOk(pages', root, ShrunkShape(s, i), MergeFlat(f, i))
  {
    if s.ThreeLevel? {
      if i < s.cut {
        MergeShapeLeft(pages, pages', root, s, f, i);
      } else {
        MergeShapeRight(pages, pages', root, s, f, i);
      }
    }
  }

  lemma KidExists(pages: seq<Node>, root: PageId, t: KeyType, s: Shape, f: Flat, i: int, parent: PageId)
    requires LeavesOk(pages, t, f) && ShapeOk(pages, root, s, f) && 0 <= i < |f.leaves|
    requires ParentOf(root, s, i) == Some(parent)
    ensures parent < |pages| && pages[parent].Internal? && f.leaves[i] in Kids(pages[parent])
  {
    KidFirstAt(pages, root, t, s, f, i, parent);
    assert Kids(pages[parent])[KidIndex(s, i)] == f.leaves[i];
  }

  lemma KidFirstAt(pages: seq<Node>, root: PageId, t: KeyType, s: Shape, f: Flat, i: int, parent: PageId)
    requires LeavesOk(pages, t, f) && ShapeOk(pages, root, s, f) && 0 <= i < |f.leaves|
    requires ParentOf(root, s, i) == Some(parent)
    ensures parent < |pages| && pages[parent].Internal?
    ensures |Kids(pages[parent])| == |pages[parent].children| + 1
    ensures FirstAt(Kids(pages[parent]), f.leaves[i], KidIndex(s, i))
    ensures KidIndex(s, i) < |pages[parent].children| ==>
              i < |f.seps| && Siblings(s, i) && Kids(pages[parent])[KidIndex(s, i) + 1] == f.leaves[i + 1]
    ensures KidIndex(s, i) > 0 ==>
              i > 0 && Siblings(s, i - 1) && ParentOf(root, s, i - 1) == Some(parent)
              && KidIndex(s, i - 1) == KidIndex(s, i) - 1
  {
    LeafFirstAt(f, i);
  }

  /** The pair chosen for a merge is the leaf and its right neighbour, or for
      the last child of the parent its left neighbour and the leaf. */
  lemma MergePair(pages: seq<Node>, root: PageId, t: KeyType, s: Shape, f: Flat, i: int, parent: PageId, k: nat)
    returns (m: int)
    requires LeavesOk(pages, t, f) && ShapeOk(pages, root, s, f) && 0 <= i < |f.leaves|
    requires ParentOf(root, s, i) == Some(parent) && parent < |pages| && pages[parent].Internal?
    requires FirstAt(Kids(pages[parent]), f.leaves[i], k) && pages[parent].children != []
    ensures 0 <= m < |f.seps| && Siblings(s, m) && ParentOf(root, s, m) == Some(parent)
    ensures 0 <= KidIndex(s, m) < |pages[parent].children|
    ensures FirstAt(Kids(pages[parent]), f.leaves[m], KidIndex(s, m))
    ensures Kids(pages[parent])[KidIndex(s, m) + 1] == f.leaves[m + 1]
    ensures k < |pages[parent].children| ==> f.leaves[m] == f.leaves[i] && f.leaves[m + 1] == Kids(pages[parent])[k + 1]
    ensures k == |pages[parent].children| ==>
              f.leaves[m] == Kids(pages[parent])[k - 1] && f.leaves[m + 1] == f.leaves[i]
  {
    KidFirstAt(pages, root, t, s, f, i, parent);
    m := if k < |pages[parent].children| then i else i - 1;
    KidFirstAt(pages, root, t, s, f, m, parent);
  }
}
