/** The steps of insertion and deletion on single pages, and what each of them
    does to the whole tree. */
module BTreeSteps {
  import opened Wrappers
  import opened Keys
  import opened BTreeModel
  import opened BTreeNodes
  import opened BTreeShape
  import opened BTreeDistinct
  import opened BTreeWalk
  import opened BTreeAnswers

  ghost predicate SomeGreater(es: seq<Entry>, i: nat, k: Key)
    requires i <= |es|
  {
    exists j :: 0 <= j < i && Rank(k) < Rank(es[j].key)
  }

  lemma FindStep(es: seq<Entry>, i: nat, k: Key)
    requires i < |es| && es[i].key.Type() == k.Type()
    ensures RowsAt(es[..i + 1], k)
         == RowsAt(es[..i], k) + if Compare(es[i].key, k) == Some(Equal) then multiset{es[i].row} else multiset{}
    ensures SomeGreater(es, i + 1, k) <==> SomeGreater(es, i, k) || Compare(es[i].key, k) == Some(Greater)
  {
    RowsAtPrefix(es, i, k);
    CompareIsRankOrder(es[i].key, k);
  }

  lemma FindDone(es: seq<Entry>, k: Key)
    ensures RowsAt(es[..|es|], k) == RowsAt(es, k)
    ensures SomeGreater(es, |es|, k) <==> !NoGreater(es, k)
  {
    assert es[..|es|] == es;
  }

  /** Occurrences of the target key in a leaf, and whether it has a greater key. */
  method FindRowIds(n: Node, target: Key) returns (rows: seq<RowId>, hasGreater: bool)
    requires n.Leaf? && forall e :: e in n.entries ==> e.key.Type() == target.Type()
    ensures multiset(rows) == RowsAt(n.entries, target)
    ensures hasGreater <==> !NoGreater(n.entries, target)
  {
    var es := n.entries;
    rows, hasGreater := [], false;
    var i := 0;
    while i < |es|
      invariant i <= |es| && multiset(rows) == RowsAt(es[..i], target)
      invariant hasGreater <==> SomeGreater(es, i, target)
    {
      assert es[i] in n.entries;
      FindStep(es, i, target);
      var order := Compare(es[i].key, target);
      if order == Some(Equal) {
        rows := rows + [es[i].row];
      }
      if order == Some(Greater) {
        hasGreater := true;
      }
      i := i + 1;
    }
    FindDone(es, target);
  }

  lemma EmptyTreeOk(t: KeyType)
    ensures var f := Flat([0], [], map[0 := Info(None, multiset{}, 0.0)]);
            var pages := [Leaf([], None)];
            LeavesOk(pages, t, f) && Represents(pages, t, f, multiset{}) && ShapeOk(pages, 0, OneLeaf, f)
  {
  }

  lemma FreshIds(pages0: seq<Node>, t: KeyType, f: Flat, a: PageId, b: PageId)
    requires LeavesOk(pages0, t, f) && a >= |pages0| && b >= |pages0|
    ensures a !in f.info && b !in f.info
  {
    if a in f.info { LinkedAreLeaves(pages0, t, f, a); }
    if b in f.info { LinkedAreLeaves(pages0, t, f, b); }
  }

  lemma SplitKeepsApart(pages: seq<Node>, t: KeyType, f: Flat, contents: multiset<Entry>, s: Split)
    requires SplitArgs(pages, t, f, s) && Represents(pages, t, f, contents) && NoStraddle(f.info)
    requires Distinct(contents + multiset{s.e})
    ensures NoStraddle(SplitInfo(f, pages[f.leaves[s.i]].next, s))
  {
    SeparatorFresh(pages, t, f, contents, s);
    SplitNoStraddle(f, pages[f.leaves[s.i]].next, s);
  }

  /** The pages after the root leaf was split. */
  ghost predicate RootSplitPages(pages: seq<Node>, pages': seq<Node>, root: PageId, t: KeyType, f: Flat, s: Split) {
    && s.i == 0 && root < |pages| && root < |pages'| && f.leaves == [root]
    && SplitArgs(pages, t, f, s) && s.a == |pages| && s.b == s.a + 1 && pages[root].Leaf?
    && |s.left| == (|pages[root].entries| + 1) / 2
    && pages' == pages[root := Internal([Child(s.a, s.sep)], s.b)]
        + [Leaf(s.left, Some(s.b)), Leaf(s.right, pages[root].next)]
    && SplitWrites(pages, pages'[root := pages[root]], f, pages[root].next, s)
    && pages'[root] == Internal([Child(s.a, s.sep)], s.b)
  }

  lemma BlanksFit(pages: seq<Node>)
    requires AllFit(pages)
    ensures AllFit(pages + [Blank, Blank])
  {
  }

  lemma RootSplitWritten(pages: seq<Node>, pages': seq<Node>, root: PageId, t: KeyType, f: Flat, s: Split,
                         leftPage: Node, rightPage: Node, newRoot: Node)
    requires LeavesOk(pages, t, f) && AllFit(pages) && f.leaves == [root] && f.seps == [] && s.i == 0
    requires root < |pages| && pages[root].Leaf? && s.e.key.Type() == t
    requires SplitNodes(pages[root], s, leftPage, rightPage) && |s.left| == (|pages[root].entries| + 1) / 2
    requires s.a == |pages| && s.b == s.a + 1 && newRoot == Internal([Child(s.a, s.sep)], s.b) && Fits(newRoot)
    requires pages' == (pages + [Blank, Blank])[s.a := leftPage][s.b := rightPage][root := newRoot]
    ensures RootSplitPages(pages, pages', root, t, f, s) && AllFit(pages')
  {
    assert pages' == pages[root := newRoot] + [leftPage, rightPage];
    assert pages'[root := pages[root]] == pages + [leftPage, rightPage];
    RootFreshPages(pages, t, f, s, leftPage, rightPage);
  }

  lemma RootFreshPages(pages: seq<Node>, t: KeyType, f: Flat, s: Split, leftPage: Node, rightPage: Node)
    requires LeavesOk(pages, t, f) && |f.leaves| == 1 && f.seps == [] && s.i == 0 && f.leaves[0] < |pages|
    requires s.e.key.Type() == t && SplitNodes(pages[f.leaves[0]], s, leftPage, rightPage)
    requires s.a == |pages| && s.b == s.a + 1
    ensures SplitArgs(pages, t, f, s)
    ensures SplitWrites(pages, pages + [leftPage, rightPage], f, pages[f.leaves[0]].next, s)
  {
    hide LeavesOk, SplitNodes, SplitArgs, SplitWrites;
    SplitWritten(pages, pages + [leftPage, rightPage], t, f, s, leftPage, rightPage);
  }

  /** The pages, and the leaf level, after the root leaf was halved. */
  ghost predicate RootHalved(pages: seq<Node>, pages': seq<Node>, root: PageId, e: Entry, f: Flat) {
    exists left, right, sep ::
      && root < |pages| && pages[root].Leaf? && Divides(pages[root].entries, e, left, right, sep)
      && |left| == (|pages[root].entries| + 1) / 2
      && f.leaves == [|pages|, |pages| + 1] && f.seps == [sep]
      && pages' == pages[root := Internal([Child(|pages|, sep)], |pages| + 1)]
                   + [Leaf(left, Some(|pages| + 1)), Leaf(right, pages[root].next)]
  }

  lemma RootSplitHalves(pages: seq<Node>, pages': seq<Node>, root: PageId, t: KeyType, f: Flat, s: Split, f': Flat)
    requires RootSplitPages(pages, pages', root, t, f, s) && f'.leaves == [s.a, s.b] && f'.seps == [s.sep]
    ensures RootHalved(pages, pages', root, s.e, f')
  {
    hide LeavesOk, SplitWrites;
    assert Divides(pages[root].entries, s.e, s.left, s.right, s.sep);
  }

  lemma RootSplitFlat(pages: seq<Node>, pages': seq<Node>, f: Flat, root: PageId, t: KeyType, s: Split)
    requires RootSplitPages(pages, pages', root, t, f, s) && f.leaves == [root] && f.seps == [] && PositionsRise(f)
    ensures s.i == 0 && root < |pages| && pages[root].Leaf?
    ensures var f' := Unroot(SplitFlat(f, pages[root].next, s), root); f'.leaves == [s.a, s.b] && f'.seps == [s.sep]
  {
    hide LeavesOk, SplitWrites;
  }

  lemma RootSplitDone(pages: seq<Node>, pages': seq<Node>, root: PageId, t: KeyType, f: Flat, contents: multiset<Entry>,
                      s: Split)
    requires LeavesOk(pages, t, f) && ShapeOk(pages, root, OneLeaf, f)
    requires RootSplitPages(pages, pages', root, t, f, s)
    ensures var f' := Unroot(SplitFlat(f, pages[root].next, s), root);
            && LeavesOk(pages', t, f') && ShapeOk(pages', root, TwoLevel, f')
            && (Represents(pages, t, f, contents) ==> Represents(pages', t, f', contents + multiset{s.e}))
            && (Represents(pages, t, f, contents) && NoStraddle(f.info) && Distinct(contents + multiset{s.e})
                ==> NoStraddle(f'.info))
  {
    RootSplit(pages, pages', root, t, f, contents, s);
    if Represents(pages, t, f, contents) && NoStraddle(f.info) && Distinct(contents + multiset{s.e}) {
      SplitKeepsApart(pages, t, f, contents, s);
    }
  }

  /** A leaf of a three-level tree is not a child of the root. */
  lemma TooDeep(pages: seq<Node>, root: PageId, t: KeyType, shape: Shape, f: Flat, i: int)
    requires LeavesOk(pages, t, f) && ShapeOk(pages, root, shape, f) && shape.ThreeLevel? && 0 <= i < |f.leaves|
    ensures root < |pages| && pages[root].Internal? && f.leaves[i] !in Kids(pages[root])
  {
    LeafTypes(pages, t, f, i);
    assert Kids(pages[root]) == [shape.left, shape.right];
  }

  /** In a two-level tree a leaf is found at its own index ... */
  lemma LeafInRoot(n: Node, f: Flat, i: int)
    requires n.Internal? && Kids(n) == f.leaves && PositionsRise(f) && 0 <= i < |f.leaves|
    ensures f.leaves[i] in Kids(n) && forall j :: FirstAt(Kids(n), f.leaves[i], j) ==> j == i
  {
    LeafFirstAt(f, i);
  }

  /** ... and in that half of the root where its index lies. */
  lemma LeafInHalf(n: Node, f: Flat, i: int, l: Node, r: Node, m: Key)
    requires n.Internal? && Kids(n) == f.leaves && PositionsRise(f) && 0 <= i < |f.leaves| && Halved(n, l, r, m)
    ensures var h := |n.children| / 2;
            && (f.leaves[i] in Kids(l) <==> i <= h) && (f.leaves[i] in Kids(r) <==> i > h)
            && (forall j :: FirstAt(Kids(l), f.leaves[i], j) ==> j == i)
            && (forall j :: FirstAt(Kids(r), f.leaves[i], j) ==> j == i - h - 1)
  {
    var h := |n.children| / 2;
    LeafFirstAt(f, i);
    assert |f.leaves| == |n.children| + 1;
    hide Kids, Seps, PositionsRise;
    assert i <= h ==> Kids(l)[i] == f.leaves[i];
    assert i > h ==> Kids(r)[i - h - 1] == f.leaves[i];
    assert forall j :: 0 <= j < |Kids(l)| ==> Kids(l)[j] == f.leaves[j];
    assert forall j :: 0 <= j < |Kids(r)| ==> Kids(r)[j] == f.leaves[h + 1 + j];
  }

  /** Comparing the new separator with the middle one picks the half that holds
      the split leaf exactly when the separator is above the leaf's low bound or
      the leaf lies in the left half. */
  lemma SidePicked(n: Node, t: KeyType, f: Flat, i: int, sep: Key, l: Node, r: Node, m: Key)
    requires n.Internal? && Kids(n) == f.leaves && Seps(n.children) == f.seps && Halved(n, l, r, m)
    requires PositionsRise(f) && SepsSorted(f.seps, t) && 0 <= i < |f.leaves|
    requires i < |f.seps| ==> Rank(sep) <= Rank(f.seps[i])
    requires i > 0 ==> Rank(f.seps[i - 1]) <= Rank(sep)
    ensures f.leaves[i] in Kids(if Rank(sep) <= Rank(m) then l else r)
       <==> i <= |n.children| / 2 || Rank(m) < Rank(sep)
  {
    var h := |n.children| / 2;
    LeafInHalf(n, f, i, l, r, m);
    assert i <= h ==> Rank(f.seps[i]) <= Rank(f.seps[h]);
    assert i > h ==> Rank(f.seps[h]) <= Rank(f.seps[i - 1]);
  }

  /** With distinct fixed-width keys a full root can be split for the new child:
      the separator picks the half that holds the old child, and there is room. */
  lemma NotBlocked(pages: seq<Node>, n: Node, t: KeyType, f: Flat, contents: multiset<Entry>, s: Split,
                   l: Node, r: Node, m: Key)
    requires SplitArgs(pages, t, f, s) && Represents(pages, t, f, contents) && NoStraddle(f.info)
    requires Distinct(contents + multiset{s.e}) && FixedWidth(t)
    requires n.Internal? && Kids(n) == f.leaves && Seps(n.children) == f.seps && Halved(n, l, r, m) && Fits(n)
    requires InternalBytes(n.children) + 10 + s.sep.Size() > PAGE_SIZE
    ensures !Blocks(n, f.leaves[s.i], s.sep, l, r, m)
  {
    SplitArgsSplittable(pages, t, f, s);
    SeparatorFresh(pages, t, f, contents, s);
    RoomInHalf(n, t, f, s.i, s.sep, l, r, m);
  }

  lemma RoomInHalf(n: Node, t: KeyType, f: Flat, i: int, sep: Key, l: Node, r: Node, m: Key)
    requires n.Internal? && Kids(n) == f.leaves && Seps(n.children) == f.seps && Halved(n, l, r, m) && Fits(n)
    requires PositionsRise(f) && SepsSorted(f.seps, t) && 0 <= i < |f.leaves| && FixedWidth(t) && sep.Type() == t
    requires i < |f.seps| ==> Rank(sep) <= Rank(f.seps[i])
    requires i > 0 ==> Rank(f.seps[i - 1]) < Rank(sep)
    requires InternalBytes(n.children) + 10 + sep.Size() > PAGE_SIZE
    ensures !Blocks(n, f.leaves[i], sep, l, r, m)
  {
    SidePicked(n, t, f, i, sep, l, r, m);
    assert i > |n.children| / 2 ==> Rank(m) <= Rank(f.seps[i - 1]);
    HalfHasRoom(n, l, r, m, sep, t);
  }

  /** The nodes a leaf split writes. */
  ghost predicate SplitNodes(n: Node, s: Split, leftPage: Node, rightPage: Node) {
    && n.Leaf? && Divides(n.entries, s.e, s.left, s.right, s.sep)
    && leftPage == Leaf(s.left, Some(s.b)) && rightPage == Leaf(s.right, n.next)
    && Fits(leftPage) && Fits(rightPage)
  }

  method SplitLeafNodes(n: Node, t: KeyType, e: Entry, left: PageId, right: PageId, ghost i: nat)
    returns (r: Result<(Node, Node, Key), TreeError>, ghost s: Split)
    requires n.Leaf? && e.key.Type() == t
             && LeafBytes(n.entries) <= PAGE_SIZE < LeafBytes(n.entries) + 12 + e.key.Size()
    requires forall x :: x in n.entries ==> x.key.Type() == t
    ensures s.i == i && s.e == e && s.a == left && s.b == right
    ensures r.Ok? ==> SplitNodes(n, s, r.value.0, r.value.1) && r.value.2 == s.sep
    ensures r.Ok? ==> Halves(n.entries, e, s.left, s.right, s.sep)
    ensures r.Ok? ==> INTERNAL_HEADER + 10 + s.sep.Size() <= PAGE_SIZE && s.sep.Type() == t
    ensures FixedWidth(t) ==> r.Ok?
    ensures r.Ok? <==> Splits(n.entries, e)
  {
    r := LeafSplit(n, t, e, right);
    s := Split(i, e, [], [], e.key, left, right);
    if r.Ok? {
      s := Split(i, e, r.value.0.entries, r.value.1.entries, r.value.2, left, right);
      SeparatorFits(s.left, s.sep);
      DividesMembers(n.entries, e, s.left, s.right, s.sep);
    } else if FixedWidth(t) {
      FullLeafSplits(n.entries, e, t);
    }
  }

  lemma LeafTypes(pages: seq<Node>, t: KeyType, f: Flat, i: int)
    requires LeavesOk(pages, t, f) && 0 <= i < |f.leaves|
    ensures f.leaves[i] in f.info && f.leaves[i] < |pages| && pages[f.leaves[i]].Leaf?
    ensures forall x :: x in pages[f.leaves[i]].entries ==> x.key.Type() == t
  {
    assert LiveOk(pages, f, i) && PageOk(pages, t, f.info, f.leaves[i]);
  }

  /** Writing the two fresh pages of a split next to the pages in use. */
  lemma SplitWritten(pages: seq<Node>, pages': seq<Node>, t: KeyType, f: Flat, s: Split, leftPage: Node,
                     rightPage: Node)
    requires LeavesOk(pages, t, f) && s.i < |f.leaves| && f.leaves[s.i] < |pages|
    requires s.e.key.Type() == t && InRange(f.seps, s.i, s.e.key)
    requires SplitNodes(pages[f.leaves[s.i]], s, leftPage, rightPage)
    requires s.a >= |pages| && s.b >= |pages| && s.a != s.b && s.a < |pages'| && s.b < |pages'|
    requires pages'[s.a] == leftPage && pages'[s.b] == rightPage
    requires forall q :: 0 <= q < |pages| && q in f.info ==> q < |pages'| && pages'[q] == pages[q]
    ensures SplitArgs(pages, t, f, s) && SplitWrites(pages, pages', f, pages[f.leaves[s.i]].next, s)
  {
    FreshIds(pages, t, f, s.a, s.b);
    forall q | q in f.info ensures q < |pages| && q < |pages'| && pages'[q] == pages[q] {
      LinkedAreLeaves(pages, t, f, q);
    }
  }

  /** The two pages the full root becomes: its halves `l` and `r`, one of them
      rewritten to `x` with child `j`, the one that was split, replaced. */
  datatype Growth = Growth(l: Node, r: Node, m: Key, x: Node, j: nat)

  ghost predicate Grows(parent: Node, oldChild: PageId, s: Split, g: Growth, res: (Node, Node, Key)) {
    && Halved(parent, g.l, g.r, g.m)
    && var from := if Rank(s.sep) <= Rank(g.m) then g.l else g.r;
       && FirstAt(Kids(from), oldChild, g.j) && ReplacedIn(from, g.x, g.j, s)
       && res == (if Rank(s.sep) <= Rank(g.m) then (g.x, g.r, g.m) else (g.l, g.x, g.m))
  }

  ghost predicate ReplacedRoot(parent: Node, oldChild: PageId, s: Split, x: Node, j: nat) {
    parent.Internal? && FirstAt(Kids(parent), oldChild, j) && ReplacedIn(parent, x, j, s) && Fits(x)
  }

  /** Why the root cannot be split for the new child: the half chosen by the
      separator does not hold the old child, or has no room either. */
  ghost predicate Blocks(parent: Node, oldChild: PageId, sep: Key, l: Node, r: Node, m: Key) {
    && Halved(parent, l, r, m)
    && var from := if Rank(sep) <= Rank(m) then l else r;
       oldChild !in Kids(from) || InternalBytes(from.children) + 10 + sep.Size() > PAGE_SIZE
  }

  /** The half of a full root page that a separator points to. */
  ghost function HalfFor(parent: Node, sep: Key): (n: Node)
    requires parent.Internal? && parent.children != []
    ensures n.Internal?
  {
    var h := |parent.children| / 2;
    if Rank(sep) <= Rank(parent.children[h].sep) then Internal(parent.children[..h], parent.children[h].left)
    else Internal(parent.children[h + 1..], parent.rightmost)
  }

  /** That half holds the old child and has room for one more. */
  ghost predicate EntersHalf(parent: Node, oldChild: PageId, sep: Key) {
    && parent.Internal? && parent.children != []
    && oldChild in Kids(HalfFor(parent, sep))
    && InternalBytes(HalfFor(parent, sep).children) + 10 + sep.Size() <= PAGE_SIZE
  }

  /** The root page can take two children for one: it has room, or it is split. */
  ghost predicate Enters(parent: Node, oldChild: PageId, sep: Key) {
    && parent.Internal? && oldChild in Kids(parent)
    && (InternalBytes(parent.children) + 10 + sep.Size() <= PAGE_SIZE || EntersHalf(parent, oldChild, sep))
  }

  /** A full leaf can be split and its halves entered in the root page. */
  ghost predicate SplitEnters(parent: Node, oldChild: PageId, es: seq<Entry>, e: Entry) {
    && Splits(es, e)
    && forall left, right, sep :: Halves(es, e, left, right, sep) ==> Enters(parent, oldChild, sep)
  }

  lemma SameChildren(a: Node, b: Node)
    requires a.Internal? && b.Internal? && Kids(a) == Kids(b) && Seps(a.children) == Seps(b.children)
    ensures a.children == b.children
  {
    assert |a.children| == |Seps(a.children)| == |b.children|;
    forall i | 0 <= i < |a.children| ensures a.children[i] == b.children[i] {
      assert Kids(a)[i] == Kids(b)[i] && Seps(a.children)[i] == Seps(b.children)[i];
    }
  }

  lemma BlocksWhen(parent: Node, l: Node, r: Node, m: Key, oldChild: PageId, sep: Key)
    requires Halved(parent, l, r, m)
    ensures Blocks(parent, oldChild, sep, l, r, m) <==> !EntersHalf(parent, oldChild, sep)
  {
    var h := |parent.children| / 2;
    HalvedShape(parent.children, parent.rightmost, h);
    SameChildren(l, Internal(parent.children[..h], parent.children[h].left));
    SameChildren(r, Internal(parent.children[h + 1..], parent.rightmost));
  }

  /** One separator decides for all orders of equal keys. */
  lemma EntersWhen(parent: Node, oldChild: PageId, es: seq<Entry>, e: Entry, t: KeyType, left: seq<Entry>,
                   right: seq<Entry>, sep: Key)
    requires Splits(es, e) && Halves(es, e, left, right, sep)
    requires e.key.Type() == t && forall x :: x in es ==> x.key.Type() == t
    ensures SplitEnters(parent, oldChild, es, e) <==> Enters(parent, oldChild, sep)
  {
    forall left', right', sep' | Halves(es, e, left', right', sep') ensures sep' == sep {
      OneLength(es, e, t, left, right, sep, left', right', sep');
    }
  }

  lemma MiddleFits(parent: Node, l: Node, r: Node, m: Key)
    requires Halved(parent, l, r, m) && Fits(parent)
    ensures INTERNAL_HEADER + 10 + m.Size() <= PAGE_SIZE
  {
    var cs, h := parent.children, |parent.children| / 2;
    InternalBytesPrefix(cs, h + 1);
    assert cs[..h + 1][..h] == cs[..h] && m == cs[h].sep;
  }

  /** Split a full root page and enter the new child into the half chosen by
      comparing its separator with the middle one. */
  method SplitRootPage(parent: Node, t: KeyType, oldChild: PageId, ghost s: Split, left: PageId, right: PageId,
                       sep: Key)
    returns (res: Result<(Node, Node, Key), TreeError>, ghost g: Growth)
    requires parent.Internal? && Fits(parent) && sep.Type() == t
             && forall x :: x in Seps(parent.children) ==> x.Type() == t
    requires s.a == left && s.b == right && s.sep == sep
    ensures res.Ok? ==> Grows(parent, oldChild, s, g, res.value) && Fits(res.value.0) && Fits(res.value.1)
    ensures res.Ok? ==> INTERNAL_HEADER + 10 + res.value.2.Size() <= PAGE_SIZE
    ensures res.Ok? <==> EntersHalf(parent, oldChild, sep)
  {
    hide InternalBytes;
    g := Growth(parent, parent, sep, parent, 0);
    var halves := InternalSplit(parent);
    if halves.Err? {
      return Err(halves.error), g;
    }
    var (l, r, m) := halves.value;
    assert m in Seps(parent.children);
    MiddleFits(parent, l, r, m);
    BlocksWhen(parent, l, r, m, oldChild, sep);
    CompareIsRankOrder(sep, m);
    var toRight := Compare(sep, m) == Some(Greater);
    var from := if toRight then r else l;
    var replaced;
    ghost var j;
    replaced, j := ReplaceChild(from, oldChild, left, right, sep);
    if replaced.Err? {
      return Err(replaced.error), Growth(l, r, m, from, 0);
    }
    return Ok(if toRight then (l, replaced.value, m) else (replaced.value, r, m)), Growth(l, r, m, replaced.value, j);
  }

  /** How the root page takes up the halves of a split child: by itself, or as
      a new root over two pages. */
  datatype Plan =
    | Room(root: Node)
    | Grow(l: Node, r: Node, root: Node)

  ghost predicate Planned(parent: Node, oldChild: PageId, s: Split, g: Growth, plan: Plan) {
    match plan
    case Room(x) => ReplacedRoot(parent, oldChild, s, x, g.j)
    case Grow(l, r, x) =>
      && Grows(parent, oldChild, s, g, (l, r, g.m)) && Fits(l) && Fits(r) && Fits(x)
      && x == Internal([Child(s.b + 1, g.m)], s.b + 2)
  }

  /** The pages after a split below the root. */
  ghost predicate ChildSplitPages(pages: seq<Node>, pages': seq<Node>, root: PageId, n: Node, s: Split, plan: Plan) {
    && root < |pages| && s.a == |pages| && s.b == s.a + 1 && n.Leaf?
    && Divides(n.entries, s.e, s.left, s.right, s.sep)
    && LeafBytes(s.left) <= PAGE_SIZE && LeafBytes(s.right) <= PAGE_SIZE
    && pages' == pages[root := plan.root] + [Leaf(s.left, Some(s.b)), Leaf(s.right, n.next)]
                 + if plan.Room? then [] else [plan.l, plan.r]
  }

  ghost function NewShape(n: Node, s: Split, plan: Plan): Shape
    requires n.Internal?
  {
    if plan.Room? then TwoLevel else GrownShape(n, s.i, s.b + 1, s.b + 2)
  }

  lemma ChildPagesFit(pages: seq<Node>, pages': seq<Node>, root: PageId, n: Node, s: Split, g: Growth, plan: Plan,
                      oldChild: PageId)
    requires AllFit(pages) && ChildSplitPages(pages, pages', root, n, s, plan)
    requires root < |pages| && Planned(pages[root], oldChild, s, g, plan)
    ensures AllFit(pages')
  {
  }

  lemma ChildPagesWritten(pages: seq<Node>, pages': seq<Node>, root: PageId, t: KeyType, f: Flat, n: Node, s: Split,
                          plan: Plan)
    requires LeavesOk(pages, t, f) && ChildSplitPages(pages, pages', root, n, s, plan) && root !in f.info
    requires s.i < |f.leaves| && f.leaves[s.i] < |pages| && pages[f.leaves[s.i]] == n
    requires s.e.key.Type() == t && InRange(f.seps, s.i, s.e.key)
    ensures SplitArgs(pages, t, f, s) && SplitWrites(pages, pages', f, n.next, s)
  {
    SplitWritten(pages, pages', t, f, s, pages'[s.a], pages'[s.b]);
  }

  /** Which half was rewritten, and where, given the leaf's index. */
  lemma GrowthSide(n: Node, f: Flat, s: Split, g: Growth, res: (Node, Node, Key))
    requires n.Internal? && Kids(n) == f.leaves && PositionsRise(f) && s.i < |f.leaves|
    requires Grows(n, f.leaves[s.i], s, g, res)
    ensures Rank(s.sep) <= Rank(g.m) <==> s.i <= |n.children| / 2
    ensures g.j == if s.i <= |n.children| / 2 then s.i else s.i - |n.children| / 2 - 1
  {
    hide Replaced, PositionsRise;
    LeafInHalf(n, f, s.i, g.l, g.r, g.m);
    assert f.leaves[s.i] in Kids(if Rank(s.sep) <= Rank(g.m) then g.l else g.r);
  }

  lemma GrowsMiddle(parent: Node, oldChild: PageId, s: Split, g: Growth, res: (Node, Node, Key))
    requires Grows(parent, oldChild, s, g, res)
    ensures res == (res.0, res.1, g.m)
  {
  }

  lemma GrownPagesAt(pages: seq<Node>, pages': seq<Node>, root: PageId, n: Node, s: Split, plan: Plan)
    requires ChildSplitPages(pages, pages', root, n, s, plan) && plan.Grow?
    ensures root < |pages| && s.b + 2 < |pages'| && root < s.b
    ensures pages'[root] == plan.root && pages'[s.b + 1] == plan.l && pages'[s.b + 2] == plan.r
  {
    hide Divides, LeafBytes;
  }

  lemma GrowthIsGrown(pages: seq<Node>, pages': seq<Node>, root: PageId, t: KeyType, f: Flat, n: Node, s: Split,
                      g: Growth, plan: Plan)
    requires ChildSplitPages(pages, pages', root, n, s, plan) && plan.Grow?
    requires Holds(pages, root, f.leaves, f.seps) && PositionsRise(f) && s.i < |f.leaves|
    requires Planned(pages[root], f.leaves[s.i], s, g, plan)
    ensures Grown(pages[root], pages', root, s, g.l, g.r, g.m, g.x, s.b + 1, s.b + 2)
  {
    hide ChildSplitPages, PositionsRise, Halved, Replaced, Fits, FirstAt;
    GrowthSide(pages[root], f, s, g, (plan.l, plan.r, g.m));
    GrownPagesAt(pages, pages', root, n, s, plan);
  }

  lemma ChildSplitDone(pages: seq<Node>, pages': seq<Node>, root: PageId, t: KeyType, f: Flat,
                       contents: multiset<Entry>,
                       n: Node, s: Split, g: Growth, plan: Plan)
    requires LeavesOk(pages, t, f) && Holds(pages, root, f.leaves, f.seps) && root !in f.info
    requires ChildSplitPages(pages, pages', root, n, s, plan)
    requires s.i < |f.leaves| && f.leaves[s.i] < |pages| && pages[f.leaves[s.i]] == n
    requires s.e.key.Type() == t && InRange(f.seps, s.i, s.e.key)
    requires Planned(pages[root], f.leaves[s.i], s, g, plan)
    ensures SplitArgs(pages, t, f, s)
    ensures var f' := SplitFlat(f, n.next, s);
            && LeavesOk(pages', t, f') && ShapeOk(pages', root, NewShape(pages[root], s, plan), f')
            && (Represents(pages, t, f, contents) ==> Represents(pages', t, f', contents + multiset{s.e}))
  {
    hide LeavesOk, Represents, ShapeOk, SplitArgs;
    if plan.Room? {
      RoomSplitDone(pages, pages', root, t, f, contents, n, s, g, plan);
    } else {
      GrowSplitDone(pages, pages', root, t, f, contents, n, s, g, plan);
    }
  }

  lemma RoomSplitDone(pages: seq<Node>, pages': seq<Node>, root: PageId, t: KeyType, f: Flat, contents: multiset<Entry>,
                      n: Node, s: Split, g: Growth, plan: Plan)
    requires LeavesOk(pages, t, f) && Holds(pages, root, f.leaves, f.seps) && root !in f.info
    requires ChildSplitPages(pages, pages', root, n, s, plan)
    requires s.i < |f.leaves| && f.leaves[s.i] < |pages| && pages[f.leaves[s.i]] == n
    requires s.e.key.Type() == t && InRange(f.seps, s.i, s.e.key)
    requires Planned(pages[root], f.leaves[s.i], s, g, plan) && plan.Room?
    ensures SplitArgs(pages, t, f, s)
    ensures var f' := SplitFlat(f, n.next, s);
            && LeavesOk(pages', t, f') && ShapeOk(pages', root, NewShape(pages[root], s, plan), f')
            && (Represents(pages, t, f, contents) ==> Represents(pages', t, f', contents + multiset{s.e}))
  {
    ChildPagesWritten(pages, pages', root, t, f, n, s, plan);
    LeafInRoot(pages[root], f, s.i);
    ChildSplit(pages, pages', root, t, f, contents, s);
  }

  lemma LeavesRise(pages: seq<Node>, t: KeyType, f: Flat)
    requires LeavesOk(pages, t, f)
    ensures PositionsRise(f) && |f.leaves| == |f.seps| + 1
  {
  }

  lemma HoldsIsTwoLevel(pages: seq<Node>, root: PageId, f: Flat)
    requires Holds(pages, root, f.leaves, f.seps)
    ensures ShapeOk(pages, root, TwoLevel, f)
  {
  }

  lemma GrowSplitDone(pages: seq<Node>, pages': seq<Node>, root: PageId, t: KeyType, f: Flat, contents: multiset<Entry>,
                      n: Node, s: Split, g: Growth, plan: Plan)
    requires LeavesOk(pages, t, f) && Holds(pages, root, f.leaves, f.seps) && root !in f.info
    requires ChildSplitPages(pages, pages', root, n, s, plan)
    requires s.i < |f.leaves| && f.leaves[s.i] < |pages| && pages[f.leaves[s.i]] == n
    requires s.e.key.Type() == t && InRange(f.seps, s.i, s.e.key)
    requires Planned(pages[root], f.leaves[s.i], s, g, plan) && plan.Grow?
    ensures SplitArgs(pages, t, f, s)
    ensures var f' := SplitFlat(f, n.next, s);
            && LeavesOk(pages', t, f') && ShapeOk(pages', root, NewShape(pages[root], s, plan), f')
            && (Represents(pages, t, f, contents) ==> Represents(pages', t, f', contents + multiset{s.e}))
  {
    hide LeavesOk, Represents, SplitWrites, Grown, ChildSplitPages, Planned, SplitArgs;
    LeavesRise(pages, t, f);
    HoldsIsTwoLevel(pages, root, f);
    ChildPagesWritten(pages, pages', root, t, f, n, s, plan);
    GrowthIsGrown(pages, pages', root, t, f, n, s, g, plan);
    RootGrows(pages, pages', root, t, f, contents, s, g.l, g.r, g.m, g.x, s.b + 1, s.b + 2);
  }

  lemma PlannedInRoot(parent: Node, oldChild: PageId, s: Split, g: Growth, plan: Plan)
    requires parent.Internal? && Planned(parent, oldChild, s, g, plan)
    ensures oldChild in Kids(parent)
  {
    if plan.Grow? {
      var h := |parent.children| / 2;
      var from := if Rank(s.sep) <= Rank(g.m) then g.l else g.r;
      assert Kids(from)[g.j] == oldChild;
      assert Kids(g.l) == Kids(parent)[..h + 1] && Kids(g.r) == Kids(parent)[h + 1..];
    }
  }

  /** The state in which a split below the root leaves the tree. */
  lemma ChildSplitCommit(pages: seq<Node>, pages': seq<Node>, root: PageId, t: KeyType, shape: Shape, f: Flat,
                         contents: multiset<Entry>, n: Node, s: Split, g: Growth, plan: Plan)
    requires LeavesOk(pages, t, f) && ShapeOk(pages, root, shape, f) && !shape.OneLeaf? && AllFit(pages)
    requires ChildSplitPages(pages, pages', root, n, s, plan)
    requires s.i < |f.leaves| && f.leaves[s.i] < |pages| && pages[f.leaves[s.i]] == n
    requires s.e.key.Type() == t && InRange(f.seps, s.i, s.e.key)
    requires root < |pages| && Planned(pages[root], f.leaves[s.i], s, g, plan)
    ensures pages[root].Internal? && shape.TwoLevel? && PositionsRise(f) && |f.leaves| == |f.seps| + 1
    ensures var f' := SplitFlat(f, n.next, s);
            && LeavesOk(pages', t, f') && ShapeOk(pages', root, NewShape(pages[root], s, plan), f') && AllFit(pages')
            && (Represents(pages, t, f, contents) ==> Represents(pages', t, f', contents + multiset{s.e}))
            && (Represents(pages, t, f, contents) && NoStraddle(f.info) && Distinct(contents + multiset{s.e})
                ==> NoStraddle(f'.info))
  {
    RootTypes(pages, root, t, shape, f);
    PlannedInRoot(pages[root], f.leaves[s.i], s, g, plan);
    if shape.ThreeLevel? {
      TooDeep(pages, root, t, shape, f, s.i);
    }
    ChildSplitDone(pages, pages', root, t, f, contents, n, s, g, plan);
    ChildPagesFit(pages, pages', root, n, s, g, plan, f.leaves[s.i]);
    if Represents(pages, t, f, contents) && NoStraddle(f.info) && Distinct(contents + multiset{s.e}) {
      SplitKeepsApart(pages, t, f, contents, s);
    }
  }

  /** With distinct fixed-width keys a two-level tree never refuses the new child. */
  lemma ChildEnters(pages: seq<Node>, root: PageId, t: KeyType, f: Flat, contents: multiset<Entry>, s: Split)
    requires LeavesOk(pages, t, f) && ShapeOk(pages, root, TwoLevel, f) && AllFit(pages)
    requires s.i < |f.leaves| && f.leaves[s.i] < |pages| && pages[f.leaves[s.i]].Leaf?
    requires s.e.key.Type() == t && InRange(f.seps, s.i, s.e.key) && s.a == |pages| && s.b == s.a + 1
    requires Divides(pages[f.leaves[s.i]].entries, s.e, s.left, s.right, s.sep)
    requires Represents(pages, t, f, contents) && NoStraddle(f.info) && Distinct(contents + multiset{s.e})
             && FixedWidth(t)
    ensures root < |pages| && Enters(pages[root], f.leaves[s.i], s.sep)
  {
    FreshIds(pages, t, f, s.a, s.b);
    LeafInRoot(pages[root], f, s.i);
    SplitArgsSplittable(pages, t, f, s);
    RootTypes(pages, root, t, TwoLevel, f);
    if InternalBytes(pages[root].children) + 10 + s.sep.Size() > PAGE_SIZE {
      InternalBytesFixed(pages[root].children, t);
      var l, r, m := HalfPages(pages[root]);
      NotBlocked(pages, pages[root], t, f, contents, s, l, r, m);
      BlocksWhen(pages[root], l, r, m, f.leaves[s.i], s.sep);
    }
  }

  lemma HalfPages(n: Node) returns (l: Node, r: Node, m: Key)
    requires n.Internal? && n.children != []
    ensures Halved(n, l, r, m)
  {
    var h := |n.children| / 2;
    HalvedShape(n.children, n.rightmost, h);
    l, r, m := Internal(n.children[..h], n.children[h].left), Internal(n.children[h + 1..], n.rightmost),
               n.children[h].sep;
  }

  lemma AlwaysEnters(pages: seq<Node>, root: PageId, t: KeyType, f: Flat, contents: multiset<Entry>, i: nat, e: Entry)
    requires LeavesOk(pages, t, f) && ShapeOk(pages, root, TwoLevel, f) && AllFit(pages)
    requires i < |f.leaves| && f.leaves[i] < |pages| && pages[f.leaves[i]].Leaf?
    requires e.key.Type() == t && InRange(f.seps, i, e.key) && AppendLeaf(pages[f.leaves[i]], e) == Err(PageFull)
    requires Represents(pages, t, f, contents) && NoStraddle(f.info) && Distinct(contents + multiset{e})
             && FixedWidth(t)
    ensures root < |pages| && SplitEnters(pages[root], f.leaves[i], pages[f.leaves[i]].entries, e)
  {
    hide LeavesOk, ShapeOk, Represents, NoStraddle, Distinct, FixedWidth, InRange, Enters;
    LeafTypes(pages, t, f, i);
    RootTypes(pages, root, t, TwoLevel, f);
    var es := pages[f.leaves[i]].entries;
    FullLeafSplits(es, e, t);
    forall left, right, sep | Halves(es, e, left, right, sep) ensures Enters(pages[root], f.leaves[i], sep) {
      ChildEnters(pages, root, t, f, contents, Split(i, e, left, right, sep, |pages|, |pages| + 1));
    }
  }

  lemma SplitDivides(n: Node, s: Split, leftPage: Node, rightPage: Node)
    requires SplitNodes(n, s, leftPage, rightPage)
    ensures n.Leaf? && Divides(n.entries, s.e, s.left, s.right, s.sep)
  {
  }

  /** The leaf without the first entry equal to `e`, if it has one. */
  method RemoveEntry(n: Node, e: Entry) returns (r: Option<Node>, ghost x: int)
    requires n.Leaf? && Fits(n)
    ensures r.None? <==> e !in n.entries
    ensures r.Some? ==>
              && 0 <= x < |n.entries| && n.entries[x] == e
              && r.value == Leaf(n.entries[..x] + n.entries[x + 1..], None) && Fits(r.value)
  {
    var i := 0;
    while i < |n.entries| && n.entries[i] != e
      invariant 0 <= i <= |n.entries| && e !in n.entries[..i]
    {
      i := i + 1;
    }
    x := i;
    if i == |n.entries| {
      assert n.entries[..i] == n.entries;
      return None, x;
    }
    RemovedBytes(n.entries, i);
    var page := FillLeaf(n.entries[..i] + n.entries[i + 1..], None);
    return Some(page.value), x;
  }

  lemma LeafOrRoot(pages: seq<Node>, root: PageId, t: KeyType, shape: Shape, f: Flat, i: int)
    requires LeavesOk(pages, t, f) && ShapeOk(pages, root, shape, f) && 0 <= i < |f.leaves|
    ensures f.leaves[i] == root <==> shape.OneLeaf?
  {
    LeafTypes(pages, t, f, i);
  }

  lemma LeafRewriteShape(pages: seq<Node>, root: PageId, t: KeyType, shape: Shape, f: Flat, p: PageId, n: Node)
    requires LeavesOk(pages, t, f) && ShapeOk(pages, root, shape, f) && p < |pages| && pages[p].Leaf?
    ensures ShapeOk(pages[p := n], root, shape, f)
  {
  }

  lemma RootTypes(pages: seq<Node>, root: PageId, t: KeyType, shape: Shape, f: Flat)
    requires LeavesOk(pages, t, f) && ShapeOk(pages, root, shape, f) && !shape.OneLeaf?
    ensures root < |pages| && pages[root].Internal? && root !in f.info
    ensures forall x :: x in Seps(pages[root].children) ==> x.Type() == t
  {
    if root in f.info {
      LinkedAreLeaves(pages, t, f, root);
    }
  }

  // ---------- merging below a parent ----------

  /** The pages after leaves `m` and `m + 1` below `parent` were merged. */
  ghost predicate MergedPages(pages: seq<Node>, pages': seq<Node>, f: Flat, s: Shape, m: int, parent: PageId,
                              merged: Node, newParent: Node)
    requires |f.leaves| == |f.seps| + 1 && 0 <= m < |f.seps|
  {
    var p, q := f.leaves[m], f.leaves[m + 1];
    && p < |pages| && q < |pages| && pages[p].Leaf? && pages[q].Leaf? && parent < |pages| && pages[parent].Internal?
    && merged.Leaf? && multiset(merged.entries) == multiset(pages[p].entries) + multiset(pages[q].entries)
    && merged.next == pages[q].next && Fits(merged) && Fits(newParent)
    && Removed(pages[parent], newParent, KidIndex(s, m))
    && pages' == pages[p := merged][q := Leaf([], None)][parent := newParent]
  }

  lemma MergeCommit(pages: seq<Node>, pages': seq<Node>, root: PageId, t: KeyType, s: Shape, f: Flat,
                    contents: multiset<Entry>, m: int, parent: PageId, merged: Node, newParent: Node)
    requires LeavesOk(pages, t, f) && ShapeOk(pages, root, s, f) && AllFit(pages)
    requires 0 <= m < |f.seps| && Siblings(s, m) && ParentOf(root, s, m) == Some(parent)
    requires MergedPages(pages, pages', f, s, m, parent, merged, newParent)
    ensures MergeWrites(pages, pages', f, m, merged.entries)
    ensures LeavesOk(pages', t, MergeFlat(f, m)) && ShapeOk(pages', root, ShrunkShape(s, m), MergeFlat(f, m))
            && AllFit(pages')
    ensures Represents(pages, t, f, contents) && NoStraddle(f.info) ==> Represents(pages', t, MergeFlat(f, m), contents)
  {
    hide LeavesOk, Represents, ShapeOk, NoStraddle, MergeFlat, MergeWrites, Siblings, KidIndex, Removed;
    LeavesRise(pages, t, f);
    MergedWrites(pages, pages', t, f, s, m, parent, merged, newParent);
    MergeOk(pages, pages', t, f, m, merged.entries);
    assert forall x :: 0 <= x < |pages| && pages[x].Internal? && x != parent ==> pages'[x] == pages[x];
    MergeShape(pages, pages', root, s, f, m, parent);
    if Represents(pages, t, f, contents) && NoStraddle(f.info) {
      MergeLeaves(pages, pages', t, f, contents, m, merged.entries);
    }
  }

  lemma MergedWrites(pages: seq<Node>, pages': seq<Node>, t: KeyType, f: Flat, s: Shape, m: int, parent: PageId,
                     merged: Node, newParent: Node)
    requires LeavesOk(pages, t, f) && 0 <= m < |f.seps|
    requires MergedPages(pages, pages', f, s, m, parent, merged, newParent)
    ensures MergeWrites(pages, pages', f, m, merged.entries)
  {
    assert f.leaves[m] != f.leaves[m + 1];
    forall x | x in f.info && x != f.leaves[m] && x != f.leaves[m + 1] ensures x < |pages| && pages'[x] == pages[x] {
      LinkedAreLeaves(pages, t, f, x);
    }
  }

  /** Without straddles an entry is stored exactly if it is in its leaf. */
  lemma StoredInLeaf(pages: seq<Node>, t: KeyType, f: Flat, contents: multiset<Entry>, i: int, e: Entry)
    requires LeavesOk(pages, t, f) && Represents(pages, t, f, contents) && NoStraddle(f.info)
    requires 0 <= i < |f.leaves| && e.key.Type() == t && InRange(f.seps, i, e.key)
    requires f.leaves[i] < |pages| && pages[f.leaves[i]].Leaf?
    ensures e in contents <==> e in pages[f.leaves[i]].entries
  {
    assert LiveOk(pages, f, i) && Answers(pages, t, f, contents, i);
    assert e == Entry(e.key, e.row);
    assert contents[Entry(e.key, e.row)] == Here(f.info, pages[f.leaves[i]], e.key, e.row);
  }

  // ---------- what a split does not repair ----------

  /** A split root stands for the stored entries exactly if the leaf did. */
  lemma RootSplitIff(pages: seq<Node>, pages': seq<Node>, root: PageId, t: KeyType, f: Flat, contents: multiset<Entry>,
                     s: Split)
    requires LeavesOk(pages, t, f) && AllFiled(pages, f.info) && ShapeOk(pages, root, OneLeaf, f)
    requires PositionsRise(f) && |f.leaves| == |f.seps| + 1 && RootSplitPages(pages, pages', root, t, f, s)
    ensures var f' := Unroot(SplitFlat(f, pages[root].next, s), root);
            && LeavesOk(pages', t, f') && AllFiled(pages', f'.info)
            && (Represents(pages', t, f', contents + multiset{s.e}) <==> Represents(pages, t, f, contents))
  {
    hide LeavesOk, AllFiled, Represents, ShapeOk, NoStraddle;
    var f' := Unroot(SplitFlat(f, pages[root].next, s), root);
    var c0 := SomeContents(pages, t, f);
    RootSplitDone(pages, pages', root, t, f, c0, s);
    RepresentsFiled(pages', t, f', c0 + multiset{s.e});
    InsertedIff(pages, pages', t, f, f', c0, contents, s.e);
  }

  lemma ChildSplitIff(pages: seq<Node>, pages': seq<Node>, root: PageId, t: KeyType, shape: Shape, f: Flat,
                      contents: multiset<Entry>, n: Node, s: Split, g: Growth, plan: Plan)
    requires LeavesOk(pages, t, f) && AllFiled(pages, f.info) && ShapeOk(pages, root, shape, f) && !shape.OneLeaf?
             && AllFit(pages)
    requires ChildSplitPages(pages, pages', root, n, s, plan)
    requires s.i < |f.leaves| && f.leaves[s.i] < |pages| && pages[f.leaves[s.i]] == n && n.Leaf?
    requires s.e.key.Type() == t && |f.leaves| == |f.seps| + 1 && InRange(f.seps, s.i, s.e.key)
    requires root < |pages| && Planned(pages[root], f.leaves[s.i], s, g, plan) && PositionsRise(f)
    ensures var f' := SplitFlat(f, n.next, s);
            && LeavesOk(pages', t, f') && AllFiled(pages', f'.info)
            && (Represents(pages', t, f', contents + multiset{s.e}) <==> Represents(pages, t, f, contents))
  {
    hide LeavesOk, AllFiled, Represents, ShapeOk, NoStraddle, AllFit, Planned, ChildSplitPages, InRange, SplitFlat;
    var c0 := SomeContents(pages, t, f);
    ChildSplitCommit(pages, pages', root, t, shape, f, c0, n, s, g, plan);
    RepresentsFiled(pages', t, SplitFlat(f, n.next, s), c0 + multiset{s.e});
    InsertedIff(pages, pages', t, f, SplitFlat(f, n.next, s), c0, contents, s.e);
  }

  lemma RepresentsFiled(pages: seq<Node>, t: KeyType, f: Flat, c: multiset<Entry>)
    requires LeavesOk(pages, t, f) && Represents(pages, t, f, c)
    ensures AllFiled(pages, f.info)
  {
    forall p | p in f.info ensures p < |pages| && pages[p].Leaf? && Filed(pages, f.info, p) {
      assert PageOk(pages, t, f.info, p);
    }
  }
}
