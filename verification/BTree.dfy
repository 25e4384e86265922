/** The index tree: descent, search along the leaf chain, insert with leaf and
    root splits, delete with leaf merge. The pages of the index relation are
    seen through the storage manager, that is, as a growing sequence. */
module BTree {
  import opened Wrappers
  import opened Keys
  import opened BTreeModel
  import opened BTreeNodes
  import opened BTreeShape
  import opened BTreeDistinct
  import opened BTreeWalk
  import opened BTreeAnswers
  import opened BTreeDeletion
  import opened BTreeExact
  import opened BTreeSteps
  import opened BTreeStates

  class Tree {
    const root: PageId
    const keyType: KeyType
    var pages: seq<Node>
    ghost var flat: Flat
    ghost var shape: Shape
    ghost var contents: multiset<Entry>

    /** The state that the specification of an operation speaks about. */
    ghost function State(): State
      reads this
    {
      BTreeStates.State(root, keyType, pages, flat, shape, contents)
    }

    /** The structural invariant: it holds after every run of operations. */
    ghost predicate Sound()
      reads this
    {
      SoundState(State())
    }

    /** ... and the leaves answer for exactly `contents`. */
    ghost predicate Valid()
      reads this
    {
      ExactState(State())
    }

    constructor Create(t: KeyType)
      ensures State() == NewState(t) && Unstraddled(State())
    {
      root, keyType := 0, t;
      pages := [Leaf([], None)];
      flat := Flat([0], [], map[0 := Info(None, multiset{}, 0.0)]);
      shape, contents := OneLeaf, multiset{};
      new;
      EmptyTreeOk(t);
    }

    /** The leaf a key belongs to; `i` is its index among the leaves. */
    method FindLeaf(target: Key) returns (r: Result<PageId, TreeError>, ghost i: int)
      requires Sound() && target.Type() == keyType
      ensures 0 <= i < |flat.leaves| && InRange(flat.seps, i, target) && r == Ok(flat.leaves[i])
    {
      ghost var j: nat := RangeExists(flat.seps, target);
      i := j;
      var current := root;
      ghost var parent: Option<PageId> := None;
      while true
        invariant OnPath(root, shape, flat, target, current, parent, i)
        decreases if current == flat.leaves[i] then 0 else if current == root && shape.ThreeLevel? then 2 else 1
      {
        assert LiveOk(pages, flat, i);
        if pages[current].Leaf? {
          return Ok(current), i;
        }
        if current == root && shape.ThreeLevel? {
          RootRange(pages, root, shape, flat, keyType, target, i);
        } else {
          KidRange(pages, root, shape, flat, keyType, target, current, i);
        }
        var child := FindInternalChild(pages[current], target);
        if child.Err? {
          return Err(InvalidPage), i;
        }
        parent, current := Some(current), child.value;
      }
    }

    /** The pages alone decide what a search returns; the walk along the chain
        ends in every tree. In a valid tree it finds exactly the rows stored
        under the key, as often as they are stored. */
    method Search(target: Key) returns (r: Result<seq<RowId>, TreeError>)
      requires Sound()
      ensures target.Type() != keyType ==> r == Err(InvalidKeyType)
      ensures target.Type() == keyType ==> r.Ok? && multiset(r.value) == Found(pages, keyType, flat, target)
      ensures target.Type() == keyType && Valid() ==>
                forall row :: multiset(r.value)[row] == contents[Entry(target, row)]
    {
      if target.Type() != keyType {
        return Err(InvalidKeyType);
      }
      var results := [];
      ghost var i;
      var leaf;
      leaf, i := FindLeaf(target);
      if leaf.Err? {
        return Err(InvalidPage);
      }
      var current := leaf.value;
      assert LiveOk(pages, flat, i);
      RangeIsRoute(flat, keyType, i, target);
      RepresentsIsExact(pages, keyType, flat, contents);
      while true
        invariant current in flat.info
        invariant Found(pages, keyType, flat, target)
               == multiset(results) + Walk(pages, keyType, flat.info, current, target)
        decreases Ahead(flat.info, current)
      {
        assert PageOk(pages, keyType, flat.info, current);
        var page := pages[current];
        var rowIds, hasGreater := FindRowIds(page, target);
        results := results + rowIds;
        if hasGreater || page.next.None? {
          return Ok(results);
        }
        assert page.next.value in Ahead(flat.info, current) && page.next.value !in Ahead(flat.info, page.next.value);
        current := page.next.value;
      }
    }

    method Allocate() returns (p: PageId)
      modifies this`pages
      ensures p == |old(pages)| && pages == old(pages) + [Blank]
    {
      p := |pages|;
      pages := pages + [Blank];
    }

    /** Take the rewritten pages as the new state of the tree. */
    ghost method Adopt(f: Flat, s: Shape, c: multiset<Entry>)
      requires root < |pages| && LeavesOk(pages, keyType, f) && ShapeOk(pages, root, s, f) && AllFit(pages)
      modifies this`flat, this`shape, this`contents
      ensures flat.leaves == f.leaves && flat.seps == f.seps && shape == s && contents == c && Sound()
      ensures AllFiled(pages, f.info) ==> flat == f
      ensures Represents(pages, keyType, f, c) ==> Valid() && flat == f
    {
      hide LeavesOk, AllFiled, Represents, AllFit, ShapeOk, Refile;
      flat, shape, contents := f, s, c;
      RepresentsIsFiled(pages, keyType, f, c);
      if !AllFiled(pages, f.info) {
        flat := Refile(pages, keyType, f);
        RefileOk(pages, keyType, f);
        RefiledShape(pages, root, keyType, s, f);
      }
    }

    lemma NothingLost(pages0: seq<Node>, f: Flat, s: Shape)
      requires root < |pages0| && LeavesOk(pages0, keyType, f) && ShapeOk(pages0, root, s, f)
      requires AllFiled(pages0, f.info) && pages0 <= pages && shape == s && flat == f && AllFit(pages)
      ensures Sound() && (Represents(pages0, keyType, f, contents) ==> Valid())
    {
      forall p | p in f.info ensures p < |pages0| && pages[p] == pages0[p] {
        LinkedAreLeaves(pages0, keyType, f, p);
      }
      UndisturbedFiled(pages0, pages, f.info);
      UndisturbedLeaves(pages0, pages, keyType, f, contents);
    }

    /** The root leaf is full: its entries move to two fresh leaves. */
    method RootLeafSplitPages(e: Entry) returns (r: Result<(), TreeError>, ghost s: Split)
      requires root < |pages| && LeavesOk(pages, keyType, flat) && AllFit(pages) && flat.leaves == [root]
               && flat.seps == []
      requires e.key.Type() == keyType && AppendLeaf(pages[root], e) == Err(PageFull)
      modifies this`pages
      ensures AllFit(pages)
      ensures r.Err? ==> old(pages) <= pages && !FixedWidth(keyType)
      ensures r.Ok? <==> Splits(old(pages)[root].entries, e)
      ensures r.Ok? ==> s.e == e && RootSplitPages(old(pages), pages, root, keyType, flat, s)
    {
      hide LeavesOk, RootSplitPages, AllFit, SplitNodes, SplitWrites, SplitArgs;
      ghost var pages0 := pages;
      LeafTypes(pages, keyType, flat, 0);
      PageFits(pages, root);
      BlanksFit(pages);
      var left := Allocate();
      var right := Allocate();
      assert pages == pages0 + [Blank, Blank];
      var split;
      split, s := SplitLeafNodes(pages[root], keyType, e, left, right, 0);
      if split.Err? {
        return Err(split.error), s;
      }
      var (leftPage, rightPage, sep) := split.value;
      pages := pages[left := leftPage][right := rightPage];
      var newRoot := AppendInternal(Internal([], right), Child(left, sep));
      if newRoot.Err? {
        return Err(PageFull), s;
      }
      pages := pages[root := newRoot.value];
      RootSplitWritten(pages0, pages, root, keyType, flat, s, leftPage, rightPage, newRoot.value);
      return Ok(()), s;
    }

    method RootLeafSplit(e: Entry) returns (r: Result<(), TreeError>)
      requires Sound() && shape.OneLeaf? && e.key.Type() == keyType && AppendLeaf(pages[root], e) == Err(PageFull)
      modifies this
      ensures Sound() && Inserts(old(State()), e, r, State())
      ensures FixedWidth(keyType) ==> r.Ok?
      ensures r.Ok? ==> shape.TwoLevel? && RootHalved(old(pages), pages, root, e, flat)
      ensures r.Ok? <==> Splits(old(pages)[root].entries, e)
    {
      hide LeavesOk, Represents, AllFiled, NoStraddle, Distinct, RootSplitPages, RootHalved, Unroot, SplitFlat;
      ghost var pages0, f := pages, flat;
      RiseOnly(pages, keyType, f);
      ghost var s;
      r, s := RootLeafSplitPages(e);
      if r.Err? {
        NothingLost(pages0, f, shape);
      } else {
        RootSplitDone(pages0, pages, root, keyType, f, contents, s);
        RootSplitIff(pages0, pages, root, keyType, f, contents, s);
        RootSplitFlat(pages0, pages, f, root, keyType, s);
        Adopt(Unroot(SplitFlat(f, pages0[root].next, s), root), TwoLevel, contents + multiset{e});
        RootSplitHalves(pages0, pages, root, keyType, f, s, flat);
      }
    }

    /** The root page is full too: it is split in turn, under a new root. */
    method GrowRootPages(parent: Node, oldChild: PageId, ghost s: Split, left: PageId, right: PageId, sep: Key)
      returns (r: Result<Plan, TreeError>, ghost g: Growth)
      requires parent.Internal? && Fits(parent) && forall x :: x in Seps(parent.children) ==> x.Type() == keyType
      requires sep.Type() == keyType && s.a == left && s.b == right == |pages| - 1 && s.sep == sep
      modifies this`pages
      ensures pages == old(pages) + [Blank, Blank]
      ensures r.Ok? ==> r.value.Grow? && Planned(parent, oldChild, s, g, r.value)
      ensures r.Ok? <==> EntersHalf(parent, oldChild, sep)
    {
      hide EntersHalf, Grows, Seps;
      var leftInternal := Allocate();
      var rightInternal := Allocate();
      var halves;
      halves, g := SplitRootPage(parent, keyType, oldChild, s, left, right, sep);
      if halves.Err? {
        return Err(halves.error), g;
      }
      GrowsMiddle(parent, oldChild, s, g, halves.value);
      var newRoot := AppendInternal(Internal([], rightInternal), Child(leftInternal, halves.value.2));
      if newRoot.Err? {
        return Err(PageFull), g;
      }
      return Ok(Grow(halves.value.0, halves.value.1, newRoot.value)), g;
    }

    /** Enter the halves of a split child in the root page. `g.j` is the old
        child's index in the page it is replaced in. */
    method EnterInRoot(oldChild: PageId, parent: Node, ghost s: Split, left: PageId, right: PageId, sep: Key)
      returns (r: Result<Plan, TreeError>, ghost g: Growth)
      requires parent.Internal? && Fits(parent) && forall x :: x in Seps(parent.children) ==> x.Type() == keyType
      requires sep.Type() == keyType && s.a == left && s.b == right == |pages| - 1 && s.sep == sep
      requires INTERNAL_HEADER + 10 + sep.Size() <= PAGE_SIZE
      modifies this`pages
      ensures pages == old(pages) || pages == old(pages) + [Blank, Blank]
      ensures r.Ok? ==> Planned(parent, oldChild, s, g, r.value)
      ensures r.Ok? ==> pages == if r.value.Room? then old(pages) else old(pages) + [Blank, Blank]
      ensures r.Ok? <==> Enters(parent, oldChild, sep)
    {
      hide InternalBytes, EntersHalf;
      var replaced;
      ghost var j;
      replaced, j := ReplaceChild(parent, oldChild, left, right, sep);
      g := Growth(parent, parent, sep, parent, j);
      match replaced {
        case Ok(newParent) =>
          return Ok(Room(newParent)), g;
        case Err(PageFull) =>
          r, g := GrowRootPages(parent, oldChild, s, left, right, sep);
        case Err(error) =>
          return Err(error), g;
      }
    }

    /** Write the two new leaves, the two new internal pages if the root was
        split, and last of all the root. */
    method WriteSplit(left: PageId, right: PageId, leftPage: Node, rightPage: Node, plan: Plan,
                      ghost pages0: seq<Node>, ghost n: Node, ghost s: Split)
      requires root < |pages0| && s.a == left == |pages0| && s.b == right == left + 1
      requires pages == pages0 + if plan.Room? then [Blank, Blank] else [Blank, Blank, Blank, Blank]
      requires SplitNodes(n, s, leftPage, rightPage)
      modifies this`pages
      ensures ChildSplitPages(pages0, pages, root, n, s, plan)
    {
      pages := pages[left := leftPage][right := rightPage];
      match plan {
        case Room(newParent) =>
          pages := pages[root := newParent];
        case Grow(l, x, newRoot) =>
          pages := pages[right + 1 := l][right + 2 := x][root := newRoot];
      }
    }

    /** Allocate pages for the halves of a full leaf and divide its entries. */
    method SplitIntoFresh(e: Entry, n: Node, ghost i: nat)
      returns (r: Result<(Node, Node, Key), TreeError>, left: PageId, right: PageId, ghost s: Split)
      requires n.Leaf? && Fits(n) && forall x :: x in n.entries ==> x.key.Type() == keyType
      requires e.key.Type() == keyType && AppendLeaf(n, e) == Err(PageFull)
      modifies this`pages
      ensures pages == old(pages) + [Blank, Blank] && left == |old(pages)| && right == left + 1
      ensures s.i == i && s.e == e && s.a == left && s.b == right
      ensures r.Ok? ==> SplitNodes(n, s, r.value.0, r.value.1) && r.value.2 == s.sep
      ensures r.Ok? ==> INTERNAL_HEADER + 10 + s.sep.Size() <= PAGE_SIZE && s.sep.Type() == keyType
      ensures r.Ok? <==> Splits(n.entries, e)
      ensures r.Ok? ==> Halves(n.entries, e, s.left, s.right, s.sep)
    {
      left := Allocate();
      right := Allocate();
      r, s := SplitLeafNodes(n, keyType, e, left, right, i);
    }

    /** A leaf below the root is full: two fresh leaves take its place in the
        root page, which may itself have to be split. The old page stays as it
        is, for the leaf before it still links to it. */
    method ChildLeafSplitPages(e: Entry, oldChild: PageId, parent: Node, n: Node, ghost i: nat)
      returns (r: Result<(), TreeError>, ghost s: Split, ghost g: Growth, ghost plan: Plan)
      requires root < |pages|
      requires parent.Internal? && Fits(parent) && forall x :: x in Seps(parent.children) ==> x.Type() == keyType
      requires n.Leaf? && Fits(n) && forall x :: x in n.entries ==> x.key.Type() == keyType
      requires e.key.Type() == keyType && AppendLeaf(n, e) == Err(PageFull)
      modifies this`pages
      ensures s.e == e && s.i == i
      ensures r.Err? ==> pages == old(pages) + [Blank, Blank] || pages == old(pages) + [Blank, Blank, Blank, Blank]
      ensures r.Ok? <==> SplitEnters(parent, oldChild, n.entries, e)
      ensures r.Ok? ==> Planned(parent, oldChild, s, g, plan) && ChildSplitPages(old(pages), pages, root, n, s, plan)
    {
      hide Planned, ChildSplitPages, SplitNodes, FixedWidth, AppendLeaf, InternalBytes, Enters, EntersHalf, Splits,
           Halves;
      ghost var pages0 := pages;
      plan := Room(parent);
      g := Growth(parent, parent, e.key, parent, 0);
      var split, left, right;
      split, left, right, s := SplitIntoFresh(e, n, i);
      assert pages == pages0 + [Blank, Blank];
      if split.Err? {
        return Err(split.error), s, g, plan;
      }
      var (leftPage, rightPage, sep) := split.value;
      EntersWhen(parent, oldChild, n.entries, e, keyType, s.left, s.right, s.sep);
      var entered;
      entered, g := EnterInRoot(oldChild, parent, s, left, right, sep);
      assert pages == pages0 + [Blank, Blank] || pages == pages0 + [Blank, Blank, Blank, Blank];
      SplitDivides(n, s, leftPage, rightPage);
      if entered.Err? {
        return Err(entered.error), s, g, plan;
      }
      plan := entered.value;
      WriteSplit(left, right, leftPage, rightPage, entered.value, old(pages), n, s);
      return Ok(()), s, g, plan;
    }

    method ChildLeafSplit(e: Entry, oldChild: PageId, ghost i: int) returns (r: Result<(), TreeError>)
      requires Sound() && !shape.OneLeaf? && 0 <= i < |flat.leaves| && flat.leaves[i] == oldChild
      requires e.key.Type() == keyType && InRange(flat.seps, i, e.key)
               && AppendLeaf(pages[oldChild], e) == Err(PageFull)
      modifies this
      ensures Sound() && Inserts(old(State()), e, r, State())
      ensures oldChild < |old(pages)| && old(pages)[oldChild].Leaf? && root < |old(pages)|
      ensures r.Ok? <==> SplitEnters(old(pages)[root], oldChild, old(pages)[oldChild].entries, e)
      ensures Roomy(old(State()), e) ==> r.Ok?
      ensures r.Ok? ==> old(shape).TwoLevel?
    {
      hide LeavesOk, Represents, Planned, ChildSplitPages, NoStraddle, AllFiled, InRange, Distinct, FixedWidth,
           SplitEnters;
      ghost var pages0, f := pages, flat;
      LeafTypes(pages, keyType, flat, i);
      RootTypes(pages, root, keyType, shape, flat);
      if Roomy(State(), e) {
        AlwaysEnters(pages, root, keyType, flat, contents, i, e);
      }
      ghost var s, g, plan;
      r, s, g, plan := ChildLeafSplitPages(e, oldChild, pages[root], pages[oldChild], i);
      if r.Err? {
        NothingLost(pages0, f, shape);
      } else {
        ChildSplitCommit(pages0, pages, root, keyType, shape, f, contents, pages0[oldChild], s, g, plan);
        ChildSplitIff(pages0, pages, root, keyType, shape, f, contents, pages0[oldChild], s, g, plan);
        Adopt(SplitFlat(f, pages0[oldChild].next, s), NewShape(pages0[root], s, plan), contents + multiset{e});
      }
    }

    /** Insert an entry. Whether it is accepted is a matter of the pages. An error
        leaves every page in use as it was. An exact tree stays exact, and no
        other becomes so; as long as its keys are distinct no split leaves a
        straddle, and fixed-width keys are refused only by a full leaf of a tree
        of three levels. */
    method Insert(key: Key, row: RowId) returns (r: Result<(), TreeError>)
      requires Sound()
      modifies this
      ensures Sound() && Inserts(old(State()), Entry(key, row), r, State())
      ensures key.Type() != keyType ==> r == Err(InvalidKeyType)
      ensures key.Type() == keyType && Roomy(old(State()), Entry(key, row)) ==> r.Ok?
      ensures key.Type() == keyType ==> Placed(old(State()), Entry(key, row), r, State())
    {
      if key.Type() != keyType {
        return Err(InvalidKeyType);
      }
      ghost var i;
      var leaf;
      leaf, i := FindLeaf(key);
      if leaf.Err? {
        return Err(InvalidPage);
      }
      r := InsertAt(leaf.value, i, Entry(key, row));
    }

    /** Append to the leaf if it has room, otherwise split it. */
    method InsertAt(p: PageId, ghost i: int, e: Entry) returns (r: Result<(), TreeError>)
      requires Sound() && 0 <= i < |flat.leaves| && flat.leaves[i] == p
      requires e.key.Type() == keyType && InRange(flat.seps, i, e.key)
      modifies this
      ensures Sound() && Inserts(old(State()), e, r, State()) && Placed(old(State()), e, r, State())
      ensures Roomy(old(State()), e) ==> r.Ok?
    {
      hide LeavesOk, Represents, AllFiled, NoStraddle, InRange;
      LeafTypes(pages, keyType, flat, i);
      LeafOrRoot(pages, root, keyType, shape, flat, i);
      KeyRoute(pages, keyType, flat, i, e.key);
      var appended := AppendLeaf(pages[p], e);
      if appended.Ok? {
        AppendHere(p, i, e);
        r := Ok(());
      } else if appended.error == PageFull {
        if p == root {
          r := RootLeafSplit(e);
        } else {
          r := ChildLeafSplit(e, p, i);
        }
      } else {
        r := Err(appended.error);
      }
    }

    method AppendHere(p: PageId, ghost i: int, e: Entry)
      requires Sound() && 0 <= i < |flat.leaves| && flat.leaves[i] == p && p < |pages|
      requires e.key.Type() == keyType && InRange(flat.seps, i, e.key) && AppendLeaf(pages[p], e).Ok?
      modifies this
      ensures Sound() && Inserts(old(State()), e, Ok(()), State())
      ensures pages == old(pages)[p := AppendLeaf(old(pages)[p], e).value] && shape == old(shape)
      ensures flat.leaves == old(flat.leaves) && flat.seps == old(flat.seps)
    {
      ghost var pages0, c := pages, contents;
      ghost var c0 := SomeContents(pages, keyType, flat);
      pages := pages[p := AppendLeaf(pages[p], e).value];
      InsertInPlace(pages0, keyType, flat, c0, i, e);
      InsertedIff(pages0, pages, keyType, flat, flat, c0, c, e);
      LeafRewriteShape(pages0, root, keyType, shape, flat, p, pages[p]);
      Adopt(flat, shape, contents + multiset{e});
    }

    /** The same descent, remembering the page above the leaf. */
    method FindLeafAndParent(target: Key)
      returns (r: Result<(Option<PageId>, PageId), TreeError>, ghost i: int)
      requires Sound() && target.Type() == keyType
      ensures 0 <= i < |flat.leaves| && InRange(flat.seps, i, target)
      ensures r == Ok((ParentOf(root, shape, i), flat.leaves[i]))
    {
      ghost var j: nat := RangeExists(flat.seps, target);
      i := j;
      var current := root;
      var parent := None;
      while true
        invariant OnPath(root, shape, flat, target, current, parent, i)
        invariant current == root ==> parent == None
        decreases if current == flat.leaves[i] then 0 else if current == root && shape.ThreeLevel? then 2 else 1
      {
        assert LiveOk(pages, flat, i);
        if pages[current].Leaf? {
          return Ok((parent, current)), i;
        }
        if current == root && shape.ThreeLevel? {
          RootRange(pages, root, shape, flat, keyType, target, i);
        } else {
          KidRange(pages, root, shape, flat, keyType, target, current, i);
        }
        var child := FindInternalChild(pages[current], target);
        if child.Err? {
          return Err(InvalidPage), i;
        }
        parent, current := Some(current), child.value;
      }
    }

    /** Rewrite a leaf without one entry; its link is dropped. */
    method RemoveHere(p: PageId, n: Node, ghost i: int, ghost x: int, ghost e: Entry)
      requires Sound() && 0 <= i < |flat.leaves| && flat.leaves[i] == p && p < |pages| && pages[p].Leaf?
      requires 0 <= x < |pages[p].entries| && pages[p].entries[x] == e && InRange(flat.seps, i, e.key)
      requires n == Leaf(pages[p].entries[..x] + pages[p].entries[x + 1..], None) && Fits(n)
      modifies this
      ensures Sound() && flat == old(flat) && shape == old(shape) && pages == old(pages)[p := n]
      ensures Takes(old(pages), pages, flat, i, x, e)
      ensures contents == old(contents) - multiset{e}
      ensures old(Unstraddled(State())) ==> Valid() && e in old(contents)
    {
      ghost var pages0, c := pages, contents;
      pages := pages[p := n];
      RewriteOk(pages0, pages, keyType, flat, i, x);
      LeafRewriteShape(pages0, root, keyType, shape, flat, p, n);
      if Represents(pages0, keyType, flat, c) && NoStraddle(flat.info) {
        RemoveExactIff(pages0, keyType, flat, c, i, x);
      }
      Adopt(flat, shape, c - multiset{e});
    }

    /** Merge an underfull leaf with its neighbour below the same parent. */
    method MergeBelow(parent: PageId, p: PageId, ghost i: int) returns (r: Result<(), TreeError>, ghost es: seq<Entry>)
      requires Sound() && 0 <= i < |flat.leaves| && flat.leaves[i] == p && ParentOf(root, shape, i) == Some(parent)
      requires p < |pages| && pages[p].Leaf? && LeafBytes(pages[p].entries) <= PAGE_SIZE / 2
      modifies this
      ensures Sound() && contents == old(contents) && (shape.ThreeLevel? <==> old(shape.ThreeLevel?))
      ensures old(Unstraddled(State())) ==> Unstraddled(State())
      ensures r.Err? ==> r.error == PageFull
      ensures r.Err? <==>
                var rest := LeafBytes(old(pages)[p].entries);
                MergeChoice(old(pages), root, keyType, old(shape), old(flat), i, rest) == Overflow
      ensures var rest := LeafBytes(old(pages)[p].entries);
              match MergeChoice(old(pages), root, keyType, old(shape), old(flat), i, rest)
              case Stay | Overflow => pages == old(pages) && flat == old(flat)
              case WithRight => MergedInto(old(pages), old(flat), pages, flat, keyType, i, es)
              case WithLeft => MergedInto(old(pages), old(flat), pages, flat, keyType, i - 1, es)
    {
      hide LeavesOk, Represents, ShapeOk, AllFiled, AllFit, NoStraddle, MergeFlat, MergedInto, KidIndex, Siblings;
      OneMoreLeaf(pages, keyType, flat);
      KidExists(pages, root, keyType, shape, flat, i, parent);
      var pair;
      ghost var k;
      pair, k := FindMergePair(pages[parent], p);
      MergePairChoice(pages, root, keyType, shape, flat, i, parent, k);
      if pair.Err? || pair.value.None? {
        return Ok(()), [];
      }
      ghost var m := MergePair(pages, root, keyType, shape, flat, i, parent, k);
      r, es := MergeInto(parent, pair.value.value.0, pair.value.value.1, m);
    }

    method MergeInto(parent: PageId, left: PageId, right: PageId, ghost m: int)
      returns (r: Result<(), TreeError>, ghost es: seq<Entry>)
      requires Sound() && 0 <= m < |flat.seps| && flat.leaves[m] == left && flat.leaves[m + 1] == right
      requires Siblings(shape, m) && ParentOf(root, shape, m) == Some(parent) && parent < |pages|
               && pages[parent].Internal?
      requires 0 <= KidIndex(shape, m) < |pages[parent].children|
      requires FirstAt(Kids(pages[parent]), left, KidIndex(shape, m))
      requires Kids(pages[parent])[KidIndex(shape, m) + 1] == right
      requires left < |pages| && pages[left].Leaf? && right < |pages| && pages[right].Leaf?
      modifies this
      ensures Sound() && contents == old(contents) && (shape.ThreeLevel? <==> old(shape.ThreeLevel?))
      ensures old(Unstraddled(State())) ==> Unstraddled(State())
      ensures r.Ok? <==>
                LeafBytes(old(pages)[left].entries) + LeafBytes(old(pages)[right].entries) <= PAGE_SIZE + LEAF_HEADER
      ensures r.Err? ==> r.error == PageFull && pages == old(pages) && flat == old(flat)
      ensures r.Ok? ==> MergedInto(old(pages), old(flat), pages, flat, keyType, m, es)
    {
      hide LeavesOk, Represents, ShapeOk, AllFiled, NoStraddle;
      ghost var pages0, f := pages, flat;
      es := [];
      OneMoreLeaf(pages, keyType, flat);
      PageFits(pages, left);
      PageFits(pages, right);
      PageFits(pages, parent);
      LeafTypes(pages, keyType, flat, m);
      LeafTypes(pages, keyType, flat, m + 1);
      var merged := LeafMerge(pages[left], pages[right], keyType);
      if merged.Err? {
        return Err(PageFull), es;
      }
      var newParent := RemoveRightChild(pages[parent], left, right);
      if newParent.Err? {
        return Err(PageFull), es;
      }
      pages := pages[left := merged.value.0][right := merged.value.1][parent := newParent.value];
      es := merged.value.0.entries;
      MergeCommit(pages0, pages, root, keyType, shape, flat, contents, m, parent, merged.value.0, newParent.value);
      Adopt(MergeFlat(flat, m), ShrunkShape(shape, m), contents);
      return Ok(()), es;
    }

    /** Delete one entry with the given key and row. */
    method Delete(key: Key, row: RowId) returns (r: Result<bool, TreeError>)
      requires Sound()
      modifies this
      ensures Sound()
      ensures key.Type() != keyType ==> r == Err(InvalidKeyType) && unchanged(this)
      ensures key.Type() == keyType ==> Deletes(old(State()), Entry(key, row), r, State())
    {
      if key.Type() != keyType {
        return Err(InvalidKeyType);
      }
      var found;
      ghost var i;
      found, i := FindLeafAndParent(key);
      if found.Err? {
        return Err(InvalidPage);
      }
      r := DeleteAt(found.value.1, found.value.0, i, Entry(key, row));
    }

    method DeleteAt(p: PageId, parent: Option<PageId>, ghost i: int, e: Entry) returns (r: Result<bool, TreeError>)
      requires Sound() && 0 <= i < |flat.leaves| && flat.leaves[i] == p && parent == ParentOf(root, shape, i)
      requires e.key.Type() == keyType && InRange(flat.seps, i, e.key)
      modifies this
      ensures Sound() && Deletes(old(State()), e, r, State())
    {
      hide LeavesOk, Represents, ShapeOk, AllFiled, AllFit, NoStraddle, Clean, InRange, Deleted, MergeChoice;
      LeafTypes(pages, keyType, flat, i);
      OneMoreLeaf(pages, keyType, flat);
      KeyRoute(pages, keyType, flat, i, e.key);
      PageFits(pages, p);
      if Valid() && NoStraddle(flat.info) {
        StoredInLeaf(pages, keyType, flat, contents, i, e);
      }
      var rest;
      ghost var x;
      rest, x := RemoveEntry(pages[p], e);
      if rest.None? {
        NotThere(pages, root, keyType, shape, flat, i, e);
        NotOne(contents, e);
        return Ok(false);
      }
      var merged := Take(p, parent, rest.value, i, x, e);
      return if merged.Err? then Err(merged.error) else Ok(true);
    }

    /** The entry is there: rewrite the leaf without it, and merge the leaf if it
        is underfull. */
    method Take(p: PageId, parent: Option<PageId>, n: Node, ghost i: int, ghost x: int, ghost e: Entry)
      returns (r: Result<(), TreeError>)
      requires Sound() && 0 <= i < |flat.leaves| && flat.leaves[i] == p && parent == ParentOf(root, shape, i)
      requires p < |pages| && pages[p].Leaf? && 0 <= x < |pages[p].entries| && pages[p].entries[x] == e
      requires InRange(flat.seps, i, e.key)
      requires n == Leaf(pages[p].entries[..x] + pages[p].entries[x + 1..], None) && Fits(n)
      modifies this
      ensures Sound() && (r.Err? ==> r.error == PageFull) && (shape.ThreeLevel? <==> old(shape.ThreeLevel?))
      ensures contents == old(contents) - multiset{e}
      ensures exists pages1, es ::
                Deleted(old(pages), pages1, pages, root, keyType, old(shape), old(flat), flat, i, x, e, es)
      ensures old(Valid()) ==>
                && e in old(contents)
                && (Valid() <==> Clean(old(pages), root, keyType, old(shape), old(flat), e))
      ensures old(Unstraddled(State())) ==> Unstraddled(State())
      ensures r.Err? <==> old(Overflows(pages, root, keyType, shape, flat, e))
    {
      hide LeavesOk, Represents, ShapeOk, AllFiled, AllFit, NoStraddle, Clean, MergeChoice, MergedInto, Takes, InRange,
           Deleted, Overflows;
      ghost var pages0, f, c, s := pages, flat, contents, shape;
      RemoveHere(p, n, i, x, e);
      ghost var pages1, es := pages, [];
      OverflowsRewritten(pages0, pages1, root, keyType, s, f, i, x, e);
      r := Ok(());
      if LeafBytes(n.entries) <= PAGE_SIZE / 2 && parent.Some? {
        r, es := MergeBelow(parent.value, p, i);
      }
      DeletionDone(pages0, pages1, pages, root, keyType, s, f, flat, i, x, e, es);
      if Represents(pages0, keyType, f, c) {
        DeletionValidIff(pages0, pages1, pages, root, keyType, s, f, flat, c, i, x, e, es);
      }
    }
  }
}
