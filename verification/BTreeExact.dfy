/** When a deletion takes exactly its entry out of a tree, whatever duplicates
    the tree holds: a condition on the pages before the deletion. */
module BTreeExact {
  import opened Wrappers
  import opened Keys
  import opened BTreeModel
  import opened BTreeNodes
  import opened BTreeShape
  import opened BTreeWalk
  import opened BTreeDeletion

  /** What follows the rewriting of a leaf: no merge, a merge with a neighbour, or
      one that is refused because the two overflow a page. */
  datatype Choice = Stay | WithRight | WithLeft | Overflow

  /** An underfull leaf is merged with the next child of its parent, the last
      child with the one before it; `rest` is the length of the rewritten leaf. */
  ghost function MergeChoice(pages: seq<Node>, root: PageId, t: KeyType, s: Shape, f: Flat, i: int, rest: int): Choice
    requires LeavesOk(pages, t, f) && ShapeOk(pages, root, s, f) && 0 <= i < |f.leaves|
  {
    if rest > PAGE_SIZE / 2 || s.OneLeaf? then Stay
    else
      var parent := ParentOf(root, s, i).value;
      KidFirstAt(pages, root, t, s, f, i, parent);
      if KidIndex(s, i) < |pages[parent].children| then
        assert LiveOk(pages, f, i + 1);
        if rest + LeafBytes(pages[f.leaves[i + 1]].entries) <= PAGE_SIZE + LEAF_HEADER then WithRight else Overflow
      else if KidIndex(s, i) > 0 then
        assert LiveOk(pages, f, i - 1);
        if rest + LeafBytes(pages[f.leaves[i - 1]].entries) <= PAGE_SIZE + LEAF_HEADER then WithLeft else Overflow
      else Stay
  }

  /** A merge is tried exactly if the rewritten leaf takes at most half a page and
      its parent has another child; it is refused exactly if the entries of both
      take more than a page with its header. */
  lemma ChoiceMeans(pages: seq<Node>, root: PageId, t: KeyType, s: Shape, f: Flat, i: int, rest: int)
    requires LeavesOk(pages, t, f) && ShapeOk(pages, root, s, f) && 0 <= i < |f.leaves|
    requires !s.OneLeaf?
    ensures ParentOf(root, s, i).Some? && ParentOf(root, s, i).value < |pages|
            && pages[ParentOf(root, s, i).value].Internal?
    ensures var cs := pages[ParentOf(root, s, i).value].children;
            var last := KidIndex(s, i) == |cs|;
            var choice := MergeChoice(pages, root, t, s, f, i, rest);
            && (choice == Stay <==> rest > 4096 || cs == [])
            && (choice != Stay ==>
                  && 0 <= (if last then i - 1 else i + 1) < |f.leaves|
                  && var sibling := pages[f.leaves[if last then i - 1 else i + 1]];
                     && sibling.Leaf?
                     && (choice == Overflow <==> rest - 14 + LeafBytes(sibling.entries) > 8192)
                     && (choice == WithLeft ==> last) && (choice == WithRight ==> !last))
  {
    hide LeavesOk, ShapeOk, Siblings, FirstAt;
    var parent := ParentOf(root, s, i).value;
    KidFirstAt(pages, root, t, s, f, i, parent);
    OneMoreLeaf(pages, t, f);
  }

  lemma ChoiceRange(pages: seq<Node>, root: PageId, t: KeyType, s: Shape, f: Flat, i: int, rest: int)
    requires LeavesOk(pages, t, f) && ShapeOk(pages, root, s, f) && 0 <= i < |f.leaves|
    ensures MergeChoice(pages, root, t, s, f, i, rest) == WithRight ==> i < |f.seps|
    ensures MergeChoice(pages, root, t, s, f, i, rest) == WithLeft ==> 0 < i <= |f.seps|
  {
    hide LeavesOk, ShapeOk, KidIndex, FirstAt, Siblings;
    OneMoreLeaf(pages, t, f);
    if !s.OneLeaf? {
      KidFirstAt(pages, root, t, s, f, i, ParentOf(root, s, i).value);
    }
  }

  lemma OneMoreLeaf(pages: seq<Node>, t: KeyType, f: Flat)
    requires LeavesOk(pages, t, f)
    ensures |f.leaves| == |f.seps| + 1
    ensures forall i :: 0 <= i < |f.leaves| ==>
              f.leaves[i] in f.info && f.leaves[i] < |pages| && pages[f.leaves[i]].Leaf?
    ensures forall i, j :: 0 <= i < j < |f.leaves| ==> f.leaves[i] != f.leaves[j]
  {
    forall i | 0 <= i < |f.leaves| ensures f.leaves[i] in f.info && f.leaves[i] < |pages| && pages[f.leaves[i]].Leaf? {
      assert LiveOk(pages, f, i);
    }
  }

  /** The rows that the link of a leaf leads to under its separator are none, or
      are those that the leaf it is merged with leads to. */
  ghost predicate Lossless(pages: seq<Node>, t: KeyType, f: Flat, i: int, choice: Choice)
    requires LeavesOk(pages, t, f) && 0 <= i < |f.leaves|
    requires (choice == WithRight ==> i < |f.seps|) && (choice == WithLeft ==> 0 < i <= |f.seps|)
  {
    match choice
    case Stay | Overflow => Hidden(pages, t, f, i) == multiset{}
    case WithRight => Hidden(pages, t, f, i) == From(pages, t, f, i + 1, f.seps[i])
    case WithLeft => Hidden(pages, t, f, i) == multiset{} && MergeKeeps(pages, t, f, i - 1)
  }

  /** Removing a stored entry removes nothing else: the entry is in the leaf its
      key leads to, and neither the rewriting nor the merge loses another row. */
  ghost predicate Clean(pages: seq<Node>, root: PageId, t: KeyType, s: Shape, f: Flat, e: Entry)
    requires LeavesOk(pages, t, f) && ShapeOk(pages, root, s, f)
  {
    var i := RouteIndex(f.seps, e.key);
    assert LiveOk(pages, f, i);
    var es := pages[f.leaves[i]].entries;
    && e in es
    && var choice := MergeChoice(pages, root, t, s, f, i, LeafBytes(es) - 12 - e.key.Size());
       ChoiceRange(pages, root, t, s, f, i, LeafBytes(es) - 12 - e.key.Size());
       Lossless(pages, t, f, i, choice)
  }

  /** Removing a stored entry leaves an underfull leaf that does not fit in a page
      with its neighbour: the entry is gone, and an error is reported. */
  ghost predicate Overflows(pages: seq<Node>, root: PageId, t: KeyType, s: Shape, f: Flat, e: Entry)
    requires LeavesOk(pages, t, f) && ShapeOk(pages, root, s, f)
  {
    var i := RouteIndex(f.seps, e.key);
    assert LiveOk(pages, f, i);
    var es := pages[f.leaves[i]].entries;
    e in es && MergeChoice(pages, root, t, s, f, i, LeafBytes(es) - 12 - e.key.Size()) == Overflow
  }

  /** The tree after leaves `m` and `m + 1` were merged. */
  ghost predicate MergedInto(pages: seq<Node>, f: Flat, pages': seq<Node>, f': Flat, t: KeyType, m: int,
                             es: seq<Entry>) {
    && 0 <= m < |f.seps| && |f.leaves| == |f.seps| + 1 && MergeWrites(pages, pages', f, m, es)
    && LeavesOk(pages', t, MergeFlat(f, m)) && LeavesOk(pages', t, f')
    && f'.leaves == MergeFlat(f, m).leaves && f'.seps == MergeFlat(f, m).seps
  }

  /** The rewritten leaf, and then perhaps the merge. */
  ghost predicate Deleted(pages: seq<Node>, pages1: seq<Node>, pages': seq<Node>, root: PageId, t: KeyType, s: Shape,
                          f: Flat, f': Flat, i: int, x: int, e: Entry, es: seq<Entry>)
    requires LeavesOk(pages, t, f) && ShapeOk(pages, root, s, f)
  {
    && Takes(pages, pages1, f, i, x, e) && LeavesOk(pages1, t, f) && AllFiled(pages1, f.info)
    && match MergeChoice(pages, root, t, s, f, i, LeafBytes(pages1[f.leaves[i]].entries))
       case Stay | Overflow => pages' == pages1 && f' == f
       case WithRight => MergedInto(pages1, f, pages', f', t, i, es)
       case WithLeft => MergedInto(pages1, f, pages', f', t, i - 1, es)
  }

  /** One choice at a time. */
  lemma ChoiceExact(pages: seq<Node>, pages1: seq<Node>, pages': seq<Node>, t: KeyType, f: Flat, f': Flat,
                    c: multiset<Entry>, i: int, x: int, e: Entry, es: seq<Entry>, choice: Choice)
    requires Before(pages, t, f, c) && Takes(pages, pages1, f, i, x, e) && LeavesOk(pages', t, f')
    requires LeavesOk(pages1, t, f) && AllFiled(pages1, f.info)
    requires (choice == WithRight ==> i < |f.seps|) && (choice == WithLeft ==> 0 < i <= |f.seps|)
    requires match choice
             case Stay | Overflow => pages' == pages1 && f' == f
             case WithRight => MergedInto(pages1, f, pages', f', t, i, es)
             case WithLeft => MergedInto(pages1, f, pages', f', t, i - 1, es)
    ensures e in c && e.key.Type() == t
    ensures Exact(pages', t, f', c - multiset{e}) <==> Lossless(pages, t, f, i, choice)
  {
    hide LeavesOk, AllFiled, Exact, Hidden, MergeKeeps, From, MergeWrites, MergeFlat, InRange;
    TakenExact(pages, pages1, t, f, c, i, x, e);
    if choice == WithRight {
      RefiledExact(pages', t, MergeFlat(f, i), f', c - multiset{e});
      RightMergeExact(pages, pages1, pages', t, f, c, i, x, e, es);
    } else if choice == WithLeft {
      RefiledExact(pages', t, MergeFlat(f, i - 1), f', c - multiset{e});
      LeftMergeExact(pages, pages1, pages', t, f, c, i, x, e, es);
    }
  }

  /** In every exact tree, duplicates or not, a deletion that finds its entry
      leaves the tree exact if and only if the condition held before it. */
  lemma DeletionExactIff(pages: seq<Node>, pages1: seq<Node>, pages': seq<Node>, root: PageId, t: KeyType, s: Shape,
                         f: Flat, f': Flat, c: multiset<Entry>, i: int, x: int, e: Entry, es: seq<Entry>)
    requires Before(pages, t, f, c) && ShapeOk(pages, root, s, f) && LeavesOk(pages', t, f')
    requires Deleted(pages, pages1, pages', root, t, s, f, f', i, x, e, es)
    ensures e in c && e.key.Type() == t
    ensures Exact(pages', t, f', c - multiset{e}) <==> Clean(pages, root, t, s, f, e)
  {
    hide LeavesOk, AllFiled, Exact, ShapeOk, MergeChoice, Lossless, MergedInto, InRange;
    TakenRoute(pages, pages1, t, f, i, x, e);
    RemovedBytes(pages[f.leaves[i]].entries, x);
    var choice := MergeChoice(pages, root, t, s, f, i, LeafBytes(pages1[f.leaves[i]].entries));
    ChoiceRange(pages, root, t, s, f, i, LeafBytes(pages1[f.leaves[i]].entries));
    ChoiceExact(pages, pages1, pages', t, f, f', c, i, x, e, es, choice);
  }

  lemma DeletionValidIff(pages: seq<Node>, pages1: seq<Node>, pages': seq<Node>, root: PageId, t: KeyType, s: Shape,
                         f: Flat, f': Flat, c: multiset<Entry>, i: int, x: int, e: Entry, es: seq<Entry>)
    requires LeavesOk(pages, t, f) && AllFiled(pages, f.info) && Represents(pages, t, f, c)
             && ShapeOk(pages, root, s, f)
    requires LeavesOk(pages', t, f') && AllFiled(pages', f'.info)
    requires Deleted(pages, pages1, pages', root, t, s, f, f', i, x, e, es)
    ensures e in c
    ensures Represents(pages', t, f', c - multiset{e}) <==> Clean(pages, root, t, s, f, e)
  {
    hide LeavesOk, AllFiled, Exact, ShapeOk, Represents, Deleted, Clean;
    RepresentsIsExact(pages, t, f, c);
    RepresentsIsExact(pages', t, f', c - multiset{e});
    DeletionExactIff(pages, pages1, pages', root, t, s, f, f', c, i, x, e, es);
  }

  lemma NotOne(c: multiset<Entry>, e: Entry)
    ensures c == c - multiset{e} <==> e !in c
  {
    if e in c {
      assert (c - multiset{e})[e] == c[e] - 1;
    } else {
      assert c == c - multiset{e};
    }
  }

  lemma TakenRoute(pages: seq<Node>, pages1: seq<Node>, t: KeyType, f: Flat, i: int, x: int, e: Entry)
    requires LeavesOk(pages, t, f) && Takes(pages, pages1, f, i, x, e)
    ensures RouteIndex(f.seps, e.key) == i && e in pages[f.leaves[i]].entries
  {
    RangeIsRoute(f, t, i, e.key);
  }

  /** The choice is made on the leaf as it is after the rewriting. */
  lemma ChoiceRewritten(pages: seq<Node>, pages1: seq<Node>, root: PageId, t: KeyType, s: Shape, f: Flat, i: int,
                        x: int,
                        e: Entry, rest: int)
    requires LeavesOk(pages, t, f) && ShapeOk(pages, root, s, f) && Takes(pages, pages1, f, i, x, e)
    requires LeavesOk(pages1, t, f) && ShapeOk(pages1, root, s, f)
    ensures MergeChoice(pages1, root, t, s, f, i, rest) == MergeChoice(pages, root, t, s, f, i, rest)
  {
    hide LeavesOk, ShapeOk, KidIndex, FirstAt, Siblings;
    OneMoreLeaf(pages, t, f);
    if !s.OneLeaf? {
      var parent := ParentOf(root, s, i).value;
      KidFirstAt(pages, root, t, s, f, i, parent);
      KidFirstAt(pages1, root, t, s, f, i, parent);
      assert pages1[parent] == pages[parent];
    }
  }

  /** A leaf that is merged with the very leaf it links to loses no row. */
  lemma LinkedNeighbourClean(pages: seq<Node>, root: PageId, t: KeyType, s: Shape, f: Flat, e: Entry, i: int)
    requires LeavesOk(pages, t, f) && ShapeOk(pages, root, s, f) && 0 <= i < |f.leaves| && i <= |f.seps|
    requires InRange(f.seps, i, e.key) && f.leaves[i] < |pages| && pages[f.leaves[i]].Leaf?
             && e in pages[f.leaves[i]].entries
    requires MergeChoice(pages, root, t, s, f, i, LeafBytes(pages[f.leaves[i]].entries) - 12 - e.key.Size())
             == WithRight
    requires i + 1 < |f.leaves| && pages[f.leaves[i]].next == Some(f.leaves[i + 1])
    ensures Clean(pages, root, t, s, f, e)
  {
    RangeIsRoute(f, t, i, e.key);
    assert LiveOk(pages, f, i);
  }

  /** An entry that is not in its leaf is not removed. */
  lemma NotThere(pages: seq<Node>, root: PageId, t: KeyType, s: Shape, f: Flat, i: int, e: Entry)
    requires LeavesOk(pages, t, f) && ShapeOk(pages, root, s, f) && 0 <= i < |f.leaves| && i <= |f.seps|
    requires InRange(f.seps, i, e.key) && f.leaves[i] < |pages| && pages[f.leaves[i]].Leaf?
    requires e !in pages[f.leaves[i]].entries
    ensures !Clean(pages, root, t, s, f, e)
  {
    RangeIsRoute(f, t, i, e.key);
  }

  /** The whole deletion, from what its steps did. */
  lemma DeletionDone(pages: seq<Node>, pages1: seq<Node>, pages': seq<Node>, root: PageId, t: KeyType, s: Shape,
                     f: Flat, f': Flat, i: int, x: int, e: Entry, es: seq<Entry>)
    requires LeavesOk(pages, t, f) && ShapeOk(pages, root, s, f) && Takes(pages, pages1, f, i, x, e)
    requires LeavesOk(pages1, t, f) && AllFiled(pages1, f.info) && ShapeOk(pages1, root, s, f)
    requires var rest := LeafBytes(pages1[f.leaves[i]].entries);
             if rest <= PAGE_SIZE / 2 && ParentOf(root, s, i).Some? then
               match MergeChoice(pages1, root, t, s, f, i, rest)
               case Stay | Overflow => pages' == pages1 && f' == f
               case WithRight => MergedInto(pages1, f, pages', f', t, i, es)
               case WithLeft => MergedInto(pages1, f, pages', f', t, i - 1, es)
             else pages' == pages1 && f' == f
    ensures Deleted(pages, pages1, pages', root, t, s, f, f', i, x, e, es)
  {
    hide LeavesOk, ShapeOk, AllFiled;
    var rest := LeafBytes(pages1[f.leaves[i]].entries);
    ChoiceRewritten(pages, pages1, root, t, s, f, i, x, e, rest);
  }

  /** The merge is refused as the pages before the deletion say. */
  lemma OverflowsRewritten(pages: seq<Node>, pages1: seq<Node>, root: PageId, t: KeyType, s: Shape, f: Flat, i: int,
                           x: int, e: Entry)
    requires LeavesOk(pages, t, f) && ShapeOk(pages, root, s, f) && Takes(pages, pages1, f, i, x, e)
    requires LeavesOk(pages1, t, f) && ShapeOk(pages1, root, s, f)
    ensures MergeChoice(pages1, root, t, s, f, i, LeafBytes(pages1[f.leaves[i]].entries)) == Overflow <==>
              Overflows(pages, root, t, s, f, e)
    ensures Overflows(pages, root, t, s, f, e) ==>
              LeafBytes(pages1[f.leaves[i]].entries) <= PAGE_SIZE / 2 && ParentOf(root, s, i).Some?
  {
    hide LeavesOk, ShapeOk, InRange, KidIndex;
    var rest := LeafBytes(pages1[f.leaves[i]].entries);
    ChoiceRewritten(pages, pages1, root, t, s, f, i, x, e, rest);
    TakenRoute(pages, pages1, t, f, i, x, e);
    RemovedBytes(pages[f.leaves[i]].entries, x);
  }

  /** The pair that is merged, in terms of the choice. */
  lemma MergePairChoice(pages: seq<Node>, root: PageId, t: KeyType, s: Shape, f: Flat, i: int, parent: PageId, k: nat)
    requires LeavesOk(pages, t, f) && ShapeOk(pages, root, s, f) && 0 <= i < |f.leaves|
    requires ParentOf(root, s, i) == Some(parent) && parent < |pages| && pages[parent].Internal?
    requires FirstAt(Kids(pages[parent]), f.leaves[i], k)
    ensures k == KidIndex(s, i) && i <= |f.seps| && f.leaves[i] < |pages| && pages[f.leaves[i]].Leaf?
    ensures k < |pages[parent].children| ==>
              && i < |f.seps| && Kids(pages[parent])[k + 1] == f.leaves[i + 1]
              && f.leaves[i + 1] < |pages| && pages[f.leaves[i + 1]].Leaf?
    ensures k == |pages[parent].children| && k > 0 ==>
              && i > 0 && Kids(pages[parent])[k - 1] == f.leaves[i - 1]
              && f.leaves[i - 1] < |pages| && pages[f.leaves[i - 1]].Leaf?
  {
    KidFirstAt(pages, root, t, s, f, i, parent);
    assert LiveOk(pages, f, i);
    if k < |pages[parent].children| {
      assert LiveOk(pages, f, i + 1);
    } else if k > 0 {
      KidFirstAt(pages, root, t, s, f, i - 1, parent);
      assert LiveOk(pages, f, i - 1);
    }
  }

  lemma RefiledShape(pages: seq<Node>, root: PageId, t: KeyType, s: Shape, f: Flat)
    requires LeavesOk(pages, t, f) && ShapeOk(pages, root, s, f)
    ensures Linked(pages, t, f.info) && ShapeOk(pages, root, s, Refile(pages, t, f))
    ensures Refile(pages, t, f).leaves == f.leaves && Refile(pages, t, f).seps == f.seps
  {
    RefileOk(pages, t, f);
  }

  lemma RepresentsIsFiled(pages: seq<Node>, t: KeyType, f: Flat, c: multiset<Entry>)
    requires LeavesOk(pages, t, f)
    ensures Linked(pages, t, f.info) && (Represents(pages, t, f, c) ==> AllFiled(pages, f.info))
  {
  }

  lemma KeyRoute(pages: seq<Node>, t: KeyType, f: Flat, i: int, k: Key)
    requires LeavesOk(pages, t, f) && 0 <= i < |f.leaves| && i <= |f.seps| && InRange(f.seps, i, k)
    ensures RouteIndex(f.seps, k) == i
  {
    RangeIsRoute(f, t, i, k);
  }

  lemma RiseOnly(pages: seq<Node>, t: KeyType, f: Flat)
    requires LeavesOk(pages, t, f)
    ensures PositionsRise(f)
  {
  }

  lemma PageFits(pages: seq<Node>, p: PageId)
    requires p < |pages| && AllFit(pages)
    ensures Fits(pages[p])
  {
  }

  lemma UndisturbedFiled(pages: seq<Node>, pages': seq<Node>, info: map<PageId, Info>)
    requires AllFiled(pages, info) && forall p :: p in info ==> p < |pages'| && pages'[p] == pages[p]
    ensures AllFiled(pages', info)
  {
  }
}
