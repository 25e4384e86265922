/** Duplicates and deletion do not mix: once a split has left equal keys on both
    of its sides, deleting one of them from the left leaf may hide the others.
    The runs below start from an empty tree. */
module BTreeStraddle {
  import opened Wrappers
  import opened Keys
  import opened BTreeModel
  import opened BTreeNodes
  import opened BTreeShape
  import opened BTreeWalk
  import opened BTreeDeletion
  import opened BTreeExact
  import opened BTreeSteps
  import opened BTreeStates
  import opened BTree

  /** A key so long that four entries fill a page. */
  ghost predicate Long(k: Key) {
    k.Varchar? && |k.s| == 2000
  }

  ghost predicate Under(es: seq<Entry>, k: Key) {
    forall e :: e in es ==> e.key == k
  }

  lemma {:induction false} UnderBytes(es: seq<Entry>, k: Key)
    requires Under(es, k)
    ensures LeafBytes(es) == LEAF_HEADER + (12 + k.Size()) * |es|
  {
    if es != [] {
      UnderBytes(es[..|es| - 1], k);
      assert es[|es| - 1] in es;
    }
  }

  lemma {:induction false} UnderRows(es: seq<Entry>, k: Key)
    requires Under(es, k)
    ensures |RowsAt(es, k)| == |es|
  {
    if es != [] {
      var last := |es| - 1;
      UnderRows(es[..last], k);
      assert es == es[..last] + [es[last]] && es[last] in es;
      RowsAtAppend(es[..last], es[last], k);
    }
  }

  lemma UnderAppend(es: seq<Entry>, k: Key, row: RowId)
    requires Under(es, k)
    ensures Under(es + [Entry(k, row)], k)
  {
  }

  lemma UnderPart(es: seq<Entry>, part: seq<Entry>, k: Key)
    requires Under(es, k) && multiset(part) <= multiset(es)
    ensures Under(part, k)
  {
    forall e | e in part ensures e.key == k {
      assert e in multiset(part);
      assert e in multiset(es);
    }
  }

  /** The tree stands for `n` entries, all of them under `k`. */
  ghost predicate Stores(s: State, k: Key, n: nat) {
    |s.contents| == n && forall e :: e in s.contents ==> e.key == k
  }

  /** One leaf with `n` entries under `k`. */
  ghost predicate Filling(s: State, k: Key, n: nat) {
    && ExactState(s) && s.keyType == k.Type() && s.root == 0 && s.shape.OneLeaf? && Stores(s, k, n)
    && s.flat.leaves == [0] && s.flat.seps == []
    && |s.pages| == 1 && s.pages[0].Leaf? && Under(s.pages[0].entries, k) && |s.pages[0].entries| == n
  }

  /** Two leaves with `a` and `b` entries under `k`, the first linked to the second. */
  ghost predicate StraddlePages(pages: seq<Node>, f: Flat, k: Key, a: nat, b: nat) {
    && f.leaves == [1, 2] && f.seps == [k]
    && |pages| == 3 && pages[0] == Internal([Child(1, k)], 2)
    && pages[1].Leaf? && Under(pages[1].entries, k) && |pages[1].entries| == a && pages[1].next == Some(2)
    && pages[2].Leaf? && Under(pages[2].entries, k) && |pages[2].entries| == b && pages[2].next == None
  }

  ghost predicate Straddling(s: State, k: Key, a: nat, b: nat) {
    && ExactState(s) && s.keyType == k.Type() && s.root == 0 && s.shape.TwoLevel? && Stores(s, k, a + b)
    && StraddlePages(s.pages, s.flat, k, a, b)
  }

  /** The tree after `m` insertions of the key: four fill the root leaf, the
      fifth halves it, and further ones go left. */
  ghost predicate Repeated(s: State, k: Key, m: nat) {
    if m <= 4 then Filling(s, k, m) else Straddling(s, k, m - 3, 3)
  }

  lemma OneRoute(k: Key)
    ensures RouteIndex([], k) == 0 && RouteIndex([k], k) == 0
  {
    RouteIndexUnique([], k, 0);
    RouteIndexUnique([k], k, 0);
  }

  lemma NewRepeated(k: Key)
    requires Long(k) && ExactState(NewState(VarcharKey))
    ensures Repeated(NewState(VarcharKey), k, 0)
  {
  }

  /** A key goes to the root leaf while there is room. */
  lemma FillStep(s: State, k: Key, row: RowId, n: nat, r: Result<(), TreeError>, s': State)
    requires Long(k) && Filling(s, k, n) && n < 4
    requires Inserts(s, Entry(k, row), r, s') && Placed(s, Entry(k, row), r, s')
    ensures r.Ok? && Filling(s', k, n + 1)
  {
    hide LeavesOk, Represents, AllFiled, AllFit, NoStraddle, ShapeOk;
    OneRoute(k);
    UnderBytes(s.pages[0].entries, k);
    UnderAppend(s.pages[0].entries, k, row);
  }

  lemma SameKeySplits(es: seq<Entry>, e: Entry, k: Key)
    requires Long(k) && Under(es, k) && e.key == k && |es| == 4
    ensures Splits(es, e)
  {
    forall left, right, sep | Halves(es, e, left, right, sep)
      ensures LeafBytes(left) <= PAGE_SIZE && LeafBytes(right) <= PAGE_SIZE {
      SameCounts(es, e, left, right, sep);
      UnderAppend(es, k, e.row);
      assert Entry(k, e.row) == e;
      UnderPart(es + [e], left, k);
      UnderPart(es + [e], right, k);
      UnderBytes(left, k);
      UnderBytes(right, k);
    }
  }

  /** The fifth splits it: two entries stay left, three go right. */
  lemma SplitStep(s: State, k: Key, row: RowId, r: Result<(), TreeError>, s': State)
    requires Long(k) && Filling(s, k, 4)
    requires Inserts(s, Entry(k, row), r, s') && Placed(s, Entry(k, row), r, s')
    ensures r.Ok? && Straddling(s', k, 2, 3)
  {
    hide LeavesOk, Represents, AllFiled, AllFit, NoStraddle, ShapeOk;
    var es, e := s.pages[0].entries, Entry(k, row);
    OneRoute(k);
    UnderBytes(es, k);
    UnderAppend(es, k, row);
    SameKeySplits(es, e, k);
    LastLeaf(s);
    HalvedSame(s.pages, s'.pages, k, e, s'.flat);
  }

  /** A leaf that is the root has no successor. */
  lemma LastLeaf(s: State)
    requires SoundState(s) && s.flat.leaves == [s.root] && s.root < |s.pages|
    ensures s.pages[s.root].Leaf? && s.pages[s.root].next == None
  {
    assert LiveOk(s.pages, s.flat, 0);
  }

  lemma HalvedSame(pages: seq<Node>, pages': seq<Node>, k: Key, e: Entry, f: Flat)
    requires |pages| == 1 && RootHalved(pages, pages', 0, e, f) && e.key == k
    requires Under(pages[0].entries, k) && |pages[0].entries| == 4 && pages[0].next == None
    ensures f.leaves == [1, 2] && f.seps == [k] && |pages'| == 3 && pages'[0] == Internal([Child(1, k)], 2)
    ensures pages'[1].Leaf? && Under(pages'[1].entries, k) && |pages'[1].entries| == 2 && pages'[1].next == Some(2)
    ensures pages'[2].Leaf? && Under(pages'[2].entries, k) && |pages'[2].entries| == 3 && pages'[2].next == None
  {
    var es := pages[0].entries;
    var left, right, sep :|
      && Divides(es, e, left, right, sep) && |left| == (|es| + 1) / 2 && f.seps == [sep]
      && pages' == pages[0 := Internal([Child(1, sep)], 2)] + [Leaf(left, Some(2)), Leaf(right, None)];
    UnderAppend(es, k, e.row);
    assert es + [e] == es + [Entry(k, e.row)];
    UnderPart(es + [e], left, k);
    UnderPart(es + [e], right, k);
    assert |multiset(left)| + |multiset(right)| == |multiset(es + [e])|;
  }

  /** Later entries under the key go left. */
  lemma FillLeftStep(s: State, k: Key, row: RowId, a: nat, b: nat, r: Result<(), TreeError>, s': State)
    requires Long(k) && Straddling(s, k, a, b) && a < 4
    requires Inserts(s, Entry(k, row), r, s') && Placed(s, Entry(k, row), r, s')
    ensures r.Ok? && Straddling(s', k, a + 1, b)
  {
    hide LeavesOk, Represents, AllFiled, AllFit, NoStraddle, ShapeOk;
    OneRoute(k);
    UnderBytes(s.pages[1].entries, k);
    UnderAppend(s.pages[1].entries, k, row);
  }

  /** Up to seven insertions of one key succeed, and where they go. */
  lemma RepeatedStep(s: State, k: Key, row: RowId, m: nat, r: Result<(), TreeError>, s': State)
    requires Long(k) && Repeated(s, k, m) && m < 7
    requires Inserts(s, Entry(k, row), r, s') && Placed(s, Entry(k, row), r, s')
    ensures r.Ok? && Repeated(s', k, m + 1)
  {
    hide Filling, Straddling, Inserts, Placed;
    if m < 4 {
      FillStep(s, k, row, m, r, s');
    } else if m == 4 {
      SplitStep(s, k, row, r, s');
    } else {
      FillLeftStep(s, k, row, m - 3, 3, r, s');
    }
  }

  /** Insertions of one key into an empty tree. */
  method InsertRepeatedly(k: Key, rows: seq<RowId>) returns (tree: Tree)
    requires Long(k) && |rows| <= 7
    ensures fresh(tree) && Repeated(tree.State(), k, |rows|)
    ensures forall row :: tree.contents[Entry(k, row)] == multiset(rows)[row]
  {
    hide Repeated, Placed, SoundState, ExactState, Unstraddled;
    tree := new Tree.Create(VarcharKey);
    NewRepeated(k);
    var i := 0;
    while i < |rows|
      invariant 0 <= i <= |rows| && fresh(tree) && Repeated(tree.State(), k, i)
      invariant forall row :: tree.contents[Entry(k, row)] == multiset(rows[..i])[row]
    {
      assert rows[..i + 1] == rows[..i] + [rows[i]];
      ghost var s := tree.State();
      RepeatedSound(s, k, i);
      var r := tree.Insert(k, rows[i]);
      RepeatedStep(s, k, rows[i], i, r, tree.State());
      i := i + 1;
    }
    assert rows[..i] == rows;
  }

  lemma RepeatedSound(s: State, k: Key, m: nat)
    requires Repeated(s, k, m)
    ensures SoundState(s) && ExactState(s) && s.keyType == k.Type()
  {
  }

  // ---------- what a search misses ----------

  /** What lies past the left leaf under the key. */
  lemma StraddleHidden(pages: seq<Node>, t: KeyType, f: Flat, k: Key, a: nat, b: nat)
    requires LeavesOk(pages, t, f) && StraddlePages(pages, f, k, a, b)
    ensures |Hidden(pages, t, f, 0)| == b && Hidden(pages, t, f, 0) == From(pages, t, f, 1, k)
  {
    assert LiveOk(pages, f, 0) && LiveOk(pages, f, 1);
    UnderRows(pages[2].entries, k);
  }

  /** With three entries of this length left, the leaf is not underfull. */
  lemma StraddleStays(pages: seq<Node>, t: KeyType, f: Flat, k: Key, e: Entry)
    requires LeavesOk(pages, t, f) && ShapeOk(pages, 0, TwoLevel, f) && StraddlePages(pages, f, k, 4, 3) && Long(k)
    requires e.key == k
    ensures !Clean(pages, 0, t, TwoLevel, f, e) && !Overflows(pages, 0, t, TwoLevel, f, e)
    ensures MergeChoice(pages, 0, t, TwoLevel, f, 0, LEAF_HEADER + (12 + k.Size()) * 3) == Stay
  {
    OneRoute(k);
    UnderBytes(pages[1].entries, k);
    StraddleHidden(pages, t, f, k, 4, 3);
  }

  lemma StraddleDeleted(pages: seq<Node>, pages1: seq<Node>, pages': seq<Node>, t: KeyType, f: Flat, f': Flat, k: Key,
                        i: int, x: int, e: Entry, es: seq<Entry>)
    requires LeavesOk(pages, t, f) && ShapeOk(pages, 0, TwoLevel, f) && StraddlePages(pages, f, k, 4, 3) && Long(k)
    requires e.key == k && Deleted(pages, pages1, pages', 0, t, TwoLevel, f, f', i, x, e, es)
    ensures f' == f && pages' == pages1 && LeavesOk(pages', t, f')
    ensures |Found(pages', t, f', k)| == 3
  {
    hide LeavesOk, ShapeOk, AllFiled, MergeChoice, MergedInto, Found, Long;
    assert i == 0;
    var rest := pages1[1].entries;
    RemovedRest(pages[1].entries, x);
    UnderPart(pages[1].entries, rest, k);
    UnderBytes(rest, k);
    StraddleStays(pages, t, f, k, e);
    StraddleFound(pages1, t, f, k, 3);
  }

  lemma RemovedRest(es: seq<Entry>, x: int)
    requires 0 <= x < |es|
    ensures multiset(es[..x] + es[x + 1..]) <= multiset(es)
  {
    assert es == es[..x] + [es[x]] + es[x + 1..];
  }

  lemma StraddleFound(pages: seq<Node>, t: KeyType, f: Flat, k: Key, a: nat)
    requires LeavesOk(pages, t, f) && f.leaves == [1, 2] && f.seps == [k]
    requires 1 < |pages| && pages[1].Leaf? && Under(pages[1].entries, k) && |pages[1].entries| == a
             && pages[1].next == None
    ensures |Found(pages, t, f, k)| == a
  {
    OneRoute(k);
    UnderRows(pages[1].entries, k);
  }

  /** The leaf stays as it is and loses its link. */
  lemma ShortDelete(s: State, k: Key, row: RowId, d: Result<bool, TreeError>, s': State)
    requires Long(k) && Repeated(s, k, 7) && Entry(k, row) in s.pages[1].entries
    requires Deletes(s, Entry(k, row), d, s')
    ensures d == Ok(true) && !ExactState(s') && Stores(s', k, 6)
    ensures |Found(s'.pages, s'.keyType, s'.flat, k)| == 3
  {
    hide LeavesOk, Represents, AllFiled, AllFit, NoStraddle, ShapeOk, Clean, Overflows, Deleted, Found, Long;
    OneRoute(k);
    var e := Entry(k, row);
    StraddleStays(s.pages, s.keyType, s.flat, k, e);
    var pages1, i, x, es :|
      Deleted(s.pages, pages1, s'.pages, 0, s.keyType, TwoLevel, s.flat, s'.flat, i, x, e, es);
    StraddleDeleted(s.pages, pages1, s'.pages, s.keyType, s.flat, s'.flat, k, i, x, e, es);
  }

  /** Seven insertions, a deletion that reports success, and a search: six rows
      are stored under the key, and the search returns three of them. */
  method ShortSearch(k: Key, rows: seq<RowId>) returns (tree: Tree, deleted: Result<bool, TreeError>, found: seq<RowId>)
    requires Long(k) && |rows| == 7
    ensures fresh(tree) && tree.Sound() && deleted == Ok(true)
    ensures Stores(tree.State(), k, 6) && |found| == 3 && !tree.Valid()
  {
    hide LeavesOk, Represents, AllFiled, AllFit, NoStraddle, ShapeOk, Deletes, Found, Long;
    tree := InsertRepeatedly(k, rows);
    ghost var s := tree.State();
    var gone := tree.pages[1].entries[0];
    deleted := tree.Delete(k, gone.row);
    ShortDelete(s, k, gone.row, deleted, tree.State());
    var answer := tree.Search(k);
    found := answer.value;
  }

  /** Three entries on either side: the left leaf becomes underfull, but the
      five that are left do not fit a page. */
  lemma StraddleOverflows(pages: seq<Node>, t: KeyType, f: Flat, k: Key, e: Entry)
    requires LeavesOk(pages, t, f) && ShapeOk(pages, 0, TwoLevel, f) && StraddlePages(pages, f, k, 3, 3) && Long(k)
    requires e in pages[1].entries
    ensures Overflows(pages, 0, t, TwoLevel, f, e) && !Clean(pages, 0, t, TwoLevel, f, e)
  {
    OneRoute(k);
    UnderBytes(pages[1].entries, k);
    UnderBytes(pages[2].entries, k);
    StraddleHidden(pages, t, f, k, 3, 3);
    assert e.key == k;
  }

  /** The merge is refused: an error is reported, and the entry is gone. */
  lemma RefusedStep(s: State, k: Key, row: RowId, d: Result<bool, TreeError>, s': State)
    requires Long(k) && Repeated(s, k, 6) && Entry(k, row) in s.pages[1].entries
    requires Deletes(s, Entry(k, row), d, s')
    ensures d == Err(PageFull) && !ExactState(s') && Stores(s', k, 5)
    ensures s'.contents == s.contents - multiset{Entry(k, row)}
  {
    hide LeavesOk, Represents, AllFiled, AllFit, NoStraddle, ShapeOk, Clean, Deleted, Overflows, Long;
    StraddleOverflows(s.pages, s.keyType, s.flat, k, Entry(k, row));
    assert Entry(k, row) in s.contents;
  }

  /** Six insertions and a deletion that reports an error although the entry is
      gone; three of the rows that are left are hidden too. */
  method RefusedMerge(k: Key, rows: seq<RowId>) returns (tree: Tree, deleted: Result<bool, TreeError>)
    requires Long(k) && |rows| == 6
    ensures fresh(tree) && tree.Sound() && deleted == Err(PageFull)
    ensures Stores(tree.State(), k, 5) && !tree.Valid()
  {
    hide LeavesOk, Represents, AllFiled, AllFit, NoStraddle, ShapeOk, Deletes, Long;
    tree := InsertRepeatedly(k, rows);
    ghost var s := tree.State();
    var gone := tree.pages[1].entries[0];
    deleted := tree.Delete(k, gone.row);
    RefusedStep(s, k, gone.row, deleted, tree.State());
  }

  /** What a search for the key finds is what the two leaves hold. */
  lemma FoundInBoth(pages: seq<Node>, t: KeyType, f: Flat, k: Key, a: nat, b: nat)
    requires LeavesOk(pages, t, f) && StraddlePages(pages, f, k, a, b)
    ensures Found(pages, t, f, k) == RowsAt(pages[1].entries, k) + RowsAt(pages[2].entries, k)
  {
    OneRoute(k);
    assert LiveOk(pages, f, 0) && LiveOk(pages, f, 1);
    hide LeavesOk, LiveOk;
    assert GoesOn(pages[1], k) && !GoesOn(pages[2], k);
    assert Walk(pages, t, f.info, 2, k) == RowsAt(pages[2].entries, k);
  }

  lemma StraddleRows(s: State, k: Key, a: nat, b: nat, row: RowId)
    requires Straddling(s, k, a, b)
    ensures s.contents[Entry(k, row)]
         == multiset(s.pages[1].entries)[Entry(k, row)] + multiset(s.pages[2].entries)[Entry(k, row)]
  {
    hide LeavesOk, Represents, AllFiled, AllFit, ShapeOk, Found;
    FoundInBoth(s.pages, s.keyType, s.flat, k, a, b);
    AnswersFound(s.pages, s.keyType, s.flat, s.contents, k, row);
    RowsAtCounts(s.pages[1].entries, k, row);
    RowsAtCounts(s.pages[2].entries, k, row);
  }

  /** An entry that went right is not found: a deletion looks left only. */
  lemma MissedStep(s: State, k: Key, row: RowId, d: Result<bool, TreeError>, s': State)
    requires Long(k) && Repeated(s, k, 5) && Entry(k, row) in s.pages[2].entries && s.contents[Entry(k, row)] == 1
    requires Deletes(s, Entry(k, row), d, s')
    ensures d == Ok(false) && s' == s
  {
    hide LeavesOk, Represents, AllFiled, AllFit, NoStraddle, ShapeOk, Clean, Deleted, Overflows, Long;
    OneRoute(k);
    StraddleRows(s, k, 2, 3, row);
    assert Entry(k, row) in multiset(s.pages[2].entries);
    assert Entry(k, row) !in multiset(s.pages[1].entries);
  }

  /** Five insertions of one key for different rows, and a deletion of one that
      is stored: it reports that there is none. */
  method MissedEntry(k: Key, rows: seq<RowId>) returns (tree: Tree, missed: RowId, deleted: Result<bool, TreeError>)
    requires Long(k) && |rows| == 5 && forall i, j :: 0 <= i < j < 5 ==> rows[i] != rows[j]
    ensures fresh(tree) && tree.Valid() && deleted == Ok(false) && tree.contents[Entry(k, missed)] == 1
  {
    hide LeavesOk, Represents, AllFiled, AllFit, NoStraddle, ShapeOk, Deletes, Long;
    tree := InsertRepeatedly(k, rows);
    ghost var s := tree.State();
    missed := tree.pages[2].entries[0].row;
    StraddleRows(s, k, 2, 3, missed);
    assert tree.pages[2].entries[0] in multiset(tree.pages[2].entries);
    AtMostOnce(rows, missed);
    deleted := tree.Delete(k, missed);
    MissedStep(s, k, missed, deleted, tree.State());
  }

  lemma {:induction false} AtMostOnce(rows: seq<RowId>, row: RowId)
    requires forall i, j :: 0 <= i < j < |rows| ==> rows[i] != rows[j]
    ensures multiset(rows)[row] <= 1
  {
    if rows != [] {
      AtMostOnce(rows[1..], row);
      assert rows == [rows[0]] + rows[1..];
    }
  }

  /** After five insertions the left leaf becomes underfull and is merged with
      the leaf it links to: the same deletion is exact. */
  method ShortLeafRestored(k: Key, rows: seq<RowId>) returns (tree: Tree, deleted: Result<bool, TreeError>)
    requires Long(k) && |rows| == 5
    ensures fresh(tree) && tree.Valid() && deleted == Ok(true) && Stores(tree.State(), k, 4)
  {
    hide LeavesOk, Represents, AllFiled, AllFit, NoStraddle, ShapeOk, Clean, Deleted, Overflows;
    tree := InsertRepeatedly(k, rows);
    var gone := tree.pages[1].entries[0];
    OneRoute(k);
    StraddleMerges(tree.pages, tree.keyType, tree.flat, k, gone);
    deleted := tree.Delete(k, gone.row);
  }

  lemma StraddleMerges(pages: seq<Node>, t: KeyType, f: Flat, k: Key, e: Entry)
    requires LeavesOk(pages, t, f) && ShapeOk(pages, 0, TwoLevel, f) && StraddlePages(pages, f, k, 2, 3) && Long(k)
    requires e in pages[1].entries
    ensures Clean(pages, 0, t, TwoLevel, f, e) && !Overflows(pages, 0, t, TwoLevel, f, e)
  {
    UnderBytes(pages[1].entries, k);
    UnderBytes(pages[2].entries, k);
    LinkedNeighbourClean(pages, 0, t, TwoLevel, f, e, 0);
    OneRoute(k);
  }
}
