/** What a search reads: the walk along the leaf links, as a function of the
    pages alone. The ghost constants of the leaf pages follow from it. */
module BTreeWalk {
  import opened Wrappers
  import opened Keys
  import opened BTreeModel
  import opened BTreeNodes

  /** The linked leaf pages are well formed; links lead strictly forward. */
  ghost predicate Linked(pages: seq<Node>, t: KeyType, info: map<PageId, Info>) {
    forall p :: p in info ==> PageOk(pages, t, info, p)
  }

  /** The pages further along the chain than `p`: what is left of a walk. */
  ghost function Ahead(info: map<PageId, Info>, p: PageId): set<PageId>
    requires p in info
  {
    set q | q in info && info[p].pos < info[q].pos
  }

  /** A search for `k` goes on from this leaf to the next. */
  ghost predicate GoesOn(n: Node, k: Key) {
    n.Leaf? && n.next.Some? && NoGreater(n.entries, k)
  }

  /** The rows that a walk from leaf `p` collects for `k`. */
  ghost function Walk(pages: seq<Node>, t: KeyType, info: map<PageId, Info>, p: PageId, k: Key): multiset<RowId>
    requires Linked(pages, t, info) && p in info
    decreases Ahead(info, p)
  {
    assert PageOk(pages, t, info, p);
    if GoesOn(pages[p], k) then
      var q := pages[p].next.value;
      assert q in Ahead(info, p) && q !in Ahead(info, q);
      RowsAt(pages[p].entries, k) + Walk(pages, t, info, q, k)
    else RowsAt(pages[p].entries, k)
  }

  /** The part of it that lies past `p`. */
  ghost function Past(pages: seq<Node>, t: KeyType, info: map<PageId, Info>, p: PageId, k: Key): multiset<RowId>
    requires Linked(pages, t, info) && p in info
  {
    assert PageOk(pages, t, info, p);
    if GoesOn(pages[p], k) then Walk(pages, t, info, pages[p].next.value, k) else multiset{}
  }

  /** The walk from `p` comes to page `y`. */
  ghost predicate Through(pages: seq<Node>, t: KeyType, info: map<PageId, Info>, p: PageId, k: Key, y: PageId)
    requires Linked(pages, t, info) && p in info
    decreases Ahead(info, p)
  {
    assert PageOk(pages, t, info, p);
    p == y ||
    (GoesOn(pages[p], k) &&
     var q := pages[p].next.value;
     assert q in Ahead(info, p) && q !in Ahead(info, q);
     Through(pages, t, info, q, k, y))
  }

  /** A walk only finds keys at or above the low bound of its first page. */
  lemma {:induction false} WalkBelow(pages: seq<Node>, t: KeyType, info: map<PageId, Info>, p: PageId, k: Key)
    requires Linked(pages, t, info) && p in info && Rank(k) < info[p].LoRank()
    ensures Walk(pages, t, info, p, k) == multiset{}
    decreases Ahead(info, p)
  {
    assert PageOk(pages, t, info, p);
    assert RowsAt(pages[p].entries, k) == multiset{} by {
      forall r ensures RowsAt(pages[p].entries, k)[r] == 0 {
        RowsAtCounts(pages[p].entries, k, r);
        assert Entry(k, r) !in pages[p].entries;
      }
    }
    if GoesOn(pages[p], k) {
      var q := pages[p].next.value;
      assert q in Ahead(info, p) && q !in Ahead(info, q);
      WalkBelow(pages, t, info, q, k);
    }
  }

  // ---------- the ghost constants follow from the walks ----------

  /** The rows recorded for every page are those found under its low bound. */
  ghost predicate AllFiled(pages: seq<Node>, info: map<PageId, Info>) {
    forall p :: p in info ==> p < |pages| && pages[p].Leaf? && Filed(pages, info, p)
  }

  /** With them a walk is described by its first page. */
  lemma {:induction false} WalkIsHere(pages: seq<Node>, t: KeyType, info: map<PageId, Info>, p: PageId, k: Key,
                                      r: RowId)
    requires Linked(pages, t, info) && AllFiled(pages, info) && p in info && k.Type() == t
    requires p < |pages| && pages[p].Leaf?
    requires pages[p].next.Some? && pages[p].next.value in info ==> Rank(k) <= info[pages[p].next.value].LoRank()
    ensures Walk(pages, t, info, p, k)[r] == Here(info, pages[p], k, r)
    decreases Ahead(info, p)
  {
    assert PageOk(pages, t, info, p);
    RowsAtCounts(pages[p].entries, k, r);
    if GoesOn(pages[p], k) {
      var q := pages[p].next.value;
      assert q in Ahead(info, p) && q !in Ahead(info, q);
      assert PageOk(pages, t, info, q) && Filed(pages, info, q);
      BeyondIsHere(pages, t, info, q, k, r);
      WalkIsHere(pages, t, info, q, k, r);
    }
  }

  /** The constants that the pages call for. */
  ghost function Refiled(pages: seq<Node>, t: KeyType, info: map<PageId, Info>): map<PageId, Info>
    requires Linked(pages, t, info)
  {
    map p | p in info ::
      info[p].(atLo := if info[p].lo.None? then multiset{} else Walk(pages, t, info, p, info[p].lo.value))
  }

  /** The same pages with the same bounds and positions. */
  ghost predicate Agrees(info: map<PageId, Info>, info': map<PageId, Info>) {
    info'.Keys == info.Keys && forall p :: p in info ==> info'[p].lo == info[p].lo && info'[p].pos == info[p].pos
  }

  lemma AgreesLinked(pages: seq<Node>, t: KeyType, info: map<PageId, Info>, info': map<PageId, Info>)
    requires Linked(pages, t, info) && Agrees(info, info')
    ensures Linked(pages, t, info')
  {
    forall p | p in info' ensures PageOk(pages, t, info', p) {
      assert p in info && PageOk(pages, t, info, p);
    }
  }

  lemma AgreesLeavesOk(pages: seq<Node>, t: KeyType, f: Flat, f': Flat)
    requires LeavesOk(pages, t, f) && Agrees(f.info, f'.info) && f'.leaves == f.leaves && f'.seps == f.seps
    ensures LeavesOk(pages, t, f')
  {
    AgreesLinked(pages, t, f.info, f'.info);
    forall i | 0 <= i < |f.leaves| ensures LiveOk(pages, f', i) {
      assert LiveOk(pages, f, i);
    }
  }

  /** A walk does not depend on them. */
  lemma {:induction false} RefiledWalk(pages: seq<Node>, t: KeyType, info: map<PageId, Info>, info': map<PageId, Info>,
                                           p: PageId, k: Key)
    requires Linked(pages, t, info) && Linked(pages, t, info') && p in info && p in info'
    ensures Walk(pages, t, info', p, k) == Walk(pages, t, info, p, k)
    decreases Ahead(info, p)
  {
    assert PageOk(pages, t, info, p) && PageOk(pages, t, info', p);
    if GoesOn(pages[p], k) {
      var q := pages[p].next.value;
      assert q in Ahead(info, p) && q !in Ahead(info, q);
      RefiledWalk(pages, t, info, info', q, k);
    }
  }

  lemma RefiledFiled(pages: seq<Node>, t: KeyType, info: map<PageId, Info>)
    requires Linked(pages, t, info)
    ensures AllFiled(pages, Refiled(pages, t, info))
  {
    var info' := Refiled(pages, t, info);
    forall p | p in info' ensures p < |pages| && pages[p].Leaf? && Filed(pages, info', p) {
      assert PageOk(pages, t, info, p);
      if info[p].lo.Some? {
        var k := info[p].lo.value;
        forall r ensures info'[p].atLo[r] == Here(info', pages[p], k, r) {
          RowsAtCounts(pages[p].entries, k, r);
          if GoesOn(pages[p], k) {
            BeyondIsWalk(pages, t, info, pages[p].next.value, k, r);
          }
        }
      }
    }
  }

  lemma BeyondIsWalk(pages: seq<Node>, t: KeyType, info: map<PageId, Info>, q: PageId, k: Key, r: RowId)
    requires Linked(pages, t, info) && q in info && k.Type() == t && Rank(k) <= info[q].LoRank() && info[q].lo.Some?
    ensures Beyond(Refiled(pages, t, info), Some(q), k, r) == Walk(pages, t, info, q, k)[r]
  {
    assert PageOk(pages, t, info, q);
    RankInjective(t);
    if info[q].lo != Some(k) {
      WalkBelow(pages, t, info, q, k);
    }
  }

  lemma RefiledAgrees(pages: seq<Node>, t: KeyType, info: map<PageId, Info>)
    requires Linked(pages, t, info)
    ensures Agrees(info, Refiled(pages, t, info))
  {
  }

  ghost function Refile(pages: seq<Node>, t: KeyType, f: Flat): Flat
    requires Linked(pages, t, f.info)
  {
    f.(info := Refiled(pages, t, f.info))
  }

  lemma RefileOk(pages: seq<Node>, t: KeyType, f: Flat)
    requires LeavesOk(pages, t, f)
    ensures LeavesOk(pages, t, Refile(pages, t, f)) && AllFiled(pages, Refile(pages, t, f).info)
    ensures Agrees(f.info, Refile(pages, t, f).info)
  {
    hide LeavesOk, Refiled, AllFiled, Linked;
    LeavesLinked(pages, t, f);
    RefiledAgrees(pages, t, f.info);
    RefiledFiled(pages, t, f.info);
    AgreesLeavesOk(pages, t, f, Refile(pages, t, f));
  }

  lemma LeavesLinked(pages: seq<Node>, t: KeyType, f: Flat)
    requires LeavesOk(pages, t, f)
    ensures Linked(pages, t, f.info)
  {
  }

  // ---------- what the tree answers ----------

  /** The rows that a search for `k` returns. */
  ghost function Found(pages: seq<Node>, t: KeyType, f: Flat, k: Key): multiset<RowId>
    requires LeavesOk(pages, t, f)
  {
    Walk(pages, t, f.info, f.leaves[RouteIndex(f.seps, k)], k)
  }

  lemma RangeIsRoute(f: Flat, t: KeyType, i: int, k: Key)
    requires SepsSorted(f.seps, t) && 0 <= i <= |f.seps| && InRange(f.seps, i, k)
    ensures RouteIndex(f.seps, k) == i
  {
    assert forall j :: 0 <= j < i ==> Rank(f.seps[j]) <= Rank(f.seps[i - 1]);
    RouteIndexUnique(f.seps, k, i);
  }

  lemma FoundIsHere(pages: seq<Node>, t: KeyType, f: Flat, i: int, k: Key, r: RowId)
    requires LeavesOk(pages, t, f) && AllFiled(pages, f.info) && k.Type() == t
    requires 0 <= i < |f.leaves| && InRange(f.seps, i, k)
    ensures f.leaves[i] < |pages| && pages[f.leaves[i]].Leaf?
    ensures Found(pages, t, f, k)[r] == Here(f.info, pages[f.leaves[i]], k, r)
  {
    assert LiveOk(pages, f, i);
    RangeIsRoute(f, t, i, k);
    WalkIsHere(pages, t, f.info, f.leaves[i], k, r);
  }

  /** Searches return exactly the rows of `c`. */
  ghost predicate Exact(pages: seq<Node>, t: KeyType, f: Flat, c: multiset<Entry>)
    requires LeavesOk(pages, t, f)
  {
    && (forall e :: e in c ==> e.key.Type() == t)
    && (forall k: Key, r: RowId :: k.Type() == t ==> Found(pages, t, f, k)[r] == c[Entry(k, r)])
  }

  lemma AnswersFound(pages: seq<Node>, t: KeyType, f: Flat, c: multiset<Entry>, k: Key, r: RowId)
    requires LeavesOk(pages, t, f) && AllFiled(pages, f.info) && Represents(pages, t, f, c) && k.Type() == t
    ensures Found(pages, t, f, k)[r] == c[Entry(k, r)]
  {
    hide LeavesOk, AllFiled, Found, Here;
    var i := RouteIndex(f.seps, k);
    assert IsRoute(f.seps, k, i) && InRange(f.seps, i, k);
    LeafCount(pages, t, f);
    FoundIsHere(pages, t, f, i, k, r);
    assert Answers(pages, t, f, c, i);
  }

  lemma LeafCount(pages: seq<Node>, t: KeyType, f: Flat)
    requires LeavesOk(pages, t, f)
    ensures |f.leaves| == |f.seps| + 1
    ensures forall i :: 0 <= i < |f.leaves| ==> f.leaves[i] < |pages| && pages[f.leaves[i]].Leaf?
  {
    forall i | 0 <= i < |f.leaves| ensures f.leaves[i] < |pages| && pages[f.leaves[i]].Leaf? {
      assert LiveOk(pages, f, i);
    }
  }

  lemma FoundAnswers(pages: seq<Node>, t: KeyType, f: Flat, c: multiset<Entry>, i: int)
    requires LeavesOk(pages, t, f) && AllFiled(pages, f.info) && Exact(pages, t, f, c) && 0 <= i < |f.leaves|
    ensures |f.leaves| == |f.seps| + 1 && f.leaves[i] < |pages| && pages[f.leaves[i]].Leaf?
    ensures Answers(pages, t, f, c, i)
  {
    hide LeavesOk, AllFiled, Found, Here;
    LeafCount(pages, t, f);
    forall k: Key, r: RowId | k.Type() == t && InRange(f.seps, i, k)
      ensures c[Entry(k, r)] == Here(f.info, pages[f.leaves[i]], k, r)
    {
      FoundIsHere(pages, t, f, i, k, r);
    }
  }

  lemma AnsweredRepresents(pages: seq<Node>, t: KeyType, f: Flat, c: multiset<Entry>)
    requires LeavesOk(pages, t, f) && AllFiled(pages, f.info) && forall e :: e in c ==> e.key.Type() == t
    requires |f.leaves| == |f.seps| + 1
    requires forall i :: 0 <= i < |f.leaves| ==>
               f.leaves[i] < |pages| && pages[f.leaves[i]].Leaf? && Answers(pages, t, f, c, i)
    ensures Represents(pages, t, f, c)
  {
    hide Answers, Filed;
  }

  lemma ContentsType(pages: seq<Node>, t: KeyType, f: Flat, c: multiset<Entry>)
    requires LeavesOk(pages, t, f) && Represents(pages, t, f, c)
    ensures forall e :: e in c ==> e.key.Type() == t
  {
    hide LeavesOk;
  }

  /** The invariant says no more and no less about the answers. */
  lemma RepresentsIsExact(pages: seq<Node>, t: KeyType, f: Flat, c: multiset<Entry>)
    requires LeavesOk(pages, t, f) && AllFiled(pages, f.info)
    ensures Represents(pages, t, f, c) <==> Exact(pages, t, f, c)
  {
    hide LeavesOk, AllFiled, Represents, Answers, Found;
    LeafCount(pages, t, f);
    if Represents(pages, t, f, c) {
      ContentsType(pages, t, f, c);
      forall k: Key, r: RowId | k.Type() == t ensures Found(pages, t, f, k)[r] == c[Entry(k, r)] {
        AnswersFound(pages, t, f, c, k, r);
      }
    }
    if Exact(pages, t, f, c) {
      forall i | 0 <= i < |f.leaves| ensures Answers(pages, t, f, c, i) {
        FoundAnswers(pages, t, f, c, i);
      }
      AnsweredRepresents(pages, t, f, c);
    }
  }

  /** Exactness is about the pages, not about the constants. */
  lemma RefiledExact(pages: seq<Node>, t: KeyType, f: Flat, f': Flat, c: multiset<Entry>)
    requires LeavesOk(pages, t, f) && LeavesOk(pages, t, f') && f'.leaves == f.leaves && f'.seps == f.seps
    ensures Exact(pages, t, f', c) <==> Exact(pages, t, f, c)
  {
    forall k ensures Found(pages, t, f', k) == Found(pages, t, f, k) {
      var i := RouteIndex(f.seps, k);
      assert LiveOk(pages, f, i) && LiveOk(pages, f', i);
      RefiledWalk(pages, t, f.info, f'.info, f.leaves[i], k);
    }
  }
}
