/** What the leaves of a tree stand for: one multiset of entries and no other,
    whether or not it is what was stored in the tree. */
module BTreeAnswers {
  import opened Keys
  import opened BTreeModel
  import opened BTreeNodes
  import opened BTreeWalk

  /** The entries on the linked pages. */
  ghost function AllEntries(pages: seq<Node>, info: map<PageId, Info>): set<Entry> {
    set p, e | p in info && p < |pages| && pages[p].Leaf? && e in pages[p].entries :: e
  }

  /** A walk finds only what is on the pages. */
  lemma {:induction false} WalkWithin(pages: seq<Node>, t: KeyType, info: map<PageId, Info>, p: PageId, k: Key,
                                      r: RowId)
    requires Linked(pages, t, info) && p in info
    ensures Walk(pages, t, info, p, k)[r] > 0 ==> Entry(k, r) in AllEntries(pages, info)
    decreases Ahead(info, p)
  {
    assert PageOk(pages, t, info, p);
    RowsAtCounts(pages[p].entries, k, r);
    if Entry(k, r) in pages[p].entries {
    } else if GoesOn(pages[p], k) {
      var q := pages[p].next.value;
      assert q in Ahead(info, p) && q !in Ahead(info, q);
      WalkWithin(pages, t, info, q, k, r);
    }
  }

  /** Each of the given entries as often as a search for its key finds its row. */
  ghost function FoundAmong(pages: seq<Node>, t: KeyType, f: Flat, es: set<Entry>): (c: multiset<Entry>)
    requires LeavesOk(pages, t, f)
    ensures forall e :: c[e] == if e in es then Found(pages, t, f, e.key)[e.row] else 0
    decreases |es|
  {
    if es == {} then multiset{}
    else
      var e :| e in es;
      FoundAmong(pages, t, f, es - {e})[e := Found(pages, t, f, e.key)[e.row]]
  }

  lemma EntriesTyped(pages: seq<Node>, t: KeyType, info: map<PageId, Info>)
    requires Linked(pages, t, info)
    ensures forall e :: e in AllEntries(pages, info) ==> e.key.Type() == t
  {
    forall p | p in info ensures PageOk(pages, t, info, p) {
    }
  }

  /** Every sound tree stands for some entries ... */
  lemma SomeContents(pages: seq<Node>, t: KeyType, f: Flat) returns (c: multiset<Entry>)
    requires LeavesOk(pages, t, f) && AllFiled(pages, f.info)
    ensures Represents(pages, t, f, c)
  {
    hide LeavesOk, AllFiled, Found, Represents;
    LeavesLinked(pages, t, f);
    EntriesTyped(pages, t, f.info);
    c := FoundAmong(pages, t, f, AllEntries(pages, f.info));
    forall k: Key, r: RowId | k.Type() == t ensures Found(pages, t, f, k)[r] == c[Entry(k, r)] {
      FoundWithin(pages, t, f, k, r);
    }
    RepresentsIsExact(pages, t, f, c);
  }

  lemma LeavesLinked(pages: seq<Node>, t: KeyType, f: Flat)
    requires LeavesOk(pages, t, f)
    ensures Linked(pages, t, f.info)
  {
  }

  lemma FoundWithin(pages: seq<Node>, t: KeyType, f: Flat, k: Key, r: RowId)
    requires LeavesOk(pages, t, f)
    ensures Found(pages, t, f, k)[r] > 0 ==> Entry(k, r) in AllEntries(pages, f.info)
  {
    var i := RouteIndex(f.seps, k);
    assert LiveOk(pages, f, i);
    WalkWithin(pages, t, f.info, f.leaves[i], k, r);
  }

  /** ... and for no others. */
  lemma OneContents(pages: seq<Node>, t: KeyType, f: Flat, c: multiset<Entry>, c': multiset<Entry>)
    requires LeavesOk(pages, t, f) && AllFiled(pages, f.info)
    requires Represents(pages, t, f, c) && Represents(pages, t, f, c')
    ensures c' == c
  {
    hide LeavesOk, AllFiled, Found, Represents;
    RepresentsIsExact(pages, t, f, c);
    RepresentsIsExact(pages, t, f, c');
    forall e ensures c[e] == c'[e] {
      assert e == Entry(e.key, e.row);
      if e.key.Type() == t {
        assert Found(pages, t, f, e.key)[e.row] == c[Entry(e.key, e.row)];
      } else {
        assert e !in c && e !in c';
      }
    }
  }

  /** If what the leaves stand for has gained an entry, then they answer for the
      stored entries with the new one exactly if they answered for those before. */
  lemma InsertedIff(pages: seq<Node>, pages': seq<Node>, t: KeyType, f: Flat, f': Flat, c0: multiset<Entry>,
                    c: multiset<Entry>, e: Entry)
    requires LeavesOk(pages, t, f) && AllFiled(pages, f.info) && Represents(pages, t, f, c0)
    requires LeavesOk(pages', t, f') && AllFiled(pages', f'.info) && Represents(pages', t, f', c0 + multiset{e})
    ensures Represents(pages', t, f', c + multiset{e}) <==> Represents(pages, t, f, c)
  {
    hide LeavesOk, AllFiled, Represents;
    if Represents(pages', t, f', c + multiset{e}) {
      OneContents(pages', t, f', c + multiset{e}, c0 + multiset{e});
      assert c == (c + multiset{e}) - multiset{e} == (c0 + multiset{e}) - multiset{e} == c0;
    }
    if Represents(pages, t, f, c) {
      OneContents(pages, t, f, c, c0);
    }
  }
}
