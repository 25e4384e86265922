/** What the operations of the index tree do, as relations between its states
    before and after. */
module BTreeStates {
  import opened Wrappers
  import opened Keys
  import opened BTreeModel
  import opened BTreeNodes
  import opened BTreeShape
  import opened BTreeDistinct
  import opened BTreeWalk
  import opened BTreeExact
  import opened BTreeSteps

  datatype State = State(root: PageId, keyType: KeyType, pages: seq<Node>, flat: Flat, shape: Shape,
                         contents: multiset<Entry>)

  /** The structural invariant: it holds after every run of operations. */
  ghost predicate SoundState(s: State) {
    && s.root < |s.pages|
    && LeavesOk(s.pages, s.keyType, s.flat)
    && ShapeOk(s.pages, s.root, s.shape, s.flat)
    && AllFiled(s.pages, s.flat.info)
    && AllFit(s.pages)
  }

  /** ... and the leaves answer for exactly the contents. */
  ghost predicate ExactState(s: State) {
    SoundState(s) && Represents(s.pages, s.keyType, s.flat, s.contents)
  }

  /** ... and no key is on both sides of a split. */
  ghost predicate Unstraddled(s: State) {
    ExactState(s) && NoStraddle(s.flat.info)
  }

  /** The state of a new tree. */
  ghost function NewState(t: KeyType): State {
    State(0, t, [Leaf([], None)], Flat([0], [], map[0 := Info(None, multiset{}, 0.0)]), OneLeaf, multiset{})
  }

  /** The leaf that a key leads to. */
  ghost function LeafOf(s: State, k: Key): (n: Node)
    requires SoundState(s)
    ensures n.Leaf?
  {
    OneMoreLeaf(s.pages, s.keyType, s.flat);
    s.pages[s.flat.leaves[RouteIndex(s.flat.seps, k)]]
  }

  // ---------- insertion ----------

  /** What an insertion does to the tree, whatever page it ends on: on an error
      no page in use changes. A tree that was exact stays so, and one that was
      not does not become so by an insertion. */
  ghost predicate Inserts(s: State, e: Entry, r: Result<(), TreeError>, s': State) {
    && s'.root == s.root && s'.keyType == s.keyType && SoundState(s')
    && (r.Err? ==> s.pages <= s'.pages && s'.flat == s.flat && s'.shape == s.shape && s'.contents == s.contents)
    && (r.Ok? ==> s'.contents == s.contents + multiset{e})
    && (ExactState(s) ==> ExactState(s'))
    && (r.Ok? && ExactState(s') ==> ExactState(s))
    && (r.Ok? && Unstraddled(s) && Distinct(s'.contents) ==> Unstraddled(s'))
  }

  /** A leaf with room takes an entry. A full one is split, if both halves fit a
      page and, unless it is the root, the root page can take two children for
      one. The condition reads the leaf and the root page only. */
  ghost predicate Accepts(s: State, e: Entry)
    requires SoundState(s)
  {
    OneMoreLeaf(s.pages, s.keyType, s.flat);
    var p, n := s.flat.leaves[RouteIndex(s.flat.seps, e.key)], LeafOf(s, e.key);
    match AppendLeaf(n, e)
    case Ok(_) => true
    case Err(PageFull) =>
      if p == s.root then Splits(n.entries, e) else SplitEnters(s.pages[s.root], p, n.entries, e)
    case Err(_) => false
  }

  /** Whether the entry is taken, and where it goes. In a tree of three levels a
      full leaf refuses it. */
  ghost predicate Placed(s: State, e: Entry, r: Result<(), TreeError>, s': State)
    requires SoundState(s)
  {
    OneMoreLeaf(s.pages, s.keyType, s.flat);
    var p := s.flat.leaves[RouteIndex(s.flat.seps, e.key)];
    var room := AppendLeaf(LeafOf(s, e.key), e);
    && (r.Ok? <==> Accepts(s, e))
    && (room.Ok? ==>
          && s'.pages == s.pages[p := room.value] && s'.shape == s.shape
          && s'.flat.leaves == s.flat.leaves && s'.flat.seps == s.flat.seps)
    && (s.shape.ThreeLevel? ==> (r.Ok? <==> room.Ok?))
    && (s.shape.OneLeaf? && room == Err(PageFull) && r.Ok? ==>
          s'.shape.TwoLevel? && p == s.root && RootHalved(s.pages, s'.pages, s.root, e, s'.flat))
  }

  /** Distinct fixed-width keys in a tree of at most two levels: an insertion
      cannot be refused. */
  ghost predicate Roomy(s: State, e: Entry) {
    FixedWidth(s.keyType) && !s.shape.ThreeLevel? && Unstraddled(s) && Distinct(s.contents + multiset{e})
  }

  // ---------- deletion ----------

  /** Removing this entry, if it is stored, removes exactly it. The condition
      reads the pages only: the leaf, its link and what a walk from there
      finds, its parent, and the neighbour it would be merged with. */
  ghost predicate CleanDelete(s: State, e: Entry)
    requires SoundState(s)
  {
    e in s.contents ==> Clean(s.pages, s.root, s.keyType, s.shape, s.flat, e)
  }

  /** Removing this entry is reported as an error, for the merge that follows
      would overflow a page; the entry is removed all the same. */
  ghost predicate RefusedDelete(s: State, e: Entry)
    requires SoundState(s)
  {
    Overflows(s.pages, s.root, s.keyType, s.shape, s.flat, e)
  }

  /** What a deletion does to a tree: it looks for the entry in the leaf of its
      key only, rewrites that leaf and perhaps merges it. In a valid tree it
      takes exactly the entry out if and only if the condition above held, on
      success and when the merge that follows is refused because the page
      would overflow. Without straddles the condition always holds. */
  ghost predicate Deletes(s: State, e: Entry, r: Result<bool, TreeError>, s': State)
    requires SoundState(s)
  {
    && s'.root == s.root && s'.keyType == s.keyType && SoundState(s')
    && r in {Ok(true), Ok(false), Err(PageFull)} && (s'.shape.ThreeLevel? <==> s.shape.ThreeLevel?)
    && (r == Ok(false) <==> e !in LeafOf(s, e.key).entries)
    && (r == Err(PageFull) <==> RefusedDelete(s, e))
    && (r == Ok(false) ==> s' == s)
    && (ExactState(s) && r != Ok(false) ==> e in s.contents)
    && (r != Ok(false) ==>
          && s'.contents == s.contents - multiset{e}
          && exists pages1, i, x, es ::
               Deleted(s.pages, pages1, s'.pages, s.root, s.keyType, s.shape, s.flat, s'.flat, i, x, e, es))
    && (ExactState(s) ==> (ExactState(s') && s'.contents == s.contents - multiset{e} <==> CleanDelete(s, e)))
    && (Unstraddled(s) ==>
          Unstraddled(s') && s'.contents == s.contents - multiset{e} && (r == Ok(false) <==> e !in s.contents))
  }
}
