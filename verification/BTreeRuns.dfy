/** Whole runs of the index, from an empty tree. */
module BTreeRuns {
  import opened Wrappers
  import opened Keys
  import opened BTreeModel
  import opened BTreeNodes
  import opened BTreeDistinct
  import opened BTreeStates
  import opened BTree

  datatype Op = Insert(e: Entry) | Delete(e: Entry)

  /** The contents after the operations that took effect. */
  ghost function Replay(ops: seq<Op>, applied: seq<bool>): multiset<Entry>
    requires |ops| == |applied|
  {
    if ops == [] then multiset{}
    else
      var n := |ops| - 1;
      var before := Replay(ops[..n], applied[..n]);
      if !applied[n] then before
      else if ops[n].Insert? then before + multiset{ops[n].e}
      else before - multiset{ops[n].e}
  }

  /** At every moment of the run the stored keys are pairwise distinct. */
  ghost predicate AlwaysDistinct(ops: seq<Op>, applied: seq<bool>)
    requires |ops| == |applied|
  {
    && Distinct(Replay(ops, applied))
    && (ops != [] ==> AlwaysDistinct(ops[..|ops| - 1], applied[..|ops| - 1]))
  }

  ghost predicate OnlyInserts(ops: seq<Op>) {
    forall op :: op in ops ==> op.Insert?
  }

  /** Every deletion took effect exactly when its entry was stored. */
  ghost predicate DeletesExact(ops: seq<Op>, applied: seq<bool>, t: KeyType)
    requires |ops| == |applied|
  {
    ops != [] ==>
      var n := |ops| - 1;
      && DeletesExact(ops[..n], applied[..n], t)
      && (ops[n].Delete? ==> (applied[n] <==> ops[n].e.key.Type() == t && ops[n].e in Replay(ops[..n], applied[..n])))
  }

  /** No insertion is of a key that is stored at that moment. */
  ghost predicate FreshKeys(ops: seq<Op>, applied: seq<bool>)
    requires |ops| == |applied|
  {
    ops != [] ==>
      var n := |ops| - 1;
      && FreshKeys(ops[..n], applied[..n])
      && (ops[n].Insert? ==> Distinct(Replay(ops[..n], applied[..n]) + multiset{ops[n].e}))
  }

  /** Every insertion of a key of the right type took effect. */
  ghost predicate InsertsTaken(ops: seq<Op>, applied: seq<bool>, t: KeyType)
    requires |ops| == |applied|
  {
    forall n :: 0 <= n < |ops| && ops[n].Insert? && ops[n].e.key.Type() == t ==> applied[n]
  }

  lemma {:induction false} FreshIsDistinct(ops: seq<Op>, applied: seq<bool>)
    requires |ops| == |applied| && FreshKeys(ops, applied)
    ensures AlwaysDistinct(ops, applied)
  {
    if ops == [] {
      assert Replay(ops, applied) == multiset{};
    } else {
      var n := |ops| - 1;
      FreshIsDistinct(ops[..n], applied[..n]);
      assert forall x :: x in Replay(ops[..n], applied[..n]) - multiset{ops[n].e} ==>
               x in Replay(ops[..n], applied[..n]);
    }
  }

  lemma LastStep(ops: seq<Op>, applied: seq<bool>, op: Op, done: bool, t: KeyType)
    requires |ops| == |applied|
    ensures var before := Replay(ops, applied);
            Replay(ops + [op], applied + [done]) ==
            (if !done then before else if op.Insert? then before + multiset{op.e} else before - multiset{op.e})
    ensures AlwaysDistinct(ops + [op], applied + [done]) ==>
              AlwaysDistinct(ops, applied) && Distinct(Replay(ops + [op], applied + [done]))
    ensures DeletesExact(ops + [op], applied + [done], t) <==>
              && DeletesExact(ops, applied, t)
              && (op.Delete? ==> (done <==> op.e.key.Type() == t && op.e in Replay(ops, applied)))
    ensures FreshKeys(ops + [op], applied + [done]) ==>
              && FreshKeys(ops, applied)
              && (op.Insert? ==> Distinct(Replay(ops, applied) + multiset{op.e}))
  {
    assert (ops + [op])[..|ops|] == ops && (applied + [done])[..|ops|] == applied;
  }

  /** What is known of a tree: whether it is exact, whether it has no straddle,
      whether it has three levels, and its contents. */
  datatype Known = Known(exact: bool, apart: bool, deep: bool, contents: multiset<Entry>)

  ghost function KnownOf(tree: Tree): Known
    reads tree
  {
    Known(tree.Valid(), NoStraddle(tree.flat.info), tree.shape.ThreeLevel?, tree.contents)
  }

  /** What follows for it from a run. */
  ghost predicate Follows(s: Known, t: KeyType, ops: seq<Op>, applied: seq<bool>) {
    && |ops| == |applied|
    && (OnlyInserts(ops) ==> s.exact && s.contents == Replay(ops, applied))
    && (AlwaysDistinct(ops, applied) ==>
          s.exact && s.apart && s.contents == Replay(ops, applied) && DeletesExact(ops, applied, t))
    && (FixedWidth(t) && FreshKeys(ops, applied) && !s.deep ==> InsertsTaken(ops, applied, t))
  }

  /** An insertion that cannot be refused. */
  ghost predicate Welcome(s: Known, t: KeyType, op: Op) {
    && op.Insert? && op.e.key.Type() == t && FixedWidth(t)
    && s.exact && s.apart && !s.deep && Distinct(s.contents + multiset{op.e})
  }

  /** How one operation changes it. */
  ghost predicate Steps(s: Known, t: KeyType, op: Op, done: bool, s': Known) {
    && (op.Insert? ==>
          (s.exact ==> s'.exact) && s'.contents == s.contents + if done then multiset{op.e} else multiset{})
    && (s.exact && s.apart && (op.Insert? ==> Distinct(s'.contents)) ==> s'.exact && s'.apart)
    && (op.Delete? && s.exact && s.apart ==>
          && (done <==> op.e.key.Type() == t && op.e in s.contents)
          && s'.contents == s.contents - if done then multiset{op.e} else multiset{})
    && (s.deep ==> s'.deep)
    && (Welcome(s, t, op) ==> done)
  }

  lemma InsertsMore(ops: seq<Op>, op: Op)
    ensures OnlyInserts(ops + [op]) ==> OnlyInserts(ops) && op.Insert?
  {
    if OnlyInserts(ops + [op]) {
      assert op in ops + [op] && forall x :: x in ops ==> x in ops + [op];
    }
  }

  lemma TakenMore(ops: seq<Op>, applied: seq<bool>, op: Op, done: bool, t: KeyType)
    requires |ops| == |applied|
    ensures InsertsTaken(ops + [op], applied + [done], t) <==>
              InsertsTaken(ops, applied, t) && (op.Insert? && op.e.key.Type() == t ==> done)
  {
    var ops', applied' := ops + [op], applied + [done];
    if InsertsTaken(ops', applied', t) {
      assert ops'[|ops|] == op;
      forall n | 0 <= n < |ops| && ops[n].Insert? && ops[n].e.key.Type() == t ensures applied[n] {
        assert ops'[n] == ops[n] && applied'[n] == applied[n];
      }
    }
  }

  lemma FollowsStep(s: Known, t: KeyType, ops: seq<Op>, applied: seq<bool>, op: Op, done: bool, s': Known)
    requires Follows(s, t, ops, applied) && Steps(s, t, op, done, s')
    ensures Follows(s', t, ops + [op], applied + [done])
  {
    hide Distinct, FixedWidth, FreshKeys, DeletesExact, AlwaysDistinct, Replay, OnlyInserts, InsertsTaken;
    assert s.contents + multiset{} == s.contents && s.contents - multiset{} == s.contents;
    LastStep(ops, applied, op, done, t);
    InsertsMore(ops, op);
    if FreshKeys(ops + [op], applied + [done]) {
      FreshIsDistinct(ops, applied);
    }
    TakenMore(ops, applied, op, done, t);
  }

  /** The reply to an insertion, without the value that it lacks. */
  function Plain(reply: Result<bool, TreeError>): Result<(), TreeError> {
    match reply
    case Ok(_) => Ok(())
    case Err(e) => Err(e)
  }

  /** One operation and the reply to it. It takes effect when it succeeds, and
      also when the merge after a deletion is refused. */
  method Apply(tree: Tree, op: Op) returns (done: bool, reply: Result<bool, TreeError>)
    requires tree.Sound()
    modifies tree
    ensures tree.Sound() && Steps(old(KnownOf(tree)), tree.keyType, op, done, KnownOf(tree))
    ensures op.Insert? ==> Inserts(old(tree.State()), op.e, Plain(reply), tree.State()) && (done <==> reply.Ok?)
    ensures op.Delete? && op.e.key.Type() == tree.keyType ==>
              Deletes(old(tree.State()), op.e, reply, tree.State()) && (done <==> reply != Ok(false))
  {
    match op {
      case Insert(e) =>
        var r := tree.Insert(e.key, e.row);
        done, reply := r.Ok?, if r.Ok? then Ok(true) else Err(r.error);
      case Delete(e) =>
        reply := tree.Delete(e.key, e.row);
        done := reply == Ok(true) || reply == Err(PageFull);
    }
  }

  ghost predicate Tracks(tree: Tree, ops: seq<Op>, applied: seq<bool>)
    reads tree
  {
    Follows(KnownOf(tree), tree.keyType, ops, applied)
  }

  method Start(t: KeyType) returns (tree: Tree)
    ensures fresh(tree) && tree.keyType == t && tree.Sound() && Tracks(tree, [], [])
  {
    tree := new Tree.Create(t);
  }

  method Step(tree: Tree, op: Op, ghost ops: seq<Op>, ghost applied: seq<bool>) returns (done: bool)
    requires tree.Sound() && Tracks(tree, ops, applied)
    modifies tree
    ensures tree.Sound() && Tracks(tree, ops + [op], applied + [done])
  {
    ghost var known := KnownOf(tree);
    var reply;
    done, reply := Apply(tree, op);
    FollowsStep(known, tree.keyType, ops, applied, op, done, KnownOf(tree));
  }

  lemma Regroup<T>(a: seq<T>, b: seq<T>, c: seq<T>)
    ensures a + b + c == a + (b + c) && [] + c == c && a + [] == a
  {
  }

  method Continue(tree: Tree, ops: seq<Op>, ghost past: seq<Op>, ghost before: seq<bool>) returns (applied: seq<bool>)
    requires tree.Sound() && Tracks(tree, past, before)
    modifies tree
    ensures |applied| == |ops| && tree.Sound() && Tracks(tree, past + ops, before + applied)
    decreases |ops|
  {
    if ops == [] {
      Regroup(past, [], ops);
      Regroup(before, [], []);
      return [];
    }
    var done := Step(tree, ops[0], past, before);
    var rest := Continue(tree, ops[1..], past + [ops[0]], before + [done]);
    applied := [done] + rest;
    Regroup(past, [ops[0]], ops[1..]);
    Regroup(before, [done], rest);
    Regroup([], [ops[0]], ops[1..]);
    HeadTail(ops);
  }

  lemma HeadTail<T>(s: seq<T>)
    requires s != []
    ensures s == [s[0]] + s[1..]
  {
  }

  /** The tree is exact after every run of insertions, duplicates included, and
      after every run of insertions and deletions whose stored keys are distinct
      at every moment; it is sound after every run. With fixed-width keys, none
      of them stored when it is inserted, every insertion takes effect as long
      as the tree has at most two levels. */
  method Run(t: KeyType, ops: seq<Op>) returns (tree: Tree, applied: seq<bool>)
    ensures fresh(tree) && tree.Sound() && tree.keyType == t && |applied| == |ops|
    ensures OnlyInserts(ops) || AlwaysDistinct(ops, applied) ==> tree.Valid() && tree.contents == Replay(ops, applied)
    ensures AlwaysDistinct(ops, applied) ==> DeletesExact(ops, applied, t)
    ensures FixedWidth(t) && FreshKeys(ops, applied) && !tree.shape.ThreeLevel? ==> InsertsTaken(ops, applied, t)
  {
    tree := Start(t);
    applied := Continue(tree, ops, [], []);
    Regroup<Op>([], [], ops);
    Regroup<bool>([], [], applied);
  }

  /** After such a run a search returns exactly the rows stored under the key. */
  method RunAndSearch(t: KeyType, ops: seq<Op>, target: Key) returns (applied: seq<bool>, rows: seq<RowId>)
    requires target.Type() == t
    ensures |applied| == |ops|
    ensures OnlyInserts(ops) || AlwaysDistinct(ops, applied) ==>
              forall r :: multiset(rows)[r] == Replay(ops, applied)[Entry(target, r)]
  {
    var tree;
    tree, applied := Run(t, ops);
    var found := tree.Search(target);
    rows := found.value;
  }
}
