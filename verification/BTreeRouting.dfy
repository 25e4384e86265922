/** Which child a key is routed to, before and after an internal page is
    rewritten. Stated for every key of every page, apart from any tree. */
module BTreeRouting {
  import opened Keys
  import opened BTreeModel
  import opened BTreeNodes

  ghost predicate Sorted(seps: seq<Key>) {
    forall i, j :: 0 <= i < j < |seps| ==> Rank(seps[i]) <= Rank(seps[j])
  }

  lemma ReplaceIndex(seps: seq<Key>, i: nat, sep: Key, k: Key, x: nat)
    requires i <= |seps| && Sorted(seps) && IsRoute(seps, k, x)
    requires i < |seps| ==> Rank(sep) <= Rank(seps[i])
    ensures IsRoute(seps[..i] + [sep] + seps[i..], k, if x < i || (x == i && Rank(k) <= Rank(sep)) then x else x + 1)
  {
    var seps' := seps[..i] + [sep] + seps[i..];
    assert forall j :: 0 <= j < |seps'| ==> seps'[j] == if j < i then seps[j] else if j == i then sep else seps[j - 1];
  }

  /** Replacing a child by the two halves of its split moves only the keys that
      were routed to it: left exactly when not above the separator. */
  lemma ReplaceRoutes(n: Node, n': Node, i: nat, left: PageId, right: PageId, sep: Key, k: Key)
    requires n.Internal? && n'.Internal? && i <= |n.children| && Sorted(Seps(n.children))
    requires Kids(n') == Kids(n)[..i] + [left, right] + Kids(n)[i + 1..]
    requires Seps(n'.children) == Seps(n.children)[..i] + [sep] + Seps(n.children)[i..]
    requires i < |n.children| ==> Rank(sep) <= Rank(n.children[i].sep)
    ensures Route(n', k) == if RouteIndex(Seps(n.children), k) != i then Route(n, k)
                            else if Rank(k) <= Rank(sep) then left else right
  {
    var x := RouteIndex(Seps(n.children), k);
    ReplaceIndex(Seps(n.children), i, sep, k, x);
    RouteIndexUnique(Seps(n'.children), k, if x < i || (x == i && Rank(k) <= Rank(sep)) then x else x + 1);
  }

  lemma SplitIndices(seps: seq<Key>, h: nat, k: Key, x: nat)
    requires h < |seps| && Sorted(seps) && IsRoute(seps, k, x)
    ensures Rank(k) <= Rank(seps[h]) ==> IsRoute(seps[..h], k, x)
    ensures Rank(seps[h]) < Rank(k) ==> h < x && IsRoute(seps[h + 1..], k, x - h - 1)
  {
    assert x < h ==> Rank(seps[x]) <= Rank(seps[h]);
  }

  /** The two halves of an internal page under a new parent route every key as
      the page did. */
  lemma SplitRoutes(n: Node, l: Node, r: Node, sep: Key, k: Key)
    requires Halved(n, l, r, sep) && Sorted(Seps(n.children))
    ensures Route(if Rank(k) <= Rank(sep) then l else r, k) == Route(n, k)
  {
    var x := RouteIndex(Seps(n.children), k);
    var h := |n.children| / 2;
    SplitIndices(Seps(n.children), h, k, x);
    if Rank(k) <= Rank(sep) {
      RouteIndexUnique(Seps(l.children), k, x);
    } else {
      RouteIndexUnique(Seps(r.children), k, x - h - 1);
    }
  }

  lemma RemoveIndex(seps: seq<Key>, i: nat, k: Key, x: nat)
    requires i < |seps| && Sorted(seps) && IsRoute(seps, k, x)
    ensures IsRoute(seps[..i] + seps[i + 1..], k, if x <= i then x else x - 1)
  {
    var seps' := seps[..i] + seps[i + 1..];
    assert forall j :: 0 <= j < |seps'| ==> seps'[j] == if j < i then seps[j] else seps[j + 1];
  }

  /** Removing a merged right child sends exactly its keys to the left one. */
  lemma RemoveRoutes(n: Node, n': Node, i: nat, k: Key)
    requires n.Internal? && n'.Internal? && i < |n.children| && Sorted(Seps(n.children))
    requires Kids(n') == Kids(n)[..i + 1] + Kids(n)[i + 2..]
    requires Seps(n'.children) == Seps(n.children)[..i] + Seps(n.children)[i + 1..]
    ensures Route(n', k) == if RouteIndex(Seps(n.children), k) == i + 1 then Kids(n)[i] else Route(n, k)
  {
    var x := RouteIndex(Seps(n.children), k);
    RemoveIndex(Seps(n.children), i, k, x);
    RouteIndexUnique(Seps(n'.children), k, if x <= i then x else x - 1);
  }
}
