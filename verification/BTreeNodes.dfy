/** Work on single index pages: routing in an internal page, filling, splitting
    and merging pages under the byte limit of a page. */
module BTreeNodes {
  import opened Wrappers
  import opened Keys
  import opened BTreeModel

  datatype TreeError = InvalidKeyType | InvalidPage | PageFull

  const PAGE_SIZE: nat := 8192
  const LEAF_HEADER: nat := 14
  const INTERNAL_HEADER: nat := 13
  const MAX_KEY: nat := 65535

  // ---------- sizes ----------

  function LeafBytes(es: seq<Entry>): (n: nat)
    ensures n >= LEAF_HEADER + 12 * |es|
  {
    if es == [] then LEAF_HEADER else LeafBytes(es[..|es| - 1]) + 12 + es[|es| - 1].key.Size()
  }

  function InternalBytes(cs: seq<Child>): (n: nat)
    ensures n >= INTERNAL_HEADER + 10 * |cs|
  {
    if cs == [] then INTERNAL_HEADER else InternalBytes(cs[..|cs| - 1]) + 10 + cs[|cs| - 1].sep.Size()
  }

  lemma {:induction false} LeafBytesPrefix(es: seq<Entry>, n: nat)
    requires n <= |es|
    ensures LeafBytes(es[..n]) <= LeafBytes(es)
    decreases |es| - n
  {
    if n < |es| {
      assert es[..n + 1][..n] == es[..n];
      LeafBytesPrefix(es, n + 1);
    } else {
      assert es[..n] == es;
    }
  }

  lemma {:induction false} InternalBytesPrefix(cs: seq<Child>, n: nat)
    requires n <= |cs|
    ensures InternalBytes(cs[..n]) <= InternalBytes(cs)
    decreases |cs| - n
  {
    if n < |cs| {
      assert cs[..n + 1][..n] == cs[..n];
      InternalBytesPrefix(cs, n + 1);
    } else {
      assert cs[..n] == cs;
    }
  }

  lemma {:induction false} LeafBytesMember(es: seq<Entry>, i: nat)
    requires i < |es|
    ensures LEAF_HEADER + 12 + es[i].key.Size() <= LeafBytes(es)
  {
    LeafBytesPrefix(es, i + 1);
    assert es[..i + 1][..i] == es[..i];
  }

  ghost predicate Fits(n: Node) {
    match n
    case Leaf(es, _) => LeafBytes(es) <= PAGE_SIZE
    case Internal(cs, _) => InternalBytes(cs) <= PAGE_SIZE
    case Blank => true
  }

  ghost predicate AllFit(pages: seq<Node>) {
    forall p :: 0 <= p < |pages| ==> Fits(pages[p])
  }

  // ---------- appending ----------

  function AppendLeaf(n: Node, e: Entry): Result<Node, TreeError> {
    if !n.Leaf? then Err(InvalidPage)
    else if e.key.Size() > MAX_KEY then Err(InvalidPage)
    else if LeafBytes(n.entries) + 12 + e.key.Size() > PAGE_SIZE then Err(PageFull)
    else Ok(Leaf(n.entries + [e], n.next))
  }

  function AppendInternal(n: Node, c: Child): Result<Node, TreeError> {
    if !n.Internal? then Err(InvalidPage)
    else if c.sep.Size() > MAX_KEY then Err(InvalidPage)
    else if InternalBytes(n.children) + 10 + c.sep.Size() > PAGE_SIZE then Err(PageFull)
    else Ok(Internal(n.children + [c], n.rightmost))
  }

  /** Refilling a leaf succeeds exactly when its entries fit in a page. */
  method FillLeaf(es: seq<Entry>, next: Option<PageId>) returns (r: Result<Node, TreeError>)
    ensures r.Ok? <==> LeafBytes(es) <= PAGE_SIZE
    ensures r.Ok? ==> r.value == Leaf(es, next)
    ensures r.Err? && (forall e :: e in es ==> e.key.Size() <= MAX_KEY) ==> r.error == PageFull
  {
    var page := Leaf([], None);
    for i := 0 to |es|
      invariant page == Leaf(es[..i], None) && LeafBytes(es[..i]) <= PAGE_SIZE
    {
      assert es[..i + 1][..i] == es[..i] && es[..i] + [es[i]] == es[..i + 1];
      assert es[i] in es;
      LeafBytesPrefix(es, i + 1);
      var step := AppendLeaf(page, es[i]);
      if step.Err? {
        return Err(step.error);
      }
      page := step.value;
    }
    assert es[..|es|] == es;
    return Ok(Leaf(page.entries, next));
  }

  method FillInternal(cs: seq<Child>, rightmost: PageId) returns (r: Result<Node, TreeError>)
    ensures r.Ok? <==> InternalBytes(cs) <= PAGE_SIZE
    ensures r.Ok? ==> r.value == Internal(cs, rightmost)
    ensures r.Err? && (forall c :: c in cs ==> c.sep.Size() <= MAX_KEY) ==> r.error == PageFull
  {
    var page := Internal([], rightmost);
    for i := 0 to |cs|
      invariant page == Internal(cs[..i], rightmost) && InternalBytes(cs[..i]) <= PAGE_SIZE
    {
      assert cs[..i + 1][..i] == cs[..i] && cs[..i] + [cs[i]] == cs[..i + 1];
      assert cs[i] in cs;
      InternalBytesPrefix(cs, i + 1);
      var step := AppendInternal(page, cs[i]);
      if step.Err? {
        return Err(step.error);
      }
      page := step.value;
    }
    assert cs[..|cs|] == cs;
    return Ok(page);
  }

  // ---------- routing ----------

  /** The children of an internal page from left to right, and the separators
      between them. */
  ghost function Lefts(cs: seq<Child>): seq<PageId> {
    seq(|cs|, i requires 0 <= i < |cs| => cs[i].left)
  }

  ghost function Seps(cs: seq<Child>): seq<Key> {
    seq(|cs|, i requires 0 <= i < |cs| => cs[i].sep)
  }

  ghost function Kids(n: Node): seq<PageId>
    requires n.Internal?
  {
    Lefts(n.children) + [n.rightmost]
  }

  /** Index `i` is the first whose separator is not below `k`, or the last. */
  ghost predicate IsRoute(seps: seq<Key>, k: Key, i: int) {
    && 0 <= i <= |seps|
    && (forall j :: 0 <= j < i ==> Rank(seps[j]) < Rank(k))
    && (i < |seps| ==> Rank(k) <= Rank(seps[i]))
  }

  lemma {:induction false} RouteExists(seps: seq<Key>, k: Key) returns (i: nat)
    ensures IsRoute(seps, k, i)
  {
    i := 0;
    while i < |seps| && Rank(seps[i]) < Rank(k)
      invariant i <= |seps| && forall j :: 0 <= j < i ==> Rank(seps[j]) < Rank(k)
    {
      i := i + 1;
    }
  }

  ghost function RouteIndex(seps: seq<Key>, k: Key): (i: nat)
    ensures IsRoute(seps, k, i)
  {
    assert exists i: nat :: IsRoute(seps, k, i) by { var i := RouteExists(seps, k); }
    var i: nat :| IsRoute(seps, k, i);
    i
  }

  /** The child a search for `k` follows. */
  ghost function Route(n: Node, k: Key): PageId
    requires n.Internal?
  {
    Kids(n)[RouteIndex(Seps(n.children), k)]
  }

  lemma RouteIndexUnique(seps: seq<Key>, k: Key, i: nat)
    requires IsRoute(seps, k, i)
    ensures RouteIndex(seps, k) == i
  {
    assert IsRoute(seps, k, RouteIndex(seps, k));
  }

  method FindInternalChild(n: Node, target: Key) returns (r: Result<PageId, TreeError>)
    ensures !n.Internal? ==> r == Err(InvalidPage)
    ensures n.Internal? && (forall s :: s in Seps(n.children) ==> s.Type() == target.Type()) ==>
              r == Ok(Route(n, target))
  {
    if !n.Internal? {
      return Err(InvalidPage);
    }
    ghost var seps := Seps(n.children);
    for i := 0 to |n.children|
      invariant forall j :: 0 <= j < i ==> seps[j].Type() == target.Type() && Rank(seps[j]) < Rank(target)
    {
      CompareIsRankOrder(n.children[i].sep, target);
      assert seps[i] in seps;
      match Compare(n.children[i].sep, target) {
        case Some(Less) =>
        case Some(_) =>
          RouteIndexUnique(seps, target, i);
          return Ok(n.children[i].left);
        case None =>
          return Err(InvalidPage);
      }
    }
    RouteIndexUnique(seps, target, |seps|);
    return Ok(n.rightmost);
  }

  // ---------- sorting ----------

  ghost predicate SortedByKey(es: seq<Entry>) {
    forall i, j :: 0 <= i < j < |es| ==> Rank(es[i].key) <= Rank(es[j].key)
  }

  function Place(s: seq<Entry>, e: Entry): (r: seq<Entry>)
    ensures |r| == |s| + 1 && multiset(r) == multiset(s) + multiset{e}
  {
    if s == [] || Compare(e.key, s[0].key) != Some(Greater) then [e] + s
    else
      assert s == [s[0]] + s[1..];
      [s[0]] + Place(s[1..], e)
  }

  lemma {:induction false} PlaceSorted(s: seq<Entry>, e: Entry)
    requires SortedByKey(s) && forall x :: x in s ==> x.key.Type() == e.key.Type()
    ensures SortedByKey(Place(s, e))
  {
    if s != [] {
      CompareIsRankOrder(e.key, s[0].key);
      if Compare(e.key, s[0].key) == Some(Greater) {
        PlaceSorted(s[1..], e);
        var r := Place(s[1..], e);
        forall j | 0 <= j < |r| ensures Rank(s[0].key) <= Rank(r[j].key) {
          assert r[j] in multiset(r);
          assert r[j] in s[1..] || r[j] == e;
        }
      }
    }
  }

  /** Any sort by key will do: nothing below depends on the order of equal keys. */
  method SortEntries(es: seq<Entry>, t: KeyType) returns (s: seq<Entry>)
    requires forall e :: e in es ==> e.key.Type() == t
    ensures multiset(s) == multiset(es) && |s| == |es| && SortedByKey(s)
  {
    s := [];
    for i := 0 to |es|
      invariant multiset(s) == multiset(es[..i]) && |s| == i && SortedByKey(s)
    {
      assert forall x :: x in s ==> x.key.Type() == t by {
        assert forall x :: x in s <==> x in multiset(es[..i]);
      }
      assert es[..i + 1] == es[..i] + [es[i]];
      PlaceSorted(s, es[i]);
      s := Place(s, es[i]);
    }
    assert es[..|es|] == es;
  }

  // ---------- splitting and merging leaves ----------

  lemma HalvesOrdered(sorted: seq<Entry>, h: nat)
    requires SortedByKey(sorted) && 0 < h <= |sorted|
    ensures var sep := sorted[h - 1].key;
            && (exists x :: x in sorted[..h] && x.key == sep)
            && (forall x :: x in sorted[..h] ==> Rank(x.key) <= Rank(sep))
            && (forall x :: x in sorted[h..] ==> Rank(sep) <= Rank(x.key))
  {
    assert sorted[..h][h - 1] in sorted[..h];
  }

  lemma PartsAreAll(sorted: seq<Entry>, h: nat, all: multiset<Entry>)
    requires multiset(sorted) == all && h <= |sorted|
    ensures multiset(sorted[..h]) + multiset(sorted[h..]) == all
    ensures multiset(sorted[..h]) <= all && multiset(sorted[h..]) <= all
  {
    assert sorted == sorted[..h] + sorted[h..];
  }

  /** The halves of a sorted list divide it; each holds at most half, rounded up. */
  lemma HalvesWithin(es: seq<Entry>, e: Entry, sorted: seq<Entry>)
    requires multiset(sorted) == multiset(es + [e]) && |sorted| == |es| + 1 && SortedByKey(sorted)
    ensures var h := |sorted| / 2;
            && multiset(sorted[..h]) <= multiset(es + [e]) && multiset(sorted[h..]) <= multiset(es + [e])
            && (h > 0 ==> Divides(es, e, sorted[..h], sorted[h..], sorted[h - 1].key))
  {
    hide SortedByKey;
    var h := |sorted| / 2;
    PartsAreAll(sorted, h, multiset(es + [e]));
    if h > 0 {
      HalvesOrdered(sorted, h);
    }
  }

  method Halve(es: seq<Entry>, t: KeyType, e: Entry) returns (left: seq<Entry>, right: seq<Entry>)
    requires e.key.Type() == t && forall x :: x in es ==> x.key.Type() == t
    ensures |left| == (|es| + 1) / 2 && |left| + |right| == |es| + 1
    ensures left != [] ==> Divides(es, e, left, right, left[|left| - 1].key)
    ensures multiset(left) <= multiset(es + [e]) && multiset(right) <= multiset(es + [e])
  {
    hide *;
    var sorted := SortEntries(es + [e], t);
    HalvesWithin(es, e, sorted);
    left, right := sorted[..|sorted| / 2], sorted[|sorted| / 2..];
  }

  /** Taking out an entry shortens a leaf by the length of that entry. */
  lemma {:induction false} RemovedBytes(es: seq<Entry>, i: nat)
    requires i < |es|
    ensures LeafBytes(es[..i] + es[i + 1..]) == LeafBytes(es) - 12 - es[i].key.Size()
    decreases |es|
  {
    var last := |es| - 1;
    if i == last {
      assert es[..i] + es[i + 1..] == es[..last];
    } else {
      RemovedBytes(es[..last], i);
      var less := es[..i] + es[i + 1..];
      assert less[..|less| - 1] == es[..last][..i] + es[..last][i + 1..];
      assert less[|less| - 1] == es[last];
    }
  }

  // ---------- which leaves can be split ----------

  /** The halves of a leaf and a new entry, in some order of equal keys. */
  ghost predicate Halves(es: seq<Entry>, e: Entry, left: seq<Entry>, right: seq<Entry>, sep: Key) {
    Divides(es, e, left, right, sep) && |left| == (|es| + 1) / 2
  }

  /** Both halves fit a page. */
  ghost predicate Splits(es: seq<Entry>, e: Entry) {
    && es != []
    && forall left, right, sep :: Halves(es, e, left, right, sep) ==>
         LeafBytes(left) <= PAGE_SIZE && LeafBytes(right) <= PAGE_SIZE
  }

  lemma AllOfThem<T>(a: multiset<T>, b: multiset<T>)
    requires a <= b && |a| == |b|
    ensures a == b
  {
    assert b == a + (b - a);
  }

  /** The separator does not depend on the order of equal keys. */
  lemma OneSeparator(es: seq<Entry>, e: Entry, t: KeyType, left: seq<Entry>, right: seq<Entry>, sep: Key,
                     left': seq<Entry>, right': seq<Entry>, sep': Key)
    requires Halves(es, e, left, right, sep) && Halves(es, e, left', right', sep')
    requires sep.Type() == t && sep'.Type() == t
    ensures sep' == sep
  {
    if Rank(sep) < Rank(sep') {
      NotBelow(es, e, left, right, sep, left', right', sep');
    } else if Rank(sep') < Rank(sep) {
      NotBelow(es, e, left', right', sep', left, right, sep);
    }
    RankInjective(t);
  }

  lemma NotBelow(es: seq<Entry>, e: Entry, left: seq<Entry>, right: seq<Entry>, sep: Key, left': seq<Entry>,
                 right': seq<Entry>, sep': Key)
    requires Halves(es, e, left, right, sep) && Halves(es, e, left', right', sep')
    ensures Rank(sep) >= Rank(sep')
  {
    if Rank(sep) < Rank(sep') {
      var x :| x in left' && x.key == sep';
      assert x in multiset(left') && x !in multiset(left);
      forall x ensures multiset(left)[x] <= multiset(left')[x] {
        if x in left {
          assert x !in right';
          assert (multiset(left) + multiset(right))[x] == (multiset(left') + multiset(right'))[x];
        }
      }
      AllOfThem(multiset(left), multiset(left'));
      assert false;
    }
  }

  /** Entries of a list that are not matched in another are of one length. */
  ghost predicate Differ(a: multiset<Entry>, b: multiset<Entry>, n: nat) {
    && (forall x :: x in a - b ==> x.key.Size() == n)
    && (forall x :: x in b - a ==> x.key.Size() == n)
  }

  lemma DifferLess(a: multiset<Entry>, b: multiset<Entry>, n: nat, x: Entry, y: Entry)
    requires Differ(a, b, n) && x in a && y in b && (x == y || (x !in b && y in b - a))
    ensures Differ(a - multiset{x}, b - multiset{y}, n) && x.key.Size() == y.key.Size()
  {
    assert x != y ==> x in a - b;
    forall z | z in (a - multiset{x}) - (b - multiset{y}) ensures z in a - b {
    }
    forall z | z in (b - multiset{y}) - (a - multiset{x}) ensures z in b - a {
    }
  }

  lemma WithoutOne(a: seq<Entry>, j: nat)
    requires j < |a|
    ensures multiset(a[..j] + a[j + 1..]) == multiset(a) - multiset{a[j]}
  {
    assert a == a[..j] + [a[j]] + a[j + 1..];
  }

  /** One entry of each list, of the same length, can be left out. */
  lemma LeaveOut(a: seq<Entry>, b: seq<Entry>, n: nat) returns (j: nat)
    requires |a| == |b| > 0 && Differ(multiset(a), multiset(b), n)
    ensures j < |b| && a[|a| - 1].key.Size() == b[j].key.Size()
    ensures Differ(multiset(a[..|a| - 1]), multiset(b[..j] + b[j + 1..]), n)
  {
    hide Differ;
    var last := |a| - 1;
    var x := a[last];
    assert a[..last] + a[last + 1..] == a[..last];
    WithoutOne(a, last);
    var y := if x in b then x else OtherOne(multiset(a), multiset(b), x);
    assert y in multiset(b);
    j :| j < |b| && b[j] == y;
    WithoutOne(b, j);
    DifferLess(multiset(a), multiset(b), n, x, y);
  }

  /** Lists that differ only in entries of one length are equally long. */
  lemma {:induction false} SameBytes(a: seq<Entry>, b: seq<Entry>, n: nat)
    requires |a| == |b| && Differ(multiset(a), multiset(b), n)
    ensures LeafBytes(a) == LeafBytes(b)
    decreases |a|
  {
    hide Differ;
    if a != [] {
      var j := LeaveOut(a, b, n);
      SameBytes(a[..|a| - 1], b[..j] + b[j + 1..], n);
      RemovedBytes(b, j);
    }
  }

  ghost function OtherOne(a: multiset<Entry>, b: multiset<Entry>, x: Entry): (y: Entry)
    requires |a| == |b| && x in a && x !in b
    ensures y in b && y in b - a
  {
    assert x in a - b;
    assert |a - b| == |b - a|;
    var y :| y in b - a;
    y
  }

  /** Only entries with the separator as their key can be in another half. */
  lemma OnlySeparator(es: seq<Entry>, e: Entry, t: KeyType, left: seq<Entry>, right: seq<Entry>, sep: Key,
                      left': seq<Entry>, right': seq<Entry>)
    requires Halves(es, e, left, right, sep) && Halves(es, e, left', right', sep) && sep.Type() == t
    requires forall x :: x in left || x in right ==> x.key.Type() == t
    ensures forall x :: x in multiset(left) - multiset(left') ==> x.key == sep
    ensures forall x :: x in multiset(right) - multiset(right') ==> x.key == sep
  {
    RankInjective(t);
    var l, r, l', r' := multiset(left), multiset(right), multiset(left'), multiset(right');
    forall x ensures (x in l - l' ==> x.key == sep) && (x in r - r' ==> x.key == sep) {
      assert (l + r)[x] == (l' + r')[x];
      if x in l - l' {
        assert x in left && x in right';
      }
      if x in r - r' {
        assert x in right && x in left';
      }
    }
  }

  /** The lengths of the halves do not depend on the order of equal keys. */
  lemma OneLength(es: seq<Entry>, e: Entry, t: KeyType, left: seq<Entry>, right: seq<Entry>, sep: Key,
                  left': seq<Entry>, right': seq<Entry>, sep': Key)
    requires Halves(es, e, left, right, sep) && Halves(es, e, left', right', sep')
    requires e.key.Type() == t && forall x :: x in es ==> x.key.Type() == t
    ensures sep' == sep && LeafBytes(left') == LeafBytes(left) && LeafBytes(right') == LeafBytes(right)
  {
    DividesMembers(es, e, left, right, sep);
    DividesMembers(es, e, left', right', sep');
    OneSeparator(es, e, t, left, right, sep, left', right', sep');
    OnlySeparator(es, e, t, left, right, sep, left', right');
    OnlySeparator(es, e, t, left', right', sep, left, right);
    SameCounts(es, e, left, right, sep);
    SameCounts(es, e, left', right', sep');
    SameBytes(left, left', sep.Size());
    SameBytes(right, right', sep.Size());
  }

  lemma SameCounts(es: seq<Entry>, e: Entry, left: seq<Entry>, right: seq<Entry>, sep: Key)
    requires Divides(es, e, left, right, sep)
    ensures |left| + |right| == |es| + 1
  {
    assert |multiset(left) + multiset(right)| == |multiset(es + [e])|;
  }

  /** Two halves decide whether a leaf can be split. */
  lemma SplitsWhen(es: seq<Entry>, e: Entry, t: KeyType, left: seq<Entry>, right: seq<Entry>, sep: Key)
    requires Halves(es, e, left, right, sep) && es != []
    requires e.key.Type() == t && forall x :: x in es ==> x.key.Type() == t
    ensures Splits(es, e) <==> LeafBytes(left) <= PAGE_SIZE && LeafBytes(right) <= PAGE_SIZE
  {
    forall left', right', sep' | Halves(es, e, left', right', sep')
      ensures LeafBytes(left') == LeafBytes(left) && LeafBytes(right') == LeafBytes(right) {
      OneLength(es, e, t, left, right, sep, left', right', sep');
    }
  }

  /** The left half of a split is written with a link to the right page; the
      right half keeps the old link. A leaf can be split exactly when it is not
      empty and both halves fit a page. */
  method LeafSplit(n: Node, t: KeyType, e: Entry, rightId: PageId) returns (r: Result<(Node, Node, Key), TreeError>)
    requires n.Leaf? ==> forall x :: x in n.entries ==> x.key.Type() == t
    ensures r.Ok? <==> n.Leaf? && e.key.Type() == t && Splits(n.entries, e)
    ensures r.Ok? ==>
              && r.value.0.Leaf? && r.value.1.Leaf?
              && r.value.0.next == Some(rightId) && r.value.1.next == n.next
              && Halves(n.entries, e, r.value.0.entries, r.value.1.entries, r.value.2)
              && Fits(r.value.0) && Fits(r.value.1)
  {
    if !n.Leaf? {
      return Err(InvalidPage);
    }
    if e.key.Type() != t {
      return Err(InvalidPage);
    }
    var left, right := Halve(n.entries, t, e);
    if left == [] {
      return Err(InvalidPage);
    }
    SplitsWhen(n.entries, e, t, left, right, left[|left| - 1].key);
    var leftPage := FillLeaf(left, Some(rightId));
    if leftPage.Err? {
      return Err(leftPage.error);
    }
    var rightPage := FillLeaf(right, n.next);
    if rightPage.Err? {
      return Err(rightPage.error);
    }
    return Ok((leftPage.value, rightPage.value, left[|left| - 1].key));
  }

  lemma {:induction false} LeafBytesConcat(a: seq<Entry>, b: seq<Entry>)
    ensures LeafBytes(a + b) == LeafBytes(a) + LeafBytes(b) - LEAF_HEADER
    decreases |b|
  {
    if b == [] {
      assert a + b == a;
    } else {
      var last := |b| - 1;
      LeafBytesConcat(a, b[..last]);
      assert (a + b)[..|a| + last] == a + b[..last];
    }
  }

  lemma TakenOut(a: seq<Entry>, b: seq<Entry>) returns (j: nat)
    requires a != [] && multiset(a) == multiset(b)
    ensures j < |b| && b[j] == a[|a| - 1] && multiset(b[..j] + b[j + 1..]) == multiset(a[..|a| - 1])
  {
    var last := |a| - 1;
    assert a == a[..last] + [a[last]];
    assert a[last] in multiset(b);
    j :| j < |b| && b[j] == a[last];
    assert b == b[..j] + [b[j]] + b[j + 1..];
    assert multiset(b) == multiset(b[..j] + b[j + 1..]) + multiset{b[j]};
    assert multiset(b[..j] + b[j + 1..]) == multiset(b) - multiset{b[j]};
    assert multiset(a[..last]) == multiset(a) - multiset{a[last]};
  }

  /** The length of a leaf does not depend on the order of its entries. */
  lemma {:induction false} LeafBytesSame(a: seq<Entry>, b: seq<Entry>)
    requires multiset(a) == multiset(b)
    ensures LeafBytes(a) == LeafBytes(b)
    decreases |a|
  {
    if a == [] {
      assert |multiset(b)| == 0;
    } else {
      var j := TakenOut(a, b);
      LeafBytesSame(a[..|a| - 1], b[..j] + b[j + 1..]);
      RemovedBytes(b, j);
    }
  }

  method LeafMerge(l: Node, r: Node, t: KeyType) returns (m: Result<(Node, Node), TreeError>)
    requires l.Leaf? ==> forall x :: x in l.entries ==> x.key.Type() == t
    requires r.Leaf? ==> forall x :: x in r.entries ==> x.key.Type() == t
    ensures m.Ok? ==>
              && l.Leaf? && r.Leaf? && m.value.0.Leaf? && Fits(m.value.0) && m.value.1 == Leaf([], None)
              && multiset(m.value.0.entries) == multiset(l.entries) + multiset(r.entries)
              && m.value.0.next == r.next
    ensures m.Ok? <==>
              l.Leaf? && r.Leaf? && LeafBytes(l.entries) + LeafBytes(r.entries) <= PAGE_SIZE + LEAF_HEADER
    ensures m.Err? && l.Leaf? && r.Leaf? && Fits(l) && Fits(r) ==> m.error == PageFull
  {
    if !l.Leaf? || !r.Leaf? {
      return Err(InvalidPage);
    }
    var sorted := SortEntries(l.entries + r.entries, t);
    LeafBytesSame(sorted, l.entries + r.entries);
    LeafBytesConcat(l.entries, r.entries);
    var page := FillLeaf(sorted, r.next);
    if page.Err? {
      forall x | x in sorted && Fits(l) && Fits(r) ensures x.key.Size() <= MAX_KEY {
        assert x in multiset(l.entries + r.entries);
        var es, i: nat :| (es == l.entries || es == r.entries) && i < |es| && es[i] == x;
        LeafBytesMember(es, i);
      }
      return Err(page.error);
    }
    return Ok((page.value, Leaf([], None)));
  }

  // ---------- splitting and shrinking internal pages ----------

  lemma {:induction false} InternalBytesConcat(a: seq<Child>, b: seq<Child>)
    ensures InternalBytes(a + b) == InternalBytes(a) + InternalBytes(b) - INTERNAL_HEADER
  {
    if b == [] {
      assert a + b == a;
    } else {
      InternalBytesConcat(a, b[..|b| - 1]);
      assert (a + b)[..|a + b| - 1] == a + b[..|b| - 1];
    }
  }

  /** The children after `old` has been split into `left` and `right`. */
  function ReplacedChildren(cs: seq<Child>, i: nat, left: PageId, right: PageId, sep: Key): seq<Child>
    requires i <= |cs|
  {
    if i < |cs| then cs[..i] + [Child(left, sep), Child(right, cs[i].sep)] + cs[i + 1..]
    else cs + [Child(left, sep)]
  }

  lemma InternalBytesMiddle(a: seq<Child>, x: seq<Child>, b: seq<Child>)
    ensures InternalBytes(a + x + b) == InternalBytes(a) + InternalBytes(x) + InternalBytes(b) - 2 * INTERNAL_HEADER
  {
    InternalBytesConcat(a, x);
    InternalBytesConcat(a + x, b);
  }

  lemma InternalBytesOne(c: Child)
    ensures InternalBytes([c]) == INTERNAL_HEADER + 10 + c.sep.Size()
  {
    assert [c][..0] == [];
  }

  lemma InternalBytesTwo(c: Child, d: Child)
    ensures InternalBytes([c, d]) == INTERNAL_HEADER + 20 + c.sep.Size() + d.sep.Size()
  {
    assert [c, d][..1] == [c];
    InternalBytesOne(c);
  }

  /** The length of a page's entries after a stretch of them is exchanged. */
  lemma ExchangeBytes(cs: seq<Child>, i: nat, j: nat, x: seq<Child>)
    requires i <= j <= |cs|
    ensures InternalBytes(cs[..i] + x + cs[j..]) == InternalBytes(cs) - InternalBytes(cs[i..j]) + InternalBytes(x)
  {
    InternalBytesMiddle(cs[..i], x, cs[j..]);
    InternalBytesMiddle(cs[..i], cs[i..j], cs[j..]);
    assert cs == cs[..i] + cs[i..j] + cs[j..];
  }

  lemma ReplacedBytes(cs: seq<Child>, i: nat, left: PageId, right: PageId, sep: Key)
    requires i <= |cs|
    ensures InternalBytes(ReplacedChildren(cs, i, left, right, sep)) == InternalBytes(cs) + 10 + sep.Size()
  {
    var c := Child(left, sep);
    if i < |cs| {
      ExchangeBytes(cs, i, i + 1, [c, Child(right, cs[i].sep)]);
      InternalBytesTwo(c, Child(right, cs[i].sep));
      InternalBytesOne(cs[i]);
      assert cs[i..i + 1] == [cs[i]];
    } else {
      InternalBytesConcat(cs, [c]);
      InternalBytesOne(c);
    }
  }

  lemma ReplacedShape(cs: seq<Child>, rightmost: PageId, i: nat, left: PageId, right: PageId, sep: Key)
    requires i <= |cs|
    ensures var n := Internal(cs, rightmost);
            var cs' := ReplacedChildren(cs, i, left, right, sep);
            var n' := Internal(cs', if i < |cs| then rightmost else right);
            && Kids(n') == Kids(n)[..i] + [left, right] + Kids(n)[i + 1..]
            && Seps(cs') == Seps(cs)[..i] + [sep] + Seps(cs)[i..]
  {
  }

  /** Index `i` is where `p` first occurs among the children. */
  ghost predicate FirstAt(kids: seq<PageId>, p: PageId, i: int) {
    0 <= i < |kids| && kids[i] == p && forall j :: 0 <= j < i ==> kids[j] != p
  }

  /** Page `x` is page `from` with child `j` replaced by two children. */
  ghost predicate Replaced(from: Node, x: Node, j: nat, a: PageId, b: PageId, sep: Key) {
    && from.Internal? && x.Internal? && j <= |from.children|
    && Kids(x) == Kids(from)[..j] + [a, b] + Kids(from)[j + 1..]
    && Seps(x.children) == Seps(from.children)[..j] + [sep] + Seps(from.children)[j..]
  }

  /** Replacing a split child puts both halves in its place with the separator
      between them; it fails when the child is not here or the page is full. */
  method ReplaceChild(n: Node, old_: PageId, left: PageId, right: PageId, sep: Key)
    returns (r: Result<Node, TreeError>, ghost j: nat)
    ensures r.Ok? <==>
              n.Internal? && old_ in Kids(n) && InternalBytes(n.children) + 10 + sep.Size() <= PAGE_SIZE
    ensures r.Err? && n.Internal? && old_ in Kids(n) && Fits(n) && sep.Size() <= MAX_KEY ==> r.error == PageFull
    ensures r.Err? && n.Internal? && old_ !in Kids(n) ==> r.error == InvalidPage
    ensures r.Ok? ==> Fits(r.value) && FirstAt(Kids(n), old_, j) && Replaced(n, r.value, j, left, right, sep)
  {
    hide InternalBytes;
    j := 0;
    if !n.Internal? {
      return Err(InvalidPage), j;
    }
    var i := FindChild(n.children, old_);
    j := i;
    if i == |n.children| && n.rightmost != old_ {
      assert old_ !in Kids(n);
      return Err(InvalidPage), j;
    }
    assert FirstAt(Kids(n), old_, i) && Kids(n)[i] in Kids(n);
    var cs := ReplacedChildren(n.children, i, left, right, sep);
    ReplacedBytes(n.children, i, left, right, sep);
    ReplacedShape(n.children, n.rightmost, i, left, right, sep);
    r := FillInternal(cs, if i < |n.children| then n.rightmost else right);
    if Fits(n) && sep.Size() <= MAX_KEY {
      ReplacedSepSizes(n.children, i, left, right, sep);
    }
  }

  lemma ReplacedSepSizes(cs: seq<Child>, i: nat, left: PageId, right: PageId, sep: Key)
    requires InternalBytes(cs) <= PAGE_SIZE && i <= |cs| && sep.Size() <= MAX_KEY
    ensures forall c :: c in ReplacedChildren(cs, i, left, right, sep) ==> c.sep.Size() <= MAX_KEY
  {
    SepSizes(cs);
    assert i < |cs| ==> cs[i] in cs;
  }

  lemma SepSizes(cs: seq<Child>)
    requires InternalBytes(cs) <= PAGE_SIZE
    ensures forall c :: c in cs ==> c.sep.Size() <= MAX_KEY
  {
    forall c | c in cs ensures c.sep.Size() <= MAX_KEY {
      var i :| 0 <= i < |cs| && cs[i] == c;
      InternalBytesPrefix(cs, i + 1);
      assert cs[..i + 1][..i] == cs[..i];
    }
  }

  /** Position of the first entry for a child, or the number of entries. */
  method FindChild(cs: seq<Child>, p: PageId) returns (i: nat)
    ensures i <= |cs| && (i < |cs| ==> cs[i].left == p)
    ensures forall j :: 0 <= j < i ==> cs[j].left != p
  {
    i := 0;
    while i < |cs| && cs[i].left != p
      invariant i <= |cs| && forall j :: 0 <= j < i ==> cs[j].left != p
    {
      i := i + 1;
    }
  }

  lemma InternalBytesSuffix(cs: seq<Child>, j: nat)
    requires j <= |cs|
    ensures InternalBytes(cs[j..]) <= InternalBytes(cs)
  {
    hide InternalBytes;
    assert cs == cs[..j] + cs[j..];
    InternalBytesConcat(cs[..j], cs[j..]);
  }

  lemma HalvedShape(cs: seq<Child>, rightmost: PageId, h: nat)
    requires h < |cs|
    ensures Kids(Internal(cs[..h], cs[h].left)) == Kids(Internal(cs, rightmost))[..h + 1]
    ensures Kids(Internal(cs[h + 1..], rightmost)) == Kids(Internal(cs, rightmost))[h + 1..]
    ensures Seps(cs[..h]) == Seps(cs)[..h] && Seps(cs[h + 1..]) == Seps(cs)[h + 1..]
  {
  }

  /** What the halves of an internal page look like: the middle child becomes
      the left page's rightmost, and its separator moves up. */
  ghost predicate Halved(n: Node, l: Node, r: Node, sep: Key) {
    && n.Internal? && l.Internal? && r.Internal? && n.children != []
    && var h := |n.children| / 2;
       && Kids(l) == Kids(n)[..h + 1] && Seps(l.children) == Seps(n.children)[..h]
       && Kids(r) == Kids(n)[h + 1..] && Seps(r.children) == Seps(n.children)[h + 1..]
       && sep == Seps(n.children)[h]
  }

  method InternalSplit(n: Node) returns (r: Result<(Node, Node, Key), TreeError>)
    ensures n.Internal? && n.children != [] && Fits(n) ==> r.Ok?
    ensures r.Ok? ==> Halved(n, r.value.0, r.value.1, r.value.2) && Fits(r.value.0) && Fits(r.value.1)
  {
    if !n.Internal? {
      return Err(InvalidPage);
    }
    var h := |n.children| / 2;
    if n.children[h..] == [] {
      return Err(InvalidPage);
    }
    var promoted := n.children[h];
    InternalBytesPrefix(n.children, h);
    InternalBytesSuffix(n.children, h + 1);
    HalvedShape(n.children, n.rightmost, h);
    var leftPage := FillInternal(n.children[..h], promoted.left);
    if leftPage.Err? {
      return Err(leftPage.error);
    }
    var rightPage := FillInternal(n.children[h + 1..], n.rightmost);
    if rightPage.Err? {
      return Err(rightPage.error);
    }
    return Ok((leftPage.value, rightPage.value, promoted.sep));
  }

  /** The neighbour a leaf is merged with: the one to its right, or for the
      last child the one to its left; none for an only child. */
  method FindMergePair(n: Node, target: PageId) returns (r: Result<Option<(PageId, PageId)>, TreeError>, ghost k: nat)
    ensures r.Err? <==> !n.Internal? || target !in Kids(n)
    ensures r.Ok? ==> FirstAt(Kids(n), target, k)
    ensures r.Ok? && n.children == [] ==> r.value == None
    ensures r.Ok? && n.children != [] ==>
              r.value == Some(if k < |n.children| then (target, Kids(n)[k + 1]) else (Kids(n)[k - 1], target))
  {
    if !n.Internal? {
      return Err(InvalidPage), 0;
    }
    var i := FindChild(n.children, target);
    if i < |n.children| {
      assert FirstAt(Kids(n), target, i) && Kids(n)[i] in Kids(n);
      return Ok(Some((target, if i + 1 < |n.children| then n.children[i + 1].left else n.rightmost))), i;
    } else if target == n.rightmost {
      assert FirstAt(Kids(n), target, i) && Kids(n)[i] in Kids(n);
      if n.children == [] {
        return Ok(None), i;
      }
      return Ok(Some((n.children[i - 1].left, target))), i;
    } else {
      return Err(InvalidPage), 0;
    }
  }

  /** Removing a merged right child leaves its left neighbour to answer for
      both, up to the separator that followed the right child. */
  method RemoveRightChild(n: Node, left: PageId, right: PageId) returns (r: Result<Node, TreeError>)
    ensures r.Ok? ==> r.value.Internal? && Fits(r.value)
    ensures forall i | n.Internal? && Fits(n) && 0 <= i < |n.children|
                       && FirstAt(Kids(n), left, i) && Kids(n)[i + 1] == right ::
              && r.Ok? && Kids(r.value) == Kids(n)[..i + 1] + Kids(n)[i + 2..]
              && Seps(r.value.children) == Seps(n.children)[..i] + Seps(n.children)[i + 1..]
  {
    if !n.Internal? {
      return Err(InvalidPage);
    }
    var cs := n.children;
    var i := FindChild(cs, left);
    assert forall j :: FirstAt(Kids(n), left, j) && j < |cs| ==> j == i by {
      assert forall j :: 0 <= j < |cs| ==> Kids(n)[j] == cs[j].left;
    }
    if i == |cs| {
      return Err(InvalidPage);
    }
    MergedShape(cs, n.rightmost, i);
    if n.rightmost == right && i + 1 == |cs| {
      InternalBytesPrefix(cs, i);
      r := FillInternal(cs[..i], left);
    } else if i + 1 < |cs| && cs[i + 1].left == right {
      var merged := Child(left, cs[i + 1].sep);
      MergedBytes(cs, i, left);
      r := FillInternal(cs[..i] + [merged] + cs[i + 2..], n.rightmost);
    } else {
      return Err(InvalidPage);
    }
  }

  lemma MergedBytes(cs: seq<Child>, i: nat, left: PageId)
    requires i + 1 < |cs|
    ensures InternalBytes(cs[..i] + [Child(left, cs[i + 1].sep)] + cs[i + 2..]) <= InternalBytes(cs)
  {
    hide InternalBytes;
    ExchangeBytes(cs, i, i + 2, [Child(left, cs[i + 1].sep)]);
    InternalBytesOne(Child(left, cs[i + 1].sep));
    PairBytes(cs, i);
  }

  lemma PairBytes(cs: seq<Child>, i: nat)
    requires i + 1 < |cs|
    ensures InternalBytes(cs[i..i + 2]) >= INTERNAL_HEADER + 20 + cs[i + 1].sep.Size()
  {
    assert cs[i..i + 2] == [cs[i], cs[i + 1]];
    InternalBytesTwo(cs[i], cs[i + 1]);
  }

  lemma MergedShape(cs: seq<Child>, rightmost: PageId, i: nat)
    requires i < |cs|
    ensures var n := Internal(cs, rightmost);
            var kids, seps := Kids(n)[..i + 1] + Kids(n)[i + 2..], Seps(cs)[..i] + Seps(cs)[i + 1..];
            if i + 1 < |cs| then
              var cs' := cs[..i] + [Child(cs[i].left, cs[i + 1].sep)] + cs[i + 2..];
              Kids(Internal(cs', rightmost)) == kids && Seps(cs') == seps
            else
              Kids(Internal(cs[..i], cs[i].left)) == kids && Seps(cs[..i]) == seps
  {
  }
}
