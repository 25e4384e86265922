/** The operations on whole leaf pages, carried out on their bytes: each does to
    the node that the bytes stand for what the tree's own operation does. */
module NodePages {
  import opened Wrappers
  import opened Keys
  import opened BigEndian
  import opened BTreeModel
  import opened BTreeNodes
  import opened NodeCodec

  /** Every entry of a leaf can be read back. */
  ghost predicate Readable(utf8: Utf8, t: KeyType, n: Node) {
    n.Leaf? ==> forall i :: 0 <= i < |n.entries| ==> ValidEntry(utf8, t, n.entries[i])
  }

  lemma ReadableTypes(utf8: Utf8, t: KeyType, n: Node)
    requires Readable(utf8, t, n)
    ensures n.Leaf? ==> forall x :: x in n.entries ==> x.key.Type() == t
  {
  }

  /** Rewrite the header of a leaf with another link. */
  method SetNext(page: array<Byte>, next: Option<PageId>, ghost n: Node)
    requires NodeEncoded(page[..], n) && n.Leaf? && (next.Some? ==> next.value <= MAX_PAGE_ID)
    modifies page
    ensures NodeEncoded(page[..], Leaf(n.entries, next))
  {
    NodeHeader(page[..], n);
    var header := ParseHeader(page[..]).value;
    ghost var b := page[..];
    WriteAt(page, 0, HeaderBytes(header.(next := next)));
    Relinked(b, page[..], n, next);
  }

  lemma Relinked(b: seq<Byte>, b': seq<Byte>, n: Node, next: Option<PageId>)
    requires NodeEncoded(b, n) && n.Leaf? && (next.Some? ==> next.value <= MAX_PAGE_ID)
    requires SamePage(b, b', 0, LEAF_HEADER) && b'[0..LEAF_HEADER] == HeaderBytes(HeaderFor(n).(next := next))
    ensures NodeEncoded(b', Leaf(n.entries, next))
  {
    hide Concat, HeaderBytes, LeafChunks;
    var end := HeaderFor(n).end;
    assert b'[LEAF_HEADER..end] == b[LEAF_HEADER..end];
    assert b'[..LEAF_HEADER] == b'[0..LEAF_HEADER];
  }

  /** Make a page a leaf with the given entries: it fails exactly when they are
      too long for a page. */
  method FillPage(page: array<Byte>, es: seq<Entry>) returns (r: Result<(), TreeError>)
    requires page.Length == PAGE_SIZE
    modifies page
    ensures r.Ok? <==> LeafBytes(es) <= PAGE_SIZE
    ensures r.Ok? ==> NodeEncoded(page[..], Leaf(es, None))
    ensures r.Err? && (forall e :: e in es ==> e.key.Size() <= MAX_KEY) ==> r.error == PageFull
  {
    hide NodeEncoded, LeafEntryBytes;
    InitializeLeaf(page);
    assert es[..0] == [];
    var i := 0;
    while i < |es|
      invariant 0 <= i <= |es| && LeafBytes(es[..i]) <= PAGE_SIZE
      invariant NodeEncoded(page[..], Leaf(es[..i], None))
    {
      assert es[..i + 1] == es[..i] + [es[i]] && es[..i + 1][..i] == es[..i];
      var appended := AppendLeafEntry(page, es[i], Leaf(es[..i], None));
      if appended.Err? {
        LeafBytesPrefix(es, i + 1);
        LongKey(es, i);
        return appended;
      }
      i := i + 1;
    }
    assert es[..i] == es;
    return Ok(());
  }

  /** An entry whose key is too long does not fit a page either. */
  lemma LongKey(es: seq<Entry>, i: nat)
    requires i < |es|
    ensures es[i].key.Size() > MAX_KEY ==> LeafBytes(es) > PAGE_SIZE
  {
    LeafBytesMember(es, i);
  }

  method CopyPage(from: array<Byte>, to: array<Byte>)
    requires from.Length == to.Length && from != to
    modifies to
    ensures to[..] == old(from[..])
  {
    var i := 0;
    while i < from.Length
      invariant 0 <= i <= from.Length && forall k :: 0 <= k < i ==> to[k] == from[k]
      invariant from[..] == old(from[..])
    {
      to[i] := from[i];
      i := i + 1;
    }
  }

  /** Divide a full leaf and a new entry between its own page and another: the
      left page is linked to the right one, which keeps the old link. */
  method SplitPages(left: array<Byte>, right: array<Byte>, rightId: PageId, utf8: Utf8, t: KeyType, e: Entry,
                    ghost n: Node)
    returns (r: Result<Key, TreeError>, ghost a: seq<Entry>, ghost b: seq<Entry>)
    requires left != right && right.Length == PAGE_SIZE && rightId <= MAX_PAGE_ID
    requires NodeEncoded(left[..], n) && Readable(utf8, t, n)
    modifies left, right
    ensures r.Ok? <==> n.Leaf? && e.key.Type() == t && Splits(n.entries, e)
    ensures r.Ok? ==>
              && Halves(n.entries, e, a, b, r.value)
              && NodeEncoded(left[..], Leaf(a, Some(rightId))) && NodeEncoded(right[..], Leaf(b, n.next))
  {
    hide NodeEncoded, ValidEntry, Divides;
    a, b := [], [];
    EncodedLength(left[..], n);
    ReadableTypes(utf8, t, n);
    var read := ReadLeafEntries(left, utf8, t, n);
    if read.Err? {
      return Err(read.error), a, b;
    }
    if e.key.Type() != t {
      return Err(InvalidPage), a, b;
    }
    var es, es' := Halve(read.value, t, e);
    a, b := es, es';
    if es == [] {
      return Err(InvalidPage), a, b;
    }
    SplitsWhen(n.entries, e, t, es, es', es[|es| - 1].key);
    var oldNext := ReadNext(left, n);
    var filled := FillPage(left, es);
    if filled.Err? {
      return Err(filled.error), a, b;
    }
    SetNext(left, Some(rightId), Leaf(es, None));
    filled := FillPage(right, es');
    if filled.Err? {
      return Err(filled.error), a, b;
    }
    SetNext(right, oldNext, Leaf(es', None));
    return Ok(es[|es| - 1].key), a, b;
  }

  lemma EncodedLength(b: seq<Byte>, n: Node)
    requires NodeEncoded(b, n)
    ensures |b| == PAGE_SIZE
  {
  }

  method ReadNext(page: array<Byte>, ghost n: Node) returns (next: Option<PageId>)
    requires NodeEncoded(page[..], n) && n.Leaf?
    ensures next == n.next && (next.Some? ==> next.value <= MAX_PAGE_ID)
  {
    NodeHeader(page[..], n);
    next := ParseHeader(page[..]).value.next;
  }

  /** Merge two leaves into the page of the left one, by way of a fresh page; the
      merged leaf takes over the right link, and the right page becomes empty.
      If the entries do not fit, both pages stay as they are. */
  method MergePages(left: array<Byte>, right: array<Byte>, utf8: Utf8, t: KeyType, ghost l: Node, ghost r: Node)
    returns (res: Result<(), TreeError>, ghost m: seq<Entry>)
    requires left != right && NodeEncoded(left[..], l) && NodeEncoded(right[..], r)
    requires Readable(utf8, t, l) && Readable(utf8, t, r)
    modifies left, right
    ensures res.Ok? <==> l.Leaf? && r.Leaf? && LeafBytes(l.entries) + LeafBytes(r.entries) <= PAGE_SIZE + LEAF_HEADER
    ensures res.Ok? ==>
              && multiset(m) == multiset(l.entries) + multiset(r.entries)
              && NodeEncoded(left[..], Leaf(m, r.next)) && NodeEncoded(right[..], Leaf([], None))
    ensures res.Err? ==> left[..] == old(left[..]) && right[..] == old(right[..])
  {
    hide NodeEncoded, ValidEntry;
    m := [];
    EncodedLength(left[..], l);
    EncodedLength(right[..], r);
    ReadableTypes(utf8, t, l);
    ReadableTypes(utf8, t, r);
    var leftEntries := ReadLeafEntries(left, utf8, t, l);
    var rightEntries := ReadLeafEntries(right, utf8, t, r);
    if leftEntries.Err? || rightEntries.Err? {
      return Err(InvalidPage), m;
    }
    var sorted := SortEntries(leftEntries.value + rightEntries.value, t);
    m := sorted;
    LeafBytesSame(sorted, l.entries + r.entries);
    LeafBytesConcat(l.entries, r.entries);
    var temp := new Byte[PAGE_SIZE];
    var filled := FillPage(temp, sorted);
    if filled.Err? {
      return Err(filled.error), m;
    }
    CopyPage(temp, left);
    var oldNext := ReadNext(right, r);
    SetNext(left, oldNext, Leaf(sorted, None));
    InitializeLeaf(right);
    return Ok(()), m;
  }

  /** Rewrite a leaf without the first entry equal to `e`, and without its link. */
  method RemoveFromPage(page: array<Byte>, utf8: Utf8, t: KeyType, e: Entry, ghost n: Node)
    returns (removed: Result<bool, TreeError>, ghost x: int)
    requires NodeEncoded(page[..], n) && Readable(utf8, t, n)
    modifies page
    ensures removed.Ok? <==> n.Leaf?
    ensures removed == Ok(true) ==>
              && 0 <= x < |n.entries| && n.entries[x] == e && e !in n.entries[..x]
              && NodeEncoded(page[..], Leaf(n.entries[..x] + n.entries[x + 1..], None))
    ensures removed != Ok(true) ==> page[..] == old(page[..]) && (n.Leaf? ==> e !in n.entries)
  {
    hide NodeEncoded, ValidEntry;
    EncodedFits(page[..], n);
    x := 0;
    var read := ReadLeafEntries(page, utf8, t, n);
    if read.Err? {
      return Err(read.error), x;
    }
    var es := read.value;
    var i := 0;
    while i < |es| && es[i] != e
      invariant 0 <= i <= |es| && e !in es[..i]
    {
      i := i + 1;
    }
    x := i;
    if i == |es| {
      assert es[..i] == es;
      return Ok(false), x;
    }
    RemovedBytes(es, i);
    var temp := new Byte[PAGE_SIZE];
    var filled := FillPage(temp, es[..i] + es[i + 1..]);
    CopyPage(temp, page);
    return Ok(true), x;
  }

  lemma EncodedFits(b: seq<Byte>, n: Node)
    requires NodeEncoded(b, n)
    ensures |b| == PAGE_SIZE && Fits(n)
  {
  }
}
