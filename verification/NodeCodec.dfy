/** Index pages as bytes: a header, and entries of varying length one after the
    other. Appending to the bytes is appending to the node they stand for. */
module NodeCodec {
  import opened Wrappers
  import opened Keys
  import opened BigEndian
  import opened BTreeModel
  import opened BTreeNodes

  // ---------- keys and entries ----------

  function KeyBytes(k: Key): (b: seq<Byte>)
    ensures |b| == k.Size()
  {
    match k
    case Int(i) => Int32Bytes(i)
    case BigInt(i) => Int64Bytes(i)
    case Boolean(v) => [if v then 1 else 0]
    case Varchar(s) => s
  }

  function KeyOf(utf8: Utf8, t: KeyType, b: seq<Byte>): Option<Key> {
    match t
    case IntKey => if |b| == 4 then Some(Int(Int32Of(b))) else None
    case BigIntKey => if |b| == 8 then Some(BigInt(Int64Of(b))) else None
    case BooleanKey => if b == [0] then Some(Boolean(false)) else if b == [1] then Some(Boolean(true)) else None
    case VarcharKey => if utf8(b) then Some(Varchar(b)) else None
  }

  ghost predicate ValidKey(utf8: Utf8, k: Key) {
    k.Size() <= MAX_KEY && (k.Varchar? ==> utf8(k.s))
  }

  lemma KeyRoundTrip(utf8: Utf8, k: Key)
    requires ValidKey(utf8, k)
    ensures KeyOf(utf8, k.Type(), KeyBytes(k)) == Some(k)
  {
    match k
    case Int(i) => Int32RoundTrip(i, []);
    case BigInt(i) => Int64RoundTrip(i, []);
    case _ =>
  }

  const MAX_PAGE_ID: nat := 0xFFFF_FFFF_FFFF_FFFF

  function LeafEntryBytes(e: Entry): (b: seq<Byte>)
    ensures |b| == 12 + e.key.Size()
  {
    ToBigEndian(e.key.Size(), 2) + KeyBytes(e.key) + (ToBigEndian(e.row.page, 8) + ToBigEndian(e.row.slot, 2))
  }

  function LeafEntryOf(utf8: Utf8, t: KeyType, b: seq<Byte>): Option<Entry> {
    if |b| < 2 then None
    else
      var n := FromBigEndian(b[..2]);
      if |b| != 2 + n + 10 then None
      else
        var k := KeyOf(utf8, t, b[2..2 + n]);
        if k.None? then None
        else Some(Entry(k.value, RowId(FromBigEndian(b[2 + n..10 + n]), FromBigEndian(b[10 + n..]))))
  }

  ghost predicate ValidEntry(utf8: Utf8, t: KeyType, e: Entry) {
    ValidKey(utf8, e.key) && e.key.Type() == t && e.row.page <= MAX_PAGE_ID && e.row.slot <= 0xFFFF
  }

  lemma LeafEntryRoundTrip(utf8: Utf8, t: KeyType, e: Entry)
    requires ValidEntry(utf8, t, e)
    ensures LeafEntryOf(utf8, t, LeafEntryBytes(e)) == Some(e) && FromBigEndian(LeafEntryBytes(e)[..2]) == e.key.Size()
  {
    PowersOf256();
    var n := e.key.Size();
    BigEndianRoundTrip(n, 2);
    BigEndianRoundTrip(e.row.page, 8);
    BigEndianRoundTrip(e.row.slot, 2);
    KeyRoundTrip(utf8, e.key);
    Parts4(ToBigEndian(n, 2), KeyBytes(e.key), ToBigEndian(e.row.page, 8), ToBigEndian(e.row.slot, 2));
  }

  lemma Parts4(a: seq<Byte>, b: seq<Byte>, c: seq<Byte>, d: seq<Byte>)
    ensures var s := a + b + (c + d);
            && s[..|a|] == a && s[|a|..|a| + |b|] == b
            && s[|a| + |b|..|a| + |b| + |c|] == c && s[|a| + |b| + |c|..] == d
  {
  }

  function ChildBytes(c: Child): (b: seq<Byte>)
    ensures |b| == 10 + c.sep.Size()
  {
    ToBigEndian(c.left, 8) + ToBigEndian(c.sep.Size(), 2) + KeyBytes(c.sep)
  }

  function ChildOf(utf8: Utf8, t: KeyType, b: seq<Byte>): Option<Child> {
    if |b| < 10 then None
    else
      var n := FromBigEndian(b[8..10]);
      if |b| != n + 10 then None
      else
        var k := KeyOf(utf8, t, b[10..]);
        if k.None? then None else Some(Child(FromBigEndian(b[..8]), k.value))
  }

  ghost predicate ValidChild(utf8: Utf8, t: KeyType, c: Child) {
    ValidKey(utf8, c.sep) && c.sep.Type() == t && c.left <= MAX_PAGE_ID
  }

  lemma ChildRoundTrip(utf8: Utf8, t: KeyType, c: Child)
    requires ValidChild(utf8, t, c)
    ensures ChildOf(utf8, t, ChildBytes(c)) == Some(c) && FromBigEndian(ChildBytes(c)[8..10]) == c.sep.Size()
  {
    PowersOf256();
    BigEndianRoundTrip(c.left, 8);
    BigEndianRoundTrip(c.sep.Size(), 2);
    KeyRoundTrip(utf8, c.sep);
    var b := ChildBytes(c);
    assert b[..8] == ToBigEndian(c.left, 8) && b[8..10] == ToBigEndian(c.sep.Size(), 2) && b[10..] == KeyBytes(c.sep);
  }

  // ---------- headers ----------

  datatype Header = LeafHeader(count: nat, end: nat, next: Option<nat>) | InternalHeader(count: nat, end: nat,
                                                                                         rightmost: nat) {
    function Size(): nat {
      if LeafHeader? then LEAF_HEADER else INTERNAL_HEADER
    }
  }

  function HeaderBytes(h: Header): (b: seq<Byte>)
    ensures |b| == h.Size()
  {
    [if h.LeafHeader? then 0 else 1] + ToBigEndian(h.count, 2) + ToBigEndian(h.end, 2)
    + match h
      case LeafHeader(_, _, next) => if next.Some? then [1] + ToBigEndian(next.value, 8)
          else [0, 0, 0, 0, 0, 0, 0, 0, 0]
      case InternalHeader(_, _, rightmost) => ToBigEndian(rightmost, 8)
  }

  function ParseHeader(b: seq<Byte>): (h: Option<Header>)
    requires |b| >= LEAF_HEADER
    ensures h.Some? ==> h.value.Size() <= h.value.end <= |b|
  {
    if b[0] > 1 then None
    else
      var count, end := FromBigEndian(b[1..3]), FromBigEndian(b[3..5]);
      if b[0] == 0 then
        if end < LEAF_HEADER || end > |b| then None
        else if b[5] == 0 then Some(LeafHeader(count, end, None))
        else if b[5] == 1 then Some(LeafHeader(count, end, Some(FromBigEndian(b[6..14]))))
        else None
      else
        if end < INTERNAL_HEADER || end > |b| then None
        else Some(InternalHeader(count, end, FromBigEndian(b[5..13])))
  }

  ghost predicate HeaderOk(h: Header) {
    && h.count <= 0xFFFF && h.Size() <= h.end <= PAGE_SIZE
    && (h.LeafHeader? && h.next.Some? ==> h.next.value <= MAX_PAGE_ID)
    && (h.InternalHeader? ==> h.rightmost <= MAX_PAGE_ID)
  }

  lemma SliceOfPrefix(b: seq<Byte>, x: seq<Byte>, i: nat, j: nat)
    requires i <= j <= |x| <= |b| && b[..|x|] == x
    ensures b[i..j] == x[i..j]
  {
    assert b[..|x|][i..j] == b[i..j];
  }

  /** Where the fields of a header stand. */
  lemma HeaderParts(h: Header)
    requires HeaderOk(h)
    ensures var x := HeaderBytes(h);
            && |x| == h.Size() && x[0] == (if h.LeafHeader? then 0 else 1)
            && x[1..3] == ToBigEndian(h.count, 2) && x[3..5] == ToBigEndian(h.end, 2)
            && (h.LeafHeader? ==> x[5] == if h.next.Some? then 1 else 0)
            && (h.LeafHeader? && h.next.Some? ==> x[6..14] == ToBigEndian(h.next.value, 8))
            && (h.InternalHeader? ==> x[5..13] == ToBigEndian(h.rightmost, 8))
  {
  }

  lemma HeaderRoundTrip(h: Header, b: seq<Byte>)
    requires HeaderOk(h) && |b| == PAGE_SIZE && b[..h.Size()] == HeaderBytes(h)
    ensures ParseHeader(b) == Some(h)
  {
    hide HeaderBytes, ToBigEndian, FromBigEndian;
    PowersOf256();
    BigEndianRoundTrip(h.count, 2);
    BigEndianRoundTrip(h.end, 2);
    HeaderParts(h);
    var x := HeaderBytes(h);
    SliceOfPrefix(b, x, 1, 3);
    SliceOfPrefix(b, x, 3, 5);
    assert b[0] == x[0] && b[5] == x[5];
    match h
    case LeafHeader(_, _, next) =>
      if next.Some? {
        BigEndianRoundTrip(next.value, 8);
        SliceOfPrefix(b, x, 6, 14);
      }
    case InternalHeader(_, _, rightmost) =>
      BigEndianRoundTrip(rightmost, 8);
      SliceOfPrefix(b, x, 5, 13);
  }

  // ---------- pages ----------

  /** Entries one after the other. */
  ghost function Concat(chunks: seq<seq<Byte>>): seq<Byte> {
    if chunks == [] then [] else Concat(chunks[..|chunks| - 1]) + chunks[|chunks| - 1]
  }

  ghost predicate PageEncodes(b: seq<Byte>, h: Header, chunks: seq<seq<Byte>>) {
    && |b| == PAGE_SIZE && HeaderOk(h) && b[..h.Size()] == HeaderBytes(h)
    && h.count == |chunks| && h.end == h.Size() + |Concat(chunks)| && b[h.Size()..h.end] == Concat(chunks)
  }

  lemma {:induction false} ConcatPrefix(chunks: seq<seq<Byte>>, n: nat)
    requires n <= |chunks|
    ensures |Concat(chunks[..n])| <= |Concat(chunks)| && Concat(chunks)[..|Concat(chunks[..n])|] == Concat(chunks[..n])
    decreases |chunks|
  {
    if n < |chunks| {
      var last := |chunks| - 1;
      assert chunks[..last][..n] == chunks[..n];
      ConcatPrefix(chunks[..last], n);
    } else {
      assert chunks[..n] == chunks;
    }
  }

  /** Entry `i` stands right after those before it. */
  lemma ChunkAt(b: seq<Byte>, h: Header, chunks: seq<seq<Byte>>, i: nat)
    requires PageEncodes(b, h, chunks) && i < |chunks|
    ensures var off := h.Size() + |Concat(chunks[..i])|;
            off + |chunks[i]| == h.Size() + |Concat(chunks[..i + 1])| <= h.end <= |b|
                && b[off..off + |chunks[i]|] == chunks[i]
  {
    ConcatPrefix(chunks, i + 1);
    assert chunks[..i + 1][..i] == chunks[..i];
    var all, upto, before := Concat(chunks), Concat(chunks[..i + 1]), Concat(chunks[..i]);
    assert upto == before + chunks[i];
    var off := h.Size() + |before|;
    forall k | 0 <= k < |chunks[i]| ensures b[off + k] == chunks[i][k] {
      assert b[h.Size()..h.end][|before| + k] == b[off + k];
      assert all[..|upto|][|before| + k] == upto[|before| + k];
    }
  }

  ghost predicate SamePage(b: seq<Byte>, b': seq<Byte>, lo: nat, hi: nat) {
    |b| == |b'| && forall k :: 0 <= k < |b| && !(lo <= k < hi) ==> b'[k] == b[k]
  }

  method WriteAt(page: array<Byte>, off: nat, bytes: seq<Byte>)
    requires off + |bytes| <= page.Length
    modifies page
    ensures SamePage(old(page[..]), page[..], off, off + |bytes|) && page[off..off + |bytes|] == bytes
  {
    var i := 0;
    while i < |bytes|
      invariant 0 <= i <= |bytes| && SamePage(old(page[..]), page[..], off, off + i)
      invariant forall k :: 0 <= k < i ==> page[off + k] == bytes[k]
    {
      page[off + i] := bytes[i];
      i := i + 1;
    }
  }

  /** The header after one more entry. */
  function Longer(h: Header, n: nat): Header {
    h.(count := h.count + 1, end := h.end + n)
  }

  lemma AppendedEncodes(b: seq<Byte>, mid: seq<Byte>, b': seq<Byte>, h: Header, chunks: seq<seq<Byte>>,
                        chunk: seq<Byte>)
    requires PageEncodes(b, h, chunks) && h.end + |chunk| <= PAGE_SIZE && h.count < 0xFFFF
    requires SamePage(b, mid, h.end, h.end + |chunk|) && mid[h.end..h.end + |chunk|] == chunk
    requires SamePage(mid, b', 0, h.Size()) && b'[0..h.Size()] == HeaderBytes(Longer(h, |chunk|))
    ensures PageEncodes(b', Longer(h, |chunk|), chunks + [chunk])
  {
    assert (chunks + [chunk])[..|chunks|] == chunks;
    var h' := Longer(h, |chunk|);
    EntriesKept(b, mid, b', h, chunk);
    assert Concat(chunks + [chunk]) == Concat(chunks) + chunk;
  }

  lemma EntriesKept(b: seq<Byte>, mid: seq<Byte>, b': seq<Byte>, h: Header, chunk: seq<Byte>)
    requires |b| == PAGE_SIZE && h.Size() <= h.end && h.end + |chunk| <= PAGE_SIZE
    requires SamePage(b, mid, h.end, h.end + |chunk|) && mid[h.end..h.end + |chunk|] == chunk
    requires SamePage(mid, b', 0, h.Size())
    ensures b'[h.Size()..h.end + |chunk|] == b[h.Size()..h.end] + chunk
  {
    var x, y := b'[h.Size()..h.end + |chunk|], b[h.Size()..h.end] + chunk;
    forall k | 0 <= k < |x| ensures x[k] == y[k] {
      if k < h.end - h.Size() {
        assert b[h.Size() + k] == mid[h.Size() + k] == b'[h.Size() + k];
      } else {
        assert mid[h.end..h.end + |chunk|][k - (h.end - h.Size())] == mid[h.Size() + k] == b'[h.Size() + k];
      }
    }
  }

  /** Append an encoded entry to a page of the given kind. */
  method AppendEntry(page: array<Byte>, leaf: bool, chunk: seq<Byte>, ghost h: Header, ghost chunks: seq<seq<Byte>>)
    returns (r: Result<(), TreeError>)
    requires PageEncodes(page[..], h, chunks)
    modifies page
    ensures r.Ok? <==> leaf == h.LeafHeader? && h.end + |chunk| <= PAGE_SIZE && h.count < 0xFFFF
    ensures r.Ok? ==> PageEncodes(page[..], Longer(h, |chunk|), chunks + [chunk])
    ensures r.Err? ==> page[..] == old(page[..]) && r.error == if leaf != h.LeafHeader? then InvalidPage else PageFull
  {
    HeaderRoundTrip(h, page[..]);
    var parsed := ParseHeader(page[..]);
    var header := parsed.value;
    if header.LeafHeader? != leaf {
      return Err(InvalidPage);
    }
    var start := header.end;
    var end := start + |chunk|;
    if end > page.Length {
      return Err(PageFull);
    }
    if header.count + 1 > 0xFFFF {
      return Err(PageFull);
    }
    ghost var b := page[..];
    WriteAt(page, start, chunk);
    ghost var mid := page[..];
    WriteAt(page, 0, HeaderBytes(Longer(header, |chunk|)));
    AppendedEncodes(b, mid, page[..], h, chunks, chunk);
    return Ok(());
  }

  // ---------- nodes ----------

  ghost function LeafChunks(es: seq<Entry>): seq<seq<Byte>> {
    seq(|es|, i requires 0 <= i < |es| => LeafEntryBytes(es[i]))
  }

  ghost function ChildChunks(cs: seq<Child>): seq<seq<Byte>> {
    seq(|cs|, i requires 0 <= i < |cs| => ChildBytes(cs[i]))
  }

  ghost function HeaderFor(n: Node): Header
    requires !n.Blank?
  {
    match n
    case Leaf(es, next) => LeafHeader(|es|, LeafBytes(es), next)
    case Internal(cs, rightmost) => InternalHeader(|cs|, InternalBytes(cs), rightmost)
  }

  ghost function Chunks(n: Node): seq<seq<Byte>> {
    match n
    case Leaf(es, _) => LeafChunks(es)
    case Internal(cs, _) => ChildChunks(cs)
    case Blank => []
  }

  /** The bytes of a page stand for a node. */
  ghost predicate NodeEncoded(b: seq<Byte>, n: Node) {
    !n.Blank? && PageEncodes(b, HeaderFor(n), Chunks(n))
  }

  /** A page of a node has the length that the node's byte count says. */
  lemma {:induction false} LeafLength(es: seq<Entry>)
    ensures LEAF_HEADER + |Concat(LeafChunks(es))| == LeafBytes(es)
  {
    if es == [] {
    } else {
      var n := |es| - 1;
      LeafLength(es[..n]);
      assert LeafChunks(es)[..n] == LeafChunks(es[..n]);
    }
  }

  lemma {:induction false} InternalLength(cs: seq<Child>)
    ensures INTERNAL_HEADER + |Concat(ChildChunks(cs))| == InternalBytes(cs)
  {
    if cs == [] {
    } else {
      var n := |cs| - 1;
      InternalLength(cs[..n]);
      assert ChildChunks(cs)[..n] == ChildChunks(cs[..n]);
    }
  }

  lemma NodeHeader(b: seq<Byte>, n: Node)
    requires NodeEncoded(b, n)
    ensures !n.Blank? && |b| == PAGE_SIZE && ParseHeader(b) == Some(HeaderFor(n))
  {
    HeaderRoundTrip(HeaderFor(n), b);
  }

  /** Appending to the bytes of a leaf appends to the leaf: it fails exactly when
      appending to the node does, and in the same way. */
  method AppendLeafEntry(page: array<Byte>, e: Entry, ghost n: Node) returns (r: Result<(), TreeError>)
    requires NodeEncoded(page[..], n)
    modifies page
    ensures r.Ok? <==> AppendLeaf(n, e).Ok?
    ensures r.Ok? ==> NodeEncoded(page[..], AppendLeaf(n, e).value)
    ensures r.Err? ==> r.error == AppendLeaf(n, e).error && NodeEncoded(page[..], n)
  {
    hide PageEncodes, ParseHeader, LeafEntryBytes;
    NodeHeader(page[..], n);
    if !ParseHeader(page[..]).value.LeafHeader? {
      return Err(InvalidPage);
    }
    if e.key.Size() > 0xFFFF {
      return Err(InvalidPage);
    }
    assert n.entries + [e] != [] && (n.entries + [e])[..|n.entries|] == n.entries;
    assert LeafChunks(n.entries + [e]) == LeafChunks(n.entries) + [LeafEntryBytes(e)];
    r := AppendEntry(page, true, LeafEntryBytes(e), HeaderFor(n), Chunks(n));
  }

  method AppendInternalEntry(page: array<Byte>, c: Child, ghost n: Node) returns (r: Result<(), TreeError>)
    requires NodeEncoded(page[..], n)
    modifies page
    ensures r.Ok? <==> AppendInternal(n, c).Ok?
    ensures r.Ok? ==> NodeEncoded(page[..], AppendInternal(n, c).value)
    ensures r.Err? ==> r.error == AppendInternal(n, c).error && NodeEncoded(page[..], n)
  {
    hide PageEncodes, ParseHeader, ChildBytes;
    NodeHeader(page[..], n);
    if ParseHeader(page[..]).value.LeafHeader? {
      return Err(InvalidPage);
    }
    if c.sep.Size() > 0xFFFF {
      return Err(InvalidPage);
    }
    assert n.children + [c] != [] && (n.children + [c])[..|n.children|] == n.children;
    assert ChildChunks(n.children + [c]) == ChildChunks(n.children) + [ChildBytes(c)];
    r := AppendEntry(page, false, ChildBytes(c), HeaderFor(n), Chunks(n));
  }

  method InitializeLeaf(page: array<Byte>)
    requires page.Length == PAGE_SIZE
    modifies page
    ensures NodeEncoded(page[..], Leaf([], None))
  {
    Clear(page);
    WriteAt(page, 0, HeaderBytes(LeafHeader(0, LEAF_HEADER, None)));
    assert page[..LEAF_HEADER] == page[0..LEAF_HEADER];
  }

  method InitializeInternal(page: array<Byte>, rightmost: PageId)
    requires page.Length == PAGE_SIZE && rightmost <= MAX_PAGE_ID
    modifies page
    ensures NodeEncoded(page[..], Internal([], rightmost))
  {
    Clear(page);
    WriteAt(page, 0, HeaderBytes(InternalHeader(0, INTERNAL_HEADER, rightmost)));
    assert page[..INTERNAL_HEADER] == page[0..INTERNAL_HEADER];
  }

  method Clear(page: array<Byte>)
    modifies page
    ensures forall k :: 0 <= k < page.Length ==> page[k] == 0
  {
    var i := 0;
    while i < page.Length
      invariant 0 <= i <= page.Length && forall k :: 0 <= k < i ==> page[k] == 0
    {
      page[i] := 0;
      i := i + 1;
    }
  }

  // ---------- reading ----------

  lemma LeafChunkAt(b: seq<Byte>, utf8: Utf8, t: KeyType, n: Node, i: nat)
    requires NodeEncoded(b, n) && n.Leaf? && i < |n.entries| && ValidEntry(utf8, t, n.entries[i])
    ensures var e := n.entries[i];
            var off, end := LeafBytes(n.entries[..i]), LeafBytes(n.entries[..i + 1]);
            && end == off + 12 + e.key.Size() <= LeafBytes(n.entries) <= |b|
            && FromBigEndian(b[off..off + 2]) == e.key.Size() && LeafEntryOf(utf8, t, b[off..end]) == Some(e)
  {
    hide PageEncodes, Concat, FromBigEndian, LeafEntryOf, ValidEntry, LeafEntryBytes;
    var es := n.entries;
    ChunkAt(b, HeaderFor(n), Chunks(n), i);
    LeafLength(es[..i]);
    assert LeafChunks(es)[..i] == LeafChunks(es[..i]);
    assert es[..i + 1][..i] == es[..i];
    LeafBytesPrefix(es, i + 1);
    LeafEntryRoundTrip(utf8, t, es[i]);
    var off, end := LeafBytes(es[..i]), LeafBytes(es[..i + 1]);
    assert b[off..end][..2] == b[off..off + 2];
  }

  /** Reading a leaf back yields its entries in the order they were appended. */
  method ReadLeafEntries(page: array<Byte>, utf8: Utf8, t: KeyType, ghost n: Node)
    returns (r: Result<seq<Entry>, TreeError>)
    requires NodeEncoded(page[..], n) && (n.Leaf? ==> forall i :: 0 <= i < |n.entries| ==>
                                            ValidEntry(utf8, t, n.entries[i]))
    ensures r == if n.Leaf? then Ok(n.entries) else Err(InvalidPage)
  {
    hide NodeEncoded, ParseHeader, FromBigEndian, LeafEntryOf, ValidEntry;
    NodeHeader(page[..], n);
    var header := ParseHeader(page[..]).value;
    if !header.LeafHeader? {
      return Err(InvalidPage);
    }
    var entries := [];
    var offset := LEAF_HEADER;
    var i := 0;
    while i < header.count
      invariant 0 <= i <= header.count == |n.entries| && entries == n.entries[..i]
                && offset == LeafBytes(n.entries[..i])
    {
      LeafChunkAt(page[..], utf8, t, n, i);
      if offset + 2 > header.end {
        return Err(InvalidPage);
      }
      var keyLen := FromBigEndian(page[offset..offset + 2]);
      var entryEnd := offset + 2 + keyLen + 10;
      if entryEnd > header.end {
        return Err(InvalidPage);
      }
      match LeafEntryOf(utf8, t, page[offset..entryEnd]) {
        case None => return Err(InvalidPage);
        case Some(e) => entries := entries + [e];
      }
      offset := entryEnd;
      i := i + 1;
    }
    assert n.entries[..i] == n.entries;
    if offset != header.end {
      return Err(InvalidPage);
    }
    return Ok(entries);
  }

  lemma ChildChunkAt(b: seq<Byte>, utf8: Utf8, t: KeyType, n: Node, i: nat)
    requires NodeEncoded(b, n) && n.Internal? && i < |n.children| && ValidChild(utf8, t, n.children[i])
    ensures var c := n.children[i];
            var off, end := InternalBytes(n.children[..i]), InternalBytes(n.children[..i + 1]);
            && end == off + 10 + c.sep.Size() <= InternalBytes(n.children) <= |b|
            && FromBigEndian(b[off + 8..off + 10]) == c.sep.Size() && ChildOf(utf8, t, b[off..end]) == Some(c)
  {
    hide PageEncodes, Concat, FromBigEndian, ChildOf, ValidChild, ChildBytes;
    var cs := n.children;
    ChunkAt(b, HeaderFor(n), Chunks(n), i);
    InternalLength(cs[..i]);
    assert ChildChunks(cs)[..i] == ChildChunks(cs[..i]);
    assert cs[..i + 1][..i] == cs[..i];
    InternalBytesPrefix(cs, i + 1);
    ChildRoundTrip(utf8, t, cs[i]);
    var off, end := InternalBytes(cs[..i]), InternalBytes(cs[..i + 1]);
    assert b[off..end][8..10] == b[off + 8..off + 10];
  }

  method ReadInternalEntries(page: array<Byte>, utf8: Utf8, t: KeyType, ghost n: Node)
    returns (r: Result<seq<Child>, TreeError>)
    requires NodeEncoded(page[..], n) && (n.Internal? ==> forall i :: 0 <= i < |n.children| ==>
                                            ValidChild(utf8, t, n.children[i]))
    ensures r == if n.Internal? then Ok(n.children) else Err(InvalidPage)
  {
    hide NodeEncoded, ParseHeader, FromBigEndian, ChildOf, ValidChild;
    NodeHeader(page[..], n);
    var header := ParseHeader(page[..]).value;
    if header.LeafHeader? {
      return Err(InvalidPage);
    }
    var children := [];
    var offset := INTERNAL_HEADER;
    var i := 0;
    while i < header.count
      invariant 0 <= i <= header.count == |n.children| && children == n.children[..i]
                && offset == InternalBytes(n.children[..i])
    {
      ChildChunkAt(page[..], utf8, t, n, i);
      if offset + 10 > header.end {
        return Err(InvalidPage);
      }
      var keyLen := FromBigEndian(page[offset + 8..offset + 10]);
      var entryEnd := offset + keyLen + 10;
      if entryEnd > header.end {
        return Err(InvalidPage);
      }
      match ChildOf(utf8, t, page[offset..entryEnd]) {
        case None => return Err(InvalidPage);
        case Some(c) => children := children + [c];
      }
      offset := entryEnd;
      i := i + 1;
    }
    assert n.children[..i] == n.children;
    if offset != header.end {
      return Err(InvalidPage);
    }
    return Ok(children);
  }

  /** A page stands for one node only. */
  lemma OneNode(b: seq<Byte>, utf8: Utf8, t: KeyType, n: Node, m: Node)
    requires NodeEncoded(b, n) && NodeEncoded(b, m)
    requires n.Leaf? ==> forall i :: 0 <= i < |n.entries| ==> ValidEntry(utf8, t, n.entries[i])
    requires m.Leaf? ==> forall i :: 0 <= i < |m.entries| ==> ValidEntry(utf8, t, m.entries[i])
    requires n.Internal? ==> forall i :: 0 <= i < |n.children| ==> ValidChild(utf8, t, n.children[i])
    requires m.Internal? ==> forall i :: 0 <= i < |m.children| ==> ValidChild(utf8, t, m.children[i])
    ensures n == m
  {
    NodeHeader(b, n);
    NodeHeader(b, m);
    if n.Leaf? {
      SameLeafEntries(b, utf8, t, n, m, |n.entries|);
      assert n.entries[..|n.entries|] == n.entries && m.entries[..|n.entries|] == m.entries;
    } else {
      SameChildren(b, utf8, t, n, m, |n.children|);
      assert n.children[..|n.children|] == n.children && m.children[..|n.children|] == m.children;
    }
  }

  lemma OneMore<T>(a: seq<T>, b: seq<T>, i: nat)
    requires 0 < i <= |a| && i <= |b| && a[..i - 1] == b[..i - 1] && a[i - 1] == b[i - 1]
    ensures a[..i] == b[..i]
  {
    assert a[..i] == a[..i - 1] + [a[i - 1]] && b[..i] == b[..i - 1] + [b[i - 1]];
  }

  lemma {:induction false} SameLeafEntries(b: seq<Byte>, utf8: Utf8, t: KeyType, n: Node, m: Node, i: nat)
    requires NodeEncoded(b, n) && NodeEncoded(b, m) && n.Leaf? && m.Leaf? && i <= |n.entries| == |m.entries|
    requires forall j :: 0 <= j < |n.entries| ==> ValidEntry(utf8, t, n.entries[j]) && ValidEntry(utf8, t, m.entries[j])
    ensures n.entries[..i] == m.entries[..i]
  {
    hide NodeEncoded, FromBigEndian, LeafEntryOf, ValidEntry;
    if i > 0 {
      SameLeafEntries(b, utf8, t, n, m, i - 1);
      LeafChunkAt(b, utf8, t, n, i - 1);
      LeafChunkAt(b, utf8, t, m, i - 1);
      OneMore(n.entries, m.entries, i);
    }
  }

  lemma {:induction false} SameChildren(b: seq<Byte>, utf8: Utf8, t: KeyType, n: Node, m: Node, i: nat)
    requires NodeEncoded(b, n) && NodeEncoded(b, m) && n.Internal? && m.Internal? && i <= |n.children| == |m.children|
    requires forall j :: 0 <= j < |n.children| ==>
               ValidChild(utf8, t, n.children[j]) && ValidChild(utf8, t, m.children[j])
    ensures n.children[..i] == m.children[..i]
  {
    hide NodeEncoded, FromBigEndian, ChildOf, ValidChild;
    if i > 0 {
      SameChildren(b, utf8, t, n, m, i - 1);
      ChildChunkAt(b, utf8, t, n, i - 1);
      ChildChunkAt(b, utf8, t, m, i - 1);
      OneMore(n.children, m.children, i);
    }
  }
}
