/** The bytes on disk: the numbers that the layouts of pages, entries and rows
    come down to. */
module Formats {
  import opened Wrappers
  import opened Keys
  import opened BigEndian
  import opened BTreeModel
  import A = Ast
  import C = NodeCodec
  import L = PageLayout
  import N = BTreeNodes
  import T = Tuple

  /** Two bytes, the more significant one first. */
  lemma TwoBytes(n: nat)
    requires n < 0x1_0000
    ensures ToBigEndian(n, 2) == [n / 0x100, n % 0x100]
  {
    assert ToBigEndian(n / 0x100, 1) == [] + [n / 0x100];
  }

  function Pair(high: int, low: int): int {
    high * 0x100 + low
  }

  /** The value of four bytes. */
  ghost function Word(b: seq<Byte>): nat
    requires |b| == 4
  {
    Pair(Pair(Pair(b[0], b[1]), b[2]), b[3])
  }

  lemma FourBytes(b: seq<Byte>)
    requires |b| == 4
    ensures FromBigEndian(b) == Word(b)
  {
    assert b[..3][..2] == b[..2] && b[..2][..1] == b[..1] && b[..1][..0] == [];
    assert FromBigEndian(b[..1]) == b[0];
    assert FromBigEndian(b[..2]) == Pair(b[0], b[1]);
    assert FromBigEndian(b[..3]) == Pair(Pair(b[0], b[1]), b[2]);
  }

  /** Numbers are stored in two's complement. */
  lemma IntBytes(i: Int32, n: Int64)
    ensures FromBigEndian(Int32Bytes(i)) == Word(Int32Bytes(i)) == if i < 0 then i + 0x1_0000_0000 else i
    ensures FromBigEndian(Int64Bytes(n)) == if n < 0 then n + 0x1_0000_0000_0000_0000 else n
  {
    FourBytes(Int32Bytes(i));
    PowersOf256();
    BigEndianRoundTrip(if i < 0 then i + 0x1_0000_0000 else i, 4);
    BigEndianRoundTrip(if n < 0 then n + 0x1_0000_0000_0000_0000 else n, 8);
  }

  /** A key is its number, one byte, or the string itself. */
  lemma KeyLayout(i: Int32, n: Int64, v: bool, s: seq<Byte>)
    ensures C.KeyBytes(Int(i)) == Int32Bytes(i) && C.KeyBytes(BigInt(n)) == Int64Bytes(n)
    ensures C.KeyBytes(Boolean(v)) == (if v then [1] else [0]) && C.KeyBytes(Varchar(s)) == s
  {
  }

  /** A column is a byte that tells NULL from a value, and the value: four bytes,
      eight bytes, one byte, or two for the length and the string. */
  lemma ColumnBytes(i: Int32, n: Int64, v: bool, s: seq<Byte>, t: A.DataType)
    ensures T.EncodeValue(None, t) == Ok([0])
    ensures T.EncodeValue(Some(Int(i)), A.DataType.IntType) == Ok([1] + Int32Bytes(i))
    ensures T.EncodeValue(Some(BigInt(n)), A.DataType.BigIntType) == Ok([1] + Int64Bytes(n))
    ensures T.EncodeValue(Some(Boolean(v)), A.DataType.BooleanType) == Ok(if v then [1, 1] else [1, 0])
    ensures T.EncodeValue(Some(Varchar(s)), A.DataType.VarcharType)
         == if |s| > 65535 then Err(T.VarcharTooLong) else Ok([1, |s| / 0x100, |s| % 0x100] + s)
  {
    if |s| <= 65535 {
      TwoBytes(|s|);
      assert [1] + [|s| / 0x100, |s| % 0x100] == [1, |s| / 0x100, |s| % 0x100];
    }
  }

  /** A leaf page begins with 0, an internal page with 1; then come the number of
      entries, where they end, and the link or the rightmost child. */
  lemma HeaderLayout(count: nat, end: nat, page: nat)
    requires count < 0x1_0000 && end < 0x1_0000
    ensures C.HeaderBytes(C.LeafHeader(count, end, None))
         == [0, count / 0x100, count % 0x100, end / 0x100, end % 0x100, 0, 0, 0, 0, 0, 0, 0, 0, 0]
    ensures C.HeaderBytes(C.LeafHeader(count, end, Some(page)))
         == [0, count / 0x100, count % 0x100, end / 0x100, end % 0x100, 1] + ToBigEndian(page, 8)
    ensures C.HeaderBytes(C.InternalHeader(count, end, page))
         == [1, count / 0x100, count % 0x100, end / 0x100, end % 0x100] + ToBigEndian(page, 8)
  {
    TwoBytes(count);
    TwoBytes(end);
    C.HeaderParts(C.LeafHeader(count, 14, None));
  }

  /** An entry of a leaf: length of the key, key, page, slot. An entry of an
      internal page: child, length of the separator, separator. */
  lemma EntryLayout(k: Key, row: RowId, child: nat)
    requires k.Size() < 0x1_0000 && row.slot < 0x1_0000
    ensures C.LeafEntryBytes(Entry(k, row))
         == [k.Size() / 0x100, k.Size() % 0x100] + C.KeyBytes(k) + ToBigEndian(row.page, 8)
            + [row.slot / 0x100, row.slot % 0x100]
    ensures C.ChildBytes(Child(child, k))
         == ToBigEndian(child, 8) + [k.Size() / 0x100, k.Size() % 0x100] + C.KeyBytes(k)
  {
    TwoBytes(k.Size());
    TwoBytes(row.slot);
  }

  /** A page holds a leaf whose header and entries take at most 8192 bytes: the
      header 14, an entry 12 and its key. */
  lemma {:induction false} LeafSize(es: seq<Entry>, size: nat)
    requires forall i :: 0 <= i < |es| ==> es[i].key.Size() == size
    ensures N.LeafBytes(es) == 14 + (12 + size) * |es|
    ensures forall next :: N.Fits(Leaf(es, next)) <==> 14 + (12 + size) * |es| <= 8192
  {
    if es == [] {
    } else {
      LeafSize(es[..|es| - 1], size);
    }
  }

  /** An internal page likewise: the header 13, a child 10 and its separator. */
  lemma {:induction false} InternalSize(cs: seq<Child>, size: nat)
    requires forall i :: 0 <= i < |cs| ==> cs[i].sep.Size() == size
    ensures N.InternalBytes(cs) == 13 + (10 + size) * |cs|
    ensures forall p :: N.Fits(Internal(cs, p)) <==> 13 + (10 + size) * |cs| <= 8192
  {
    if cs == [] {
    } else {
      InternalSize(cs[..|cs| - 1], size);
    }
  }

  /** A leaf refuses a key of more than 65535 bytes, and an entry that would make it
      longer than a page. */
  lemma AppendLimits(es: seq<Entry>, next: Option<PageId>, e: Entry)
    ensures N.AppendLeaf(Leaf(es, next), e)
         == if e.key.Size() > 65535 then Err(N.InvalidPage)
            else if N.LeafBytes(es) + 12 + e.key.Size() > 8192 then Err(N.PageFull)
            else Ok(Leaf(es + [e], next))
  {
  }

  /** The header of a slotted page, number by number; slot `s` stands at 8 + 4s,
      and a free block begins with its link and its length. The list ends with
      65535. */
  lemma SlottedPageBytes(b: seq<Byte>, l: L.Layout, s: nat, j: nat)
    requires L.Encodes(b, l) && s < |l.slots| && j < |l.free| && 8 + 4 * |l.slots| <= 8192
    requires l.free[j].off + 4 <= 8192
    ensures |b| == 8192
    ensures Pair(b[0], b[1]) == |l.slots| && Pair(b[4], b[5]) == l.freeEnd
    ensures Pair(b[2], b[3]) == 8 + 4 * |l.slots|
    ensures Pair(b[6], b[7]) == l.free[0].off
    ensures Pair(b[8 + 4 * s], b[9 + 4 * s]) == l.slots[s].off
    ensures Pair(b[10 + 4 * s], b[11 + 4 * s]) == l.slots[s].len
    ensures var at := l.free[j].off;
            && Pair(b[at], b[at + 1]) == (if j + 1 < |l.free| then l.free[j + 1].off else 65535)
            && Pair(b[at + 2], b[at + 3]) == l.free[j].len
  {
    assert L.SlotEncoded(b, l.slots, s) && L.BlockEncoded(b, l.free, j);
  }
}
