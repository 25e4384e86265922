/** Index keys and their order.

    Within one key type the order is total. `Rank` embeds it in the reals, so
    that every ordering argument about the tree becomes linear arithmetic. */
module Keys {
  import opened Wrappers

  type Byte = x: int | 0 <= x < 0x100
  type Int32 = x: int | -0x8000_0000 <= x < 0x8000_0000
  type Int64 = x: int | -0x8000_0000_0000_0000 <= x < 0x8000_0000_0000_0000

  /** Where a row is stored. */
  datatype RowId = RowId(page: nat, slot: nat)

  datatype Ordering = Less | Equal | Greater

  datatype KeyType = IntKey | BigIntKey | BooleanKey | VarcharKey

  datatype Key =
    | Int(i: Int32)
    | BigInt(b: Int64)
    | Boolean(v: bool)
    | Varchar(s: seq<Byte>)
  {
    function Type(): KeyType {
      match this
      case Int(_) => IntKey
      case BigInt(_) => BigIntKey
      case Boolean(_) => BooleanKey
      case Varchar(_) => VarcharKey
    }

    /** Length of the encoded key in bytes. */
    function Size(): nat {
      match this
      case Int(_) => 4
      case BigInt(_) => 8
      case Boolean(_) => 1
      case Varchar(s) => |s|
    }
  }

  function CompareInt(a: int, b: int): Ordering {
    if a < b then Less else if a == b then Equal else Greater
  }

  /** Strings compare byte by byte; a proper prefix comes first. */
  function CompareBytes(a: seq<Byte>, b: seq<Byte>): Ordering {
    if a == [] && b == [] then Equal
    else if a == [] then Less
    else if b == [] then Greater
    else if a[0] == b[0] then CompareBytes(a[1..], b[1..])
    else CompareInt(a[0], b[0])
  }

  function Compare(a: Key, b: Key): Option<Ordering> {
    match (a, b)
    case (Int(x), Int(y)) => Some(CompareInt(x, y))
    case (BigInt(x), BigInt(y)) => Some(CompareInt(x, y))
    case (Boolean(x), Boolean(y)) => Some(CompareInt(if x then 1 else 0, if y then 1 else 0))
    case (Varchar(x), Varchar(y)) => Some(CompareBytes(x, y))
    case _ => None
  }

  ghost function BytesRank(s: seq<Byte>): (r: real)
    ensures 0.0 <= r < 1.0
    ensures r == 0.0 <==> s == []
  {
    if s == [] then 0.0 else (1.0 + s[0] as real + BytesRank(s[1..])) / 257.0
  }

  ghost function Rank(k: Key): (r: real)
    ensures 0.0 <= r
  {
    match k
    case Int(x) => (x + 0x8000_0000) as real
    case BigInt(x) => (x + 0x8000_0000_0000_0000) as real
    case Boolean(x) => if x then 1.0 else 0.0
    case Varchar(x) => BytesRank(x)
  }

  ghost function CompareReal(a: real, b: real): Ordering {
    if a < b then Less else if a == b then Equal else Greater
  }

  lemma {:induction false} BytesRankOrders(a: seq<Byte>, b: seq<Byte>)
    ensures CompareBytes(a, b) == CompareReal(BytesRank(a), BytesRank(b))
    ensures CompareBytes(a, b) == Equal <==> a == b
  {
    if a != [] && b != [] {
      BytesRankOrders(a[1..], b[1..]);
      if a[0] == b[0] {
        assert a == [a[0]] + a[1..] && b == [b[0]] + b[1..];
      } else if a[0] < b[0] {
        assert 1.0 + a[0] as real + BytesRank(a[1..]) < 1.0 + b[0] as real;
      } else {
        assert 1.0 + b[0] as real + BytesRank(b[1..]) < 1.0 + a[0] as real;
      }
    }
  }

  /** The comparison of two keys is defined exactly when they have one type,
      and then it is the order of their ranks; only equal keys compare equal. */
  lemma CompareIsRankOrder(a: Key, b: Key)
    ensures Compare(a, b).None? <==> a.Type() != b.Type()
    ensures a.Type() == b.Type() ==> Compare(a, b) == Some(CompareReal(Rank(a), Rank(b)))
    ensures a.Type() == b.Type() && Rank(a) == Rank(b) ==> a == b
  {
    if a.Varchar? && b.Varchar? {
      BytesRankOrders(a.s, b.s);
    }
  }

  lemma RankInjective(t: KeyType)
    ensures forall a: Key, b: Key {:trigger Rank(a), Rank(b)} ::
              a.Type() == t && b.Type() == t && Rank(a) == Rank(b) ==> a == b
  {
    forall a: Key, b: Key | a.Type() == t && b.Type() == t && Rank(a) == Rank(b)
      ensures a == b
    {
      CompareIsRankOrder(a, b);
    }
  }
}
