/** The order of keys in plain terms. */
module KeyOrder {
  import opened Wrappers
  import opened Keys

  /** The strings agree on their first `n` bytes, and there the first one ends or
      has the smaller byte. */
  ghost predicate PartAt(a: seq<Byte>, b: seq<Byte>, n: nat) {
    n <= |a| && n < |b| && a[..n] == b[..n] && (n == |a| || a[n] < b[n])
  }

  ghost predicate BytesBefore(a: seq<Byte>, b: seq<Byte>) {
    exists n: nat :: PartAt(a, b, n)
  }

  /** Numbers by size, false before true, strings byte by byte; keys of different
      types are not ordered. */
  ghost predicate Before(a: Key, b: Key) {
    match (a, b)
    case (Int(x), Int(y)) => x < y
    case (BigInt(x), BigInt(y)) => x < y
    case (Boolean(x), Boolean(y)) => !x && y
    case (Varchar(x), Varchar(y)) => BytesBefore(x, y)
    case _ => false
  }

  lemma PartAtNext(a: seq<Byte>, b: seq<Byte>, n: nat)
    requires a != [] && b != [] && a[0] == b[0]
    ensures PartAt(a, b, n + 1) <==> PartAt(a[1..], b[1..], n)
    ensures !PartAt(a, b, 0)
  {
    if n < |a| && n < |b| {
      assert a[..n + 1] == [a[0]] + a[1..][..n] && b[..n + 1] == [b[0]] + b[1..][..n];
      assert a[..n + 1][1..] == a[1..][..n] && b[..n + 1][1..] == b[1..][..n];
    }
  }

  lemma {:induction false} BytesInOrder(a: seq<Byte>, b: seq<Byte>)
    ensures CompareBytes(a, b) == Less <==> BytesBefore(a, b)
    ensures CompareBytes(a, b) == Greater <==> BytesBefore(b, a)
    ensures CompareBytes(a, b) == Equal <==> a == b
  {
    if a == [] || b == [] {
      assert b != [] ==> PartAt([], b, 0);
      assert a != [] ==> PartAt([], a, 0);
    } else if a[0] == b[0] {
      BytesInOrder(a[1..], b[1..]);
      BeforeNext(a, b);
      BeforeNext(b, a);
      assert a == [a[0]] + a[1..] && b == [b[0]] + b[1..];
    } else {
      assert PartAt(a, b, 0) <==> a[0] < b[0];
      assert PartAt(b, a, 0) <==> b[0] < a[0];
      NoLonger(a, b);
      NoLonger(b, a);
    }
  }

  lemma BeforeNext(a: seq<Byte>, b: seq<Byte>)
    requires a != [] && b != [] && a[0] == b[0]
    ensures BytesBefore(a, b) <==> BytesBefore(a[1..], b[1..])
  {
    if BytesBefore(a[1..], b[1..]) {
      var n: nat :| PartAt(a[1..], b[1..], n);
      PartAtNext(a, b, n);
    }
    if BytesBefore(a, b) {
      var n: nat :| PartAt(a, b, n);
      PartAtNext(a, b, if n == 0 then 0 else n - 1);
    }
  }

  lemma NoLonger(a: seq<Byte>, b: seq<Byte>)
    requires a != [] && b != [] && a[0] != b[0]
    ensures forall n: nat :: n > 0 ==> !PartAt(a, b, n)
  {
    forall n: nat | n > 0 && n <= |a| && n < |b| ensures a[..n] != b[..n] {
      assert a[..n][0] == a[0] && b[..n][0] == b[0];
    }
  }

  /** The comparison of keys is this order; equal keys are identical. */
  lemma CompareMeans(a: Key, b: Key)
    ensures Compare(a, b) == Some(Less) <==> Before(a, b)
    ensures Compare(a, b) == Some(Greater) <==> Before(b, a)
    ensures Compare(a, b) == Some(Equal) <==> a == b
    ensures Compare(a, b) == None <==> a.Type() != b.Type()
  {
    if a.Varchar? && b.Varchar? {
      BytesInOrder(a.s, b.s);
    }
  }
}
