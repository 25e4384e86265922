/** Numbers as bytes, most significant byte first. */
module BigEndian {
  import opened Keys

  /** Which byte sequences are valid UTF-8; strings are such sequences. */
  type Utf8 = seq<Byte> -> bool

  ghost function Pow256(w: nat): (p: nat)
    ensures p >= 1
  {
    if w == 0 then 1 else Pow256(w - 1) * 256
  }

  function ToBigEndian(n: nat, w: nat): (b: seq<Byte>)
    ensures |b| == w
  {
    if w == 0 then [] else ToBigEndian(n / 256, w - 1) + [n % 256]
  }

  function FromBigEndian(b: seq<Byte>): nat {
    if b == [] then 0 else FromBigEndian(b[..|b| - 1]) * 256 + b[|b| - 1]
  }

  lemma {:induction false} BigEndianRoundTrip(n: nat, w: nat)
    requires n < Pow256(w)
    ensures FromBigEndian(ToBigEndian(n, w)) == n
  {
    if w == 0 {
    } else {
      BigEndianRoundTrip(n / 256, w - 1);
      assert ToBigEndian(n, w)[..w - 1] == ToBigEndian(n / 256, w - 1);
    }
  }

  lemma {:induction false} FromBigEndianRoundTrip(b: seq<Byte>)
    ensures FromBigEndian(b) < Pow256(|b|) && ToBigEndian(FromBigEndian(b), |b|) == b
  {
    if b == [] {
    } else {
      var n, last := FromBigEndian(b[..|b| - 1]), b[|b| - 1];
      FromBigEndianRoundTrip(b[..|b| - 1]);
      assert (n * 256 + last) / 256 == n && (n * 256 + last) % 256 == last;
      assert b[..|b| - 1] + [last] == b;
    }
  }

  lemma PowersOf256()
    ensures Pow256(1) == 0x100 && Pow256(2) == 0x1_0000 && Pow256(4) == 0x1_0000_0000
            && Pow256(8) == 0x1_0000_0000_0000_0000
  {
    assert Pow256(3) == 0x100_0000 && Pow256(5) == 0x100_0000_0000;
    assert Pow256(6) == 0x1_0000_0000_0000 && Pow256(7) == 0x100_0000_0000_0000;
  }

  function Int32Bytes(i: Int32): (b: seq<Byte>)
    ensures |b| == 4
  {
    ToBigEndian(if i < 0 then i + 0x1_0000_0000 else i, 4)
  }

  function Int32Of(b: seq<Byte>): Int32
    requires |b| == 4
  {
    FromBigEndianRoundTrip(b);
    PowersOf256();
    var n := FromBigEndian(b);
    if n >= 0x8000_0000 then n - 0x1_0000_0000 else n
  }

  function Int64Bytes(i: Int64): (b: seq<Byte>)
    ensures |b| == 8
  {
    ToBigEndian(if i < 0 then i + 0x1_0000_0000_0000_0000 else i, 8)
  }

  function Int64Of(b: seq<Byte>): Int64
    requires |b| == 8
  {
    FromBigEndianRoundTrip(b);
    PowersOf256();
    var n := FromBigEndian(b);
    if n >= 0x8000_0000_0000_0000 then n - 0x1_0000_0000_0000_0000 else n
  }

  lemma Int32RoundTrip(i: Int32, b: seq<Byte>)
    ensures Int32Of(Int32Bytes(i)) == i
    ensures |b| == 4 ==> Int32Bytes(Int32Of(b)) == b
  {
    PowersOf256();
    BigEndianRoundTrip(if i < 0 then i + 0x1_0000_0000 else i, 4);
    FromBigEndianRoundTrip(b);
  }

  lemma Int64RoundTrip(i: Int64, b: seq<Byte>)
    ensures Int64Of(Int64Bytes(i)) == i
    ensures |b| == 8 ==> Int64Bytes(Int64Of(b)) == b
  {
    PowersOf256();
    BigEndianRoundTrip(if i < 0 then i + 0x1_0000_0000_0000_0000 else i, 8);
    FromBigEndianRoundTrip(b);
  }
}
