/** Rows as bytes: encoding a list of column values, and decoding it again. */
module Tuple {
  import opened Wrappers
  import opened Keys
  import opened BigEndian
  import opened Rows
  import A = Ast

  type DataType = A.DataType

  datatype TupleError =
    | ValueCountMismatch | TypeMismatch | VarcharTooLong
    | InvalidNullMarker | InvalidBoolean | InvalidUtf8 | TruncatedRow | TrailingBytes

  // ---------- one value ----------

  function EncodeValue(v: Value, t: DataType): Result<seq<Byte>, TupleError> {
    if v.None? then Ok([0])
    else
      match (v.value, t)
      case (Int(i), IntType) => Ok([1] + Int32Bytes(i))
      case (BigInt(b), BigIntType) => Ok([1] + Int64Bytes(b))
      case (Boolean(x), BooleanType) => Ok([1, if x then 1 else 0])
      case (Varchar(s), VarcharType) => if |s| > 0xFFFF then Err(VarcharTooLong) else Ok([1] + ToBigEndian(|s|, 2) + s)
      case _ => Err(TypeMismatch)
  }

  /** `n` bytes from a position on, if there are as many. */
  function Take(bytes: seq<Byte>, cursor: nat, n: nat): (r: Result<seq<Byte>, TupleError>)
    ensures r.Ok? ==> |r.value| == n && cursor + n <= |bytes|
  {
    if cursor + n > |bytes| then Err(TruncatedRow) else Ok(bytes[cursor..cursor + n])
  }

  /** The value at a position, and the position after it. */
  function DecodeValue(utf8: Utf8, bytes: seq<Byte>, cursor: nat, t: DataType): (r: Result<(Value, nat), TupleError>)
    ensures r.Ok? ==> cursor < r.value.1 <= |bytes|
  {
    var marker := Take(bytes, cursor, 1);
    if marker.Err? then Err(marker.error)
    else if marker.value[0] == 0 then Ok((None, cursor + 1))
    else if marker.value[0] != 1 then Err(InvalidNullMarker)
    else
      match t
      case IntType =>
        var b := Take(bytes, cursor + 1, 4);
        if b.Err? then Err(b.error) else Ok((Some(Int(Int32Of(b.value))), cursor + 5))
      case BigIntType =>
        var b := Take(bytes, cursor + 1, 8);
        if b.Err? then Err(b.error) else Ok((Some(BigInt(Int64Of(b.value))), cursor + 9))
      case BooleanType =>
        var b := Take(bytes, cursor + 1, 1);
        if b.Err? then Err(b.error)
        else if b.value[0] == 1 then Ok((Some(Boolean(true)), cursor + 2))
        else if b.value[0] == 0 then Ok((Some(Boolean(false)), cursor + 2))
        else Err(InvalidBoolean)
      case VarcharType =>
        var n := Take(bytes, cursor + 1, 2);
        if n.Err? then Err(n.error)
        else
          var s := Take(bytes, cursor + 3, FromBigEndian(n.value));
          if s.Err? then Err(s.error)
          else if !utf8(s.value) then Err(InvalidUtf8)
          else Ok((Some(Varchar(s.value)), cursor + 3 + |s.value|))
      case NullType => Err(TypeMismatch)
  }

  /** Strings among values are valid UTF-8. */
  ghost predicate Valid(utf8: Utf8, v: Value) {
    v.Some? && v.value.Varchar? ==> utf8(v.value.s)
  }

  lemma TakeMiddle(before: seq<Byte>, b: seq<Byte>, after: seq<Byte>)
    ensures Take(before + b + after, |before|, |b|) == Ok(b)
  {
  }

  /** What was encoded is decoded, wherever it stands. */
  lemma DecodeEncoded(utf8: Utf8, before: seq<Byte>, v: Value, t: DataType, after: seq<Byte>)
    requires EncodeValue(v, t).Ok? && Valid(utf8, v)
    ensures DecodeValue(utf8, before + EncodeValue(v, t).value + after, |before|, t)
            == Ok((v, |before| + |EncodeValue(v, t).value|))
  {
    var b := EncodeValue(v, t).value;
    var bytes := before + b + after;
    assert bytes[|before|] == b[0];
    if v.Some? {
      match v.value
      case Int(i) =>
        Int32RoundTrip(i, []);
        assert bytes == (before + [1]) + Int32Bytes(i) + after;
        TakeMiddle(before + [1], Int32Bytes(i), after);
      case BigInt(i) =>
        Int64RoundTrip(i, []);
        assert bytes == (before + [1]) + Int64Bytes(i) + after;
        TakeMiddle(before + [1], Int64Bytes(i), after);
      case Boolean(x) =>
        assert bytes[|before| + 1] == b[1];
      case Varchar(s) =>
        DecodeEncodedString(before, s, after);
    }
  }

  lemma DecodeEncodedString(before: seq<Byte>, s: seq<Byte>, after: seq<Byte>)
    requires |s| <= 0xFFFF
    ensures var bytes := before + ([1] + ToBigEndian(|s|, 2) + s) + after;
            && Take(bytes, |before| + 1, 2) == Ok(ToBigEndian(|s|, 2)) && FromBigEndian(ToBigEndian(|s|, 2)) == |s|
            && Take(bytes, |before| + 3, |s|) == Ok(s)
  {
    PowersOf256();
    BigEndianRoundTrip(|s|, 2);
    StringAt(before, ToBigEndian(|s|, 2), s, after);
  }

  lemma StringAt(before: seq<Byte>, l: seq<Byte>, s: seq<Byte>, after: seq<Byte>)
    requires |l| == 2
    ensures var bytes := before + ([1] + l + s) + after;
            Take(bytes, |before| + 1, 2) == Ok(l) && Take(bytes, |before| + 3, |s|) == Ok(s)
  {
    var bytes := before + ([1] + l + s) + after;
    var head := before + [1];
    assert bytes == head + l + (s + after);
    TakeMiddle(head, l, s + after);
    assert bytes == (head + l) + s + after;
    TakeMiddle(head + l, s, after);
  }

  /** What is decoded encodes to the bytes it was read from. */
  lemma EncodeDecoded(utf8: Utf8, bytes: seq<Byte>, cursor: nat, t: DataType)
    requires DecodeValue(utf8, bytes, cursor, t).Ok?
    ensures var (v, end) := DecodeValue(utf8, bytes, cursor, t).value;
            EncodeValue(v, t) == Ok(bytes[cursor..end]) && Valid(utf8, v)
  {
    var (v, end) := DecodeValue(utf8, bytes, cursor, t).value;
    if v.None? {
      assert bytes[cursor..end] == [0];
    } else {
      match v.value
      case Int(i) =>
        Int32RoundTrip(0, bytes[cursor + 1..cursor + 5]);
        assert bytes[cursor..end] == [1] + bytes[cursor + 1..cursor + 5];
      case BigInt(i) =>
        Int64RoundTrip(0, bytes[cursor + 1..cursor + 9]);
        assert bytes[cursor..end] == [1] + bytes[cursor + 1..cursor + 9];
      case Boolean(x) =>
        assert bytes[cursor..end] == [1, if x then 1 else 0];
      case Varchar(s) =>
        PowersOf256();
        FromBigEndianRoundTrip(bytes[cursor + 1..cursor + 3]);
        assert bytes[cursor..end] == [1] + bytes[cursor + 1..cursor + 3] + bytes[cursor + 3..end];
    }
  }

  // ---------- rows ----------

  /** Values one after the other. */
  function EncodeValues(values: seq<Value>, types: seq<DataType>): Result<seq<Byte>, TupleError>
    requires |values| == |types|
  {
    if values == [] then Ok([])
    else
      var first := EncodeValue(values[0], types[0]);
      if first.Err? then first
      else
        var rest := EncodeValues(values[1..], types[1..]);
        if rest.Err? then rest else Ok(first.value + rest.value)
  }

  function DecodeValues(utf8: Utf8, bytes: seq<Byte>, cursor: nat, types: seq<DataType>): Result<seq<Value>, TupleError>
    requires cursor <= |bytes|
    decreases |types|
  {
    if types == [] then (if cursor == |bytes| then Ok([]) else Err(TrailingBytes))
    else
      var first := DecodeValue(utf8, bytes, cursor, types[0]);
      if first.Err? then Err(first.error)
      else
        var rest := DecodeValues(utf8, bytes, first.value.1, types[1..]);
        if rest.Err? then rest else Ok([first.value.0] + rest.value)
  }

  lemma Regroup<T>(a: seq<T>, b: seq<T>, c: seq<T>)
    ensures a + (b + c) == (a + b) + c
  {
  }

  lemma {:induction false} DecodeEncodedValues(utf8: Utf8, before: seq<Byte>, values: seq<Value>, types: seq<DataType>)
    requires |values| == |types| && EncodeValues(values, types).Ok?
             && forall i :: 0 <= i < |values| ==> Valid(utf8, values[i])
    ensures DecodeValues(utf8, before + EncodeValues(values, types).value, |before|, types) == Ok(values)
    decreases |values|
  {
    hide EncodeValue, DecodeValue;
    if values == [] {
      assert before + [] == before;
    } else {
      var first := EncodeValue(values[0], types[0]).value;
      var rest := EncodeValues(values[1..], types[1..]).value;
      DecodeEncoded(utf8, before, values[0], types[0], rest);
      Regroup(before, first, rest);
      DecodeEncodedValues(utf8, before + first, values[1..], types[1..]);
      assert [values[0]] + values[1..] == values;
    }
  }

  lemma SplitBytes(bytes: seq<Byte>, cursor: nat, end: nat)
    requires cursor <= end <= |bytes|
    ensures bytes[cursor..] == bytes[cursor..end] + bytes[end..]
  {
  }

  lemma {:induction false} EncodeDecodedValues(utf8: Utf8, bytes: seq<Byte>, cursor: nat, types: seq<DataType>)
    requires cursor <= |bytes| && DecodeValues(utf8, bytes, cursor, types).Ok?
    ensures |DecodeValues(utf8, bytes, cursor, types).value| == |types|
    ensures EncodeValues(DecodeValues(utf8, bytes, cursor, types).value, types) == Ok(bytes[cursor..])
    ensures forall i :: 0 <= i < |types| ==> Valid(utf8, DecodeValues(utf8, bytes, cursor, types).value[i])
    decreases |types|
  {
    if types == [] {
      assert bytes[cursor..] == [];
    } else {
      var (v, end) := DecodeValue(utf8, bytes, cursor, types[0]).value;
      EncodeDecoded(utf8, bytes, cursor, types[0]);
      EncodeDecodedValues(utf8, bytes, end, types[1..]);
      var values := DecodeValues(utf8, bytes, cursor, types).value;
      assert values[1..] == DecodeValues(utf8, bytes, end, types[1..]).value;
      SplitBytes(bytes, cursor, end);
    }
  }

  // ---------- what is encodable ----------

  predicate TooLong(v: Value) {
    v.Some? && v.value.Varchar? && |v.value.s| > 0xFFFF
  }

  predicate Fits(v: Value, t: DataType) {
    HasType(v, t) && !TooLong(v)
  }

  lemma {:induction false} EncodesExactly(values: seq<Value>, types: seq<DataType>)
    requires |values| == |types|
    ensures EncodeValues(values, types).Ok? <==> forall i :: 0 <= i < |values| ==> Fits(values[i], types[i])
    decreases |values|
  {
    if values == [] {
    } else {
      EncodesExactly(values[1..], types[1..]);
      assert forall i :: 0 < i < |values| ==> values[i] == values[1..][i - 1] && types[i] == types[1..][i - 1];
      if EncodeValues(values[1..], types[1..]).Ok? {
        forall i | 0 < i < |values| ensures Fits(values[i], types[i]) {
          assert Fits(values[1..][i - 1], types[1..][i - 1]);
        }
      } else {
        var i :| 0 <= i < |values| - 1 && !Fits(values[1..][i], types[1..][i]);
        assert !Fits(values[i + 1], types[i + 1]);
      }
    }
  }

  /** Values of the right types fail for one reason only. */
  lemma {:induction false} TypedError(values: seq<Value>, types: seq<DataType>)
    requires |values| == |types| && forall i :: 0 <= i < |values| ==> HasType(values[i], types[i])
    ensures EncodeValues(values, types).Err? ==> EncodeValues(values, types) == Err(VarcharTooLong)
  {
    if values != [] {
      TypedError(values[1..], types[1..]);
    }
  }

  // ---------- the codec ----------

  /** A result with a prefix. */
  ghost function Then<T>(done: seq<T>, rest: Result<seq<T>, TupleError>): Result<seq<T>, TupleError> {
    if rest.Err? then rest else Ok(done + rest.value)
  }

  lemma ThenThen<T>(a: seq<T>, b: seq<T>, rest: Result<seq<T>, TupleError>)
    ensures Then(a, Then(b, rest)) == Then(a + b, rest)
    ensures Then([], rest) == rest && Then(a, Ok([])) == Ok(a)
  {
    if rest.Ok? {
      Regroup(a, b, rest.value);
      assert [] + rest.value == rest.value;
    }
    assert a + [] == a;
  }

  lemma EncodeNext(values: seq<Value>, types: seq<DataType>, i: nat)
    requires |values| == |types| && i < |values|
    ensures var first := EncodeValue(values[i], types[i]);
            EncodeValues(values[i..], types[i..])
            == if first.Err? then first else Then(first.value, EncodeValues(values[i + 1..], types[i + 1..]))
  {
    assert values[i..][1..] == values[i + 1..] && types[i..][1..] == types[i + 1..];
  }

  method Encode(values: seq<Value>, types: seq<DataType>) returns (r: Result<seq<Byte>, TupleError>)
    ensures r == if |values| != |types| then Err(ValueCountMismatch) else EncodeValues(values, types)
  {
    if |values| != |types| {
      return Err(ValueCountMismatch);
    }
    hide EncodeValue, Then;
    var bytes := [];
    ThenThen<Byte>([], [], EncodeValues(values, types));
    assert values[0..] == values && types[0..] == types;
    var i := 0;
    while i < |values|
      invariant 0 <= i <= |values|
      invariant EncodeValues(values, types) == Then(bytes, EncodeValues(values[i..], types[i..]))
    {
      EncodeNext(values, types, i);
      var b := EncodeValue(values[i], types[i]);
      if b.Err? {
        ThenError(bytes, b);
        return b;
      }
      ThenThen(bytes, b.value, EncodeValues(values[i + 1..], types[i + 1..]));
      bytes := bytes + b.value;
      i := i + 1;
    }
    ThenThen<Byte>(bytes, [], Ok([]));
    return Ok(bytes);
  }

  lemma ThenError<T>(a: seq<T>, e: Result<seq<T>, TupleError>)
    requires e.Err?
    ensures Then(a, e) == e
  {
  }

  lemma DecodeNext(utf8: Utf8, bytes: seq<Byte>, cursor: nat, types: seq<DataType>, i: nat)
    requires cursor <= |bytes| && i < |types|
    ensures var first := DecodeValue(utf8, bytes, cursor, types[i]);
            DecodeValues(utf8, bytes, cursor, types[i..])
            == if first.Err? then Err(first.error)
               else Then([first.value.0], DecodeValues(utf8, bytes, first.value.1, types[i + 1..]))
  {
    assert types[i..][1..] == types[i + 1..];
  }

  method Decode(utf8: Utf8, bytes: seq<Byte>, types: seq<DataType>) returns (r: Result<seq<Value>, TupleError>)
    ensures r == DecodeValues(utf8, bytes, 0, types)
  {
    hide DecodeValue, Then;
    var cursor, values := 0, [];
    ThenThen<Value>([], [], DecodeValues(utf8, bytes, 0, types));
    assert types[0..] == types;
    var i := 0;
    while i < |types|
      invariant 0 <= i <= |types| && 0 <= cursor <= |bytes|
      invariant DecodeValues(utf8, bytes, 0, types) == Then(values, DecodeValues(utf8, bytes, cursor, types[i..]))
    {
      DecodeNext(utf8, bytes, cursor, types, i);
      var next := DecodeValue(utf8, bytes, cursor, types[i]);
      if next.Err? {
        ThenError<Value>(values, Err(next.error));
        return Err(next.error);
      }
      ThenThen(values, [next.value.0], DecodeValues(utf8, bytes, next.value.1, types[i + 1..]));
      values, cursor := values + [next.value.0], next.value.1;
      i := i + 1;
    }
    if cursor != |bytes| {
      ThenError<Value>(values, Err(TrailingBytes));
      return Err(TrailingBytes);
    }
    ThenThen<Value>(values, [], Ok([]));
    return Ok(values);
  }

  /** Encoding is a bijection between the value lists that fit the columns and
      the rows that decode. */
  lemma EncodingIsBijective(utf8: Utf8, values: seq<Value>, types: seq<DataType>, bytes: seq<Byte>)
    requires |values| == |types| && forall i :: 0 <= i < |values| ==> Valid(utf8, values[i])
    ensures EncodeValues(values, types) == Ok(bytes) <==> DecodeValues(utf8, bytes, 0, types) == Ok(values)
  {
    if EncodeValues(values, types) == Ok(bytes) {
      DecodeEncodedValues(utf8, [], values, types);
      assert [] + bytes == bytes;
    }
    if DecodeValues(utf8, bytes, 0, types) == Ok(values) {
      EncodeDecodedValues(utf8, bytes, 0, types);
      assert bytes[0..] == bytes;
    }
  }
}
