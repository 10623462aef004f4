// What check_tensor accepts, in numbers and field by field (onnx_lib/checker.cc).

module TensorAcceptance {
  import opened Basics
  import opened SparseIndices
  import opened TensorStorage

  lemma {:induction false} OnlyFieldExactly(t: Tensor, f: Field)
    ensures OnlyField(t, f) <==>
      && (t.floatData != [] <==> f == FloatData) && (t.int32Data != [] <==> f == Int32Data)
      && (t.stringData != [] <==> f == StringData) && (t.int64Data != [] <==> f == Int64Data)
      && (t.rawData != [] <==> f == RawData) && (t.doubleData != [] <==> f == DoubleData)
      && (t.uint64Data != [] <==> f == Uint64Data)
  {
    assert Size(t, FloatData) == |t.floatData| && Size(t, Int32Data) == |t.int32Data|;
    assert Size(t, StringData) == |t.stringData| && Size(t, Int64Data) == |t.int64Data|;
    assert Size(t, RawData) == |t.rawData| && Size(t, DoubleData) == |t.doubleData|;
    assert Size(t, Uint64Data) == |t.uint64Data|;
  }

  // The entries that `n` elements take in their typed field.
  function EntriesNeeded(d: DataType, n: nat): nat {
    if d in {COMPLEX64, COMPLEX128} then 2 * n
    else if d in {UINT4, INT4, FLOAT4E2M1} then (n + 7) / 8
    else if d in {UINT2, INT2} then (n + 15) / 16
    else n
  }

  // A shape counts exactly when its dimensions are not negative, no product of leading ones leaves int64, and a segment
  // has two bounds in order within the product.
  lemma {:induction false} CountedExactly(t: Tensor)
    ensures Counted(t) <==>
      && (forall i | 0 <= i < |t.dims| :: t.dims[i] >= 0)
      && (forall n | 0 <= n <= |t.dims| :: Product(t.dims[..n]) <= 9223372036854775807)
      && (t.segment.Some? ==>
           && t.segment.value.begin.Some? && t.segment.value.end.Some? && t.segment.value.begin.value >= 0
           && t.segment.value.begin.value <= t.segment.value.end.value
           && t.segment.value.end.value as int <= Product(t.dims))
  {
  }

  // A tensor of which elements are stored in the model.
  ghost predicate Stored(t: Tensor) {
    t.dataType.Some? && Counted(t) && !t.external && Count(t) > 0
  }

  lemma {:induction false} AcceptedByOnlyField(t: Tensor, externalOk: bool, f: Field)
    requires Stored(t) && OnlyField(t, f)
    ensures TensorAccepted(t, externalOk) <==>
      t.dataType.value != UNDEFINED && Holds(t, t.dataType.value, Count(t), f)
  {
    OnlyOneHolds(t, t.dataType.value, Count(t), f);
  }

  lemma {:induction false} RefusedWithoutOnlyField(t: Tensor, externalOk: bool)
    requires Stored(t) && forall f :: !OnlyField(t, f)
    ensures !TensorAccepted(t, externalOk)
  {
    forall f ensures !Holds(t, t.dataType.value, Count(t), f) {
    }
  }

  // ----- raw data -----

  // No bit of the last byte is set above `n` elements of six bits.
  ghost predicate TailClear(raw: seq<bv8>, n: nat) {
    forall k: nat | 6 * n <= k < (6 * n + 7) / 8 * 8 && k / 8 < |raw| :: raw[k / 8] & BitOf(k % 8) == 0
  }

  lemma {:induction false} TailIsPadding(raw: seq<bv8>, n: nat)
    requires 6 * n <= 8 * |raw|
    ensures CeilDiv8(6 * n) <= |raw| && (PaddingClear(raw, n) <==> TailClear(raw, n))
  {
    assert 8 * CeilDiv8(6 * n) == (6 * n + 7) / 8 * 8;
    assert forall k: nat | k < 8 * CeilDiv8(6 * n) :: k / 8 < |raw|;
    assert forall k: nat | k / 8 < |raw| :: BitSet(raw, k) <==> raw[k / 8] & BitOf(k % 8) != 0;
  }

  lemma {:induction false} RawBitsSuffice(t: Tensor, d: DataType, n: nat)
    requires n > 0
    ensures (forall e: nat | e < n :: ElementInside(t, d, RawData, e)) <==> n * FixedBitWidth(d) <= 8 * |t.rawData|
  {
    RawSizeTest(t, d, n);
  }

  lemma {:induction false} HoldsRawExactly(t: Tensor, d: DataType, n: nat)
    requires n > 0 && OnlyField(t, RawData)
    ensures Holds(t, d, n, RawData) <==>
      && d != STRING && n * FixedBitWidth(d) <= 8 * |t.rawData|
      && (d in {FLOAT6E2M3, FLOAT6E3M2} ==> TailClear(t.rawData, n))
  {
    RawBitsSuffice(t, d, n);
    assert IsFloat6(d) <==> d in {FLOAT6E2M3, FLOAT6E3M2};
    if n * FixedBitWidth(d) <= 8 * |t.rawData| && IsFloat6(d) {
      assert FixedBitWidth(d) == 6 && n * 6 == 6 * n;
      TailIsPadding(t.rawData, n);
    }
  }

  // Raw data: not for strings, in no other field, at least as many bits as the elements have, and for the types of six
  // bits nothing set between the last element and the end of its byte.
  lemma {:induction false} RawTensorsExactly(t: Tensor, externalOk: bool)
    requires Stored(t) && t.rawData != []
    ensures TensorAccepted(t, externalOk) <==>
      && t.dataType.value !in {UNDEFINED, STRING}
      && t.floatData == [] && t.int32Data == [] && t.stringData == [] && t.int64Data == [] && t.doubleData == []
      && t.uint64Data == []
      && Count(t) * FixedBitWidth(t.dataType.value) <= 8 * |t.rawData|
      && (t.dataType.value in {FLOAT6E2M3, FLOAT6E3M2} ==> TailClear(t.rawData, Count(t)))
  {
    OnlyFieldExactly(t, RawData);
    if OnlyField(t, RawData) {
      AcceptedByOnlyField(t, externalOk, RawData);
      HoldsRawExactly(t, t.dataType.value, Count(t));
    } else {
      forall f ensures !OnlyField(t, f) {
        OnlyFieldExactly(t, f);
      }
      RefusedWithoutOnlyField(t, externalOk);
    }
  }

  // ----- typed fields -----

  lemma {:induction false} EntriesSuffice(t: Tensor, d: DataType, n: nat)
    requires n > 0
    ensures (forall e: nat | e < n :: ElementInside(t, d, FieldFor(d), e)) <==>
      EntriesNeeded(d, n) <= Size(t, FieldFor(d))
  {
    FieldsExactly(d);
    if PerInt32(d) > 1 {
      PackedSizeTest(t, d, n);
    } else {
      TypedSizeTest(t, d, n);
    }
  }

  lemma {:induction false} HoldsTypedExactly(t: Tensor, d: DataType, n: nat)
    requires n > 0 && OnlyField(t, FieldFor(d)) && d != UNDEFINED
    ensures Holds(t, d, n, FieldFor(d)) <==>
      && EntriesNeeded(d, n) <= Size(t, FieldFor(d))
      && n <= 9223372036854775807 - (PerInt32(d) - 1)
      && (d in {FLOAT6E2M3, FLOAT6E3M2} ==> forall i | 0 <= i < |t.int32Data| :: 0 <= t.int32Data[i] <= 63)
  {
    EntriesSuffice(t, d, n);
    var f, all := FieldFor(d), forall e: nat | e < n :: ElementInside(t, d, FieldFor(d), e);
    assert !f.RawData? && (IsFloat6(d) <==> d in {FLOAT6E2M3, FLOAT6E3M2});
    assert Holds(t, d, n, f) <==> n <= INT64_MAX - (PerInt32(d) - 1) && all && (IsFloat6(d) ==> SixBitValues(t));
  }

  // Other data: in the field of the type alone, with as many entries as the elements take, as long as rounding up does
  // not leave int64, and for the types of six bits with values from 0 to 63.
  lemma {:induction false} TypedTensorsExactly(t: Tensor, externalOk: bool)
    requires Stored(t) && t.rawData == []
    ensures var d, n := t.dataType.value, Count(t);
      TensorAccepted(t, externalOk) <==>
        && d != UNDEFINED && OnlyField(t, FieldFor(d)) && EntriesNeeded(d, n) <= Size(t, FieldFor(d))
        && n <= 9223372036854775807 - (PerInt32(d) - 1)
        && (d in {FLOAT6E2M3, FLOAT6E3M2} ==> forall i | 0 <= i < |t.int32Data| :: 0 <= t.int32Data[i] <= 63)
  {
    var d, n := t.dataType.value, Count(t);
    if OnlyField(t, FieldFor(d)) {
      AcceptedByOnlyField(t, externalOk, FieldFor(d));
      if d != UNDEFINED {
        HoldsTypedExactly(t, d, n);
      }
    } else {
      OnlyFieldExactly(t, RawData);
      forall f ensures !Holds(t, d, n, f) {
      }
    }
  }

  // Without elements, or with the data elsewhere, every field is empty.
  lemma {:induction false} EmptyTensorsExactly(t: Tensor, externalOk: bool)
    requires t.dataType.Some? && t.dataType.value != UNDEFINED && Counted(t) && (t.external || Count(t) == 0)
    ensures TensorAccepted(t, externalOk) <==>
      && t.floatData == [] && t.int32Data == [] && t.stringData == [] && t.int64Data == [] && t.rawData == []
      && t.doubleData == [] && t.uint64Data == [] && (t.external ==> externalOk)
  {
    assert Size(t, FloatData) == |t.floatData| && Size(t, Int32Data) == |t.int32Data|;
    assert Size(t, StringData) == |t.stringData| && Size(t, Int64Data) == |t.int64Data|;
    assert Size(t, RawData) == |t.rawData| && Size(t, DoubleData) == |t.doubleData|;
    assert Size(t, Uint64Data) == |t.uint64Data|;
  }
}
