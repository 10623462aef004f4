// Sparse tensors: check_sparse_tensor on the tensors that hold the values and the indices (onnx_lib/checker.cc), with
// the decoding of the index tensor (onnx_manipulations/tensor_util.h), which does not look at segments or locations.

module SparseStorage {
  import opened Basics
  import opened SparseIndices
  import opened SparseCounts
  import opened TensorStorage

  // ----- decoding -----

  // `rawSet` of a tensor tells whether raw_data is present; it may be present and empty.
  predicate IsRaw(t: Tensor) {
    t.rawSet || t.rawData != []
  }

  // The little-endian integer in the eight bytes from `at`.
  function Word(raw: seq<bv8>, at: nat): int64
    requires at + 8 <= |raw|
  {
    var high := ((raw[at + 7] as int * 256 + raw[at + 6] as int) * 256 + raw[at + 5] as int) * 256 + raw[at + 4] as int;
    var low := ((raw[at + 3] as int * 256 + raw[at + 2] as int) * 256 + raw[at + 1] as int) * 256 + raw[at] as int;
    var word := high * 0x1_0000_0000 + low;
    (if word > INT64_MAX then word - 0x1_0000_0000_0000_0000 else word) as int64
  }

  // The least significant byte comes first, and sums from 2^63 on stand for negative values.
  lemma {:induction false} WordExactly(raw: seq<bv8>, at: nat)
    requires at + 8 <= |raw|
    ensures var sum := raw[at] as int + 0x100 * raw[at + 1] as int + 0x1_0000 * raw[at + 2] as int +
        0x100_0000 * raw[at + 3] as int + 0x1_0000_0000 * raw[at + 4] as int + 0x100_0000_0000 * raw[at + 5] as int +
        0x1_0000_0000_0000 * raw[at + 6] as int + 0x100_0000_0000_0000 * raw[at + 7] as int;
      Word(raw, at) as int == if sum < 0x8000_0000_0000_0000 then sum else sum - 0x1_0000_0000_0000_0000
  {
  }

  // ParseData<int64_t>: the typed field as it is, or as many words of raw data as the shape declares. None where it
  // throws because the raw data is too short.
  ghost function ParseInt64(t: Tensor): Option<seq<int64>> {
    if !IsRaw(t) then Some(t.int64Data)
    else if t.dims == [] then
      if |t.rawData| % 8 != 0 then None
      else Some(seq(|t.rawData| / 8, i requires 0 <= i < |t.rawData| / 8 => Word(t.rawData, 8 * i)))
    else if !(0 <= Product(t.dims) <= |t.rawData| / 8) then None
    else Some(seq(Product(t.dims), i requires 0 <= i < Product(t.dims) => Word(t.rawData, 8 * i)))
  }

  // ParseRawData<int64_t>
  method ParseRawData(t: Tensor) returns (r: Option<seq<int64>>)
    requires IsRaw(t) && t.dims != [] && NonNegative(t.dims) && PrefixesFit(t.dims)
    ensures r == ParseInt64(t)
  {
    var count := SafeDimProduct(t.dims);
    if |t.rawData| / 8 < count.value as int {
      return None;
    }
    var values: seq<int64> := [];
    for i := 0 to count.value as int
      invariant |values| == i && forall j | 0 <= j < i :: values[j] == Word(t.rawData, 8 * j)
    {
      values := values + [Word(t.rawData, 8 * i)];
    }
    assert values == ParseInt64(t).value;
    r := Some(values);
  }

  // ----- the check -----

  datatype SparseTensor = SparseTensor(dims: seq<int64>, values: Tensor, indices: Option<Tensor>)

  ghost predicate IndexShape(x: Tensor, dims: seq<int64>, nnz: nat) {
    && (|x.dims| == 1 || |x.dims| == 2)
    && x.dims[0] as int == nnz && (|x.dims| == 2 ==> x.dims[1] as int == |dims|)
  }

  ghost predicate IndicesAccepted(x: Tensor, dims: seq<int64>, nnz: nat) {
    && IndexShape(x, dims, nnz) && ParseInt64(x).Some?
    && var data := ParseInt64(x).value;
       if |x.dims| == 1 then nnz <= |data| && Ascending(AsInts(data[..nnz]), Product(dims))
       else AllRowsAscend(data, dims, nnz)
  }

  ghost predicate IndicesRunOut(x: Tensor, dims: seq<int64>, nnz: nat) {
    && IndexShape(x, dims, nnz) && ParseInt64(x).Some?
    && var data := ParseInt64(x).value;
       if |x.dims| == 1 then PastEnd1(data, dims, nnz) else PastEnd2(data, dims, nnz)
  }

  // `valuesOk` and `indicesOk` are what the checks of external data against the file system say.
  ghost predicate PartsAccepted(t: SparseTensor, valuesOk: bool, indicesOk: bool) {
    && TensorAccepted(t.values, valuesOk) && |t.values.dims| == 1 && t.dims != [] && Positive(t.dims)
    && (t.indices.Some? ==> TensorAccepted(t.indices.value, indicesOk) && t.indices.value.dataType == Some(INT64))
  }

  ghost function ValueCount(t: SparseTensor): nat
    requires |t.values.dims| == 1 && t.values.dims[0] >= 0
  {
    t.values.dims[0] as nat
  }

  ghost predicate SparseAccepted(t: SparseTensor, valuesOk: bool, indicesOk: bool) {
    && PartsAccepted(t, valuesOk, indicesOk)
    && if t.indices.Some? then IndicesAccepted(t.indices.value, t.dims, ValueCount(t)) else ValueCount(t) == 0
  }

  ghost predicate SparseRunsOut(t: SparseTensor, valuesOk: bool, indicesOk: bool) {
    && PartsAccepted(t, valuesOk, indicesOk)
    && t.indices.Some? && IndicesRunOut(t.indices.value, t.dims, ValueCount(t))
  }

  // check_sparse_tensor, for all tensors that hold values and indices. The dense size must fit: the source multiplies
  // the dimensions without a guard.
  method CheckSparseTensor(t: SparseTensor, valuesOk: bool, indicesOk: bool) returns (v: Verdict)
    requires Addressable(t.values) && (t.indices.Some? ==> Addressable(t.indices.value))
    requires Positive(t.dims) ==> Product(t.dims) <= INT64_MAX
    ensures v.Accepted? <==> SparseAccepted(t, valuesOk, indicesOk)
    ensures v.ReadsPastEnd? <==> SparseRunsOut(t, valuesOk, indicesOk)
  {
    var ok := CheckTensor(t.values, valuesOk);
    if !ok || |t.values.dims| != 1 || |t.dims| == 0 {
      return Refused;
    }
    var nnz := t.values.dims[0] as nat;
    for i := 0 to |t.dims|
      invariant forall j | 0 <= j < i :: t.dims[j] > 0
    {
      if t.dims[i] <= 0 {
        return Refused;
      }
    }
    if t.indices.None? {
      return if nnz == 0 then Accepted else Refused;
    }
    ok := CheckTensor(t.indices.value, indicesOk);
    if !ok || t.indices.value.dataType != Some(INT64) {
      return Refused;
    }
    v := CheckIndexTensor(t.indices.value, t.dims, nnz);
  }

  // The switch on the rank of the indices.
  method CheckIndexTensor(x: Tensor, dims: seq<int64>, nnz: nat) returns (v: Verdict)
    requires Counted(x) && dims != [] && Positive(dims) && Product(dims) <= INT64_MAX
    ensures v.Accepted? <==> IndicesAccepted(x, dims, nnz)
    ensures v.ReadsPastEnd? <==> IndicesRunOut(x, dims, nnz)
  {
    if |x.dims| != 1 && |x.dims| != 2 {
      return Refused;
    }
    var data := Some(x.int64Data);
    if IsRaw(x) {
      data := ParseRawData(x);
    }
    // An exception of the decoding only matters once the lengths have been compared, and refuses the tensor as well.
    if data.None? {
      return Refused;
    }
    if |x.dims| == 1 {
      v := CheckIndices1(data.value, x.dims[0], dims, nnz);
    } else {
      v := CheckIndices2(data.value, x.dims[0], x.dims[1], dims, nnz);
    }
  }

  // ----- when every read is in bounds -----

  // The decoded data covers the declared shape.
  ghost predicate Covered(x: Tensor) {
    ParseInt64(x).Some? ==> |ParseInt64(x).value| >= Product(x.dims)
  }

  lemma {:induction false} SmallProducts(dims: seq<int64>)
    ensures |dims| == 1 ==> Product(dims) == dims[0] as int
    ensures |dims| == 2 ==> Product(dims) == dims[0] as int * dims[1] as int
  {
    if |dims| == 1 {
      assert Product(dims[..0]) == 1;
    } else if |dims| == 2 {
      assert dims[..1][..0] == [] && dims[..1][0] == dims[0];
      assert Product(dims[..1][..0]) == 1;
      assert Product(dims[..1]) == dims[0] as int;
    }
  }

  // Covered indices are never read past their end.
  lemma {:induction false} CoveredNeverRunsOut(x: Tensor, dims: seq<int64>, nnz: nat)
    requires Covered(x)
    ensures !IndicesRunOut(x, dims, nnz)
  {
    SmallProducts(x.dims);
  }

  // An accepted index tensor that is stored whole and in the model covers its shape, so none of its reads is out of
  // bounds.
  lemma {:induction false} WholeTensorsAreCovered(x: Tensor, externalOk: bool)
    requires TensorAccepted(x, externalOk) && x.dataType == Some(INT64) && |x.dims| > 0
    requires !x.external && x.segment.None?
    ensures Covered(x)
  {
    var n := Count(x);
    if ParseInt64(x).Some? && !IsRaw(x) && n > 0 {
      var f :| Holds(x, INT64, n, f);
      assert Size(x, RawData) == 0 && Size(x, f) > 0;
      TypedSizeTest(x, INT64, n);
    }
  }

  // As many elements as are stored could be such that the indices are read past their end.
  ghost predicate CanRunOut(x: Tensor, dims: seq<int64>, nnz: nat) {
    exists data :: |data| == |x.int64Data| && IndicesRunOut(x.(int64Data := data), dims, nnz)
  }

  // Exactly the data that is too short and fine up to its end is read past its end. Whether there is such data depends
  // on the counts alone: too few elements for the declared shape, and no more whole rows than the dense shape has. Raw
  // data is decoded to the declared shape, so it never runs out.
  lemma {:induction false} CountsDecideReads(x: Tensor, dims: seq<int64>, nnz: nat)
    requires IndexShape(x, dims, nnz) && dims != [] && Positive(dims)
    requires |x.dims| == 1 ==> Product(dims) <= INT64_MAX
    ensures CanRunOut(x, dims, nnz) <==>
      var columns, m := if |x.dims| == 1 then 1 else |dims|, |x.int64Data|;
      !IsRaw(x) && m < nnz * columns && m / columns <= Product(dims)
  {
    var m := |x.int64Data|;
    if IsRaw(x) {
      forall data ensures !IndicesRunOut(x.(int64Data := data), dims, nnz) {
        CoveredNeverRunsOut(x.(int64Data := data), dims, nnz);
      }
      return;
    }
    assert forall data :: ParseInt64(x.(int64Data := data)) == Some(data);
    if |x.dims| == 1 {
      CountsDecide(m, dims, nnz);
      assert CanRunOut(x, dims, nnz) <==> exists data :: |data| == m && PastEnd1(data, dims, nnz);
    } else {
      RowCountsDecide(m, dims, nnz);
      assert CanRunOut(x, dims, nnz) <==> exists data :: |data| == m && PastEnd2(data, dims, nnz);
    }
  }

  function Int64Tensor(count: int64, data: seq<int64>): Tensor {
    Tensor(Some(INT64), [count], None, false, [], [], [], data, [], false, [], [])
  }

  // Of three indices, the tensor stores the segment [0, 1) only, and nothing.
  const SEGMENTED := Int64Tensor(3, [0]).(segment := Some(Segment(Some(0), Some(1))))
  const EXTERNAL := Int64Tensor(3, []).(external := true)

  lemma {:induction false} HoldsInt64(t: Tensor, n: nat)
    requires OnlyField(t, Int64Data) && n <= |t.int64Data| && n <= INT64_MAX
    ensures Holds(t, INT64, n, Int64Data)
  {
  }

  // Both are accepted by check_tensor and neither covers its shape: with three values in a dense vector of ten, the
  // check of the indices reads past the end of what was decoded.
  lemma {:induction false} SegmentsAndLocationsRunOut(x: Tensor)
    requires x == SEGMENTED || x == EXTERNAL
    ensures TensorAccepted(x, true) && !Covered(x)
    ensures SparseRunsOut(SparseTensor([10], Int64Tensor(3, [7, 8, 9]), Some(x)), true, true)
  {
    var values := Int64Tensor(3, [7, 8, 9]);
    assert Size(values, Int64Data) == 3;
    HoldsInt64(values, 3);
    assert Count(values) == 3;
    if x == SEGMENTED {
      assert Size(x, Int64Data) == 1;
      HoldsInt64(x, 1);
      assert Count(x) == 1;
    }
    assert ParseInt64(x) == Some(x.int64Data);
    assert Ascending(AsInts(x.int64Data), 10);
  }

  // ----- what an accepted sparse tensor denotes -----

  // The linear indices that an index tensor of rank 1 or 2 stands for.
  ghost function LinearIndices(t: SparseTensor): seq<int> {
    if t.indices.None? || ParseInt64(t.indices.value).None? then []
    else
      var x, data := t.indices.value, ParseInt64(t.indices.value).value;
      if |x.dims| == 1 && 0 <= x.dims[0] as int <= |data| then AsInts(data[..x.dims[0]])
      else if |x.dims| == 2 && x.dims[0] >= 0 then Linearised(Rows(data, |t.dims|, x.dims[0] as nat), t.dims)
      else []
  }

  // Whatever the format, an accepted tensor has as many ascending linear indices as values.
  lemma {:induction false} AcceptedIndicesAscend(t: SparseTensor, valuesOk: bool, indicesOk: bool)
    requires SparseAccepted(t, valuesOk, indicesOk)
    ensures Ascending(LinearIndices(t), Product(t.dims)) && |LinearIndices(t)| == ValueCount(t)
  {
    if t.indices.Some? && |t.indices.value.dims| == 2 {
      FormatsAgree(Rows(ParseInt64(t.indices.value).value, |t.dims|, ValueCount(t)), t.dims);
    }
  }

  ghost predicate RowsInRange(data: seq<int64>, dims: seq<int64>, n: nat) {
    forall i | 0 <= i < n :: InBox(Row(data, |dims|, i), dims)
  }

  // Both formats in one: a sparse tensor is accepted exactly if its values form an accepted list, the dense dimensions
  // are positive, and either there is no value and no index, or accepted int64 indices, one or one row for each value,
  // decode to enough data, stay in range and stand for strictly ascending linear indices.
  lemma {:induction false} SparseTensorsExactly(t: SparseTensor, valuesOk: bool, indicesOk: bool)
    ensures SparseAccepted(t, valuesOk, indicesOk) <==>
      && TensorAccepted(t.values, valuesOk) && |t.values.dims| == 1
      && |t.dims| > 0 && (forall i | 0 <= i < |t.dims| :: t.dims[i] > 0)
      && if t.indices.None? then t.values.dims[0] == 0
         else
           var x, n := t.indices.value, t.values.dims[0] as int;
           && TensorAccepted(x, indicesOk) && x.dataType == Some(INT64) && ParseInt64(x).Some?
           && (|x.dims| == 1 || (|x.dims| == 2 && x.dims[1] as int == |t.dims|)) && x.dims[0] as int == n
           && n * (if |x.dims| == 1 then 1 else |t.dims|) <= |ParseInt64(x).value|
           && (|x.dims| == 2 ==> RowsInRange(ParseInt64(x).value, t.dims, n))
           && Ascending(LinearIndices(t), Product(t.dims))
  {
    if PartsAccepted(t, valuesOk, indicesOk) && t.indices.Some? && ParseInt64(t.indices.value).Some? {
      var x, n := t.indices.value, ValueCount(t);
      if |x.dims| == 2 && x.dims[0] as int == n && RowsInRange(ParseInt64(x).value, t.dims, n) {
        FormatsAgree(Rows(ParseInt64(x).value, |t.dims|, n), t.dims);
      }
    }
  }
}
