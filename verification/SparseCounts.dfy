// When too few stored coordinates can be read past their end (onnx_lib/checker.cc): for rows of coordinates as for
// linear indices, the counts alone decide.

module SparseCounts {
  import opened Basics
  import opened SparseIndices

  lemma {:induction false} QuotientBound(i: int, p: int, d: int)
    requires 0 <= i < p * d && d > 0
    ensures 0 <= i / d < p && 0 <= i % d < d && i / d * d + i % d == i
  {
    if i / d >= p {
      MulGap(p - 1, i / d, d);
    }
  }

  // The digits of `i` in the mixed base of the dimensions.
  ghost function Coordinates(i: int, dims: seq<int64>): (row: seq<int64>)
    requires Positive(dims) && 0 <= i < Product(dims)
    ensures |row| == |dims|
    decreases |dims|
  {
    if dims == [] then []
    else
      var n := |dims| - 1;
      QuotientBound(i, Product(dims[..n]), dims[n] as int);
      Coordinates(i / dims[n] as int, dims[..n]) + [(i % dims[n] as int) as int64]
  }

  // They are the row in range with the linear index `i`.
  lemma {:induction false} CoordinatesMeaning(i: int, dims: seq<int64>)
    requires Positive(dims) && 0 <= i < Product(dims)
    ensures InBox(Coordinates(i, dims), dims) && Linear(Coordinates(i, dims), dims) == i
    decreases |dims|
  {
    if dims != [] {
      var n := |dims| - 1;
      var d, row := dims[n] as int, Coordinates(i, dims);
      QuotientBound(i, Product(dims[..n]), d);
      CoordinatesMeaning(i / d, dims[..n]);
      assert row[..n] == Coordinates(i / d, dims[..n]) && row[n] as int == i % d;
    }
  }

  // Coordinate `t` of the data that lists the first `q` rows in order, and zeros after them.
  ghost function CountingAt(t: int, q: nat, dims: seq<int64>): int64
    requires dims != [] && Positive(dims) && 0 <= t && q <= Product(dims)
  {
    if t < q * |dims| then
      QuotientBound(t, q, |dims|);
      Coordinates(t / |dims|, dims)[t % |dims|]
    else 0
  }

  ghost function Counting(m: nat, dims: seq<int64>): (data: seq<int64>)
    requires dims != [] && Positive(dims) && m / |dims| <= Product(dims)
    ensures |data| == m
  {
    seq(m, t requires 0 <= t => CountingAt(t, m / |dims|, dims))
  }

  lemma {:induction false} PlaceInRow(i: nat, j: nat, rank: nat)
    requires j < rank
    ensures (i * rank + j) / rank == i && (i * rank + j) % rank == j
  {
    var t := i * rank + j;
    MulNonNegative(i, rank);
    assert t / rank * rank + t % rank == t;
    if t / rank < i {
      MulGap(t / rank, i, rank);
    } else if t / rank > i {
      MulGap(i, t / rank, rank);
    }
  }

  lemma {:induction false} CountingRow(m: nat, dims: seq<int64>, i: nat)
    requires dims != [] && Positive(dims) && m / |dims| <= Product(dims) && i < m / |dims|
    ensures Row(Counting(m, dims), |dims|, i) == Coordinates(i, dims)
  {
    var rank, q, data := |dims|, m / |dims|, Counting(m, dims);
    RowIs(data, rank, q, i, i * rank);
    RowInside(i, q, rank);
    forall j | 0 <= j < rank ensures data[i * rank + j] == Coordinates(i, dims)[j] {
      PlaceInRow(i, j, rank);
    }
  }

  lemma {:induction false} CountingRunsOut(m: nat, dims: seq<int64>, nnz: nat)
    requires dims != [] && Positive(dims) && m < nnz * |dims| && m / |dims| <= Product(dims)
    ensures PastEnd2(Counting(m, dims), dims, nnz)
  {
    var rank, q, data := |dims|, m / |dims|, Counting(m, dims);
    var rows := Rows(data, rank, q);
    forall i | 0 <= i < q ensures InBox(rows[i], dims) && Linear(rows[i], dims) == i {
      CountingRow(m, dims, i);
      CoordinatesMeaning(i, dims);
    }
    forall i, j | 0 <= i < j < q ensures LexLess(rows[i], rows[j]) {
      LinearOrder(rows[i], rows[j], dims);
    }
    MulNonNegative(q, rank);
    forall j | 0 <= j < rank && q * rank + j < m ensures 0 <= data[q * rank + j] < dims[j] {
    }
  }

  // `m` stored coordinates can lead past their end exactly when they are too few for the declared rows and their whole
  // rows are not too many to ascend in the dense shape.
  lemma {:induction false} RowCountsDecide(m: nat, dims: seq<int64>, nnz: nat)
    requires Positive(dims)
    ensures (exists data :: |data| == m && PastEnd2(data, dims, nnz)) <==>
      dims != [] && m < nnz * |dims| && m / |dims| <= Product(dims)
  {
    ProductPositive(dims);
    if dims != [] && m < nnz * |dims| && m / |dims| <= Product(dims) {
      CountingRunsOut(m, dims, nnz);
      assert |Counting(m, dims)| == m;
    }
    if data :| |data| == m && PastEnd2(data, dims, nnz) {
      var q := m / |dims|;
      var rows := Rows(data, |dims|, q);
      FormatsAgree(rows, dims);
      AscendingGrows(Linearised(rows, dims), Product(dims));
      if q > 0 {
        assert Linearised(rows, dims)[q - 1] >= q - 1;
      }
    }
  }
}
