// The two index formats of sparse tensors and their checks (onnx_lib/checker.cc): linear indices, and one row of
// coordinates per value. Arithmetic is on int64, so verifying the loops also shows that nothing overflows.

module SparseIndices {
  import opened Basics

  newtype int64 = x: int | -0x8000_0000_0000_0000 <= x < 0x8000_0000_0000_0000

  const INT64_MAX: int := 0x7fff_ffff_ffff_ffff

  // ----- dense sizes, linear indices and lexicographic order -----

  ghost function Product(dims: seq<int64>): int {
    if dims == [] then 1 else Product(dims[..|dims| - 1]) * dims[|dims| - 1] as int
  }

  ghost predicate Positive(dims: seq<int64>) {
    forall j | 0 <= j < |dims| :: dims[j] > 0
  }

  ghost predicate InBox(row: seq<int64>, dims: seq<int64>) {
    |row| == |dims| && forall j | 0 <= j < |dims| :: 0 <= row[j] < dims[j]
  }

  // Row-major linear index of a row of as many coordinates as dimensions.
  ghost function Linear(row: seq<int64>, dims: seq<int64>): int {
    if row == [] || |row| != |dims| then 0
    else
      var n := |row| - 1;
      Linear(row[..n], dims[..n]) * dims[n] as int + row[n] as int
  }

  // The first coordinate in which the rows differ is smaller in `a`.
  ghost predicate LexLess(a: seq<int64>, b: seq<int64>) {
    |a| == |b| && exists k | 0 <= k < |a| :: a[..k] == b[..k] && a[k] < b[k]
  }

  lemma {:induction false} ProductPositive(dims: seq<int64>)
    requires Positive(dims)
    ensures Product(dims) >= 1
  {
    if dims != [] {
      ProductPositive(dims[..|dims| - 1]);
      MulAtLeast(Product(dims[..|dims| - 1]), dims[|dims| - 1] as int);
    }
  }

  lemma {:induction false} MulAtLeast(a: int, b: int)
    requires a >= 1 && b >= 1
    ensures a * b >= a && a * b >= b
  {
    assert (a - 1) * (b - 1) >= 0;
  }

  // A prefix of the dimensions has no larger product.
  lemma {:induction false} PrefixProduct(dims: seq<int64>, n: nat)
    requires Positive(dims) && n <= |dims|
    ensures 1 <= Product(dims[..n]) <= Product(dims)
  {
    ProductPositive(dims[..n]);
    if n < |dims| {
      var m := |dims| - 1;
      assert dims[..m][..n] == dims[..n];
      PrefixProduct(dims[..m], n);
      MulAtLeast(Product(dims[..m]), dims[m] as int);
    } else {
      assert dims[..n] == dims;
    }
  }

  lemma {:induction false} MulGap(a: int, b: int, d: int)
    requires a < b && d > 0
    ensures a * d + d <= b * d
  {
    var gap := b - a - 1;
    assert gap * d >= 0;
    assert b * d == (a + gap + 1) * d == a * d + gap * d + d;
  }

  lemma {:induction false} MulNonNegative(a: int, d: int)
    requires a >= 0 && d >= 0
    ensures a * d >= 0
  {
  }

  // a * d + x lies in [0, p * d) for a in [0, p) and x in [0, d).
  lemma {:induction false} HornerBound(a: int, p: int, x: int, d: int)
    requires 0 <= a < p && 0 <= x < d
    ensures 0 <= a * d <= a * d + x < p * d
  {
    MulNonNegative(a, d);
    MulGap(a, p, d);
  }

  lemma {:induction false} LinearBound(row: seq<int64>, dims: seq<int64>)
    requires InBox(row, dims)
    ensures 0 <= Linear(row, dims) < Product(dims)
  {
    if row != [] {
      var n := |row| - 1;
      LinearBound(row[..n], dims[..n]);
      HornerBound(Linear(row[..n], dims[..n]), Product(dims[..n]), row[n] as int, dims[n] as int);
    }
  }

  // Comparing two digits-and-remainder numbers.
  lemma {:induction false} HornerOrder(a: int, x: int, b: int, y: int, d: int)
    requires 0 <= x < d && 0 <= y < d
    ensures a * d + x < b * d + y <==> a < b || (a == b && x < y)
  {
    if a < b {
      MulGap(a, b, d);
    } else if a > b {
      MulGap(b, a, d);
    }
  }

  // Linear indices tell rows apart, and order them lexicographically.
  lemma {:induction false} LinearOrder(a: seq<int64>, b: seq<int64>, dims: seq<int64>)
    requires InBox(a, dims) && InBox(b, dims)
    ensures Linear(a, dims) < Linear(b, dims) <==> LexLess(a, b)
    ensures Linear(a, dims) == Linear(b, dims) <==> a == b
  {
    if a != [] {
      var n := |a| - 1;
      var fa, fb, fd := a[..n], b[..n], dims[..n];
      LinearOrder(fa, fb, fd);
      HornerOrder(Linear(fa, fd), a[n] as int, Linear(fb, fd), b[n] as int, dims[n] as int);
      HornerOrder(Linear(fb, fd), b[n] as int, Linear(fa, fd), a[n] as int, dims[n] as int);
      LexLessSplit(a, b);
      assert a == fa + [a[n]] && b == fb + [b[n]];
    }
  }

  lemma {:induction false} LexLessSplit(a: seq<int64>, b: seq<int64>)
    requires |a| == |b| > 0
    ensures var n := |a| - 1; LexLess(a, b) <==> LexLess(a[..n], b[..n]) || (a[..n] == b[..n] && a[n] < b[n])
  {
    var n := |a| - 1;
    if LexLess(a, b) {
      var k :| 0 <= k < |a| && a[..k] == b[..k] && a[k] < b[k];
      if k < n {
        assert a[..n][..k] == a[..k] && b[..n][..k] == b[..k];
        assert a[..n][k] < b[..n][k];
      }
    }
    if LexLess(a[..n], b[..n]) {
      var k :| 0 <= k < n && a[..n][..k] == b[..n][..k] && a[..n][k] < b[..n][k];
      assert a[..n][..k] == a[..k] && b[..n][..k] == b[..k];
    }
  }

  // ----- what the two checks demand -----

  // Strictly ascending linear indices below `size`.
  ghost predicate Ascending(ix: seq<int>, size: int) {
    && (forall i | 0 <= i < |ix| :: 0 <= ix[i] < size)
    && (forall i, j | 0 <= i < j < |ix| :: ix[i] < ix[j])
  }

  // Row `i` of a matrix of `rank` columns, stored row by row.
  ghost function Row(data: seq<int64>, rank: nat, i: nat): seq<int64> {
    if 0 <= i * rank <= i * rank + rank <= |data| then data[i * rank..i * rank + rank] else []
  }

  ghost function Rows(data: seq<int64>, rank: nat, n: nat): (r: seq<seq<int64>>)
    ensures |r| == n && forall i | 0 <= i < n :: r[i] == Row(data, rank, i)
  {
    seq(n, i requires 0 <= i < n => Row(data, rank, i))
  }

  lemma {:induction false} RowInside(i: nat, n: nat, rank: nat)
    requires i < n
    ensures 0 <= i * rank && i * rank + rank <= n * rank
  {
    var gap := n - 1 - i;
    assert gap * rank >= 0;
    assert n * rank == (i + gap + 1) * rank == i * rank + gap * rank + rank;
  }

  lemma {:induction false} RowIs(data: seq<int64>, rank: nat, n: nat, i: nat, start: int)
    requires i < n && n * rank <= |data| && start == i * rank
    ensures 0 <= start && start + rank <= |data| && Row(data, rank, i) == data[start..start + rank]
  {
    RowInside(i, n, rank);
  }

  // Strictly ascending rows of coordinates, in lexicographic order.
  ghost predicate RowsAscending(rows: seq<seq<int64>>, dims: seq<int64>) {
    && (forall i | 0 <= i < |rows| :: InBox(rows[i], dims))
    && (forall i, j | 0 <= i < j < |rows| :: LexLess(rows[i], rows[j]))
  }

  ghost function Linearised(rows: seq<seq<int64>>, dims: seq<int64>): (ix: seq<int>)
    ensures |ix| == |rows| && forall i | 0 <= i < |ix| :: ix[i] == Linear(rows[i], dims)
  {
    seq(|rows|, i requires 0 <= i < |rows| => Linear(rows[i], dims))
  }

  // The formats agree: rows in the box are accepted exactly when their linear indices are.
  lemma {:induction false} FormatsAgree(rows: seq<seq<int64>>, dims: seq<int64>)
    requires forall i | 0 <= i < |rows| :: InBox(rows[i], dims)
    ensures RowsAscending(rows, dims) <==> Ascending(Linearised(rows, dims), Product(dims))
  {
    var ix := Linearised(rows, dims);
    forall i | 0 <= i < |rows| ensures 0 <= ix[i] < Product(dims) {
      LinearBound(rows[i], dims);
    }
    forall i, j | 0 <= i < j < |rows| ensures ix[i] < ix[j] <==> LexLess(rows[i], rows[j]) {
      LinearOrder(rows[i], rows[j], dims);
    }
  }

  // ----- the checks -----

  ghost function AsInts(data: seq<int64>): (r: seq<int>)
    ensures |r| == |data| && forall i | 0 <= i < |r| :: r[i] == data[i] as int
  {
    seq(|data|, i requires 0 <= i < |data| => data[i] as int)
  }

  // How a check of decoded index data ends. `ReadsPastEnd` stands for reading the vector beyond its last element, which
  // the source does when the data is shorter than the shape that was declared for it.
  datatype Verdict = Accepted | Refused | ReadsPastEnd

  // check_sparse_tensor_indices_1, for any amount of decoded data. The dense size fits: the source has no guard.
  method CheckIndices1(data: seq<int64>, length: int64, dims: seq<int64>, nnz: nat) returns (v: Verdict)
    requires length >= 0 && Positive(dims) && Product(dims) <= INT64_MAX
    ensures v.Accepted? <==>
      length as int == nnz && nnz <= |data| && Ascending(AsInts(data[..nnz]), Product(dims))
    ensures v.ReadsPastEnd? <==> length as int == nnz && PastEnd1(data, dims, nnz)
  {
    var denseSize: int64 := 1;
    for i := 0 to |dims|
      invariant denseSize as int == Product(dims[..i])
    {
      assert dims[..i + 1][..i] == dims[..i];
      PrefixProduct(dims, i + 1);
      denseSize := denseSize * dims[i];
    }
    assert dims[..|dims|] == dims;
    if length as int != nnz {
      return Refused;
    }
    ghost var ix := AsInts(data);
    var prevIndex: int64 := -1;
    for i := 0 to nnz
      invariant i <= |data| && Ascending(ix[..i], Product(dims))
      invariant prevIndex as int == if i == 0 then -1 else ix[i - 1]
    {
      if i == |data| {
        assert ix[..i] == ix;
        return ReadsPastEnd;
      }
      var currIndex := data[i];
      assert currIndex as int == ix[i];
      if currIndex < 0 || currIndex >= denseSize || currIndex <= prevIndex {
        NotAscending(data, i, nnz, Product(dims));
        return Refused;
      }
      prevIndex := currIndex;
    }
    assert AsInts(data[..nnz]) == ix[..nnz];
    v := Accepted;
  }

  // All of the data is fine, and there is too little of it.
  ghost predicate PastEnd1(data: seq<int64>, dims: seq<int64>, nnz: nat) {
    |data| < nnz && Ascending(AsInts(data), Product(dims))
  }

  // An index out of range, or not above the one before it, spoils every longer list.
  lemma {:induction false} NotAscending(data: seq<int64>, i: nat, nnz: nat, size: int)
    requires i < |data| && i < nnz
    requires data[i] < 0 || data[i] as int >= size || (i > 0 && data[i] <= data[i - 1])
    ensures !Ascending(AsInts(data), size)
    ensures nnz <= |data| ==> !Ascending(AsInts(data[..nnz]), size)
  {
    var ix := AsInts(data);
    assert ix[i] == data[i] as int && (i > 0 ==> ix[i - 1] == data[i - 1] as int);
    if nnz <= |data| {
      var front := AsInts(data[..nnz]);
      assert front[i] == data[i] as int && (i > 0 ==> front[i - 1] == data[i - 1] as int);
    }
  }

  // Whether `m` stored indices can lead past their end depends on the counts alone: exactly when they are too few for
  // the declared length and not too many to ascend below the dense size.
  lemma {:induction false} CountsDecide(m: nat, dims: seq<int64>, nnz: nat)
    requires Positive(dims) && Product(dims) <= INT64_MAX
    ensures (exists data :: |data| == m && PastEnd1(data, dims, nnz)) <==> m < nnz && m <= Product(dims)
  {
    ProductPositive(dims);
    if m < nnz && m <= Product(dims) {
      var data := seq(m, i requires 0 <= i < m => i as int64);
      assert |data| == m && PastEnd1(data, dims, nnz);
    }
    if data :| |data| == m && PastEnd1(data, dims, nnz) {
      AscendingGrows(AsInts(data), Product(dims));
      if m > 0 {
        assert AsInts(data)[m - 1] >= m - 1;
      }
    }
  }

  // The row that starts at `start`, as far as it is stored, is in range.
  ghost predicate StoredInRange(data: seq<int64>, start: nat, dims: seq<int64>) {
    forall j | 0 <= j < |dims| && start + j < |data| :: 0 <= data[start + j] < dims[j]
  }

  // The inner loop of check_sparse_tensor_indices_2: the linear index of the row that starts at `start`.
  method LinearIndex(data: seq<int64>, start: nat, dims: seq<int64>) returns (v: Verdict, currIndex: int64)
    requires start <= |data|
    requires Positive(dims) && Product(dims) <= INT64_MAX
    ensures v.Accepted? <==> start + |dims| <= |data| && InBox(data[start..start + |dims|], dims)
    ensures v.ReadsPastEnd? <==> start + |dims| > |data| && StoredInRange(data, start, dims)
    ensures v.Accepted? ==> currIndex as int == Linear(data[start..start + |dims|], dims)
  {
    currIndex := 0;
    ghost var stored := data[start..];
    for j := 0 to |dims|
      invariant j <= |stored| && InBox(stored[..j], dims[..j])
      invariant currIndex as int == Linear(stored[..j], dims[..j])
    {
      if start + j == |data| {
        assert stored[..j] == stored;
        return ReadsPastEnd, 0;
      }
      var index := data[start + j];
      assert index == stored[j];
      if index < 0 || index >= dims[j] {
        return Refused, 0;
      }
      assert stored[..j + 1][..j] == stored[..j] && dims[..j + 1][..j] == dims[..j];
      LinearBound(stored[..j], dims[..j]);
      HornerBound(currIndex as int, Product(dims[..j]), index as int, dims[j] as int);
      PrefixProduct(dims, j + 1);
      currIndex := currIndex * dims[j] + index;
    }
    assert stored[..|dims|] == data[start..start + |dims|] && dims[..|dims|] == dims;
    v := Accepted;
  }

  // The whole rows that are stored ascend, the rest of the next row is in range, and there is too little data.
  ghost predicate PastEnd2(data: seq<int64>, dims: seq<int64>, nnz: nat) {
    && dims != [] && |data| < nnz * |dims|
    && RowsAscending(Rows(data, |dims|, |data| / |dims|), dims)
    && StoredInRange(data, |data| / |dims| * |dims|, dims)
  }

  // check_sparse_tensor_indices_2, for any amount of decoded data.
  method CheckIndices2(data: seq<int64>, length: int64, width: int64, dims: seq<int64>, nnz: nat) returns (v: Verdict)
    requires dims != [] && Positive(dims) && Product(dims) <= INT64_MAX
    ensures v.Accepted? <==> length as int == nnz && width as int == |dims| && AllRowsAscend(data, dims, nnz)
    ensures v.ReadsPastEnd? <==> length as int == nnz && width as int == |dims| && PastEnd2(data, dims, nnz)
  {
    if length as int != nnz || width as int != |dims| {
      return Refused;
    }
    var rank := |dims|;
    ghost var rows := WholeRows(data, dims, nnz);
    var prevIndex: int64 := -1;
    for i := 0 to nnz
      invariant i <= |rows| && RowsAscending(rows[..i], dims)
      invariant prevIndex as int == if i == 0 then -1 else Linear(rows[i - 1], dims)
    {
      var start := i * rank;
      RowStart(data, dims, nnz, i);
      var row, currIndex := LinearIndex(data, start, dims);
      if !row.Accepted? {
        RowFails(data, dims, nnz, i, row);
        return row;
      }
      NextRow(rows, i, dims);
      if currIndex <= prevIndex {
        RowsOutOfOrder(data, dims, nnz, i);
        return Refused;
      }
      RowsExtend(rows, i, dims);
      prevIndex := currIndex;
    }
    AllRowsRead(data, dims, nnz);
    v := Accepted;
  }

  // All declared rows are stored, and they ascend.
  ghost predicate AllRowsAscend(data: seq<int64>, dims: seq<int64>, nnz: nat) {
    nnz * |dims| <= |data| && RowsAscending(Rows(data, |dims|, nnz), dims)
  }

  // The declared rows that are stored completely.
  ghost function WholeRows(data: seq<int64>, dims: seq<int64>, nnz: nat): (rows: seq<seq<int64>>)
    requires dims != []
    ensures |rows| <= nnz && |rows| * |dims| <= |data|
    ensures |rows| < nnz <==> nnz * |dims| > |data|
    ensures |rows| < nnz ==> |rows| == |data| / |dims| && |data| < (|rows| + 1) * |dims|
    ensures rows == Rows(data, |dims|, |rows|)
  {
    if nnz * |dims| <= |data| then Rows(data, |dims|, nnz)
    else
      QuotientBelow(|data|, |dims|, nnz);
      Rows(data, |dims|, |data| / |dims|)
  }

  lemma {:induction false} QuotientBelow(size: nat, rank: nat, n: nat)
    requires rank > 0 && n * rank > size
    ensures 0 <= size / rank < n && size / rank * rank <= size < (size / rank + 1) * rank
  {
    var q := size / rank;
    assert q * rank <= size < (q + 1) * rank;
    if q >= n {
      MulGap(n - 1, q, rank);
    }
  }

  lemma {:induction false} RowStart(data: seq<int64>, dims: seq<int64>, nnz: nat, i: nat)
    requires dims != [] && i < nnz && i <= |WholeRows(data, dims, nnz)|
    ensures 0 <= i * |dims| <= |data|
    ensures i < |WholeRows(data, dims, nnz)| <==> i * |dims| + |dims| <= |data|
    ensures i < |WholeRows(data, dims, nnz)| ==>
      WholeRows(data, dims, nnz)[i] == data[i * |dims|..i * |dims| + |dims|]
  {
    var rows := WholeRows(data, dims, nnz);
    MulNonNegative(i, |dims|);
    if i < |rows| {
      RowIs(data, |dims|, |rows|, i, i * |dims|);
    }
  }

  // The linear indices of two rows in range tell whether the second comes after the first.
  lemma {:induction false} NextRow(rows: seq<seq<int64>>, i: nat, dims: seq<int64>)
    requires i < |rows| && RowsAscending(rows[..i], dims) && InBox(rows[i], dims)
    ensures 0 <= Linear(rows[i], dims)
    ensures i > 0 ==> (Linear(rows[i - 1], dims) < Linear(rows[i], dims) <==> LexLess(rows[i - 1], rows[i]))
  {
    LinearBound(rows[i], dims);
    if i > 0 {
      assert rows[..i][i - 1] == rows[i - 1];
      LinearOrder(rows[i - 1], rows[i], dims);
    }
  }

  // Rows out of order spoil both the complete reading and the one that runs out of data.
  lemma {:induction false} RowsOutOfOrder(data: seq<int64>, dims: seq<int64>, nnz: nat, i: nat)
    requires dims != [] && 0 < i < |WholeRows(data, dims, nnz)|
    requires !LexLess(WholeRows(data, dims, nnz)[i - 1], WholeRows(data, dims, nnz)[i])
    ensures !AllRowsAscend(data, dims, nnz) && !PastEnd2(data, dims, nnz)
  {
    assert !RowsAscending(WholeRows(data, dims, nnz), dims);
  }

  // A row that is not accepted decides: out of range inside the data, or in range up to the end of the data.
  lemma {:induction false} RowFails(data: seq<int64>, dims: seq<int64>, nnz: nat, i: nat, row: Verdict)
    requires dims != [] && i < nnz && i <= |WholeRows(data, dims, nnz)| && 0 <= i * |dims| <= |data|
    requires RowsAscending(WholeRows(data, dims, nnz)[..i], dims)
    requires var start := i * |dims|;
      && (row.Accepted? <==> start + |dims| <= |data| && InBox(data[start..start + |dims|], dims))
      && (row.ReadsPastEnd? <==> start + |dims| > |data| && StoredInRange(data, start, dims))
    requires !row.Accepted?
    ensures row.ReadsPastEnd? <==> PastEnd2(data, dims, nnz)
    ensures !AllRowsAscend(data, dims, nnz)
  {
    var rows := WholeRows(data, dims, nnz);
    RowStart(data, dims, nnz, i);
    if i < |rows| {
      assert !InBox(rows[i], dims);
    } else {
      assert rows[..i] == rows;
    }
  }

  lemma {:induction false} AllRowsRead(data: seq<int64>, dims: seq<int64>, nnz: nat)
    requires dims != [] && nnz <= |WholeRows(data, dims, nnz)|
    requires RowsAscending(WholeRows(data, dims, nnz)[..nnz], dims)
    ensures AllRowsAscend(data, dims, nnz) && !PastEnd2(data, dims, nnz)
  {
    assert WholeRows(data, dims, nnz)[..nnz] == WholeRows(data, dims, nnz);
  }

  // Comparing neighbours is enough: lexicographic order is transitive because the order of linear indices is.
  lemma {:induction false} RowsExtend(rows: seq<seq<int64>>, n: nat, dims: seq<int64>)
    requires n < |rows| && RowsAscending(rows[..n], dims) && InBox(rows[n], dims)
    requires n > 0 ==> LexLess(rows[n - 1], rows[n])
    ensures RowsAscending(rows[..n + 1], dims)
  {
    var more := rows[..n + 1];
    forall i, j | 0 <= i < j < |more| ensures LexLess(more[i], more[j]) {
      if j == n && i < n - 1 {
        assert rows[..n][i] == rows[i] && rows[..n][n - 1] == rows[n - 1];
        LinearOrder(rows[i], rows[n - 1], dims);
        LinearOrder(rows[n - 1], rows[n], dims);
        LinearOrder(rows[i], rows[n], dims);
      } else if j < n {
        assert rows[..n][i] == rows[i] && rows[..n][j] == rows[j];
      }
    }
    forall i | 0 <= i < |more| ensures InBox(more[i], dims) {
      if i < n {
        assert rows[..n][i] == rows[i];
      }
    }
  }

  // ----- the dense tensor that an accepted one denotes -----

  // The dense tensor that has `vals[i]` at `ix[i]` and `zero` elsewhere.
  ghost function Scatter<V>(ix: seq<int>, vals: seq<V>, size: nat, zero: V): seq<V>
    requires |ix| == |vals|
  {
    seq(size, k => if exists i :: 0 <= i < |ix| && ix[i] == k then
                     var i :| 0 <= i < |ix| && ix[i] == k; vals[i]
                   else zero)
  }

  ghost function Gather<V>(dense: seq<V>, ix: seq<int>): seq<V>
    requires forall i | 0 <= i < |ix| :: 0 <= ix[i] < |dense|
  {
    seq(|ix|, i requires 0 <= i < |ix| => dense[ix[i]])
  }

  // Gathering undoes scattering, and there are at most as many values as dense positions.
  lemma {:induction false} ScatterThenGather<V>(ix: seq<int>, vals: seq<V>, size: nat, zero: V)
    requires |ix| == |vals| && Ascending(ix, size)
    ensures Gather(Scatter(ix, vals, size, zero), ix) == vals
    ensures forall k | 0 <= k < size && k !in ix :: Scatter(ix, vals, size, zero)[k] == zero
    ensures |ix| <= size
  {
    forall i | 0 <= i < |ix| ensures Scatter(ix, vals, size, zero)[ix[i]] == vals[i] {
      assert forall j | 0 <= j < |ix| && ix[j] == ix[i] :: j == i;
    }
    AscendingGrows(ix, size);
    if ix != [] {
      assert ix[|ix| - 1] >= |ix| - 1;
    }
  }

  lemma {:induction false} AscendingGrows(ix: seq<int>, size: int)
    requires Ascending(ix, size)
    ensures forall i | 0 <= i < |ix| :: ix[i] >= i
  {
    for n := 0 to |ix|
      invariant forall i | 0 <= i < n :: ix[i] >= i
    {
      assert n > 0 ==> ix[n - 1] < ix[n];
    }
  }

  // The ascending list of the positions below `n` that satisfy `p`.
  ghost function Support(n: nat, p: int -> bool): seq<int> {
    if n == 0 then [] else Support(n - 1, p) + if p(n - 1) then [n - 1] else []
  }

  // It is accepted, and it lists exactly the positions that satisfy `p`.
  lemma {:induction false} SupportIsAccepted(n: nat, p: int -> bool)
    ensures Ascending(Support(n, p), n)
    ensures forall k :: k in Support(n, p) <==> 0 <= k < n && p(k)
  {
    if n > 0 {
      SupportIsAccepted(n - 1, p);
    }
  }

  // An accepted index list is determined by its set of positions.
  lemma {:induction false} AcceptedListIsCanonical(ix: seq<int>, n: nat, p: int -> bool)
    requires Ascending(ix, n) && forall k | 0 <= k < n :: k in ix <==> p(k)
    ensures ix == Support(n, p)
  {
    if n == 0 {
      assert ix == [];
    } else if p(n - 1) {
      var m := |ix| - 1;
      var at :| 0 <= at < |ix| && ix[at] == n - 1;
      assert n - 1 <= ix[m] < n;
      forall k | 0 <= k < n - 1 ensures k in ix[..m] <==> p(k) {
        assert ix == ix[..m] + [n - 1];
      }
      AcceptedListIsCanonical(ix[..m], n - 1, p);
    } else {
      forall i | 0 <= i < |ix| ensures ix[i] < n - 1 {
        assert ix[i] in ix;
      }
      AcceptedListIsCanonical(ix, n - 1, p);
    }
  }

  // Every dense tensor has an accepted sparse form, the list of its non-zero positions, and gets back from it.
  lemma {:induction false} DenseRoundTrip<V>(dense: seq<V>, zero: V, nonZero: int -> bool)
    requires forall k | 0 <= k < |dense| :: nonZero(k) <==> dense[k] != zero
    ensures var ix := Support(|dense|, nonZero);
      && Ascending(ix, |dense|)
      && Scatter(ix, Gather(dense, ix), |dense|, zero) == dense
  {
    var ix := Support(|dense|, nonZero);
    SupportIsAccepted(|dense|, nonZero);
    var back := Scatter(ix, Gather(dense, ix), |dense|, zero);
    ScatterThenGather(ix, Gather(dense, ix), |dense|, zero);
    forall k | 0 <= k < |dense| ensures back[k] == dense[k] {
      if k in ix {
        var i :| 0 <= i < |ix| && ix[i] == k;
        assert Gather(back, ix)[i] == Gather(dense, ix)[i];
      }
    }
  }
}
