// The storage of dense tensors: element counts, byte sizes and the value fields that hold the elements
// (onnx_lib/checker.cc). Counts and sizes are int64, so verifying the members also shows that nothing overflows.

module TensorStorage {
  import opened Basics
  import opened SparseIndices
  import SubByte

  const INT64_MIN: int := -0x8000_0000_0000_0000

  datatype DataType =
    | UNDEFINED | FLOAT | UINT8 | INT8 | UINT16 | INT16 | INT32 | INT64 | STRING | BOOL | FLOAT16 | DOUBLE | UINT32
    | UINT64 | COMPLEX64 | COMPLEX128 | BFLOAT16 | FLOAT8E4M3FN | FLOAT8E4M3FNUZ | FLOAT8E5M2 | FLOAT8E5M2FNUZ
    | UINT4 | INT4 | FLOAT4E2M1 | FLOAT8E8M0 | UINT2 | INT2 | FLOAT6E2M3 | FLOAT6E3M2

  function FixedBitWidth(d: DataType): nat {
    match d
    case UINT2 | INT2 => 2
    case UINT4 | INT4 | FLOAT4E2M1 => 4
    case FLOAT6E2M3 | FLOAT6E3M2 => 6
    case UINT8 | INT8 | BOOL | FLOAT8E4M3FN | FLOAT8E4M3FNUZ | FLOAT8E5M2 | FLOAT8E5M2FNUZ | FLOAT8E8M0 => 8
    case UINT16 | INT16 | FLOAT16 | BFLOAT16 => 16
    case UINT32 | INT32 | FLOAT => 32
    case UINT64 | INT64 | DOUBLE | COMPLEX64 => 64
    case COMPLEX128 => 128
    case UNDEFINED | STRING => 0
  }

  // The widths by type, and the types by width.
  lemma {:induction false} WidthsExactly(d: DataType)
    ensures FixedBitWidth(d) == 0 <==> d in {UNDEFINED, STRING}
    ensures FixedBitWidth(d) == 2 <==> d in {UINT2, INT2}
    ensures FixedBitWidth(d) == 4 <==> d in {UINT4, INT4, FLOAT4E2M1}
    ensures FixedBitWidth(d) == 6 <==> d in {FLOAT6E2M3, FLOAT6E3M2}
    ensures FixedBitWidth(d) == 8 <==>
      d in {UINT8, INT8, BOOL, FLOAT8E4M3FN, FLOAT8E4M3FNUZ, FLOAT8E5M2, FLOAT8E5M2FNUZ, FLOAT8E8M0}
    ensures FixedBitWidth(d) == 16 <==> d in {UINT16, INT16, FLOAT16, BFLOAT16}
    ensures FixedBitWidth(d) == 32 <==> d in {UINT32, INT32, FLOAT}
    ensures FixedBitWidth(d) == 64 <==> d in {UINT64, INT64, DOUBLE, COMPLEX64}
    ensures FixedBitWidth(d) == 128 <==> d == COMPLEX128
  {
  }

  predicate IsFloat6(d: DataType) {
    d.FLOAT6E2M3? || d.FLOAT6E3M2?
  }

  // ----- checked multiplication -----

  predicate IsInt64(x: int) {
    INT64_MIN <= x <= INT64_MAX
  }

  // checked_mul_overflow by the compiler's builtin: None on overflow.
  function CheckedMul(a: int64, b: int64): (r: Option<int64>)
    ensures r.Some? <==> IsInt64(a as int * b as int)
    ensures r.Some? ==> r.value as int == a as int * b as int
  {
    if IsInt64(a as int * b as int) then Some((a as int * b as int) as int64) else None
  }

  // Division of C++, which truncates toward zero.
  function TruncatingDiv(a: int, b: int): int
    requires b != 0
  {
    if a >= 0 then a / b else -(-a / b)
  }

  // The same division on int64, which has no result for the least value by -1.
  function Quotient(a: int64, b: int64): (q: int64)
    requires b != 0 && !(a as int == INT64_MIN && b == -1)
    ensures q as int == TruncatingDiv(a as int, b as int)
  {
    QuotientFits(a as int, b as int);
    TruncatingDiv(a as int, b as int) as int64
  }

  // The quotient of natural numbers is at most the dividend, and below it for a divisor above one.
  lemma {:induction false} QuotientAtMost(n: nat, d: nat)
    requires d > 0
    ensures 0 <= n / d <= n && (n > 0 && d > 1 ==> n / d < n)
  {
    var q := n / d;
    assert 0 <= q && q * d <= n;
    MulMonotone(1, d, q);
    if d > 1 {
      MulMonotone(2, d, q);
    }
  }

  lemma {:induction false} QuotientFits(a: int, b: int)
    requires IsInt64(a) && b != 0 && !(a == INT64_MIN && b == -1)
    ensures IsInt64(TruncatingDiv(a, b))
  {
    var n := if a >= 0 then a else -a;
    if b > 0 {
      QuotientAtMost(n, b);
    } else {
      NegatedQuotient(n, b);
      QuotientAtMost(n, -b);
    }
  }

  // checked_mul_overflow without the builtin: the operands are compared with quotients of the bounds before anything is
  // multiplied. The comparison agrees with the true product; neither a quotient nor the product below it overflows.
  function CheckedMulPortable(a: int64, b: int64): (r: Option<int64>)
    ensures r == CheckedMul(a, b)
  {
    var most: int64, least: int64 := INT64_MAX as int64, INT64_MIN as int64;
    if a == 0 || b == 0 then Some(0)
    else
      QuotientTest(a as int, b as int);
      var overflow :=
        if a > 0 then (if b > 0 then a > Quotient(most, b) else b < Quotient(least, a))
        else (if b > 0 then a < Quotient(least, b) else b < Quotient(most, a));
      if overflow then None else Some(a * b)
  }

  lemma {:induction false} QuotientTest(a: int, b: int)
    requires a != 0 && b != 0
    ensures a > 0 && b > 0 ==> (a > TruncatingDiv(INT64_MAX, b) <==> !IsInt64(a * b))
    ensures a > 0 && b < 0 ==> (b < TruncatingDiv(INT64_MIN, a) <==> !IsInt64(a * b))
    ensures a < 0 && b > 0 ==> (a < TruncatingDiv(INT64_MIN, b) <==> !IsInt64(a * b))
    ensures a < 0 && b < 0 ==> (b < TruncatingDiv(INT64_MAX, a) <==> !IsInt64(a * b))
  {
    if a > 0 && b > 0 {
      QuotientBound(a, b, INT64_MAX);
    } else if a > 0 {
      QuotientBound(-b, a, -INT64_MIN);
      NegatedProduct(b, a);
    } else if b > 0 {
      QuotientBound(-a, b, -INT64_MIN);
      NegatedProduct(a, b);
    } else {
      QuotientBound(-b, -a, INT64_MAX);
      NegatedProduct(b, -a);
      NegatedQuotient(INT64_MAX, a);
    }
  }

  lemma {:induction false} QuotientBound(x: int, y: int, bound: int)
    requires x > 0 && y > 0 && bound >= 0
    ensures x > bound / y <==> x * y > bound
    ensures x * y > 0
  {
    var q := bound / y;
    assert q * y <= bound < (q + 1) * y;
    if x > q {
      MulMonotone(q + 1, x, y);
    } else {
      MulMonotone(x, q, y);
    }
    MulMonotone(1, x, y);
  }

  lemma {:induction false} MulMonotone(x: int, y: int, z: int)
    requires x <= y && z >= 0
    ensures x * z <= y * z && z * x <= z * y
  {
    assert (y - x) * z >= 0;
  }

  lemma {:induction false} NegatedProduct(x: int, y: int)
    ensures -x * y == -(x * y) && -x * -y == x * y && x * y == y * x
  {
  }

  lemma {:induction false} NegatedQuotient(n: int, d: int)
    requires n >= 0 && d < 0
    ensures n / d == -(n / -d)
  {
  }

  // ----- element counts -----

  ghost predicate NonNegative(dims: seq<int64>) {
    forall j | 0 <= j < |dims| :: dims[j] >= 0
  }

  // The product of every prefix fits, which is what the running product needs.
  ghost predicate PrefixesFit(dims: seq<int64>) {
    forall n | 0 <= n <= |dims| :: Product(dims[..n]) <= INT64_MAX
  }

  // safe_dim_product: the exact product or a failure. None on a negative dimension or an overflow.
  method SafeDimProduct(dims: seq<int64>) returns (r: Option<int64>)
    ensures r.Some? <==> NonNegative(dims) && PrefixesFit(dims)
    ensures r.Some? ==> 0 <= r.value as int == Product(dims)
  {
    var result: int64 := 1;
    for i := 0 to |dims|
      invariant 0 <= result as int == Product(dims[..i])
      invariant NonNegative(dims[..i])
      invariant forall n | 0 <= n <= i :: Product(dims[..n]) <= INT64_MAX
    {
      assert dims[..i + 1][..i] == dims[..i];
      if dims[i] < 0 {
        return None;
      }
      var product := CheckedMul(result, dims[i]);
      SignOfProduct(result as int, dims[i] as int);
      if product.None? {
        assert Product(dims[..i + 1]) > INT64_MAX;
        return None;
      }
      result := product.value;
    }
    assert dims[..|dims|] == dims;
    r := Some(result);
  }

  lemma {:induction false} SignOfProduct(a: int, b: int)
    requires a >= 0 && b >= 0
    ensures a * b >= 0
  {
  }

  // What decides is the product of the dimensions before the first zero: dimensions after it never overflow.
  lemma {:induction false} FitsUpToFirstZero(dims: seq<int64>, z: nat)
    requires NonNegative(dims) && z <= |dims| && Positive(dims[..z]) && (z < |dims| ==> dims[z] == 0)
    ensures PrefixesFit(dims) <==> Product(dims[..z]) <= INT64_MAX
  {
    forall n | 0 <= n <= |dims| ensures Product(dims[..n]) <= Product(dims[..z]) {
      if n <= z {
        assert dims[..z][..n] == dims[..n];
        PrefixProduct(dims[..z], n);
      } else {
        ZeroAbsorbs(dims, z, n);
        ProductPositive(dims[..z]);
      }
    }
  }

  lemma {:induction false} ZeroAbsorbs(dims: seq<int64>, z: nat, n: nat)
    requires z < n <= |dims| && dims[z] == 0
    ensures Product(dims[..n]) == 0
  {
    assert dims[..n][..n - 1] == dims[..n - 1];
    if n > z + 1 {
      ZeroAbsorbs(dims, z, n - 1);
    }
  }

  // An empty tensor can therefore be refused because of its shape, and accepted with the same dimensions reordered.
  lemma {:induction false} ZeroDimensionsAreOrderSensitive()
    ensures Product([0x4000_0000_0000_0000, 2, 0]) == 0 && !PrefixesFit([0x4000_0000_0000_0000, 2, 0])
    ensures PrefixesFit([0, 0x4000_0000_0000_0000, 2])
  {
    var d: seq<int64> := [0x4000_0000_0000_0000, 2, 0];
    ZeroAbsorbs(d, 2, 3);
    assert d[..3] == d && d[..2][..1] == d[..1] == [0x4000_0000_0000_0000] && d[..1][..0] == [];
    assert Product(d[..1]) == 0x4000_0000_0000_0000;
    assert Product(d[..2]) == 0x8000_0000_0000_0000;
    var e: seq<int64> := [0, 0x4000_0000_0000_0000, 2];
    assert e[..0] == [];
    FitsUpToFirstZero(e, 0);
  }

  // ----- byte sizes -----

  ghost function CeilDiv8(bits: nat): nat {
    (bits + 7) / 8
  }

  // expected_raw_data_bytes: the ceiling of the bits needed over 8, without ever forming the number of bits. None when
  // the size of a whole-byte type does not fit.
  function ExpectedRawDataBytes(d: DataType, nelem: int64): (r: Option<int64>)
    requires nelem >= 0
    ensures r.Some? <==> CeilDiv8(nelem as int * FixedBitWidth(d)) <= INT64_MAX
    ensures r.Some? ==> r.value as int == CeilDiv8(nelem as int * FixedBitWidth(d))
  {
    var width := FixedBitWidth(d);
    if width == 0 then Some(0)
    else if width == 2 then Some(nelem / 4 + if nelem % 4 != 0 then 1 else 0)
    else if width == 4 then Some(nelem / 2 + if nelem % 2 != 0 then 1 else 0)
    else if width == 6 then
      SixBits(nelem as int);
      Some(nelem / 4 * 3 + (nelem % 4 * 6 + 7) / 8)
    else
      WholeBytes(nelem as int, width);
      CheckedMul(nelem, (width / 8) as int64)
  }

  lemma {:induction false} SixBits(n: nat)
    ensures n / 4 * 3 + (n % 4 * 6 + 7) / 8 == CeilDiv8(n * 6)
  {
    var q, r := n / 4, n % 4;
    assert n * 6 == 24 * q + r * 6;
  }

  lemma {:induction false} WholeBytes(n: nat, width: nat)
    requires width % 8 == 0
    ensures CeilDiv8(n * width) == n * (width / 8)
  {
    var b := width / 8;
    assert n * width == 8 * (n * b);
  }

  // The widths that the command line keeps in a table; for other types it takes the size of the NumPy type.
  function PackedBits(d: DataType): Option<nat> {
    match d
    case INT2 | UINT2 => Some(2)
    case INT4 | UINT4 | FLOAT4E2M1 => Some(4)
    case FLOAT6E2M3 | FLOAT6E3M2 => Some(6)
    case _ => None
  }

  // The size that the command line computes on unbounded integers.
  function DeclaredSize(count: nat, bits: nat): nat {
    (count * bits + 7) / 8
  }

  function CommandLineBits(d: DataType, itemBits: nat): nat {
    if PackedBits(d).Some? then PackedBits(d).value else itemBits
  }

  // The table lists exactly the types that are not whole bytes wide, with the checker's widths.
  lemma {:induction false} TableMatchesWidths(d: DataType)
    ensures PackedBits(d).Some? <==> FixedBitWidth(d) % 8 != 0
    ensures PackedBits(d).Some? ==> PackedBits(d).value == FixedBitWidth(d)
  {
  }

  // The three sizes agree: that of the checker, that of the command line and, but for its minimum of one byte, that of
  // the test wrapper. `itemBits` is the width of the NumPy type.
  lemma {:induction false} SizesAgree(d: DataType, nelem: int64, itemBits: nat)
    requires nelem >= 0 && d != STRING && d != UNDEFINED
    requires PackedBits(d).None? ==> itemBits == FixedBitWidth(d)
    ensures var size := DeclaredSize(nelem as int, CommandLineBits(d, itemBits));
      && ExpectedRawDataBytes(d, nelem) == (if size <= INT64_MAX then Some(size as int64) else None)
      && SubByte.PackedByteCount(nelem as int, CommandLineBits(d, itemBits)) == if nelem == 0 then 1 else size
  {
    TableMatchesWidths(d);
    assert FixedBitWidth(d) > 0;
    assert DeclaredSize(nelem as int, FixedBitWidth(d)) == CeilDiv8(nelem as int * FixedBitWidth(d));
  }

  // ----- value fields -----

  datatype Segment = Segment(begin: Option<int64>, end: Option<int64>)

  datatype Field = FloatData | Int32Data | StringData | Int64Data | RawData | DoubleData | Uint64Data

  // `dataType` is None when the field is missing or holds an unknown code; `rawSet` tells whether raw_data is present,
  // which it may be without holding a byte.
  datatype Tensor = Tensor(
    dataType: Option<DataType>,
    dims: seq<int64>,
    segment: Option<Segment>,
    external: bool,
    floatData: seq<real>,
    int32Data: seq<int>,
    stringData: seq<string>,
    int64Data: seq<int64>,
    rawData: seq<bv8>,
    rawSet: bool,
    doubleData: seq<real>,
    uint64Data: seq<nat>)

  function Size(t: Tensor, f: Field): nat {
    match f
    case FloatData => |t.floatData|
    case Int32Data => |t.int32Data|
    case StringData => |t.stringData|
    case Int64Data => |t.int64Data|
    case RawData => |t.rawData|
    case DoubleData => |t.doubleData|
    case Uint64Data => |t.uint64Data|
  }

  // No container of a 64-bit process is longer.
  ghost predicate Addressable(t: Tensor) {
    forall f :: Size(t, f) <= INT64_MAX
  }

  ghost predicate NoField(t: Tensor) {
    forall f :: Size(t, f) == 0
  }

  ghost predicate OnlyField(t: Tensor, f: Field) {
    forall g :: Size(t, g) > 0 <==> g == f
  }

  // The typed field of a data type.
  function FieldFor(d: DataType): Field {
    match d
    case FLOAT | COMPLEX64 => FloatData
    case DOUBLE | COMPLEX128 => DoubleData
    case INT64 => Int64Data
    case UINT32 | UINT64 => Uint64Data
    case STRING => StringData
    case _ => Int32Data
  }

  // Entries for each element, and elements in each entry.
  function Components(d: DataType): nat {
    if d.COMPLEX64? || d.COMPLEX128? then 2 else 1
  }

  function PerInt32(d: DataType): nat {
    match d
    case UINT4 | INT4 | FLOAT4E2M1 => 8
    case UINT2 | INT2 => 16
    case _ => 1
  }

  // Where the elements of each type are stored when they are not raw, and how many share an entry or take two.
  lemma {:induction false} FieldsExactly(d: DataType)
    ensures FieldFor(d) == FloatData <==> d in {FLOAT, COMPLEX64}
    ensures FieldFor(d) == DoubleData <==> d in {DOUBLE, COMPLEX128}
    ensures FieldFor(d) == Int64Data <==> d == INT64
    ensures FieldFor(d) == Uint64Data <==> d in {UINT32, UINT64}
    ensures FieldFor(d) == StringData <==> d == STRING
    ensures FieldFor(d) != RawData
    ensures Components(d) == if d in {COMPLEX64, COMPLEX128} then 2 else 1
    ensures PerInt32(d) > 1 <==> FixedBitWidth(d) in {2, 4}
    ensures PerInt32(d) > 1 ==> FieldFor(d) == Int32Data && PerInt32(d) * FixedBitWidth(d) == 32
    ensures IsFloat6(d) <==> FixedBitWidth(d) == 6
  {
  }

  // Everything that element `e` occupies lies inside the field: bits of raw data, a part of a packed entry, or whole
  // entries.
  ghost predicate ElementInside(t: Tensor, d: DataType, f: Field, e: nat) {
    if f.RawData? then (e + 1) * FixedBitWidth(d) <= 8 * |t.rawData|
    else if PerInt32(d) > 1 then e / PerInt32(d) < Size(t, f)
    else (e + 1) * Components(d) <= Size(t, f)
  }

  function BitOf(i: nat): bv8
    requires i < 8
  {
    [1, 2, 4, 8, 16, 32, 64, 128][i]
  }

  lemma {:induction false} BitsAreOrdered(i: nat)
    requires i < 8
    ensures BitOf(i) == (1 as bv8) << i
  {
    if i == 0 {
    } else if i == 1 {
    } else if i == 2 {
    } else if i == 3 {
    } else if i == 4 {
    } else if i == 5 {
    } else if i == 6 {
    } else {
      assert i == 7;
    }
  }

  // Bit `k` of raw data, low bits of a byte first.
  function BitSet(raw: seq<bv8>, k: nat): bool
    requires k / 8 < |raw|
  {
    raw[k / 8] & BitOf(k % 8) != 0
  }

  // Nothing is set between the last element and the end of its byte.
  ghost predicate PaddingClear(raw: seq<bv8>, n: nat)
    requires CeilDiv8(6 * n) <= |raw|
  {
    forall k: nat | 6 * n <= k < 8 * CeilDiv8(6 * n) :: !BitSet(raw, k)
  }

  ghost predicate SixBitValues(t: Tensor) {
    forall i | 0 <= i < |t.int32Data| :: 0 <= t.int32Data[i] <= 0x3F
  }

  // `f` alone holds data, it may hold elements of this type, and it holds all `n` of them.
  ghost predicate Holds(t: Tensor, d: DataType, n: nat, f: Field) {
    && OnlyField(t, f)
    && (f.RawData? ==> d != STRING)
    && (!f.RawData? ==> f == FieldFor(d) && n <= INT64_MAX - (PerInt32(d) - 1))
    && (forall e: nat | e < n :: ElementInside(t, d, f, e))
    && (IsFloat6(d) && f.RawData? ==> CeilDiv8(6 * n) <= |t.rawData| && PaddingClear(t.rawData, n))
    && (IsFloat6(d) && !f.RawData? ==> SixBitValues(t))
  }

  ghost predicate SegmentFits(t: Tensor) {
    t.segment.Some? ==>
      var s := t.segment.value;
      s.begin.Some? && s.end.Some? && 0 <= s.begin.value <= s.end.value && s.end.value as int <= Product(t.dims)
  }

  ghost predicate Counted(t: Tensor) {
    NonNegative(t.dims) && PrefixesFit(t.dims) && SegmentFits(t)
  }

  // The elements of the tensor, or of the segment of it that is stored.
  ghost function Count(t: Tensor): (n: nat)
    requires Counted(t)
  {
    ProductNonNegative(t.dims);
    if t.segment.Some? then (t.segment.value.end.value - t.segment.value.begin.value) as int else Product(t.dims)
  }

  lemma {:induction false} ProductNonNegative(dims: seq<int64>)
    requires NonNegative(dims)
    ensures Product(dims) >= 0
  {
    if dims != [] {
      ProductNonNegative(dims[..|dims| - 1]);
      SignOfProduct(Product(dims[..|dims| - 1]), dims[|dims| - 1] as int);
    }
  }

  // What check_tensor accepts. `externalOk` is what the checks of external data against the file system say.
  ghost predicate TensorAccepted(t: Tensor, externalOk: bool) {
    && t.dataType.Some? && t.dataType.value != UNDEFINED
    && Counted(t)
    && if t.external then NoField(t) && externalOk
       else if Count(t) == 0 then NoField(t)
       else exists f :: Holds(t, t.dataType.value, Count(t), f)
  }

  // ----- size tests against the placement of elements -----

  lemma {:induction false} RawSizeTest(t: Tensor, d: DataType, n: nat)
    requires n > 0
    ensures (forall e: nat | e < n :: ElementInside(t, d, RawData, e)) <==>
      CeilDiv8(n * FixedBitWidth(d)) <= |t.rawData|
  {
    var w := FixedBitWidth(d);
    if forall e: nat | e < n :: ElementInside(t, d, RawData, e) {
      assert ElementInside(t, d, RawData, n - 1);
    } else {
      var e: nat :| e < n && !ElementInside(t, d, RawData, e);
      MulMonotone(e + 1, n, w);
    }
  }

  lemma {:induction false} TypedSizeTest(t: Tensor, d: DataType, n: nat)
    requires n > 0 && PerInt32(d) == 1
    ensures (forall e: nat | e < n :: ElementInside(t, d, FieldFor(d), e)) <==>
      n * Components(d) <= Size(t, FieldFor(d))
  {
    if forall e: nat | e < n :: ElementInside(t, d, FieldFor(d), e) {
      assert ElementInside(t, d, FieldFor(d), n - 1);
    } else {
      var e: nat :| e < n && !ElementInside(t, d, FieldFor(d), e);
      MulMonotone(e + 1, n, Components(d));
    }
  }

  lemma {:induction false} PackedSizeTest(t: Tensor, d: DataType, n: nat)
    requires n > 0 && PerInt32(d) > 1
    ensures (forall e: nat | e < n :: ElementInside(t, d, Int32Data, e)) <==>
      (n + PerInt32(d) - 1) / PerInt32(d) <= |t.int32Data|
  {
    if forall e: nat | e < n :: ElementInside(t, d, Int32Data, e) {
      assert ElementInside(t, d, Int32Data, n - 1);
    } else {
      var e: nat :| e < n && !ElementInside(t, d, Int32Data, e);
    }
  }

  lemma {:induction false} MaskCovers(x: bv8)
    ensures x & 0xFC == 0 <==>
      x & 4 == 0 && x & 8 == 0 && x & 16 == 0 && x & 32 == 0 && x & 64 == 0 && x & 128 == 0
    ensures x & 0xF0 == 0 <==> x & 16 == 0 && x & 32 == 0 && x & 64 == 0 && x & 128 == 0
    ensures x & 0xC0 == 0 <==> x & 64 == 0 && x & 128 == 0
  {
  }

  // static_cast<uint8_t>(0xFFU << used_bits), for the values that used_bits takes.
  function UnusedBitsMask(used: nat): bv8 {
    if used == 2 then 0xFC else if used == 4 then 0xF0 else if used == 6 then 0xC0 else 0
  }

  ghost predicate HighBitsClear(x: bv8, used: nat) {
    forall i: nat | used <= i < 8 :: x & BitOf(i) == 0
  }

  lemma {:induction false} MaskTest(x: bv8, used: nat)
    requires used == 2 || used == 4 || used == 6
    ensures x & UnusedBitsMask(used) == 0 <==> HighBitsClear(x, used)
  {
    MaskCovers(x);
    assert BitOf(2) == 4 && BitOf(3) == 8 && BitOf(4) == 16 && BitOf(5) == 32 && BitOf(6) == 64 && BitOf(7) == 128;
  }

  // The bits used of the byte in which `n` elements of six bits end; 0 when they fill it.
  lemma {:induction false} UsedBits(n: nat)
    requires n > 0
    ensures var used, last := n % 4 * 6 % 8, CeilDiv8(6 * n) - 1;
      last >= 0 && (if used == 0 then 6 * n == 8 * last + 8 else 6 * n == 8 * last + used && used in {2, 4, 6})
  {
    SixBits(n);
    var q, r := n / 4, n % 4;
    assert n == 4 * q + r;
    if r == 0 {
      assert CeilDiv8(6 * n) == 3 * q;
    } else if r == 1 {
      assert CeilDiv8(6 * n) == 3 * q + 1;
    } else if r == 2 {
      assert CeilDiv8(6 * n) == 3 * q + 2;
    } else {
      assert r == 3 && CeilDiv8(6 * n) == 3 * q + 3;
    }
  }

  lemma {:induction false} PaddingIsHigh(raw: seq<bv8>, n: nat, last: nat, used: nat)
    requires CeilDiv8(6 * n) == last + 1 <= |raw| && 6 * n == 8 * last + used && used <= 8
    ensures PaddingClear(raw, n) <==> HighBitsClear(raw[last], used)
  {
    if PaddingClear(raw, n) {
      forall i: nat | used <= i < 8 ensures raw[last] & BitOf(i) == 0 {
        assert !BitSet(raw, 8 * last + i);
      }
    }
    if HighBitsClear(raw[last], used) {
      forall k: nat | 6 * n <= k < 8 * CeilDiv8(6 * n) ensures !BitSet(raw, k) {
        assert k / 8 == last && k % 8 == k - 8 * last;
      }
    }
  }

  // The masked test of the last byte looks at exactly the bits between the last element and the end of the byte.
  lemma {:induction false} PaddingTest(raw: seq<bv8>, n: nat)
    requires n > 0 && CeilDiv8(6 * n) <= |raw|
    ensures var used := n % 4 * 6 % 8;
      PaddingClear(raw, n) <==> used == 0 || raw[CeilDiv8(6 * n) - 1] & UnusedBitsMask(used) == 0
  {
    var used, last := n % 4 * 6 % 8, CeilDiv8(6 * n) - 1;
    UsedBits(n);
    PaddingIsHigh(raw, n, last, if used == 0 then 8 else used);
    if used != 0 {
      MaskTest(raw[last], used);
    }
  }

  // ----- the check -----

  function One(b: bool): nat {
    if b then 1 else 0
  }

  // The expansion of check_data_field for the seven fields.
  method CountValueFields(t: Tensor) returns (count: nat)
    ensures count == 0 <==> NoField(t)
    ensures count == 1 <==> exists f :: OnlyField(t, f)
  {
    count := 0;
    ghost var last := FloatData;
    if t.floatData != [] { count := count + 1; last := FloatData; }
    if t.int32Data != [] { count := count + 1; last := Int32Data; }
    if t.stringData != [] { count := count + 1; last := StringData; }
    if t.int64Data != [] { count := count + 1; last := Int64Data; }
    if t.rawData != [] { count := count + 1; last := RawData; }
    if t.doubleData != [] { count := count + 1; last := DoubleData; }
    if t.uint64Data != [] { count := count + 1; last := Uint64Data; }
    CountMeaning(t, last);
  }

  function Total(t: Tensor): nat {
    One(t.floatData != []) + One(t.int32Data != []) + One(t.stringData != []) + One(t.int64Data != []) +
    One(t.rawData != []) + One(t.doubleData != []) + One(t.uint64Data != [])
  }

  lemma {:induction false} OnlyMakesOne(t: Tensor, f: Field)
    requires OnlyField(t, f)
    ensures Total(t) == 1
  {
    assert Size(t, FloatData) > 0 <==> f == FloatData;
    assert Size(t, Int32Data) > 0 <==> f == Int32Data;
    assert Size(t, StringData) > 0 <==> f == StringData;
    assert Size(t, Int64Data) > 0 <==> f == Int64Data;
    assert Size(t, RawData) > 0 <==> f == RawData;
    assert Size(t, DoubleData) > 0 <==> f == DoubleData;
    assert Size(t, Uint64Data) > 0 <==> f == Uint64Data;
  }

  lemma {:induction false} CountMeaning(t: Tensor, last: Field)
    requires Total(t) > 0 ==> Size(t, last) > 0
    ensures Total(t) == 0 <==> NoField(t)
    ensures Total(t) == 1 <==> exists f :: OnlyField(t, f)
  {
    if Total(t) == 1 {
      assert OnlyField(t, last);
    } else {
      forall f ensures !OnlyField(t, f) {
        if OnlyField(t, f) {
          OnlyMakesOne(t, f);
        }
      }
    }
  }

  // safe_dim_product and the segment tests.
  method CountElements(t: Tensor) returns (nelem: Option<int64>)
    ensures nelem.Some? <==> Counted(t)
    ensures nelem.Some? ==> 0 <= nelem.value as int == Count(t)
  {
    var full := SafeDimProduct(t.dims);
    if full.None? || t.segment.None? {
      return full;
    }
    var s := t.segment.value;
    if s.begin.None? || s.end.None? {
      return None;
    }
    if s.begin.value < 0 || s.end.value < s.begin.value || s.end.value > full.value {
      return None;
    }
    nelem := Some(s.end.value - s.begin.value);
  }

  // The raw_data branch.
  method CheckRawData(t: Tensor, d: DataType, nelem: int64) returns (ok: bool)
    requires nelem > 0 && d != UNDEFINED && Addressable(t) && OnlyField(t, RawData)
    ensures ok <==> Holds(t, d, nelem as int, RawData)
  {
    if d == STRING {
      return false;
    }
    RawSizeTest(t, d, nelem as int);
    assert Size(t, RawData) <= INT64_MAX;
    var expected := ExpectedRawDataBytes(d, nelem);
    if expected.None? {
      return false;
    }
    if expected.value > 0 && |t.rawData| as int64 < expected.value {
      return false;
    }
    if IsFloat6(d) {
      ok := CheckPadding(t.rawData, nelem, expected.value);
      return;
    }
    ok := true;
  }

  method CheckPadding(raw: seq<bv8>, nelem: int64, expected: int64) returns (ok: bool)
    requires nelem > 0 && expected as int == CeilDiv8(6 * nelem as int) <= |raw|
    ensures ok <==> PaddingClear(raw, nelem as int)
  {
    PaddingTest(raw, nelem as int);
    var used := nelem % 4 * 6 % 8;
    if expected > 0 && used != 0 {
      var last := raw[expected - 1];
      if last & UnusedBitsMask(used as int) != 0 {
        return false;
      }
    }
    ok := true;
  }

  // check_typed_data_size
  method CheckTypedDataSize(size: nat, nelem: int64, components: int64) returns (ok: bool)
    requires nelem >= 0 && components >= 1 && size <= INT64_MAX
    ensures ok <==> nelem as int * components as int <= size
  {
    SignOfProduct(nelem as int, components as int);
    var expected := CheckedMul(nelem, components);
    if expected.None? {
      return false;
    }
    ok := size >= expected.value as int;
  }

  method CheckSixBitValues(t: Tensor) returns (ok: bool)
    ensures ok <==> SixBitValues(t)
  {
    for i := 0 to |t.int32Data|
      invariant forall j | 0 <= j < i :: 0 <= t.int32Data[j] <= 0x3F
    {
      if t.int32Data[i] < 0 || t.int32Data[i] > 0x3F {
        return false;
      }
    }
    ok := true;
  }

  // The entries that packed elements need, rounded up without overflow because of the guard before it.
  method CheckPackedEntries(t: Tensor, d: DataType, nelem: int64) returns (ok: bool)
    requires nelem >= 0 && PerInt32(d) > 1 && nelem as int <= INT64_MAX - (PerInt32(d) - 1) && Addressable(t)
    ensures ok <==> forall e: nat | e < nelem as int :: ElementInside(t, d, Int32Data, e)
  {
    if nelem > 0 {
      PackedSizeTest(t, d, nelem as int);
      assert Size(t, Int32Data) <= INT64_MAX;
      var expected: int64 := if PerInt32(d) == 8 then (nelem + 7) / 8 else (nelem + 15) / 16;
      return |t.int32Data| as int64 >= expected;
    }
    ok := true;
  }

  // The branch of the typed fields.
  method CheckTypedData(t: Tensor, d: DataType, nelem: int64, ghost only: Field) returns (ok: bool)
    requires nelem >= 0 && d != UNDEFINED && Addressable(t)
    requires if nelem == 0 then NoField(t) else OnlyField(t, only) && !only.RawData?
    ensures ok <==> nelem == 0 || Holds(t, d, nelem as int, only)
  {
    if PerInt32(d) > 1 && nelem as int > INT64_MAX - (PerInt32(d) - 1) {
      return false;
    }
    var size := Size(t, FieldFor(d));
    if nelem != 0 {
      assert Size(t, only) > 0;
      if size == 0 {
        return false;
      }
      assert only == FieldFor(d);
    }
    if PerInt32(d) > 1 {
      ok := CheckPackedEntries(t, d, nelem);
    } else {
      ok := CheckTypedDataSize(size, nelem, Components(d) as int64);
      if nelem > 0 {
        TypedSizeTest(t, d, nelem as int);
        if ok && IsFloat6(d) {
          ok := CheckSixBitValues(t);
        }
      }
    }
  }

  // check_tensor accepts exactly the tensors whose elements all lie inside the one field that may hold them.
  method CheckTensor(t: Tensor, externalOk: bool) returns (ok: bool)
    requires Addressable(t)
    ensures ok <==> TensorAccepted(t, externalOk)
  {
    if t.dataType.None? || t.dataType.value == UNDEFINED {
      return false;
    }
    var count := CountValueFields(t);
    var nelem := CountElements(t);
    if nelem.None? {
      return false;
    }
    if t.external {
      return count == 0 && externalOk;
    }
    if nelem.value == 0 && count != 0 {
      return false;
    }
    ghost var only := RawData;
    if nelem.value != 0 && count != 1 {
      return false;
    }
    if nelem.value != 0 {
      only :| OnlyField(t, only);
      OnlyOneHolds(t, t.dataType.value, Count(t), only);
    } else {
      assert Size(t, RawData) == 0;
    }
    if t.rawData != [] {
      assert Size(t, RawData) > 0;
      ok := CheckRawData(t, t.dataType.value, nelem.value);
    } else {
      assert Size(t, RawData) == 0;
      ok := CheckTypedData(t, t.dataType.value, nelem.value, only);
    }
  }

  lemma {:induction false} OnlyOneHolds(t: Tensor, d: DataType, n: nat, only: Field)
    requires OnlyField(t, only)
    ensures (exists f :: Holds(t, d, n, f)) <==> Holds(t, d, n, only)
  {
    if f :| Holds(t, d, n, f) {
      assert Size(t, f) > 0;
    }
  }
}
