// Packing of 2- and 4-bit values into bytes, low bits first, and back (onnx_light/ext_test_case.py).

module SubByte {
  import opened Basics

  newtype uint64 = x: int | 0 <= x < 0x1_0000_0000_0000_0000

  predicate IsWidth(bits: int) {
    bits == 2 || bits == 4
  }

  // 8 // bits
  function PerByte(bits: int): nat
    requires IsWidth(bits)
  {
    if bits == 2 then 4 else 2
  }

  // The number of values of one field.
  function Base(bits: int): nat
    requires IsWidth(bits)
  {
    if bits == 2 then 4 else 16
  }

  // x << shift
  function Shifted(x: nat, shift: nat): nat
    decreases shift
  {
    if shift == 0 then x else Shifted(2 * x, shift - 1)
  }

  lemma {:induction false} ShiftedPositive(x: nat, shift: nat)
    requires x > 0
    ensures Shifted(x, shift) > 0
    decreases shift
  {
    if shift > 0 {
      ShiftedPositive(2 * x, shift - 1);
    }
  }

  // The weight of field `j` of a byte, 1 << (j * bits).
  function Weight(bits: int, j: nat): (w: nat)
    requires IsWidth(bits) && j < PerByte(bits)
    ensures w > 0
  {
    ShiftedPositive(1, j * bits);
    Shifted(1, j * bits)
  }

  function Field(x: nat, bits: int, j: nat): (f: nat)
    requires IsWidth(bits) && j < PerByte(bits)
    ensures f < Base(bits)
  {
    x / Weight(bits, j) % Base(bits)
  }

  function PackedByteCount(n: nat, bits: nat): nat {
    var count := (n * bits + 7) / 8;
    if count > 1 then count else 1
  }

  // The values that a field can hold.
  predicate Fits(v: int, bits: int, signed: bool)
    requires IsWidth(bits)
  {
    if signed then -(Base(bits) / 2) <= v < Base(bits) / 2 else 0 <= v < Base(bits)
  }

  lemma {:induction false} FitsExactly(v: int, signed: bool)
    ensures Fits(v, 2, signed) <==> if signed then -2 <= v <= 1 else 0 <= v <= 3
    ensures Fits(v, 4, signed) <==> if signed then -8 <= v <= 7 else 0 <= v <= 15
  {
  }

  // ----- the arithmetic of one byte -----

  lemma {:induction false} Weights(bits: int)
    requires IsWidth(bits)
    ensures bits == 2 ==> Weight(2, 0) == 1 && Weight(2, 1) == 4 && Weight(2, 2) == 16 && Weight(2, 3) == 64
    ensures bits == 4 ==> Weight(4, 0) == 1 && Weight(4, 1) == 16
  {
    assert Shifted(1, 2) == 4;
    assert Shifted(1, 4) == Shifted(4, 2) == 16;
    assert Shifted(1, 6) == Shifted(16, 2) == 64;
  }

  // The fields of a number, with the weights written out.
  lemma {:induction false} Fields(x: nat, bits: int)
    requires IsWidth(bits)
    ensures bits == 2 ==>
      Field(x, 2, 0) == x % 4 && Field(x, 2, 1) == x / 4 % 4 && Field(x, 2, 2) == x / 16 % 4 &&
        Field(x, 2, 3) == x / 64 % 4
    ensures bits == 4 ==> Field(x, 4, 0) == x % 16 && Field(x, 4, 1) == x / 16 % 16
  {
    Weights(bits);
  }

  // Adding a field above those already present changes none of them and does not carry.
  lemma {:induction false} AddField(x: nat, bits: int, j: nat, f: nat)
    requires IsWidth(bits) && j < PerByte(bits) && x < Weight(bits, j) && f < Base(bits)
    ensures var y := x + f * Weight(bits, j);
      && y < 256 && (j + 1 < PerByte(bits) ==> y < Weight(bits, j + 1))
      && Field(y, bits, j) == f
      && (forall i | 0 <= i < j :: Field(y, bits, i) == Field(x, bits, i))
  {
    Weights(bits);
    Fields(x, bits);
    Fields(x + f * Weight(bits, j), bits);
    if bits == 4 {
      AddNibble(x, j, f);
    } else {
      AddPair(x, j, f);
    }
  }

  lemma {:induction false} AddNibble(x: nat, j: nat, f: nat)
    requires j < 2 && x < (if j == 0 then 1 else 16) && f < 16
    ensures var y := x + f * if j == 0 then 1 else 16;
      if j == 0 then y % 16 == f else y / 16 % 16 == f && y % 16 == x % 16
  {
  }

  lemma {:induction false} AddPair(x: nat, j: nat, f: nat)
    requires j < 4 && x < [1, 4, 16, 64][j] && f < 4
    ensures var y := x + f * [1, 4, 16, 64][j];
      && (j == 0 ==> y % 4 == f)
      && (j == 1 ==> y / 4 % 4 == f && y % 4 == x % 4)
      && (j == 2 ==> y / 16 % 4 == f && y % 4 == x % 4 && y / 4 % 4 == x / 4 % 4)
      && (j == 3 ==> y / 64 % 4 == f && y % 4 == x % 4 && y / 4 % 4 == x / 4 % 4 && y / 16 % 4 == x / 16 % 4)
  {
    if j == 2 {
      AddPairAt16(x, f);
    } else if j == 3 {
      AddPairAt64(x, f);
    }
  }

  lemma {:induction false} AddPairAt16(x: nat, f: nat)
    requires x < 16 && f < 4
    ensures var y := x + 16 * f; y / 16 % 4 == f && y % 4 == x % 4 && y / 4 % 4 == x / 4 % 4
  {
    var y := x + 16 * f;
    assert y / 4 == x / 4 + 4 * f;
    assert y / 16 == f;
  }

  lemma {:induction false} AddPairAt64(x: nat, f: nat)
    requires x < 64 && f < 4
    ensures var y := x + 64 * f;
      y / 64 % 4 == f && y % 4 == x % 4 && y / 4 % 4 == x / 4 % 4 && y / 16 % 4 == x / 16 % 4
  {
    var y := x + 64 * f;
    assert y / 4 == x / 4 + 16 * f;
    assert y / 16 == x / 16 + 4 * f;
    assert y / 64 == f;
  }

  lemma {:induction false} ShiftIsWeight(f: nat, bits: int, j: nat)
    requires IsWidth(bits) && j < PerByte(bits)
    ensures Shifted(f, j * bits) == f * Weight(bits, j)
  {
    ShiftedScales(f, 1, j * bits);
  }

  lemma {:induction false} ShiftedScales(f: nat, x: nat, shift: nat)
    ensures Shifted(f * x, shift) == f * Shifted(x, shift)
    decreases shift
  {
    if shift > 0 {
      assert 2 * (f * x) == f * (2 * x);
      ShiftedScales(f, 2 * x, shift - 1);
    }
  }

  // A small byte has only zero fields above.
  lemma {:induction false} FieldsAbove(x: nat, bits: int, j: nat)
    requires IsWidth(bits) && j < PerByte(bits) && x < Weight(bits, j)
    ensures forall i | j <= i < PerByte(bits) :: Field(x, bits, i) == 0
  {
    Weights(bits);
    Fields(x, bits);
  }

  // Its fields determine a byte.
  lemma {:induction false} FieldsDetermineByte(x: Byte, y: Byte, bits: int)
    requires IsWidth(bits) && forall i | 0 <= i < PerByte(bits) :: Field(x, bits, i) == Field(y, bits, i)
    ensures x == y
  {
    Fields(x, bits);
    Fields(y, bits);
    assert Field(x, bits, 0) == Field(y, bits, 0) && Field(x, bits, 1) == Field(y, bits, 1);
    if bits == 2 {
      assert Field(x, bits, 2) == Field(y, bits, 2) && Field(x, bits, 3) == Field(y, bits, 3);
      FourPairs(x);
      FourPairs(y);
    }
  }

  lemma {:induction false} FourPairs(x: Byte)
    ensures x == x % 4 + 4 * (x / 4 % 4) + 16 * (x / 16 % 4) + 64 * (x / 64 % 4)
  {
    assert x / 16 == x / 4 / 4 && x / 64 == x / 16 / 4;
  }

  // ----- packing -----

  // The position of the value in field `j` of byte `k`.
  function Position(k: nat, j: nat, bits: int): nat
    requires IsWidth(bits)
  {
    if bits == 2 then 4 * k + j else 2 * k + j
  }

  // idx // per_byte and idx % per_byte
  function ByteIndex(p: int, bits: int): int
    requires IsWidth(bits)
  {
    if bits == 2 then p / 4 else p / 2
  }

  function FieldIndex(p: nat, bits: int): (j: nat)
    requires IsWidth(bits)
    ensures j < PerByte(bits)
  {
    if bits == 2 then p % 4 else p % 2
  }

  lemma {:induction false} PositionOfIndex(p: nat, bits: int)
    requires IsWidth(bits)
    ensures ByteIndex(p, bits) >= 0 && Position(ByteIndex(p, bits), FieldIndex(p, bits), bits) == p
  {
  }

  lemma {:induction false} IndexOfPosition(k: nat, j: nat, bits: int)
    requires IsWidth(bits) && j < PerByte(bits)
    ensures ByteIndex(Position(k, j, bits), bits) == k && FieldIndex(Position(k, j, bits), bits) == j
  {
  }

  // The computed size covers every position.
  lemma {:induction false} CountCovers(n: nat, p: nat, bits: int)
    requires IsWidth(bits) && p < n
    ensures 0 <= ByteIndex(p, bits) <= ByteIndex(n - 1, bits) < PackedByteCount(n, bits)
  {
  }

  // The low `bits` bits of a two's complement integer.
  function Low(v: int, bits: int): nat
    requires IsWidth(bits)
  {
    v % Base(bits)
  }

  function FieldOrZero(vals: seq<int>, bits: int, p: nat): nat
    requires IsWidth(bits)
  {
    if p < |vals| then Low(vals[p], bits) else 0
  }

  // `buffer` holds value `p` in field `p % PerByte` of byte `p / PerByte`, and zeros in all other fields.
  ghost predicate IsPacking(buffer: seq<Byte>, vals: seq<int>, bits: int)
    requires IsWidth(bits)
  {
    && |buffer| == PackedByteCount(|vals|, bits)
    && forall k, j | 0 <= k < |buffer| && 0 <= j < PerByte(bits) ::
         Field(buffer[k], bits, j) == FieldOrZero(vals, bits, Position(k, j, bits))
  }

  // In numbers: the first value of a byte is in its low bits.
  lemma {:induction false} LowBitsFirst(buffer: seq<Byte>, vals: seq<int>, bits: int, p: nat)
    requires (bits == 2 || bits == 4) && IsPacking(buffer, vals, bits) && p < |vals|
    ensures bits == 2 ==> p / 4 < |buffer| && buffer[p / 4] / [1, 4, 16, 64][p % 4] % 4 == vals[p] % 4
    ensures bits == 4 ==> p / 2 < |buffer| && buffer[p / 2] / [1, 16][p % 2] % 16 == vals[p] % 16
  {
    CountCovers(|vals|, p, bits);
    var k, j := ByteIndex(p, bits), FieldIndex(p, bits);
    PositionOfIndex(p, bits);
    Weights(bits);
    assert Field(buffer[k], bits, j) == FieldOrZero(vals, bits, Position(k, j, bits));
  }

  // There is one such buffer.
  lemma {:induction false} PackingIsUnique(a: seq<Byte>, b: seq<Byte>, vals: seq<int>, bits: int)
    requires IsWidth(bits) && IsPacking(a, vals, bits) && IsPacking(b, vals, bits)
    ensures a == b
  {
    forall k | 0 <= k < |a| ensures a[k] == b[k] {
      forall j | 0 <= j < PerByte(bits) ensures Field(a[k], bits, j) == Field(b[k], bits, j) {
        assert Field(a[k], bits, j) == FieldOrZero(vals, bits, Position(k, j, bits));
      }
      FieldsDetermineByte(a[k], b[k], bits);
    }
  }

  // The first `n` values are in place: full bytes below n / PerByte, one byte that is filled up to there, zeros above.
  ghost predicate Filled(x: nat, k: nat, vals: seq<int>, bits: int, n: nat)
    requires IsWidth(bits) && n <= |vals|
  {
    var q, r := ByteIndex(n, bits), FieldIndex(n, bits);
    && x < 256
    && (k == q ==> x < Weight(bits, r))
    && (k > q ==> x == 0)
    && forall j | 0 <= j < PerByte(bits) && Position(k, j, bits) < n ::
         Field(x, bits, j) == Low(vals[Position(k, j, bits)], bits)
  }

  // The addition at `idx` fills one more field of one byte, and leaves every other byte as it has to be.
  lemma {:induction false} FillNext(x: nat, k: nat, vals: seq<int>, bits: int, n: nat)
    requires IsWidth(bits) && n < |vals| && Filled(x, k, vals, bits, n)
    ensures k != ByteIndex(n, bits) ==> Filled(x, k, vals, bits, n + 1)
    ensures k == ByteIndex(n, bits) ==>
      Filled(x + Low(vals[n], bits) * Weight(bits, FieldIndex(n, bits)), k, vals, bits, n + 1)
  {
    var q, r := ByteIndex(n, bits), FieldIndex(n, bits);
    PositionOfIndex(n, bits);
    if k == q {
      AddField(x, bits, r, Low(vals[n], bits));
    } else if k == ByteIndex(n + 1, bits) {
      Weights(bits);
    }
  }

  ghost predicate AllFilled(acc: seq<uint64>, vals: seq<int>, bits: int, n: nat)
    requires IsWidth(bits) && n <= |vals|
  {
    forall k | 0 <= k < |acc| :: Filled(acc[k] as int, k, vals, bits, n)
  }

  lemma {:induction false} FillStep(acc: seq<uint64>, vals: seq<int>, bits: int, n: nat, x: uint64)
    requires IsWidth(bits) && n < |vals| && AllFilled(acc, vals, bits, n) && ByteIndex(n, bits) < |acc|
    requires x as int == acc[ByteIndex(n, bits)] as int + Low(vals[n], bits) * Weight(bits, FieldIndex(n, bits))
    ensures AllFilled(acc[ByteIndex(n, bits) := x], vals, bits, n + 1)
  {
    var next := acc[ByteIndex(n, bits) := x];
    forall k | 0 <= k < |next| ensures Filled(next[k] as int, k, vals, bits, n + 1) {
      FillNext(acc[k] as int, k, vals, bits, n);
    }
  }

  lemma {:induction false} FilledByte(acc: seq<uint64>, vals: seq<int>, bits: int, n: nat, k: nat)
    requires IsWidth(bits) && n <= |vals| && AllFilled(acc, vals, bits, n) && k < |acc|
    ensures acc[k] < 256
  {
  }

  lemma {:induction false} LowWeightIsSmall(f: nat, bits: int, j: nat)
    requires IsWidth(bits) && j < PerByte(bits) && f < Base(bits)
    ensures f * Weight(bits, j) < 256
  {
    Weights(bits);
    AddField(0, bits, j, f);
  }

  lemma {:induction false} FilledIsPacked(x: nat, k: nat, vals: seq<int>, bits: int, j: nat)
    requires IsWidth(bits) && j < PerByte(bits) && Filled(x, k, vals, bits, |vals|)
    ensures Field(x, bits, j) == FieldOrZero(vals, bits, Position(k, j, bits))
  {
    var q, r := ByteIndex(|vals|, bits), FieldIndex(|vals|, bits);
    if Position(k, j, bits) >= |vals| {
      if k == q {
        FieldsAbove(x, bits, r);
      } else {
        Weights(bits);
        FieldsAbove(x, bits, 0);
      }
    }
  }

  // The in-place accumulation: `acc[byte_idx] += flat << shift`, on 64-bit cells that never exceed a byte.
  method PackSubByte(vals: seq<int>, bits: int) returns (buffer: seq<Byte>)
    requires IsWidth(bits)
    ensures IsPacking(buffer, vals, bits)
  {
    var n := |vals|;
    var nbytes := PackedByteCount(n, bits);
    var acc := new uint64[nbytes](_ => 0);
    assert AllFilled(acc[..], vals, bits, 0) by {
      Weights(bits);
    }
    for idx := 0 to n
      invariant AllFilled(acc[..], vals, bits, idx)
    {
      var byteIdx, shift := ByteIndex(idx, bits), FieldIndex(idx, bits) * bits;
      var flat := Low(vals[idx], bits);
      CountCovers(n, idx, bits);
      ShiftIsWeight(flat, bits, FieldIndex(idx, bits));
      LowWeightIsSmall(flat, bits, FieldIndex(idx, bits));
      FilledByte(acc[..], vals, bits, idx, byteIdx);
      var x := acc[byteIdx] + Shifted(flat, shift) as uint64;
      FillStep(acc[..], vals, bits, idx, x);
      ghost var before := acc[..];
      acc[byteIdx] := x;
      assert acc[..] == before[byteIdx := x];
    }
    buffer := seq(nbytes, k requires 0 <= k < nbytes reads acc => acc[k] as int % 256);
    Repacked(acc[..], buffer, vals, bits);
  }

  // The conversion of the cells to bytes loses nothing.
  lemma {:induction false} Repacked(acc: seq<uint64>, buffer: seq<Byte>, vals: seq<int>, bits: int)
    requires IsWidth(bits) && AllFilled(acc, vals, bits, |vals|) && |acc| == |buffer| == PackedByteCount(|vals|, bits)
    requires forall k | 0 <= k < |acc| :: buffer[k] == acc[k] as int % 256
    ensures IsPacking(buffer, vals, bits)
  {
    forall k, j | 0 <= k < |buffer| && 0 <= j < PerByte(bits)
      ensures Field(buffer[k], bits, j) == FieldOrZero(vals, bits, Position(k, j, bits))
    {
      FilledByte(acc, vals, bits, |vals|, k);
      FilledIsPacked(acc[k] as int, k, vals, bits, j);
    }
  }

  // ----- unpacking -----

  function Signed(field: nat, bits: int, signed: bool): int
    requires IsWidth(bits)
  {
    if signed && field >= Base(bits) / 2 then field - Base(bits) else field
  }

  function UnpackSubByte(buffer: seq<Byte>, n: nat, bits: int, signed: bool): (vals: seq<int>)
    requires IsWidth(bits) && (n > 0 ==> ByteIndex(n - 1, bits) < |buffer|)
    ensures |vals| == n
    ensures forall p | 0 <= p < n :: Fits(vals[p], bits, signed)
  {
    seq(n, p requires 0 <= p < n =>
      assert ByteIndex(p, bits) <= ByteIndex(n - 1, bits);
      Signed(Field(buffer[ByteIndex(p, bits)], bits, FieldIndex(p, bits)), bits, signed))
  }

  lemma {:induction false} SignedLow(v: int, bits: int, signed: bool)
    requires IsWidth(bits) && Fits(v, bits, signed)
    ensures Signed(Low(v, bits), bits, signed) == v
  {
  }

  // Unpacking a packed array gives the array back.
  lemma {:induction false} UnpackOfPack(vals: seq<int>, buffer: seq<Byte>, bits: int, signed: bool)
    requires bits == 2 || bits == 4
    requires IsPacking(buffer, vals, bits) && forall p | 0 <= p < |vals| :: Fits(vals[p], bits, signed)
    ensures |vals| > 0 ==> ByteIndex(|vals| - 1, bits) < |buffer|
    ensures UnpackSubByte(buffer, |vals|, bits, signed) == vals
  {
    forall p | 0 <= p < |vals|
      ensures Signed(Field(buffer[ByteIndex(p, bits)], bits, FieldIndex(p, bits)), bits, signed) == vals[p]
    {
      var k, j := ByteIndex(p, bits), FieldIndex(p, bits);
      PositionOfIndex(p, bits);
      CountCovers(|vals|, p, bits);
      SignedLow(vals[p], bits, signed);
      assert Field(buffer[k], bits, j) == FieldOrZero(vals, bits, Position(k, j, bits));
    }
  }

  lemma {:induction false} LowSigned(f: nat, bits: int, signed: bool)
    requires IsWidth(bits) && f < Base(bits)
    ensures Low(Signed(f, bits, signed), bits) == f
  {
  }

  // All fields from position `n` on are zero.
  ghost predicate ZeroPadded(buffer: seq<Byte>, n: nat, bits: int)
    requires IsWidth(bits)
  {
    forall k, j | 0 <= k < |buffer| && 0 <= j < PerByte(bits) && Position(k, j, bits) >= n ::
      Field(buffer[k], bits, j) == 0
  }

  // Repacking what was unpacked from a buffer of the computed size with zero padding gives the buffer back.
  lemma {:induction false} PackOfUnpack(buffer: seq<Byte>, n: nat, bits: int, signed: bool)
    requires IsWidth(bits) && |buffer| == PackedByteCount(n, bits) && ZeroPadded(buffer, n, bits)
    ensures n > 0 ==> ByteIndex(n - 1, bits) < |buffer|
    ensures IsPacking(buffer, UnpackSubByte(buffer, n, bits, signed), bits)
  {
    var vals := UnpackSubByte(buffer, n, bits, signed);
    forall k, j | 0 <= k < |buffer| && 0 <= j < PerByte(bits)
      ensures Field(buffer[k], bits, j) == FieldOrZero(vals, bits, Position(k, j, bits))
    {
      RepackedField(buffer, n, bits, signed, k, j);
    }
  }

  lemma {:induction false} RepackedField(buffer: seq<Byte>, n: nat, bits: int, signed: bool, k: nat, j: nat)
    requires IsWidth(bits) && |buffer| == PackedByteCount(n, bits) && ZeroPadded(buffer, n, bits)
    requires n > 0 ==> ByteIndex(n - 1, bits) < |buffer|
    requires k < |buffer| && j < PerByte(bits)
    ensures Field(buffer[k], bits, j) == FieldOrZero(UnpackSubByte(buffer, n, bits, signed), bits, Position(k, j, bits))
  {
    IndexOfPosition(k, j, bits);
    LowSigned(Field(buffer[k], bits, j), bits, signed);
  }
}
