// The scan of a binary model on tags of one and two bytes, in numbers (onnx_light/__main__.py).

module WireScanCases {
  import opened Basics
  import opened WireScan

  // The tag of field 20 is written 0xA0 + wire type, 0x01.
  lemma {:induction false} TrainingInfoTag(wire: Byte, rest: seq<Byte>)
    requires wire < 8
    ensures Scan([0xA0 + wire, 1] + rest) == TrainingInfo
  {
    var tag: seq<Byte> := [0xA0 + wire, 1];
    assert tag[1..] == [1] && [1][1..] == [];
    assert VarintValue([1]) == 1 && VarintValue(tag) == 160 + wire;
    HeadVarintOf(tag, rest);
    assert (tag + rest)[..2] == tag;
  }

  // A tag of one byte, that of a field from 1 to 15.
  lemma {:induction false} SmallTag(tag: Byte, rest: seq<Byte>)
    requires 8 <= tag < 128
    ensures HeadVarint([tag] + rest) == Some(1) && VarintValue([tag]) == tag && ([tag] + rest)[1..] == rest
    ensures HeadOf([tag] + rest) ==
      if HeadPayload(tag % 8, rest).Some? then Field(1 + HeadPayload(tag % 8, rest).value) else BadHead
  {
    assert [tag][1..] == [];
    HeadVarintOf([tag], rest);
    assert ([tag] + rest)[..1] == [tag] && ([tag] + rest)[1..] == rest;
  }

  // What is skipped after such a tag, by wire type: one varint, eight bytes, as many bytes as the length says, four
  // bytes. Other wire types and truncated payloads are malformed.
  lemma {:induction false} WireTypesExactly(tag: Byte, p: seq<Byte>, rest: seq<Byte>)
    requires 8 <= tag < 128
    ensures tag % 8 == 0 && |p| == 1 && p[0] < 128 ==> Scan([tag] + (p + rest)) == Scan(rest)
    ensures tag % 8 == 1 && |p| == 8 ==> Scan([tag] + (p + rest)) == Scan(rest)
    ensures tag % 8 == 2 && 1 <= |p| <= 128 && p[0] == |p| - 1 ==> Scan([tag] + (p + rest)) == Scan(rest)
    ensures tag % 8 == 5 && |p| == 4 ==> Scan([tag] + (p + rest)) == Scan(rest)
    ensures tag % 8 in {3, 4, 6, 7} ==> Scan([tag] + rest) == Malformed
    ensures (tag % 8 == 1 && |rest| < 8) || (tag % 8 == 5 && |rest| < 4) ==> Scan([tag] + rest) == Malformed
  {
    SmallTag(tag, rest);
    if tag % 8 == 2 && 1 <= |p| <= 128 && p[0] == |p| - 1 {
      assert p[..1] == [p[0]] && [p[0]][1..] == [] && VarintValue(p[..1]) == p[0];
      assert IsVarint(p[..1]);
    }
    if IsPayload(tag % 8, p) {
      PayloadSkipped(tag, p, rest);
    }
  }

  lemma {:induction false} PayloadSkipped(tag: Byte, p: seq<Byte>, rest: seq<Byte>)
    requires 8 <= tag < 128 && IsPayload(tag % 8, p)
    ensures Scan([tag] + (p + rest)) == Scan(rest)
  {
    var s := [tag] + (p + rest);
    SmallTag(tag, p + rest);
    PayloadIsHead(tag % 8, p, rest);
    assert s[1 + |p|..] == rest;
    assert HeadOf(s) == Field(1 + |p|);
  }

  // Ten bytes carry no more than 64 bits.
  lemma {:induction false} VarintsFit(s: seq<Byte>)
    requires IsVarint(s)
    ensures VarintValue(s) < 0x1_0000_0000_0000_0000
  {
    var n := |s| - 1;
    var front := s[..n];
    assert s == front + [s[n]];
    VarintValueAppend(front, s[n]);
    assert Pow128(3) == 0x20_0000;
    assert Pow128(6) == 128 * (128 * (128 * Pow128(3)));
    assert Pow128(9) == 128 * (128 * (128 * Pow128(6)));
    if n < 9 {
      Pow128Grows(n + 1, 9);
      VarintValueAppend(s, 0);
    }
  }

  lemma {:induction false} Pow128Grows(a: nat, b: nat)
    requires a <= b
    ensures Pow128(a) <= Pow128(b)
  {
    if a < b {
      Pow128Grows(a, b - 1);
    }
  }

  // The numbers of the fields that are skipped.
  lemma {:induction false} FieldNumbers(f: seq<Byte>, t: nat)
    ensures IsFieldWithTag(f, t) <==>
      && t <= |f| && IsVarint(f[..t]) && IsPayload(VarintValue(f[..t]) % 8, f[t..])
      && 1 <= VarintValue(f[..t]) / 8 <= 536870911 && VarintValue(f[..t]) / 8 != 20
  {
  }
}
