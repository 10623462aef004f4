// The scan of a binary model for training_info, which skips complete top-level protobuf fields without reading their
// payloads (onnx_light/__main__.py, _reject_optimization_training_info). The encoding is that of the sections "Base 128
// Varints" and "Message Structure" of the Protocol Buffers Encoding specification.

module WireScan {
  import opened Basics

  const TRAINING_INFO_FIELD := 20
  const FIELD_NUMBER_LIMIT := 0x2000_0000

  // ----- varints -----

  // Between 1 and 10 bytes; all but the last have the continuation bit; a tenth byte carries one bit.
  predicate IsVarint(s: seq<Byte>) {
    && 1 <= |s| <= 10
    && (forall i | 0 <= i < |s| - 1 :: s[i] >= 128)
    && s[|s| - 1] < 128
    && (|s| == 10 ==> s[9] <= 1)
  }

  // Groups of seven bits, least significant first.
  function VarintValue(s: seq<Byte>): nat {
    if s == [] then 0 else s[0] % 128 + 128 * VarintValue(s[1..])
  }

  // The standard encoder.
  function Encode(v: nat): seq<Byte> {
    if v < 128 then [v] else [v % 128 + 128] + Encode(v / 128)
  }

  function Pow128(k: nat): nat {
    if k == 0 then 1 else 128 * Pow128(k - 1)
  }

  lemma {:induction false} EncodeFits(v: nat, k: nat)
    requires v < 2 * Pow128(k)
    ensures var s := Encode(v);
      && 1 <= |s| <= k + 1 && (|s| == k + 1 ==> s[k] <= 1)
      && (forall i | 0 <= i < |s| - 1 :: s[i] >= 128) && s[|s| - 1] < 128
      && VarintValue(s) == v
  {
    if v >= 128 {
      assert k > 0;
      EncodeFits(v / 128, k - 1);
      var s, rest := Encode(v), Encode(v / 128);
      assert s == [v % 128 + 128] + rest && s[1..] == rest;
      forall i | 0 <= i < |s| - 1 ensures s[i] >= 128 {
        assert i > 0 ==> s[i] == rest[i - 1];
      }
    } else {
      assert Encode(v)[1..] == [];
    }
  }

  // The reader inverts the encoder on every value below 2^64.
  lemma {:induction false} EncodedIsVarint(v: nat)
    requires v < 0x1_0000_0000_0000_0000
    ensures IsVarint(Encode(v)) && VarintValue(Encode(v)) == v
  {
    assert Pow128(3) == 0x20_0000;
    assert Pow128(6) == 128 * (128 * (128 * Pow128(3)));
    assert Pow128(9) == 128 * (128 * (128 * Pow128(6)));
    EncodeFits(v, 9);
  }

  // A varint ends where it ends: no byte string starts with two different ones.
  lemma {:induction false} VarintPrefixUnique(s: seq<Byte>, m: nat, n: nat)
    requires m <= |s| && n <= |s| && IsVarint(s[..m]) && IsVarint(s[..n])
    ensures m == n
  {
    assert forall i | 0 <= i < m :: s[..m][i] == s[i];
    assert forall i | 0 <= i < n :: s[..n][i] == s[i];
  }

  // The length of the varint at the head of `s`.
  ghost function HeadVarint(s: seq<Byte>): (r: Option<nat>)
    ensures r.Some? ==> r.value <= |s| && IsVarint(s[..r.value])
    ensures r.None? ==> forall n | 0 <= n <= |s| :: !IsVarint(s[..n])
  {
    if n: nat :| n <= |s| && IsVarint(s[..n]) then Some(n) else None
  }

  lemma {:induction false} HeadVarintOf(v: seq<Byte>, rest: seq<Byte>)
    requires IsVarint(v)
    ensures HeadVarint(v + rest) == Some(|v|)
  {
    var s := v + rest;
    assert s[..|v|] == v;
    VarintPrefixUnique(s, |v|, HeadVarint(s).value);
  }

  // ----- bitwise or, as the reader accumulates -----

  function Pow2(k: nat): nat {
    if k == 0 then 1 else 2 * Pow2(k - 1)
  }

  function BitOr(a: nat, b: nat): nat {
    if a == 0 && b == 0 then 0
    else (if a % 2 == 1 || b % 2 == 1 then 1 else 0) + 2 * BitOr(a / 2, b / 2)
  }

  lemma {:induction false} BitOrZero(b: nat)
    ensures BitOr(0, b) == b
  {
    if b > 0 {
      BitOrZero(b / 2);
    }
  }

  // Or-ing in bits above those already present is addition.
  lemma {:induction false} BitOrShifted(a: nat, b: nat, k: nat)
    requires a < Pow2(k)
    ensures BitOr(a, b * Pow2(k)) == a + b * Pow2(k)
  {
    if k == 0 {
      BitOrZero(b);
    } else {
      var half := b * Pow2(k - 1);
      assert b * Pow2(k) == 2 * half by {
        assert b * (2 * Pow2(k - 1)) == 2 * (b * Pow2(k - 1));
      }
      BitOrShifted(a / 2, b, k - 1);
    }
  }

  lemma {:induction false} Pow2Plus7(j: nat)
    ensures Pow2(j + 7) == 128 * Pow2(j)
  {
    assert Pow2(j + 2) == 2 * Pow2(j + 1) == 4 * Pow2(j);
    assert Pow2(j + 4) == 2 * Pow2(j + 3) == 4 * Pow2(j + 2);
    assert Pow2(j + 6) == 2 * Pow2(j + 5) == 4 * Pow2(j + 4);
  }

  lemma {:induction false} Pow2Of7(k: nat)
    ensures Pow2(7 * k) == Pow128(k)
  {
    if k > 0 {
      Pow2Of7(k - 1);
      Pow2Plus7(7 * (k - 1));
    }
  }

  lemma {:induction false} VarintValueAppend(s: seq<Byte>, b: Byte)
    ensures VarintValue(s) < Pow128(|s|)
    ensures VarintValue(s + [b]) == VarintValue(s) + b % 128 * Pow128(|s|)
  {
    if s == [] {
      assert (s + [b])[1..] == [];
    } else {
      assert (s + [b])[1..] == s[1..] + [b];
      VarintValueAppend(s[1..], b);
      assert 128 * (b % 128 * Pow128(|s| - 1)) == b % 128 * (128 * Pow128(|s| - 1));
    }
  }

  // ----- fields and messages, as the grammar has them -----

  // The bytes after the tag: a varint, 8 bytes, a length and that many bytes of any content, or 4 bytes.
  ghost predicate IsPayload(wire: nat, p: seq<Byte>) {
    match wire
    case 0 => IsVarint(p)
    case 1 => |p| == 8
    case 2 => exists l: nat :: l <= |p| && IsVarint(p[..l]) && |p| - l == VarintValue(p[..l])
    case 5 => |p| == 4
    case _ => false
  }

  // A field whose tag takes `t` bytes.
  ghost predicate IsFieldWithTag(f: seq<Byte>, t: nat) {
    && t <= |f| && IsVarint(f[..t])
    && var number, wire := VarintValue(f[..t]) / 8, VarintValue(f[..t]) % 8;
       0 < number < FIELD_NUMBER_LIMIT && number != TRAINING_INFO_FIELD && IsPayload(wire, f[t..])
  }

  ghost predicate IsField(f: seq<Byte>) {
    exists t: nat :: IsFieldWithTag(f, t)
  }

  function Concat(fields: seq<seq<Byte>>): seq<Byte> {
    if fields == [] then [] else fields[0] + Concat(fields[1..])
  }

  ghost predicate AllFields(fields: seq<seq<Byte>>) {
    forall i | 0 <= i < |fields| :: IsField(fields[i])
  }

  // A concatenation of skippable fields.
  ghost predicate IsMessage(s: seq<Byte>) {
    exists fields :: Concat(fields) == s && AllFields(fields)
  }

  // ----- the scan, one field at a time -----

  datatype Head = Field(length: nat) | TrainingHead | BadHead

  datatype Outcome = Accepted | TrainingInfo | Malformed

  // The length of the payload at the head of `s`, None if the scanner finds it malformed or truncated.
  ghost function HeadPayload(wire: nat, s: seq<Byte>): (r: Option<nat>)
    ensures r.Some? ==> r.value <= |s|
  {
    if wire == 0 then HeadVarint(s)
    else if wire == 2 then
      var l := HeadVarint(s);
      if l.None? || VarintValue(s[..l.value]) > |s| - l.value then None
      else Some(l.value + VarintValue(s[..l.value]))
    else if wire == 1 || wire == 5 then
      var length := if wire == 1 then 8 else 4;
      if length > |s| then None else Some(length)
    else None
  }

  // What the scanner makes of the field at the head of `s`.
  ghost function HeadOf(s: seq<Byte>): (h: Head)
    ensures h.Field? ==> 0 < h.length <= |s|
  {
    var tag := HeadVarint(s);
    if tag.None? then BadHead
    else
      var t := tag.value;
      var number, wire := VarintValue(s[..t]) / 8, VarintValue(s[..t]) % 8;
      if number == TRAINING_INFO_FIELD then TrainingHead
      else if number == 0 || number >= FIELD_NUMBER_LIMIT then BadHead
      else
        var payload := HeadPayload(wire, s[t..]);
        if payload.None? then BadHead else Field(t + payload.value)
  }

  ghost function Scan(s: seq<Byte>): Outcome {
    if s == [] then Accepted
    else
      match HeadOf(s)
      case Field(n) => Scan(s[n..])
      case TrainingHead => TrainingInfo
      case BadHead => Malformed
  }

  lemma {:induction false} HeadIsPayload(wire: nat, s: seq<Byte>)
    requires HeadPayload(wire, s).Some?
    ensures IsPayload(wire, s[..HeadPayload(wire, s).value])
  {
    if wire == 2 {
      var l := HeadVarint(s).value;
      assert s[..HeadPayload(wire, s).value][..l] == s[..l];
    }
  }

  lemma {:induction false} PayloadIsHead(wire: nat, p: seq<Byte>, rest: seq<Byte>)
    requires IsPayload(wire, p)
    ensures HeadPayload(wire, p + rest) == Some(|p|)
  {
    if wire == 0 {
      HeadVarintOf(p, rest);
    } else if wire == 2 {
      var l: nat :| l <= |p| && IsVarint(p[..l]) && |p| - l == VarintValue(p[..l]);
      LengthIsHead(p, rest, l);
    }
  }

  lemma {:induction false} LengthIsHead(p: seq<Byte>, rest: seq<Byte>, l: nat)
    requires l <= |p| && IsVarint(p[..l])
    ensures HeadVarint(p + rest) == Some(l) && (p + rest)[..l] == p[..l]
  {
    assert p + rest == p[..l] + (p[l..] + rest);
    HeadVarintOf(p[..l], p[l..] + rest);
  }

  // The head of a byte string is the field it starts with, if it starts with one.
  lemma {:induction false} HeadIsField(s: seq<Byte>)
    requires HeadOf(s).Field?
    ensures IsField(s[..HeadOf(s).length])
  {
    var t := HeadVarint(s).value;
    var f := s[..HeadOf(s).length];
    HeadIsPayload(VarintValue(s[..t]) % 8, s[t..]);
    assert f[..t] == s[..t] && f[t..] == s[t..][..|f| - t];
    assert IsFieldWithTag(f, t);
  }

  lemma {:induction false} FieldIsHead(f: seq<Byte>, rest: seq<Byte>)
    requires IsField(f)
    ensures HeadOf(f + rest) == Field(|f|)
  {
    var t: nat :| IsFieldWithTag(f, t);
    var s, payload := f + rest, f[t..];
    assert s == f[..t] + (payload + rest);
    HeadVarintOf(f[..t], payload + rest);
    PayloadIsHead(VarintValue(f[..t]) % 8, payload, rest);
    assert s[..t] == f[..t] && s[t..] == payload + rest;
  }

  // Skipping an accepted prefix leaves the rest of the scan.
  lemma {:induction false} ScanSkips(fields: seq<seq<Byte>>, rest: seq<Byte>)
    requires AllFields(fields)
    ensures Scan(Concat(fields) + rest) == Scan(rest)
  {
    if fields == [] {
      assert Concat(fields) + rest == rest;
    } else {
      var more := Concat(fields[1..]) + rest;
      assert Concat(fields) + rest == fields[0] + more;
      FieldIsHead(fields[0], more);
      assert (fields[0] + more)[|fields[0]|..] == more;
      ScanSkips(fields[1..], rest);
    }
  }

  lemma {:induction false} FieldsCons(f: seq<Byte>, fields: seq<seq<Byte>>, rest: seq<Byte>)
    requires IsField(f) && AllFields(fields)
    ensures AllFields([f] + fields) && Concat([f] + fields) + rest == f + (Concat(fields) + rest)
  {
    assert ([f] + fields)[1..] == fields;
    assert Concat([f] + fields) == f + Concat(fields);
  }

  // The fields that the scanner skips before it stops, and what stops it.
  lemma {:induction false} ScanSplits(s: seq<Byte>) returns (fields: seq<seq<Byte>>, rest: seq<Byte>)
    ensures s == Concat(fields) + rest && AllFields(fields)
    ensures Scan(s).Accepted? <==> rest == []
    ensures Scan(s).TrainingInfo? <==> rest != [] && HeadOf(rest).TrainingHead?
    ensures Scan(s).Malformed? <==> rest != [] && HeadOf(rest).BadHead?
  {
    if s == [] || !HeadOf(s).Field? {
      fields, rest := [], s;
      assert Concat(fields) + rest == s;
    } else {
      var n := HeadOf(s).length;
      HeadIsField(s);
      var skipped;
      skipped, rest := ScanSplits(s[n..]);
      fields := [s[..n]] + skipped;
      FieldsCons(s[..n], skipped, rest);
      assert s == s[..n] + s[n..];
    }
  }

  // The scan accepts exactly the concatenations of fields.
  lemma {:induction false} ScanAcceptsMessages(s: seq<Byte>)
    ensures Scan(s).Accepted? <==> IsMessage(s)
  {
    if IsMessage(s) {
      var fields :| Concat(fields) == s && AllFields(fields);
      ScanSkips(fields, []);
      assert s + [] == s;
    }
    if Scan(s).Accepted? {
      var fields, rest := ScanSplits(s);
      assert Concat(fields) + [] == Concat(fields);
    }
  }

  // A byte string that carries training_info after some skippable fields.
  ghost predicate HasTrainingInfo(s: seq<Byte>, n: nat, t: nat) {
    && n + t <= |s| && IsMessage(s[..n])
    && IsVarint(s[n..n + t]) && VarintValue(s[n..n + t]) / 8 == TRAINING_INFO_FIELD
  }

  // training_info is reported exactly when its tag follows complete fields.
  lemma {:induction false} ScanFindsTrainingInfo(s: seq<Byte>)
    ensures Scan(s).TrainingInfo? <==> exists n: nat, t: nat :: HasTrainingInfo(s, n, t)
  {
    if Scan(s).TrainingInfo? {
      var n, t := TrainingInfoFound(s);
    }
    if n: nat, t: nat :| HasTrainingInfo(s, n, t) {
      TrainingInfoReported(s, n, t);
    }
  }

  lemma {:induction false} TrainingInfoFound(s: seq<Byte>) returns (n: nat, t: nat)
    requires Scan(s).TrainingInfo?
    ensures HasTrainingInfo(s, n, t)
  {
    var fields, rest := ScanSplits(s);
    n, t := |Concat(fields)|, HeadVarint(rest).value;
    assert s[..n] == Concat(fields) && s[n..n + t] == rest[..t];
  }

  lemma {:induction false} TrainingInfoReported(s: seq<Byte>, n: nat, t: nat)
    requires HasTrainingInfo(s, n, t)
    ensures Scan(s).TrainingInfo?
  {
    var fields :| Concat(fields) == s[..n] && AllFields(fields);
    var tag, rest := s[n..n + t], s[n + t..];
    assert s == Concat(fields) + (tag + rest);
    ScanSkips(fields, tag + rest);
    HeadVarintOf(tag, rest);
    assert (tag + rest)[..t] == tag;
  }

  // Nothing inside a length-delimited payload matters: another body of the same length is skipped as well.
  lemma {:induction false} PayloadIgnored(fields: seq<seq<Byte>>, tag: seq<Byte>, length: seq<Byte>, body: seq<Byte>,
                                           body': seq<Byte>, rest: seq<Byte>)
    requires AllFields(fields) && IsVarint(tag) && IsVarint(length) && |body| == |body'| == VarintValue(length)
    requires VarintValue(tag) % 8 == 2 && 0 < VarintValue(tag) / 8 < FIELD_NUMBER_LIMIT
    requires VarintValue(tag) / 8 != TRAINING_INFO_FIELD
    ensures Scan(Concat(fields) + (tag + length + body + rest)) == Scan(rest)
    ensures Scan(Concat(fields) + (tag + length + body' + rest)) == Scan(Concat(fields) + (tag + length + body + rest))
  {
    DelimitedIsField(tag, length, body);
    DelimitedIsField(tag, length, body');
    forall b | b == body || b == body'
      ensures Scan(Concat(fields) + (tag + length + b + rest)) == Scan(rest)
    {
      var f := tag + length + b;
      ScanSkips(fields, f + rest);
      FieldIsHead(f, rest);
      assert (f + rest)[|f|..] == rest;
    }
  }

  lemma {:induction false} DelimitedIsField(tag: seq<Byte>, length: seq<Byte>, body: seq<Byte>)
    requires IsVarint(tag) && IsVarint(length) && |body| == VarintValue(length)
    requires VarintValue(tag) % 8 == 2 && 0 < VarintValue(tag) / 8 < FIELD_NUMBER_LIMIT
    requires VarintValue(tag) / 8 != TRAINING_INFO_FIELD
    ensures IsField(tag + length + body)
  {
    var f, p := tag + length + body, length + body;
    assert f[..|tag|] == tag && f[|tag|..] == p;
    assert p[..|length|] == length;
    assert IsFieldWithTag(f, |tag|);
  }

  // ----- the scanner on a stream -----

  lemma {:induction false} OrInGroup(s: seq<Byte>, k: nat)
    requires k < |s|
    ensures BitOr(VarintValue(s[..k]), s[k] % 128 * Pow2(7 * k)) == VarintValue(s[..k + 1])
  {
    assert s[..k + 1] == s[..k] + [s[k]];
    VarintValueAppend(s[..k], s[k]);
    Pow2Of7(k);
    BitOrShifted(VarintValue(s[..k]), s[k] % 128, 7 * k);
  }

  lemma {:induction false} VarintEnds(s: seq<Byte>, k: nat)
    requires k < 10 && k < |s| && (forall i | 0 <= i < k :: s[i] >= 128) && s[k] < 128 && (k == 9 ==> s[9] <= 1)
    ensures HeadVarint(s) == Some(k + 1)
  {
    assert s == s[..k + 1] + s[k + 1..];
    HeadVarintOf(s[..k + 1], s[k + 1..]);
  }

  // The open file: `size` is fixed when it is opened, `pos` is what `tell` answers.
  class Stream {
    const data: seq<Byte>
    var pos: nat

    constructor (data: seq<Byte>)
      ensures this.data == data && pos == 0
    {
      this.data := data;
      pos := 0;
    }

    ghost predicate Valid()
      reads this
    {
      pos <= |data|
    }

    ghost function Rest(): seq<Byte>
      requires Valid()
      reads this
    {
      data[pos..]
    }

    method Read1() returns (b: Option<Byte>)
      requires Valid()
      modifies this
      ensures Valid()
      ensures if old(pos) == |data| then b.None? && pos == old(pos)
              else b == Some(data[old(pos)]) && pos == old(pos) + 1
    {
      if pos == |data| {
        return None;
      }
      b := Some(data[pos]);
      pos := pos + 1;
    }

    // read_varint: the varint at the position, which is left after it; None if there is none.
    method ReadVarint() returns (r: Option<nat>)
      requires Valid()
      modifies this
      ensures Valid()
      ensures r.Some? <==> old(HeadVarint(Rest())).Some?
      ensures r.Some? ==>
        var n := old(HeadVarint(Rest())).value;
        pos == old(pos) + n && r.value == VarintValue(old(Rest())[..n])
    {
      ghost var rest := Rest();
      var value: nat := 0;
      for k := 0 to 10
        invariant Valid() && pos == old(pos) + k && k <= |rest|
        invariant value == VarintValue(rest[..k])
        invariant forall i | 0 <= i < k :: rest[i] >= 128
      {
        var byte := Read1();
        if byte.None? || (7 * k == 63 && byte.value > 1) {
          NoVarint(rest, k);
          return None;
        }
        OrInGroup(rest, k);
        value := BitOr(value, byte.value % 128 * Pow2(7 * k));
        if byte.value < 128 {
          VarintEnds(rest, k);
          return Some(value);
        }
      }
      NoVarint(rest, 10);
      return None;
    }
  }

  // After `k` continuation bytes, the end of the data, a large tenth byte or an eleventh byte rule out any varint.
  lemma {:induction false} NoVarint(s: seq<Byte>, k: nat)
    requires k <= 10 && k <= |s| && forall i | 0 <= i < k :: s[i] >= 128
    requires k == |s| || (k == 9 && s[9] > 1) || k == 10
    ensures HeadVarint(s).None?
  {
    forall n: nat | n <= |s| ensures !IsVarint(s[..n]) {
      if n > 0 {
        assert s[..n][n - 1] == s[n - 1];
      }
      assert n > 9 ==> s[..n][9] == s[9];
    }
  }

  // The part of the loop after the checks on the tag: skips one payload; false if it is malformed or truncated.
  method SkipPayload(stream: Stream, wire: nat) returns (ok: bool)
    requires stream.Valid()
    modifies stream
    ensures stream.Valid()
    ensures ok <==> old(HeadPayload(wire, stream.Rest())).Some?
    ensures ok ==> stream.pos == old(stream.pos) + old(HeadPayload(wire, stream.Rest())).value
  {
    if wire == 0 {
      var skipped := stream.ReadVarint();
      return skipped.Some?;
    }
    var length: nat;
    if wire == 2 {
      var l := stream.ReadVarint();
      if l.None? {
        return false;
      }
      length := l.value;
    } else if wire == 1 || wire == 5 {
      length := if wire == 1 then 8 else 4;
    } else {
      return false;
    }
    if length > |stream.data| - stream.pos {
      return false;
    }
    stream.pos := stream.pos + length;
    ok := true;
  }

  // The body of the loop: None when a whole field has been skipped.
  method SkipField(stream: Stream) returns (r: Option<Outcome>)
    requires stream.Valid()
    modifies stream
    ensures stream.Valid()
    ensures match old(HeadOf(stream.Rest()))
      case Field(n) => r.None? && stream.pos == old(stream.pos) + n
      case TrainingHead => r == Some(TrainingInfo)
      case BadHead => r == Some(Malformed)
  {
    ghost var rest := stream.Rest();
    var tag := stream.ReadVarint();
    if tag.None? {
      return Some(Malformed);
    }
    var number, wire := tag.value / 8, tag.value % 8;
    if number == TRAINING_INFO_FIELD {
      return Some(TrainingInfo);
    }
    if number == 0 || number >= FIELD_NUMBER_LIMIT {
      return Some(Malformed);
    }
    assert stream.Rest() == rest[HeadVarint(rest).value..];
    var ok := SkipPayload(stream, wire);
    r := if ok then None else Some(Malformed);
  }

  // The loop over the fields of a file of any content. It ends, never past the end of the file, with the outcome of the
  // scan; so it accepts exactly the messages.
  method RejectTrainingInfo(stream: Stream) returns (r: Outcome)
    requires stream.pos == 0
    modifies stream
    ensures stream.Valid() && r == Scan(stream.data)
    ensures r.Accepted? <==> IsMessage(stream.data)
  {
    while stream.pos < |stream.data|
      invariant stream.Valid() && Scan(stream.Rest()) == Scan(stream.data)
      decreases |stream.data| - stream.pos
    {
      ghost var rest, start := stream.Rest(), stream.pos;
      var stop := SkipField(stream);
      if stop.Some? {
        r := stop.value;
        ScanAcceptsMessages(stream.data);
        return;
      }
      assert stream.Rest() == rest[stream.pos - start..];
    }
    r := Accepted;
    ScanAcceptsMessages(stream.data);
  }
}
