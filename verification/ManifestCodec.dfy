/** One definite-length map whose keys are 1, 2, 3, ... in order. */
module KeyedLayout {
  import opened Format
  import opened BigEndian

  const MAP_FIELDS: Byte := 8
  const MAP_HEADER: Byte := 0xa0 + MAP_FIELDS

  /** The map header, then keys 1, 2, 3, ... each followed by its value. */
  function Layout(values: seq<Bytes>): (b: Bytes)
    requires |values| <= MAP_FIELDS
  {
    if values == [] then [MAP_HEADER]
    else Layout(values[..|values| - 1]) + [|values|] + values[|values| - 1]
  }

  lemma LayoutSnoc(values: seq<Bytes>, v: Bytes)
    requires |values| < MAP_FIELDS
    ensures Layout(values + [v]) == Layout(values) + [|values| + 1] + v
    ensures |Layout(values + [v])| == |Layout(values)| + 1 + |v|
  {
    var w := values + [v];
    assert w[..|w| - 1] == values;
  }

  /** A front part of `s` and what follows it. */
  lemma SplitPrefix(a: Bytes, b: Bytes, s: Bytes)
    requires a + b <= s
    ensures a <= s && b <= s[|a|..]
  {
    assert a == (a + b)[..|a|] && b == (a + b)[|a|..];
  }

  lemma OneIsPrefix(x: Bytes, y: Bytes, t: Bytes)
    requires x <= t && y <= t
    ensures x <= y || y <= x
  {
  }

  /** Values at equal positions are equal as soon as one is a front part of the other. */
  ghost predicate Independent(a: seq<Bytes>, b: seq<Bytes>) {
    forall i :: 0 <= i < |a| && i < |b| && (a[i] <= b[i] || b[i] <= a[i]) ==> a[i] == b[i]
  }

  lemma {:induction false} LayoutGrows(values: seq<Bytes>, k: nat)
    requires k <= |values| <= MAP_FIELDS
    ensures Layout(values[..k]) <= Layout(values)
  {
    if k < |values| {
      var init := values[..|values| - 1];
      LayoutGrows(init, k);
      assert init[..k] == values[..k];
    } else {
      assert values[..k] == values;
    }
  }

  lemma SplitLayout(values: seq<Bytes>, k: nat, s: Bytes)
    requires |values| == k + 1 <= MAP_FIELDS && Layout(values) <= s
    ensures Layout(values[..k]) <= s && |Layout(values[..k])| < |s|
    ensures values[k] <= s[|Layout(values[..k])| + 1..]
  {
    var front := Layout(values[..k]) + [k + 1];
    assert Layout(values) == front + values[k];
    SplitPrefix(front, values[k], s);
    SplitPrefix(Layout(values[..k]), [k + 1], s);
  }

  /** At most one list of independent field values can lie at the front of `s`. */
  lemma {:induction false} LayoutsAgree(a: seq<Bytes>, b: seq<Bytes>, s: Bytes)
    requires |a| == |b| <= MAP_FIELDS
    requires Independent(a, b)
    requires Layout(a) <= s && Layout(b) <= s
    ensures a == b
  {
    if a == [] {
    } else {
      var k := |a| - 1;
      var a', b' := a[..k], b[..k];
      SplitLayout(a, k, s);
      SplitLayout(b, k, s);
      assert Independent(a', b') by {
        assert forall i :: 0 <= i < k ==> a'[i] == a[i] && b'[i] == b[i];
      }
      LayoutsAgree(a', b', s);
      OneIsPrefix(a[k], b[k], s[|Layout(a')| + 1..]);
      assert a == a' + [a[k]] && b == b' + [b[k]];
    }
  }

  lemma LayoutStep(v: seq<Bytes>, k: nat)
    requires k < |v| <= MAP_FIELDS
    ensures Layout(v[..k + 1]) == Layout(v[..k]) + ([k + 1] + v[k])
  {
    assert v[..k + 1] == v[..k] + [v[k]];
    LayoutSnoc(v[..k], v[k]);
    Regroup(Layout(v[..k]), [k + 1], v[k]);
  }

  lemma LayoutNext(v: seq<Bytes>, k: nat)
    requires k < |v| <= MAP_FIELDS
    ensures Layout(v[..k]) + ([k + 1] + v[k]) <= Layout(v)
  {
    LayoutStep(v, k);
    LayoutGrows(v, k + 1);
  }

  lemma ReadIsPrefix(input: Bytes, read: seq<Bytes>, v: seq<Bytes>)
    requires |read| < |v| <= MAP_FIELDS && Independent(read, v)
    requires Layout(read) <= input && Layout(v) == input
    ensures read == v[..|read|]
  {
    var w := v[..|read|];
    LayoutGrows(v, |read|);
    assert Independent(read, w) by {
      assert forall i :: 0 <= i < |read| ==> w[i] == v[i];
    }
    LayoutsAgree(read, w, input);
  }

  /** A layout that extends the values already read continues with its own next value. */
  lemma NextValue(input: Bytes, read: seq<Bytes>, v: seq<Bytes>)
    requires |read| < |v| <= MAP_FIELDS && Independent(read, v)
    requires Layout(read) <= input && Layout(v) == input
    ensures [|read| + 1] + v[|read|] <= input[|Layout(read)|..]
  {
    ReadIsPrefix(input, read, v);
    LayoutNext(v, |read|);
    SplitPrefix(Layout(read), [|read| + 1] + v[|read|], input);
  }

  lemma LengthStep(v: seq<Bytes>, k: nat)
    requires k < |v| <= MAP_FIELDS
    ensures |Layout(v[..k + 1])| == |Layout(v[..k])| + 1 + |v[k]|
  {
    assert v[..k + 1] == v[..k] + [v[k]];
    LayoutSnoc(v[..k], v[k]);
  }

  lemma FirstHalfLength(v: seq<Bytes>)
    requires |v| == MAP_FIELDS
    ensures |Layout(v[..4])| == 5 + |v[0]| + |v[1]| + |v[2]| + |v[3]|
  {
    LengthStep(v, 0);
    LengthStep(v, 1);
    LengthStep(v, 2);
    LengthStep(v, 3);
  }

  lemma LayoutLength(v: seq<Bytes>)
    requires |v| == MAP_FIELDS
    ensures |Layout(v)| == 9 + |v[0]| + |v[1]| + |v[2]| + |v[3]| + |v[4]| + |v[5]| + |v[6]| + |v[7]|
  {
    FirstHalfLength(v);
    LengthStep(v, 4);
    LengthStep(v, 5);
    LengthStep(v, 6);
    LengthStep(v, 7);
    assert v[..8] == v;
  }

  /** Reading one more field extends the layout read so far. */
  lemma Advance(input: Bytes, read: seq<Bytes>, k: Byte, value: Bytes, start: nat, end: nat)
    requires k == |read| + 1 <= MAP_FIELDS
    requires start <= end <= |input|
    requires input[..start] == Layout(read) && input[start..end] == [k] + value
    ensures input[..end] == Layout(read + [value])
  {
    LayoutSnoc(read, value);
    assert input[..end] == input[..start] + input[start..end];
    Regroup(Layout(read), [k], value);
  }
}

/** The deterministic CBOR subset that carries a Manifest. */
module ManifestCodec {
  import opened Format
  import opened BigEndian
  import opened KeyedLayout

  // ----- Canonical heads -----

  /** The additional-information bits that the shortest form of `value` uses. */
  function CanonicalAdditional(value: U64): (a: Byte)
    ensures a < 28
  {
    if value <= 0x17 then value
    else if value <= 0xff then 24
    else if value <= 0xffff then 25
    else if value <= 0xffff_ffff then 26
    else 27
  }

  /** Number of argument bytes announced by additional-information bits below 28. */
  function ArgumentWidth(additional: Byte): (w: nat)
    requires additional < 28
    ensures w <= 8
  {
    if additional < 24 then 0
    else if additional == 24 then 1
    else if additional == 25 then 2
    else if additional == 26 then 4
    else 8
  }

  lemma ArgumentFits(value: U64)
    ensures CanonicalAdditional(value) >= 24 ==> value < Pow256(ArgumentWidth(CanonicalAdditional(value)))
  {
    Widths();
  }

  /** The head of a data item in its shortest form. */
  function Head(major: nat, value: U64): (b: Bytes)
    requires major < 8
    ensures 1 <= |b| <= 9
  {
    var a := CanonicalAdditional(value);
    ArgumentFits(value);
    [32 * major + a] + (if a < 24 then [] else ToBytes(value, ArgumentWidth(a)))
  }

  /** Every head that section 3 of RFC 8949 allows for `value`, canonical or not. */
  ghost predicate IsHead(b: Bytes, major: nat, value: U64) {
    && b != []
    && b[0] / 32 == major
    && b[0] % 32 < 28
    && |b| == 1 + ArgumentWidth(b[0] % 32)
    && value == if b[0] % 32 < 24 then b[0] % 32 else FromBytes(b[1..])
  }

  /** Section 4.2.1 of RFC 8949: the canonical head is the one shortest head of its value. */
  lemma HeadIsUniqueShortest(major: nat, value: U64, b: Bytes)
    requires major < 8
    ensures IsHead(Head(major, value), major, value)
    ensures IsHead(b, major, value) ==> |Head(major, value)| <= |b|
    ensures IsHead(b, major, value) && |b| == |Head(major, value)| ==> b == Head(major, value)
  {
    var h := Head(major, value);
    var a := CanonicalAdditional(value);
    Widths();
    if a >= 24 {
      assert h[1..] == ToBytes(value, ArgumentWidth(a));
      FromToBytes(value, ArgumentWidth(a));
    }
    if IsHead(b, major, value) {
      assert b == [b[0]] + b[1..];
      ToFromBytes(b[1..]);
    }
  }

  /** A canonical head at the front of `s` is determined by `s`. */
  lemma HeadPrefix(major: nat, value: U64, s: Bytes)
    requires major < 8
    requires Head(major, value) <= s
    ensures s[0] == 32 * major + CanonicalAdditional(value)
    ensures CanonicalAdditional(value) >= 24 ==>
              var w := ArgumentWidth(CanonicalAdditional(value));
              |s| >= 1 + w && FromBytes(s[1..1 + w]) == value
  {
    var a := CanonicalAdditional(value);
    assert s[0] == Head(major, value)[0];
    if a >= 24 {
      var w := ArgumentWidth(a);
      ArgumentFits(value);
      assert s[1..1 + w] == Head(major, value)[1..1 + w] == ToBytes(value, w);
      FromToBytes(value, w);
    }
  }

  lemma HeadsAgree(major: nat, v1: U64, v2: U64, s: Bytes)
    requires major < 8
    requires Head(major, v1) <= s && Head(major, v2) <= s
    ensures v1 == v2
  {
    HeadPrefix(major, v1, s);
    HeadPrefix(major, v2, s);
  }

  /** Inputs at whose front no canonical head of this major type can lie. */
  lemma NoHead(major: nat, s: Bytes)
    requires major < 8
    ensures s == [] || s[0] / 32 != major || s[0] % 32 >= 28 || |s| < 1 + ArgumentWidth(s[0] % 32) ==>
              forall v: U64 :: !(Head(major, v) <= s)
  {
    forall v: U64 | Head(major, v) <= s
      ensures s != [] && s[0] == 32 * major + CanonicalAdditional(v)
      ensures |s| >= 1 + ArgumentWidth(CanonicalAdditional(v))
    {
      HeadPrefix(major, v, s);
    }
  }

  /** The value announced at the front of `s` is in canonical form, or no canonical head lies there. */
  lemma HeadRead(major: nat, additional: Byte, s: Bytes, value: nat)
    requires major < 8 && additional < 28
    requires |s| >= 1 + ArgumentWidth(additional) && s[0] == 32 * major + additional
    requires value == if additional < 24 then additional else FromBytes(s[1..1 + ArgumentWidth(additional)])
    ensures value < 0x1_0000_0000_0000_0000
    ensures CanonicalAdditional(value) == additional ==> s[..1 + ArgumentWidth(additional)] == Head(major, value)
    ensures CanonicalAdditional(value) != additional ==> forall v: U64 :: !(Head(major, v) <= s)
  {
    var w := ArgumentWidth(additional);
    Widths();
    ToFromBytes(s[1..1 + w]);
    assert s[..1 + w] == [s[0]] + s[1..1 + w];
    forall v: U64 | Head(major, v) <= s
      ensures CanonicalAdditional(v) == additional && v == value
    {
      HeadPrefix(major, v, s);
    }
  }

  // ----- The encoder -----

  /** The encoded values of the eight fields, in key order. */
  function Values(m: Manifest): (v: seq<Bytes>)
    ensures |v| == MAP_FIELDS
  {
    [ Head(0, m.formatVersion),
      Head(2, 16) + m.objectId,
      Head(2, 16) + m.versionId,
      Head(0, m.plaintextLen),
      Head(0, m.chunkSize),
      Head(0, m.chunkCount),
      Head(2, 32) + m.chunkDigest,
      Head(0, 1) ]
  }

  function Encoded(m: Manifest): (b: Bytes) {
    Layout(Values(m))
  }

  /** The head of a small value is one byte. */
  lemma SmallHead(major: nat, value: U64)
    requires major < 8 && value <= 0x17
    ensures Head(major, value) == [32 * major + value]
  {
  }

  /** Bytes that end with the argument of the canonical head of a larger value. */
  ghost predicate EndsWithArgument(bytes: Bytes, value: U64)
    requires |bytes| == 8 && value > 0x17
  {
    var width := ArgumentWidth(CanonicalAdditional(value));
    ArgumentFits(value);
    bytes[8 - width..] == ToBytes(value, width)
  }

  /** The eight-byte form of a value ends with the byte or the bytes that its canonical head needs. */
  method ToBeBytes(value: U64) returns (bytes: Bytes)
    ensures |bytes| == 8
    ensures if value <= 0x17 then bytes[7] == value else EndsWithArgument(bytes, value)
  {
    bytes := U64Bytes(value);
    Widths();
    if value <= 0x17 {
      LastByte(value, 8);
    } else {
      ArgumentFits(value);
      LowBytes(value, 8, ArgumentWidth(CanonicalAdditional(value)));
    }
  }

  method PutMajorUint(output: Bytes, major: nat, value: U64) returns (r: Bytes)
    requires major < 8
    ensures r == output + Head(major, value)
  {
    var bytes := ToBeBytes(value);
    if value <= 0x17 {
      SmallHead(major, value);
      r := output + [32 * major + bytes[7]];
      return;
    }
    var additional, argument := 0x1b, bytes[0..];
    if value <= 0xff {
      additional, argument := 0x18, bytes[7..];
    } else if value <= 0xffff {
      additional, argument := 0x19, bytes[6..];
    } else if value <= 0xffff_ffff {
      additional, argument := 0x1a, bytes[4..];
    }
    r := output + [32 * major + additional];
    r := r + argument;
    Regroup(output, [32 * major + additional], argument);
  }

  method PutUint(output: Bytes, key: Byte, value: U64) returns (r: Bytes)
    ensures r == output + [key] + Head(0, value)
  {
    r := PutMajorUint(output + [key], 0, value);
  }

  method PutBytes(output: Bytes, key: Byte, bytes: Bytes) returns (r: Bytes)
    requires |bytes| < 0x1_0000_0000_0000_0000
    ensures r == output + [key] + (Head(2, |bytes|) + bytes)
  {
    r := PutMajorUint(output + [key], 2, |bytes|);
    r := r + bytes;
  }

  method EncodeManifest(m: Manifest) returns (output: Bytes)
    ensures output == Encoded(m)
  {
    ghost var v, done: seq<Bytes> := Values(m), [];
    output := [MAP_HEADER];
    output := PutUint(output, 1, m.formatVersion);
    LayoutSnoc(done, v[0]);
    done := done + [v[0]];
    assert output == Layout(done);
    output := PutBytes(output, 2, m.objectId);
    LayoutSnoc(done, v[1]);
    done := done + [v[1]];
    assert output == Layout(done);
    output := PutBytes(output, 3, m.versionId);
    LayoutSnoc(done, v[2]);
    done := done + [v[2]];
    assert output == Layout(done);
    output := PutUint(output, 4, m.plaintextLen);
    LayoutSnoc(done, v[3]);
    done := done + [v[3]];
    assert output == Layout(done);
    output := PutUint(output, 5, m.chunkSize);
    LayoutSnoc(done, v[4]);
    done := done + [v[4]];
    assert output == Layout(done);
    output := PutUint(output, 6, m.chunkCount);
    LayoutSnoc(done, v[5]);
    done := done + [v[5]];
    assert output == Layout(done);
    output := PutBytes(output, 7, m.chunkDigest);
    LayoutSnoc(done, v[6]);
    done := done + [v[6]];
    assert output == Layout(done);
    output := PutUint(output, 8, 1);
    LayoutSnoc(done, v[7]);
    done := done + [v[7]];
    assert output == Layout(done);
    assert done == v;
  }

  // ----- Encodings are prefix free -----

  ghost predicate IsUint(b: Bytes, bound: nat) {
    exists v: U64 :: v < bound && b == Head(0, v)
  }

  ghost predicate IsByteString(b: Bytes, length: U64) {
    exists x: Bytes :: |x| == length && b == Head(2, length) + x
  }

  /** `b` is an encoded value that field `k` may carry. */
  ghost predicate IsValue(k: nat, b: Bytes) {
    match k
    case 1 => IsUint(b, 0x1_0000_0000)
    case 2 => IsByteString(b, 16)
    case 3 => IsByteString(b, 16)
    case 4 => IsUint(b, 0x1_0000_0000_0000_0000)
    case 5 => IsUint(b, 0x1_0000_0000)
    case 6 => IsUint(b, 0x1_0000_0000)
    case 7 => IsByteString(b, 32)
    case _ => b == Head(0, 1)
  }

  lemma UintsAgree(b1: Bytes, b2: Bytes, n1: nat, n2: nat, s: Bytes)
    requires IsUint(b1, n1) && IsUint(b2, n2)
    requires b1 <= s && b2 <= s
    ensures b1 == b2
  {
    var v1: U64 :| v1 < n1 && b1 == Head(0, v1);
    var v2: U64 :| v2 < n2 && b2 == Head(0, v2);
    HeadsAgree(0, v1, v2, s);
  }

  lemma ByteStringsAgree(b1: Bytes, b2: Bytes, n: U64, s: Bytes)
    requires IsByteString(b1, n) && IsByteString(b2, n)
    requires b1 <= s && b2 <= s
    ensures b1 == b2
  {
    assert |b1| == |Head(2, n)| + n == |b2|;
  }

  lemma ValuesAgree(k: nat, b1: Bytes, b2: Bytes, s: Bytes)
    requires IsValue(k, b1) && IsValue(k, b2)
    requires b1 <= s && b2 <= s
    ensures b1 == b2
  {
    match k
    case 1 => UintsAgree(b1, b2, 0x1_0000_0000, 0x1_0000_0000, s);
    case 2 => ByteStringsAgree(b1, b2, 16, s);
    case 3 => ByteStringsAgree(b1, b2, 16, s);
    case 4 => UintsAgree(b1, b2, 0x1_0000_0000_0000_0000, 0x1_0000_0000_0000_0000, s);
    case 5 => UintsAgree(b1, b2, 0x1_0000_0000, 0x1_0000_0000, s);
    case 6 => UintsAgree(b1, b2, 0x1_0000_0000, 0x1_0000_0000, s);
    case 7 => ByteStringsAgree(b1, b2, 32, s);
    case _ =>
  }

  ghost predicate AllValues(values: seq<Bytes>) {
    forall i :: 0 <= i < |values| ==> IsValue(i + 1, values[i])
  }

  lemma ValuesAreIndependent(a: seq<Bytes>, b: seq<Bytes>)
    requires |a| <= |b| && AllValues(a) && AllValues(b)
    ensures Independent(a, b)
  {
    forall i | 0 <= i < |a| && (a[i] <= b[i] || b[i] <= a[i])
      ensures a[i] == b[i]
    {
      ValuesAgree(i + 1, a[i], b[i], if a[i] <= b[i] then b[i] else a[i]);
    }
  }

  lemma ValuesAreValues(m: Manifest)
    ensures AllValues(Values(m))
  {
    var v := Values(m);
    assert IsUint(v[0], 0x1_0000_0000) && IsUint(v[4], 0x1_0000_0000) && IsUint(v[5], 0x1_0000_0000);
    assert IsUint(v[3], 0x1_0000_0000_0000_0000);
    assert IsByteString(v[1], 16) && IsByteString(v[2], 16) && IsByteString(v[6], 32);
  }

  lemma ValuesInjective(m: Manifest, n: Manifest)
    requires Values(m) == Values(n)
    ensures m == n
  {
    var v, w := Values(m), Values(n);
    HeadsAgree(0, m.formatVersion, n.formatVersion, v[0]);
    HeadsAgree(0, m.plaintextLen, n.plaintextLen, v[3]);
    HeadsAgree(0, m.chunkSize, n.chunkSize, v[4]);
    HeadsAgree(0, m.chunkCount, n.chunkCount, v[5]);
    SplitPrefix(Head(2, 16), m.objectId, v[1]);
    SplitPrefix(Head(2, 16), n.objectId, w[1]);
    SplitPrefix(Head(2, 16), m.versionId, v[2]);
    SplitPrefix(Head(2, 16), n.versionId, w[2]);
    SplitPrefix(Head(2, 32), m.chunkDigest, v[6]);
    SplitPrefix(Head(2, 32), n.chunkDigest, w[6]);
  }

  lemma EncodedInjective(m: Manifest, n: Manifest)
    requires Encoded(m) == Encoded(n)
    ensures m == n
  {
    ValuesAreValues(m);
    ValuesAreValues(n);
    ValuesAreIndependent(Values(m), Values(n));
    LayoutsAgree(Values(m), Values(n), Encoded(m));
    ValuesInjective(m, n);
  }

  lemma HeadLength(major: nat, value: U64)
    requires major < 8
    ensures 1 <= |Head(major, value)| <= 9
    ensures value < 0x1_0000_0000 ==> |Head(major, value)| <= 5
  {
  }

  lemma EncodedLength(m: Manifest)
    ensures 82 <= |Encoded(m)| <= 102
  {
    var v := Values(m);
    LayoutLength(v);
    HeadLength(0, m.formatVersion);
    HeadLength(0, m.plaintextLen);
    HeadLength(0, m.chunkSize);
    HeadLength(0, m.chunkCount);
    assert |v[1]| == 17 && |v[2]| == 17 && |v[6]| == 34 && |v[7]| == 1;
  }

  // ----- The decoder -----

  class Decoder {
    const input: Bytes
    var offset: nat

    ghost predicate Valid()
      reads this
    {
      offset <= |input|
    }

    constructor (input: Bytes)
      ensures Valid() && this.input == input && offset == 0
    {
      this.input := input;
      offset := 0;
    }

    method Take() returns (r: Result<Byte>)
      requires Valid()
      modifies this
      ensures Valid() && old(offset) <= offset
      ensures r.Ok? <==> old(offset) < |input|
      ensures r.Ok? ==> r.value == input[old(offset)] && offset == old(offset) + 1
    {
      if offset >= |input| {
        return Err(InvalidFormat);
      }
      r := Ok(input[offset]);
      offset := offset + 1;
    }

    method ReadFixed(width: nat) returns (r: Result<Bytes>)
      requires Valid()
      modifies this
      ensures Valid() && old(offset) <= offset
      ensures r.Ok? <==> old(offset) + width <= |input|
      ensures r.Ok? ==> offset == old(offset) + width && r.value == input[old(offset)..offset]
    {
      var end := offset + width;
      if end > |input| {
        return Err(InvalidFormat);
      }
      r := Ok(input[offset..end]);
      offset := end;
    }

    /** Succeeds on exactly the inputs that continue with a canonical head of this major type. */
    method ReadMajorUint(major: nat) returns (r: Result<U64>)
      requires Valid() && major < 8
      modifies this
      ensures Valid() && old(offset) <= offset
      ensures r.Ok? ==> input[old(offset)..offset] == Head(major, r.value)
      ensures r.Err? ==> forall v: U64 :: !(Head(major, v) <= input[old(offset)..])
    {
      ghost var rest := input[offset..];
      NoHead(major, rest);
      var initial :- Take();
      if initial / 32 != major {
        return Err(InvalidFormat);
      }
      var additional := initial % 32;
      if additional >= 28 {
        return Err(InvalidFormat);
      }
      var bytes :- ReadFixed(ArgumentWidth(additional));
      assert bytes == rest[1..1 + ArgumentWidth(additional)];
      var value := if additional < 24 then additional else FromBytes(bytes);
      HeadRead(major, additional, rest, value);
      if CanonicalAdditional(value) != additional {
        return Err(InvalidFormat);
      }
      assert input[old(offset)..offset] == rest[..1 + ArgumentWidth(additional)];
      r := Ok(value);
    }

    method ReadUint() returns (r: Result<U64>)
      requires Valid()
      modifies this
      ensures Valid() && old(offset) <= offset
      ensures r.Ok? ==> input[old(offset)..offset] == Head(0, r.value)
      ensures r.Err? ==> forall v: U64 :: !(Head(0, v) <= input[old(offset)..])
    {
      r := ReadMajorUint(0);
    }

    method ReadBytesExact(length: nat) returns (r: Result<Bytes>)
      requires Valid() && length < 0x1_0000_0000_0000_0000
      modifies this
      ensures Valid() && old(offset) <= offset
      ensures r.Ok? ==> |r.value| == length && input[old(offset)..offset] == Head(2, length) + r.value
      ensures r.Err? ==> forall b: Bytes :: |b| == length ==> !(Head(2, length) + b <= input[old(offset)..])
    {
      ghost var h, rest := Head(2, length), input[offset..];
      forall b: Bytes | h + b <= rest
        ensures h <= rest
      {
        SplitPrefix(h, b, rest);
      }
      var announced :- ReadMajorUint(2);
      assert Head(2, announced) <= rest;
      if announced != length {
        if h <= rest {
          HeadsAgree(2, announced, length, rest);
        }
        return Err(InvalidFormat);
      }
      ghost var start := offset;
      r := ReadFixed(length);
      if r.Ok? {
        assert input[old(offset)..offset] == input[old(offset)..start] + input[start..offset];
      } else {
        assert |rest| < |h| + length;
      }
    }
  }

  /** The fields read so far. */
  datatype Partial = Partial(
    formatVersion: Option<U32>,
    objectId: Option<ObjectId>,
    versionId: Option<VersionId>,
    plaintextLen: Option<U64>,
    chunkSize: Option<U32>,
    chunkCount: Option<U32>,
    chunkDigest: Option<Bytes32>)

  /** `p` holds the fields whose encoded values are `read`. */
  ghost predicate Holds(p: Partial, read: seq<Bytes>) {
    && (|read| >= 1 ==> p.formatVersion.Some? && read[0] == Head(0, p.formatVersion.value))
    && (|read| >= 2 ==> p.objectId.Some? && read[1] == Head(2, 16) + p.objectId.value)
    && (|read| >= 3 ==> p.versionId.Some? && read[2] == Head(2, 16) + p.versionId.value)
    && (|read| >= 4 ==> p.plaintextLen.Some? && read[3] == Head(0, p.plaintextLen.value))
    && (|read| >= 5 ==> p.chunkSize.Some? && read[4] == Head(0, p.chunkSize.value))
    && (|read| >= 6 ==> p.chunkCount.Some? && read[5] == Head(0, p.chunkCount.value))
    && (|read| >= 7 ==> p.chunkDigest.Some? && read[6] == Head(2, 32) + p.chunkDigest.value)
    && (|read| >= 8 ==> read[7] == Head(0, 1))
  }

  /** The Manifest whose eight fields have been read. */
  function Assemble(p: Partial, ghost read: seq<Bytes>): (m: Manifest)
    requires |read| == MAP_FIELDS && Holds(p, read)
    ensures Values(m) == read
  {
    Manifest(p.formatVersion.value, p.objectId.value, p.versionId.value, p.plaintextLen.value,
             p.chunkSize.value, p.chunkCount.value, p.chunkDigest.value)
  }

  /** If no value for the next key can follow, no Manifest encodes to `input`. */
  lemma NoManifest(input: Bytes, read: seq<Bytes>, k: Byte, offset: nat)
    requires k == |read| + 1 <= MAP_FIELDS && AllValues(read)
    requires offset <= |input| && input[..offset] == Layout(read)
    requires forall b: Bytes :: IsValue(k, b) ==> !([k] + b <= input[offset..])
    ensures forall n: Manifest :: Encoded(n) != input
  {
    forall n: Manifest
      ensures Encoded(n) != input
    {
      if Encoded(n) == input {
        ValuesAreValues(n);
        ValuesAreIndependent(read, Values(n));
        NextValue(input, read, Values(n));
      }
    }
  }

  lemma NoShorterManifest(input: Bytes, read: seq<Bytes>)
    requires |read| == MAP_FIELDS && AllValues(read) && Layout(read) <= input && Layout(read) != input
    ensures forall n: Manifest :: Encoded(n) != input
  {
    forall n: Manifest
      ensures Encoded(n) != input
    {
      if Encoded(n) == input {
        ValuesAreValues(n);
        ValuesAreIndependent(read, Values(n));
        LayoutsAgree(read, Values(n), input);
      }
    }
  }

  method ReadKey(decoder: Decoder, k: Byte) returns (ok: bool)
    requires decoder.Valid() && 1 <= k <= MAP_FIELDS
    modifies decoder
    ensures decoder.Valid() && old(decoder.offset) <= decoder.offset
    ensures ok ==> decoder.input[old(decoder.offset)..decoder.offset] == [k]
    ensures !ok ==> !([k] <= decoder.input[old(decoder.offset)..])
  {
    assert Head(0, k) == [k];
    ghost var rest := decoder.input[decoder.offset..];
    var key := decoder.ReadUint();
    if key.Ok? && key.value != k && [k] <= rest {
      HeadsAgree(0, key.value, k, rest);
    }
    ok := key.Ok? && key.value == k;
  }

  /** Reads the value of a byte-string field. */
  method DecodeBytesValue(decoder: Decoder, k: Byte, p: Partial, ghost read: seq<Bytes>)
    returns (r: Result<Partial>, ghost value: Bytes)
    requires decoder.Valid() && k in {2, 3, 7} && |read| == k - 1 && Holds(p, read)
    modifies decoder
    ensures decoder.Valid() && old(decoder.offset) <= decoder.offset
    ensures r.Ok? ==> Holds(r.value, read + [value]) && IsValue(k, value)
    ensures r.Ok? ==> decoder.input[old(decoder.offset)..decoder.offset] == value
    ensures r.Err? ==> forall b: Bytes :: IsValue(k, b) ==> !(b <= decoder.input[old(decoder.offset)..])
  {
    var length: nat := if k == 7 then 32 else 16;
    r, value := Err(InvalidFormat), [];
    var bytes := decoder.ReadBytesExact(length);
    if bytes.Ok? {
      value := Head(2, length) + bytes.value;
      assert IsByteString(value, length);
      if k == 2 {
        r := Ok(p.(objectId := Some(bytes.value)));
      } else if k == 3 {
        r := Ok(p.(versionId := Some(bytes.value)));
      } else {
        r := Ok(p.(chunkDigest := Some(bytes.value)));
      }
    }
  }

  /** Reads the value of an unsigned-integer field, with the bound of its width. */
  method DecodeUintValue(decoder: Decoder, k: Byte, p: Partial, ghost read: seq<Bytes>)
    returns (r: Result<Partial>, ghost value: Bytes)
    requires decoder.Valid() && k in {1, 4, 5, 6, 8} && |read| == k - 1 && Holds(p, read)
    modifies decoder
    ensures decoder.Valid() && old(decoder.offset) <= decoder.offset
    ensures r.Ok? ==> Holds(r.value, read + [value]) && IsValue(k, value)
    ensures r.Ok? ==> decoder.input[old(decoder.offset)..decoder.offset] == value
    ensures r.Err? ==> forall b: Bytes :: IsValue(k, b) ==> !(b <= decoder.input[old(decoder.offset)..])
  {
    ghost var rest := decoder.input[decoder.offset..];
    var number := decoder.ReadUint();
    if number.Err? {
      return Err(InvalidFormat), [];
    }
    value := Head(0, number.value);
    forall v: U64 | Head(0, v) <= rest
      ensures v == number.value
    {
      HeadsAgree(0, v, number.value, rest);
    }
    if k == 4 {
      assert IsUint(value, 0x1_0000_0000_0000_0000);
      r := Ok(p.(plaintextLen := Some(number.value)));
    } else if k == 8 {
      r := if number.value == 1 then Ok(p) else Err(InvalidFormat);
    } else if number.value >= 0x1_0000_0000 {
      r := Err(InvalidFormat);
    } else {
      assert IsUint(value, 0x1_0000_0000);
      if k == 1 {
        r := Ok(p.(formatVersion := Some(number.value)));
      } else if k == 5 {
        r := Ok(p.(chunkSize := Some(number.value)));
      } else {
        r := Ok(p.(chunkCount := Some(number.value)));
      }
    }
  }

  /** One turn of the key loop. */
  method DecodeField(decoder: Decoder, k: Byte, p: Partial, ghost read: seq<Bytes>)
    returns (r: Result<Partial>, ghost value: Bytes)
    requires decoder.Valid() && 1 <= k <= MAP_FIELDS && |read| == k - 1 && Holds(p, read)
    modifies decoder
    ensures decoder.Valid() && old(decoder.offset) <= decoder.offset
    ensures r.Ok? ==> Holds(r.value, read + [value]) && IsValue(k, value)
    ensures r.Ok? ==> decoder.input[old(decoder.offset)..decoder.offset] == [k] + value
    ensures r.Err? ==> forall b: Bytes :: IsValue(k, b) ==> !([k] + b <= decoder.input[old(decoder.offset)..])
  {
    ghost var start := decoder.offset;
    ghost var rest := decoder.input[start..];
    forall b: Bytes | [k] + b <= rest
      ensures [k] <= rest && b <= rest[1..]
    {
      SplitPrefix([k], b, rest);
    }
    var ok := ReadKey(decoder, k);
    if !ok {
      return Err(InvalidFormat), [];
    }
    ghost var middle := decoder.offset;
    assert decoder.input[middle..] == rest[1..];
    if k == 2 || k == 3 || k == 7 {
      r, value := DecodeBytesValue(decoder, k, p, read);
    } else {
      r, value := DecodeUintValue(decoder, k, p, read);
    }
    assert decoder.input[start..decoder.offset]
        == decoder.input[start..middle] + decoder.input[middle..decoder.offset];
  }

  /** The key loop: reads the eight fields behind the map header. */
  method DecodeFields(decoder: Decoder) returns (r: Result<Partial>, ghost read: seq<Bytes>)
    requires decoder.offset == 1 && |decoder.input| >= 1 && decoder.input[0] == MAP_HEADER
    modifies decoder
    ensures decoder.Valid()
    ensures r.Ok? ==> |read| == MAP_FIELDS && AllValues(read) && Holds(r.value, read)
    ensures r.Ok? ==> decoder.input[..decoder.offset] == Layout(read)
    ensures r.Err? ==> forall m: Manifest :: Encoded(m) != decoder.input
  {
    var partial := Partial(None, None, None, None, None, None, None);
    read := [];
    var k := 1;
    while k <= MAP_FIELDS
      invariant 1 <= k <= MAP_FIELDS + 1
      invariant decoder.Valid()
      invariant |read| == k - 1 && AllValues(read) && Holds(partial, read)
      invariant decoder.input[..decoder.offset] == Layout(read)
    {
      ghost var start := decoder.offset;
      var next;
      ghost var value;
      next, value := DecodeField(decoder, k, partial, read);
      if next.Err? {
        NoManifest(decoder.input, read, k, start);
        return Err(InvalidFormat), read;
      }
      partial := next.value;
      Advance(decoder.input, read, k, value, start, decoder.offset);
      read := read + [value];
      k := k + 1;
    }
    r := Ok(partial);
  }

  /** The decoder accepts exactly the encoder's image, and inverts the encoder on it. */
  method DecodeManifest(input: Bytes) returns (r: Result<Manifest>)
    ensures r.Ok? ==> Encoded(r.value) == input
    ensures r.Err? ==> forall m: Manifest :: Encoded(m) != input
  {
    var decoder := new Decoder(input);
    var initial := decoder.Take();
    if initial.Err? || initial.value != MAP_HEADER {
      forall m: Manifest
        ensures Encoded(m) != input
      {
        LayoutGrows(Values(m), 0);
        assert Encoded(m)[0] == Layout([])[0];
      }
      return Err(InvalidFormat);
    }
    var fields;
    ghost var read;
    fields, read := DecodeFields(decoder);
    if fields.Err? {
      return Err(InvalidFormat);
    }
    if decoder.offset != |input| {
      NoShorterManifest(input, read);
      return Err(InvalidFormat);
    }
    r := Ok(Assemble(fields.value, read));
    assert input[..decoder.offset] == input;
  }

  /** The inverse of the encoder, undefined outside its image. */
  ghost function Decoded(input: Bytes): (r: Option<Manifest>)
    ensures r.Some? <==> exists m: Manifest :: Encoded(m) == input
    ensures r.Some? ==> Encoded(r.value) == input
  {
    if exists m: Manifest :: Encoded(m) == input then
      var m: Manifest :| Encoded(m) == input;
      Some(m)
    else
      None
  }

  lemma DecodedEncoded(m: Manifest)
    ensures Decoded(Encoded(m)) == Some(m)
  {
    EncodedInjective(Decoded(Encoded(m)).value, m);
  }
}
