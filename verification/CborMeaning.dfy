/**
 What Manifest bytes mean to any reader of CBOR: a plain reader of maps, unsigned integers and byte
 strings after section 3 of RFC 8949, written without regard to the codec, finds each field under its
 own key.
 */
module CborMeaning {
  import opened Format
  import opened BigEndian
  import opened KeyedLayout
  import Codec = ManifestCodec

  datatype Item = Unsigned(value: nat) | ByteString(bytes: Bytes)

  datatype Entry = Entry(key: Item, value: Item)

  /** Bytes that follow the first byte of a head, by its low five bits. */
  function Following(first: Byte): (n: Option<nat>) {
    match first % 32
    case 24 => Some(1)
    case 25 => Some(2)
    case 26 => Some(4)
    case 27 => Some(8)
    case low => if low < 24 then Some(0) else None
  }

  /** The data item at the front, and the bytes after it. */
  function ReadItem(b: Bytes): (r: Option<(Item, Bytes)>) {
    if b == [] || Following(b[0]).None? || |b| < 1 + Following(b[0]).value then None
    else
      var n := Following(b[0]).value;
      var value := if n == 0 then b[0] % 32 else FromBytes(b[1..1 + n]);
      var rest := b[1 + n..];
      if b[0] / 32 == 0 then Some((Unsigned(value), rest))
      else if b[0] / 32 == 2 && value <= |rest| then Some((ByteString(rest[..value]), rest[value..]))
      else None
  }

  function ReadEntries(b: Bytes, n: nat): (r: Option<(seq<Entry>, Bytes)>) {
    if n == 0 then Some(([], b))
    else
      var key := ReadItem(b);
      if key.None? then None
      else
        var value := ReadItem(key.value.1);
        if value.None? then None
        else
          var more := ReadEntries(value.value.1, n - 1);
          if more.None? then None else Some(([Entry(key.value.0, value.value.0)] + more.value.0, more.value.1))
  }

  /** All of `b` as one map with fewer than 24 entries. */
  function ReadMap(b: Bytes): (r: Option<seq<Entry>>) {
    if b == [] || b[0] / 32 != 5 || b[0] % 32 >= 24 then None
    else
      var entries := ReadEntries(b[1..], b[0] % 32);
      if entries.None? || entries.value.1 != [] then None else Some(entries.value.0)
  }

  /** The fields of a Manifest under their keys. */
  function Fields(m: Manifest): (entries: seq<Entry>) {
    [ Entry(Unsigned(1), Unsigned(m.formatVersion)),
      Entry(Unsigned(2), ByteString(m.objectId)),
      Entry(Unsigned(3), ByteString(m.versionId)),
      Entry(Unsigned(4), Unsigned(m.plaintextLen)),
      Entry(Unsigned(5), Unsigned(m.chunkSize)),
      Entry(Unsigned(6), Unsigned(m.chunkCount)),
      Entry(Unsigned(7), ByteString(m.chunkDigest)),
      Entry(Unsigned(8), Unsigned(1)) ]
  }

  /** Keys and values from position `i` on, front to back. */
  ghost function From(values: seq<Bytes>, i: nat): (b: Bytes)
    requires i <= |values| <= MAP_FIELDS
    decreases |values| - i
  {
    if i == |values| then [] else [i + 1] + (values[i] + From(values, i + 1))
  }

  lemma {:induction false} FromSnoc(values: seq<Bytes>, v: Bytes, i: nat)
    requires i <= |values| < MAP_FIELDS
    ensures From(values + [v], i) == From(values, i) + ([|values| + 1] + v)
    decreases |values| - i
  {
    var all := values + [v];
    if i == |values| {
      assert From(all, i + 1) == [];
      assert v + [] == v;
      assert [] + ([|values| + 1] + v) == [|values| + 1] + v;
    } else {
      FromSnoc(values, v, i + 1);
      Regroup(values[i], From(values, i + 1), [|values| + 1] + v);
      Regroup([i + 1], values[i] + From(values, i + 1), [|values| + 1] + v);
    }
  }

  lemma {:induction false} LayoutIsFrom(values: seq<Bytes>)
    requires |values| <= MAP_FIELDS
    ensures Layout(values) == [MAP_HEADER] + From(values, 0)
  {
    if values == [] {
    } else {
      var n := |values| - 1;
      var init := values[..n];
      LayoutIsFrom(init);
      assert values == init + [values[n]];
      FromSnoc(init, values[n], 0);
      Regroup([MAP_HEADER], From(init, 0), [n + 1] + values[n]);
      Regroup(Layout(init), [n + 1], values[n]);
    }
  }

  // ----- Reading what the encoder writes -----

  lemma ReadHead(major: nat, value: U64, x: Bytes)
    requires major < 8
    ensures var h := Codec.Head(major, value); var b := h + x;
            && b[0] / 32 == major && Following(b[0]) == Some(|h| - 1) && b[|h|..] == x
            && value == if |h| == 1 then b[0] % 32 else FromBytes(b[1..|h|])
  {
    var h := Codec.Head(major, value);
    var b := h + x;
    Codec.HeadIsUniqueShortest(major, value, h);
    assert b[0] == h[0] && b[1..|h|] == h[1..] && b[|h|..] == x;
  }

  lemma ReadUnsigned(value: U64, x: Bytes)
    ensures ReadItem(Codec.Head(0, value) + x) == Some((Unsigned(value), x))
  {
    ReadHead(0, value, x);
  }

  lemma ReadByteString(s: Bytes, x: Bytes)
    requires |s| < 0x1_0000_0000_0000_0000
    ensures ReadItem(Codec.Head(2, |s|) + s + x) == Some((ByteString(s), x))
  {
    Regroup(Codec.Head(2, |s|), s, x);
    ReadHead(2, |s|, s + x);
    assert (s + x)[..|s|] == s && (s + x)[|s|..] == x;
  }

  lemma ReadKey(k: Byte, x: Bytes)
    requires k < 24
    ensures ReadItem([k] + x) == Some((Unsigned(k), x))
  {
    assert ([k] + x)[1..] == x;
  }

  /** Each encoded value reads as its item, whatever follows. */
  ghost predicate ReadsAs(value: Bytes, item: Item) {
    forall x :: ReadItem(value + x) == Some((item, x))
  }

  lemma ValuesReadAs(m: Manifest, i: nat)
    requires i < MAP_FIELDS
    ensures ReadsAs(Codec.Values(m)[i], Fields(m)[i].value)
  {
    forall x
      ensures ReadItem(Codec.Values(m)[i] + x) == Some((Fields(m)[i].value, x))
    {
      match Fields(m)[i].value
      case Unsigned(n) => ReadUnsigned(n, x);
      case ByteString(s) => ReadByteString(s, x);
    }
  }

  lemma {:induction false} ReadFrom(values: seq<Bytes>, entries: seq<Entry>, i: nat)
    requires i <= |values| == |entries| <= MAP_FIELDS
    requires forall k :: 0 <= k < |values| ==> ReadsAs(values[k], entries[k].value) && entries[k].key == Unsigned(k + 1)
    ensures ReadEntries(From(values, i), |values| - i) == Some((entries[i..], []))
    decreases |values| - i
  {
    if i == |values| {
    } else {
      ReadFrom(values, entries, i + 1);
      ReadKey(i + 1, values[i] + From(values, i + 1));
      assert ReadsAs(values[i], entries[i].value);
      assert entries[i..] == [entries[i]] + entries[i + 1..];
    }
  }

  /** The encoding of a Manifest is a map of eight entries that carries each field under its own key. */
  lemma EncodedMeans(m: Manifest)
    ensures ReadMap(Codec.Encoded(m)) == Some(Fields(m))
  {
    var values := Codec.Values(m);
    LayoutIsFrom(values);
    forall k | 0 <= k < |values|
      ensures ReadsAs(values[k], Fields(m)[k].value) && Fields(m)[k].key == Unsigned(k + 1)
    {
      ValuesReadAs(m, k);
    }
    ReadFrom(values, Fields(m), 0);
    assert Codec.Encoded(m)[1..] == From(values, 0) && Fields(m)[0..] == Fields(m);
  }

  /** Each field of a decoded Manifest is the value that the input carries under its key. */
  lemma DecodedMeans(input: Bytes)
    requires Codec.Decoded(input).Some?
    ensures ReadMap(input) == Some(Fields(Codec.Decoded(input).value))
  {
    EncodedMeans(Codec.Decoded(input).value);
  }
}
