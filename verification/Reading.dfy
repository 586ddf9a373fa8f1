/** The two-pass verified read of an active version. */
module Reading {
  import opened Format
  import opened Transcripts
  import opened Crypto
  import opened Storage
  import opened Chunking
  import opened BigEndian
  import opened Publishing
  import Codec = ManifestCodec

  // ----- Chunk-length arithmetic -----

  /** The plaintext length that the chunk at `index` must have. */
  function ExpectedChunkLen(m: Manifest, index: U32): (r: Result<U32>) {
    if index >= m.chunkCount then Err(InvalidFormat)
    else if index + 1 < m.chunkCount then Ok(m.chunkSize)
    else
      var prefix := m.chunkSize * (m.chunkCount - 1);
      if m.plaintextLen < prefix then Err(InvalidFormat)
      else if m.plaintextLen - prefix >= 0x1_0000_0000 then Err(InvalidFormat)
      else Ok(m.plaintextLen - prefix)
  }

  /** Sum of the expected lengths of the first `n` chunks. */
  function ExpectedTotal(m: Manifest, n: nat): (t: nat)
    requires n <= m.chunkCount
  {
    if n == 0 then 0
    else ExpectedTotal(m, n - 1) + (var len := ExpectedChunkLen(m, n - 1); if len.Ok? then len.value else 0)
  }

  lemma {:induction false} ExpectedTotalBelow(m: Manifest, n: nat)
    requires n < m.chunkCount
    ensures ExpectedTotal(m, n) == m.chunkSize * n
  {
    if n == 0 {
    } else {
      ExpectedTotalBelow(m, n - 1);
      assert m.chunkSize * n == m.chunkSize * (n - 1) + m.chunkSize;
    }
  }

  /**
   If the last index of a Manifest is accepted then every index is, the lengths add up to the
   plaintext length exactly, and neither the product nor any partial sum leaves 64 bits.
   */
  lemma ExpectedLengthsAddUp(m: Manifest)
    requires m.chunkCount > 0 && ExpectedChunkLen(m, m.chunkCount - 1).Ok?
    ensures ExpectedTotal(m, m.chunkCount) == m.plaintextLen
    ensures m.chunkSize * (m.chunkCount - 1) < 0x1_0000_0000_0000_0000
    ensures forall n: nat :: n <= m.chunkCount ==> ExpectedTotal(m, n) <= m.plaintextLen
    ensures forall i: U32 :: i < m.chunkCount ==> ExpectedChunkLen(m, i).Ok?
  {
    ExpectedTotalBelow(m, m.chunkCount - 1);
    MulBound(m.chunkSize, m.chunkCount - 1, 0xffff_ffff, 0xffff_ffff);
    forall n: nat | n <= m.chunkCount
      ensures ExpectedTotal(m, n) <= m.plaintextLen
    {
      if n < m.chunkCount {
        ExpectedTotalBelow(m, n);
        MulBound(m.chunkSize, n, m.chunkSize, m.chunkCount - 1);
      }
    }
  }

  /** For a published Manifest the expected lengths are the real ones. */
  lemma ExpectedLengthsAreReal(m: Manifest, p: Format.Bytes, size: nat, i: nat)
    requires Publishable(p, size) && i < |Chunks(p, size)|
    requires m.plaintextLen == |p| && m.chunkSize == size && m.chunkCount == |Chunks(p, size)|
    ensures ExpectedChunkLen(m, i) == Ok(|Chunks(p, size)[i]|)
  {
    ChunkLengths(p, size);
  }

  // ----- The specification of a read -----

  function ValidateManifestBinding(m: Manifest, row: StoredVersion): (r: Result<()>) {
    if m.formatVersion != FORMAT_VERSION || m.objectId != row.objectId || m.versionId != row.versionId
       || m.plaintextLen != row.plaintextLen || m.chunkSize != row.chunkSize || m.chunkCount != row.chunkCount then
      Err(Invariant)
    else if m.chunkSize == 0 || m.chunkCount > MAX_CHUNKS_PER_VERSION then Err(InvalidFormat)
    else Ok(())
  }

  /** A vault database, with what is needed to read it. */
  datatype View = View(c: Crypto, vault: VaultId, root: Bytes32, db: Db, signed: set<Message>)

  datatype Header = Header(row: StoredVersion, dek: Bytes32, manifest: Manifest)

  function ActiveVersion(db: Db, obj: ObjectId): (r: Result<StoredVersion>) {
    if obj !in db.objects || db.objects[obj] !in db.versions then Err(NotFound)
    else Ok(db.versions[db.objects[obj]])
  }

  /** The stored receipt of the active version, after its signature has been verified. */
  function ActiveReceipt(db: Db, signed: set<Message>, obj: ObjectId): (r: Result<Option<Receipt>>) {
    var row := ActiveVersion(db, obj);
    if row.Err? || row.value.versionId !in db.receipts then Ok(None)
    else if ReceiptMessage(db.receipts[row.value.versionId]) !in signed then Err(Authentication)
    else Ok(Some(db.receipts[row.value.versionId]))
  }

  function RequestFor(c: Crypto, vault: VaultId, row: StoredVersion): (q: WitnessRequest) {
    WitnessRequest(vault, row.objectId, row.versionId, Commitment(c, vault, row.objectId, row.versionId, row.manifest))
  }

  /** A stored receipt must carry a valid signature and acknowledge exactly this version. */
  function CheckReceipt(v: View, row: StoredVersion): (r: Result<()>) {
    if row.versionId !in v.db.receipts then Ok(())
    else
      var receipt, q := v.db.receipts[row.versionId], RequestFor(v.c, v.vault, row);
      if ReceiptMessage(receipt) !in v.signed then Err(Authentication)
      else if receipt != Receipt(q.vault, q.obj, q.version, receipt.epoch, q.commitment) then Err(Invariant)
      else Ok(())
  }

  ghost function OpenedDek(v: View, row: StoredVersion): (r: Result<Bytes32>) {
    var bytes := Opened(v.c, v.c.kek(v.root, v.vault), WrappedDekContext(v.vault, row.objectId, row.versionId), row.wrappedDek);
    if bytes.None? then Err(Authentication)
    else if |bytes.value| != 32 then Err(InvalidFormat)
    else Ok(bytes.value)
  }

  ghost function OpenedManifest(v: View, row: StoredVersion, dek: Bytes32): (r: Result<Manifest>) {
    var bytes := Opened(v.c, v.c.manifestKey(dek, row.versionId), ManifestContext(v.vault, row.objectId, row.versionId), row.manifest);
    if bytes.None? then Err(Authentication)
    else if Codec.Decoded(bytes.value).None? then Err(InvalidFormat)
    else Ok(Codec.Decoded(bytes.value).value)
  }

  /** Everything that is verified before the first chunk is looked at. */
  ghost function OpenedHeader(v: View, obj: ObjectId): (r: Result<Header>) {
    var row := ActiveVersion(v.db, obj);
    if row.Err? then Err(row.error)
    else if row.value.objectId != obj then Err(Invariant)
    else
      var dek := OpenedDek(v, row.value);
      if dek.Err? then Err(dek.error)
      else
        var manifest := OpenedManifest(v, row.value, dek.value);
        if manifest.Err? then Err(manifest.error)
        else
          var bound := ValidateManifestBinding(manifest.value, row.value);
          if bound.Err? then Err(bound.error)
          else
            var receipt := CheckReceipt(v, row.value);
            if receipt.Err? then Err(receipt.error) else Ok(Header(row.value, dek.value, manifest.value))
  }

  /** First pass: indices, count and digest of the encrypted rows. */
  ghost function Layout(c: Crypto, m: Manifest, rows: seq<EncryptedChunk>): (r: Result<()>) {
    if !InOrder(rows) || |rows| != m.chunkCount then Err(Invariant)
    else if Digest(c, rows) != m.chunkDigest then Err(Authentication)
    else Ok(())
  }

  /** Second pass, one row. */
  function OpenChunk(c: Crypto, vault: VaultId, h: Header, row: EncryptedChunk): (r: Result<Format.Bytes>) {
    var len := ExpectedChunkLen(h.manifest, row.index);
    if len.Err? then Err(len.error)
    else
      var part := Opened(c, h.dek, ChunkContext(vault, h.row.objectId, h.row.versionId, row.index, len.value), row.record);
      if part.None? then Err(Authentication)
      else if |part.value| != len.value then Err(InvalidFormat)
      else Ok(part.value)
  }

  ghost function OpenChunks(c: Crypto, vault: VaultId, h: Header, rows: seq<EncryptedChunk>): (r: Result<seq<Format.Bytes>>) {
    if rows == [] then Ok([])
    else
      var before := OpenChunks(c, vault, h, rows[..|rows| - 1]);
      if before.Err? then Err(before.error)
      else
        var part := OpenChunk(c, vault, h, rows[|rows| - 1]);
        if part.Err? then Err(part.error) else Ok(before.value + [part.value])
  }

  /** What a read of an object returns. */
  ghost function Get(v: View, obj: ObjectId): (r: Result<Format.Bytes>) {
    var header := OpenedHeader(v, obj);
    if header.Err? then Err(header.error)
    else
      var h := header.value;
      var rows := Rows(v.db, h.row.versionId);
      var layout := Layout(v.c, h.manifest, rows);
      if layout.Err? then Err(layout.error)
      else
        var parts := OpenChunks(v.c, v.vault, h, rows);
        if parts.Err? then Err(parts.error)
        else if |Concat(parts.value)| != h.manifest.plaintextLen then Err(Invariant)
        else Ok(Concat(parts.value))
  }

  // ----- The read, step by step -----

  /** An all-or-nothing sink that accepts a given number of writes, or any number. */
  class Sink {
    var written: Format.Bytes
    var accepts: Option<nat>
    var refused: bool

    constructor (accepts: Option<nat>)
      ensures written == [] && this.accepts == accepts && !refused
    {
      written, this.accepts, refused := [], accepts, false;
    }

    method WriteAll(b: Format.Bytes) returns (ok: bool)
      modifies this
      ensures ok ==> written == old(written) + b && refused == old(refused)
      ensures !ok ==> written == old(written) && refused
      ensures old(accepts).None? ==> ok && accepts.None?
    {
      if accepts == Some(0) {
        refused := true;
        return false;
      }
      accepts := if accepts.None? then None else Some(accepts.value - 1);
      written := written + b;
      ok := true;
    }
  }

  method OpenHeader(v: View, obj: ObjectId) returns (r: Result<Header>)
    ensures r == OpenedHeader(v, obj)
  {
    var row := ActiveVersion(v.db, obj);
    if row.Err? {
      return Err(row.error);
    }
    if row.value.objectId != obj {
      return Err(Invariant);
    }
    var version := row.value.versionId;
    var dekBytes := Opened(v.c, v.c.kek(v.root, v.vault), WrappedDekContext(v.vault, obj, version), row.value.wrappedDek);
    if dekBytes.None? {
      return Err(Authentication);
    }
    if |dekBytes.value| != 32 {
      return Err(InvalidFormat);
    }
    var dek: Bytes32 := dekBytes.value;
    var manifestBytes := Opened(v.c, v.c.manifestKey(dek, version), ManifestContext(v.vault, obj, version), row.value.manifest);
    if manifestBytes.None? {
      return Err(Authentication);
    }
    var manifest := Codec.DecodeManifest(manifestBytes.value);
    if manifest.Err? {
      return Err(InvalidFormat);
    }
    Codec.DecodedEncoded(manifest.value);
    var bound := ValidateManifestBinding(manifest.value, row.value);
    if bound.Err? {
      return Err(bound.error);
    }
    var receipt := CheckReceipt(v, row.value);
    if receipt.Err? {
      return Err(receipt.error);
    }
    r := Ok(Header(row.value, dek, manifest.value));
  }

  /** The first visit of the chunk rows. */
  method CheckLayout(c: Crypto, m: Manifest, rows: seq<EncryptedChunk>) returns (r: Result<()>)
    ensures r == Layout(c, m, rows)
  {
    var digest := new ChunkDigestBuilder();
    var expectedIndex := 0;
    while expectedIndex < |rows|
      invariant 0 <= expectedIndex <= |rows|
      invariant digest.Valid() && fresh(digest) && digest.records == rows[..expectedIndex]
      invariant forall i :: 0 <= i < expectedIndex ==> rows[i].index == i
    {
      if rows[expectedIndex].index != expectedIndex {
        return Err(Invariant);
      }
      digest.Update(rows[expectedIndex]);
      expectedIndex := expectedIndex + 1;
    }
    assert rows[..expectedIndex] == rows;
    if expectedIndex != m.chunkCount {
      return Err(Invariant);
    }
    if c.sha256(digest.transcript) != m.chunkDigest {
      return Err(Authentication);
    }
    r := Ok(());
  }

  lemma {:induction false} OpenChunksFailsEarly(c: Crypto, vault: VaultId, h: Header, rows: seq<EncryptedChunk>, k: nat)
    requires k <= |rows| && OpenChunks(c, vault, h, rows[..k]).Err?
    ensures OpenChunks(c, vault, h, rows) == OpenChunks(c, vault, h, rows[..k])
  {
    if k < |rows| {
      var init := rows[..|rows| - 1];
      assert init[..k] == rows[..k];
      OpenChunksFailsEarly(c, vault, h, init, k);
    } else {
      assert rows[..k] == rows;
    }
  }

  /** The parts that were delivered before a read stopped. */
  ghost predicate Delivered(c: Crypto, vault: VaultId, h: Header, rows: seq<EncryptedChunk>, k: nat, bytes: Format.Bytes) {
    k <= |rows| && OpenChunks(c, vault, h, rows[..k]).Ok? && bytes == Concat(OpenChunks(c, vault, h, rows[..k]).value)
  }

  /** The second visit of the chunk rows: opens each row and hands it to the sink. */
  method EmitChunks(c: Crypto, vault: VaultId, h: Header, rows: seq<EncryptedChunk>, sink: Sink)
    returns (r: Result<nat>, ghost k: nat)
    requires !sink.refused
    modifies sink
    ensures k <= |rows| && OpenChunks(c, vault, h, rows[..k]).Ok?
    ensures sink.written == old(sink.written) + Concat(OpenChunks(c, vault, h, rows[..k]).value)
    ensures r.Ok? ==> k == |rows| && r.value == |Concat(OpenChunks(c, vault, h, rows[..k]).value)| && !sink.refused
    ensures r.Err? ==> if sink.refused then r.error == StorageError else OpenChunks(c, vault, h, rows) == Err(r.error)
    ensures old(sink.accepts).None? ==> !sink.refused
  {
    k := 0;
    var i, written := 0, 0;
    ghost var parts: seq<Format.Bytes> := [];
    assert rows[..0] == [];
    while i < |rows|
      invariant 0 <= i <= |rows| && k == i && !sink.refused
      invariant old(sink.accepts).None? ==> sink.accepts.None?
      invariant OpenChunks(c, vault, h, rows[..i]) == Ok(parts)
      invariant sink.written == old(sink.written) + Concat(parts)
      invariant written == |Concat(parts)|
    {
      ghost var next := rows[..i + 1];
      assert next[..|next| - 1] == rows[..i];
      var part := OpenChunk(c, vault, h, rows[i]);
      if part.Err? {
        OpenChunksFailsEarly(c, vault, h, rows, i + 1);
        return Err(part.error), k;
      }
      var ok := sink.WriteAll(part.value);
      if !ok {
        return Err(StorageError), k;
      }
      ConcatSnoc(parts, part.value);
      Regroup(old(sink.written), Concat(parts), part.value);
      parts := parts + [part.value];
      written := written + |part.value|;
      i := i + 1;
      k := i;
    }
    assert rows[..i] == rows;
    r := Ok(written);
  }

  /**
   A read into a sink. It delivers what `Get` returns; if it fails it has delivered nothing at all
   before the first pass succeeded, and whole verified chunks afterwards.
   */
  method GetToWriter(v: View, obj: ObjectId, sink: Sink) returns (r: Result<()>)
    requires !sink.refused
    modifies sink
    ensures r.Ok? ==> Get(v, obj).Ok? && sink.written == old(sink.written) + Get(v, obj).value && !sink.refused
    ensures r.Err? ==> if sink.refused then r.error == StorageError else Get(v, obj) == Err(r.error)
    ensures old(sink.accepts).None? ==> !sink.refused
    ensures OpenedHeader(v, obj).Err? ==> r.Err? && unchanged(sink)
    ensures r.Err? && sink.written != old(sink.written) ==>
              var header := OpenedHeader(v, obj);
              && header.Ok?
              && var rows := Rows(v.db, header.value.row.versionId);
              && Layout(v.c, header.value.manifest, rows).Ok?
              && exists k: nat, out :: Delivered(v.c, v.vault, header.value, rows, k, out)
                                       && sink.written == old(sink.written) + out
  {
    var header := OpenHeader(v, obj);
    if header.Err? {
      return Err(header.error);
    }
    var h := header.value;
    var rows := Rows(v.db, h.row.versionId);
    var layout := CheckLayout(v.c, h.manifest, rows);
    if layout.Err? {
      return Err(layout.error);
    }
    var written;
    ghost var k;
    written, k := EmitChunks(v.c, v.vault, h, rows, sink);
    assert Delivered(v.c, v.vault, h, rows, k, Concat(OpenChunks(v.c, v.vault, h, rows[..k]).value));
    if written.Err? {
      return Err(written.error);
    }
    assert rows[..k] == rows;
    if written.value != h.manifest.plaintextLen {
      return Err(Invariant);
    }
    r := Ok(());
  }

  // ----- What the outcome of a read means -----

  lemma {:induction false} OpenChunksErrors(c: Crypto, vault: VaultId, h: Header, rows: seq<EncryptedChunk>)
    ensures var r := OpenChunks(c, vault, h, rows); r.Err? ==> r.error in {Authentication, InvalidFormat}
  {
    if rows == [] {
    } else {
      OpenChunksErrors(c, vault, h, rows[..|rows| - 1]);
    }
  }

  /** The object has an active version in the tables. */
  ghost predicate HasActive(db: Db, obj: ObjectId) {
    obj in db.objects && db.objects[obj] in db.versions
  }

  /** The receipt that stands for an object is that of its active version, and only if its signature verifies. */
  lemma ActiveReceiptExactly(db: Db, signed: set<Message>, obj: ObjectId)
    ensures var r := ActiveReceipt(db, signed, obj);
            if HasActive(db, obj) && db.versions[db.objects[obj]].versionId in db.receipts then
              var receipt := db.receipts[db.versions[db.objects[obj]].versionId];
              if ReceiptMessage(receipt) in signed then r == Ok(Some(receipt)) else r == Err(Authentication)
            else r == Ok(None)
  {
  }

  /** A read answers that there is nothing if and only if the object has no active version. */
  lemma NotFoundExactly(v: View, obj: ObjectId)
    ensures OpenedHeader(v, obj) == Err(NotFound) <==> !HasActive(v.db, obj)
    ensures Get(v, obj) == Err(NotFound) <==> !HasActive(v.db, obj)
  {
    if OpenedHeader(v, obj).Ok? {
      var h := OpenedHeader(v, obj).value;
      OpenChunksErrors(v.c, v.vault, h, Rows(v.db, h.row.versionId));
    }
  }

  /** Every other failure of a read is one after which the vault locks. */
  lemma OtherReadErrorsLock(v: View, obj: ObjectId)
    ensures Get(v, obj).Err? && HasActive(v.db, obj) ==> Get(v, obj).error in {Authentication, InvalidFormat, Invariant}
    ensures Get(v, obj).Err? && HasActive(v.db, obj) ==> Get(v, obj).error.RequiresLock()
  {
    if OpenedHeader(v, obj).Ok? {
      var h := OpenedHeader(v, obj).value;
      OpenChunksErrors(v.c, v.vault, h, Rows(v.db, h.row.versionId));
    }
  }

  /**
   Over any database and any primitives: a successful read has found the row of that object, its
   length is that of the row, the row's columns are those of its Manifest, and a stored receipt is
   signed and acknowledges exactly this row.
   */
  lemma ReadHasChecked(v: View, obj: ObjectId)
    requires Get(v, obj).Ok?
    ensures HasActive(v.db, obj)
    ensures var row := v.db.versions[v.db.objects[obj]];
            && row.objectId == obj && |Get(v, obj).value| == row.plaintextLen
            && row.chunkSize > 0 && row.chunkCount <= MAX_CHUNKS_PER_VERSION
            && OpenedHeader(v, obj).Ok?
            && var m := OpenedHeader(v, obj).value.manifest;
            && m.formatVersion == FORMAT_VERSION && m.objectId == obj && m.versionId == row.versionId
            && m.plaintextLen == row.plaintextLen && m.chunkSize == row.chunkSize && m.chunkCount == row.chunkCount
    ensures var row := v.db.versions[v.db.objects[obj]];
            row.versionId in v.db.receipts ==>
              var receipt := v.db.receipts[row.versionId];
              && ReceiptMessage(receipt) in v.signed
              && receipt.vault == v.vault && receipt.obj == obj && receipt.version == row.versionId
              && receipt.commitment == Commitment(v.c, v.vault, obj, row.versionId, row.manifest)
  {
  }

  // ----- Lengths of what is delivered -----

  /** Over any records: every opened piece has the length that the Manifest gives its index. */
  lemma {:induction false} PiecesHaveExpectedLengths(c: Crypto, vault: VaultId, h: Header, rows: seq<EncryptedChunk>)
    requires OpenChunks(c, vault, h, rows).Ok?
    ensures var parts := OpenChunks(c, vault, h, rows).value;
            && |parts| == |rows|
            && forall k :: 0 <= k < |rows| ==> ExpectedChunkLen(h.manifest, rows[k].index) == Ok(|parts[k]|)
  {
    if rows == [] {
    } else {
      PiecesHaveExpectedLengths(c, vault, h, rows[..|rows| - 1]);
    }
  }

  lemma {:induction false} PiecesTotal(m: Manifest, parts: seq<Format.Bytes>)
    requires |parts| <= m.chunkCount
    requires forall k: U32 :: k < |parts| ==> ExpectedChunkLen(m, k) == Ok(|parts[k]|)
    ensures |Concat(parts)| == ExpectedTotal(m, |parts|)
  {
    if parts == [] {
    } else {
      var n := |parts| - 1;
      PiecesTotal(m, parts[..n]);
      assert parts == parts[..n] + [parts[n]];
      ConcatSnoc(parts[..n], parts[n]);
      assert ExpectedChunkLen(m, n) == Ok(|parts[n]|);
    }
  }

  /** The last check of a read can only fail for a Manifest that announces no chunk at all. */
  lemma FinalLengthCheck(c: Crypto, vault: VaultId, h: Header, rows: seq<EncryptedChunk>)
    requires Layout(c, h.manifest, rows).Ok? && OpenChunks(c, vault, h, rows).Ok? && h.manifest.chunkCount > 0
    ensures |Concat(OpenChunks(c, vault, h, rows).value)| == h.manifest.plaintextLen
  {
    var m, parts := h.manifest, OpenChunks(c, vault, h, rows).value;
    PiecesHaveExpectedLengths(c, vault, h, rows);
    assert rows[m.chunkCount - 1].index == m.chunkCount - 1;
    ExpectedLengthsAddUp(m);
    forall k: U32 | k < |parts|
      ensures ExpectedChunkLen(m, k) == Ok(|parts[k]|)
    {
      assert rows[k].index == k;
    }
    PiecesTotal(m, parts);
  }

  // ----- What a receipt is about -----

  /** SHA-256 does not collide on the commitment transcripts of two rows. */
  ghost predicate NoCommitmentCollision(c: Crypto, vault: VaultId, a: StoredVersion, b: StoredVersion) {
    var x := CommitmentTranscript(vault, a.objectId, a.versionId, a.manifest);
    var y := CommitmentTranscript(vault, b.objectId, b.versionId, b.manifest);
    c.sha256(x) == c.sha256(y) ==> x == y
  }

  ghost predicate AcknowledgesRow(c: Crypto, vault: VaultId, receipt: Receipt, row: StoredVersion) {
    var q := RequestFor(c, vault, row);
    receipt == Receipt(q.vault, q.obj, q.version, receipt.epoch, q.commitment)
  }

  /** Rows that agree in identifiers and in the sealed Manifest record. */
  predicate SameManifest(a: StoredVersion, b: StoredVersion) {
    a.objectId == b.objectId && a.versionId == b.versionId && a.manifest == b.manifest
  }

  /** A receipt acknowledges one Manifest record: two rows that share it share identifiers and Manifest. */
  lemma ReceiptBindsManifest(c: Crypto, vault: VaultId, receipt: Receipt, a: StoredVersion, b: StoredVersion)
    requires AcknowledgesRow(c, vault, receipt, a) && AcknowledgesRow(c, vault, receipt, b)
    requires NoCommitmentCollision(c, vault, a, b)
    ensures SameManifest(a, b)
  {
    CommitmentTranscriptInjective(
      vault, a.objectId, a.versionId, a.manifest, vault, b.objectId, b.versionId, b.manifest);
  }

  /** So two databases of one vault that both read under the same receipt hold the same Manifest record. */
  lemma SharedReceiptSameManifest(v: View, w: View, obj: ObjectId)
    requires v.c == w.c && v.vault == w.vault && Get(v, obj).Ok? && Get(w, obj).Ok?
    requires HasActive(v.db, obj) && HasActive(w.db, obj)
    requires var a, b := v.db.versions[v.db.objects[obj]], w.db.versions[w.db.objects[obj]];
             && a.versionId in v.db.receipts && b.versionId in w.db.receipts
             && v.db.receipts[a.versionId] == w.db.receipts[b.versionId]
             && NoCommitmentCollision(v.c, v.vault, a, b)
    ensures SameManifest(v.db.versions[v.db.objects[obj]], w.db.versions[w.db.objects[obj]])
  {
    var a, b := v.db.versions[v.db.objects[obj]], w.db.versions[w.db.objects[obj]];
    ReadHasChecked(v, obj);
    ReadHasChecked(w, obj);
    ReceiptBindsManifest(v.c, v.vault, v.db.receipts[a.versionId], a, b);
  }
}
