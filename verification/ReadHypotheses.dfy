/** The hypotheses of the read theorems hold together, for a cipher whose opening inverts its sealing. */
module ReadHypotheses {
  import opened Format
  import opened BigEndian
  import opened Transcripts
  import opened Crypto
  import opened Storage
  import opened Chunking
  import opened Publishing
  import opened Reading
  import opened ReadIntegrity
  import Codec = ManifestCodec

  // ----- An ideal cipher -----

  /** Key and associated data, so that no two labels are prefixes of each other. */
  function Label(key: Bytes32, aad: Format.Bytes): (b: Format.Bytes)
    requires |aad| < 0x1_0000_0000
  {
    key + (U32Bytes(|aad|) + aad)
  }

  /** Labels the plaintext with key and associated data; a record opens exactly under its label. */
  function IdealSeal(key: Bytes32, nonce: Nonce, aad: Format.Bytes, plaintext: Format.Bytes): (b: Buffer) {
    if |aad| < 0x1_0000_0000 && |plaintext| < 0x1_0000_0000 then Label(key, aad) + plaintext else []
  }

  function IdealOpen(key: Bytes32, aad: Format.Bytes, record: SealedRecord): (r: Option<Format.Bytes>) {
    if |aad| < 0x1_0000_0000 && Label(key, aad) <= record.ciphertext then Some(record.ciphertext[|Label(key, aad)|..])
    else None
  }

  /** The primitives with the ideal cipher in place of theirs. */
  function WithIdealCipher(c: Crypto): (d: Crypto) {
    c.(seal := IdealSeal, open := IdealOpen)
  }

  lemma LabelPrefix(key: Bytes32, aad: Format.Bytes, other: Bytes32, otherAad: Format.Bytes, rest: Format.Bytes)
    requires |aad| < 0x1_0000_0000 && |otherAad| < 0x1_0000_0000
    requires Label(key, aad) <= Label(other, otherAad) + rest
    ensures key == other && aad == otherAad
  {
    var whole := Label(other, otherAad) + rest;
    var after := whole[|Label(key, aad)|..];
    assert whole == Label(key, aad) + after;
    Regroup(key, U32Bytes(|aad|) + aad, after);
    Regroup(U32Bytes(|aad|), aad, after);
    Regroup(other, U32Bytes(|otherAad|) + otherAad, rest);
    Regroup(U32Bytes(|otherAad|), otherAad, rest);
    SplitEqual(key, U32Bytes(|aad|) + (aad + after), other, U32Bytes(|otherAad|) + (otherAad + rest));
    SplitEqual(U32Bytes(|aad|), aad + after, U32Bytes(|otherAad|), otherAad + rest);
    U32BytesInjective(|aad|, |otherAad|);
    SplitEqual(aad, after, otherAad, rest);
  }

  /** Opening inverts sealing. */
  lemma IdealIsCorrect(c: Crypto)
    ensures Correct(WithIdealCipher(c))
  {
    var d := WithIdealCipher(c);
    forall key, nonce, context, plaintext | |plaintext| < 0x1_0000_0000
      ensures Opened(d, key, context, Sealed(d, key, nonce, context, plaintext)) == Some(plaintext)
    {
      AadStart(context);
      var front := Label(key, Aad(context));
      assert (front + plaintext)[|front|..] == plaintext;
    }
  }

  /** What a put seals with it is labelled with key and associated data. */
  lemma PutSealsAreLabelled(c: Crypto, vault: VaultId, root: Bytes32, put: Put, seal: Seal)
    requires Publishable(put.plaintext, put.size) && SealedBy(WithIdealCipher(c), vault, root, put, seal)
    ensures |seal.aad| < 0x1_0000_0000
    ensures seal.record.ciphertext == Label(seal.key, seal.aad) + seal.plaintext
  {
    var d := WithIdealCipher(c);
    if seal == DekSeal(d, vault, root, put) {
      AadStart(DekContext(vault, put));
    } else if seal == ManifestSeal(d, vault, root, put) {
      AadStart(ManifestContextOf(vault, put));
      Codec.EncodedLength(StoredManifest(d, vault, put));
    } else {
      var i :| 0 <= i < |Chunks(put.plaintext, put.size)| && ChunkSealed(d, vault, put, i, seal);
      AadStart(ChunkContextOf(vault, put, i));
      PublishableFits(put.plaintext, put.size);
    }
  }

  /** Every record of the tables was sealed by a put; where it stands is arbitrary. */
  ghost predicate FromPuts(v: View, puts: seq<Put>)
    requires Accepted(puts)
  {
    forall record :: InTables(v.db, record) ==> exists seal :: SealedBySome(v, puts, seal) && seal.record == record
  }

  /** Over any arrangement of records of the puts, the ideal cipher opens only what they sealed. */
  lemma IdealIsAuthentic(c: Crypto, v: View, puts: seq<Put>)
    requires v.c == WithIdealCipher(c) && Accepted(puts) && FromPuts(v, puts)
    ensures Authentic(v, puts)
  {
    forall key, aad, record | InTables(v.db, record) && v.c.open(key, aad, record).Some?
      ensures SealedBySome(v, puts, Seal(key, aad, record, v.c.open(key, aad, record).value))
    {
      var seal :| SealedBySome(v, puts, seal) && seal.record == record;
      OpenedUnderItsLabel(c, v, puts, key, aad, seal);
    }
  }

  lemma OpenedUnderItsLabel(c: Crypto, v: View, puts: seq<Put>, key: Bytes32, aad: Format.Bytes, seal: Seal)
    requires v.c == WithIdealCipher(c) && Accepted(puts) && SealedBySome(v, puts, seal)
    requires IdealOpen(key, aad, seal.record).Some?
    ensures seal == Seal(key, aad, seal.record, IdealOpen(key, aad, seal.record).value)
  {
    var i :| 0 <= i < |puts| && SealedBy(v.c, v.vault, v.root, puts[i], seal);
    PutSealsAreLabelled(c, v.vault, v.root, puts[i], seal);
    LabelPrefix(key, aad, seal.key, seal.aad, seal.plaintext);
    var front := Label(key, aad);
    assert (front + seal.plaintext)[|front|..] == seal.plaintext;
  }

  // ----- A database that holds one put -----

  ghost function ChunkTable(version: VersionId, chunks: seq<EncryptedChunk>): (table: map<(VersionId, U32), SealedRecord>) {
    map i: U32 | 0 <= i < |chunks| :: (version, i) := chunks[i].record
  }

  lemma ChunkTableRows(db: Db, version: VersionId, chunks: seq<EncryptedChunk>)
    requires InOrder(chunks) && |chunks| <= MAX_CHUNKS_PER_VERSION && db.chunks == ChunkTable(version, chunks)
    ensures Rows(db, version) == chunks
  {
    var records := seq(|chunks|, i requires 0 <= i < |chunks| => chunks[i].record);
    RowsComplete(db, version, records);
  }

  ghost function Holding(c: Crypto, vault: VaultId, root: Bytes32, put: Put): (db: Db)
    requires Publishable(put.plaintext, put.size)
  {
    var version := put.secrets.version;
    Db(map[put.obj := version],
       map[version := StoredRow(c, vault, root, put)],
       ChunkTable(version, StoredChunks(c, vault, put)),
       map[],
       map[])
  }

  lemma HoldingIsIntact(v: View, put: Put)
    requires Publishable(put.plaintext, put.size) && v.db == Holding(v.c, v.vault, v.root, put)
    ensures Intact(v, put)
  {
    ChunkTableRows(v.db, put.secrets.version, StoredChunks(v.c, v.vault, put));
  }

  lemma HoldingIsFromPuts(v: View, puts: seq<Put>, i: nat)
    requires Accepted(puts) && i < |puts| && v.db == Holding(v.c, v.vault, v.root, puts[i])
    ensures FromPuts(v, puts)
  {
    var put := puts[i];
    forall record | InTables(v.db, record)
      ensures exists seal :: SealedBySome(v, puts, seal) && seal.record == record
    {
      var row := StoredRow(v.c, v.vault, v.root, put);
      if record == row.wrappedDek {
        assert SealedBySome(v, puts, DekSeal(v.c, v.vault, v.root, put));
      } else if record == row.manifest {
        assert SealedBySome(v, puts, ManifestSeal(v.c, v.vault, v.root, put));
      } else {
        var seal := ChunkOfTable(v, put, record);
        assert SealedBySome(v, puts, seal);
      }
    }
  }

  lemma ChunkOfTable(v: View, put: Put, record: SealedRecord) returns (seal: Seal)
    requires Publishable(put.plaintext, put.size)
    requires exists k :: k in v.db.chunks && v.db.chunks[k] == record
    requires v.db.chunks == ChunkTable(put.secrets.version, StoredChunks(v.c, v.vault, put))
    ensures SealedBy(v.c, v.vault, v.root, put, seal) && seal.record == record
  {
    var k :| k in v.db.chunks && v.db.chunks[k] == record;
    var i := k.1;
    seal := Seal(put.secrets.dek, Aad(ChunkContextOf(v.vault, put, i)), record, Chunks(put.plaintext, put.size)[i]);
    assert ChunkSealed(v.c, v.vault, put, i, seal);
  }

  /**
   For any puts, and any one of them, there is a vault with a correct cipher that meets every
   hypothesis of the read theorems at once and returns that put.
   */
  lemma ReadTheoremsApply(c: Crypto, vault: VaultId, root: Bytes32, puts: seq<Put>, i: nat) returns (v: View)
    requires Accepted(puts) && DistinctVersions(puts) && i < |puts|
    ensures v.c == WithIdealCipher(c) && v.vault == vault && v.root == root
    ensures Correct(v.c) && Authentic(v, puts)
    ensures forall j :: 0 <= j < |puts| ==> Opens(v.c, vault, root, puts[j])
    ensures OpenedHeader(v, puts[i].obj).Ok?
    ensures var h := OpenedHeader(v, puts[i].obj).value; var rows := Rows(v.db, h.row.versionId);
            Layout(v.c, h.manifest, rows).Ok? && NoDigestCollision(v, puts, h.row.versionId, rows)
    ensures Get(v, puts[i].obj) == Ok(puts[i].plaintext)
  {
    var d := WithIdealCipher(c);
    v := View(d, vault, root, Holding(d, vault, root, puts[i]), {});
    IdealIsCorrect(c);
    HoldingIsFromPuts(v, puts, i);
    IdealIsAuthentic(c, v, puts);
    forall j | 0 <= j < |puts|
      ensures Opens(v.c, vault, root, puts[j])
    {
      CorrectOpens(d, vault, root, puts[j]);
    }
    HoldingIsIntact(v, puts[i]);
    IntactHeader(v, puts[i]);
    PutThenGet(v, puts[i]);
  }
}
