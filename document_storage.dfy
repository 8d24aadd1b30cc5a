/**
 * The content-addressed document store: a metadata map and a directory of
 * ciphertext files, both keyed by the SHA-256 of the plaintext.
 */
module DocumentStore {
  import opened Wrappers
  import opened Crypto
  import Ledger

  /** The metadata record kept per document; iv and key are kept as raw bytes (base64 is a lossless rendering). */
  datatype DocumentRecord = DocumentRecord(
    userId: string, name: string, docType: string, hash: HexDigest, size: nat,
    createdAt: Ledger.Timestamp, iv: Bytes, encryptionKey: Bytes)

  /** _generate_document_hash: depends on the content bytes alone. */
  function DocumentHash(content: Bytes): HexDigest {
    Sha256(content)
  }

  /** _encrypt_document: AES-CBC over the PKCS#7-padded content; the IV is the cipher's fresh one. */
  function EncryptDocument(content: Bytes, key: Bytes, iv: Bytes): Bytes {
    AesCbc.encrypt(Pad(content), key, iv)
  }

  /** _decrypt_document: None where unpadding raises. */
  function DecryptDocument(ciphertext: Bytes, key: Bytes, iv: Bytes): Option<Bytes> {
    Unpad(AesCbc.decrypt(ciphertext, key, iv))
  }

  /** Decrypting what _encrypt_document produced, under the same key and IV, gives the content back. */
  lemma DecryptEncryptDocument(content: Bytes, key: Bytes, iv: Bytes)
    ensures DecryptDocument(EncryptDocument(content, key, iv), key, iv) == Some(content)
  {
    DecryptEncrypt(content, key, iv);
  }

  /** A record and the plaintext it stands for agree; the ciphertext file is tied to them in `Valid()`. */
  ghost predicate Consistent(h: HexDigest, rec: DocumentRecord, plaintext: Bytes) {
    && rec.hash == h
    && DocumentHash(plaintext) == h
    && rec.size == |plaintext|
  }

  /** The records owned by `userId`, under their own keys. */
  function OwnedBy(metadata: map<HexDigest, DocumentRecord>, userId: string): (r: map<HexDigest, DocumentRecord>)
    ensures forall h :: h in r <==> h in metadata && metadata[h].userId == userId
    ensures forall h :: h in r ==> r[h] == metadata[h]
  {
    map h | h in metadata && metadata[h].userId == userId :: metadata[h]
  }

  class DocumentStorage {
    /** metadata.json, keyed by document hash. */
    var metadata: map<HexDigest, DocumentRecord>
    /** The ciphertext files of the storage directory, named by document hash. */
    var files: map<HexDigest, Bytes>
    /** What each stored document decrypts to: the abstract contents of the store. */
    ghost var contents: map<HexDigest, Bytes>

    ghost predicate Valid()
      reads this
    {
      && metadata.Keys <= contents.Keys
      && (forall h :: h in metadata ==> Consistent(h, metadata[h], contents[h]))
      && (forall h :: h in metadata && h in files ==>
            files[h] == EncryptDocument(contents[h], metadata[h].encryptionKey, metadata[h].iv))
    }

    /** Ciphertext and metadata are kept in lockstep by every operation of the store. */
    ghost predicate Lockstep()
      reads this
    {
      files.Keys == metadata.Keys
    }

    /** A store over an empty directory (loading and saving metadata.json is not modelled). */
    constructor ()
      ensures Valid() && Lockstep()
      ensures metadata == map[] && files == map[] && contents == map[]
    {
      metadata := map[];
      files := map[];
      contents := map[];
    }

    /**
     * store_document: upsert the record and the ciphertext under the content's hash,
     * overwriting whatever that hash held. `key` is the caller's key, if any;
     * `generatedKey`, `iv` and `now` stand for the random bytes and the clock.
     */
    method StoreDocument(userId: string, name: string, content: Bytes, docType: string,
                         key: Option<Bytes>, generatedKey: Bytes, iv: Bytes, now: Ledger.Timestamp)
      returns (rec: DocumentRecord)
      requires Valid()
      modifies this
      ensures Valid()
      ensures rec == DocumentRecord(userId, name, docType, DocumentHash(content), |content|, now, iv,
                                    key.GetOr(generatedKey))
      ensures metadata == old(metadata)[rec.hash := rec]
      ensures files == old(files)[rec.hash := EncryptDocument(content, rec.encryptionKey, iv)]
      ensures contents == old(contents)[rec.hash := content]
      ensures old(Lockstep()) ==> Lockstep()
    {
      var encryptionKey := key.GetOr(generatedKey);
      var documentHash := DocumentHash(content);
      var ciphertext := EncryptDocument(content, encryptionKey, iv);
      rec := DocumentRecord(userId, name, docType, documentHash, |content|, now, iv, encryptionKey);
      files := files[documentHash := ciphertext];
      metadata := metadata[documentHash := rec];
      contents := contents[documentHash := content];
    }

    /** retrieve_document: the plaintext and the record, or the error the source raises. */
    method RetrieveDocument(h: HexDigest) returns (r: Result<(Bytes, DocumentRecord)>)
      requires Valid()
      ensures h !in metadata ==> r == Err(DocumentNotFound)
      ensures h in metadata && h !in files ==> r == Err(DocumentFileNotFound)
      ensures h in metadata && h in files ==> r == Ok((contents[h], metadata[h]))
      ensures Lockstep() ==> r.Ok? || r == Err(DocumentNotFound)
    {
      if h !in metadata {
        return Err(DocumentNotFound);
      }
      var rec := metadata[h];
      if h !in files {
        return Err(DocumentFileNotFound);
      }
      // AES-CBC itself rejects a ciphertext whose length is not a multiple of 16; every file here is
      // written by `StoreDocument`, so that case cannot occur and is not modelled.
      var ciphertext := files[h];
      DecryptEncryptDocument(contents[h], rec.encryptionKey, rec.iv);
      var plaintext := DecryptDocument(ciphertext, rec.encryptionKey, rec.iv);
      match plaintext {
        case None => r := Err(PaddingIncorrect);
        case Some(p) => r := Ok((p, rec));
      }
    }

    /** delete_document: false and no change when absent; otherwise both the file and the record go. */
    method DeleteDocument(h: HexDigest) returns (deleted: bool)
      requires Valid()
      modifies this
      ensures Valid()
      ensures deleted == (h in old(metadata))
      ensures deleted ==> metadata == old(metadata) - {h} && files == old(files) - {h}
      ensures !deleted ==> metadata == old(metadata) && files == old(files)
      ensures contents == old(contents)
      ensures old(Lockstep()) ==> Lockstep()
    {
      if h !in metadata {
        return false;
      }
      if h in files {
        files := files - {h};
      }
      metadata := metadata - {h};
      return true;
    }

    /** get_user_documents: a loop over the metadata entries keeping those of `userId`. */
    method GetUserDocuments(userId: string) returns (r: map<HexDigest, DocumentRecord>)
      ensures r == OwnedBy(metadata, userId)
    {
      r := map[];
      var remaining := metadata.Keys;
      while remaining != {}
        invariant remaining <= metadata.Keys
        invariant forall h :: h in r <==> h in metadata && h !in remaining && metadata[h].userId == userId
        invariant forall h :: h in r ==> r[h] == metadata[h]
        decreases remaining
      {
        var h :| h in remaining;
        if metadata[h].userId == userId {
          r := r[h := metadata[h]];
        }
        remaining := remaining - {h};
      }
    }
  }

  /** Storing the same bytes for two owners leaves one record under one hash, owned by the second. */
  method StoreTwiceCollapses(s: DocumentStorage, content: Bytes, owner1: string, owner2: string,
                             name: string, docType: string, key1: Bytes, key2: Bytes,
                             iv1: Bytes, iv2: Bytes, t1: Ledger.Timestamp, t2: Ledger.Timestamp)
      returns (first: DocumentRecord, second: DocumentRecord)
    requires s.Valid()
    modifies s
    ensures first.hash == second.hash
    ensures s.metadata == old(s.metadata)[second.hash := second]
    ensures s.metadata[first.hash].userId == owner2
  {
    first := s.StoreDocument(owner1, name, content, docType, None, key1, iv1, t1);
    second := s.StoreDocument(owner2, name, content, docType, None, key2, iv2, t2);
  }

  /** Deleting twice: the first call reports what was there, the second always finds nothing. */
  method DeleteTwice(s: DocumentStorage, h: HexDigest) returns (first: bool, second: bool)
    requires s.Valid()
    modifies s
    ensures first == (h in old(s.metadata)) && !second
    ensures s.metadata == old(s.metadata) - {h}
  {
    first := s.DeleteDocument(h);
    second := s.DeleteDocument(h);
  }

  /** Retrieving right after storing gives back the stored bytes and the returned record. */
  method StoreThenRetrieve(s: DocumentStorage, userId: string, name: string, content: Bytes, docType: string,
                           key: Option<Bytes>, generatedKey: Bytes, iv: Bytes, now: Ledger.Timestamp)
      returns (rec: DocumentRecord, r: Result<(Bytes, DocumentRecord)>)
    requires s.Valid()
    modifies s
    ensures r == Ok((content, rec))
  {
    rec := s.StoreDocument(userId, name, content, docType, key, generatedKey, iv, now);
    r := s.RetrieveDocument(rec.hash);
  }
}
