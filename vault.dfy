/**
 * The vault controller: every user-facing call resolves the session first,
 * checks ownership before any read or transfer, and seals exactly one
 * ledger block per mutating call. Saving the ledger to disk is not modelled.
 */
module Vault {
  import opened Wrappers
  import opened Crypto
  import opened Ledger
  import opened DocumentStore
  import opened Auth

  /** A hit of get_document_history: the transaction unchanged, plus its block's hash and index. */
  datatype HistoryEntry = HistoryEntry(transaction: Transaction, blockHash: HexDigest, blockIndex: int)

  function Annotate(t: Transaction, b: BlockRecord): HistoryEntry {
    HistoryEntry(t, b.hash, b.index)
  }

  /** The transactions of one block naming document `h`, in order. */
  function BlockHistory(txs: seq<Transaction>, b: BlockRecord, h: HexDigest): seq<HistoryEntry> {
    if txs == [] then []
    else BlockHistory(txs[..|txs| - 1], b, h)
         + (if txs[|txs| - 1].documentHash == h then [Annotate(txs[|txs| - 1], b)] else [])
  }

  /** Every transaction naming document `h`, in chain order. */
  function DocumentHistory(c: seq<BlockRecord>, h: HexDigest): seq<HistoryEntry> {
    if c == [] then []
    else DocumentHistory(c[..|c| - 1], h) + BlockHistory(c[|c| - 1].transactions, c[|c| - 1], h)
  }

  lemma {:induction false} BlockHistoryMembers(txs: seq<Transaction>, b: BlockRecord, h: HexDigest, e: HistoryEntry)
    ensures e in BlockHistory(txs, b, h) <==>
            exists j :: 0 <= j < |txs| && txs[j].documentHash == h && e == Annotate(txs[j], b)
  {
    if txs != [] {
      var init := txs[..|txs| - 1];
      BlockHistoryMembers(init, b, h, e);
      if e in BlockHistory(init, b, h) {
        var j :| 0 <= j < |init| && init[j].documentHash == h && e == Annotate(init[j], b);
        assert txs[j] == init[j];
      }
      if exists j :: 0 <= j < |txs| && txs[j].documentHash == h && e == Annotate(txs[j], b) {
        var j :| 0 <= j < |txs| && txs[j].documentHash == h && e == Annotate(txs[j], b);
        if j < |init| {
          assert init[j] == txs[j];
        }
      }
    }
  }

  /** The history holds exactly the transactions naming `h`, each with its own block's hash and index. */
  lemma {:induction false} DocumentHistoryMembers(c: seq<BlockRecord>, h: HexDigest, e: HistoryEntry)
    ensures e in DocumentHistory(c, h) <==>
            exists i, j :: 0 <= i < |c| && 0 <= j < |c[i].transactions|
                           && c[i].transactions[j].documentHash == h && e == Annotate(c[i].transactions[j], c[i])
  {
    if c != [] {
      var init, last := c[..|c| - 1], c[|c| - 1];
      DocumentHistoryMembers(init, h, e);
      BlockHistoryMembers(last.transactions, last, h, e);
      if e in DocumentHistory(init, h) {
        var i, j :| 0 <= i < |init| && 0 <= j < |init[i].transactions|
                    && init[i].transactions[j].documentHash == h && e == Annotate(init[i].transactions[j], init[i]);
        assert c[i] == init[i];
      }
      if exists i, j :: 0 <= i < |c| && 0 <= j < |c[i].transactions|
                        && c[i].transactions[j].documentHash == h && e == Annotate(c[i].transactions[j], c[i]) {
        var i, j :| 0 <= i < |c| && 0 <= j < |c[i].transactions|
                    && c[i].transactions[j].documentHash == h && e == Annotate(c[i].transactions[j], c[i]);
        if i < |init| {
          assert init[i] == c[i];
        }
      }
    }
  }

  /** Sealing a block only appends: the history of the longer chain extends the old one by that block's hits. */
  lemma HistoryAppend(c: seq<BlockRecord>, b: BlockRecord, h: HexDigest)
    ensures DocumentHistory(c + [b], h) == DocumentHistory(c, h) + BlockHistory(b.transactions, b, h)
  {
    assert (c + [b])[..|c|] == c;
  }

  /** A block holding the single transaction `t` contributes `t` to the history of its document only. */
  lemma SingleTransactionHistory(t: Transaction, b: BlockRecord, h: HexDigest)
    ensures BlockHistory([t], b, h) == if t.documentHash == h then [Annotate(t, b)] else []
  {
    assert [t][..0] == [];
  }

  /** An upload block then a transfer block of a document with no history give it exactly those two entries. */
  lemma HistoryOfUploadThenTransfer(c: seq<BlockRecord>, b1: BlockRecord, b2: BlockRecord,
                                    up: Transaction, tr: Transaction, h: HexDigest)
    requires DocumentHistory(c, h) == []
    requires up.Upload? && up.documentHash == h && b1.transactions == [up]
    requires tr.Transfer? && tr.documentHash == h && b2.transactions == [tr]
    ensures DocumentHistory(c + [b1] + [b2], h) == [Annotate(up, b1), Annotate(tr, b2)]
  {
    HistoryAppend(c, b1, h);
    SingleTransactionHistory(up, b1, h);
    HistoryAppend(c + [b1], b2, h);
    SingleTransactionHistory(tr, b2, h);
  }

  /** Every nonce search at this difficulty ends (used only by the end-to-end scenario). */
  ghost predicate EverySearchEnds(difficulty: int) {
    forall hd :: Sealable(hd, difficulty)
  }

  class EVaultController {
    const ledger: Blockchain
    const store: DocumentStorage
    const auth: UserAuth

    ghost predicate Valid()
      reads this, store, auth
    {
      store.Valid() && auth.Valid()
    }

    /** The session's user, as get_user_by_session resolves it. */
    function SessionUser(token: string): Option<User>
      reads this, auth
    {
      auth.GetUserBySession(token)
    }

    /** What get_document lets `userId` read: a stored record with its file, owned by that user. */
    predicate CanRead(userId: string, h: HexDigest)
      reads this, store
    {
      h in store.metadata && h in store.files && store.metadata[h].userId == userId
    }

    /** The ledger can take one more block over `txs` at `now`, and its nonce search ends. */
    ghost predicate CanSeal(txs: seq<Transaction>, now: Timestamp)
      reads this, ledger, ledger.chain
    {
      |ledger.chain| > 0 && Sealable(ledger.NextHeader(ledger.pendingTransactions + txs, now), ledger.difficulty)
    }

    /** A controller over empty storage: a genesis-only ledger, no documents, no users. */
    constructor (now: Timestamp)
      ensures Valid()
      ensures fresh(ledger) && fresh(store) && fresh(auth)
      ensures ledger.Chain() == [Genesis(now)] && ledger.pendingTransactions == []
      ensures ledger.difficulty == DefaultDifficulty
      ensures store.metadata == map[] && store.files == map[] && store.contents == map[]
      ensures auth.users == map[] && auth.sessions == map[]
    {
      ledger := new Blockchain(now);
      store := new DocumentStorage();
      auth := new UserAuth();
    }

    /**
     * The step both mutating calls end with: add_transaction, then
     * mine_pending_transactions (then the ledger is saved, not modelled here).
     */
    method RecordAndSeal(t: Transaction, blockTime: Timestamp)
      requires CanSeal([t], blockTime)
      modifies ledger
      ensures SealedOnto(old(ledger.Chain()), ledger.Chain(), old(ledger.pendingTransactions) + [t],
                         blockTime, ledger.difficulty)
      ensures ledger.pendingTransactions == [] && ledger.difficulty == old(ledger.difficulty)
      ensures old(ledger.pendingTransactions) == [] ==>
                DocumentHistory(ledger.Chain(), t.documentHash)
                == old(DocumentHistory(ledger.Chain(), t.documentHash))
                   + [Annotate(t, ledger.Chain()[|ledger.Chain()| - 1])]
      ensures old(ChainValid(ledger.Chain())) ==> ChainValid(ledger.Chain())
    {
      ghost var before := ledger.Chain();
      var nextIndex := ledger.AddTransaction(t);
      var sealed := ledger.MinePendingTransactions(blockTime);
      HistoryAppend(before, sealed.ToDict(), t.documentHash);
      SingleTransactionHistory(t, sealed.ToDict(), t.documentHash);
    }

    /**
     * upload_document: store under the content hash with the session user as owner,
     * then seal one block ending in the upload transaction.
     */
    method UploadDocument(token: string, name: string, content: Bytes, docType: string,
                          generatedKey: Bytes, iv: Bytes, createdAt: Timestamp,
                          txTime: Timestamp, blockTime: Timestamp)
      returns (r: Result<DocumentRecord>)
      requires Valid()
      requires SessionUser(token).Some? ==>
                 CanSeal([Upload(SessionUser(token).value.userId, DocumentHash(content), name, docType, txTime)],
                         blockTime)
      modifies ledger, store
      ensures Valid()
      ensures SessionUser(token).None? ==>
                r == Err(InvalidSession) && unchanged(store) && unchanged(ledger)
      ensures SessionUser(token).Some? ==>
                var userId := SessionUser(token).value.userId;
                var t := Upload(userId, DocumentHash(content), name, docType, txTime);
                && r == Ok(DocumentRecord(userId, name, docType, DocumentHash(content), |content|,
                                          createdAt, iv, generatedKey))
                && store.metadata == old(store.metadata)[r.value.hash := r.value]
                && store.files == old(store.files)[r.value.hash := EncryptDocument(content, generatedKey, iv)]
                && store.contents == old(store.contents)[r.value.hash := content]
                && CanRead(userId, r.value.hash)
                && SealedOnto(old(ledger.Chain()), ledger.Chain(), old(ledger.pendingTransactions) + [t],
                              blockTime, ledger.difficulty)
                && ledger.pendingTransactions == []
                && (old(ledger.pendingTransactions) == [] ==>
                      DocumentHistory(ledger.Chain(), r.value.hash)
                      == old(DocumentHistory(ledger.Chain(), r.value.hash))
                         + [Annotate(t, ledger.Chain()[|ledger.Chain()| - 1])])
      ensures ledger.difficulty == old(ledger.difficulty)
      ensures old(ChainValid(ledger.Chain())) ==> ChainValid(ledger.Chain())
    {
      var user := auth.GetUserBySession(token);
      if user.None? {
        return Err(InvalidSession);
      }
      var userId := user.value.userId;
      var rec := store.StoreDocument(userId, name, content, docType, None, generatedKey, iv, createdAt);
      var t := Upload(userId, rec.hash, name, docType, txTime);
      RecordAndSeal(t, blockTime);
      return Ok(rec);
    }

    /** get_document: session, then retrieval, then ownership; reads change nothing. */
    method GetDocument(token: string, h: HexDigest) returns (r: Result<(Bytes, DocumentRecord)>)
      requires Valid()
      ensures SessionUser(token).None? ==> r == Err(InvalidSession)
      ensures SessionUser(token).Some? ==>
                && (h !in store.metadata ==> r == Err(DocumentNotFound))
                && (h in store.metadata && h !in store.files ==> r == Err(DocumentFileNotFound))
                && ((h in store.metadata && h in store.files && store.metadata[h].userId != SessionUser(token).value.userId)
                      ==> r == Err(AccessDenied))
      ensures r.Ok? <==> SessionUser(token).Some? && CanRead(SessionUser(token).value.userId, h)
      ensures r.Ok? ==> r.value == (store.contents[h], store.metadata[h])
    {
      var user := auth.GetUserBySession(token);
      if user.None? {
        return Err(InvalidSession);
      }
      var userId := user.value.userId;
      var found := store.RetrieveDocument(h);
      if found.Err? {
        return Err(found.error);
      }
      var (content, rec) := found.value;
      if rec.userId != userId {
        return Err(AccessDenied);
      }
      return Ok((content, rec));
    }

    /** The transfer transaction the controller would record, when every check passes. */
    function TransferTx(token: string, h: HexDigest, recipient: string, txTime: Timestamp): Transaction
      reads this, auth, store
      requires SessionUser(token).Some? && h in store.metadata && recipient in auth.users
    {
      Transfer(SessionUser(token).value.userId, auth.users[recipient].userId, h, store.metadata[h].name, txTime)
    }

    /**
     * transfer_document: the sender must own the record and the recipient must exist;
     * then the same bytes are stored again under the same key, so the same hash slot
     * gets the recipient as owner, and one block ending in the transfer is sealed.
     */
    method TransferDocument(token: string, h: HexDigest, recipient: string, iv: Bytes,
                            createdAt: Timestamp, txTime: Timestamp, blockTime: Timestamp)
      returns (r: Result<DocumentRecord>)
      requires Valid()
      requires SessionUser(token).Some? && CanRead(SessionUser(token).value.userId, h) && recipient in auth.users ==>
                 CanSeal([TransferTx(token, h, recipient, txTime)], blockTime)
      modifies ledger, store
      ensures Valid()
      ensures SessionUser(token).None? ==> r == Err(InvalidSession)
      ensures SessionUser(token).Some? ==>
                && (h !in old(store.metadata) ==> r == Err(DocumentNotFound))
                && (h in old(store.metadata) && h !in old(store.files) ==> r == Err(DocumentFileNotFound))
                && ((h in old(store.metadata) && h in old(store.files)
                     && old(store.metadata[h].userId) != SessionUser(token).value.userId) ==> r == Err(AccessDenied))
                && ((old(CanRead(SessionUser(token).value.userId, h)) && recipient !in auth.users)
                      ==> r == Err(RecipientNotFound))
      ensures r.Ok? <==>
                SessionUser(token).Some? && old(CanRead(SessionUser(token).value.userId, h)) && recipient in auth.users
      ensures r.Err? ==> unchanged(store) && unchanged(ledger)
      ensures r.Ok? ==>
                var sender := SessionUser(token).value.userId;
                var to := auth.users[recipient].userId;
                var rec := old(store.metadata[h]);
                var t := Transfer(sender, to, h, rec.name, txTime);
                && r.value == DocumentRecord(to, rec.name, rec.docType, h, rec.size, createdAt, iv, rec.encryptionKey)
                && store.metadata == old(store.metadata)[h := r.value]
                && store.files == old(store.files)[h := EncryptDocument(old(store.contents[h]), rec.encryptionKey, iv)]
                && store.contents == old(store.contents)
                && CanRead(to, h)
                && (sender != to ==> !CanRead(sender, h))
                && SealedOnto(old(ledger.Chain()), ledger.Chain(), old(ledger.pendingTransactions) + [t],
                              blockTime, ledger.difficulty)
                && ledger.pendingTransactions == []
                && (old(ledger.pendingTransactions) == [] ==>
                      DocumentHistory(ledger.Chain(), h)
                      == old(DocumentHistory(ledger.Chain(), h)) + [Annotate(t, ledger.Chain()[|ledger.Chain()| - 1])])
      ensures ledger.difficulty == old(ledger.difficulty)
      ensures old(ChainValid(ledger.Chain())) ==> ChainValid(ledger.Chain())
    {
      var user := auth.GetUserBySession(token);
      if user.None? {
        return Err(InvalidSession);
      }
      var userId := user.value.userId;
      var found := store.RetrieveDocument(h);
      if found.Err? {
        return Err(found.error);
      }
      var rec := found.value.1;
      if rec.userId != userId {
        return Err(AccessDenied);
      }
      if recipient !in auth.users {
        return Err(RecipientNotFound);
      }
      var recipientUser := auth.users[recipient];
      var t := Transfer(userId, recipientUser.userId, h, rec.name, txTime);
      assert t == TransferTx(token, h, recipient, txTime);
      ghost var next := ledger.NextHeader(ledger.pendingTransactions + [t], blockTime);
      assert Sealable(next, ledger.difficulty);
      var moved := Reassign(h, recipientUser.userId, iv, createdAt);
      ghost var metadata, files, contents := store.metadata, store.files, store.contents;
      assert ledger.NextHeader(ledger.pendingTransactions + [t], blockTime) == next;
      RecordAndSeal(t, blockTime);
      assert store.metadata == metadata && store.files == files && store.contents == contents;
      return Ok(moved);
    }

    /**
     * The storage half of transfer_document: read the stored bytes back and
     * store them again, same key and name, with `to` as the owner.
     */
    method Reassign(h: HexDigest, to: string, iv: Bytes, createdAt: Timestamp) returns (moved: DocumentRecord)
      requires store.Valid() && h in store.metadata && h in store.files
      modifies store
      ensures store.Valid()
      ensures var rec := old(store.metadata[h]);
              moved == DocumentRecord(to, rec.name, rec.docType, h, rec.size, createdAt, iv, rec.encryptionKey)
      ensures store.metadata == old(store.metadata)[h := moved]
      ensures store.files == old(store.files)[h := EncryptDocument(old(store.contents[h]), old(store.metadata[h]).encryptionKey, iv)]
      ensures store.contents == old(store.contents)
    {
      var found := store.RetrieveDocument(h);
      var content := found.value.0;
      var rec := found.value.1;
      assert content == store.contents[h] && DocumentHash(content) == h && |content| == rec.size;
      moved := store.StoreDocument(to, rec.name, content, rec.docType,
                                   Some(rec.encryptionKey), rec.encryptionKey, iv, createdAt);
    }

    /** get_user_documents: the session user's records. */
    method GetUserDocuments(token: string) returns (r: Result<map<HexDigest, DocumentRecord>>)
      ensures SessionUser(token).None? ==> r == Err(InvalidSession)
      ensures SessionUser(token).Some? ==> r == Ok(OwnedBy(store.metadata, SessionUser(token).value.userId))
    {
      var user := auth.GetUserBySession(token);
      if user.None? {
        return Err(InvalidSession);
      }
      var docs := store.GetUserDocuments(user.value.userId);
      return Ok(docs);
    }

    /** get_document_history: nested loops over the chain collecting the transactions naming `h`. */
    method GetDocumentHistory(token: string, h: HexDigest) returns (r: Result<seq<HistoryEntry>>)
      ensures SessionUser(token).None? ==> r == Err(InvalidSession)
      ensures SessionUser(token).Some? ==> r == Ok(DocumentHistory(ledger.Chain(), h))
    {
      var user := auth.GetUserBySession(token);
      if user.None? {
        return Err(InvalidSession);
      }
      var history: seq<HistoryEntry> := [];
      var chain := ledger.chain;
      var i := 0;
      while i < |chain|
        invariant 0 <= i <= |chain|
        invariant history == DocumentHistory(Records(chain)[..i], h)
      {
        var block := chain[i];
        var txs := block.transactions;
        var j := 0;
        while j < |txs|
          invariant 0 <= j <= |txs|
          invariant history == DocumentHistory(Records(chain)[..i], h) + BlockHistory(txs[..j], block.ToDict(), h)
        {
          if txs[j].documentHash == h {
            history := history + [Annotate(txs[j], block.ToDict())];
          }
          assert txs[..j + 1][..j] == txs[..j];
          j := j + 1;
        }
        assert txs[..j] == txs;
        assert Records(chain)[..i + 1][..i] == Records(chain)[..i];
        i := i + 1;
      }
      assert Records(chain)[..i] == Records(chain);
      return Ok(history);
    }

    /** get_user_transactions: the session user's uploads across the chain. */
    method GetUserTransactions(token: string) returns (r: Result<seq<UserTxEntry>>)
      ensures SessionUser(token).None? ==> r == Err(InvalidSession)
      ensures SessionUser(token).Some? ==> r == Ok(UserTransactions(ledger.Chain(), SessionUser(token).value.userId))
    {
      var user := auth.GetUserBySession(token);
      if user.None? {
        return Err(InvalidSession);
      }
      var txs := ledger.GetTransactionsByUser(user.value.userId);
      return Ok(txs);
    }

    /** verify_blockchain: exactly is_chain_valid. */
    method VerifyBlockchain() returns (valid: bool)
      ensures valid == ChainValid(ledger.Chain())
    {
      valid := ledger.IsChainValid();
    }
  }

  /**
   * The end-to-end run: a document with no history is uploaded by one user and
   * transferred to another. The history then has exactly the upload and the
   * transfer, the sender can no longer read it, the recipient reads the same bytes.
   */
  method UploadThenTransfer(v: EVaultController, senderToken: string, recipient: string,
                            name: string, content: Bytes, docType: string, key: Bytes,
                            iv1: Bytes, iv2: Bytes, t1: Timestamp, t2: Timestamp, t3: Timestamp, t4: Timestamp,
                            t5: Timestamp, t6: Timestamp)
      returns (up: Result<DocumentRecord>, tr: Result<DocumentRecord>)
    requires v.Valid() && |v.ledger.chain| > 0 && EverySearchEnds(v.ledger.difficulty)
    requires v.ledger.pendingTransactions == []
    requires v.SessionUser(senderToken).Some? && recipient in v.auth.users
    requires v.SessionUser(senderToken).value.userId != v.auth.users[recipient].userId
    requires DocumentHistory(v.ledger.Chain(), DocumentHash(content)) == []
    modifies v.ledger, v.store
    ensures v.Valid()
    ensures up.Ok? && tr.Ok? && up.value.hash == tr.value.hash == DocumentHash(content)
    ensures var h := DocumentHash(content);
            && |DocumentHistory(v.ledger.Chain(), h)| == 2
            && DocumentHistory(v.ledger.Chain(), h)[0].transaction.Upload?
            && DocumentHistory(v.ledger.Chain(), h)[1].transaction.Transfer?
            && !v.CanRead(v.SessionUser(senderToken).value.userId, h)
            && v.CanRead(v.auth.users[recipient].userId, h)
            && v.store.contents[h] == content
  {
    var h := DocumentHash(content);
    var sender := v.SessionUser(senderToken).value.userId;
    up := v.UploadDocument(senderToken, name, content, docType, key, iv1, t1, t2, t3);
    assert |DocumentHistory(v.ledger.Chain(), h)| == 1;
    tr := TransferAfterUpload(v, senderToken, recipient, h, iv2, t4, t5, t6);
  }

  /** The second half of the end-to-end run: the transfer of a document whose history is its upload. */
  method TransferAfterUpload(v: EVaultController, senderToken: string, recipient: string, h: HexDigest,
                             iv: Bytes, t4: Timestamp, t5: Timestamp, t6: Timestamp)
      returns (tr: Result<DocumentRecord>)
    requires v.Valid() && |v.ledger.chain| > 0 && EverySearchEnds(v.ledger.difficulty)
    requires v.ledger.pendingTransactions == []
    requires v.SessionUser(senderToken).Some? && recipient in v.auth.users
    requires v.SessionUser(senderToken).value.userId != v.auth.users[recipient].userId
    requires v.CanRead(v.SessionUser(senderToken).value.userId, h)
    requires |DocumentHistory(v.ledger.Chain(), h)| == 1 && DocumentHistory(v.ledger.Chain(), h)[0].transaction.Upload?
    modifies v.ledger, v.store
    ensures v.Valid() && v.store.contents == old(v.store.contents)
    ensures tr.Ok? && tr.value.hash == h
    ensures && |DocumentHistory(v.ledger.Chain(), h)| == 2
            && DocumentHistory(v.ledger.Chain(), h)[0].transaction.Upload?
            && DocumentHistory(v.ledger.Chain(), h)[1].transaction.Transfer?
            && !v.CanRead(v.SessionUser(senderToken).value.userId, h)
            && v.CanRead(v.auth.users[recipient].userId, h)
  {
    ghost var before := DocumentHistory(v.ledger.Chain(), h);
    assert Sealable(v.ledger.NextHeader([v.TransferTx(senderToken, h, recipient, t5)], t6), v.ledger.difficulty);
    tr := v.TransferDocument(senderToken, h, recipient, iv, t4, t5, t6);
    assert DocumentHistory(v.ledger.Chain(), h)[..1] == before;
  }
}
