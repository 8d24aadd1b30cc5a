# E-vault core in Dafny

This project models the core of a self-hosted document vault. Users upload documents. Each document is encrypted and stored under the SHA-256 of its plaintext. Every upload and every transfer of ownership is recorded in a hash-chained ledger, and each such call seals a proof-of-work block.

Six modules, one per component:

- `Wrappers` (`wrappers.dfy`): `Option`, `Result` and the vault's error kinds. There is one error kind per message the source raises.
- `Crypto` (`crypto.dfy`): the primitives.
  - SHA-256, UTF-8 encoding and AES-256-CBC are module constants with no defining value, so every proof holds for any such functions.
  - AES-CBC belongs to the subset type `Cbc`, whose only constraint is that decryption under the same key and IV inverts encryption.
  - PKCS#7 padding (section 6.3 of RFC 5652) is modelled exactly, with the strict checks a strict unpadder makes.
- `Ledger` (`ledger.dfy`): `blockchain/blockchain.py`.
  - `Block` is a class, because `mine_block` updates its `nonce` and `hash` in place.
  - `Blockchain` is a class holding `chain: seq<Block>`, `pendingTransactions` and `difficulty`.
  - Its abstract value `Chain()` is the sequence of `to_dict` records.
  - Validity, the per-user scan and serialisation are pure functions on those records, and the loops are proved against them.
- `DocumentStore` (`document_storage.dfy`): `storage-works/document_storage.py`.
  - `metadata` (hash → record) and `files` (hash → ciphertext) are maps that the methods reassign.
  - The ghost map `contents` records what each stored document decrypts to.
- `Auth` (`auth.dfy`): `blockchain/auth.py`. `users` and `sessions` are maps that the methods update.
- `Vault` (`vault.dfy`): `blockchain/evault_controller.py`.
  - The controller composes the three components. It checks the session, then ownership.
  - Each mutating call ends in `RecordAndSeal`: one transaction is appended and one block is sealed.

The controller imports `storage.document_storage`, and the file at `storage-works/document_storage.py` is taken to be that module.

Random tokens, salts, user ids, keys and IVs are method parameters, and so are clock readings (`Timestamp`, an opaque `real`). No operation assumes any of them is unique. Only the two end-to-end scenarios, `Vault.UploadThenTransfer` and `Vault.TransferAfterUpload`, assume that the sender's and the recipient's user ids differ.

Three behaviours of the code are easy to misread; the model follows the code:

- `get_transactions_by_user` keeps only transactions that have a `user_id` key, which means uploads only. It overwrites each copy's `timestamp` with its block's timestamp and adds `block_hash`, but not a block index.
- `get_document_history` keeps the transaction's own timestamp and adds `block_hash` and `block_index`.
- Decryption failure is the unpadder's error (`PaddingIncorrect`). AES-CBC's own rejection of a ciphertext whose length is not a multiple of 16 is not modelled: every file in the model is written by the store, so that case cannot occur.

## Model

| member | source | states |
|---|---|---|
| `Crypto.Pad` | storage-works/document_storage.py:37 | padding yields a whole number of 16-byte blocks, adds 1 to 16 bytes, and keeps the data as a prefix |
| `Crypto.Unpad` | storage-works/document_storage.py:44 | a successful unpad is strictly shorter than its input |
| `Crypto.UnpadIsInverseOfPad` | storage-works/document_storage.py:37-44 | unpadding yields `d` exactly when the input is the padding of `d` (both directions) |
| `Crypto.DecryptEncrypt` | storage-works/document_storage.py:34-45 | pad-encrypt then decrypt-unpad under the same key and IV returns the plaintext |
| `DocumentStore.DocumentHash` | storage-works/document_storage.py:30-32 | SHA-256 of the raw content; `DocumentStore.StoreTwiceCollapses` shows equal content lands on one slot |
| `DocumentStore.EncryptDocument` | storage-works/document_storage.py:34-39 | AES-CBC of the PKCS#7-padded content; `DocumentStore.DecryptEncryptDocument` proves `DecryptDocument` inverts it |
| `DocumentStore.DecryptDocument` | storage-works/document_storage.py:41-45 | AES-CBC decryption then strict unpadding, failing on bad padding; `DocumentStore.DecryptEncryptDocument` proves it inverts `EncryptDocument` |
| `DocumentStore.DecryptEncryptDocument` | storage-works/document_storage.py:34-45 | `_decrypt_document` inverts `_encrypt_document` for the same key and IV |
| `DocumentStore.DocumentStorage.constructor` | storage-works/document_storage.py:12-16 | a store over an empty directory is valid, empty and in lockstep |
| `DocumentStore.DocumentStorage.StoreDocument` | storage-works/document_storage.py:47-81 | the record has `hash` = digest of the content alone, `size` = content length and the caller's key if given; metadata and ciphertext are upserted under that hash and nothing else changes; validity and lockstep are kept |
| `DocumentStore.DocumentStorage.RetrieveDocument` | storage-works/document_storage.py:83-103 | unknown hash → not found; missing ciphertext file → file not found; otherwise the stored plaintext and its record; while files and records are in lockstep, only not-found can fail |
| `DocumentStore.DocumentStorage.DeleteDocument` | storage-works/document_storage.py:105-117 | returns whether the hash was present; if present, both the record and the file are removed; if absent, nothing changes |
| `DocumentStore.DocumentStorage.GetUserDocuments` | storage-works/document_storage.py:119-125 | exactly the records whose `user_id` is the argument, under their original keys |
| `DocumentStore.StoreTwiceCollapses` | storage-works/document_storage.py:55-79 | storing the same bytes for two owners leaves one record under one hash, owned by the second |
| `DocumentStore.DeleteTwice` | storage-works/document_storage.py:105-117 | the first delete reports presence and a second delete returns false |
| `DocumentStore.StoreThenRetrieve` | storage-works/document_storage.py:47-103 | retrieving right after storing returns the same bytes and the returned record |
| `Ledger.BlockDigest` | blockchain/blockchain.py:16-26 | SHA-256 of the UTF-8 of the sorted-key JSON of the five header fields, with no `hash` field; `Ledger.Block.constructor` and `Ledger.Block.MineBlock` state that a block's hash is this digest |
| `Ledger.Genesis` | blockchain/blockchain.py:52-54 | the genesis record: index 0, no transactions, previous hash "0", nonce 0; `Ledger.Blockchain.constructor` states it as the initial chain |
| `Ledger.Serialize` | blockchain/blockchain.py:122-128 | the three-key dictionary of chain records, pending list and difficulty; `Ledger.DeserializeSerialize` proves it lossless |
| `Ledger.Deserialize` | blockchain/blockchain.py:130-146 | the loaded state, with defaults [], [] and 2 for missing keys; `Ledger.SerializeDeserialize` states when it inverts `Serialize` |
| `Ledger.MeetsTargetMeaning` | blockchain/blockchain.py:30-31 | for difficulty d ≥ 0, the exit test means the digest has at least d characters and the first d are '0' |
| `Ledger.NegativeDifficulty` | blockchain/blockchain.py:30-31 | for negative d, the exit test holds only for digests of length ≤ −d |
| `Ledger.AppendKeepsValid` | blockchain/blockchain.py:60-71 | appending a mined block linked to the tip keeps a valid chain valid |
| `Ledger.EditKeepingHashDetected` | blockchain/blockchain.py:93-95 | editing block i ≥ 1 but keeping its stored hash makes the chain invalid, unless the new header collides |
| `Ledger.HashEditDetected` | blockchain/blockchain.py:93-95 | changing only the stored hash of a block i ≥ 1, the tip included, makes the chain invalid |
| `Ledger.EditChangingHashDetected` | blockchain/blockchain.py:97-99 | changing the stored hash of any block that has a successor makes the chain invalid |
| `Ledger.GenesisEditUndetected` | blockchain/blockchain.py:89 | block 0 is never recomputed, so an edit to it that keeps its hash stays valid |
| `Ledger.TipResealUndetected` | blockchain/blockchain.py:87-101 | a tip re-sealed consistently is still valid, so validity trusts the single writer |
| `Ledger.BlockUserTxsMembers` | blockchain/blockchain.py:114-119 | the hits of one block are exactly its transactions with that `user_id`, stamped with the block |
| `Ledger.UserTransactionsMembers` | blockchain/blockchain.py:110-120 | the scan returns exactly the transactions, across all blocks, whose `user_id` is the argument, each stamped with its own block's hash and timestamp |
| `Ledger.UserTransactionsAreUploads` | blockchain/blockchain.py:115 | every hit is an upload by that user, so transfers never appear |
| `Ledger.DeserializeSerialize` | blockchain/blockchain.py:122-146 | `from_dict(to_dict())` restores chain, stored nonces and hashes, pending list and difficulty |
| `Ledger.SerializeDeserialize` | blockchain/blockchain.py:130-137 | `to_dict(from_dict(d)) = d` exactly when `d` has all three keys; missing keys take the defaults |
| `Ledger.Block.constructor` | blockchain/blockchain.py:7-14 | a new block has nonce 0 and the digest of its fields |
| `Ledger.Block.CalculateHash` | blockchain/blockchain.py:16-26 | the block's digest over its current fields; `Ledger.Block.MineBlock` keeps `hash` equal to it |
| `Ledger.Block.ToDict` | blockchain/blockchain.py:35-44 | the six-field record of the block; `Ledger.Blockchain.FromDict` and `Ledger.DeserializeSerialize` restore it |
| `Ledger.Block.MineBlock` | blockchain/blockchain.py:28-33 | on exit, `hash` is the digest of the current fields and meets the target; no earlier nonce met it |
| `Ledger.Blockchain.constructor` | blockchain/blockchain.py:47-54 | one genesis block (index 0, no transactions, previous hash "0", nonce 0), nothing pending, difficulty 2 |
| `Ledger.Blockchain.AddBlock` | blockchain/blockchain.py:60-71 | appends exactly one fresh mined block: index = tip index + 1, linked to the tip's hash, holding the given transactions; earlier blocks unchanged |
| `Ledger.Blockchain.AddTransaction` | blockchain/blockchain.py:73-76 | appends to the pending list, leaves the chain alone, returns the tip index + 1 |
| `Ledger.Blockchain.MinePendingTransactions` | blockchain/blockchain.py:78-85 | empty buffer → null and no change; otherwise one sealed block holding the old buffer, an emptied buffer, and validity preserved |
| `Ledger.Blockchain.IsChainValid` | blockchain/blockchain.py:87-101 | true exactly when every block i ≥ 1 has its true digest and points to block i−1's hash |
| `Ledger.Blockchain.GetBlockByHash` | blockchain/blockchain.py:103-108 | null exactly when no block has that hash; otherwise the first block that has it |
| `Ledger.Blockchain.GetTransactionsByUser` | blockchain/blockchain.py:110-120 | the nested loops compute the user-transaction scan, in chain order |
| `Ledger.Blockchain.ToDict` | blockchain/blockchain.py:122-128 | `Serialize` of the ledger's state; `Ledger.DeserializeSerialize` proves it lossless |
| `Ledger.Blockchain.FromDict` | blockchain/blockchain.py:130-146 | the new state is the dictionary with defaults for missing keys; blocks are fresh objects with the stored nonce and hash copied |
| `Auth.HashPassword` | blockchain/auth.py:40-48 | SHA-256 of the UTF-8 of password followed by salt; `Auth.UserAuth.RegisterUser`, `Auth.UserAuth.Login` and `Auth.UserAuth.ChangePassword` state credentials through it |
| `Auth.UserAuth.constructor` | blockchain/auth.py:8-14 | no users, no sessions |
| `Auth.UserAuth.GetUserBySession` | blockchain/auth.py:102-113 | resolves exactly when the token is present and its username still exists, and then gives that user's record, whose username is the session's |
| `Auth.UserAuth.RegisterUser` | blockchain/auth.py:50-71 | a duplicate username fails and changes nothing; otherwise exactly one record is added, with role "user" and hash = H(password + salt); the same credentials then match |
| `Auth.UserAuth.Login` | blockchain/auth.py:73-92 | a session is created exactly when the salted hash matches; on failure nothing changes; on success the token maps to {user_id, username} and resolves to that user |
| `Auth.UserAuth.Logout` | blockchain/auth.py:94-100 | returns whether the token was present; the token is absent afterwards, so logout is idempotent |
| `Auth.UserAuth.GetUserById` | blockchain/auth.py:115-120 | None exactly when no user has that id; otherwise a stored user with that id |
| `Auth.UserAuth.ChangePassword` | blockchain/auth.py:122-141 | succeeds exactly when the old credentials match; then only that user's hash and salt change, and the new password matches; sessions survive |
| `Auth.RegisterThenLogin` | blockchain/auth.py:50-92 | after registering, logging in with the same password yields a session for that user |
| `Vault.BlockHistoryMembers` | blockchain/evault_controller.py:167-172 | a block's history hits are exactly its transactions naming the document |
| `Vault.DocumentHistoryMembers` | blockchain/evault_controller.py:164-174 | the history is exactly the transactions naming the document, each with its block's hash and index |
| `Vault.HistoryAppend` | blockchain/evault_controller.py:166-172 | sealing a block only appends that block's hits to every history |
| `Vault.SingleTransactionHistory` | blockchain/evault_controller.py:167-172 | a one-transaction block adds that transaction to its own document's history only |
| `Vault.HistoryOfUploadThenTransfer` | blockchain/evault_controller.py:164-174 | an upload block then a transfer block give a fresh document exactly two history entries, in that order |
| `Vault.EVaultController.constructor` | blockchain/evault_controller.py:12-17 | a genesis-only ledger with nothing pending and difficulty 2, no records, files or contents in the store, no users or sessions |
| `Vault.EVaultController.RecordAndSeal` | blockchain/evault_controller.py:63-64 | one transaction appended and exactly one block sealed holding the old buffer plus it; history gains it; validity kept |
| `Vault.EVaultController.UploadDocument` | blockchain/evault_controller.py:35-69 | invalid session → error and no change; otherwise record, ciphertext and contents are upserted under the content hash and every other hash keeps its record and file; the session user owns it and can read it, and one block ending in the upload is sealed |
| `Vault.EVaultController.GetDocument` | blockchain/evault_controller.py:71-87 | succeeds exactly when the session resolves and its user owns a stored document; it then returns the stored bytes; otherwise the error is chosen in the source's order |
| `Vault.EVaultController.TransferDocument` | blockchain/evault_controller.py:89-143 | every failure leaves store and ledger unchanged; on success the same hash slot carries the recipient as owner with the same key, name, type and bytes, only that slot's ciphertext file is rewritten, the sender loses read access, and one block ending in the transfer is sealed |
| `Vault.EVaultController.Reassign` | blockchain/evault_controller.py:124-133 | the re-upload keeps the hash slot, name, type, size, key and stored bytes, changes only the owner, IV and creation time, rewrites only slot h's ciphertext, and keeps every other record and file |
| `Vault.EVaultController.GetUserDocuments` | blockchain/evault_controller.py:145-155 | invalid session → error; otherwise the session user's records |
| `Vault.EVaultController.GetDocumentHistory` | blockchain/evault_controller.py:157-174 | invalid session → error; otherwise the nested loops compute the document history in chain order |
| `Vault.EVaultController.GetUserTransactions` | blockchain/evault_controller.py:176-186 | invalid session → error; otherwise the user-transaction scan for the session user |
| `Vault.EVaultController.VerifyBlockchain` | blockchain/evault_controller.py:188-190 | exactly the chain-validity predicate of the ledger |
| `Vault.UploadThenTransfer` | blockchain/evault_controller.py:35-143 | upload then transfer: history holds exactly the upload and the transfer, the sender cannot read the document, and the recipient reads the same bytes |
| `Vault.TransferAfterUpload` | blockchain/evault_controller.py:89-143 | transferring a document whose only history is its upload succeeds, leaves a two-entry history (upload, then transfer), moves read access to the recipient and keeps the stored bytes |

## Left out

- `Ledger.Block.MineBlock`: the source's nonce search has no bound. The method requires that some nonce at or after the current one meets the target (`Sealable`). Without that, the source loops forever, and that case is not modelled.
- `Ledger.Blockchain.AddBlock`, `Ledger.Blockchain.MinePendingTransactions`: both inherit the `Sealable` requirement.
- `Vault.EVaultController.UploadDocument`, `Vault.EVaultController.TransferDocument`, `Vault.EVaultController.RecordAndSeal`: these inherit it as `CanSeal`, and the end-to-end scenario assumes it for every header.
- `Ledger.Blockchain.AddTransaction`: requires a non-empty chain. An empty chain arises from `from_dict` with `"chain": []` or with no `"chain"` key. On it the source appends the transaction to the pending list and then raises IndexError. Neither that partial update nor the error is modelled. `AddBlock` has the same requirement: there the source raises before changing anything. `MinePendingTransactions` requires a non-empty chain only when something is pending; with an empty buffer it returns null on any chain, as the source does.
- `Auth.UserAuth.GetUserById`: Python scans the dictionary in insertion order and returns the first match. The map model returns some user with that id, so it is weaker only when two users share an id.
- Ledger persistence (`blockchain/persistence.py`) and the JSON load/save helpers of `auth.py` and `document_storage.py` are file I/O. They are not modelled: in-memory state is the state, and stores and directories start empty. This includes the silent fallback to a fresh chain on an unreadable snapshot.
- SHA-256, UTF-8, `json.dumps(sort_keys=True)` and AES-256-CBC are left uninterpreted, and base64 encoding of the key and IV is taken as lossless. AES's own key-length check, which raises ValueError for a key that is not 16, 24 or 32 bytes, is not modelled.
- `DocumentStore.DocumentStorage.RetrieveDocument`: the unpadding error branch is kept but unreachable. The model has no writer other than the store, so every present ciphertext decrypts. A file missing from disk is representable, because `files` may lack a key that `metadata` has.
- Transactions are a two-variant datatype (upload and transfer), the only shapes the controller builds. Arbitrary dictionaries loaded from a snapshot, and `from_dict`'s KeyError on a block dictionary missing a field, are not modelled.
- Python's object aliasing is not modelled: user and record dictionaries are plain values. For example, the dictionary returned by `get_user_by_session` is the live record.
- `transfer_document` finds the recipient with a loop that breaks on a matching username. It is modelled as the key lookup it is equivalent to.
- The controller's `register_user`, `login`, `logout` and `get_user_by_session` (blockchain/evault_controller.py:19-33) only forward to `UserAuth`. They are covered by the `Auth` methods.
- The Streamlit interface (`app.py`) is not modelled.
- Concurrency is not modelled: the source is single-process.
