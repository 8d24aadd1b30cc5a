/**
 * The hash-chained ledger: blocks built from a pending-transaction buffer,
 * sealed by a nonce search against a difficulty target, validated by
 * recomputing every digest and link, and serialised to a dictionary.
 */
module Ledger {
  import opened Wrappers
  import opened Crypto

  /** A clock reading from time.time(): opaque, never computed with. */
  type Timestamp = real

  /** A ledger transaction, as the vault builds it. Only an upload carries a "user_id" key. */
  datatype Transaction =
    | Upload(userId: string, documentHash: HexDigest, documentName: string,
             documentType: string, timestamp: Timestamp)
    | Transfer(senderId: string, recipientId: string, documentHash: HexDigest,
               documentName: string, timestamp: Timestamp)

  /** The five fields a block digest covers. */
  datatype Header = Header(index: int, timestamp: Timestamp, transactions: seq<Transaction>,
                           previousHash: HexDigest, nonce: int)

  /** A block as Block.to_dict renders it. */
  datatype BlockRecord = BlockRecord(index: int, timestamp: Timestamp, transactions: seq<Transaction>,
                                     previousHash: HexDigest, nonce: int, hash: HexDigest)

  /** json.dumps(..., sort_keys=True) of a header: fixed but unknown. */
  const CanonicalJson: Header -> string

  /** Block.calculate_hash: SHA-256 of the canonical JSON of the header. */
  function BlockDigest(h: Header): HexDigest {
    Sha256(Utf8(CanonicalJson(h)))
  }

  function HeaderOf(b: BlockRecord): Header {
    Header(b.index, b.timestamp, b.transactions, b.previousHash, b.nonce)
  }

  function WithNonce(h: Header, n: int): Header {
    Header(h.index, h.timestamp, h.transactions, h.previousHash, n)
  }

  const DefaultDifficulty: int := 2
  const GenesisPreviousHash: HexDigest := "0"

  // ---------------------------------------------------------------------
  // Proof-of-work target

  /** Python's s[:d], for any integer d. */
  function PrefixSlice(s: string, d: int): (r: string)
    ensures |r| <= |s|
  {
    if d >= 0 then (if d <= |s| then s[..d] else s)
    else if |s| + d >= 0 then s[..|s| + d] else []
  }

  /** Python's "0" * d: empty when d <= 0. */
  function Zeros(d: int): string {
    seq(if d > 0 then d else 0, _ => '0')
  }

  /** The loop exit test of mine_block: hash[:difficulty] == "0" * difficulty. */
  predicate MeetsTarget(hash: HexDigest, difficulty: int) {
    PrefixSlice(hash, difficulty) == Zeros(difficulty)
  }

  /** For a non-negative difficulty, the target means: at least `d` characters, the first `d` all '0'. */
  lemma MeetsTargetMeaning(hash: HexDigest, d: int)
    requires d >= 0
    ensures MeetsTarget(hash, d) <==> d <= |hash| && forall i :: 0 <= i < d ==> hash[i] == '0'
  {
    if d <= |hash| && forall i :: 0 <= i < d ==> hash[i] == '0' {
      assert PrefixSlice(hash, d) == Zeros(d);
    }
    if MeetsTarget(hash, d) {
      assert |Zeros(d)| == d;
      forall i | 0 <= i < d ensures hash[i] == '0' {
        assert PrefixSlice(hash, d)[i] == Zeros(d)[i];
      }
    }
  }

  /** A negative difficulty is met only by a digest no longer than its magnitude. */
  lemma NegativeDifficulty(hash: HexDigest, d: int)
    requires d < 0
    ensures MeetsTarget(hash, d) <==> |hash| <= -d
  {
    assert Zeros(d) == [];
  }

  /** Some nonce at or after the header's own meets the target: the search ends. */
  ghost predicate Sealable(h: Header, difficulty: int) {
    exists n :: n >= h.nonce && MeetsTarget(BlockDigest(WithNonce(h, n)), difficulty)
  }

  /** A block as mine_block leaves it: true digest, target met, no smaller nonce from 0 met it. */
  ghost predicate Mined(b: BlockRecord, difficulty: int) {
    && b.nonce >= 0
    && b.hash == BlockDigest(HeaderOf(b))
    && MeetsTarget(b.hash, difficulty)
    && forall n :: 0 <= n < b.nonce ==> !MeetsTarget(BlockDigest(WithNonce(HeaderOf(b), n)), difficulty)
  }

  // ---------------------------------------------------------------------
  // Chain validity

  /** Block i (i >= 1) carries its true digest and points at block i-1's stored hash. */
  predicate LinkOk(c: seq<BlockRecord>, i: int)
    requires 1 <= i < |c|
  {
    c[i].hash == BlockDigest(HeaderOf(c[i])) && c[i].previousHash == c[i - 1].hash
  }

  /** is_chain_valid: every block after the first is intact and linked; block 0 is never checked. */
  predicate ChainValid(c: seq<BlockRecord>) {
    forall i :: 1 <= i < |c| ==> LinkOk(c, i)
  }

  /** The block that sealing `txs` at time `now` onto `c` produces, up to its nonce and hash. */
  ghost predicate Extends(c: seq<BlockRecord>, b: BlockRecord, txs: seq<Transaction>, now: Timestamp)
    requires |c| > 0
  {
    && b.index == c[|c| - 1].index + 1
    && b.timestamp == now
    && b.transactions == txs
    && b.previousHash == c[|c| - 1].hash
  }

  /** `after` is `before` plus exactly one mined block holding `txs`, linked to the old tip. */
  ghost predicate SealedOnto(before: seq<BlockRecord>, after: seq<BlockRecord>, txs: seq<Transaction>,
                             now: Timestamp, difficulty: int)
  {
    && |before| > 0
    && |after| == |before| + 1
    && after[..|before|] == before
    && Extends(before, after[|before|], txs, now)
    && Mined(after[|before|], difficulty)
  }

  /** Appending a mined block that extends the tip keeps a valid chain valid. */
  lemma {:induction false} AppendKeepsValid(c: seq<BlockRecord>, b: BlockRecord, txs: seq<Transaction>,
                                            now: Timestamp, difficulty: int)
    requires |c| > 0 && ChainValid(c)
    requires Extends(c, b, txs, now) && Mined(b, difficulty)
    ensures ChainValid(c + [b])
  {
    var c' := c + [b];
    forall i | 1 <= i < |c'| ensures LinkOk(c', i) {
      if i < |c| {
        assert LinkOk(c, i);
        assert c'[i] == c[i] && c'[i - 1] == c[i - 1];
      }
    }
  }

  /** Editing a block i >= 1 while keeping its stored hash is detected, unless the edited header collides. */
  lemma EditKeepingHashDetected(c: seq<BlockRecord>, i: int, b: BlockRecord)
    requires ChainValid(c) && 1 <= i < |c|
    requires b != c[i] && b.hash == c[i].hash
    requires BlockDigest(HeaderOf(b)) == BlockDigest(HeaderOf(c[i])) ==> HeaderOf(b) == HeaderOf(c[i])
    ensures !ChainValid(c[i := b])
  {
    assert LinkOk(c, i);
    assert HeaderOf(b) != HeaderOf(c[i]);
    assert !LinkOk(c[i := b], i);
  }

  /** Changing only the stored hash of a block i >= 1 (the tip included) fails its recomputation. */
  lemma HashEditDetected(c: seq<BlockRecord>, i: int, b: BlockRecord)
    requires ChainValid(c) && 1 <= i < |c|
    requires HeaderOf(b) == HeaderOf(c[i]) && b.hash != c[i].hash
    ensures !ChainValid(c[i := b])
  {
    assert LinkOk(c, i);
    assert !LinkOk(c[i := b], i);
  }

  /** Changing the stored hash of any block that has a successor breaks the successor's link. */
  lemma EditChangingHashDetected(c: seq<BlockRecord>, i: int, b: BlockRecord)
    requires ChainValid(c) && 0 <= i < |c| - 1
    requires b.hash != c[i].hash
    ensures !ChainValid(c[i := b])
  {
    assert LinkOk(c, i + 1);
    assert !LinkOk(c[i := b], i + 1);
  }

  /** Block 0 is never recomputed: any edit of it that keeps its stored hash goes unnoticed. */
  lemma GenesisEditUndetected(c: seq<BlockRecord>, b: BlockRecord)
    requires ChainValid(c) && |c| > 0 && b.hash == c[0].hash
    ensures ChainValid(c[0 := b])
  {
    var c' := c[0 := b];
    forall i | 1 <= i < |c'| ensures LinkOk(c', i) {
      assert LinkOk(c, i);
    }
  }

  /** A consistently re-sealed tip is indistinguishable: validity trusts the single writer. */
  lemma TipResealUndetected(c: seq<BlockRecord>, b: BlockRecord)
    requires ChainValid(c) && |c| >= 2
    requires b.previousHash == c[|c| - 2].hash && b.hash == BlockDigest(HeaderOf(b))
    ensures ChainValid(c[|c| - 1 := b])
  {
    var c' := c[|c| - 1 := b];
    forall i | 1 <= i < |c'| ensures LinkOk(c', i) {
      if i < |c| - 1 {
        assert LinkOk(c, i);
      }
    }
  }

  // ---------------------------------------------------------------------
  // Per-user transaction scan

  /** A hit of get_transactions_by_user: the copy's "timestamp" is overwritten by its block's. */
  datatype UserTxEntry = UserTxEntry(transaction: Transaction, blockHash: HexDigest)

  /** transaction.get("user_id") == userId: a transfer has no "user_id" key and never matches. */
  predicate HasUserId(t: Transaction, userId: string) {
    t.Upload? && t.userId == userId
  }

  function Stamp(t: Transaction, b: BlockRecord): UserTxEntry {
    UserTxEntry(t.(timestamp := b.timestamp), b.hash)
  }

  /** The hits among `txs`, in order, all stamped with block `b`. */
  function BlockUserTxs(txs: seq<Transaction>, b: BlockRecord, userId: string): seq<UserTxEntry> {
    if txs == [] then []
    else BlockUserTxs(txs[..|txs| - 1], b, userId)
         + (if HasUserId(txs[|txs| - 1], userId) then [Stamp(txs[|txs| - 1], b)] else [])
  }

  /** The hits over the whole chain, in chain order. */
  function UserTransactions(c: seq<BlockRecord>, userId: string): seq<UserTxEntry> {
    if c == [] then []
    else UserTransactions(c[..|c| - 1], userId) + BlockUserTxs(c[|c| - 1].transactions, c[|c| - 1], userId)
  }

  lemma {:induction false} BlockUserTxsMembers(txs: seq<Transaction>, b: BlockRecord, userId: string, e: UserTxEntry)
    ensures e in BlockUserTxs(txs, b, userId) <==>
            exists j :: 0 <= j < |txs| && HasUserId(txs[j], userId) && e == Stamp(txs[j], b)
  {
    if txs != [] {
      var init := txs[..|txs| - 1];
      BlockUserTxsMembers(init, b, userId, e);
      if e in BlockUserTxs(init, b, userId) {
        var j :| 0 <= j < |init| && HasUserId(init[j], userId) && e == Stamp(init[j], b);
        assert txs[j] == init[j];
      }
      if exists j :: 0 <= j < |txs| && HasUserId(txs[j], userId) && e == Stamp(txs[j], b) {
        var j :| 0 <= j < |txs| && HasUserId(txs[j], userId) && e == Stamp(txs[j], b);
        if j < |init| {
          assert init[j] == txs[j];
        }
      }
    }
  }

  /** Exactly the uploads by `userId`, each stamped with its own block's hash and timestamp. */
  lemma {:induction false} UserTransactionsMembers(c: seq<BlockRecord>, userId: string, e: UserTxEntry)
    ensures e in UserTransactions(c, userId) <==>
            exists i, j :: 0 <= i < |c| && 0 <= j < |c[i].transactions|
                           && HasUserId(c[i].transactions[j], userId) && e == Stamp(c[i].transactions[j], c[i])
  {
    if c != [] {
      var init, last := c[..|c| - 1], c[|c| - 1];
      UserTransactionsMembers(init, userId, e);
      BlockUserTxsMembers(last.transactions, last, userId, e);
      if e in UserTransactions(init, userId) {
        var i, j :| 0 <= i < |init| && 0 <= j < |init[i].transactions|
                    && HasUserId(init[i].transactions[j], userId) && e == Stamp(init[i].transactions[j], init[i]);
        assert c[i] == init[i];
      }
      if e in BlockUserTxs(last.transactions, last, userId) {
        var j :| 0 <= j < |last.transactions| && HasUserId(last.transactions[j], userId)
                 && e == Stamp(last.transactions[j], last);
        assert c[|c| - 1] == last;
      }
      if exists i, j :: 0 <= i < |c| && 0 <= j < |c[i].transactions|
                        && HasUserId(c[i].transactions[j], userId) && e == Stamp(c[i].transactions[j], c[i]) {
        var i, j :| 0 <= i < |c| && 0 <= j < |c[i].transactions|
                    && HasUserId(c[i].transactions[j], userId) && e == Stamp(c[i].transactions[j], c[i]);
        if i < |init| {
          assert init[i] == c[i];
        }
      }
    }
  }

  /** No transfer ever appears among a user's transactions, sent or received. */
  lemma UserTransactionsAreUploads(c: seq<BlockRecord>, userId: string, e: UserTxEntry)
    requires e in UserTransactions(c, userId)
    ensures e.transaction.Upload? && e.transaction.userId == userId
  {
    UserTransactionsMembers(c, userId, e);
  }

  // ---------------------------------------------------------------------
  // Serialisation

  /** The in-memory state of a Blockchain, by value. */
  datatype LedgerState = LedgerState(chain: seq<BlockRecord>, pendingTransactions: seq<Transaction>,
                                     difficulty: int)

  /** The dictionary from_dict reads; a missing key is None. */
  datatype LedgerDict = LedgerDict(chain: Option<seq<BlockRecord>>,
                                   pendingTransactions: Option<seq<Transaction>>,
                                   difficulty: Option<int>)

  /** Blockchain.to_dict: every key present. */
  function Serialize(s: LedgerState): LedgerDict {
    LedgerDict(Some(s.chain), Some(s.pendingTransactions), Some(s.difficulty))
  }

  /** The state Blockchain.from_dict loads: missing keys default to [], [] and 2. */
  function Deserialize(d: LedgerDict): LedgerState {
    LedgerState(d.chain.GetOr([]), d.pendingTransactions.GetOr([]), d.difficulty.GetOr(DefaultDifficulty))
  }

  /** from_dict(to_dict()) restores the state, stored nonces and hashes included. */
  lemma DeserializeSerialize(s: LedgerState)
    ensures Deserialize(Serialize(s)) == s
  {
  }

  /** to_dict(from_dict(d)) gives back `d` exactly when `d` had every key. */
  lemma SerializeDeserialize(d: LedgerDict)
    ensures Serialize(Deserialize(d)) == d <==> d.chain.Some? && d.pendingTransactions.Some? && d.difficulty.Some?
  {
  }

  // ---------------------------------------------------------------------
  // Blocks and the chain, as objects

  class Block {
    const index: int
    const timestamp: Timestamp
    const transactions: seq<Transaction>
    const previousHash: HexDigest
    var nonce: int
    var hash: HexDigest

    function Fields(): Header
      reads this
    {
      Header(index, timestamp, transactions, previousHash, nonce)
    }

    /** Block.calculate_hash over the current fields. */
    function CalculateHash(): HexDigest
      reads this
    {
      BlockDigest(Fields())
    }

    /** Block.to_dict. */
    function ToDict(): BlockRecord
      reads this
    {
      BlockRecord(index, timestamp, transactions, previousHash, nonce, hash)
    }

    constructor (index: int, timestamp: Timestamp, transactions: seq<Transaction>, previousHash: HexDigest)
      ensures ToDict() == BlockRecord(index, timestamp, transactions, previousHash, 0,
                                      BlockDigest(Header(index, timestamp, transactions, previousHash, 0)))
    {
      this.index := index;
      this.timestamp := timestamp;
      this.transactions := transactions;
      this.previousHash := previousHash;
      this.nonce := 0;
      this.hash := BlockDigest(Header(index, timestamp, transactions, previousHash, 0));
    }

    /**
     * Block.mine_block: count the nonce up until the digest meets the target.
     * The search is unbounded in the source; here its end is a precondition.
     */
    method MineBlock(difficulty: int)
      requires hash == CalculateHash()
      requires Sealable(Fields(), difficulty)
      modifies this
      ensures old(nonce) <= nonce
      ensures hash == CalculateHash() && MeetsTarget(hash, difficulty)
      ensures forall n :: old(nonce) <= n < nonce ==> !MeetsTarget(BlockDigest(WithNonce(old(Fields()), n)), difficulty)
    {
      ghost var h := Fields();
      ghost var w :| w >= nonce && MeetsTarget(BlockDigest(WithNonce(h, w)), difficulty);
      while PrefixSlice(hash, difficulty) != Zeros(difficulty)
        invariant old(nonce) <= nonce <= w
        invariant Fields() == WithNonce(h, nonce)
        invariant hash == CalculateHash()
        invariant forall n :: old(nonce) <= n < nonce ==> !MeetsTarget(BlockDigest(WithNonce(h, n)), difficulty)
        decreases w - nonce
      {
        nonce := nonce + 1;
        hash := CalculateHash();
      }
    }
  }

  /** The records of a sequence of blocks. */
  function Records(blocks: seq<Block>): (r: seq<BlockRecord>)
    reads blocks
    ensures |r| == |blocks|
    ensures forall i :: 0 <= i < |blocks| ==> r[i] == blocks[i].ToDict()
  {
    if blocks == [] then [] else Records(blocks[..|blocks| - 1]) + [blocks[|blocks| - 1].ToDict()]
  }

  /** The genesis block created at time `now`. */
  function Genesis(now: Timestamp): BlockRecord {
    BlockRecord(0, now, [], GenesisPreviousHash, 0, BlockDigest(Header(0, now, [], GenesisPreviousHash, 0)))
  }

  class Blockchain {
    var chain: seq<Block>
    var difficulty: int
    var pendingTransactions: seq<Transaction>

    function Chain(): seq<BlockRecord>
      reads this, chain
    {
      Records(chain)
    }

    function State(): LedgerState
      reads this, chain
    {
      LedgerState(Chain(), pendingTransactions, difficulty)
    }

    /** The header of the next block sealed at `now` over `txs`, before its nonce search. */
    function NextHeader(txs: seq<Transaction>, now: Timestamp): Header
      reads this, chain
      requires |chain| > 0
    {
      Header(chain[|chain| - 1].index + 1, now, txs, chain[|chain| - 1].hash, 0)
    }

    /** Blockchain(): one genesis block, no pending transactions, difficulty 2. */
    constructor (now: Timestamp)
      ensures Chain() == [Genesis(now)]
      ensures pendingTransactions == [] && difficulty == DefaultDifficulty
      ensures fresh(chain[0])
    {
      var genesis := new Block(0, now, [], GenesisPreviousHash);
      chain := [genesis];
      difficulty := DefaultDifficulty;
      pendingTransactions := [];
    }

    /** add_block: seal `txs` on top of the tip and append the block. */
    method AddBlock(txs: seq<Transaction>, now: Timestamp) returns (b: Block)
      requires |chain| > 0
      requires Sealable(NextHeader(txs, now), difficulty)
      modifies this
      ensures fresh(b)
      ensures Chain() == old(Chain()) + [b.ToDict()]
      ensures Extends(old(Chain()), b.ToDict(), txs, now) && Mined(b.ToDict(), difficulty)
      ensures pendingTransactions == old(pendingTransactions) && difficulty == old(difficulty)
    {
      var tip := chain[|chain| - 1];
      ghost var before := Chain();
      b := new Block(tip.index + 1, now, txs, tip.hash);
      ghost var start := b.Fields();
      b.MineBlock(difficulty);
      assert Records(chain) == before;
      forall n | 0 <= n < b.nonce
        ensures !MeetsTarget(BlockDigest(WithNonce(HeaderOf(b.ToDict()), n)), difficulty)
      {
        assert WithNonce(HeaderOf(b.ToDict()), n) == WithNonce(start, n);
      }
      chain := chain + [b];
      assert Records(chain) == before + [b.ToDict()];
    }

    /** add_transaction: buffer `t`; the result is the index the next block will get. */
    method AddTransaction(t: Transaction) returns (nextIndex: int)
      requires |chain| > 0
      modifies this
      ensures pendingTransactions == old(pendingTransactions) + [t]
      ensures chain == old(chain) && difficulty == old(difficulty)
      ensures nextIndex == Chain()[|Chain()| - 1].index + 1
    {
      pendingTransactions := pendingTransactions + [t];
      nextIndex := chain[|chain| - 1].index + 1;
    }

    /** mine_pending_transactions: no-op on an empty buffer, otherwise one sealed block from the whole buffer. */
    method MinePendingTransactions(now: Timestamp) returns (b: Block?)
      requires pendingTransactions != [] ==> |chain| > 0
      requires pendingTransactions != [] ==> Sealable(NextHeader(pendingTransactions, now), difficulty)
      modifies this
      ensures difficulty == old(difficulty)
      ensures old(pendingTransactions) == [] ==>
                b == null && chain == old(chain) && pendingTransactions == []
      ensures old(pendingTransactions) != [] ==>
                && b != null && fresh(b)
                && Chain() == old(Chain()) + [b.ToDict()]
                && Extends(old(Chain()), b.ToDict(), old(pendingTransactions), now)
                && Mined(b.ToDict(), difficulty)
                && pendingTransactions == []
                && SealedOnto(old(Chain()), Chain(), old(pendingTransactions), now, difficulty)
      ensures old(ChainValid(Chain())) ==> ChainValid(Chain())
    {
      if pendingTransactions == [] {
        return null;
      }
      ghost var before := Chain();
      b := AddBlock(pendingTransactions, now);
      pendingTransactions := [];
      assert Chain()[..|before|] == before;
      if ChainValid(before) {
        AppendKeepsValid(before, b.ToDict(), old(pendingTransactions), now, difficulty);
      }
    }

    /** is_chain_valid: stops at the first block whose digest or link is wrong. */
    method IsChainValid() returns (valid: bool)
      ensures valid == ChainValid(Chain())
    {
      var i := 1;
      while i < |chain|
        invariant 1 <= i
        invariant forall k :: 1 <= k < i && k < |chain| ==> LinkOk(Chain(), k)
      {
        var current, previous := chain[i], chain[i - 1];
        if current.hash != current.CalculateHash() {
          assert !LinkOk(Chain(), i);
          return false;
        }
        if current.previousHash != previous.hash {
          assert !LinkOk(Chain(), i);
          return false;
        }
        i := i + 1;
      }
      return true;
    }

    /** get_block_by_hash: the first block with that stored hash, or null. */
    method GetBlockByHash(hashValue: HexDigest) returns (b: Block?)
      ensures b == null <==> forall i :: 0 <= i < |chain| ==> chain[i].hash != hashValue
      ensures b != null ==> exists i :: 0 <= i < |chain| && chain[i] == b && b.hash == hashValue
                                        && forall k :: 0 <= k < i ==> chain[k].hash != hashValue
    {
      var i := 0;
      while i < |chain|
        invariant 0 <= i <= |chain|
        invariant forall k :: 0 <= k < i ==> chain[k].hash != hashValue
      {
        if chain[i].hash == hashValue {
          return chain[i];
        }
        i := i + 1;
      }
      return null;
    }

    /** get_transactions_by_user: the two nested loops, appending stamped copies. */
    method GetTransactionsByUser(userId: string) returns (r: seq<UserTxEntry>)
      ensures r == UserTransactions(Chain(), userId)
    {
      r := [];
      var i := 0;
      while i < |chain|
        invariant 0 <= i <= |chain|
        invariant r == UserTransactions(Chain()[..i], userId)
      {
        var block := chain[i];
        var txs := block.transactions;
        var j := 0;
        while j < |txs|
          invariant 0 <= j <= |txs|
          invariant r == UserTransactions(Chain()[..i], userId) + BlockUserTxs(txs[..j], block.ToDict(), userId)
        {
          if HasUserId(txs[j], userId) {
            r := r + [Stamp(txs[j], block.ToDict())];
          }
          assert txs[..j + 1][..j] == txs[..j];
          j := j + 1;
        }
        assert txs[..j] == txs;
        assert Chain()[..i + 1][..i] == Chain()[..i];
        i := i + 1;
      }
      assert Chain()[..i] == Chain();
    }

    /** Blockchain.to_dict. */
    function ToDict(): LedgerDict
      reads this, chain
    {
      Serialize(State())
    }

    /** from_dict: missing keys take their defaults; each block is rebuilt with its stored nonce and hash. */
    method FromDict(data: LedgerDict)
      modifies this
      ensures State() == Deserialize(data)
      ensures forall b :: b in chain ==> fresh(b)
    {
      difficulty := data.difficulty.GetOr(DefaultDifficulty);
      pendingTransactions := data.pendingTransactions.GetOr([]);
      var records := data.chain.GetOr([]);
      chain := [];
      var i := 0;
      while i < |records|
        invariant 0 <= i <= |records|
        invariant |chain| == i
        invariant Chain() == records[..i]
        invariant forall b :: b in chain ==> fresh(b)
        invariant difficulty == data.difficulty.GetOr(DefaultDifficulty)
        invariant pendingTransactions == data.pendingTransactions.GetOr([])
      {
        var r := records[i];
        var block := new Block(r.index, r.timestamp, r.transactions, r.previousHash);
        block.nonce := r.nonce;
        block.hash := r.hash;
        chain := chain + [block];
        assert records[..i + 1] == records[..i] + [r];
        i := i + 1;
      }
      assert records[..i] == records;
    }
  }
}
