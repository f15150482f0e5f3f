/** The chain of blocks and its ledger (BlockChain.java). */
module BlockChains {
  import opened Hashes
  import opened Ledger
  import opened Blocks

  datatype Outcome<E> = Pass | Fail(error: E)

  /** Why `append` throws: the block does not follow the tail, or its hash is not its digest. */
  datatype AppendError = PrevHashMismatch | HashMismatch

  /** What `check` throws when `isCorrect` is false. */
  datatype IntegrityError = ChainIncorrect

  // ---------------------------------------------------------------------
  // The chain as a value: its blocks' contents, front to back.
  // ---------------------------------------------------------------------

  function TransactionsOf(cs: seq<BlockData>): seq<Transaction>
  {
    seq(|cs|, i requires 0 <= i < |cs| => cs[i].transaction)
  }

  /** The hash a new block must name: the tail's, or the empty hash on an empty chain. */
  function TailHash(cs: seq<BlockData>): Hash
  {
    if cs == [] then Empty() else cs[|cs| - 1].hash
  }

  /** Every block after the first names its predecessor's hash. */
  predicate Linked(cs: seq<BlockData>)
  {
    forall i :: 0 < i < |cs| ==> cs[i].prevHash == cs[i - 1].hash
  }

  /** Every block's stored hash is the digest of its fields. */
  predicate Intact(cs: seq<BlockData>, digest: Hasher)
  {
    forall i :: 0 <= i < |cs| ==> HashIntact(cs[i], digest)
  }

  /** The same, for every block after the first: the only blocks `isCorrect` rehashes. */
  predicate IntactAfterGenesis(cs: seq<BlockData>, digest: Hasher)
  {
    forall i :: 0 < i < |cs| ==> HashIntact(cs[i], digest)
  }

  /** Both parties of every transaction end with a non-negative balance. */
  predicate Solvent(cs: seq<BlockData>, final: Balances)
  {
    forall i :: 0 <= i < |cs| ==>
      Get(final, cs[i].transaction.target) >= 0 && Get(final, cs[i].transaction.source) >= 0
  }

  predicate SolventFinal(cs: seq<BlockData>)
  {
    Solvent(cs, Replay(TransactionsOf(cs)))
  }

  /** What `isCorrect` accepts: linkage, untampered hashes after the first block, final solvency. */
  predicate Correct(cs: seq<BlockData>, digest: Hasher)
  {
    Linked(cs) && IntactAfterGenesis(cs, digest) && SolventFinal(cs)
  }

  /** The checks `isCorrect` makes on block `j`, given the final balances. */
  predicate BlockPasses(cs: seq<BlockData>, j: int, final: Balances, digest: Hasher)
    requires 0 <= j < |cs|
  {
    && (j > 0 ==> cs[j].prevHash == cs[j - 1].hash && HashIntact(cs[j], digest))
    && Get(final, cs[j].transaction.target) >= 0 && Get(final, cs[j].transaction.source) >= 0
  }

  /** Every block passes the checks `isCorrect` makes. */
  predicate EveryBlockPasses(cs: seq<BlockData>, final: Balances, digest: Hasher)
  {
    forall j :: 0 <= j < |cs| ==> BlockPasses(cs, j, final, digest)
  }

  /** `isCorrect` accepts exactly when every block passes its checks against the final balances. */
  lemma CorrectIffEveryBlockPasses(cs: seq<BlockData>, digest: Hasher)
    ensures Correct(cs, digest) <==> EveryBlockPasses(cs, Replay(TransactionsOf(cs)), digest)
  {
    var final := Replay(TransactionsOf(cs));
    if EveryBlockPasses(cs, final, digest) {
      forall i | 0 < i < |cs| ensures cs[i].prevHash == cs[i - 1].hash && HashIntact(cs[i], digest) {
        assert BlockPasses(cs, i, final, digest);
      }
      forall i | 0 <= i < |cs|
        ensures Get(final, cs[i].transaction.target) >= 0 && Get(final, cs[i].transaction.source) >= 0
      {
        assert BlockPasses(cs, i, final, digest);
      }
    }
    if Correct(cs, digest) {
      forall j | 0 <= j < |cs| ensures BlockPasses(cs, j, final, digest) {
        assert Get(final, cs[j].transaction.target) >= 0 && Get(final, cs[j].transaction.source) >= 0;
      }
    }
  }

  /**
   * The loop of `isCorrect` as written, from block `j` on, against the final
   * balances: `get` on an account that is not a key yields null, and comparing
   * it with 0 throws (None). The target is tested before the source, and the
   * source is not read when the target is already negative.
   */
  function CheckFromAsWritten(cs: seq<BlockData>, j: int, final: Balances, digest: Hasher): Option<bool>
    requires 0 <= j <= |cs|
    decreases |cs| - j
  {
    if j == |cs| then Some(true)
    else if j > 0 && (cs[j].prevHash != cs[j - 1].hash || !HashIntact(cs[j], digest)) then Some(false)
    else if cs[j].transaction.target !in final then None
    else if final[cs[j].transaction.target] < 0 then Some(false)
    else if cs[j].transaction.source !in final then None
    else if final[cs[j].transaction.source] < 0 then Some(false)
    else CheckFromAsWritten(cs, j + 1, final, digest)
  }

  /** `isCorrect` as written, given balances replayed with unseen accounts read as 0. */
  function IsCorrectAsWritten(cs: seq<BlockData>, digest: Hasher): Option<bool>
  {
    CheckFromAsWritten(cs, 0, Replay(TransactionsOf(cs)), digest)
  }

  /** With no transaction targeting the empty name, the empty name never becomes an account. */
  lemma EmptyNameNeverAccount(txs: seq<Transaction>)
    requires forall i :: 0 <= i < |txs| ==> txs[i].target != ""
    ensures "" !in Replay(txs)
  {
    ReplayKeys(txs);
    forall i | 0 <= i < |txs| ensures "" !in Accounts(txs[i]) {
    }
  }

  lemma {:induction false} CheckFromThrows(cs: seq<BlockData>, k: int, j: int, final: Balances, digest: Hasher)
    requires 0 <= k <= j < |cs|
    requires cs[j].transaction.source == "" && "" !in final
    requires forall i :: k < i <= j ==> cs[i].prevHash == cs[i - 1].hash && HashIntact(cs[i], digest)
    requires k > 0 ==> cs[k].prevHash == cs[k - 1].hash && HashIntact(cs[k], digest)
    requires forall i :: k <= i <= j ==> cs[i].transaction.target in final && final[cs[i].transaction.target] >= 0
    requires forall i :: k <= i < j && cs[i].transaction.source in final ==> final[cs[i].transaction.source] >= 0
    ensures CheckFromAsWritten(cs, k, final, digest) == None
    decreases j - k
  {
    if k < j && cs[k].transaction.source in final {
      CheckFromThrows(cs, k + 1, j, final, digest);
    }
  }

  /**
   * As written, `isCorrect` throws on a chain holding a deposit once every block
   * up to it has passed the linkage and recompute checks and every balance read
   * up to it is non-negative: a deposit's empty source is never a key.
   */
  lemma DepositMakesCheckThrow(cs: seq<BlockData>, digest: Hasher, j: int)
    requires 0 <= j < |cs| && IsDeposit(cs[j].transaction)
    requires forall i :: 0 < i <= j ==> cs[i].prevHash == cs[i - 1].hash && HashIntact(cs[i], digest)
    requires forall i :: 0 <= i <= j ==> Get(Replay(TransactionsOf(cs)), cs[i].transaction.target) >= 0
    requires forall i :: 0 <= i < j ==> Get(Replay(TransactionsOf(cs)), cs[i].transaction.source) >= 0
    requires forall i :: 0 <= i < |cs| ==> cs[i].transaction.target != ""
    ensures IsCorrectAsWritten(cs, digest) == None
  {
    var txs := TransactionsOf(cs);
    var final := Replay(txs);
    ReplayKeys(txs);
    EmptyNameNeverAccount(txs);
    forall i | 0 <= i <= j ensures cs[i].transaction.target in final && final[cs[i].transaction.target] >= 0 {
      assert cs[i].transaction.target in Accounts(txs[i]);
    }
    CheckFromThrows(cs, 0, j, final, digest);
  }

  /**
   * Deposit 100 to alice; alice pays bob 40; bob pays carol 10: `isCorrect` as
   * written throws at the first block, where the corrected check accepts.
   */
  lemma ThreeTransfersCheckThrows(cs: seq<BlockData>, digest: Hasher)
    requires AppendBuilt(cs, digest)
    requires TransactionsOf(cs)
             == [Transaction("", "alice", 100), Transaction("alice", "bob", 40), Transaction("bob", "carol", 10)]
    ensures IsCorrectAsWritten(cs, digest) == None
    ensures Correct(cs, digest)
  {
    ThreeTransfers();
    var txs := TransactionsOf(cs);
    assert cs[0].transaction == txs[0];
    forall i | 0 <= i < |cs| ensures cs[i].transaction.target != "" {
      assert cs[i].transaction == txs[i];
    }
    DepositMakesCheckThrow(cs, digest, 0);
    ScenarioSolvent(cs);
    AppendBuiltCorrectIffSolvent(cs, digest);
  }

  /** The checks `append` makes, in the source's order. */
  function AppendCheck(cs: seq<BlockData>, b: BlockData, digest: Hasher): (r: Outcome<AppendError>)
    ensures r == Fail(PrevHashMismatch) <==> cs != [] && b.prevHash != cs[|cs| - 1].hash
    ensures r == Pass <==> (cs != [] ==> b.prevHash == TailHash(cs)) && HashIntact(b, digest)
  {
    if cs != [] && b.prevHash != cs[|cs| - 1].hash then Fail(PrevHashMismatch)
    else if !HashIntact(b, digest) then Fail(HashMismatch)
    else Pass
  }

  /** The chain arose from the empty chain through accepted appends (and removals of the tail). */
  ghost predicate AppendBuilt(cs: seq<BlockData>, digest: Hasher)
    decreases |cs|
  {
    cs == [] || (AppendBuilt(cs[..|cs| - 1], digest) && AppendCheck(cs[..|cs| - 1], cs[|cs| - 1], digest) == Pass)
  }

  /** A chain built by `append` alone is linked and untampered. */
  lemma {:induction false} AppendBuiltIsLinked(cs: seq<BlockData>, digest: Hasher)
    requires AppendBuilt(cs, digest)
    ensures Linked(cs) && Intact(cs, digest)
    decreases |cs|
  {
    if cs != [] {
      var n := |cs| - 1;
      AppendBuiltIsLinked(cs[..n], digest);
      forall i | 0 < i < |cs| ensures cs[i].prevHash == cs[i - 1].hash {
        if i < n {
          assert cs[..n][i] == cs[i] && cs[..n][i - 1] == cs[i - 1];
        }
      }
      forall i | 0 <= i < |cs| ensures HashIntact(cs[i], digest) {
        if i < n {
          assert cs[..n][i] == cs[i];
        }
      }
    }
  }

  /** On a chain built by `append`, `isCorrect` reduces to the solvency check. */
  lemma AppendBuiltCorrectIffSolvent(cs: seq<BlockData>, digest: Hasher)
    requires AppendBuilt(cs, digest)
    ensures Correct(cs, digest) <==> SolventFinal(cs)
  {
    AppendBuiltIsLinked(cs, digest);
  }

  /** Dropping the tail keeps a chain append-built. */
  lemma DropTailKeepsAppendBuilt(cs: seq<BlockData>, digest: Hasher)
    requires AppendBuilt(cs, digest) && cs != []
    ensures AppendBuilt(cs[..|cs| - 1], digest)
  {
  }

  lemma TransactionsOfPrefix(cs: seq<BlockData>, k: nat)
    requires k <= |cs|
    ensures TransactionsOf(cs[..k]) == TransactionsOf(cs)[..k]
  {
  }

  /**
   * Replacing any block after the first by one that keeps the stored hash but
   * differs in its number, transaction, previous hash or nonce is caught by
   * `isCorrect`, unless the digest happens to agree on the altered fields.
   */
  lemma TamperedBlockFails(cs: seq<BlockData>, digest: Hasher, j: int, e: BlockData)
    requires 0 < j < |cs| && e.hash == cs[j].hash
    requires digest(e.num, e.transaction, e.prevHash, e.nonce) != cs[j].hash
    ensures !Correct(cs[j := e], digest)
  {
    var tampered := cs[j := e];
    assert !HashIntact(tampered[j], digest);
  }

  // ---------------------------------------------------------------------
  // Solvency: the source checks final balances only.
  // ---------------------------------------------------------------------

  /** No prefix of the replay drives any balance below 0. */
  predicate NoOverdraft(txs: seq<Transaction>)
  {
    forall k, u :: 0 <= k <= |txs| && u in Replay(txs[..k]) ==> Replay(txs[..k])[u] >= 0
  }

  /** A chain that never overdraws passes the final solvency check. */
  lemma NoOverdraftIsSolvent(cs: seq<BlockData>)
    requires NoOverdraft(TransactionsOf(cs))
    ensures SolventFinal(cs)
  {
    var txs := TransactionsOf(cs);
    assert txs[..|txs|] == txs;
  }

  /**
   * The converse fails: an overdraft repaid by a later deposit goes unnoticed,
   * because only the final balances are checked.
   */
  lemma FinalCheckMissesOverdraft(h: Hash)
    ensures var cs := [BlockData(0, Transaction("alice", "bob", 10), Empty(), 0, h),
                       BlockData(1, Transaction("", "alice", 10), h, 0, h)];
            SolventFinal(cs) && !NoOverdraft(TransactionsOf(cs))
  {
    var cs := [BlockData(0, Transaction("alice", "bob", 10), Empty(), 0, h),
               BlockData(1, Transaction("", "alice", 10), h, 0, h)];
    var txs := TransactionsOf(cs);
    assert txs == [Transaction("alice", "bob", 10), Transaction("", "alice", 10)];
    assert txs[..1] == [Transaction("alice", "bob", 10)];
    assert Replay(txs[..1])["alice"] == -10;
    var final := Replay(txs);
    assert Get(final, "alice") == 0 && Get(final, "bob") == 10 && Get(final, "") == 0;
  }

  // ---------------------------------------------------------------------
  // The chain object.
  // ---------------------------------------------------------------------

  class BlockChain {
    /** The validator handed to the mining constructor. */
    const check: Validator
    /** The digest the blocks' hashes are computed with. */
    const digest: Hasher

    var rootBlock: Block?

    /** The blocks reachable from `rootBlock`, front to back. */
    ghost var blocks: seq<Block>
    /** Their stored contents. */
    ghost var Contents: seq<BlockData>

    /**
     * `rootBlock` heads a doubly linked list holding exactly `blocks`, each once,
     * whose contents are `Contents`.
     */
    ghost predicate Valid()
      reads this, blocks
    {
      && |blocks| == |Contents|
      && rootBlock == (if blocks == [] then null else blocks[0])
      && (forall i :: 0 <= i < |blocks| ==> blocks[i].Data() == Contents[i])
      && (forall i :: 0 <= i < |blocks| - 1 ==> blocks[i].nextBlock == blocks[i + 1])
      && (forall i :: 0 <= i < |blocks| ==> (blocks[i].nextBlock == null <==> i == |blocks| - 1))
      && (forall i :: 0 < i < |blocks| ==> blocks[i].previousBlock == blocks[i - 1])
      && (blocks != [] ==> blocks[0].previousBlock == null)
      && (forall i, j :: 0 <= i < j < |blocks| ==> blocks[i] != blocks[j])
    }

    constructor (checker: Validator, digest: Hasher)
      ensures Valid() && Contents == [] && AppendBuilt(Contents, digest)
      ensures this.check == checker && this.digest == digest
    {
      this.check := checker;
      this.digest := digest;
      rootBlock := null;
      blocks := [];
      Contents := [];
    }

    /** `getLastBlock()`: walks the successor links to the tail; null on an empty chain. */
    method GetLastBlock() returns (last: Block?)
      requires Valid()
      ensures last == if blocks == [] then null else blocks[|blocks| - 1]
    {
      var current := rootBlock;
      ghost var i := 0;
      while current != null && current.nextBlock != null
        invariant blocks == [] ==> current == null
        invariant blocks != [] ==> 0 <= i < |blocks| && current == blocks[i]
        decreases |blocks| - i
      {
        current := current.nextBlock;
        i := i + 1;
      }
      last := current;
    }

    /** `getSize()`: counts the blocks reachable from the root. */
    method GetSize() returns (n: int)
      requires Valid()
      ensures n == |Contents|
    {
      if rootBlock == null {
        return 0;
      }
      var current := rootBlock;
      n := 1;
      while current.nextBlock != null
        invariant 1 <= n <= |blocks| && current == blocks[n - 1]
        decreases |blocks| - n
      {
        current := current.nextBlock;
        n := n + 1;
      }
    }

    /**
     * `mine(t)`: a new unattached block numbered `getSize()` that names the
     * tail's hash (the empty hash on an empty chain). The chain is untouched,
     * and the block passes `append`'s checks.
     */
    method Mine(t: Transaction) returns (b: Block)
      requires Valid()
      ensures fresh(b) && b.Unattached()
      ensures b.GetNum() == |Contents| && b.GetTransaction() == t && b.GetPrevHash() == TailHash(Contents)
      ensures AppendCheck(Contents, b.Data(), digest) == Pass
    {
      var last := GetLastBlock();
      var size := GetSize();
      if last == null {
        b := new Block.Mined(size, t, Empty(), check, digest);
      } else {
        b := new Block.Mined(size, t, last.GetHash(), check, digest);
      }
    }

    /**
     * `append(blk)`: throws on a linkage mismatch, then on a hash that is not the
     * block's digest; otherwise `blk` becomes the new tail.
     */
    method Append(blk: Block) returns (r: Outcome<AppendError>)
      requires Valid()
      requires blk.Unattached() && blk !in blocks
      modifies this, blocks, blk
      ensures Valid()
      ensures r == AppendCheck(old(Contents), old(blk.Data()), digest)
      ensures r == Pass ==> blocks == old(blocks) + [blk] && Contents == old(Contents) + [old(blk.Data())]
      ensures r != Pass ==> blocks == old(blocks) && Contents == old(Contents) && blk.Unattached()
      ensures AppendBuilt(old(Contents), digest) ==> AppendBuilt(Contents, digest)
      ensures blk.Data() == old(blk.Data())
    {
      var last := GetLastBlock();
      if last != null {
        if !blk.GetPrevHash().Equals(AHash(last.GetHash())) {
          return Fail(PrevHashMismatch);
        }
      }
      if !blk.GetHash().Equals(AHash(blk.CalculateHash(digest))) {
        return Fail(HashMismatch);
      }
      Link(last, blk);
      assert blocks[|blocks| - 1] == blk && blk.Data() == Contents[|Contents| - 1];
      assert Contents[..|Contents| - 1] == old(Contents);
      r := Pass;
    }

    /** The linking half of `append`: `blk` becomes the successor of the tail `last`, or the root. */
    method Link(last: Block?, blk: Block)
      requires Valid()
      requires last == if blocks == [] then null else blocks[|blocks| - 1]
      requires blk.Unattached() && blk !in blocks
      modifies this, blocks, blk
      ensures Valid()
      ensures blocks == old(blocks) + [blk] && Contents == old(Contents) + [old(blk.Data())]
    {
      if last == null {
        rootBlock := blk;
      } else {
        last.SetNextBlock(blk);
      }
      blocks := blocks + [blk];
      Contents := Contents + [blk.Data()];
    }

    /**
     * `removeLast()`: refuses (false) on a chain of at most one block; otherwise
     * unlinks the tail and reports true.
     */
    method RemoveLast() returns (removed: bool)
      requires Valid()
      modifies this, blocks
      ensures Valid()
      ensures removed <==> |old(Contents)| > 1
      ensures removed ==> blocks == old(blocks)[..|old(blocks)| - 1] && Contents == old(Contents)[..|old(Contents)| - 1]
      ensures removed ==> old(blocks)[|old(blocks)| - 1].Unattached()
      ensures !removed ==> blocks == old(blocks) && Contents == old(Contents)
      ensures AppendBuilt(old(Contents), digest) ==> AppendBuilt(Contents, digest)
      ensures removed ==> old(blocks)[|old(blocks)| - 1].Data() == old(blocks[|blocks| - 1].Data())
    {
      var last := GetLastBlock();
      if rootBlock == last {
        return false;
      }
      assert |blocks| > 1 && last == blocks[|blocks| - 1];
      var prev := last.GetPreviousBlock();
      assert prev == blocks[|blocks| - 2];
      if AppendBuilt(Contents, digest) {
        DropTailKeepsAppendBuilt(Contents, digest);
      }
      Unlink(prev);
      removed := true;
    }

    /** The unlinking half of `removeLast`: the predecessor of the tail drops its successor. */
    method Unlink(prev: Block)
      requires Valid() && |blocks| > 1 && prev == blocks[|blocks| - 2]
      modifies this, blocks
      ensures Valid()
      ensures blocks == old(blocks)[..|old(blocks)| - 1] && Contents == old(Contents)[..|old(Contents)| - 1]
      ensures old(blocks)[|old(blocks)| - 1].Unattached()
      ensures old(blocks)[|old(blocks)| - 1].Data() == old(blocks[|blocks| - 1].Data())
    {
      ghost var last := blocks[|blocks| - 1];
      assert prev.nextBlock == last;
      prev.SetNextBlock(null);
      blocks := blocks[..|blocks| - 1];
      Contents := Contents[..|Contents| - 1];
    }

    /**
     * `removeLast()` over the as-written `setNextBlock`: on every chain of two or
     * more blocks it throws (reported as `npe`) and changes nothing.
     */
    method RemoveLastAsWritten() returns (npe: bool)
      requires Valid()
      modifies blocks
      ensures Valid() && unchanged(this)
      ensures npe <==> |Contents| > 1
    {
      var last := GetLastBlock();
      if rootBlock == last {
        return false;
      }
      assert |blocks| > 1 && last == blocks[|blocks| - 1];
      var prev := last.GetPreviousBlock();
      assert prev == blocks[|blocks| - 2];
      npe := prev.SetNextBlockAsWritten(null);
    }

    /** `getHash()`: the tail's hash; None where the source dereferences a null tail. */
    method GetHash() returns (r: Option<Hash>)
      requires Valid()
      ensures r == if Contents == [] then None else Some(TailHash(Contents))
    {
      var last := GetLastBlock();
      if last == null {
        return None;
      }
      r := Some(last.GetHash());
    }

    /** `calculateBalances()`: replays every block's transaction into a map, front to back. */
    method CalculateBalances() returns (m: Balances)
      requires Valid()
      ensures m == Replay(TransactionsOf(Contents))
    {
      ghost var txs := TransactionsOf(Contents);
      m := map[];
      var current := rootBlock;
      ghost var i := 0;
      while current != null
        invariant 0 <= i <= |blocks|
        invariant current == if i < |blocks| then blocks[i] else null
        invariant m == Replay(txs[..i])
        decreases |blocks| - i
      {
        var t := current.GetTransaction();
        assert t == txs[i];
        ghost var before := m;
        if t.source == "" {
          m := m[t.target := Get(m, t.target) + t.amount];
        } else {
          m := m[t.target := Get(m, t.target) + t.amount];
          m := m[t.source := Get(m, t.source) - t.amount];
        }
        assert m == Apply(before, t);
        ReplayStep(txs[..i], t);
        assert txs[..i] + [t] == txs[..i + 1];
        current := current.GetNextBlock();
        i := i + 1;
      }
      assert txs[..i] == txs;
    }

    /** `balance(user)`: the user's replayed balance, 0 for a user not in the map. */
    method Balance(user: string) returns (n: int)
      requires Valid()
      ensures n == Get(Replay(TransactionsOf(Contents)), user)
    {
      var balances := CalculateBalances();
      if user in balances {
        var again := CalculateBalances();
        return again[user];
      }
      return 0;
    }

    /** `users()`: the keys of the replayed map, which are exactly the chain's participants. */
    method Users() returns (us: set<string>)
      requires Valid()
      ensures us == Participants(TransactionsOf(Contents))
    {
      var balances := CalculateBalances();
      us := balances.Keys;
      ReplayKeys(TransactionsOf(Contents));
    }

    /** `blocks()`: the blocks from the root, following successor links. */
    method Blocks() returns (bs: seq<Block>)
      requires Valid()
      ensures bs == blocks
    {
      bs := [];
      var current := rootBlock;
      while current != null
        invariant |bs| <= |blocks| && bs == blocks[..|bs|]
        invariant current == if |bs| < |blocks| then blocks[|bs|] else null
        decreases |blocks| - |bs|
      {
        bs := bs + [current];
        current := current.GetNextBlock();
      }
    }

    /** `iterator()`: every block's transaction, front to back. */
    method Transactions() returns (ts: seq<Transaction>)
      requires Valid()
      ensures ts == TransactionsOf(Contents)
    {
      ts := [];
      var current := rootBlock;
      while current != null
        invariant |ts| <= |blocks|
        invariant ts == TransactionsOf(Contents)[..|ts|]
        invariant current == if |ts| < |blocks| then blocks[|ts|] else null
        decreases |blocks| - |ts|
      {
        ts := ts + [current.GetTransaction()];
        current := current.GetNextBlock();
      }
    }

    /**
     * `iterator()` as written: `hasNext` asks for a successor, so the tail's
     * transaction is never produced, and an empty chain throws (None).
     */
    method TransactionsAsWritten() returns (r: Option<seq<Transaction>>)
      requires Valid()
      ensures Contents == [] ==> r == None
      ensures Contents != [] ==> r == Some(TransactionsOf(Contents)[..|Contents| - 1])
    {
      if rootBlock == null {
        return None;
      }
      var ts := [];
      var current := rootBlock;
      while current.nextBlock != null
        invariant |ts| < |blocks|
        invariant ts == TransactionsOf(Contents)[..|ts|]
        invariant current == blocks[|ts|]
        decreases |blocks| - |ts|
      {
        ts := ts + [current.GetTransaction()];
        current := current.GetNextBlock();
      }
      r := Some(ts);
    }

    /**
     * `isCorrect()`: every block after the first names its predecessor's hash
     * and carries its own digest, and both parties of every transaction end
     * with a non-negative balance. Hashes are compared by bytes, as `append`
     * does; the source compares references here. An account that is not a key
     * reads as 0, where the source throws on a deposit's empty source (see
     * IsCorrectAsWritten). The validator is not consulted, as in the source.
     */
    method IsCorrect() returns (ok: bool)
      requires Valid()
      ensures ok <==> Correct(Contents, digest)
    {
      var final := CalculateBalances();
      var current := rootBlock;
      ghost var i := 0;
      while current != null
        invariant 0 <= i <= |blocks|
        invariant current == if i < |blocks| then blocks[i] else null
        invariant forall j :: 0 <= j < i ==> BlockPasses(Contents, j, final, digest)
        decreases |blocks| - i
      {
        assert current.Data() == Contents[i];
        var prev := current.GetPreviousBlock();
        if prev != null {
          assert i > 0 && prev == blocks[i - 1];
          assert prev.Data() == Contents[i - 1];
          if !current.GetPrevHash().Equals(AHash(prev.GetHash())) {
            return false;
          }
          if !current.GetHash().Equals(AHash(current.CalculateHash(digest))) {
            return false;
          }
        }
        var t := current.GetTransaction();
        if Get(final, t.target) < 0 || Get(final, t.source) < 0 {
          return false;
        }
        current := current.GetNextBlock();
        i := i + 1;
      }
      CorrectIffEveryBlockPasses(Contents, digest);
      ok := true;
    }

    /** `check()`: throws exactly when `isCorrect()` is false. */
    method Check() returns (r: Outcome<IntegrityError>)
      requires Valid()
      ensures r.Fail? <==> !Correct(Contents, digest)
    {
      var ok := IsCorrect();
      if !ok {
        return Fail(ChainIncorrect);
      }
      r := Pass;
    }
  }

  /** The three-transfer chain, and its first two blocks, end solvent. */
  lemma ScenarioSolvent(cs: seq<BlockData>)
    requires || TransactionsOf(cs) == [Transaction("", "alice", 100), Transaction("alice", "bob", 40), Transaction("bob", "carol", 10)]
             || TransactionsOf(cs) == [Transaction("", "alice", 100), Transaction("alice", "bob", 40)]
    ensures SolventFinal(cs)
  {
    ThreeTransfers();
    var txs := TransactionsOf(cs);
    forall i | 0 <= i < |cs|
      ensures Get(Replay(txs), cs[i].transaction.target) >= 0 && Get(Replay(txs), cs[i].transaction.source) >= 0
    {
      assert cs[i].transaction == txs[i];
    }
  }

  /** `mine` followed by `append`: the mined block always passes and extends the chain by its transaction. */
  method MineAndAppend(chain: BlockChain, t: Transaction)
    requires chain.Valid() && AppendBuilt(chain.Contents, chain.digest)
    modifies chain, chain.blocks
    ensures chain.Valid() && AppendBuilt(chain.Contents, chain.digest)
    ensures TransactionsOf(chain.Contents) == old(TransactionsOf(chain.Contents)) + [t]
    ensures forall i :: 0 <= i < |chain.blocks| ==> chain.blocks[i] in old(chain.blocks) || fresh(chain.blocks[i])
  {
    var b := chain.Mine(t);
    var r := chain.Append(b);
    assert r == Pass;
    assert TransactionsOf(chain.Contents) == old(TransactionsOf(chain.Contents)) + [t];
  }

  /** Deposit 100 to alice; alice pays bob 40; bob pays carol 10. */
  method MineAndAppendThree(check: Validator, digest: Hasher) returns (chain: BlockChain)
    ensures fresh(chain) && forall i :: 0 <= i < |chain.blocks| ==> fresh(chain.blocks[i])
    ensures chain.Valid() && AppendBuilt(chain.Contents, chain.digest)
    ensures TransactionsOf(chain.Contents)
            == [Transaction("", "alice", 100), Transaction("alice", "bob", 40), Transaction("bob", "carol", 10)]
  {
    chain := new BlockChain(check, digest);
    MineAndAppend(chain, Transaction("", "alice", 100));
    MineAndAppend(chain, Transaction("alice", "bob", 40));
    MineAndAppend(chain, Transaction("bob", "carol", 10));
  }

  /** On a chain built by appends from those three transactions: its size, balances and correctness. */
  method QueryThree(chain: BlockChain)
    requires chain.Valid() && AppendBuilt(chain.Contents, chain.digest)
    requires TransactionsOf(chain.Contents)
             == [Transaction("", "alice", 100), Transaction("alice", "bob", 40), Transaction("bob", "carol", 10)]
  {
    ThreeTransfers();
    ghost var final := Replay(TransactionsOf(chain.Contents));
    assert Get(final, "alice") == 60 && Get(final, "bob") == 30 && Get(final, "carol") == 10;
    var size := chain.GetSize();
    assert size == 3;
    var alice := chain.Balance("alice");
    var bob := chain.Balance("bob");
    var carol := chain.Balance("carol");
    assert alice == 60 && bob == 30 && carol == 10;
  }

  /** A chain built by appends from those three transactions is correct: nobody ends overdrawn. */
  method CheckThree(chain: BlockChain)
    requires chain.Valid() && AppendBuilt(chain.Contents, chain.digest)
    requires TransactionsOf(chain.Contents)
             == [Transaction("", "alice", 100), Transaction("alice", "bob", 40), Transaction("bob", "carol", 10)]
  {
    ScenarioSolvent(chain.Contents);
    AppendBuiltCorrectIffSolvent(chain.Contents, chain.digest);
    var ok := chain.IsCorrect();
    assert ok;
  }

  /** Removing the third block leaves a correct two-block chain in which carol holds nothing. */
  method RemoveThird(chain: BlockChain)
    requires chain.Valid() && AppendBuilt(chain.Contents, chain.digest)
    requires TransactionsOf(chain.Contents)
             == [Transaction("", "alice", 100), Transaction("alice", "bob", 40), Transaction("bob", "carol", 10)]
    modifies chain, chain.blocks
  {
    var removed := chain.RemoveLast();
    assert removed;
    TransactionsOfPrefix(old(chain.Contents), 2);
    assert TransactionsOf(chain.Contents) == [Transaction("", "alice", 100), Transaction("alice", "bob", 40)];
    ThreeTransfers();
    ScenarioSolvent(chain.Contents);
    AppendBuiltCorrectIffSolvent(chain.Contents, chain.digest);
    var size := chain.GetSize();
    assert size == 2;
    var carol := chain.Balance("carol");
    assert carol == 0;
    var ok := chain.IsCorrect();
    assert ok;
  }

  /** The three-block scenario end to end: build, query, check, remove the tail. */
  method MineQueryRemove(check: Validator, digest: Hasher)
  {
    var chain := MineAndAppendThree(check, digest);
    QueryThree(chain);
    CheckThree(chain);
    RemoveThird(chain);
  }
}
