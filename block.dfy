/** One node of the chain (Block.java). */
module Blocks {
  import opened Hashes
  import opened Ledger

  /**
   * The block digest H(num, transaction, prevHash, nonce). The source's hashing
   * code is not part of this model, so the digest is a parameter: any function
   * of the four stored fields.
   */
  type Hasher = (int, Transaction, Hash, int) -> Hash

  /** The stored contents of a block, without its links. */
  datatype BlockData = BlockData(num: int, transaction: Transaction, prevHash: Hash, nonce: int, hash: Hash)

  /** The stored hash is the digest of the stored fields: the block has not been tampered with. */
  predicate HashIntact(d: BlockData, digest: Hasher)
  {
    d.hash == digest(d.num, d.transaction, d.prevHash, d.nonce)
  }

  class Block {
    var num: int
    var transaction: Transaction
    var hash: Hash
    var preHash: Hash
    var nonce: int

    var previousBlock: Block?
    var nextBlock: Block?

    /**
     * The mining constructor. The nonce search is a stub in the source, so the
     * nonce keeps Java's default 0 and `check` is not consulted; the digest is
     * then computed from the stored fields.
     */
    constructor Mined(num: int, transaction: Transaction, prevHash: Hash, check: Validator, digest: Hasher)
      ensures GetNum() == num && GetTransaction() == transaction && GetPrevHash() == prevHash
      ensures GetNonce() == 0
      ensures HashIntact(Data(), digest)
      ensures Unattached()
    {
      this.num := num;
      this.transaction := transaction;
      this.preHash := prevHash;
      this.nonce := 0;
      this.hash := digest(num, transaction, prevHash, 0);
      this.previousBlock := null;
      this.nextBlock := null;
    }

    /** The reconstructing constructor: stores the four fields and computes the digest. */
    constructor (num: int, transaction: Transaction, prevHash: Hash, nonce: int, digest: Hasher)
      ensures Data() == BlockData(num, transaction, prevHash, nonce, digest(num, transaction, prevHash, nonce))
      ensures HashIntact(Data(), digest)
      ensures Unattached()
    {
      this.num := num;
      this.transaction := transaction;
      this.preHash := prevHash;
      this.nonce := nonce;
      this.hash := digest(num, transaction, prevHash, nonce);
      this.previousBlock := null;
      this.nextBlock := null;
    }

    function GetNum(): int reads this { num }
    function GetTransaction(): Transaction reads this { transaction }
    function GetNonce(): int reads this { nonce }
    function GetPrevHash(): Hash reads this { preHash }
    function GetHash(): Hash reads this { hash }
    function GetPreviousBlock(): Block? reads this { previousBlock }
    function GetNextBlock(): Block? reads this { nextBlock }

    /** The block's stored contents as a value. */
    function Data(): BlockData
      reads `num, `transaction, `preHash, `nonce, `hash
    {
      BlockData(num, transaction, preHash, nonce, hash)
    }

    /** `calculateHash()`: the digest recomputed from the four stored fields. */
    function CalculateHash(digest: Hasher): Hash
      reads `num, `transaction, `preHash, `nonce
    {
      digest(num, transaction, preHash, nonce)
    }

    /** Linked to no other block. */
    predicate Unattached()
      reads `previousBlock, `nextBlock
    {
      previousBlock == null && nextBlock == null
    }

    /**
     * `setNextBlock(n)`: the old successor (if any) loses its back link, then
     * `n` becomes the successor and gets this block as its predecessor. The
     * source clears the back link through the parameter instead of the old
     * successor; see SetNextBlockAsWritten.
     */
    method SetNextBlock(n: Block?)
      modifies `nextBlock, (if nextBlock != null then {nextBlock} else {}), (if n != null then {n} else {})
      ensures nextBlock == n
      ensures n != null ==> n.previousBlock == this
      ensures old(nextBlock) != null && old(nextBlock) != n ==> old(nextBlock).previousBlock == null
      ensures old(nextBlock) != null ==> old(nextBlock).Data() == old(nextBlock.Data())
      ensures old(nextBlock) != null && old(nextBlock) != this ==> old(nextBlock).nextBlock == old(nextBlock.nextBlock)
      ensures n != null ==> n.Data() == old(n.Data())
      ensures n != null && n != this ==> n.nextBlock == old(n.nextBlock)
      ensures n != this && old(nextBlock) != this ==> previousBlock == old(previousBlock)
    {
      if nextBlock != null {
        nextBlock.previousBlock := null;
      }
      nextBlock := n;
      if n != null {
        n.previousBlock := this;
      }
    }

    /**
     * `setPreviousBlock(p)`: the old predecessor (if any) loses its forward link,
     * then `p` becomes the predecessor and gets this block as its successor. The
     * source clears the forward link through the parameter instead of the old
     * predecessor.
     */
    method SetPreviousBlock(p: Block?)
      modifies `previousBlock, (if previousBlock != null then {previousBlock} else {}), (if p != null then {p} else {})
      ensures previousBlock == p
      ensures p != null ==> p.nextBlock == this
      ensures old(previousBlock) != null && old(previousBlock) != p ==> old(previousBlock).nextBlock == null
      ensures old(previousBlock) != null ==> old(previousBlock).Data() == old(previousBlock.Data())
      ensures old(previousBlock) != null && old(previousBlock) != this && old(previousBlock) != p
              ==> old(previousBlock).previousBlock == old(previousBlock.previousBlock)
      ensures p != null ==> p.Data() == old(p.Data())
      ensures p != null && p != this ==> p.previousBlock == old(p.previousBlock)
      ensures p != this && old(previousBlock) != this ==> nextBlock == old(nextBlock)
    {
      if previousBlock != null {
        previousBlock.nextBlock := null;
      }
      previousBlock := p;
      if p != null {
        p.nextBlock := this;
      }
    }

    /**
     * `setNextBlock(n)` as written: when a successor exists it dereferences the
     * parameter, which throws when `n` is null (reported as `npe`, nothing
     * changed); otherwise the old successor keeps its stale back link.
     */
    method SetNextBlockAsWritten(n: Block?) returns (npe: bool)
      modifies `nextBlock, (if n != null then {n} else {})
      ensures npe <==> old(nextBlock) != null && n == null
      ensures npe ==> nextBlock == old(nextBlock)
      ensures !npe ==> nextBlock == n && (n != null ==> n.previousBlock == this)
      ensures n != null ==> n.Data() == old(n.Data()) && (n != this ==> n.nextBlock == old(n.nextBlock))
    {
      if nextBlock != null {
        if n == null {
          return true;
        }
        n.previousBlock := null;
      }
      nextBlock := n;
      if n != null {
        n.previousBlock := this;
      }
      npe := false;
    }

    /**
     * `setPreviousBlock(p)` as written: the mirror image, throwing when a
     * predecessor exists and `p` is null.
     */
    method SetPreviousBlockAsWritten(p: Block?) returns (npe: bool)
      modifies `previousBlock, (if p != null then {p} else {})
      ensures npe <==> old(previousBlock) != null && p == null
      ensures npe ==> previousBlock == old(previousBlock)
      ensures !npe ==> previousBlock == p && (p != null ==> p.nextBlock == this)
      ensures p != null ==> p.Data() == old(p.Data()) && (p != this ==> p.previousBlock == old(p.previousBlock))
    {
      if previousBlock != null {
        if p == null {
          return true;
        }
        p.nextBlock := null;
      }
      previousBlock := p;
      if p != null {
        p.nextBlock := this;
      }
      npe := false;
    }
  }

  /**
   * The recompute check detects a change to any of the four hashed fields: a
   * block that keeps an intact block's hash but differs in its number,
   * transaction, previous hash or nonce fails it, unless the digest collides.
   */
  lemma ChangedFieldsFailRecompute(d: BlockData, e: BlockData, digest: Hasher)
    requires HashIntact(d, digest) && e.hash == d.hash
    requires digest(e.num, e.transaction, e.prevHash, e.nonce) != digest(d.num, d.transaction, d.prevHash, d.nonce)
    ensures !HashIntact(e, digest)
    ensures (e.num, e.transaction, e.prevHash, e.nonce) != (d.num, d.transaction, d.prevHash, d.nonce)
  {
  }

  /** Two blocks reconstructed from the same four fields carry the same hash. */
  method SameFieldsSameHash(num: int, t: Transaction, prevHash: Hash, nonce: int, digest: Hasher)
    returns (a: Block, b: Block)
    ensures a != b
    ensures a.GetHash() == b.GetHash()
    ensures a.GetHash() == a.CalculateHash(digest)
  {
    a := new Block(num, t, prevHash, nonce, digest);
    b := new Block(num, t, prevHash, nonce, digest);
  }
}
