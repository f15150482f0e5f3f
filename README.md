# Blockchain ledger

A model of a small single-owner proof-of-work ledger written in Java. A
`BlockChain` is a doubly linked list of `Block`s starting at `rootBlock`.
Each block holds a number, one transaction (a source, a target and an
amount; an empty source is a deposit), the previous block's hash, a nonce
and its own hash. `Hash` is an immutable byte sequence with content
equality and an upper-case hexadecimal rendering. The chain mines new
blocks, appends a block after checking its linkage and its hash, removes
the tail, replays the transactions into per-user balances, and judges the
whole chain correct or not.

The model has four modules, one per concept:

- `Hashes` (`hash.dfy`): `Hash` as a datatype over signed Java bytes, with
  `length`, `get`, `getBytes`, `equals`, `toString` and `hashCode`, and
  the Base16 round trip behind `toString`.
- `Ledger` (`ledger.dfy`): transactions and the balance replay that
  `calculateBalances` performs, with conservation of money.
- `Blocks` (`block.dfy`): `Block` as a class whose constructors assign its
  fields and whose setters rewire the links of two blocks at once.
- `BlockChains` (`chain.dfy`): `BlockChain` as a class over the linked
  blocks. A ghost sequence of the blocks and of their contents ties each
  pointer-walking loop to a value-level specification (`AppendCheck`,
  `Replay`, `Correct`) whose properties are proved as lemmas.

The block digest H(num, transaction, prevHash, nonce) is a parameter of
the chain: any function of the four stored fields. The validator is a
predicate on hashes.

Where the code and its documentation disagree, the model follows the code:

- Neither `append` nor `isCorrect` consults the validator, although the
  documentation of `append` (its case (a)) and that of `isCorrect` (its
  case (d)) both promise that every block has a valid hash;
  they check only the linkage and the recomputed hash.
- The first block's previous hash is never checked, by `append` on an empty
  chain or by `isCorrect`, and `isCorrect` does not rehash the first block.
- `isCorrect` checks the final balances of every transaction's two parties,
  not the balances at every step. `FinalCheckMissesOverdraft` shows a chain
  it accepts that is overdrawn part-way.

Where the code has a defect, the model states the evident intent, and a
twin member models the code as written (see "## Findings"). Among these:
`isCorrect` reads the balance of a deposit's empty source, which is never a
key of the replayed map, and throws; the model reads a missing account as
0, as `balance` does. In addition,
`isCorrect` compares hashes with `!=`, which in Java compares references;
the model compares bytes, as `append` does.

## Model

| member | source | states |
|---|---|---|
| Hashes.FromArray | src/main/java/edu/grinnell/csc207/blockchains/Hash.java:31-33 | The new Hash holds exactly the bytes of the array passed in: same length, and `get(i)` yields `data[i]` at every index. |
| Hashes.Hash.Length | src/main/java/edu/grinnell/csc207/blockchains/Hash.java:44-46 | `length()` is the number of stored bytes; it is 0 exactly for the empty hash. |
| Hashes.Hash.Get | src/main/java/edu/grinnell/csc207/blockchains/Hash.java:54-56 | `get(i)` yields the i-th byte exactly when 0 <= i < length(); any other index is the out-of-bounds failure. |
| Hashes.Hash.GetBytes | src/main/java/edu/grinnell/csc207/blockchains/Hash.java:63-65 | `getBytes()` returns a freshly allocated array whose contents are the stored bytes. |
| Hashes.CopiesAreIsolated | src/main/java/edu/grinnell/csc207/blockchains/Hash.java:31-65 | Overwriting the caller's array after construction and overwriting the array `getBytes` returned both leave the Hash holding the bytes it was built from. |
| Hashes.Hash.Equals | src/main/java/edu/grinnell/csc207/blockchains/Hash.java:82-87 | `equals(other)` holds if and only if `other` is a Hash with identical bytes. |
| Hashes.EqualsReflexive | src/main/java/edu/grinnell/csc207/blockchains/Hash.java:82-87 | Every Hash equals itself. |
| Hashes.EqualsSymmetric | src/main/java/edu/grinnell/csc207/blockchains/Hash.java:82-87 | `h.equals(k)` if and only if `k.equals(h)`. |
| Hashes.EqualsTransitive | src/main/java/edu/grinnell/csc207/blockchains/Hash.java:82-87 | `h.equals(k)` and `k.equals(l)` imply `h.equals(l)`. |
| Hashes.Hash.ToString | src/main/java/edu/grinnell/csc207/blockchains/Hash.java:72-74 | `toString()` has two characters per byte, each an upper-case hex digit 0-9A-F. |
| Hashes.Hex | src/main/java/edu/grinnell/csc207/blockchains/Hash.java:72-74 | The Base16 rendering has length twice the byte count and uses only the upper-case alphabet. |
| Hashes.HexAt | src/main/java/edu/grinnell/csc207/blockchains/Hash.java:72-74 | Characters 2i and 2i+1 are the high and the low nibble of byte i, read unsigned (`b & 0xFF`). |
| Hashes.UnhexHex | src/main/java/edu/grinnell/csc207/blockchains/Hash.java:72-74 | Reading the rendering back two digits at a time recovers exactly the original bytes, so the rendering loses nothing. |
| Hashes.HexInjective | src/main/java/edu/grinnell/csc207/blockchains/Hash.java:72-74 | Different byte sequences never have the same hex rendering. |
| Hashes.ToStringInjective | src/main/java/edu/grinnell/csc207/blockchains/Hash.java:72-74 | Two hashes with the same `toString()` are the same hash. |
| Hashes.Hash.HashCode | src/main/java/edu/grinnell/csc207/blockchains/Hash.java:94-96 | `hashCode()` is a 32-bit Java int computed from `toString()` alone. |
| Hashes.StringHashCode | src/main/java/edu/grinnell/csc207/blockchains/Hash.java:94-96 | Java's `String.hashCode` (s[0]*31^(n-1) + ... + s[n-1], wrapped to 32 bits) always lies in the int range. |
| Hashes.EqualsAgreesWithHashCode | src/main/java/edu/grinnell/csc207/blockchains/Hash.java:94-96 | Equal hashes have equal `toString()` and therefore equal `hashCode()`, as the contract of `Object.hashCode` requires. |
| Ledger.Apply | src/main/java/edu/grinnell/csc207/blockchains/BlockChain.java:225-235 | One replay step adds `amount` to the target and, for a transfer (non-empty source), takes `amount` from the source; every other balance is untouched; the map gains exactly the accounts the transaction touches. |
| Ledger.ReplayStep | src/main/java/edu/grinnell/csc207/blockchains/BlockChain.java:220-239 | Replaying one more block's transaction changes the balances by exactly that one step. |
| Ledger.ReplayKeys | src/main/java/edu/grinnell/csc207/blockchains/BlockChain.java:220-239 | The replayed map has an entry for exactly the users who appear as a target or as the source of a transfer. |
| Ledger.UnseenBalanceIsZero | src/main/java/edu/grinnell/csc207/blockchains/BlockChain.java:208-213 | A user who never appears in the chain has no entry and a balance of 0. |
| Ledger.BalanceIsNetFlow | src/main/java/edu/grinnell/csc207/blockchains/BlockChain.java:220-239 | Every replayed balance equals everything the chain credits to the user minus everything it debits from the user. |
| Ledger.ApplyTotal | src/main/java/edu/grinnell/csc207/blockchains/BlockChain.java:225-235 | A transfer leaves the sum of all balances unchanged; a deposit raises it by its amount. |
| Ledger.ReplayTotal | src/main/java/edu/grinnell/csc207/blockchains/BlockChain.java:220-239 | The balances of any chain add up to the total deposited: transfers neither create nor destroy money. |
| Ledger.DepositThenTransfer | src/main/java/edu/grinnell/csc207/blockchains/BlockChain.java:220-239 | Depositing 100 to alice and moving 30 to bob leaves alice 70, bob 30 and an unseen user 0. |
| Ledger.ThreeTransfers | src/main/java/edu/grinnell/csc207/blockchains/BlockChain.java:220-239 | Deposit 100 to alice, alice pays bob 40, bob pays carol 10: balances 60, 30, 10; without the last block 60, 40, 0. |
| Ledger.ReplayAsWrittenAlwaysThrows | src/main/java/edu/grinnell/csc207/blockchains/BlockChain.java:226-235 | The replay as written (unboxing `get` on an account not yet in the map) fails on every non-empty chain. |
| Blocks.Block.Mined | src/main/java/edu/grinnell/csc207/blockchains/Block.java:65-72 | The mining constructor stores `num`, `transaction` and `prevHash` as given, leaves the nonce at 0, stores the digest of those fields as its hash, and is linked to nothing. |
| Blocks.Block.constructor | src/main/java/edu/grinnell/csc207/blockchains/Block.java:86-92 | The nonce constructor stores `num`, `transaction`, `prevHash` and `nonce` exactly as given (the getters return them), stores their digest as its hash, and is linked to nothing. |
| Blocks.ChangedFieldsFailRecompute | src/main/java/edu/grinnell/csc207/blockchains/BlockChain.java:106-108 | A block that keeps an intact block's hash but differs in its number, transaction, previous hash or nonce fails the recompute check, unless the digest collides. |
| Blocks.SameFieldsSameHash | src/main/java/edu/grinnell/csc207/blockchains/Block.java:98-104 | Two distinct blocks built from equal arguments carry equal hashes, and each hash is its block's recomputed digest. |
| Blocks.Block.SetNextBlock | src/main/java/edu/grinnell/csc207/blockchains/Block.java:41-45 | Afterwards `getNextBlock() == n` and, for non-null `n`, `n.getPreviousBlock() == this`; a replaced successor loses its back link; no block's stored contents change, and no other link changes. |
| Blocks.Block.SetPreviousBlock | src/main/java/edu/grinnell/csc207/blockchains/Block.java:29-33 | Afterwards `getPreviousBlock() == p` and, for non-null `p`, `p.getNextBlock() == this`; a replaced predecessor loses its forward link; no stored contents change, and no other link changes. |
| Blocks.Block.SetNextBlockAsWritten | src/main/java/edu/grinnell/csc207/blockchains/Block.java:41-45 | As written, the setter throws exactly when a successor exists and the argument is null; the argument's stored fields and its own successor link never change. |
| Blocks.Block.SetPreviousBlockAsWritten | src/main/java/edu/grinnell/csc207/blockchains/Block.java:29-33 | As written, the setter throws exactly when a predecessor exists and the argument is null; the argument's stored fields and its own predecessor link never change. |
| BlockChains.AppendCheck | src/main/java/edu/grinnell/csc207/blockchains/BlockChain.java:102-108 | `append` rejects with a linkage error exactly when the chain is non-empty and the block's prevHash differs from the tail's hash; it accepts exactly when the linkage holds and the stored hash is the block's digest. |
| BlockChains.AppendBuiltIsLinked | src/main/java/edu/grinnell/csc207/blockchains/BlockChain.java:102-114 | A chain built only by accepted appends (and tail removals) has every non-first block naming its predecessor's hash and every block untampered. |
| BlockChains.DropTailKeepsAppendBuilt | src/main/java/edu/grinnell/csc207/blockchains/BlockChain.java:122-128 | Removing the tail of a chain built by appends leaves a chain built by appends. |
| BlockChains.CorrectIffEveryBlockPasses | src/main/java/edu/grinnell/csc207/blockchains/BlockChain.java:146-165 | The whole-chain verdict holds exactly when every block passes the three per-block checks against the final balances. |
| BlockChains.AppendBuiltCorrectIffSolvent | src/main/java/edu/grinnell/csc207/blockchains/BlockChain.java:146-165 | On a chain built by appends, `isCorrect` is true exactly when no party of any transaction ends with a negative balance. |
| BlockChains.TamperedBlockFails | src/main/java/edu/grinnell/csc207/blockchains/BlockChain.java:155-158 | Replacing any non-first block by one that keeps its hash but changes a hashed field, without a digest collision, makes the chain incorrect. |
| BlockChains.DepositMakesCheckThrow | src/main/java/edu/grinnell/csc207/blockchains/BlockChain.java:159-162 | As written, `isCorrect` throws at a deposit once every earlier check has passed: the empty source is never a key, and unboxing its missing balance fails. |
| BlockChains.ThreeTransfersCheckThrows | src/main/java/edu/grinnell/csc207/blockchains/BlockChain.java:146-165 | Deposit 100 to alice, alice pays bob 40, bob pays carol 10: `isCorrect` as written throws at the first block, while the corrected check accepts the chain. |
| BlockChains.NoOverdraftIsSolvent | src/main/java/edu/grinnell/csc207/blockchains/BlockChain.java:160-163 | A chain in which no balance is ever negative at any step passes the final-balance check. |
| BlockChains.FinalCheckMissesOverdraft | src/main/java/edu/grinnell/csc207/blockchains/BlockChain.java:160-163 | The converse fails: alice paying bob 10 before a 10 deposit to alice passes the final-balance check although alice was overdrawn after the first block. |
| BlockChains.BlockChain.constructor | src/main/java/edu/grinnell/csc207/blockchains/BlockChain.java:38-40 | A new chain stores its validator and is empty. |
| BlockChains.BlockChain.GetLastBlock | src/main/java/edu/grinnell/csc207/blockchains/BlockChain.java:51-59 | Walking successor links from the root ends at the last block; null on an empty chain. |
| BlockChains.BlockChain.GetSize | src/main/java/edu/grinnell/csc207/blockchains/BlockChain.java:82-93 | The count is 0 for a null root and otherwise the number of blocks reachable through successor links. |
| BlockChains.BlockChain.Mine | src/main/java/edu/grinnell/csc207/blockchains/BlockChain.java:70-75 | `mine` changes nothing; the new block is unattached, numbered `getSize()`, names the tail's hash (the empty hash on an empty chain), and passes `append`'s checks. |
| BlockChains.BlockChain.Append | src/main/java/edu/grinnell/csc207/blockchains/BlockChain.java:102-114 | The outcome is the value-level check; on acceptance `blk` becomes the new tail and the earlier blocks are unchanged (size grows by one); on rejection nothing changes; `blk`'s stored fields never change; a chain built by appends stays so. |
| BlockChains.BlockChain.RemoveLast | src/main/java/edu/grinnell/csc207/blockchains/BlockChain.java:122-128 | Returns false and changes nothing on a chain of at most one block; otherwise returns true, drops exactly the tail (size falls by one) and leaves it unlinked, with its stored fields unchanged. |
| BlockChains.BlockChain.RemoveLastAsWritten | src/main/java/edu/grinnell/csc207/blockchains/BlockChain.java:122-128 | Over the as-written setter, `removeLast` throws on exactly the chains of two or more blocks, and changes nothing. |
| BlockChains.BlockChain.GetHash | src/main/java/edu/grinnell/csc207/blockchains/BlockChain.java:135-137 | The tail's hash; the failure case is an empty chain, where the source dereferences null. |
| BlockChains.BlockChain.CalculateBalances | src/main/java/edu/grinnell/csc207/blockchains/BlockChain.java:220-239 | The pointer-walking loop computes exactly the replay of every block's transaction in chain order. |
| BlockChains.BlockChain.Balance | src/main/java/edu/grinnell/csc207/blockchains/BlockChain.java:208-213 | `balance(user)` is the user's replayed balance, and 0 for a user not in the map. |
| BlockChains.BlockChain.Users | src/main/java/edu/grinnell/csc207/blockchains/BlockChain.java:185-200 | `users()` enumerates exactly the participants of the chain's transactions. |
| BlockChains.BlockChain.Blocks | src/main/java/edu/grinnell/csc207/blockchains/BlockChain.java:246-260 | `blocks()` enumerates every block from the root to the tail, in order. |
| BlockChains.BlockChain.Transactions | src/main/java/edu/grinnell/csc207/blockchains/BlockChain.java:267-281 | `iterator()` enumerates every block's transaction in chain order. |
| BlockChains.BlockChain.TransactionsAsWritten | src/main/java/edu/grinnell/csc207/blockchains/BlockChain.java:267-281 | As written, `iterator()` fails on an empty chain and otherwise omits the tail's transaction. |
| BlockChains.BlockChain.IsCorrect | src/main/java/edu/grinnell/csc207/blockchains/BlockChain.java:146-165 | `isCorrect()` is true exactly when every non-first block names its predecessor's hash and carries its own digest, and both parties of every transaction end non-negative. |
| BlockChains.BlockChain.Check | src/main/java/edu/grinnell/csc207/blockchains/BlockChain.java:174-178 | `check()` fails exactly when `isCorrect()` is false. |

## Left out

- Blocks.Block.Mined: the nonce search is a stub in the source, so the model keeps the nonce at 0 and does not promise that the validator accepts the hash; the search and its termination are not modelled.
- Blocks.Block.Mined: the source never assigns the hash field (`computeHash` is an empty static stub, and `calculateHash` is not defined in `Block.java`); the model stores the digest of the block's fields, as the constructors' documentation describes.
- Blocks.Block.constructor: the nonce constructor calls the same empty `computeHash` stub, so the source leaves its hash field unassigned too; the model stores the digest of the four fields, as documented.
- SHA-256 and `MessageDigest` are not part of this model: the digest is a parameter.
- The `Transaction` and `HashValidator` types are not part of this model: a transaction is a datatype of source, target and amount, and a validator is a predicate on hashes.
- Ledger.Apply: balances, block numbers and nonces are unbounded integers; Java's 32-bit `int` (and 64-bit `long` nonce) wrap-around is not modelled.
- BlockChains.BlockChain.Append: requires an unlinked block that is not already in the chain; the source does not guard against appending a linked block or the same block twice, which would corrupt the list.
- BlockChains.BlockChain.Users: the iterator objects of `users()`, `blocks()` and `iterator()` are modelled as the set or sequence they enumerate; the order in which `users()` walks a `HashMap`'s keys is not modelled.
- Hashes.Hash.HashCode: the value is Java's `String.hashCode` of the rendering, modelled but not compared with the JDK's.
- `Block.toString` is a stub returning the empty string and is not modelled.
- The `check` field of `Block` is never read and is not modelled.
- `BlockChainUI.java` (the console loop over standard input and output) is not part of this model.

## Findings

| source | as written | input that shows it | evidently intended | confidence | as-written member | corrected member |
|---|---|---|---|---|---|---|
| src/main/java/edu/grinnell/csc207/blockchains/BlockChain.java:226-235 | `calculateBalances` unboxes `runningBalances.get(...)` for an account that is not yet a key | any chain with at least one block: its first target is not yet in the empty map | an unseen account counts as 0, as the doc comment of `balance` says | high (not executed) | Ledger.ReplayAsWrittenAlwaysThrows | BlockChains.BlockChain.CalculateBalances |
| src/main/java/edu/grinnell/csc207/blockchains/Block.java:41-45 | `setNextBlock` clears the back link through the parameter, not through the old successor | a chain of two blocks, then `removeLast()`: `setNextBlock(null)` dereferences null | the old successor's `previousBlock` is cleared | high (not executed) | BlockChains.BlockChain.RemoveLastAsWritten | BlockChains.BlockChain.RemoveLast |
| src/main/java/edu/grinnell/csc207/blockchains/Block.java:29-33 | `setPreviousBlock` clears the forward link through the parameter, not through the old predecessor | a block with a predecessor, then `setPreviousBlock(null)` | the old predecessor's `nextBlock` is cleared | high (not executed) | Blocks.Block.SetPreviousBlockAsWritten | Blocks.Block.SetPreviousBlock |
| src/main/java/edu/grinnell/csc207/blockchains/BlockChain.java:271-273 | `hasNext` asks whether the current block has a successor | a one-block chain yields no transaction; an empty chain throws on the first `hasNext` | `hasNext` is `currentBlock != null`, as in `blocks()` | high (not executed) | BlockChains.BlockChain.TransactionsAsWritten | BlockChains.BlockChain.Transactions |
| src/main/java/edu/grinnell/csc207/blockchains/BlockChain.java:159-160 | `isCorrect` compares `runningBalances.get(source)` with 0, and a deposit's source `""` is never a key, so the null unboxes and throws | deposit 100 to alice, alice pays bob 40, bob pays carol 10: the first block throws | a missing account reads as 0, as `balance` does | high (not executed) | BlockChains.DepositMakesCheckThrow | BlockChains.BlockChain.IsCorrect |
