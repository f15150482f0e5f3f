/**
 * Transactions and the balance replay behind `calculateBalances` and `balance`
 * (BlockChain.java). The replay here is the value-level specification; the
 * chain's own loop is proved equal to it in module BlockChains.
 */
module Ledger {
  import opened Hashes

  /** A transfer of `amount` from `source` to `target`; an empty source is a deposit. */
  datatype Transaction = Transaction(source: string, target: string, amount: int)

  predicate IsDeposit(t: Transaction)
  {
    t.source == ""
  }

  type Balances = map<string, int>

  /** A user's balance: 0 for a user the map has never seen. */
  function Get(m: Balances, user: string): int
  {
    if user in m then m[user] else 0
  }

  /**
   * One step of the replay: credit the target, then (for a transfer) debit the
   * source, each starting from 0 on first sight.
   */
  function Apply(m: Balances, t: Transaction): (r: Balances)
    ensures forall u :: Get(r, u) == Get(m, u) + Credit(t, u) - Debit(t, u)
    ensures r.Keys == m.Keys + Accounts(t)
  {
    var credited := m[t.target := Get(m, t.target) + t.amount];
    if IsDeposit(t) then credited
    else credited[t.source := Get(credited, t.source) - t.amount]
  }

  /** What `t` adds to `u`'s balance. */
  function Credit(t: Transaction, u: string): int
  {
    if u == t.target then t.amount else 0
  }

  /** What `t` takes from `u`'s balance; a deposit takes from nobody. */
  function Debit(t: Transaction, u: string): int
  {
    if !IsDeposit(t) && u == t.source then t.amount else 0
  }

  /** The accounts a transaction touches: the target, and the source unless it is a deposit. */
  function Accounts(t: Transaction): set<string>
  {
    if IsDeposit(t) then {t.target} else {t.target, t.source}
  }

  /** The balances after replaying `txs` in order from an empty map. */
  function Replay(txs: seq<Transaction>): Balances
  {
    if txs == [] then map[] else Apply(Replay(txs[..|txs| - 1]), txs[|txs| - 1])
  }

  /** Every account that appears in `txs` as a target or as the source of a transfer. */
  function Participants(txs: seq<Transaction>): set<string>
  {
    set i, u | 0 <= i < |txs| && u in Accounts(txs[i]) :: u
  }

  /** The sum of what `txs` credits to `u`. */
  function Credits(txs: seq<Transaction>, u: string): int
  {
    if txs == [] then 0 else Credits(txs[..|txs| - 1], u) + Credit(txs[|txs| - 1], u)
  }

  /** The sum of what `txs` debits from `u`. */
  function Debits(txs: seq<Transaction>, u: string): int
  {
    if txs == [] then 0 else Debits(txs[..|txs| - 1], u) + Debit(txs[|txs| - 1], u)
  }

  /** The money created by deposits. */
  function Minted(txs: seq<Transaction>): int
  {
    if txs == [] then 0
    else Minted(txs[..|txs| - 1]) + (if IsDeposit(txs[|txs| - 1]) then txs[|txs| - 1].amount else 0)
  }

  /** One more transaction adds exactly the accounts it touches. */
  lemma ParticipantsStep(txs: seq<Transaction>)
    requires txs != []
    ensures Participants(txs) == Participants(txs[..|txs| - 1]) + Accounts(txs[|txs| - 1])
  {
    var n := |txs| - 1;
    forall u | u in Participants(txs) ensures u in Participants(txs[..n]) + Accounts(txs[n]) {
      var i :| 0 <= i < |txs| && u in Accounts(txs[i]);
      if i < n {
        assert txs[..n][i] == txs[i];
      }
    }
    forall u | u in Participants(txs[..n]) ensures u in Participants(txs) {
      var i :| 0 <= i < n && u in Accounts(txs[..n][i]);
      assert txs[..n][i] == txs[i];
    }
  }

  /** The replay holds an entry exactly for the participants. */
  lemma {:induction false} ReplayKeys(txs: seq<Transaction>)
    ensures Replay(txs).Keys == Participants(txs)
  {
    if txs != [] {
      ReplayKeys(txs[..|txs| - 1]);
      ParticipantsStep(txs);
    }
  }

  /** `balance(user)` is 0 for a user who never appears in the chain. */
  lemma UnseenBalanceIsZero(txs: seq<Transaction>, user: string)
    requires user !in Participants(txs)
    ensures user !in Replay(txs)
    ensures Get(Replay(txs), user) == 0
  {
    ReplayKeys(txs);
  }

  /** A replayed balance is everything credited to the user minus everything debited. */
  lemma {:induction false} BalanceIsNetFlow(txs: seq<Transaction>, user: string)
    ensures Get(Replay(txs), user) == Credits(txs, user) - Debits(txs, user)
  {
    if txs != [] {
      BalanceIsNetFlow(txs[..|txs| - 1], user);
    }
  }

  /** Appending one more transaction changes the replay by exactly that transaction. */
  lemma ReplayStep(txs: seq<Transaction>, t: Transaction)
    ensures Replay(txs + [t]) == Apply(Replay(txs), t)
  {
    assert (txs + [t])[..|txs|] == txs;
  }

  // ---------------------------------------------------------------------
  // Conservation: the sum of all balances.
  // ---------------------------------------------------------------------

  ghost function Pick(m: Balances): (u: string)
    requires m != map[]
    ensures u in m
  {
    var u :| u in m; u
  }

  /** The sum of every balance in the map. */
  ghost function Total(m: Balances): int
    decreases |m|
  {
    if m == map[] then 0
    else
      var u := Pick(m);
      assert |m - {u}| < |m| by { assert (m - {u}).Keys == m.Keys - {u}; }
      m[u] + Total(m - {u})
  }

  /** The sum does not depend on which entry is taken out first. */
  lemma {:induction false} TotalRemove(m: Balances, u: string)
    requires u in m
    ensures Total(m) == m[u] + Total(m - {u})
    decreases |m|
  {
    var p := Pick(m);
    if p != u {
      assert (m - {p}).Keys == m.Keys - {p};
      assert (m - {u}).Keys == m.Keys - {u};
      TotalRemove(m - {p}, u);
      TotalRemove(m - {u}, p);
      assert m - {p} - {u} == m - {u} - {p};
    }
  }

  /** Setting one entry changes the sum by the change in that entry. */
  lemma TotalUpdate(m: Balances, u: string, v: int)
    ensures Total(m[u := v]) == Total(m) - Get(m, u) + v
  {
    TotalRemove(m[u := v], u);
    if u in m {
      TotalRemove(m, u);
      assert m[u := v] - {u} == m - {u};
    } else {
      assert m[u := v] - {u} == m;
    }
  }

  /** A transfer moves money; only a deposit changes the sum of balances. */
  lemma ApplyTotal(m: Balances, t: Transaction)
    ensures Total(Apply(m, t)) == Total(m) + (if IsDeposit(t) then t.amount else 0)
  {
    var credited := m[t.target := Get(m, t.target) + t.amount];
    TotalUpdate(m, t.target, Get(m, t.target) + t.amount);
    if !IsDeposit(t) {
      TotalUpdate(credited, t.source, Get(credited, t.source) - t.amount);
    }
  }

  /** The balances always add up to the money deposited. */
  lemma {:induction false} ReplayTotal(txs: seq<Transaction>)
    ensures Total(Replay(txs)) == Minted(txs)
  {
    if txs != [] {
      ReplayTotal(txs[..|txs| - 1]);
      ApplyTotal(Replay(txs[..|txs| - 1]), txs[|txs| - 1]);
    }
  }

  /** Deposit 100 to alice, then transfer 30 from alice to bob. */
  lemma DepositThenTransfer()
    ensures var m := Replay([Transaction("", "alice", 100), Transaction("alice", "bob", 30)]);
            Get(m, "alice") == 70 && Get(m, "bob") == 30 && Get(m, "carol") == 0
  {
    var txs := [Transaction("", "alice", 100), Transaction("alice", "bob", 30)];
    assert txs[..1] == [Transaction("", "alice", 100)];
    assert Replay(txs[..1]) == map["alice" := 100];
  }

  /** Deposit 100 to alice; alice pays bob 40; bob pays carol 10 (and the first two alone). */
  lemma ThreeTransfers()
    ensures var m := Replay([Transaction("", "alice", 100), Transaction("alice", "bob", 40), Transaction("bob", "carol", 10)]);
            Get(m, "alice") == 60 && Get(m, "bob") == 30 && Get(m, "carol") == 10 && Get(m, "") == 0
    ensures var m := Replay([Transaction("", "alice", 100), Transaction("alice", "bob", 40)]);
            Get(m, "alice") == 60 && Get(m, "bob") == 40 && Get(m, "carol") == 0 && Get(m, "") == 0
  {
    var txs := [Transaction("", "alice", 100), Transaction("alice", "bob", 40), Transaction("bob", "carol", 10)];
    assert txs[..1] == [Transaction("", "alice", 100)];
    assert txs[..2] == [Transaction("", "alice", 100), Transaction("alice", "bob", 40)];
    assert txs[..2][..1] == txs[..1];
    assert Replay(txs[..1]) == map["alice" := 100];
    assert Replay(txs[..2]) == map["alice" := 60, "bob" := 40];
  }

  // ---------------------------------------------------------------------
  // The replay as written: `get` on an account not yet in the map yields
  // null, and unboxing it throws, so a step returns None there.
  // ---------------------------------------------------------------------

  function ApplyAsWritten(m: Balances, t: Transaction): Option<Balances>
  {
    if t.target !in m then None
    else
      var credited := m[t.target := m[t.target] + t.amount];
      if IsDeposit(t) then Some(credited)
      else if t.source !in credited then None
      else Some(credited[t.source := credited[t.source] - t.amount])
  }

  function ReplayAsWritten(txs: seq<Transaction>): Option<Balances>
  {
    if txs == [] then Some(map[])
    else
      match ReplayAsWritten(txs[..|txs| - 1])
      case None => None
      case Some(m) => ApplyAsWritten(m, txs[|txs| - 1])
  }

  /** As written, the replay throws on every non-empty chain: the first target is never in the map. */
  lemma {:induction false} ReplayAsWrittenAlwaysThrows(txs: seq<Transaction>)
    requires txs != []
    ensures ReplayAsWritten(txs) == None
  {
    if |txs| > 1 {
      ReplayAsWrittenAlwaysThrows(txs[..|txs| - 1]);
    }
  }
}
