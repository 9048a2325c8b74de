/**
 The guarded transfer between two accounts of a ledger.

 `PerformTransaction` is the transfer the rest of the model uses: it moves
 `amount` from `from` to `to` exactly when both indices name an account,
 they differ, and the source account holds at least `amount`; otherwise the
 ledger is returned unchanged. `PerformTransactionAsWritten` models
 `PerformTransaction` in `pv-projekt-2` including its exception path, where
 an out-of-range destination leaves the debit in place (see README, Findings).
 */
module Transactions {
  import opened Accounts

  /** `i` names an account of the ledger. */
  predicate InRange(accounts: seq<int>, i: int) {
    0 <= i < |accounts|
  }

  /** The guard under which the transfer takes effect. */
  predicate Applies(accounts: seq<int>, from: int, to: int, amount: int) {
    InRange(accounts, from) && InRange(accounts, to) && from != to && accounts[from] >= amount
  }

  /** Moves `amount` from `from` to `to` when `Applies` holds; a no-op otherwise. */
  function PerformTransaction(accounts: seq<int>, from: int, to: int, amount: int): (r: seq<int>)
    ensures |r| == |accounts|
    ensures Applies(accounts, from, to, amount) ==>
              && r[from] == accounts[from] - amount
              && r[to] == accounts[to] + amount
              && forall k :: 0 <= k < |r| && k != from && k != to ==> r[k] == accounts[k]
    ensures !Applies(accounts, from, to, amount) ==> r == accounts
  {
    if Applies(accounts, from, to, amount) then
      accounts[from := accounts[from] - amount][to := accounts[to] + amount]
    else
      accounts
  }

  /** Every transfer, applied or not, leaves the total balance unchanged. */
  lemma TransferConservesSum(accounts: seq<int>, from: int, to: int, amount: int)
    ensures Sum(PerformTransaction(accounts, from, to, amount)) == Sum(accounts)
  {
    if Applies(accounts, from, to, amount) {
      var debited := accounts[from := accounts[from] - amount];
      SumUpdate(accounts, from, accounts[from] - amount);
      SumUpdate(debited, to, accounts[to] + amount);
    }
  }

  /** Non-negative balances stay non-negative under a transfer of a non-negative amount. */
  lemma TransferKeepsNonNegative(accounts: seq<int>, from: int, to: int, amount: int)
    requires NonNegative(accounts)
    requires amount >= 0
    ensures NonNegative(PerformTransaction(accounts, from, to, amount))
  {
    var r := PerformTransaction(accounts, from, to, amount);
    forall k | 0 <= k < |r|
      ensures r[k] >= 0
    {
      if Applies(accounts, from, to, amount) && k == from {
        assert r[k] == accounts[from] - amount;
      }
    }
  }

  /** A transfer from an account to itself changes nothing. */
  lemma SelfTransferIsNoOp(accounts: seq<int>, i: int, amount: int)
    ensures PerformTransaction(accounts, i, i, amount) == accounts
  {
  }

  /** A transfer of more than the source account holds changes nothing. */
  lemma InsufficientFundsIsNoOp(accounts: seq<int>, from: int, to: int, amount: int)
    requires InRange(accounts, from)
    requires amount > accounts[from]
    ensures PerformTransaction(accounts, from, to, amount) == accounts
  {
  }

  /** A transfer changes the ledger exactly when its guard holds and it moves a non-zero amount. */
  lemma TransferChangesLedgerIff(accounts: seq<int>, from: int, to: int, amount: int)
    ensures PerformTransaction(accounts, from, to, amount) != accounts
            <==> Applies(accounts, from, to, amount) && amount != 0
  {
    var r := PerformTransaction(accounts, from, to, amount);
    if Applies(accounts, from, to, amount) && amount != 0 {
      assert r[from] != accounts[from];
    }
  }

  /**
   `PerformTransaction` of `pv-projekt-2` step by step, with its exception path: the guard's
   read of `accounts[from]` throws for an out-of-range source, and the
   credit of `accounts[to]` throws for an out-of-range destination after the
   debit has already been written; the exception is caught and logged, so
   whatever was written stays.
   */
  function PerformTransactionAsWritten(accounts: seq<int>, from: int, to: int, amount: int): (r: seq<int>)
    ensures |r| == |accounts|
    ensures forall k :: 0 <= k < |r| && k != from && k != to ==> r[k] == accounts[k]
    ensures r != accounts ==> InRange(accounts, from) && from != to && accounts[from] >= amount
  {
    if from == to then accounts
    else if !InRange(accounts, from) then accounts
    else if accounts[from] < amount then accounts
    else
      var debited := accounts[from := accounts[from] - amount];
      if !InRange(debited, to) then debited
      else debited[to := debited[to] + amount]
  }

  /** On in-range indices the method as written and the corrected transfer agree. */
  lemma AsWrittenAgreesInRange(accounts: seq<int>, from: int, to: int, amount: int)
    requires InRange(accounts, from) && InRange(accounts, to)
    ensures PerformTransactionAsWritten(accounts, from, to, amount)
            == PerformTransaction(accounts, from, to, amount)
  {
  }

  /**
   With an out-of-range destination and enough funds, the method as written
   debits the source and credits nobody: the total drops by `amount`.
   */
  lemma AsWrittenLosesDebit(accounts: seq<int>, from: int, to: int, amount: int)
    requires InRange(accounts, from) && !InRange(accounts, to)
    requires accounts[from] >= amount
    ensures PerformTransactionAsWritten(accounts, from, to, amount)
            == accounts[from := accounts[from] - amount]
    ensures Sum(PerformTransactionAsWritten(accounts, from, to, amount)) == Sum(accounts) - amount
  {
    SumUpdate(accounts, from, accounts[from] - amount);
  }

  /** Concrete instance: one account of 100, a transfer of 50 to account 1 leaves 50 in total. */
  lemma AsWrittenCounterexample()
    ensures PerformTransactionAsWritten([100], 0, 1, 50) == [50]
    ensures PerformTransaction([100], 0, 1, 50) == [100]
  {
  }

  /** Two accounts of 100 and 200; moving 50 from the first gives 50 and 250. */
  lemma ValidTransactionScenario()
    ensures PerformTransaction([100, 200], 0, 1, 50) == [50, 250]
  {
  }

  /** Two accounts of 100 and 200; moving 150 from the first changes nothing. */
  lemma InvalidTransactionScenario()
    ensures PerformTransaction([100, 200], 0, 1, 150) == [100, 200]
  {
  }
}
