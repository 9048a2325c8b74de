/**
 The synchronized transaction run. Each attempt performs one transfer while
 holding a single global lock, so the attempts take effect one after another
 in some order chosen by the scheduler. The model takes that order, and the
 randomly drawn instructions, as an input `schedule` and folds the transfer
 over it: `RunAsWritten` folds the transfer as `pv-projekt-2` performs it,
 `RunSynchronized` folds the corrected transfer, and the two agree on every
 schedule the simulator can draw.
 */
module Simulation {
  import opened Accounts
  import opened Transactions

  /** Number of attempts one run makes. */
  const TransactionCount: nat := 10000
  /** Smallest amount drawn for one attempt. */
  const MinAmount: int := 1
  /** Largest amount drawn for one attempt (the draw's exclusive bound is 100). */
  const MaxAmount: int := 99

  /** One transfer attempt: source index, destination index, amount. */
  datatype Instruction = Instruction(from: int, to: int, amount: int)

  /**
   An index as drawn for a ledger of `n` accounts: uniformly from `[0, n)`,
   and 0 when the ledger is empty (a draw with exclusive bound 0 yields 0).
   */
  predicate DrawnIndex(n: int, i: int) {
    if n > 0 then 0 <= i < n else i == 0
  }

  /** An instruction as the run draws it for a ledger of `n` accounts. */
  predicate ValidInstruction(n: int, t: Instruction) {
    DrawnIndex(n, t.from) && DrawnIndex(n, t.to) && MinAmount <= t.amount <= MaxAmount
  }

  predicate ValidSchedule(n: int, schedule: seq<Instruction>) {
    forall i :: 0 <= i < |schedule| ==> ValidInstruction(n, schedule[i])
  }

  /** One attempt under the lock: the transfer the instruction describes. */
  function Apply(accounts: seq<int>, t: Instruction): (r: seq<int>)
    ensures |r| == |accounts|
  {
    PerformTransaction(accounts, t.from, t.to, t.amount)
  }

  /** The serialized run: the attempts of `schedule` applied in order. */
  function RunSynchronized(accounts: seq<int>, schedule: seq<Instruction>): (r: seq<int>)
    ensures |r| == |accounts|
    decreases |schedule|
  {
    if |schedule| == 0 then accounts
    else RunSynchronized(Apply(accounts, schedule[0]), schedule[1..])
  }

  /** The serialized run with each attempt performing the transfer as written. */
  function RunAsWritten(accounts: seq<int>, schedule: seq<Instruction>): (r: seq<int>)
    ensures |r| == |accounts|
    decreases |schedule|
  {
    if |schedule| == 0 then accounts
    else
      var t := schedule[0];
      RunAsWritten(PerformTransactionAsWritten(accounts, t.from, t.to, t.amount), schedule[1..])
  }

  /**
   On every schedule the simulator can draw, the run as written and the
   corrected run end in the same ledger: the out-of-range destination that
   makes the two transfers differ is never drawn.
   */
  lemma {:induction false} DrawnRunAsWrittenAgrees(accounts: seq<int>, schedule: seq<Instruction>)
    requires ValidSchedule(|accounts|, schedule)
    ensures RunAsWritten(accounts, schedule) == RunSynchronized(accounts, schedule)
    decreases |schedule|
  {
    if |schedule| > 0 {
      var t := schedule[0];
      assert ValidInstruction(|accounts|, t);
      if |accounts| > 0 {
        AsWrittenAgreesInRange(accounts, t.from, t.to, t.amount);
      } else {
        assert t.from == t.to;
      }
      var next := Apply(accounts, t);
      assert ValidSchedule(|next|, schedule[1..]) by {
        forall i | 0 <= i < |schedule[1..]|
          ensures ValidInstruction(|next|, schedule[1..][i])
        {
          assert schedule[1..][i] == schedule[i + 1];
        }
      }
      DrawnRunAsWrittenAgrees(next, schedule[1..]);
    }
  }

  /** A serialized run of any length ends with the total it started with. */
  lemma {:induction false} RunConservesSum(accounts: seq<int>, schedule: seq<Instruction>)
    ensures Sum(RunSynchronized(accounts, schedule)) == Sum(accounts)
    decreases |schedule|
  {
    if |schedule| > 0 {
      var t := schedule[0];
      TransferConservesSum(accounts, t.from, t.to, t.amount);
      RunConservesSum(Apply(accounts, t), schedule[1..]);
    }
  }

  /** Non-negative balances stay non-negative when every amount is non-negative. */
  lemma {:induction false} RunKeepsNonNegative(accounts: seq<int>, schedule: seq<Instruction>)
    requires NonNegative(accounts)
    requires forall i :: 0 <= i < |schedule| ==> schedule[i].amount >= 0
    ensures NonNegative(RunSynchronized(accounts, schedule))
    decreases |schedule|
  {
    if |schedule| > 0 {
      var t := schedule[0];
      TransferKeepsNonNegative(accounts, t.from, t.to, t.amount);
      assert forall i :: 0 <= i < |schedule[1..]| ==> schedule[1..][i] == schedule[i + 1];
      RunKeepsNonNegative(Apply(accounts, t), schedule[1..]);
    }
  }

  /**
   Any two schedules over the same ledger end with the same total. In
   particular the order in which the lock admits the attempts does not
   change the total; the lemma holds for unrelated schedules too, not only
   for reorderings of one schedule.
   */
  lemma AnyOrderSameTotal(accounts: seq<int>, xs: seq<Instruction>, ys: seq<Instruction>)
    ensures Sum(RunSynchronized(accounts, xs)) == Sum(RunSynchronized(accounts, ys))
  {
    RunConservesSum(accounts, xs);
    RunConservesSum(accounts, ys);
  }

  /** A run over a fresh ledger of `|accounts|` balances `b` ends with total `|accounts| * b`. */
  lemma RunOnFreshLedger(accounts: seq<int>, b: int, schedule: seq<Instruction>)
    requires Uniform(accounts, b)
    ensures Sum(RunSynchronized(accounts, schedule)) == |accounts| * b
  {
    RunConservesSum(accounts, schedule);
    SumOfUniform(accounts, b);
  }

  /**
   The locked run as `pv-projekt-2` performs it, over a schedule drawn as the
   simulator draws it, ends with the total it started with.
   */
  lemma {:induction false} DrawnRunConservesSum(accounts: seq<int>, schedule: seq<Instruction>)
    requires ValidSchedule(|accounts|, schedule)
    ensures Sum(RunAsWritten(accounts, schedule)) == Sum(accounts)
  {
    DrawnRunAsWrittenAgrees(accounts, schedule);
    RunConservesSum(accounts, schedule);
  }

  /**
   The locked run as `pv-projekt-2` performs it, over a schedule drawn as the
   simulator draws it (amounts in `[MinAmount, MaxAmount]`), keeps every
   balance of a non-negative ledger non-negative.
   */
  lemma DrawnRunKeepsNonNegative(accounts: seq<int>, schedule: seq<Instruction>)
    requires NonNegative(accounts)
    requires ValidSchedule(|accounts|, schedule)
    ensures NonNegative(RunAsWritten(accounts, schedule))
  {
    DrawnRunAsWrittenAgrees(accounts, schedule);
    assert forall i :: 0 <= i < |schedule| ==> ValidInstruction(|accounts|, schedule[i]);
    RunKeepsNonNegative(accounts, schedule);
  }

  /**
   Five accounts of 1000 end a locked run of `TransactionCount` drawn
   attempts with 5000 in total.
   */
  lemma FiveAccountsScenario(schedule: seq<Instruction>)
    requires |schedule| == TransactionCount
    requires ValidSchedule(5, schedule)
    ensures Sum(RunAsWritten([1000, 1000, 1000, 1000, 1000], schedule)) == 5000
  {
    DrawnRunConservesSum([1000, 1000, 1000, 1000, 1000], schedule);
    SumOfUniform([1000, 1000, 1000, 1000, 1000], 1000);
  }

  /**
   The synchronized branch of `SimulateTransactions`: each attempt of
   `schedule` performs the transfer as written while holding the lock, one
   after another in the order of `schedule`. `pv-projekt-2` makes
   `TransactionCount` attempts; the contract holds for any number of them.
   */
  method SimulateTransactions(accounts: seq<int>, schedule: seq<Instruction>) returns (r: seq<int>)
    ensures r == RunAsWritten(accounts, schedule)
  {
    r := accounts;
    var i := 0;
    while i < |schedule|
      invariant 0 <= i <= |schedule|
      invariant RunAsWritten(r, schedule[i..]) == RunAsWritten(accounts, schedule)
    {
      var t := schedule[i];
      // one attempt, performed while the lock is held
      assert schedule[i..][1..] == schedule[i + 1..];
      r := PerformTransactionAsWritten(r, t.from, t.to, t.amount);
      i := i + 1;
    }
    assert schedule[i..] == [];
  }
}
