# Bank-transfer simulator: ledger and synchronized transfers

This project models the core of `pv-projekt-2`, a console program that runs
10,000 random transfers between bank accounts in parallel. It runs them once
without synchronization and once with a single global lock, and prints the
balances and the total after each run. The program's tests compare the two
totals.

The model covers the part with a sequential contract:

- **`Accounts`** (`accounts.dfy`): the ledger is a `seq<int>` of balances. It
  defines `Sum`, the total that `accounts.Sum()` reports, and
  `InitializeAccounts`, which builds `count` balances that all equal
  `initialBalance`.
- **`Transactions`** (`transactions.dfy`): `PerformTransaction` is the guarded
  transfer. It moves `amount` from `from` to `to` only when the two indices
  differ and the source holds at least `amount`. Otherwise it does nothing.
  `PerformTransactionAsWritten` models the program's `PerformTransaction`
  step by step, including the exception that the method catches.
- **`Simulation`** (`simulation.dfy`): the synchronized branch of
  `SimulateTransactions`. Every attempt holds one global lock while it
  transfers. So the run's effect is the transfers applied one after another,
  in an order the scheduler picks. The model takes that order, and the random
  draws, as an input `schedule` of `Instruction(from, to, amount)`. The
  indices lie in `[0, Count)` (0 when the ledger is empty) and the amount
  lies in `[1, 99]`. `RunAsWritten` folds the transfer as the program
  performs it, and `SimulateTransactions` is that run written as a loop, one
  attempt per iteration. `RunSynchronized` folds the corrected
  `PerformTransaction`. On every schedule the simulator can draw, the two
  folds end in the same ledger. The program makes `TransactionCount` =
  10,000 attempts, and the model proves its properties for schedules of every
  length.

The properties proved:

- A transfer conserves the total in every case.
- Non-negative balances stay non-negative.
- A self-transfer and a transfer with insufficient funds change nothing.
- A transfer changes the ledger exactly when its guard holds and the amount is
  not zero.
- A synchronized run of any length and in any order keeps the total. For a
  fresh ledger that total is `count * initialBalance`, for example 5 × 1000 =
  5000.

With `count <= 0` the loop in `InitializeAccounts` runs no times and returns
an empty list; no error is raised. The model does the same.

## Model

| member | source | states |
|---|---|---|
| `Accounts.InitializeAccounts` | pv-projekt-2/Program.cs:74-90 | the result has `count` entries (none when `count <= 0`), every entry equals `initialBalance`, and the total is `|result| * initialBalance` |
| `Accounts.Sum` | pv-projekt-2/Program.cs:191 | the total of the balances, as `accounts.Sum()` computes it; the total of a ledger with no negative balance is not negative |
| `Accounts.SumOfUniform` | pv-projekt-2/Program.cs:78-83 | a ledger whose balances all equal `b` has total `length * b` |
| `Transactions.PerformTransaction` | pv-projekt-2/Program.cs:157-171 | when both indices are in range, differ, and `accounts[from] >= amount`, then `from` loses `amount`, `to` gains `amount` and every other balance is unchanged; otherwise the ledger is returned unchanged; the length never changes |
| `Transactions.TransferConservesSum` | pv-projekt-2/Program.cs:161-165 | the total balance after a transfer equals the total before, whether the transfer is applied, a self-transfer or refused for lack of funds |
| `Transactions.TransferKeepsNonNegative` | pv-projekt-2/Program.cs:161-164 | if every balance is non-negative and `amount >= 0`, every balance is still non-negative after the transfer |
| `Transactions.SelfTransferIsNoOp` | pv-projekt-2/Program.cs:161 | a transfer with `from == to` returns the ledger unchanged, for every amount |
| `Transactions.InsufficientFundsIsNoOp` | pv-projekt-2/Program.cs:161 | a transfer of more than `accounts[from]` returns the whole ledger unchanged |
| `Transactions.TransferChangesLedgerIff` | pv-projekt-2/Program.cs:161-165 | the ledger changes if and only if the guard holds and `amount` is not zero |
| `Transactions.PerformTransactionAsWritten` | pv-projekt-2/Program.cs:157-171 | the program's method step by step, with its exception path; the length never changes, no balance other than `from` and `to` changes, and the ledger changes only when `from` is in range, differs from `to`, and holds at least `amount` |
| `Transactions.AsWrittenAgreesInRange` | pv-projekt-2/Program.cs:157-171 | for in-range indices, the program's method, with its exception path, has the same effect as the guarded transfer |
| `Transactions.AsWrittenLosesDebit` | pv-projekt-2/Program.cs:161-170 | with an in-range source that holds enough, and an out-of-range destination, the program's method leaves the source debited and credits nobody, so the total drops by `amount` |
| `Transactions.AsWrittenCounterexample` | pv-projekt-2/Program.cs:161-170 | on ledger `[100]`, a transfer of 50 from 0 to 1 leaves `[50]` as written, and leaves `[100]` in the corrected transfer |
| `Transactions.ValidTransactionScenario` | tests/UnitTest1.cs:51-61 | moving 50 from the first account of `[100, 200]` gives `[50, 250]` |
| `Transactions.InvalidTransactionScenario` | tests/UnitTest1.cs:75-85 | moving 150 from the first account of `[100, 200]` leaves `[100, 200]` |
| `Simulation.RunSynchronized` | pv-projekt-2/Program.cs:112-125 | the locked run as a fold of the corrected transfer, in the order the lock admits the attempts; the length never changes (its total and non-negativity are the lemmas below) |
| `Simulation.RunAsWritten` | pv-projekt-2/Program.cs:112-125 | the locked run as a fold of the transfer as the program performs it; the length never changes |
| `Simulation.DrawnRunAsWrittenAgrees` | pv-projekt-2/Program.cs:116-124 | on every schedule whose indices are drawn from `[0, Count)` (0 when `Count` is 0) and whose amounts lie in `[1, 99]`, the run as written ends in the same ledger as the corrected run |
| `Simulation.RunConservesSum` | pv-projekt-2/Program.cs:112-125 | a serialized run of the corrected transfer, over any schedule, ends with the total it started with |
| `Simulation.RunKeepsNonNegative` | pv-projekt-2/Program.cs:116-125 | if every balance starts non-negative and every drawn amount is non-negative, every balance ends non-negative |
| `Simulation.AnyOrderSameTotal` | pv-projekt-2/Program.cs:112-125 | any two schedules over the same ledger end with the same total; so the order in which the lock admits the attempts does not change the total |
| `Simulation.RunOnFreshLedger` | tests/UnitTest1.cs:277-281 | a run over a ledger of `n` balances, each equal to `b`, ends with total `n * b` |
| `Simulation.DrawnRunConservesSum` | pv-projekt-2/Program.cs:116-125 | for a drawn schedule, the locked run as the program performs it ends with the total it started with |
| `Simulation.DrawnRunKeepsNonNegative` | pv-projekt-2/Program.cs:116-125 | for a drawn schedule (amounts in `[1, 99]`) over a non-negative ledger, the locked run as the program performs it keeps every balance non-negative |
| `Simulation.FiveAccountsScenario` | tests/UnitTest1.cs:277-281 | five accounts of 1000 end a locked run of 10,000 drawn attempts, as the program performs it, with total 5000 |
| `Simulation.SimulateTransactions` | pv-projekt-2/Program.cs:104-125 | the locked branch's loop, which performs the attempts one at a time with the transfer as written, ends in exactly the state of the fold `RunAsWritten`; so `DrawnRunConservesSum` and `DrawnRunKeepsNonNegative` hold for it |

## Left out

- The unsynchronized branch of `SimulateTransactions` (Program.cs:127-130) is not modelled. It is a data race by design, with no sequential contract. So are the tests that expect its total to change.
- `Parallel.For` and the lock object are not modelled as primitives. The lock's effect is captured by folding the transfers in an order given as input.
- `Random` sampling is not modelled. The drawn instructions are an input that satisfies the ranges of the draws.
- The statistical test that every account gets accessed is left out, because it depends on `Random`.
- `Main`, `DisplayAccountBalances` and `GetValidatedInput` are left out, because they do console I/O. `GetValidatedInput` only wraps `int.TryParse` plus a positivity check.
- `CheckDiskSpace`, `InitializeLog`, `LogMessage` and `LogError` are left out, because they do file I/O. A caught fault is therefore modelled only by its effect on the ledger.
- Balances are unbounded integers. The source's `int` is 32 bits wide and would wrap around on `accounts[to] += amount`. The overflow check of `accounts.Sum()` is not modelled either.
- `Simulation.SimulateTransactions` returns the run's result for the schedule it is given. It does not model the run's output to the console. It also does not fix the schedule's length at 10,000, because the proved properties hold for every length.

## Findings

| source | as written | input that shows it | evidently intended | confidence | as-written member | corrected member |
|---|---|---|---|---|---|---|
| pv-projekt-2/Program.cs:161-170 | with `from` in range and `to` out of range, line 163 debits `accounts[from]`, then line 164 throws, and the catch swallows the exception, so the debit stays and the money is lost | `accounts = [100]`, `from = 0`, `to = 1`, `amount = 50` gives `[50]` (total 100 becomes 50) | a failed transfer changes nothing, so the total is conserved for every index | medium; not executed; the simulator itself only draws in-range indices, so only direct callers of `PerformTransaction` reach it | `Transactions.PerformTransactionAsWritten` (shown by `Transactions.AsWrittenLosesDebit`, `Transactions.AsWrittenCounterexample`) | `Transactions.PerformTransaction` (with `Transactions.TransferConservesSum` for all indices; `Simulation.DrawnRunAsWrittenAgrees` shows the simulator's run equals the corrected run) |
