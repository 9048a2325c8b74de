/**
 The account ledger: an ordered list of integer balances, indexed from 0.
 Balances are mathematical integers; see README for the 32-bit `int` that
 `pv-projekt-2` stores them in.
 */
module Accounts {

  /** Total of all balances, as `accounts.Sum()` computes it. */
  function Sum(s: seq<int>): (r: int)
    ensures NonNegative(s) ==> r >= 0
    decreases |s|
  {
    if |s| == 0 then 0 else s[0] + Sum(s[1..])
  }

  /** Every balance is at least zero. */
  predicate NonNegative(s: seq<int>) {
    forall i :: 0 <= i < |s| ==> s[i] >= 0
  }

  /** Every balance equals `b`. */
  predicate Uniform(s: seq<int>, b: int) {
    forall i :: 0 <= i < |s| ==> s[i] == b
  }

  /** Appending one balance adds it to the total. */
  lemma {:induction false} SumAppend(s: seq<int>, x: int)
    ensures Sum(s + [x]) == Sum(s) + x
    decreases |s|
  {
    if |s| == 0 {
      assert s + [x] == [x];
    } else {
      assert (s + [x])[1..] == s[1..] + [x];
      SumAppend(s[1..], x);
    }
  }

  /** Overwriting one balance changes the total by exactly the difference. */
  lemma {:induction false} SumUpdate(s: seq<int>, i: int, v: int)
    requires 0 <= i < |s|
    ensures Sum(s[i := v]) == Sum(s) - s[i] + v
    decreases |s|
  {
    if i == 0 {
      assert s[i := v][1..] == s[1..];
    } else {
      assert s[i := v][1..] == s[1..][i - 1 := v];
      SumUpdate(s[1..], i - 1, v);
    }
  }

  /** A ledger in which every balance is `b` holds `|s| * b` in total. */
  lemma {:induction false} SumOfUniform(s: seq<int>, b: int)
    requires Uniform(s, b)
    ensures Sum(s) == |s| * b
    decreases |s|
  {
    if |s| > 0 {
      assert Uniform(s[1..], b);
      SumOfUniform(s[1..], b);
    }
  }

  /**
   Builds the ledger: `count` accounts, each holding `initialBalance`.
   A count of zero or less makes the loop run no times, so the ledger is
   empty (no error is raised).
   */
  method InitializeAccounts(count: int, initialBalance: int) returns (accounts: seq<int>)
    ensures |accounts| == (if count > 0 then count else 0)
    ensures Uniform(accounts, initialBalance)
    ensures Sum(accounts) == |accounts| * initialBalance
  {
    accounts := [];
    var i := 0;
    while i < count
      invariant count > 0 ==> 0 <= i <= count
      invariant count <= 0 ==> i == 0
      invariant |accounts| == i
      invariant Uniform(accounts, initialBalance)
      invariant Sum(accounts) == i * initialBalance
    {
      SumAppend(accounts, initialBalance);
      accounts := accounts + [initialBalance];
      i := i + 1;
    }
  }
}
