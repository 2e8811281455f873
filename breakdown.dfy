/**
 The transaction breakdown: every expense is settled on its own, the settlement is
 stored under the expense's id (a later expense with the same id replaces an earlier
 one), and the stored settlements are then added up into the summary.
 */
module Breakdown {
  import opened KeyOrder
  import opened MapSums
  import opened Expenses
  import opened Transactions
  import opened GreedySettle
  import opened ExpenseSettler
  import opened Summary

  datatype Option<T> = None | Some(value: T)

  /** Every expense names its contributors among its payer and its involved participants. */
  predicate WellFormed(expenses: seq<Expense>)
  {
    forall i :: 0 <= i < |expenses| ==> Touches(expenses[i]) <= Members(LocalParticipants(expenses[i]))
  }

  /** The position of the last of the first `n` expenses with id `id`: storing each
      settlement under its id in list order keeps that one. */
  function LatestIndex(expenses: seq<Expense>, n: nat, id: ExpenseId): (r: Option<nat>)
    requires n <= |expenses|
    ensures r.None? <==> forall i :: 0 <= i < n ==> expenses[i].id != id
    ensures r.Some? ==> r.value < n && expenses[r.value].id == id
    ensures r.Some? ==> forall j :: r.value < j < n ==> expenses[j].id != id
  {
    if n == 0 then None
    else if expenses[n - 1].id == id then Some(n - 1)
    else LatestIndex(expenses, n - 1, id)
  }

  /** What the breakdown stores after the first `n` expenses. */
  ghost predicate Breaks(byExpense: ByExpense, expenses: seq<Expense>, n: nat)
    requires n <= |expenses|
  {
    && (forall id :: id in byExpense <==> LatestIndex(expenses, n, id).Some?)
    && (forall id :: id in byExpense ==>
          byExpense[id] == ExpenseSettlement(expenses[LatestIndex(expenses, n, id).value]))
  }

  /** The settlement `tx` settles expense `e`'s local creditors against its local debtors. */
  ghost predicate SettlesExpense(e: Expense, tx: Transactions)
  {
    SettlesSides(Credits(LocalBalanceMap(e)), Debts(LocalBalanceMap(e)), tx)
  }

  /** Every stored settlement settles the expense it is stored for. */
  ghost predicate EachSettles(byExpense: ByExpense, expenses: seq<Expense>, n: nat)
    requires n <= |expenses| && Breaks(byExpense, expenses, n)
  {
    forall id :: id in byExpense ==> SettlesExpense(expenses[LatestIndex(expenses, n, id).value], byExpense[id])
  }

  /** Storing the settlement of expense `i` extends the breakdown of the first `i` expenses. */
  lemma BreaksSnoc(byExpense: ByExpense, expenses: seq<Expense>, i: nat)
    requires i < |expenses|
    requires Breaks(byExpense, expenses, i)
    ensures Breaks(byExpense[expenses[i].id := ExpenseSettlement(expenses[i])], expenses, i + 1)
  {
    var id := expenses[i].id;
    var more := byExpense[id := ExpenseSettlement(expenses[i])];
    forall id' ensures id' in more <==> LatestIndex(expenses, i + 1, id').Some? {
    }
    forall id' | id' in more
      ensures more[id'] == ExpenseSettlement(expenses[LatestIndex(expenses, i + 1, id').value])
    {
      if id' == id {
        assert LatestIndex(expenses, i + 1, id') == Some(i);
      } else {
        assert LatestIndex(expenses, i + 1, id') == LatestIndex(expenses, i, id');
        assert more[id'] == byExpense[id'];
      }
    }
  }

  /** The settlement of expense `i` settles it, and the other stored settlements keep
      settling the expenses they were stored for. */
  lemma EachSettlesSnoc(byExpense: ByExpense, expenses: seq<Expense>, i: nat)
    requires i < |expenses|
    requires Breaks(byExpense, expenses, i) && EachSettles(byExpense, expenses, i)
    ensures Breaks(byExpense[expenses[i].id := ExpenseSettlement(expenses[i])], expenses, i + 1)
    ensures EachSettles(byExpense[expenses[i].id := ExpenseSettlement(expenses[i])], expenses, i + 1)
  {
    var id := expenses[i].id;
    var more := byExpense[id := ExpenseSettlement(expenses[i])];
    BreaksSnoc(byExpense, expenses, i);
    ExpenseSettlementSettles(expenses[i]);
    forall id' | id' in more
      ensures SettlesExpense(expenses[LatestIndex(expenses, i + 1, id').value], more[id'])
    {
      if id' != id {
        assert SettlesExpense(expenses[LatestIndex(expenses, i, id').value], byExpense[id']);
      }
    }
  }

  /** The breakdown of a list of expenses: each expense's settlement by id, the last one for
      a repeated id, and the summary of the settlements kept. */
  method GenerateTransactionBreakdown(expenses: seq<Expense>)
    returns (byExpense: ByExpense, summary: Transactions)
    requires WellFormed(expenses)
    ensures Breaks(byExpense, expenses, |expenses|)
    ensures EachSettles(byExpense, expenses, |expenses|)
    ensures Summarizes(summary, byExpense)
    ensures TotalSettled(summary) == MapSum(SettledBy(byExpense))
  {
    byExpense := map[];
    for i := 0 to |expenses|
      invariant Breaks(byExpense, expenses, i)
      invariant EachSettles(byExpense, expenses, i)
    {
      EachSettlesSnoc(byExpense, expenses, i);
      var tx := SettleExpense(expenses[i]);
      byExpense := byExpense[expenses[i].id := tx];
    }
    summary := Aggregate(byExpense);
  }
}
