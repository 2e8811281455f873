/**
 The balance calculation: every participant starts at 0, then each expense, in
 list order, charges its participants and credits its payer in place.
 */
module BalanceCalculator {
  import opened KeyOrder
  import opened MapSums
  import opened Expenses

  /** Subtracts `splitAmount` from the balance of each participant of `involved`, in turn. */
  method ChargeShares(balances: map<Participant, real>, involved: seq<Participant>, splitAmount: real)
    returns (updated: map<Participant, real>)
    requires Members(involved) <= balances.Keys
    ensures updated.Keys == balances.Keys
    ensures forall p :: p in balances ==> updated[p] == balances[p] - ShareCharge(involved, p, splitAmount)
    ensures MapSum(updated) == MapSum(balances) - SharesTotal(|involved|, splitAmount)
  {
    updated := balances;
    var i := 0;
    while i < |involved|
      invariant 0 <= i <= |involved|
      invariant updated.Keys == balances.Keys
      invariant forall p :: p in balances ==>
        updated[p] == balances[p] - ShareCharge(involved[..i], p, splitAmount)
      invariant MapSum(updated) == MapSum(balances) - SharesTotal(i, splitAmount)
    {
      var p := involved[i];
      assert involved[..i + 1][..i] == involved[..i];
      MapSumUpdate(updated, p, updated[p] - splitAmount);
      updated := updated[p := updated[p] - splitAmount];
      i := i + 1;
    }
    assert involved[..i] == involved;
  }

  /** Subtracts each manual contribution from the balance of its participant, in entry order. */
  method ChargeContributions(balances: map<Participant, real>, cs: seq<Contribution>)
    returns (updated: map<Participant, real>)
    requires Contributors(cs) <= balances.Keys
    ensures updated.Keys == balances.Keys
    ensures forall p :: p in balances ==> updated[p] == balances[p] - ContributionOf(cs, p)
    ensures MapSum(updated) == MapSum(balances) - ContributionTotal(cs)
  {
    updated := balances;
    var i := 0;
    while i < |cs|
      invariant 0 <= i <= |cs|
      invariant updated.Keys == balances.Keys
      invariant forall p :: p in balances ==> updated[p] == balances[p] - ContributionOf(cs[..i], p)
      invariant MapSum(updated) == MapSum(balances) - ContributionTotal(cs[..i])
    {
      var entry := cs[i];
      assert cs[..i + 1][..i] == cs[..i];
      assert entry.participant in Contributors(cs);
      MapSumUpdate(updated, entry.participant, updated[entry.participant] - entry.amount);
      updated := updated[entry.participant := updated[entry.participant] - entry.amount];
      i := i + 1;
    }
    assert cs[..i] == cs;
  }

  /** Applies one expense to a balance dictionary, as the body of the expense loop does:
      an even split subtracts the share from each involved participant in turn, a manual
      split subtracts each contribution from its participant, and either then adds the
      full amount to the payer.  Every entry it touches must already exist. */
  method ApplyExpense(balances: map<Participant, real>, e: Expense) returns (updated: map<Participant, real>)
    requires Touches(e) <= balances.Keys
    ensures updated.Keys == balances.Keys
    ensures forall p :: p in balances ==> updated[p] == balances[p] + Delta(e, p)
    ensures MapSum(updated) == MapSum(balances) + Imbalance(e)
    ensures e.split.Evenly? && |e.involved| > 0 ==> MapSum(updated) == MapSum(balances)
    ensures e.split.Manual? ==>
      (MapSum(updated) == MapSum(balances) <==> ContributionTotal(e.split.contributions) == e.amount)
  {
    updated := balances;
    match e.split {
      case Evenly =>
        updated := ChargeShares(updated, e.involved, Share(e));
        MapSumUpdate(updated, e.payer, updated[e.payer] + e.amount);
        updated := updated[e.payer := updated[e.payer] + e.amount];
      case Manual(cs) =>
        updated := ChargeContributions(updated, cs);
        MapSumUpdate(updated, e.payer, updated[e.payer] + e.amount);
        updated := updated[e.payer := updated[e.payer] + e.amount];
      case Neither =>
    }
    ImbalanceZero(e);
  }

  /** The balance of every participant after all expenses.  Each participant gets an entry,
      which equals the sum of the changes the expenses make to it; the entries add up to the
      expenses' total imbalance, so zero when every expense is balanced. */
  method CalculateBalances(participants: seq<Participant>, expenses: seq<Expense>)
    returns (balances: map<Participant, real>)
    requires forall e :: e in expenses ==> Touches(e) <= Members(participants)
    ensures balances.Keys == Members(participants)
    ensures forall p :: p in balances ==> balances[p] == NetDelta(expenses, p)
    ensures MapSum(balances) == TotalImbalance(expenses)
  {
    balances := map[];
    var i := 0;
    while i < |participants|
      invariant 0 <= i <= |participants|
      invariant balances.Keys == Members(participants[..i])
      invariant forall p :: p in balances ==> balances[p] == 0.0
      invariant MapSum(balances) == 0.0
    {
      assert participants[..i + 1] == participants[..i] + [participants[i]];
      MapSumUpdate(balances, participants[i], 0.0);
      balances := balances[participants[i] := 0.0];
      i := i + 1;
    }
    assert participants[..i] == participants;
    var j := 0;
    while j < |expenses|
      invariant 0 <= j <= |expenses|
      invariant balances.Keys == Members(participants)
      invariant forall p :: p in balances ==> balances[p] == NetDelta(expenses[..j], p)
      invariant MapSum(balances) == TotalImbalance(expenses[..j])
    {
      assert expenses[..j + 1][..j] == expenses[..j];
      assert expenses[j] in expenses;
      balances := ApplyExpense(balances, expenses[j]);
      j := j + 1;
    }
    assert expenses[..j] == expenses;
  }

  /** Every balance is the same whatever the order of the expense list. */
  lemma BalancesOrderIndependent(a: seq<Expense>, b: seq<Expense>)
    requires multiset(a) == multiset(b)
    ensures forall p :: NetDelta(a, p) == NetDelta(b, p)
  {
    forall p {
      NetDeltaPermutation(a, b, p);
    }
  }

  /** When every expense is balanced, the balances add up to zero. */
  lemma {:induction false} BalancedExpensesSumToZero(es: seq<Expense>)
    requires forall e :: e in es ==> Imbalance(e) == 0.0
    ensures TotalImbalance(es) == 0.0
  {
    if es != [] {
      assert es[|es| - 1] in es;
      assert forall e :: e in es[..|es| - 1] ==> e in es;
      BalancedExpensesSumToZero(es[..|es| - 1]);
    }
  }
}
