/**
 The greedy matching loop of one expense's settlement.  While some creditor and some
 debtor remain, it takes the creditor and the debtor with the most remaining, records
 the smaller of the two amounts from the debtor to the creditor, lowers both by it and
 deletes whichever reaches 0.
 */
module GreedySettle {
  import opened KeyOrder
  import opened MapSums
  import opened Expenses
  import opened Transactions
  import opened Pools

  /** `Math.min` on two amounts. */
  function Min(a: real, b: real): (r: real)
    ensures r <= a && r <= b && (r == a || r == b)
  {
    if a < b then a else b
  }

  /** The loop's working state: the remaining creditors and debtors and the transfers so far. */
  datatype State = State(creditors: Pool, debtors: Pool, tx: Transactions)

  predicate Valid(s: State)
  {
    WellKeyed(s.creditors) && WellKeyed(s.debtors)
  }

  /** The loop condition: both sides still have someone. */
  predicate Running(s: State)
  {
    |s.creditors.keys| > 0 && |s.debtors.keys| > 0
  }

  /** How many participants the two sides still hold. */
  function Size(s: State): nat
  {
    |s.creditors.keys| + |s.debtors.keys|
  }

  /** The creditor a step picks. */
  function Creditor(s: State): Participant
    requires Valid(s) && Running(s)
  {
    Largest(s.creditors)
  }

  /** The debtor a step picks. */
  function Debtor(s: State): Participant
    requires Valid(s) && Running(s)
  {
    Largest(s.debtors)
  }

  /** The amount a step transfers: the smaller of the two picked amounts. */
  function Amount(s: State): real
    requires Valid(s) && Running(s)
  {
    Min(s.creditors.amounts[Creditor(s)], s.debtors.amounts[Debtor(s)])
  }

  /** One iteration of the loop.  At least one of the two picks is deleted, so the sides
      shrink and stay exactly keyed. */
  function Step(s: State): (r: State)
    requires Valid(s) && Running(s)
    ensures Valid(r) && Size(r) < Size(s)
  {
    var c, d, amount := Creditor(s), Debtor(s), Amount(s);
    DeductSpec(s.creditors, c, amount);
    DeductSpec(s.debtors, d, amount);
    State(Deduct(s.creditors, c, amount), Deduct(s.debtors, d, amount), Record(s.tx, d, c, amount))
  }

  /** The state the loop stops in: one of the two sides is empty. */
  function Run(s: State): (r: State)
    requires Valid(s)
    ensures Valid(r) && !Running(r)
    decreases Size(s)
  {
    if Running(s) then Run(Step(s)) else s
  }

  /** The number of iterations the loop makes. */
  function Iterations(s: State): nat
    requires Valid(s)
    decreases Size(s)
  {
    if Running(s) then 1 + Iterations(Step(s)) else 0
  }

  /** The loop makes at most one iteration fewer than the participants on the two sides. */
  lemma {:induction false} IterationsBound(s: State)
    requires Valid(s)
    ensures Iterations(s) == 0 || Iterations(s) < Size(s)
    decreases Size(s)
  {
    if Running(s) {
      IterationsBound(Step(s));
    }
  }

  /** All remaining amounts of a pool are positive. */
  predicate Positive(pool: Pool)
  {
    forall k :: k in pool.amounts ==> pool.amounts[k] > 0.0
  }

  /** Each step picks a creditor and a debtor holding the most on their side, transfers a
      positive amount between two different participants, and leaves every remaining amount
      positive, so none goes negative. */
  lemma StepChoice(s: State)
    requires Valid(s) && Running(s) && Positive(s.creditors) && Positive(s.debtors)
    requires s.creditors.amounts.Keys !! s.debtors.amounts.Keys
    ensures forall k :: k in s.creditors.amounts ==> s.creditors.amounts[k] <= s.creditors.amounts[Creditor(s)]
    ensures forall k :: k in s.debtors.amounts ==> s.debtors.amounts[k] <= s.debtors.amounts[Debtor(s)]
    ensures Creditor(s) != Debtor(s) && Amount(s) > 0.0
    ensures Positive(Step(s).creditors) && Positive(Step(s).debtors)
  {
    var c, d, amount := Creditor(s), Debtor(s), Amount(s);
    DeductSpec(s.creditors, c, amount);
    DeductSpec(s.debtors, d, amount);
  }

  /** The transfers run from the original debtors to the original creditors and are positive;
      no debtor dictionary is empty. */
  ghost predicate Entries(tx: Transactions, creditors: map<Participant, real>, debtors: map<Participant, real>)
  {
    && NoEmptyRows(tx)
    && forall d, c :: HasPair(tx, d, c) ==> d in debtors && c in creditors && tx[d][c] > 0.0
  }

  /** Every original creditor has received what it no longer has remaining. */
  ghost predicate CreditorsAccounted(s: State, creditors: map<Participant, real>)
  {
    forall c :: c in creditors ==> Received(s.tx, c) + Lookup(s.creditors.amounts, c) == creditors[c]
  }

  /** Every original debtor has paid what it no longer has remaining. */
  ghost predicate DebtorsAccounted(s: State, debtors: map<Participant, real>)
  {
    forall d :: d in debtors ==> Paid(s.tx, d) + Lookup(s.debtors.amounts, d) == debtors[d]
  }

  /** The total transferred plus what either side still holds is that side's original total. */
  ghost predicate TotalsAccounted(s: State, creditors: map<Participant, real>, debtors: map<Participant, real>)
  {
    && TotalSettled(s.tx) + MapSum(s.creditors.amounts) == MapSum(creditors)
    && TotalSettled(s.tx) + MapSum(s.debtors.amounts) == MapSum(debtors)
  }

  /** What the loop keeps true of its state with respect to the sides it started from. */
  ghost predicate Invariant(s: State, creditors: map<Participant, real>, debtors: map<Participant, real>)
  {
    && Valid(s)
    && s.creditors.amounts.Keys <= creditors.Keys && s.debtors.amounts.Keys <= debtors.Keys
    && Positive(s.creditors) && Positive(s.debtors)
    && Entries(s.tx, creditors, debtors)
    && CreditorsAccounted(s, creditors)
    && DebtorsAccounted(s, debtors)
    && TotalsAccounted(s, creditors, debtors)
  }

  /** A step adds one positive transfer from a remaining debtor to a remaining creditor. */
  lemma StepEntries(s: State, creditors: map<Participant, real>, debtors: map<Participant, real>)
    requires Valid(s) && Running(s) && Positive(s.creditors) && Positive(s.debtors)
    requires s.creditors.amounts.Keys <= creditors.Keys && s.debtors.amounts.Keys <= debtors.Keys
    requires Entries(s.tx, creditors, debtors)
    ensures Entries(Step(s).tx, creditors, debtors)
    ensures Step(s).creditors.amounts.Keys <= creditors.Keys && Step(s).debtors.amounts.Keys <= debtors.Keys
  {
    DeductSpec(s.creditors, Creditor(s), Amount(s));
    DeductSpec(s.debtors, Debtor(s), Amount(s));
  }

  /** A step moves the transferred amount from the creditor's remaining amount to what it
      has received. */
  lemma StepCreditors(s: State, creditors: map<Participant, real>)
    requires Valid(s) && Running(s) && CreditorsAccounted(s, creditors)
    ensures CreditorsAccounted(Step(s), creditors)
  {
    var c, d, amount := Creditor(s), Debtor(s), Amount(s);
    RecordTotals(s.tx, d, c, amount);
    DeductSpec(s.creditors, c, amount);
  }

  /** A step moves the transferred amount from the debtor's remaining amount to what it has paid. */
  lemma StepDebtors(s: State, debtors: map<Participant, real>)
    requires Valid(s) && Running(s) && DebtorsAccounted(s, debtors)
    ensures DebtorsAccounted(Step(s), debtors)
  {
    var c, d, amount := Creditor(s), Debtor(s), Amount(s);
    RecordTotals(s.tx, d, c, amount);
    DeductSpec(s.debtors, d, amount);
  }

  /** A step adds the transferred amount to the total and takes it from each side's total. */
  lemma StepTotals(s: State, creditors: map<Participant, real>, debtors: map<Participant, real>)
    requires Valid(s) && Running(s) && TotalsAccounted(s, creditors, debtors)
    ensures TotalsAccounted(Step(s), creditors, debtors)
  {
    var c, d, amount := Creditor(s), Debtor(s), Amount(s);
    RecordTotals(s.tx, d, c, amount);
    DeductSpec(s.creditors, c, amount);
    DeductSpec(s.debtors, d, amount);
  }

  /** Every iteration keeps the invariant, provided the two sides share nobody. */
  lemma StepInvariant(s: State, creditors: map<Participant, real>, debtors: map<Participant, real>)
    requires Running(s) && Invariant(s, creditors, debtors) && creditors.Keys !! debtors.Keys
    ensures Invariant(Step(s), creditors, debtors)
  {
    StepChoice(s);
    StepEntries(s, creditors, debtors);
    StepCreditors(s, creditors);
    StepDebtors(s, debtors);
    StepTotals(s, creditors, debtors);
  }

  /** The invariant holds in the state the loop stops in. */
  lemma {:induction false} RunInvariant(s: State, creditors: map<Participant, real>, debtors: map<Participant, real>)
    requires Invariant(s, creditors, debtors) && creditors.Keys !! debtors.Keys
    ensures Invariant(Run(s), creditors, debtors)
    decreases Size(s)
  {
    if Running(s) {
      StepInvariant(s, creditors, debtors);
      RunInvariant(Step(s), creditors, debtors);
    }
  }

  /** The state the loop starts in: the two sides as partitioned, nothing transferred. */
  function Start(creditors: Pool, debtors: Pool): State
  {
    State(creditors, debtors, map[])
  }

  /** What the settlement of two sides guarantees: every transfer goes from a debtor to a
      creditor, between different participants, and is positive; nobody receives more than
      they are owed or pays more than they owe; at the end one side is settled in full; the
      total transferred is the smaller of the two sides' totals; and when the two totals are
      equal, everybody is settled. */
  ghost predicate SettlesSides(creditors: map<Participant, real>, debtors: map<Participant, real>, tx: Transactions)
  {
    && NoEmptyRows(tx)
    && (forall d, c :: HasPair(tx, d, c) ==> d in debtors && c in creditors && d != c && tx[d][c] > 0.0)
    && (forall c :: c in creditors ==> Received(tx, c) <= creditors[c])
    && (forall d :: d in debtors ==> Paid(tx, d) <= debtors[d])
    && ((forall c :: c in creditors ==> Received(tx, c) == creditors[c])
        || (forall d :: d in debtors ==> Paid(tx, d) == debtors[d]))
    && TotalSettled(tx) == Min(MapSum(creditors), MapSum(debtors))
    && (MapSum(creditors) == MapSum(debtors) ==>
          && (forall c :: c in creditors ==> Received(tx, c) == creditors[c])
          && (forall d :: d in debtors ==> Paid(tx, d) == debtors[d]))
  }

  /** In a final state, the side that ran out is settled in full: it has nothing remaining. */
  lemma FinalOneSide(r: State, creditors: map<Participant, real>, debtors: map<Participant, real>)
    requires Invariant(r, creditors, debtors) && !Running(r)
    ensures |r.creditors.keys| == 0 ==> r.creditors.amounts == map[]
    ensures |r.debtors.keys| > 0 ==> r.creditors.amounts == map[]
    ensures |r.creditors.keys| > 0 ==> r.debtors.amounts == map[]
    ensures r.creditors.amounts == map[] ==> forall c :: c in creditors ==> Received(r.tx, c) == creditors[c]
    ensures r.debtors.amounts == map[] ==> forall d :: d in debtors ==> Paid(r.tx, d) == debtors[d]
  {
  }

  /** Nobody has received more than owed or paid more than owed, as what remains is never negative. */
  lemma FinalBounds(r: State, creditors: map<Participant, real>, debtors: map<Participant, real>)
    requires Invariant(r, creditors, debtors)
    ensures forall c :: c in creditors ==> Received(r.tx, c) <= creditors[c]
    ensures forall d :: d in debtors ==> Paid(r.tx, d) <= debtors[d]
  {
    assert forall c :: c in creditors ==> Lookup(r.creditors.amounts, c) >= 0.0;
    assert forall d :: d in debtors ==> Lookup(r.debtors.amounts, d) >= 0.0;
  }

  /** The total transferred is the smaller side's total, and with equal totals nothing
      remains on either side. */
  lemma FinalTotal(r: State, creditors: map<Participant, real>, debtors: map<Participant, real>)
    requires Invariant(r, creditors, debtors) && !Running(r)
    ensures TotalSettled(r.tx) == Min(MapSum(creditors), MapSum(debtors))
    ensures MapSum(creditors) == MapSum(debtors) ==> r.creditors.amounts == map[] && r.debtors.amounts == map[]
  {
    FinalOneSide(r, creditors, debtors);
    MapSumPositive(r.creditors.amounts);
    MapSumPositive(r.debtors.amounts);
  }

  /** Settling two disjoint sides of positive amounts, each exactly keyed, meets every guarantee. */
  lemma RunSettles(creditors: Pool, debtors: Pool)
    requires WellKeyed(creditors) && WellKeyed(debtors) && Positive(creditors) && Positive(debtors)
    requires creditors.amounts.Keys !! debtors.amounts.Keys
    ensures SettlesSides(creditors.amounts, debtors.amounts, Run(Start(creditors, debtors)).tx)
  {
    var cs, ds := creditors.amounts, debtors.amounts;
    var s := Start(creditors, debtors);
    assert forall p :: Column(s.tx, p) == map[];
    assert RowTotals(s.tx) == map[];
    assert Invariant(s, cs, ds);
    RunInvariant(s, cs, ds);
    var r := Run(s);
    FinalOneSide(r, cs, ds);
    FinalBounds(r, cs, ds);
    FinalTotal(r, cs, ds);
  }

  /** One iteration of the loop, on the two sides' dictionaries and key orders: pick, record,
      lower both, delete whichever reaches 0. */
  method SettleStep(cKeys: seq<Participant>, cRem: map<Participant, real>,
                    dKeys: seq<Participant>, dRem: map<Participant, real>, tx: Transactions)
    returns (cKeys': seq<Participant>, cRem': map<Participant, real>,
             dKeys': seq<Participant>, dRem': map<Participant, real>, tx': Transactions)
    requires Valid(State(Pool(cKeys, cRem), Pool(dKeys, dRem), tx))
    requires |cKeys| > 0 && |dKeys| > 0
    ensures State(Pool(cKeys', cRem'), Pool(dKeys', dRem'), tx') == Step(State(Pool(cKeys, cRem), Pool(dKeys, dRem), tx))
  {
    var creditor := ArgMax(cKeys, cRem);
    var debtor := ArgMax(dKeys, dRem);
    var settleAmount := Min(cRem[creditor], dRem[debtor]);
    tx' := Record(tx, debtor, creditor, settleAmount);
    cKeys', cRem' := cKeys, cRem[creditor := cRem[creditor] - settleAmount];
    dKeys', dRem' := dKeys, dRem[debtor := dRem[debtor] - settleAmount];
    if cRem'[creditor] == 0.0 {
      cRem' := cRem' - {creditor};
      cKeys' := Without(cKeys', creditor);
    }
    if dRem'[debtor] == 0.0 {
      dRem' := dRem' - {debtor};
      dKeys' := Without(dKeys', debtor);
    }
  }

  /** The greedy loop, over the two sides' dictionaries and key orders, updated in place. */
  method Settle(creditors: Pool, debtors: Pool) returns (tx: Transactions)
    requires WellKeyed(creditors) && WellKeyed(debtors)
    ensures tx == Run(Start(creditors, debtors)).tx
  {
    var cKeys, cRem, dKeys, dRem := creditors.keys, creditors.amounts, debtors.keys, debtors.amounts;
    tx := map[];
    while |cKeys| > 0 && |dKeys| > 0
      invariant Valid(State(Pool(cKeys, cRem), Pool(dKeys, dRem), tx))
      invariant Run(State(Pool(cKeys, cRem), Pool(dKeys, dRem), tx)) == Run(Start(creditors, debtors))
      decreases |cKeys| + |dKeys|
    {
      cKeys, cRem, dKeys, dRem, tx := SettleStep(cKeys, cRem, dKeys, dRem, tx);
    }
  }
}
