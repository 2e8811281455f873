/**
 Settlement of one expense on its own: balances local to the expense, the split of
 its participants into creditors and debtors, and the greedy loop that repeatedly
 matches the largest remaining creditor with the largest remaining debtor.
 */
module ExpenseSettler {
  import opened KeyOrder
  import opened MapSums
  import opened Expenses
  import opened Transactions
  import opened Pools
  import opened GreedySettle
  import BalanceCalculator

  /** A dictionary with an entry of 0 for each participant of `involved`, assigned in turn:
      a repeated name keeps its first place in the key order. */
  method ZeroBalances(involved: seq<Participant>) returns (keys: seq<Participant>, balances: map<Participant, real>)
    ensures keys == Dedup(involved)
    ensures balances.Keys == Members(involved)
    ensures forall p :: p in balances ==> balances[p] == 0.0
    ensures MapSum(balances) == 0.0
  {
    keys, balances := [], map[];
    var i := 0;
    while i < |involved|
      invariant 0 <= i <= |involved|
      invariant keys == Dedup(involved[..i])
      invariant forall q :: q in balances <==> q in involved[..i]
      invariant forall q :: q in balances ==> balances[q] == 0.0
    {
      var p := involved[i];
      ghost var prev := involved[..i];
      assert involved[..i + 1] == prev + [p];
      DedupSnoc(prev, p);
      if p !in balances {
        keys := keys + [p];
      }
      balances := balances[p := 0.0];
      i := i + 1;
    }
    assert involved[..i] == involved;
    MapSumZero(balances);
  }

  /** The entries an expense's local dictionary starts with: its involved participants and
      then its payer.  The source starts from the involved participants alone, which loses
      the payer's credit when the payer is not involved (see `WrittenSettlement`). */
  function LocalParticipants(e: Expense): seq<Participant>
  {
    e.involved + [e.payer]
  }

  /** The balances of one expense alone: each local participant starts at 0, then the
      expense is applied as in the global calculation.  Every contributor must be a local
      participant. */
  method LocalBalances(e: Expense) returns (keys: seq<Participant>, balances: map<Participant, real>)
    requires Touches(e) <= Members(LocalParticipants(e))
    ensures keys == Dedup(LocalParticipants(e))
    ensures Distinct(keys) && Members(keys) == balances.Keys
    ensures balances.Keys == Members(LocalParticipants(e))
    ensures forall p :: p in balances ==> balances[p] == Delta(e, p)
    ensures MapSum(balances) == Imbalance(e)
  {
    var zeros;
    keys, zeros := ZeroBalances(LocalParticipants(e));
    balances := BalanceCalculator.ApplyExpense(zeros, e);
    DedupSpec(LocalParticipants(e));
  }

  /** Whether a balance belongs on the creditor side (`positive`) or the debtor side. */
  predicate OnSide(balance: real, positive: bool)
  {
    if positive then balance > 0.0 else balance < 0.0
  }

  /** The amount a side stores for a balance: creditors as is, debtors its magnitude. */
  function Stored(balance: real, positive: bool): real
  {
    if positive then balance else -balance
  }

  /** One side of the partition of `keys`, as the partition loop builds it: each key whose
      balance lies on the side is appended, with its stored amount, in the order visited. */
  function SideOf(keys: seq<Participant>, balances: map<Participant, real>, positive: bool): Pool
  {
    if keys == [] then Pool([], map[])
    else
      var side := SideOf(keys[..|keys| - 1], balances, positive);
      var p := keys[|keys| - 1];
      var b := Lookup(balances, p);
      if OnSide(b, positive) then Pool(side.keys + [p], side.amounts[p := Stored(b, positive)])
      else side
  }

  /** A side holds exactly the keys whose balance lies on it, each with its stored amount. */
  lemma {:induction false} SideOfExact(keys: seq<Participant>, balances: map<Participant, real>, positive: bool)
    ensures var side := SideOf(keys, balances, positive);
      && (forall p :: p in side.amounts <==> p in keys && OnSide(Lookup(balances, p), positive))
      && (forall p :: p in side.amounts ==> side.amounts[p] == Stored(Lookup(balances, p), positive))
  {
    if keys != [] {
      var init := keys[..|keys| - 1];
      assert keys == init + [keys[|keys| - 1]];
      SideOfExact(init, balances, positive);
    }
  }

  /** Over distinct keys, a side's key order lists its keys once each, in the order of `keys`. */
  lemma {:induction false} SideOfOrder(keys: seq<Participant>, balances: map<Participant, real>, positive: bool)
    requires Distinct(keys)
    ensures WellKeyed(SideOf(keys, balances, positive))
    ensures Subsequence(SideOf(keys, balances, positive).keys, keys)
  {
    if keys != [] {
      var init, p := keys[..|keys| - 1], keys[|keys| - 1];
      assert keys == init + [p];
      assert Distinct(init) && p !in init;
      SideOfOrder(init, balances, positive);
      SideOfExact(init, balances, positive);
      var side := SideOf(init, balances, positive);
      var b := Lookup(balances, p);
      if OnSide(b, positive) {
        var joined := Pool(side.keys + [p], side.amounts[p := Stored(b, positive)]);
        assert SideOf(keys, balances, positive) == joined;
        DistinctSnoc(side.keys, p);
        assert joined.amounts.Keys == side.amounts.Keys + {p};
        SubsequenceBothSnoc(side.keys, init, p);
      } else {
        assert SideOf(keys, balances, positive) == side;
        SubsequenceSnoc(side.keys, init, p);
      }
    }
  }

  /** The balances of the keys visited. */
  function Visited(keys: seq<Participant>, balances: map<Participant, real>): map<Participant, real>
  {
    if keys == [] then map[]
    else
      var p := keys[|keys| - 1];
      Visited(keys[..|keys| - 1], balances)[p := Lookup(balances, p)]
  }

  /** The visited balances are those of the keys in `keys`. */
  lemma {:induction false} VisitedExact(keys: seq<Participant>, balances: map<Participant, real>)
    ensures forall p :: p in Visited(keys, balances) <==> p in keys
    ensures forall p :: p in Visited(keys, balances) ==> Visited(keys, balances)[p] == Lookup(balances, p)
  {
    if keys != [] {
      var init := keys[..|keys| - 1];
      assert keys == init + [keys[|keys| - 1]];
      VisitedExact(init, balances);
    }
  }

  /** Visiting one more, new key adds its stored amount to the total of the side it lies on. */
  lemma SideTotalSnoc(keys: seq<Participant>, balances: map<Participant, real>, positive: bool)
    requires keys != [] && keys[|keys| - 1] !in keys[..|keys| - 1]
    ensures var init, b := keys[..|keys| - 1], Lookup(balances, keys[|keys| - 1]);
      MapSum(SideOf(keys, balances, positive).amounts)
        == MapSum(SideOf(init, balances, positive).amounts) + (if OnSide(b, positive) then Stored(b, positive) else 0.0)
  {
    var init, p := keys[..|keys| - 1], keys[|keys| - 1];
    SideOfExact(init, balances, positive);
    var b := Lookup(balances, p);
    if OnSide(b, positive) {
      MapSumUpdate(SideOf(init, balances, positive).amounts, p, Stored(b, positive));
    }
  }

  /** Over distinct keys, the creditors' total minus the debtors' total is the total balance. */
  lemma {:induction false} SidesTotal(keys: seq<Participant>, balances: map<Participant, real>)
    requires Distinct(keys)
    ensures MapSum(SideOf(keys, balances, true).amounts) - MapSum(SideOf(keys, balances, false).amounts)
         == MapSum(Visited(keys, balances))
  {
    if keys == [] {
      assert Visited(keys, balances) == map[];
    } else {
      var init, p := keys[..|keys| - 1], keys[|keys| - 1];
      assert keys == init + [p];
      assert Distinct(init) && p !in init;
      SidesTotal(init, balances);
      SideTotalSnoc(keys, balances, true);
      SideTotalSnoc(keys, balances, false);
      VisitedExact(init, balances);
      MapSumUpdate(Visited(init, balances), p, Lookup(balances, p));
    }
  }

  /** The creditors of a balance dictionary: the positive balances. */
  function Credits(balances: map<Participant, real>): map<Participant, real>
  {
    map p | p in balances && balances[p] > 0.0 :: balances[p]
  }

  /** The debtors of a balance dictionary, with the magnitude of their negative balance. */
  function Debts(balances: map<Participant, real>): map<Participant, real>
  {
    map p | p in balances && balances[p] < 0.0 :: -balances[p]
  }

  /** Over all of its keys, the creditor side of a balance dictionary is its creditors. */
  lemma CreditSide(keys: seq<Participant>, balances: map<Participant, real>)
    requires Members(keys) == balances.Keys
    ensures SideOf(keys, balances, true).amounts == Credits(balances)
  {
    SideOfExact(keys, balances, true);
    var side, credits := SideOf(keys, balances, true).amounts, Credits(balances);
    assert side.Keys == credits.Keys by {
      forall p ensures p in side <==> p in credits {
        assert p in keys <==> p in balances;
      }
    }
  }

  /** Over all of its keys, the debtor side of a balance dictionary is its debtors. */
  lemma DebtSide(keys: seq<Participant>, balances: map<Participant, real>)
    requires Members(keys) == balances.Keys
    ensures SideOf(keys, balances, false).amounts == Debts(balances)
  {
    SideOfExact(keys, balances, false);
    var side, debts := SideOf(keys, balances, false).amounts, Debts(balances);
    assert side.Keys == debts.Keys by {
      forall p ensures p in side <==> p in debts {
        assert p in keys <==> p in balances;
      }
    }
    forall p | p in side ensures side[p] == debts[p] {
      assert side[p] == -balances[p];
    }
  }

  /** The sides of the partition of a balance dictionary, over its distinct keys, are exactly
      its creditors and its debtors, each listed once in the order of `keys`; nobody is on
      both sides, and the creditors' total minus the debtors' total is the total balance. */
  lemma SidesOf(keys: seq<Participant>, balances: map<Participant, real>)
    requires Distinct(keys) && Members(keys) == balances.Keys
    ensures var credits, debts := SideOf(keys, balances, true), SideOf(keys, balances, false);
      && credits.amounts == Credits(balances) && debts.amounts == Debts(balances)
      && credits.amounts.Keys !! debts.amounts.Keys
      && WellKeyed(credits) && WellKeyed(debts)
      && Subsequence(credits.keys, keys) && Subsequence(debts.keys, keys)
      && MapSum(credits.amounts) - MapSum(debts.amounts) == MapSum(balances)
  {
    CreditSide(keys, balances);
    DebtSide(keys, balances);
    SideOfOrder(keys, balances, true);
    SideOfOrder(keys, balances, false);
    SidesTotal(keys, balances);
    VisitedExact(keys, balances);
    assert Visited(keys, balances) == balances;
  }

  /** Splits local balances into creditors (positive balance, stored as is) and debtors
      (negative balance, stored as its magnitude), visiting the keys in order; a zero balance
      goes to neither.  Both key orders keep the order of `keys`, the two sides share nobody,
      and their totals differ by the total balance. */
  method Partition(keys: seq<Participant>, balances: map<Participant, real>) returns (creditors: Pool, debtors: Pool)
    requires Distinct(keys) && Members(keys) == balances.Keys
    ensures creditors == SideOf(keys, balances, true) && debtors == SideOf(keys, balances, false)
    ensures creditors.amounts == Credits(balances) && debtors.amounts == Debts(balances)
    ensures creditors.amounts.Keys !! debtors.amounts.Keys
    ensures WellKeyed(creditors) && WellKeyed(debtors)
    ensures Subsequence(creditors.keys, keys) && Subsequence(debtors.keys, keys)
    ensures MapSum(creditors.amounts) - MapSum(debtors.amounts) == MapSum(balances)
  {
    var creditorKeys, positive, debtorKeys, negative := [], map[], [], map[];
    var i := 0;
    while i < |keys|
      invariant 0 <= i <= |keys|
      invariant Pool(creditorKeys, positive) == SideOf(keys[..i], balances, true)
      invariant Pool(debtorKeys, negative) == SideOf(keys[..i], balances, false)
    {
      var p := keys[i];
      assert keys[..i + 1][..i] == keys[..i];
      var balance := balances[p];
      if balance > 0.0 {
        creditorKeys, positive := creditorKeys + [p], positive[p := balance];
      } else if balance < 0.0 {
        debtorKeys, negative := debtorKeys + [p], negative[p := -balance];
      }
      i := i + 1;
    }
    assert keys[..i] == keys;
    creditors, debtors := Pool(creditorKeys, positive), Pool(debtorKeys, negative);
    SidesOf(keys, balances);
  }

  /** What one expense changes for each participant of `keys`. */
  function BalancesOver(keys: seq<Participant>, e: Expense): map<Participant, real>
  {
    map p | p in Members(keys) :: Delta(e, p)
  }

  /** The greedy loop run on the two sides of the balances of `e` over `keys`, partitioned in
      the order in which `keys` first names each participant. */
  function SettlementOver(keys: seq<Participant>, e: Expense): Transactions
  {
    var order, balances := Dedup(keys), BalancesOver(keys, e);
    DedupSpec(keys);
    SideOfOrder(order, balances, true);
    SideOfOrder(order, balances, false);
    Run(Start(SideOf(order, balances, true), SideOf(order, balances, false))).tx
  }

  /** Whatever the keys, the settlement settles the local creditors against the local debtors
      with every guarantee of the greedy loop. */
  lemma SettlementOverSettles(keys: seq<Participant>, e: Expense)
    ensures SettlesSides(Credits(BalancesOver(keys, e)), Debts(BalancesOver(keys, e)), SettlementOver(keys, e))
  {
    var order, balances := Dedup(keys), BalancesOver(keys, e);
    DedupSpec(keys);
    SidesOf(order, balances);
    RunSettles(SideOf(order, balances, true), SideOf(order, balances, false));
  }

  /** Every transfer of the settlement over `keys` goes from a participant of `keys` whom the
      expense charges to one whom it credits. */
  lemma SettlementOverParties(keys: seq<Participant>, e: Expense)
    ensures forall d, c :: HasPair(SettlementOver(keys, e), d, c) ==>
      d in keys && c in keys && Delta(e, d) < 0.0 && Delta(e, c) > 0.0
  {
    var balances, tx := BalancesOver(keys, e), SettlementOver(keys, e);
    SettlementOverSettles(keys, e);
    forall d, c | HasPair(tx, d, c) ensures d in keys && c in keys && Delta(e, d) < 0.0 && Delta(e, c) > 0.0 {
      assert d in Debts(balances) && c in Credits(balances);
      assert d in Members(keys) && c in Members(keys);
    }
  }

  /** The settlement of one expense as the source computes it: local entries only for the
      involved participants.  A payer who is not involved gets an entry only through
      `+= amount` on a missing key, which is NaN; the partition tests `> 0` and `< 0` are both
      false on NaN, so the payer's credit is dropped, exactly as if the entry did not exist. */
  function WrittenSettlement(e: Expense): (r: Transactions)
    ensures forall d, c :: HasPair(r, d, c) ==>
      d in e.involved && c in e.involved && Delta(e, d) < 0.0 && Delta(e, c) > 0.0
    ensures e.payer !in e.involved ==> forall d :: d in r ==> e.payer !in r[d]
  {
    SettlementOverParties(e.involved, e);
    var r := SettlementOver(e.involved, e);
    assert forall d :: d in r ==> !HasPair(r, d, e.payer) || e.payer in e.involved;
    r
  }

  /** The local balances of one expense: what it changes for each local participant. */
  function LocalBalanceMap(e: Expense): map<Participant, real>
  {
    BalancesOver(LocalParticipants(e), e)
  }

  /** The settlement of one expense with the payer's entry included. */
  function ExpenseSettlement(e: Expense): (r: Transactions)
    ensures forall d, c :: HasPair(r, d, c) ==>
      d in LocalParticipants(e) && c in LocalParticipants(e) && Delta(e, d) < 0.0 && Delta(e, c) > 0.0
  {
    SettlementOverParties(LocalParticipants(e), e);
    SettlementOver(LocalParticipants(e), e)
  }

  /** The settlement of an expense settles its local creditors against its local debtors. */
  lemma ExpenseSettlementSettles(e: Expense)
    ensures SettlesSides(Credits(LocalBalanceMap(e)), Debts(LocalBalanceMap(e)), ExpenseSettlement(e))
  {
    SettlementOverSettles(LocalParticipants(e), e);
  }

  /** When the payer is involved, including the payer's entry changes nothing: the settlement
      is the one the source computes. */
  lemma WrittenAgrees(e: Expense)
    requires e.payer in e.involved
    ensures ExpenseSettlement(e) == WrittenSettlement(e)
  {
    DedupSnoc(e.involved, e.payer);
    MembersSnoc(e.involved, e.payer);
    assert BalancesOver(LocalParticipants(e), e) == BalancesOver(e.involved, e);
  }

  /** An even split of 60 paid by A between B and C, A not involved. */
  const PayerNotInvolved: Expense := Expense("e1", "dinner", "A", 60.0, ["B", "C"], Evenly)

  /** As written, B and C are charged 30 each and the payer has no entry. */
  lemma WrittenBalances()
    ensures BalancesOver(PayerNotInvolved.involved, PayerNotInvolved) == map["B" := -30.0, "C" := -30.0]
  {
    var e := PayerNotInvolved;
    assert Share(e) == 30.0;
    assert e.involved[..1] == ["B"] && ["B"][..0] == [];
    assert ShareCharge(e.involved, "B", 30.0) == 30.0;
    assert ShareCharge(e.involved, "C", 30.0) == 30.0;
    assert Members(e.involved) == {"B", "C"};
  }

  /** With nobody owed anything, the settlement is empty. */
  lemma NoCreditorsNoSettlement(keys: seq<Participant>, e: Expense)
    requires Credits(BalancesOver(keys, e)) == map[]
    ensures SettlementOver(keys, e) == map[]
  {
    SettlementOverSettles(keys, e);
    var tx := SettlementOver(keys, e);
    forall d | d in tx ensures false {
      var c :| c in tx[d];
      assert HasPair(tx, d, c);
    }
  }

  /** As written, nobody is a creditor of that expense, so its settlement is empty although
      B and C each owe 30. */
  lemma WrittenLosesPayer()
    ensures Debts(BalancesOver(PayerNotInvolved.involved, PayerNotInvolved)) == map["B" := 30.0, "C" := 30.0]
    ensures WrittenSettlement(PayerNotInvolved) == map[]
  {
    var e := PayerNotInvolved;
    var b := map["B" := -30.0, "C" := -30.0];
    WrittenBalances();
    assert forall p :: p in b ==> b[p] < 0.0;
    assert Credits(b) == map[];
    var owed, debts := map["B" := 30.0, "C" := 30.0], Debts(b);
    assert debts.Keys == owed.Keys;
    assert debts["B"] == 30.0 && debts["C"] == 30.0;
    assert debts == owed;
    NoCreditorsNoSettlement(e.involved, e);
  }

  /** With the payer's entry included, A is owed 60 and B and C owe 30 each. */
  lemma LocalBalancesWithPayer()
    ensures LocalBalanceMap(PayerNotInvolved) == map["B" := -30.0, "C" := -30.0, "A" := 60.0]
  {
    var e := PayerNotInvolved;
    assert Share(e) == 30.0;
    assert e.involved[..1] == ["B"] && ["B"][..0] == [];
    assert ShareCharge(e.involved, "A", 30.0) == 0.0;
    assert ShareCharge(e.involved, "B", 30.0) == 30.0;
    assert ShareCharge(e.involved, "C", 30.0) == 30.0;
    assert Members(LocalParticipants(e)) == {"B", "C", "A"};
  }

  /** With the payer's entry included, A is the one creditor of that expense. */
  lemma CreditorWithPayer()
    ensures Credits(LocalBalanceMap(PayerNotInvolved)) == map["A" := 60.0]
  {
    var b := map["B" := -30.0, "C" := -30.0, "A" := 60.0];
    LocalBalancesWithPayer();
    var owed, credits := map["A" := 60.0], Credits(b);
    assert credits.Keys == owed.Keys && credits["A"] == 60.0;
    assert credits == owed;
  }

  /** With the payer's entry included, B and C are the debtors of that expense. */
  lemma DebtorsWithPayer()
    ensures Debts(LocalBalanceMap(PayerNotInvolved)) == map["B" := 30.0, "C" := 30.0]
  {
    var b := map["B" := -30.0, "C" := -30.0, "A" := 60.0];
    LocalBalancesWithPayer();
    var owing, debts := map["B" := 30.0, "C" := 30.0], Debts(b);
    forall p ensures p in debts <==> p in owing {
      assert p in b ==> p == "A" || p == "B" || p == "C";
    }
    forall p | p in debts ensures debts[p] == owing[p] {
      assert p == "B" || p == "C";
    }
  }

  /** Both sides of that expense hold 60. */
  lemma SixtyEachSide()
    ensures MapSum(map["A" := 60.0]) == 60.0
    ensures MapSum(map["B" := 30.0, "C" := 30.0]) == 60.0
  {
    var none: map<Participant, real> := map[];
    MapSumZero(none);
    MapSumUpdate(none, "A", 60.0);
    MapSumUpdate(none, "B", 30.0);
    MapSumUpdate(map["B" := 30.0], "C", 30.0);
  }

  /** With the payer's entry included, the same expense is settled in full: B and C each pay
      their 30 and A receives 60. */
  lemma SettlementPaysPayer()
    ensures Paid(ExpenseSettlement(PayerNotInvolved), "B") == 30.0
    ensures Paid(ExpenseSettlement(PayerNotInvolved), "C") == 30.0
    ensures Received(ExpenseSettlement(PayerNotInvolved), "A") == 60.0
  {
    CreditorWithPayer();
    DebtorsWithPayer();
    SixtyEachSide();
    ExpenseSettlementSettles(PayerNotInvolved);
  }

  /** The settlement of one expense: local balances, partition, greedy matching.  The local
      balances add up to the expense's imbalance, so for a balanced expense the creditors'
      and the debtors' totals are equal and everybody involved ends settled. */
  method SettleExpense(e: Expense) returns (tx: Transactions)
    requires Touches(e) <= Members(LocalParticipants(e))
    ensures tx == ExpenseSettlement(e)
    ensures SettlesSides(Credits(LocalBalanceMap(e)), Debts(LocalBalanceMap(e)), tx)
    ensures MapSum(Credits(LocalBalanceMap(e))) - MapSum(Debts(LocalBalanceMap(e))) == Imbalance(e)
    ensures Imbalance(e) == 0.0 ==>
      && (forall c :: c in Credits(LocalBalanceMap(e)) ==> Received(tx, c) == Credits(LocalBalanceMap(e))[c])
      && (forall d :: d in Debts(LocalBalanceMap(e)) ==> Paid(tx, d) == Debts(LocalBalanceMap(e))[d])
  {
    var keys, balances := LocalBalances(e);
    assert balances == LocalBalanceMap(e);
    var creditors, debtors := Partition(keys, balances);
    tx := Settle(creditors, debtors);
    ExpenseSettlementSettles(e);
  }
}
