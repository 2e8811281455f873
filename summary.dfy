/**
 The summary of all settlements: every per-expense entry from a debtor to a creditor
 is added into one debtor -> creditor dictionary. The source walks the expenses'
 settlements and their entries in the objects' key order; addition of exact amounts does
 not depend on that order, so the walk is modelled by picking any key not yet visited.
 */
module Summary {
  import opened MapSums
  import opened Expenses
  import opened Transactions

  /** The settlement of each expense, by expense id. */
  type ByExpense = map<ExpenseId, Transactions>

  /** What `d` sends to `c` in each expense's settlement. */
  function PairColumn(byExpense: ByExpense, d: Participant, c: Participant): map<ExpenseId, real>
  {
    map id | id in byExpense :: Get(byExpense[id], d, c)
  }

  /** What `d` sends to `c` over all expenses. */
  ghost function PairTotal(byExpense: ByExpense, d: Participant, c: Participant): real
  {
    MapSum(PairColumn(byExpense, d, c))
  }

  /** Whether some expense's settlement has an entry from `d` to `c`. */
  ghost predicate AnyPair(byExpense: ByExpense, d: Participant, c: Participant)
  {
    exists id :: id in byExpense && HasPair(byExpense[id], d, c)
  }

  /** The total each expense's settlement transfers. */
  ghost function SettledBy(byExpense: ByExpense): map<ExpenseId, real>
  {
    map id | id in byExpense :: TotalSettled(byExpense[id])
  }

  /** `summary` holds, for every pair that occurs in some settlement, the sum of that pair's
      entries over all settlements, and nothing else. */
  ghost predicate Summarizes(summary: Transactions, byExpense: ByExpense)
  {
    && NoEmptyRows(summary)
    && (forall d, c :: HasPair(summary, d, c) <==> AnyPair(byExpense, d, c))
    && (forall d, c :: Get(summary, d, c) == PairTotal(byExpense, d, c))
  }

  /** There is only one summary of a given collection of settlements, so the order in which
      the source visits the settlements and their entries does not matter. */
  lemma SummaryUnique(a: Transactions, b: Transactions, byExpense: ByExpense)
    requires Summarizes(a, byExpense) && Summarizes(b, byExpense)
    ensures a == b
  {
    Determined(a, b);
  }

  /** Adding one more expense's settlement adds its entry to every pair's total. */
  lemma AddExpensePairs(byExpense: ByExpense, id: ExpenseId, tx: Transactions)
    requires id !in byExpense
    ensures forall d, c :: PairTotal(byExpense[id := tx], d, c) == PairTotal(byExpense, d, c) + Get(tx, d, c)
    ensures forall d, c :: AnyPair(byExpense[id := tx], d, c) <==> AnyPair(byExpense, d, c) || HasPair(tx, d, c)
  {
    var more := byExpense[id := tx];
    forall d, c ensures PairTotal(more, d, c) == PairTotal(byExpense, d, c) + Get(tx, d, c) {
      var before, after := PairColumn(byExpense, d, c), PairColumn(more, d, c);
      assert after.Keys == before.Keys + {id};
      assert after == before[id := Get(tx, d, c)];
      MapSumUpdate(before, id, Get(tx, d, c));
    }
    forall d, c ensures AnyPair(more, d, c) <==> AnyPair(byExpense, d, c) || HasPair(tx, d, c) {
      if AnyPair(more, d, c) {
        var j :| j in more && HasPair(more[j], d, c);
        if j != id {
          assert j in byExpense && HasPair(byExpense[j], d, c);
        }
      }
      if HasPair(tx, d, c) {
        assert id in more && HasPair(more[id], d, c);
      }
      if AnyPair(byExpense, d, c) {
        var j :| j in byExpense && HasPair(byExpense[j], d, c);
        assert j in more && HasPair(more[j], d, c);
      }
    }
  }

  /** Adding one more expense's settlement adds its total to the overall total. */
  lemma AddExpenseTotal(byExpense: ByExpense, id: ExpenseId, tx: Transactions)
    requires id !in byExpense
    ensures MapSum(SettledBy(byExpense[id := tx])) == MapSum(SettledBy(byExpense)) + TotalSettled(tx)
  {
    var before, after := SettledBy(byExpense), SettledBy(byExpense[id := tx]);
    assert after.Keys == before.Keys + {id};
    assert after == before[id := TotalSettled(tx)];
    MapSumUpdate(before, id, TotalSettled(tx));
  }

  /** `result` is `summary` with the creditor amounts `part` added to debtor `d`'s entries. */
  ghost predicate RowAdded(result: Transactions, summary: Transactions, d: Participant, part: map<Participant, real>)
  {
    && (forall d', c :: Get(result, d', c) == Get(summary, d', c) + (if d' == d then Lookup(part, c) else 0.0))
    && (forall d', c :: HasPair(result, d', c) <==> HasPair(summary, d', c) || (d' == d && c in part))
    && (NoEmptyRows(summary) ==> NoEmptyRows(result))
    && TotalSettled(result) == TotalSettled(summary) + MapSum(part)
  }

  /** Recording one more creditor's amount for `d` adds that entry. */
  lemma RowAddedStep(result: Transactions, summary: Transactions, d: Participant,
                     part: map<Participant, real>, c: Participant, v: real)
    requires RowAdded(result, summary, d, part) && c !in part
    ensures RowAdded(Record(result, d, c, v), summary, d, part[c := v])
  {
    RecordSettled(result, d, c, v);
    MapSumUpdate(part, c, v);
  }

  /** `result` is `summary` with every entry of `part` added. */
  ghost predicate Added(result: Transactions, summary: Transactions, part: Transactions)
  {
    && (forall d, c :: Get(result, d, c) == Get(summary, d, c) + Get(part, d, c))
    && (forall d, c :: HasPair(result, d, c) <==> HasPair(summary, d, c) || HasPair(part, d, c))
    && (NoEmptyRows(summary) ==> NoEmptyRows(result))
    && TotalSettled(result) == TotalSettled(summary) + TotalSettled(part)
  }

  /** Adding a debtor's dictionary to a partial settlement adds its entries and nothing else. */
  lemma AddRowEntries(tx: Transactions, d: Participant, row: map<Participant, real>)
    requires d !in tx
    ensures forall d', c :: Get(tx[d := row], d', c) == Get(tx, d', c) + (if d' == d then Lookup(row, c) else 0.0)
    ensures forall d', c :: HasPair(tx[d := row], d', c) <==> HasPair(tx, d', c) || (d' == d && c in row)
  {
    forall d', c ensures HasPair(tx[d := row], d', c) <==> HasPair(tx, d', c) || (d' == d && c in row) {
      assert !HasPair(tx, d, c);
    }
  }

  /** Adding a debtor's dictionary raises the total of the debtors' totals by its sum. */
  lemma AddRowTotal(tx: Transactions, d: Participant, row: map<Participant, real>)
    requires d !in tx
    ensures TotalSettled(tx[d := row]) == TotalSettled(tx) + MapSum(row)
  {
    assert RowTotals(tx[d := row]) == RowTotals(tx)[d := MapSum(row)];
    MapSumUpdate(RowTotals(tx), d, MapSum(row));
  }

  /** Adding one more debtor's dictionary adds its entries. */
  lemma AddedStep(result: Transactions, next: Transactions, summary: Transactions,
                  part: Transactions, d: Participant, row: map<Participant, real>)
    requires Added(result, summary, part) && d !in part
    requires RowAdded(next, result, d, row)
    ensures Added(next, summary, part[d := row])
  {
    var more := part[d := row];
    AddRowTotal(part, d, row);
    AddRowEntries(part, d, row);
    forall d', c ensures Get(next, d', c) == Get(summary, d', c) + Get(more, d', c) {
      assert Get(next, d', c) == Get(result, d', c) + (if d' == d then Lookup(row, c) else 0.0);
      assert Get(result, d', c) == Get(summary, d', c) + Get(part, d', c);
    }
    forall d', c ensures HasPair(next, d', c) <==> HasPair(summary, d', c) || HasPair(more, d', c) {
      assert HasPair(next, d', c) <==> HasPair(result, d', c) || (d' == d && c in row);
      assert HasPair(result, d', c) <==> HasPair(summary, d', c) || HasPair(part, d', c);
    }
  }

  /** `summary` sums the settlements in `done` and transfers their total. */
  ghost predicate Aggregated(summary: Transactions, done: ByExpense)
  {
    Summarizes(summary, done) && TotalSettled(summary) == MapSum(SettledBy(done))
  }

  /** Adding one more expense's settlement to the summary keeps it the summary. */
  lemma AggregatedStep(summary: Transactions, next: Transactions, done: ByExpense, id: ExpenseId, tx: Transactions)
    requires Aggregated(summary, done) && id !in done
    requires Added(next, summary, tx)
    ensures Aggregated(next, done[id := tx])
  {
    AddExpensePairs(done, id, tx);
    AddExpenseTotal(done, id, tx);
  }

  /** Adds every entry of `row`, the creditors of debtor `d`, into `summary`: the inner loop
      of the aggregation, creating the debtor's dictionary and each entry when missing. */
  method AddRow(summary: Transactions, d: Participant, row: map<Participant, real>)
    returns (result: Transactions)
    ensures forall d', c :: Get(result, d', c) == Get(summary, d', c) + (if d' == d then Lookup(row, c) else 0.0)
    ensures forall d', c :: HasPair(result, d', c) <==> HasPair(summary, d', c) || (d' == d && c in row)
    ensures NoEmptyRows(summary) ==> NoEmptyRows(result)
    ensures TotalSettled(result) == TotalSettled(summary) + MapSum(row)
  {
    result := summary;
    var pending := row.Keys;
    ghost var done: map<Participant, real> := map[];
    MapSumZero(done);
    assert forall c :: Lookup(done, c) == 0.0;
    while pending != {}
      invariant pending <= row.Keys
      invariant forall c :: c in done <==> c in row && c !in pending
      invariant forall c :: c in done ==> done[c] == row[c]
      invariant RowAdded(result, summary, d, done)
      decreases pending
    {
      var c :| c in pending;
      RowAddedStep(result, summary, d, done, c, row[c]);
      result := Record(result, d, c, row[c]);
      done := done[c := row[c]];
      pending := pending - {c};
    }
    assert done == row;
  }

  /** Adds every entry of one expense's settlement into `summary`: the middle loop of the
      aggregation. */
  method AddInto(summary: Transactions, tx: Transactions) returns (result: Transactions)
    ensures forall d, c :: Get(result, d, c) == Get(summary, d, c) + Get(tx, d, c)
    ensures forall d, c :: HasPair(result, d, c) <==> HasPair(summary, d, c) || HasPair(tx, d, c)
    ensures NoEmptyRows(summary) ==> NoEmptyRows(result)
    ensures TotalSettled(result) == TotalSettled(summary) + TotalSettled(tx)
  {
    result := summary;
    var pending := tx.Keys;
    ghost var done: Transactions := map[];
    assert RowTotals(done) == map[];
    MapSumZero(RowTotals(done));
    while pending != {}
      invariant pending <= tx.Keys
      invariant forall d :: d in done <==> d in tx && d !in pending
      invariant forall d :: d in done ==> done[d] == tx[d]
      invariant Added(result, summary, done)
      decreases pending
    {
      var d :| d in pending;
      var next := AddRow(result, d, tx[d]);
      AddedStep(result, next, summary, done, d, tx[d]);
      result := next;
      done := done[d := tx[d]];
      pending := pending - {d};
    }
    assert done == tx;
  }

  /** Lines up the settlements of all expenses into one summary: every pair's entry is the
      sum of that pair's entries over the expenses, exactly the pairs that occur in some
      settlement have an entry, and the summary transfers the total of all settlements. */
  method Aggregate(byExpense: ByExpense) returns (summary: Transactions)
    ensures Summarizes(summary, byExpense)
    ensures TotalSettled(summary) == MapSum(SettledBy(byExpense))
  {
    summary := map[];
    var pending := byExpense.Keys;
    ghost var done: ByExpense := map[];
    assert RowTotals(summary) == map[];
    MapSumZero(RowTotals(summary));
    MapSumZero(SettledBy(done));
    while pending != {}
      invariant pending <= byExpense.Keys
      invariant forall id :: id in done <==> id in byExpense && id !in pending
      invariant forall id :: id in done ==> done[id] == byExpense[id]
      invariant Aggregated(summary, done)
      decreases pending
    {
      var id :| id in pending;
      var next := AddInto(summary, byExpense[id]);
      AggregatedStep(summary, next, done, id, byExpense[id]);
      summary := next;
      done := done[id := byExpense[id]];
      pending := pending - {id};
    }
    assert done == byExpense;
  }
}
