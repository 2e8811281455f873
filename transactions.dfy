/**
 A settlement: a nested dictionary debtor -> creditor -> amount, as kept both
 per expense and in the summary, with the one update the engine performs on it.
 */
module Transactions {
  import opened MapSums
  import opened Expenses

  type Transactions = map<Participant, map<Participant, real>>

  /** The amount recorded from `d` to `c`; an absent entry counts as 0. */
  function Get(tx: Transactions, d: Participant, c: Participant): real
  {
    if d in tx && c in tx[d] then tx[d][c] else 0.0
  }

  /** Whether an entry from `d` to `c` exists. */
  predicate HasPair(tx: Transactions, d: Participant, c: Participant)
  {
    d in tx && c in tx[d]
  }

  /** The creditors of `d`, or an empty dictionary. */
  function Row(tx: Transactions, d: Participant): map<Participant, real>
  {
    if d in tx then tx[d] else map[]
  }

  /** Every debtor entry holds at least one creditor: the engine only creates a debtor's
      dictionary just before adding to it. */
  predicate NoEmptyRows(tx: Transactions)
  {
    forall d :: d in tx ==> tx[d] != map[]
  }

  /** Adds `amount` to the entry from `d` to `c`, creating the debtor's dictionary and the
      entry (as 0) first when they are missing. */
  function Record(tx: Transactions, d: Participant, c: Participant, amount: real): (r: Transactions)
    ensures Get(r, d, c) == Get(tx, d, c) + amount
    ensures forall d', c' :: (d', c') != (d, c) ==> Get(r, d', c') == Get(tx, d', c')
    ensures forall d', c' :: HasPair(r, d', c') <==> HasPair(tx, d', c') || (d', c') == (d, c)
    ensures r.Keys == tx.Keys + {d}
    ensures NoEmptyRows(tx) ==> NoEmptyRows(r)
  {
    tx[d := Row(tx, d)[c := Get(tx, d, c) + amount]]
  }

  /** The debtors of `c` with what each sends to `c`. */
  function Column(tx: Transactions, c: Participant): map<Participant, real>
  {
    map d | d in tx && c in tx[d] :: tx[d][c]
  }

  /** The total `d` pays. */
  ghost function Paid(tx: Transactions, d: Participant): real
  {
    MapSum(Row(tx, d))
  }

  /** The total `c` receives. */
  ghost function Received(tx: Transactions, c: Participant): real
  {
    MapSum(Column(tx, c))
  }

  /** What each debtor pays in all. */
  ghost function RowTotals(tx: Transactions): map<Participant, real>
  {
    map d | d in tx :: MapSum(tx[d])
  }

  /** The total amount transferred. */
  ghost function TotalSettled(tx: Transactions): real
  {
    MapSum(RowTotals(tx))
  }

  /** Recording `amount` from `d` to `c` adds `amount` to what `d` pays and changes no other
      debtor's total. */
  lemma RecordPaid(tx: Transactions, d: Participant, c: Participant, amount: real)
    ensures Paid(Record(tx, d, c, amount), d) == Paid(tx, d) + amount
    ensures forall d' :: d' != d ==> Paid(Record(tx, d, c, amount), d') == Paid(tx, d')
  {
    var v := Get(tx, d, c) + amount;
    assert Row(Record(tx, d, c, amount), d) == Row(tx, d)[c := v];
    assert Lookup(Row(tx, d), c) == Get(tx, d, c);
    MapSumUpdate(Row(tx, d), c, v);
  }

  /** Recording from `d` to `c` sets `d`'s entry in `c`'s column and leaves other columns alone. */
  lemma RecordColumns(tx: Transactions, d: Participant, c: Participant, amount: real)
    ensures Column(Record(tx, d, c, amount), c) == Column(tx, c)[d := Get(tx, d, c) + amount]
    ensures forall c' :: c' != c ==> Column(Record(tx, d, c, amount), c') == Column(tx, c')
  {
    var r := Record(tx, d, c, amount);
    var after, before := Column(r, c), Column(tx, c)[d := Get(tx, d, c) + amount];
    forall d' ensures d' in after <==> d' in before {
      assert d' in after <==> HasPair(r, d', c);
      assert d' in Column(tx, c) <==> HasPair(tx, d', c);
    }
    forall d' | d' in after ensures after[d'] == before[d'] {
      assert after[d'] == Get(r, d', c);
    }
    forall c' | c' != c ensures Column(r, c') == Column(tx, c') {
      var x, y := Column(r, c'), Column(tx, c');
      forall d' ensures d' in x <==> d' in y {
        assert d' in x <==> HasPair(r, d', c');
        assert d' in y <==> HasPair(tx, d', c');
      }
      forall d' | d' in x ensures x[d'] == y[d'] {
        assert x[d'] == Get(r, d', c');
      }
    }
  }

  /** Recording `amount` from `d` to `c` adds `amount` to what `c` receives and changes no
      other creditor's total. */
  lemma RecordReceived(tx: Transactions, d: Participant, c: Participant, amount: real)
    ensures Received(Record(tx, d, c, amount), c) == Received(tx, c) + amount
    ensures forall c' :: c' != c ==> Received(Record(tx, d, c, amount), c') == Received(tx, c')
  {
    RecordColumns(tx, d, c, amount);
    assert Lookup(Column(tx, c), d) == Get(tx, d, c);
    MapSumUpdate(Column(tx, c), d, Get(tx, d, c) + amount);
  }

  /** Recording `amount` adds `amount` to the total transferred. */
  lemma RecordSettled(tx: Transactions, d: Participant, c: Participant, amount: real)
    ensures TotalSettled(Record(tx, d, c, amount)) == TotalSettled(tx) + amount
  {
    var r := Record(tx, d, c, amount);
    RecordPaid(tx, d, c, amount);
    assert RowTotals(r) == RowTotals(tx)[d := Paid(tx, d) + amount];
    assert Lookup(RowTotals(tx), d) == Paid(tx, d);
    MapSumUpdate(RowTotals(tx), d, Paid(tx, d) + amount);
  }

  /** Recording `amount` from `d` to `c` adds `amount` to what `d` pays, to what `c`
      receives and to the total, and changes no other debtor's or creditor's total. */
  lemma RecordTotals(tx: Transactions, d: Participant, c: Participant, amount: real)
    ensures Paid(Record(tx, d, c, amount), d) == Paid(tx, d) + amount
    ensures forall d' :: d' != d ==> Paid(Record(tx, d, c, amount), d') == Paid(tx, d')
    ensures Received(Record(tx, d, c, amount), c) == Received(tx, c) + amount
    ensures forall c' :: c' != c ==> Received(Record(tx, d, c, amount), c') == Received(tx, c')
    ensures TotalSettled(Record(tx, d, c, amount)) == TotalSettled(tx) + amount
  {
    RecordPaid(tx, d, c, amount);
    RecordReceived(tx, d, c, amount);
    RecordSettled(tx, d, c, amount);
  }

  /** A settlement without empty debtor dictionaries is determined by its entries and their
      amounts; so any two computations that agree on those agree entirely. */
  lemma Determined(a: Transactions, b: Transactions)
    requires NoEmptyRows(a) && NoEmptyRows(b)
    requires forall d, c :: HasPair(a, d, c) <==> HasPair(b, d, c)
    requires forall d, c :: Get(a, d, c) == Get(b, d, c)
    ensures a == b
  {
    forall d | d in a ensures d in b {
      var c :| c in a[d];
      assert HasPair(a, d, c);
    }
    forall d | d in b ensures d in a {
      var c :| c in b[d];
      assert HasPair(b, d, c);
    }
    forall d | d in a ensures a[d] == b[d] {
      forall c | c in a[d] ensures c in b[d] && a[d][c] == b[d][c] {
        assert HasPair(a, d, c);
        assert Get(a, d, c) == Get(b, d, c);
      }
      forall c | c in b[d] ensures c in a[d] {
        assert HasPair(b, d, c);
      }
    }
  }
}
