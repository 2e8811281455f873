/**
 The input records of the expense-splitting engine and the effect one expense
 has on one participant's balance.  Positive balances are owed money; negative
 balances owe money.  Amounts are exact reals.
 */
module Expenses {
  import opened KeyOrder

  type Participant = string
  type ExpenseId = string

  /** One entry of an expense's manual contributions object: who owes how much of it. */
  datatype Contribution = Contribution(participant: Participant, amount: real)

  /** How an expense is divided.  The source tests `splitEvenly` first and only then
      whether a `manualContributions` object is present; `Neither` is the record that
      has neither, which the engine skips.  The contributions keep the object's entry order. */
  datatype Split =
    | Evenly
    | Manual(contributions: seq<Contribution>)
    | Neither

  datatype Expense = Expense(
    id: ExpenseId,
    name: string,
    payer: Participant,
    amount: real,
    involved: seq<Participant>,
    split: Split)

  /** The participants named in the contributions. */
  function Contributors(cs: seq<Contribution>): set<Participant>
  {
    set i | 0 <= i < |cs| :: cs[i].participant
  }

  /** The balance entries the engine reads and writes while applying `e`;
      each must already exist, or the source computes NaN. */
  function Touches(e: Expense): set<Participant>
  {
    match e.split
    case Evenly => Members(e.involved) + {e.payer}
    case Manual(cs) => Contributors(cs) + {e.payer}
    case Neither => {}
  }

  /** How often `p` occurs in `s`. */
  function Count(s: seq<Participant>, p: Participant): nat
  {
    if s == [] then 0
    else Count(s[..|s| - 1], p) + (if s[|s| - 1] == p then 1 else 0)
  }

  /** What an even split charging `share` per occurrence takes from `p`. */
  function ShareCharge(s: seq<Participant>, p: Participant, share: real): real
  {
    if s == [] then 0.0
    else ShareCharge(s[..|s| - 1], p, share) + (if s[|s| - 1] == p then share else 0.0)
  }

  /** The even-split charge is the share times the number of occurrences. */
  lemma {:induction false} ShareChargeCount(s: seq<Participant>, p: Participant, share: real)
    ensures ShareCharge(s, p, share) == (Count(s, p) as real) * share
  {
    if s != [] {
      ShareChargeCount(s[..|s| - 1], p, share);
      var c := Count(s[..|s| - 1], p) as real;
      assert (c + 1.0) * share == c * share + share;
    }
  }

  /** The total an even split charges: `n` shares. */
  function SharesTotal(n: nat, share: real): real
  {
    if n == 0 then 0.0 else SharesTotal(n - 1, share) + share
  }

  /** `n` shares are `n` times the share. */
  lemma {:induction false} SharesTotalProduct(n: nat, share: real)
    ensures SharesTotal(n, share) == (n as real) * share
  {
    if n > 0 {
      SharesTotalProduct(n - 1, share);
      assert ((n - 1) as real + 1.0) * share == ((n - 1) as real) * share + share;
    }
  }

  /** The total contributed by `p` (every entry naming `p`). */
  function ContributionOf(cs: seq<Contribution>, p: Participant): real
  {
    if cs == [] then 0.0
    else
      var last := cs[|cs| - 1];
      ContributionOf(cs[..|cs| - 1], p) + (if last.participant == p then last.amount else 0.0)
  }

  /** The total of all contributions. */
  function ContributionTotal(cs: seq<Contribution>): real
  {
    if cs == [] then 0.0 else ContributionTotal(cs[..|cs| - 1]) + cs[|cs| - 1].amount
  }

  /** The amount charged to each involved participant of an even split.  With no one
      involved the source divides by zero, but the quotient is then never used. */
  function Share(e: Expense): real
  {
    if |e.involved| == 0 then 0.0 else e.amount / (|e.involved| as real)
  }

  /** What the payer is credited: the full amount. */
  function Credit(e: Expense, p: Participant): real
  {
    if p == e.payer then e.amount else 0.0
  }

  /** The change that `e` makes to the balance of `p`: the payer is credited the whole
      amount, and each involved participant (for an even split) or each contributor
      (for a manual split) is charged their part; an expense in neither mode changes nothing. */
  function Delta(e: Expense, p: Participant): real
  {
    match e.split
    case Evenly => Credit(e, p) - ShareCharge(e.involved, p, Share(e))
    case Manual(cs) => Credit(e, p) - ContributionOf(cs, p)
    case Neither => 0.0
  }

  /** The amount by which `e` changes the sum of all balances: what the payer is credited
      minus what is charged. */
  function Imbalance(e: Expense): real
  {
    match e.split
    case Evenly => e.amount - SharesTotal(|e.involved|, Share(e))
    case Manual(cs) => e.amount - ContributionTotal(cs)
    case Neither => 0.0
  }

  /** A participant's final balance: the sum of the changes made by all expenses. */
  function NetDelta(es: seq<Expense>, p: Participant): real
  {
    if es == [] then 0.0 else NetDelta(es[..|es| - 1], p) + Delta(es[|es| - 1], p)
  }

  /** The sum of all balances after all expenses. */
  function TotalImbalance(es: seq<Expense>): real
  {
    if es == [] then 0.0 else TotalImbalance(es[..|es| - 1]) + Imbalance(es[|es| - 1])
  }

  /** An even split over at least one participant conserves the total; a manual split
      conserves it exactly when the contributions add up to the amount. */
  lemma ImbalanceZero(e: Expense)
    ensures e.split.Evenly? && |e.involved| > 0 ==> Imbalance(e) == 0.0
    ensures e.split.Evenly? && |e.involved| == 0 ==> Imbalance(e) == e.amount
    ensures e.split.Manual? ==> (Imbalance(e) == 0.0 <==> ContributionTotal(e.split.contributions) == e.amount)
  {
    SharesTotalProduct(|e.involved|, Share(e));
  }

  /** A participant occurring once in a list is counted once. */
  lemma {:induction false} CountDistinct(s: seq<Participant>, p: Participant)
    requires Distinct(s)
    ensures Count(s, p) == if p in s then 1 else 0
  {
    if s != [] {
      var init := s[..|s| - 1];
      assert Distinct(init);
      assert s == init + [s[|s| - 1]];
      CountDistinct(init, p);
    }
  }

  /** An even split of `amount` over `n` distinct participants: a payer among them nets
      `amount * (n - 1) / n`, every other participant `-amount / n`, a payer outside them the
      whole amount, and everyone else 0. */
  lemma EvenSplitDeltas(e: Expense, p: Participant)
    requires e.split.Evenly? && Distinct(e.involved)
    ensures var n := |e.involved| as real;
      && (p == e.payer && p in e.involved ==> Delta(e, p) == e.amount * (n - 1.0) / n)
      && (p != e.payer && p in e.involved ==> Delta(e, p) == -(e.amount / n))
      && (p == e.payer && p !in e.involved ==> Delta(e, p) == e.amount)
      && (p != e.payer && p !in e.involved ==> Delta(e, p) == 0.0)
  {
    CountDistinct(e.involved, p);
    ShareChargeCount(e.involved, p, Share(e));
  }

  /** The balances are additive over the expense list. */
  lemma {:induction false} NetDeltaConcat(a: seq<Expense>, b: seq<Expense>, p: Participant)
    ensures NetDelta(a + b, p) == NetDelta(a, p) + NetDelta(b, p)
    decreases |b|
  {
    if b == [] {
      assert a + b == a;
    } else {
      var b' := b[..|b| - 1];
      assert (a + b)[..|a + b| - 1] == a + b';
      NetDeltaConcat(a, b', p);
    }
  }

  /** The last expense of `a` occurs somewhere in any permutation `b` of `a`; taking it out of
      both leaves permutations of each other. */
  lemma PermutationSplit(a: seq<Expense>, b: seq<Expense>) returns (i: nat)
    requires a != [] && multiset(a) == multiset(b)
    ensures i < |b| && b[i] == a[|a| - 1]
    ensures multiset(a[..|a| - 1]) == multiset(b[..i] + b[i + 1..])
  {
    var a', x := a[..|a| - 1], a[|a| - 1];
    assert a == a' + [x];
    assert x in multiset(b);
    i :| 0 <= i < |b| && b[i] == x;
    var b1, b2 := b[..i], b[i + 1..];
    assert b == b1 + [x] + b2;
    assert multiset(a') == multiset(a) - multiset{x};
    assert multiset(b1 + b2) == multiset(b) - multiset{x};
  }

  /** The balances do not depend on the order of the expenses. */
  lemma {:induction false} NetDeltaPermutation(a: seq<Expense>, b: seq<Expense>, p: Participant)
    requires multiset(a) == multiset(b)
    ensures NetDelta(a, p) == NetDelta(b, p)
    decreases |a|
  {
    if a == [] {
      assert |b| == |multiset(b)| == 0;
    } else {
      var i := PermutationSplit(a, b);
      var x := a[|a| - 1];
      var b1, b2 := b[..i], b[i + 1..];
      assert b == (b1 + [x]) + b2;
      NetDeltaPermutation(a[..|a| - 1], b1 + b2, p);
      NetDeltaConcat(b1, b2, p);
      NetDeltaConcat(b1 + [x], b2, p);
      assert NetDelta(b1 + [x], p) == NetDelta(b1, p) + Delta(x, p) by {
        assert (b1 + [x])[..|b1|] == b1;
      }
    }
  }
}
