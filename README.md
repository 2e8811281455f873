# Expense splitting engine

A Dafny model of the engine inside the `CalculationResults` component of a small
expense-splitting web application. The model proves properties of it. The engine has three
parts.

* **Balance calculation** (`calculateBalances`). Every participant starts at 0. Each expense
  either splits its amount evenly over its involved participants, or charges each manual
  contribution to its participant. Either way the payer is then credited the full amount. An
  expense in neither mode changes nothing.
* **Per-expense settlement** (inside `generateTransactionBreakdown`). Each expense gets local
  balances. These are split into creditors (positive balance) and debtors (the magnitude of a
  negative balance). A greedy loop then repeats one step: match the creditor with the most
  remaining against the debtor with the most remaining, record the smaller of the two amounts
  from the debtor to the creditor, lower both by it, and delete whichever reaches 0. The result
  is stored under the expense id, and a later expense with the same id replaces it.
* **Summary.** Every per-expense entry from a debtor to a creditor is added into one
  debtor → creditor dictionary.

The model's choices:

* Amounts are exact `real`s, so the source's `=== 0` deletion test means exactly 0.
* A JavaScript object used as a dictionary becomes a `map`. Where the key order matters, the
  order is kept beside the map as a `seq`:
  * `Dedup` gives the order of first assignment;
  * `Without` gives the order after `delete`.

  The order matters in one place: the tie-break of the `reduce` that picks the largest
  remaining amount. On a tie the later key wins (`Pools.MaxIndex`).
* Loops that work in place are methods with loop invariants:
  * the balance loops;
  * the partition;
  * the greedy loop, whose body is `GreedySettle.SettleStep`;
  * the three nested aggregation loops.

  Each method is proved against a pure specification:
  * the balance loops against `Expenses.Delta` and `Expenses.NetDelta`;
  * the partition against `ExpenseSettler.SideOf`;
  * the greedy loop against `GreedySettle.Step` and `GreedySettle.Run`;
  * the aggregation against `Summary.PairTotal`.

  What the source promises is proved about those specifications as lemmas.
* Sums over dictionaries (`MapSums.MapSum`) do not depend on any key order.

The source is TypeScript. The model follows the code as written, with one deliberate
exception: it includes the payer in each expense's local dictionary (see "## Findings"). Two
points where a plain reading of the code might suggest something else:

* the greedy picks break ties towards the later key;
* an amount is removed only when it is exactly 0.

## Model

| member | source | states |
|---|---|---|
| `KeyOrder.DedupSpec` | src/components/CalculationResults.tsx:79 | assigning each name in turn gives a key order that lists every assigned name exactly once and nothing else, keeping the names' relative order in the assignments |
| `KeyOrder.DedupFirstOrder` | src/components/CalculationResults.tsx:79 | in that key order, a name comes before another exactly when it was first assigned earlier |
| `KeyOrder.Without` | src/components/CalculationResults.tsx:123-128 | `delete` takes exactly that key out of the key order and keeps the others in their order |
| `KeyOrder.WithoutDistinct` | src/components/CalculationResults.tsx:123-128 | deleting a present key from a duplicate-free key order leaves it duplicate-free and one shorter |
| `Expenses.ImbalanceZero` | src/components/CalculationResults.tsx:42-53 | an even split over at least one participant changes the sum of the balances by nothing; with nobody involved it adds the whole amount; a manual split changes it by nothing exactly when the contributions add up to the amount |
| `Expenses.EvenSplitDeltas` | src/components/CalculationResults.tsx:42-47 | an even split of `amount` over `n` distinct participants: a payer among them nets `amount*(n-1)/n`; every other involved participant nets `-amount/n`; a payer outside them nets the whole amount; everyone else nets 0 |
| `Expenses.NetDeltaConcat` | src/components/CalculationResults.tsx:39-54 | a balance after two runs of expenses is the sum of the balances each run produces |
| `Expenses.NetDeltaPermutation` | src/components/CalculationResults.tsx:39-54 | a participant's final balance is the same for any order of the expense list |
| `BalanceCalculator.ChargeShares` | src/components/CalculationResults.tsx:43-46 | subtracting the share from each involved participant in turn takes `share × occurrences` from each, and `n` shares from the total |
| `BalanceCalculator.ChargeContributions` | src/components/CalculationResults.tsx:49-51 | subtracting each contribution from its participant takes that participant's contributions from each, and all contributions from the total |
| `BalanceCalculator.ApplyExpense` | src/components/CalculationResults.tsx:40-53 | one expense adds `Delta(e, p)` to every balance and keeps the key set. The total changes by the expense's imbalance: unchanged for an even split over at least one participant, and for a manual split exactly when the contributions sum to the amount |
| `BalanceCalculator.CalculateBalances` | src/components/CalculationResults.tsx:31-57 | every participant has an entry (and nobody else). It equals the sum of the changes made by all expenses. The entries add up to the expenses' total imbalance |
| `BalanceCalculator.BalancesOrderIndependent` | src/components/CalculationResults.tsx:39-54 | the balances for two orderings of the same expenses are equal for every participant |
| `BalanceCalculator.BalancedExpensesSumToZero` | src/components/CalculationResults.tsx:39-54 | when every expense is balanced, the balances add up to 0 |
| `Transactions.Record` | src/components/CalculationResults.tsx:112-118 | recording adds the amount to exactly the one entry (debtor, creditor), creates that entry and the debtor's dictionary when they are missing, and never leaves an empty debtor dictionary |
| `Transactions.RecordTotals` | src/components/CalculationResults.tsx:112-118 | recording adds the amount to what the debtor pays, to what the creditor receives, and to the total. It changes no one else's totals |
| `Pools.MaxIndex` | src/components/CalculationResults.tsx:108-109 | the `reduce` picks a key holding the largest value; every later key holds strictly less, so on a tie the later key wins |
| `Pools.ArgMax` | src/components/CalculationResults.tsx:108-109 | the picked key is one of the keys and holds the largest value |
| `Pools.Largest` | src/components/CalculationResults.tsx:108-109 | the pick from a non-empty side is a member holding the most remaining |
| `Pools.DeductSpec` | src/components/CalculationResults.tsx:120-127 | lowering an amount, then deleting the key when it reaches 0, has these effects: the key order stays exact; one key goes exactly when the whole amount was taken; the key is left with the rest; other keys are unchanged; the side's total drops by the amount |
| `GreedySettle.Min` | src/components/CalculationResults.tsx:110 | the settled amount is one of the two amounts and no larger than either |
| `GreedySettle.Step` | src/components/CalculationResults.tsx:107-128 | one iteration keeps both sides exactly keyed and strictly shrinks them |
| `GreedySettle.Run` | src/components/CalculationResults.tsx:107-129 | the loop terminates in a state where one side is empty |
| `GreedySettle.IterationsBound` | src/components/CalculationResults.tsx:107-128 | the loop makes no iterations, or fewer than the number of creditors and debtors together (at most that number minus one) |
| `GreedySettle.StepChoice` | src/components/CalculationResults.tsx:107-121 | each iteration picks a creditor and a debtor holding the most on their sides, and they are different people. The transfer is strictly positive, and no remaining amount becomes 0 or negative without being deleted |
| `GreedySettle.StepInvariant` | src/components/CalculationResults.tsx:107-128 | each iteration keeps the following true. Every entry runs from an original debtor to an original creditor and is positive. For each creditor, received plus remaining equals the initial amount, and likewise paid plus remaining for each debtor. The total transferred plus each side's remaining total equals that side's initial total |
| `GreedySettle.RunInvariant` | src/components/CalculationResults.tsx:107-129 | the same invariant holds when the loop stops |
| `GreedySettle.RunSettles` | src/components/CalculationResults.tsx:105-129 | the settlement of two disjoint positive sides has these properties. There is no empty row. Every entry goes from a debtor to a different creditor and is positive. Nobody receives or pays more than their amount. One side is settled in full. The total transferred is the smaller side total. When the totals are equal, everyone is settled in full |
| `GreedySettle.SettleStep` | src/components/CalculationResults.tsx:108-128 | the loop body, on the two dictionaries and key orders, produces exactly the state `Step` specifies |
| `GreedySettle.Settle` | src/components/CalculationResults.tsx:105-129 | the loop, started from an empty settlement, returns exactly the settlement of `Run` |
| `ExpenseSettler.ZeroBalances` | src/components/CalculationResults.tsx:79 | building the zero dictionary gives key order `Dedup(involved)`, an entry for each named participant, every value 0, and total 0 |
| `ExpenseSettler.LocalBalances` | src/components/CalculationResults.tsx:78-92 | the local balances hold one entry per local participant, equal to the change the expense makes to it, in a duplicate-free key order; they add up to the expense's imbalance |
| `ExpenseSettler.SideOfExact` | src/components/CalculationResults.tsx:97-103 | a side holds exactly the visited keys whose balance is on it (> 0 creditors, < 0 debtors), at the balance or its magnitude |
| `ExpenseSettler.SideOfOrder` | src/components/CalculationResults.tsx:97-103 | each side's key order lists its keys once each, in the order visited |
| `ExpenseSettler.SidesOf` | src/components/CalculationResults.tsx:94-103 | over the whole dictionary the two sides are exactly its creditors and its debtors at the magnitude. They share nobody and zero balances are on neither. Creditors' total minus debtors' total is the total balance |
| `ExpenseSettler.Partition` | src/components/CalculationResults.tsx:94-103 | the partition loop builds exactly those two sides, with their key orders |
| `ExpenseSettler.SettlementOverSettles` | src/components/CalculationResults.tsx:94-129 | partitioning balances and running the greedy loop settles the creditors against the debtors with every guarantee of `RunSettles` |
| `ExpenseSettler.SettlementOverParties` | src/components/CalculationResults.tsx:94-129 | every transfer the greedy loop records over a dictionary keyed by some participants runs from one of them whom the expense charges to one whom it credits |
| `ExpenseSettler.WrittenSettlement` | src/components/CalculationResults.tsx:78-129 | as written, the local dictionary is keyed by the involved participants only, and a NaN entry counts as absent: every transfer runs between involved participants, from one the expense charges to one it credits, so a payer who is not involved receives nothing |
| `ExpenseSettler.ExpenseSettlement` | src/components/CalculationResults.tsx:78-129 | with the payer's entry added, every transfer runs between the expense's local participants (the involved ones and the payer), from one the expense charges to one it credits |
| `ExpenseSettler.ExpenseSettlementSettles` | src/components/CalculationResults.tsx:78-129 | an expense's settlement settles its local creditors against its local debtors |
| `ExpenseSettler.WrittenAgrees` | src/components/CalculationResults.tsx:78-91 | when the payer is involved, the model's settlement equals the settlement as the source computes it |
| `ExpenseSettler.WrittenLosesPayer` | src/components/CalculationResults.tsx:79-103 | as written, an even split of 60 paid by A between B and C produces no transfers, although B and C owe 30 each |
| `ExpenseSettler.SettlementPaysPayer` | src/components/CalculationResults.tsx:78-129 | with the payer's entry, the same expense is settled: B and C each pay 30, and A receives 60 |
| `ExpenseSettler.SettleExpense` | src/components/CalculationResults.tsx:76-129 | the per-expense computation returns the expense's settlement, with every guarantee of `RunSettles`. The creditors' total minus the debtors' total is the expense's imbalance. So, for a balanced expense, every local creditor receives and every local debtor pays exactly their amount |
| `Summary.SummaryUnique` | src/components/CalculationResults.tsx:133-146 | only one dictionary summarises a given set of settlements, so the order in which they and their entries are visited does not matter |
| `Summary.AddExpensePairs` | src/components/CalculationResults.tsx:134-146 | adding one more expense's settlement adds its entry to each pair's total, and a pair occurs in some settlement exactly when it did before or occurs in the new one |
| `Summary.AddExpenseTotal` | src/components/CalculationResults.tsx:134-146 | adding one more expense's settlement adds its total to the sum of the settlements' totals |
| `Summary.AddRow` | src/components/CalculationResults.tsx:136-143 | adding one debtor's creditors adds each of their amounts to that debtor's entries in the summary, creating missing entries. Everything else is unchanged. The total rises by the row's sum |
| `Summary.AddInto` | src/components/CalculationResults.tsx:135-145 | adding one expense's settlement adds each of its entries to the summary and creates exactly its pairs, and the total rises by the settlement's total |
| `Summary.Aggregate` | src/components/CalculationResults.tsx:133-146 | each summary entry `summary[d][c]` is the sum over all expense ids of that pair's entries (absent counts as 0), and a pair appears exactly when it appears in some expense's settlement. No debtor dictionary is empty. The summary transfers the total of all settlements |
| `Breakdown.LatestIndex` | src/components/CalculationResults.tsx:105 | the settlement kept under an id is that of the last expense with that id; none is kept for an id no expense has |
| `Breakdown.BreaksSnoc` | src/components/CalculationResults.tsx:75-105 | storing one more expense's settlement under its id replaces the earlier one for that id and keeps the others |
| `Breakdown.EachSettlesSnoc` | src/components/CalculationResults.tsx:75-130 | after that step every stored settlement still settles the expense it is stored for |
| `Breakdown.GenerateTransactionBreakdown` | src/components/CalculationResults.tsx:73-148 | the breakdown stores, under each id, the settlement of the last expense with that id (and nothing else). Each stored settlement settles its expense. The summary is the pairwise sum of the stored settlements and transfers their total |

## Left out

- The React component is not part of this model: its props, its state and effect, and the rendering of the results (src/components/CalculationResults.tsx:151-215). The engine's inputs become parameters and its outputs become return values.
- Currency display with `toFixed(2)` is not modelled; it is formatting only.
- The global creditor/debtor partition (src/components/CalculationResults.tsx:59-71) and the `calculateBalances` call that feeds it are not modelled. The result is computed but never read, so it is dead code. `calculateBalances` itself is modelled as `BalanceCalculator.CalculateBalances`.
- IEEE-754 floating point is not modelled. Amounts are exact reals, so no rounding residue can keep the `=== 0` test false.
- NaN is not modelled. The source computes NaN when a balance entry is missing: a payer or contributor outside `participants` in the global calculation, or a contributor outside the expense's participants in the local one. The model instead states the needed membership as a precondition (`Touches(e)`). In the local calculation, NaN changes a settlement in two cases: a payer outside the involved participants (under "## Findings"), and a manual contributor who is neither the payer nor involved, whose NaN entry the partition drops so that their debt is settled by nobody in that expense although the global balances charge it.
- An even split with nobody involved divides by zero in the source. The quotient is never used, so `Expenses.Share` gives 0 there.
- The expense record's loose shape (`any`) is not modelled. It is a datatype. `splitEvenly` takes precedence; an expense without `manualContributions` that is not split evenly is `Neither`.
- Manual contributions are a sequence of entries in object order. A sequence may name a participant twice, which an object cannot, so the model also covers that case.
- JavaScript key-ordering quirks are not modelled, such as integer-like keys coming first. Key order is insertion order, which the model keeps as an explicit sequence.
- Inherited object keys are not modelled: a `map` has no prototype. In the source, a participant named `__proto__` gets no own entry from an assignment (lines 36 and 79), and a debtor named like an `Object.prototype` member, such as `constructor`, finds the inherited value at line 112 and never gets an own row in the settlement. The model treats every name as an ordinary key.
- The key order of the summary and of each settlement's dictionaries is not modelled. The summary is visited by picking any key not yet visited. `Summary.SummaryUnique` shows the contents do not depend on that order.
- `ExpenseSettler.LocalBalances`, `ExpenseSettler.SettleExpense`, `Breakdown.GenerateTransactionBreakdown`: these carry the payer correction described under "## Findings". The local dictionary also has an entry for a payer who is not involved, so their result can differ from the source's only when the payer is not among the involved participants (`ExpenseSettler.WrittenAgrees`); the source as written is `ExpenseSettler.WrittenSettlement`.
- `ExpenseSettler.LocalBalances`, `ExpenseSettler.SettleExpense`, `Breakdown.GenerateTransactionBreakdown`: their precondition (`Touches(e)` among the local participants, `Breakdown.WellFormed`) excludes a manual contributor who is neither the payer nor involved, so they say nothing about that case; the source drops that contributor's debt from the expense's settlement, and the functions `ExpenseSettler.WrittenSettlement` and `ExpenseSettler.ExpenseSettlement`, which have no precondition, leave that contributor out too.
- `GreedySettle.IterationsBound`: the iteration count is stated about the specification function `Iterations`, not counted by the method.

## Findings

| source | as written | input that shows it | evidently intended | confidence | as-written member | corrected member |
|---|---|---|---|---|---|---|
| src/components/CalculationResults.tsx:79-103 | the local dictionary starts with the involved participants only; a payer who is not involved gets NaN from `+= amount` on the missing key, and the partition's `> 0` / `< 0` tests drop the NaN entry, so the debts have nobody to go to | an even split of 60 paid by A between B and C (A not involved): the settlement for that expense is empty | B and C each pay A 30, as the global balances (A +60, B -30, C -30) say | not executed; proved about the model | `ExpenseSettler.WrittenLosesPayer` | `ExpenseSettler.SettlementPaysPayer` |

The rest of the model uses the corrected definition, `ExpenseSettler.ExpenseSettlement`. Its
local dictionary starts with the involved participants and then the payer
(`ExpenseSettler.LocalParticipants`). When the payer is already involved,
`ExpenseSettler.WrittenAgrees` proves this is the source's settlement unchanged.
