# 0/1 knapsack solver — Dafny model

This project models the exact 0/1 knapsack solver `knapsack(values, weights,
capacity, n)` of `Knap01.py`. Given n items (item k has value `values[k]` and
weight `weights[k]`) and a capacity, it picks a subset of the items. The subset
has total weight at most the capacity and the largest total value possible.
Each item is taken at most once.

The solver works in two phases, and the model keeps both in imperative form:

- **Table fill** (`Knap01.FillTable`, `Knap01.FillRow`). A zero-initialised
  `array2<int>` of shape (n+1) × (capacity+1) is filled row by row from
  column 1 on. Each cell is computed by the recurrence: leave item i-1 out
  (the cell above), or, if it fits, take it (its value plus the cell above at
  the reduced budget). The recurrence is the pure function
  `KnapsackSpec.BestValue`. Both methods prove that every cell equals it.
- **Traceback** (`Knap01.Traceback`). The traceback walks i from n down to 1
  with a running budget w. It takes item i-1 exactly when `dp[i][w] !=
  dp[i-1][w]`, and then pays that item's weight. Finally it reverses the
  indices into ascending order. The pure function `KnapsackSpec.Chosen`
  specifies this walk. The method's loop invariants say that the indices
  picked so far, reversed, are the tail of `Chosen(n, capacity)` and the
  walk from (i, w) supplies the rest; that the values picked so far plus
  dp[i][w] equal dp[n][capacity]; and that the weights picked so far plus
  the budget w equal the capacity.

`Knap01.Knapsack` puts the two phases together and returns
`(maxTotalValue, selected)`, as the Python function does. Its contract gives
the solver's full promise:

- the value is the table's last cell;
- no subset of the items that fits in the capacity is worth more;
- the selection is strictly ascending and lies in `[0, n)`;
- the selection is worth exactly the value and fits in the capacity;
- the selection is the traceback, which leaves an item out when the two
  cells tie;
- n = 0 or capacity = 0 gives `(0, [])`.

The contract fixes both outputs as functions of the inputs, so the solver is
deterministic.

Selections are lists of item indices, `seq<nat>`, the shape the solver
returns. `IsSelection(sel, i)` says a list is strictly ascending with every
index below i, that is, a subset of the first i items. `SumAt(xs, sel)` adds
up `xs` over the listed indices.

Files: `knapsack_spec.dfy` holds module `KnapsackSpec`, the recurrence, the
traceback specification and the lemmas about them. `knapsack.dfy` holds
module `Knap01`, the solver's methods. `scenarios.dfy` holds module
`Scenarios`, worked examples.

## Model

| member | source | states |
|---|---|---|
| `Knap01.Knapsack` | Knap01.py:5-29 | returns dp[n][capacity] = `BestValue(n, capacity)`; no feasible subset of the n items is worth more; the selection is an ascending subset of [0, n), worth exactly the value, with weight ≤ capacity, equal to the traceback `Chosen(n, capacity)`; n = 0 or capacity = 0 gives (0, []) |
| `Knap01.FillTable` | Knap01.py:6-17 | a fresh (n+1) × (capacity+1) table whose row 0 and column 0 are zero and whose every cell (i, w) equals the recurrence `BestValue(i, w)` |
| `Knap01.FillRow` | Knap01.py:9-17 | the inner loop: given row i-1 filled, it fills row i by the recurrence, keeps column 0 at zero and leaves every other row unchanged |
| `Knap01.Traceback` | Knap01.py:19-28 | the backward walk with a running budget, followed by the reversal, returns exactly `Chosen(n, capacity)`; its loop keeps value picked + dp[i][w] = dp[n][capacity] and weight picked + w = capacity, with every picked index in [i, n) |
| `KnapsackSpec.BestValue` | Knap01.py:13-17 | the recurrence: 0 for i = 0; otherwise the cell above, or the larger of it and the item's value plus the cell above at w - weight when the item fits; no cell is negative |
| `KnapsackSpec.Chosen` | Knap01.py:23-28 | the traceback from (i, w) yields a strictly ascending list of indices below i |
| `KnapsackSpec.ChosenAttains` | Knap01.py:19-29 | the traceback's selection is worth exactly the cell it starts from and its weight fits in the budget |
| `KnapsackSpec.BestValueIsUpperBound` | Knap01.py:8-17 | every subset of the first i items with weight ≤ w is worth at most cell (i, w); with `ChosenAttains`, the cell is the maximum |
| `KnapsackSpec.TracebackStep` | Knap01.py:23-26 | when dp[i][w] ≠ dp[i-1][w], item i-1 fits in w, so the budget never goes negative; the cell is its value plus dp[i-1][w - weight], and i-1 is the last chosen index; on equality the choice is that of the cell above |
| `KnapsackSpec.ChosenTakesLastIff` | Knap01.py:24-25 | item i-1 is chosen from (i, w) if and only if dp[i][w] ≠ dp[i-1][w]: ties exclude the item |
| `KnapsackSpec.Reversed` | Knap01.py:28 | the reversal has the same length and element k is element |s|-1-k of the input |
| `KnapsackSpec.BestValueZeroBudget` | Knap01.py:6-9 | column 0 of the recurrence is zero when all weights are positive, matching the never-written zero column |
| `KnapsackSpec.ChosenZeroBudget` | Knap01.py:19-26 | with budget 0 the traceback selects nothing |
| `KnapsackSpec.BestValueMonotoneInBudget` | Knap01.py:13-17 | for fixed i, the cell is non-decreasing in w: a larger capacity never lowers the optimum |
| `KnapsackSpec.BestValueMonotoneInItems` | Knap01.py:13-17 | for fixed w and i ≤ j, cell (i, w) ≤ cell (j, w); in particular dp[i][w] ≥ dp[i-1][w] |
| `KnapsackSpec.NothingFits` | Knap01.py:13-26 | when every one of the first i items is heavier than w, the cell is 0 and the traceback selects nothing |
| `Scenarios.ThreeItems` | Knap01.py:5-29 | values [60, 100, 120], weights [10, 20, 30], capacity 50 give 220 and selection [1, 2] |
| `Scenarios.FourItems` | Knap01.py:5-29 | values [10, 40, 30, 50], weights [5, 4, 6, 3], capacity 10 give 90 and selection [1, 3] |
| `Scenarios.TooHeavy` | Knap01.py:5-29 | one item of weight 20 with capacity 5 gives 0 and an empty selection |

## Left out

- `visualize` (Knap01.py:32-55) is not modelled. It draws a matplotlib bar chart with float layout, and there is nothing in it to verify.
- `solve_knapsack` (Knap01.py:58-118) is not modelled. It reads and writes tkinter widgets, parses text with `str.split` and `int`, and shows message boxes. Its validation (Knap01.py:67-89) appears only as the solver's `requires` clauses: equal lengths with `n` equal to them, and positive weights.
- The window setup, the default input text and the event loop (Knap01.py:121-173) are not modelled. They are user interface only.
- Value positivity is not required. The caller rejects non-positive values, but no proof needs them positive, so the model admits any integer values. Capacity is a `nat`: the caller rejects capacity ≤ 0, and the model also covers capacity 0.
- The Python table is a list of lists. The model uses one `array2<int>` allocated with every cell zero.
- The nested fill loops are split into two methods: `FillTable` runs the rows and `FillRow` runs one row.
- `list.reverse` in place is modelled by the function `Reversed`, which returns a new sequence. The list is local to the call, so no aliasing is lost.
- Python integers are unbounded, and so are Dafny's `int`. No overflow is modelled because none exists.
