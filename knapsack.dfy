/**
 * The solver of Knap01.py: `knapsack(values, weights, capacity, n)` fills
 * an (n+1) x (capacity+1) table cell by cell, reads the optimum from its
 * last cell and walks back up the table to recover the chosen items.
 */
module Knap01 {
  import opened KnapsackSpec

  /** The table-filling phase: a zero-initialised table whose rows and
      columns from 1 on are filled with the recurrence, row by row. */
  method FillTable(values: seq<int>, weights: seq<int>, capacity: nat, n: nat) returns (dp: array2<int>)
    requires n == |values|
    requires ValidItems(values, weights)
    ensures fresh(dp)
    ensures dp.Length0 == n + 1 && dp.Length1 == capacity + 1
    ensures forall w :: 0 <= w <= capacity ==> dp[0, w] == 0
    ensures forall i :: 0 <= i <= n ==> dp[i, 0] == 0
    ensures forall i, w :: 0 <= i <= n && 0 <= w <= capacity ==>
      dp[i, w] == BestValue(values, weights, i, w)
  {
    dp := new int[n + 1, capacity + 1]((_, _) => 0);
    for i := 1 to n + 1
      invariant forall r, c :: 0 <= r < i && 0 <= c <= capacity ==>
        dp[r, c] == BestValue(values, weights, r, c)
      invariant forall r :: 0 <= r <= n ==> dp[r, 0] == 0
    {
      assert RowHolds(dp, values, weights, i - 1);
      FillRow(dp, values, weights, i);
    }
  }

  /** Row r of the table holds the recurrence's values in every column. */
  ghost predicate RowHolds(dp: array2<int>, values: seq<int>, weights: seq<int>, r: nat)
    reads dp
  {
    ValidItems(values, weights) && r <= |values| && r < dp.Length0 &&
    forall c :: 0 <= c < dp.Length1 ==> dp[r, c] == BestValue(values, weights, r, c)
  }

  /** One pass of the inner loop: row i from column 1 on, each cell from
      the two cells of row i-1 that the recurrence names. Column 0 keeps
      its zero and no other row changes. */
  method FillRow(dp: array2<int>, values: seq<int>, weights: seq<int>, i: nat)
    requires ValidItems(values, weights)
    requires 1 <= i <= |values| && i < dp.Length0 && 1 <= dp.Length1
    requires RowHolds(dp, values, weights, i - 1)
    requires dp[i, 0] == 0
    modifies dp
    ensures RowHolds(dp, values, weights, i)
    ensures dp[i, 0] == 0
    ensures forall r, c :: 0 <= r < dp.Length0 && r != i && 0 <= c < dp.Length1 ==>
      dp[r, c] == old(dp[r, c])
  {
    BestValueZeroBudget(values, weights, i);
    for w := 1 to dp.Length1
      invariant forall c :: 0 <= c < w ==> dp[i, c] == BestValue(values, weights, i, c)
      invariant forall r, c :: 0 <= r < dp.Length0 && r != i && 0 <= c < dp.Length1 ==>
        dp[r, c] == old(dp[r, c])
    {
      var itemWeight := weights[i - 1];
      var itemValue := values[i - 1];
      if itemWeight <= w {
        dp[i, w] := Max(itemValue + dp[i - 1, w - itemWeight], dp[i - 1, w]);
      } else {
        dp[i, w] := dp[i - 1, w];
      }
    }
  }

  /** The traceback phase: walk up from the last cell with a running
      budget, taking item i-1 exactly when the cell differs from the one
      above it and paying its weight, then reverse the indices, found from
      the last item down, into ascending order. */
  method Traceback(dp: array2<int>, values: seq<int>, weights: seq<int>, capacity: nat, n: nat)
    returns (selected: seq<nat>)
    requires n == |values|
    requires ValidItems(values, weights)
    requires dp.Length0 == n + 1 && dp.Length1 == capacity + 1
    requires forall i, w :: 0 <= i <= n && 0 <= w <= capacity ==>
      dp[i, w] == BestValue(values, weights, i, w)
    ensures selected == Chosen(values, weights, n, capacity)
  {
    var picked: seq<nat> := [];
    var w: nat := capacity;
    var i: nat := n;
    while i > 0
      invariant 0 <= i <= n && w <= capacity
      invariant forall k :: 0 <= k < |picked| ==> i <= picked[k] < n
      invariant SumAt(values, picked) + dp[i, w] == dp[n, capacity]
      invariant SumAt(weights, picked) + w == capacity
      invariant Chosen(values, weights, n, capacity)
        == Chosen(values, weights, i, w) + Reversed(picked)
    {
      TracebackStep(values, weights, i, w);
      assert dp[i, w] == BestValue(values, weights, i, w);
      assert dp[i - 1, w] == BestValue(values, weights, i - 1, w);
      if dp[i, w] != dp[i - 1, w] {
        ReversedAppend(picked, i - 1);
        assert Chosen(values, weights, n, capacity)
          == Chosen(values, weights, i - 1, w - weights[i - 1]) + Reversed(picked + [i - 1]);
        assert (picked + [i - 1])[..|picked|] == picked;
        picked := picked + [i - 1];
        w := w - weights[i - 1];
      }
      i := i - 1;
    }
    selected := Reversed(picked);
  }

  /** The whole solver: the optimum and the ascending list of chosen item
      indices. The optimum is the table's last cell, no feasible subset is
      worth more, and the list is the traceback that prefers leaving an
      item out on a tie. */
  method Knapsack(values: seq<int>, weights: seq<int>, capacity: nat, n: nat)
    returns (maxTotalValue: int, selected: seq<nat>)
    requires n == |values|
    requires ValidItems(values, weights)
    ensures maxTotalValue == BestValue(values, weights, n, capacity)
    ensures forall sel :: IsSelection(sel, n) && SumAt(weights, sel) <= capacity ==>
      SumAt(values, sel) <= maxTotalValue
    ensures IsSelection(selected, n)
    ensures SumAt(values, selected) == maxTotalValue
    ensures SumAt(weights, selected) <= capacity
    ensures selected == Chosen(values, weights, n, capacity)
    ensures n == 0 || capacity == 0 ==> maxTotalValue == 0 && selected == []
  {
    var dp := FillTable(values, weights, capacity, n);
    maxTotalValue := dp[n, capacity];
    selected := Traceback(dp, values, weights, capacity, n);
    ChosenAttains(values, weights, n, capacity);

    forall sel | IsSelection(sel, n) && SumAt(weights, sel) <= capacity
      ensures SumAt(values, sel) <= maxTotalValue
    {
      BestValueIsUpperBound(values, weights, n, capacity, sel);
    }
    BestValueZeroBudget(values, weights, n);
    ChosenZeroBudget(values, weights, n);
  }
}
