/**
 * Worked examples of the solver: the optimum and the traceback on small
 * item lists, computed through the recurrence cell by cell. They are
 * stated about BestValue and Chosen; Knap01.Knapsack returns exactly these
 * (its ensures equate maxTotalValue and selected with them).
 */
module Scenarios {
  import opened KnapsackSpec

  /** Three items, capacity 50: items 1 and 2 (value 100 + 120). */
  lemma ThreeItems(vs: seq<int>, ws: seq<int>)
    requires vs == [60, 100, 120] && ws == [10, 20, 30]
    ensures ValidItems(vs, ws)
    ensures BestValue(vs, ws, 3, 50) == 220
    ensures Chosen(vs, ws, 3, 50) == [1, 2]
  {
    assert BestValue(vs, ws, 0, 0) == 0 && BestValue(vs, ws, 0, 20) == 0;
    assert BestValue(vs, ws, 0, 30) == 0 && BestValue(vs, ws, 0, 50) == 0;
    assert BestValue(vs, ws, 0, 10) == 0 && BestValue(vs, ws, 0, 40) == 0;
    assert BestValue(vs, ws, 1, 0) == 0 && BestValue(vs, ws, 1, 20) == 60;
    assert BestValue(vs, ws, 1, 30) == 60 && BestValue(vs, ws, 1, 50) == 60;
    assert BestValue(vs, ws, 2, 20) == 100 && BestValue(vs, ws, 2, 50) == 160;
    assert BestValue(vs, ws, 3, 50) == 220;
    assert Chosen(vs, ws, 0, 0) == [];
    assert Chosen(vs, ws, 1, 0) == [];
    assert Chosen(vs, ws, 2, 20) == [1];
  }

  /** Four items, capacity 10: items 1 and 3 (value 40 + 50, weight 4 + 3). */
  lemma FourItems(vs: seq<int>, ws: seq<int>)
    requires vs == [10, 40, 30, 50] && ws == [5, 4, 6, 3]
    ensures ValidItems(vs, ws)
    ensures BestValue(vs, ws, 4, 10) == 90
    ensures Chosen(vs, ws, 4, 10) == [1, 3]
  {
    FourItemsFirstRows(vs, ws);
    assert BestValue(vs, ws, 3, 7) == 40 && BestValue(vs, ws, 3, 10) == 70;
    assert BestValue(vs, ws, 4, 10) == 90;
    assert Chosen(vs, ws, 1, 3) == [];
    assert Chosen(vs, ws, 2, 7) == [1];
    assert Chosen(vs, ws, 3, 7) == [1];
  }

  /** The cells of rows 0 to 2 that the four-item example reads. */
  lemma FourItemsFirstRows(vs: seq<int>, ws: seq<int>)
    requires vs == [10, 40, 30, 50] && ws == [5, 4, 6, 3]
    ensures ValidItems(vs, ws)
    ensures BestValue(vs, ws, 0, 3) == 0 && Chosen(vs, ws, 0, 3) == []
    ensures BestValue(vs, ws, 1, 3) == 0 && BestValue(vs, ws, 1, 7) == 10
    ensures BestValue(vs, ws, 2, 1) == 0 && BestValue(vs, ws, 2, 4) == 40
    ensures BestValue(vs, ws, 2, 7) == 40 && BestValue(vs, ws, 2, 10) == 50
  {
    assert BestValue(vs, ws, 0, 1) == 0 && BestValue(vs, ws, 0, 2) == 0;
    assert BestValue(vs, ws, 0, 3) == 0 && BestValue(vs, ws, 0, 4) == 0;
    assert BestValue(vs, ws, 0, 6) == 0 && BestValue(vs, ws, 0, 7) == 0;
    assert BestValue(vs, ws, 0, 10) == 0 && BestValue(vs, ws, 0, 5) == 0;
    assert BestValue(vs, ws, 1, 1) == 0 && BestValue(vs, ws, 1, 3) == 0;
    assert BestValue(vs, ws, 1, 4) == 0 && BestValue(vs, ws, 1, 6) == 10;
    assert BestValue(vs, ws, 1, 7) == 10 && BestValue(vs, ws, 1, 10) == 10;
  }

  /** One item heavier than the capacity: nothing is chosen. */
  lemma TooHeavy(vs: seq<int>, ws: seq<int>)
    requires vs == [10] && ws == [20]
    ensures ValidItems(vs, ws)
    ensures BestValue(vs, ws, 1, 5) == 0
    ensures Chosen(vs, ws, 1, 5) == []
  {
    NothingFits(vs, ws, 1, 5);
  }
}
