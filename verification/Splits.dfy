/**
  Purged walk-forward splits: expanding training windows, each followed by a gap
  and a validation window, all before a final holdout. Times are in milliseconds.
*/
module Splits {
  datatype Fold = Fold(trainStart: int, trainEnd: int, validStart: int, validEnd: int)

  /** The durations in milliseconds, and the gap in bars. */
  datatype Plan = Plan(minTrain: int, valid: int, step: int, holdout: int, purgeGap: nat)

  predicate Increasing(ts: seq<int>) {
    forall i, j :: 0 <= i < j < |ts| ==> ts[i] < ts[j]
  }

  predicate Sorted(ts: seq<int>) {
    forall i, j :: 0 <= i < j < |ts| ==> ts[i] <= ts[j]
  }

  /** The first index whose time is at least x. */
  function SearchLeft(ts: seq<int>, x: int): (i: nat)
    ensures i <= |ts|
    ensures forall k :: 0 <= k < i ==> ts[k] < x
    ensures i < |ts| ==> ts[i] >= x
  {
    if ts == [] || ts[0] >= x then 0 else 1 + SearchLeft(ts[1..], x)
  }

  function HoldoutStart(ts: seq<int>, p: Plan): int
    requires |ts| > 0
  {
    ts[|ts| - 1] - p.holdout
  }

  /** The window starting at this boundary gives no fold, and the walk ends. */
  predicate Stops(ts: seq<int>, p: Plan, boundary: int)
    requires |ts| > 0
  {
    var from, upto := SearchLeft(ts, boundary), SearchLeft(ts, boundary + p.valid) - 1;
    || from >= |ts| || upto < from || ts[upto] >= HoldoutStart(ts, p) || from - p.purgeGap - 1 < 0
  }

  function FoldFrom(ts: seq<int>, p: Plan, boundary: int): Fold
    requires |ts| > 0 && !Stops(ts, p, boundary)
  {
    var from, upto := SearchLeft(ts, boundary), SearchLeft(ts, boundary + p.valid) - 1;
    Fold(ts[0], ts[from - p.purgeGap - 1], ts[from], ts[upto])
  }

  /** The boundary of the k-th window. */
  function Boundary(ts: seq<int>, p: Plan, k: nat): int
    requires |ts| > 0
  {
    if k == 0 then ts[0] + p.minTrain else Boundary(ts, p, k - 1) + p.step
  }

  /** The folds are those of the first windows, none of which stops the walk. */
  predicate FirstFolds(ts: seq<int>, p: Plan, folds: seq<Fold>)
    requires |ts| > 0
  {
    forall k :: 0 <= k < |folds| ==>
      !Stops(ts, p, Boundary(ts, p, k)) && folds[k] == FoldFrom(ts, p, Boundary(ts, p, k))
  }

  lemma OneMoreFold(ts: seq<int>, p: Plan, folds: seq<Fold>, fold: Fold)
    requires |ts| > 0 && FirstFolds(ts, p, folds) && !Stops(ts, p, Boundary(ts, p, |folds|))
    requires fold == FoldFrom(ts, p, Boundary(ts, p, |folds|))
    ensures FirstFolds(ts, p, folds + [fold])
  {
    hide Stops, FoldFrom;
  }

  lemma NoFoldsYet(ts: seq<int>, p: Plan)
    requires |ts| > 0
    ensures FirstFolds(ts, p, [])
  {
  }

  /** The walk stops at the first window that gives no fold; the folds are those of the windows before it. */
  method PurgedWalkForwardSplits(ts: seq<int>, p: Plan) returns (folds: seq<Fold>)
    requires |ts| > 0 && Sorted(ts) && p.step > 0
    ensures Stops(ts, p, Boundary(ts, p, |folds|))
    ensures FirstFolds(ts, p, folds)
  {
    hide FirstFolds;
    folds := [];
    NoFoldsYet(ts, p);
    var n, boundary := |ts|, ts[0] + p.minTrain;
    var holdoutStart := ts[n - 1] - p.holdout;
    while true
      invariant boundary == Boundary(ts, p, |folds|)
      invariant FirstFolds(ts, p, folds)
      decreases ts[n - 1] - boundary
    {
      var from, upto := SearchLeft(ts, boundary), SearchLeft(ts, boundary + p.valid) - 1;
      if from >= n || upto >= n || upto < from { break; }
      if ts[upto] >= holdoutStart { break; }
      var trainEnd := from - p.purgeGap - 1;
      if trainEnd < 0 { break; }
      var fold := Fold(ts[0], ts[trainEnd], ts[from], ts[upto]);
      OneMoreFold(ts, p, folds, fold);
      folds := folds + [fold];
      assert ts[from] <= ts[n - 1];
      boundary := boundary + p.step;
    }
  }

  /** Every training row's label row comes strictly before the validation window. */
  predicate LabelsStayBefore(ts: seq<int>, fold: Fold, horizon: nat) {
    forall k :: 0 <= k < |ts| && k + horizon < |ts| && fold.trainStart <= ts[k] <= fold.trainEnd ==>
      ts[k + horizon] < fold.validStart
  }

  /**
    The gap is exactly what keeps labels out: for every fold, no training label
    reaches the validation window if and only if the horizon is at most the gap.
  */
  lemma LabelsStayBeforeExactlyWithinTheGap(ts: seq<int>, p: Plan, boundary: int, horizon: nat)
    requires |ts| > 0 && Increasing(ts) && !Stops(ts, p, boundary) && horizon < |ts|
    ensures LabelsStayBefore(ts, FoldFrom(ts, p, boundary), horizon) <==> horizon <= p.purgeGap
  {
    hide SearchLeft;
    var fold := FoldFrom(ts, p, boundary);
    var from := SearchLeft(ts, boundary);
    if horizon > p.purgeGap {
      var k := if from >= horizon then from - horizon else 0;
      assert ts[k + horizon] >= ts[from];
      assert ts[k] <= ts[from - p.purgeGap - 1];
    } else {
      forall k | 0 <= k < |ts| && k + horizon < |ts| && ts[k] <= fold.trainEnd
        ensures ts[k + horizon] < fold.validStart
      {
        assert k <= from - p.purgeGap - 1;
      }
    }
  }

  /** Training ends before validation starts, validation ends before the holdout. */
  lemma FoldsStayInOrder(ts: seq<int>, p: Plan, boundary: int)
    requires |ts| > 0 && Increasing(ts) && !Stops(ts, p, boundary)
    ensures var fold := FoldFrom(ts, p, boundary);
            && fold.trainStart <= fold.trainEnd < fold.validStart <= fold.validEnd < HoldoutStart(ts, p)
            && boundary <= fold.validStart && fold.validEnd < boundary + p.valid
  {
  }

  lemma {:induction false} LaterBoundary(ts: seq<int>, p: Plan, j: nat, k: nat)
    requires |ts| > 0 && p.step >= 0 && j <= k
    ensures Boundary(ts, p, j) <= Boundary(ts, p, k)
    ensures j < k ==> Boundary(ts, p, j) + p.step <= Boundary(ts, p, k)
  {
    if j < k {
      LaterBoundary(ts, p, j, k - 1);
    }
  }

  /** With steps at least as long as the validation window, no row validates in two folds. */
  lemma ValidationWindowsAreDisjoint(ts: seq<int>, p: Plan, j: nat, k: nat)
    requires |ts| > 0 && Increasing(ts) && p.step >= p.valid && p.step >= 0 && j < k
    requires !Stops(ts, p, Boundary(ts, p, j)) && !Stops(ts, p, Boundary(ts, p, k))
    ensures FoldFrom(ts, p, Boundary(ts, p, j)).validEnd < FoldFrom(ts, p, Boundary(ts, p, k)).validStart
  {
    hide Stops, FoldFrom, SearchLeft;
    LaterBoundary(ts, p, j, k);
    FoldsStayInOrder(ts, p, Boundary(ts, p, j));
    FoldsStayInOrder(ts, p, Boundary(ts, p, k));
  }

  predicate InWindow(p: Plan, boundary: int, t: int) {
    boundary <= t < boundary + p.valid
  }

  /** The row is early enough to train on: the row a whole gap later still comes before the window. */
  predicate BeforeTheGap(ts: seq<int>, p: Plan, boundary: int, k: nat) {
    k + p.purgeGap < |ts| && ts[k + p.purgeGap] < boundary
  }

  /** A fold validates on exactly the rows of its window and trains on exactly the rows before the gap. */
  lemma FoldIsItsWindow(ts: seq<int>, p: Plan, boundary: int, k: nat)
    requires |ts| > 0 && Increasing(ts) && !Stops(ts, p, boundary) && k < |ts|
    ensures var fold := FoldFrom(ts, p, boundary);
            && (fold.validStart <= ts[k] <= fold.validEnd <==> InWindow(p, boundary, ts[k]))
            && (fold.trainStart <= ts[k] <= fold.trainEnd <==> BeforeTheGap(ts, p, boundary, k))
  {
    hide SearchLeft;
    var from, upto := SearchLeft(ts, boundary), SearchLeft(ts, boundary + p.valid) - 1;
    assert ts[k] <= ts[upto] <==> k <= upto;
    assert ts[k] <= ts[from - p.purgeGap - 1] <==> k <= from - p.purgeGap - 1;
  }

  /** The windows are evenly spaced, from the shortest training time on. */
  lemma {:induction false} BoundariesAreEven(ts: seq<int>, p: Plan, k: nat)
    requires |ts| > 0
    ensures Boundary(ts, p, k) == ts[0] + p.minTrain + k * p.step
  {
    if k > 0 {
      BoundariesAreEven(ts, p, k - 1);
    }
  }

  /** The walk goes on exactly while the window has rows, all before the holdout, and there are rows to train on. */
  lemma GoesOnExactlyWithRows(ts: seq<int>, p: Plan, boundary: int)
    requires |ts| > 0 && Increasing(ts)
    ensures !Stops(ts, p, boundary) <==>
              && (exists k: nat :: k < |ts| && InWindow(p, boundary, ts[k]))
              && (forall k: nat :: k < |ts| && InWindow(p, boundary, ts[k]) ==> ts[k] < HoldoutStart(ts, p))
              && (exists k: nat :: k < |ts| && BeforeTheGap(ts, p, boundary, k))
  {
    hide SearchLeft;
    var from, upto := SearchLeft(ts, boundary), SearchLeft(ts, boundary + p.valid) - 1;
    if from < |ts| && from <= upto {
      assert InWindow(p, boundary, ts[from]) && InWindow(p, boundary, ts[upto]);
      if from - p.purgeGap - 1 >= 0 {
        assert BeforeTheGap(ts, p, boundary, from - p.purgeGap - 1);
      }
    } else {
      forall k: nat | k < |ts| ensures !InWindow(p, boundary, ts[k]) {
      }
    }
  }

  // ----- the final model

  predicate GapFree(ts: seq<int>, bar: nat) {
    forall k :: 0 <= k < |ts| - 1 ==> ts[k + 1] == ts[k] + bar
  }

  lemma {:induction false} BarsAhead(ts: seq<int>, bar: nat, k: nat, h: nat)
    requires GapFree(ts, bar) && k + h < |ts|
    ensures ts[k + h] == ts[k] + h * bar
  {
    if h > 0 {
      BarsAhead(ts, bar, k, h - 1);
      assert h * bar == (h - 1) * bar + bar;
    }
  }

  /** On a gap-free grid, rows before the cutoff have their labels before the holdout. */
  lemma FinalLabelsStayOutOfHoldout(ts: seq<int>, p: Plan, bar: nat, horizon: nat, k: nat)
    requires |ts| > 0 && GapFree(ts, bar) && k + horizon < |ts|
    requires ts[k] < HoldoutStart(ts, p) - horizon * bar
    ensures ts[k + horizon] < HoldoutStart(ts, p)
  {
    BarsAhead(ts, bar, k, horizon);
  }

  /** No row before the cutoff has its label at or after the holdout start. */
  predicate FinalLabelsSafe(ts: seq<int>, cutoff: int, holdoutStart: int, horizon: nat) {
    forall k :: 0 <= k < |ts| && k + horizon < |ts| && ts[k] < cutoff ==> ts[k + horizon] < holdoutStart
  }

  /**
    On any data, gaps or not: the cutoff is safe exactly when there is nothing to
    train on or at least as many rows as the horizon lie between cutoff and holdout.
  */
  lemma FinalLabelsSafeExactlyWithEnoughRows(ts: seq<int>, p: Plan, cutoff: int, horizon: nat)
    requires |ts| > 0 && Increasing(ts) && p.holdout >= 0 && horizon < |ts|
    ensures var a, b := SearchLeft(ts, cutoff), SearchLeft(ts, HoldoutStart(ts, p));
            FinalLabelsSafe(ts, cutoff, HoldoutStart(ts, p), horizon) <==> a == 0 || b - a >= horizon
  {
    hide SearchLeft;
    var a, b := SearchLeft(ts, cutoff), SearchLeft(ts, HoldoutStart(ts, p));
    assert b < |ts|;
    if a > 0 && b - a < horizon {
      var k := if b >= horizon then b - horizon else 0;
      assert ts[k] < cutoff && ts[k + horizon] >= ts[b];
    } else {
      forall k | 0 <= k < |ts| && k + horizon < |ts| && ts[k] < cutoff ensures ts[k + horizon] < HoldoutStart(ts, p) {
        assert k < a;
      }
    }
  }

  /** With a gap in the data the cutoff, counted in time and not in rows, does let a label into the holdout. */
  lemma AGapLeaks()
    ensures var ts, p := [0, 1, 5, 6], Plan(0, 1, 1, 2, 0);
            && Increasing(ts) && ts[1] < HoldoutStart(ts, p) - 1 * 1 && ts[1 + 1] >= HoldoutStart(ts, p)
  {
  }
}
