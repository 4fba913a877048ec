/**
 * The percentage table of the current calculator (src/routes/App.tsx):
 * `calculateWeight` for one percentage, and the rows the table shows, each
 * with its bar load, per-side weight and plate breakdown.
 */
module PercentageTable {
  import opened Rounding
  import opened PlateBreakdown

  /** What `calculateWeight` returns: the bar load and the weight on each side. */
  datatype Target = Target(totalWeight: real, perSide: real)

  /** The load a percentage of the max asks for, before any rounding. */
  function Scaled(maxWeight: real, percentage: int): real
  {
    maxWeight * percentage as real / 100.0
  }

  /**
   * `calculateWeight`: round `maxWeight * percentage / 100` to a half, then to
   * a loadable multiple of 5, and split what is left over the bar in two,
   * rounded to a half.
   */
  function CalculateWeight(maxWeight: real, percentage: int, barbellWeight: real): (t: Target)
    ensures IsMultipleOf(t.totalWeight, 5.0)
    ensures IsMultipleOf(t.perSide, 0.5)
    ensures t.perSide == RoundToNearestHalf((t.totalWeight - barbellWeight) / 2.0)
    ensures (t.totalWeight - barbellWeight) / 2.0 - 0.25 < t.perSide
    ensures t.perSide <= (t.totalWeight - barbellWeight) / 2.0 + 0.25
    ensures Scaled(maxWeight, percentage) >= 0.0 ==>
              Scaled(maxWeight, percentage) - 2.75 < t.totalWeight <= Scaled(maxWeight, percentage) + 2.75
  {
    var totalWeight := RoundToNearestHalf(Scaled(maxWeight, percentage));
    HalfOfNonNegative(Scaled(maxWeight, percentage));
    var roundedWeight := RoundToNearestLoadableWeight(totalWeight);
    var perSide := RoundToNearestHalf((roundedWeight - barbellWeight) / 2.0);
    Target(roundedWeight, perSide)
  }

  /** Rounding a non-negative number to a half never goes below zero. */
  lemma HalfOfNonNegative(x: real)
    ensures x >= 0.0 ==> RoundToNearestHalf(x) >= 0.0
  {
    var r := RoundToNearestHalf(x);
    var k := (r / 0.5).Floor;
    assert r == k as real * 0.5;
  }

  /**
   * Once the bar load is at least the bar and both are multiples of 5, the
   * per-side weight is exactly half the difference, a multiple of 2.5, and the
   * plates of its breakdown load the bar to exactly the bar load.
   */
  lemma TargetLoadable(maxWeight: real, percentage: int, barbellWeight: real)
    requires IsMultipleOf(barbellWeight, 5.0)
    requires barbellWeight <= CalculateWeight(maxWeight, percentage, barbellWeight).totalWeight
    ensures var t := CalculateWeight(maxWeight, percentage, barbellWeight);
            t.perSide == (t.totalWeight - barbellWeight) / 2.0 &&
            t.perSide >= 0.0 && IsMultipleOf(t.perSide, 2.5) &&
            barbellWeight + 2.0 * Sum(Greedy(t.perSide, Plates)) == t.totalWeight
  {
    LoadableTarget(CalculateWeight(maxWeight, percentage, barbellWeight), barbellWeight);
  }

  /** The same facts for any target whose per-side weight is rounded from the gap. */
  lemma LoadableTarget(t: Target, barbellWeight: real)
    requires IsMultipleOf(t.totalWeight, 5.0) && IsMultipleOf(barbellWeight, 5.0)
    requires barbellWeight <= t.totalWeight
    requires t.perSide == RoundToNearestHalf((t.totalWeight - barbellWeight) / 2.0)
    ensures t.perSide == (t.totalWeight - barbellWeight) / 2.0
    ensures t.perSide >= 0.0 && IsMultipleOf(t.perSide, 2.5)
    ensures barbellWeight + 2.0 * Sum(Greedy(t.perSide, Plates)) == t.totalWeight
  {
    HalfOfLoadable(t.totalWeight, barbellWeight);
    GreedyExact(t.perSide);
  }

  /** Half the gap between two multiples of 5 is a multiple of 2.5 that rounding to a half keeps. */
  lemma HalfOfLoadable(total: real, bar: real)
    requires IsMultipleOf(total, 5.0) && IsMultipleOf(bar, 5.0) && bar <= total
    ensures (total - bar) / 2.0 >= 0.0
    ensures IsMultipleOf((total - bar) / 2.0, 2.5)
    ensures RoundToNearestHalf((total - bar) / 2.0) == (total - bar) / 2.0
  {
    var a, b := (total / 5.0).Floor, (bar / 5.0).Floor;
    assert total == a as real * 5.0 && bar == b as real * 5.0;
    var half := (total - bar) / 2.0;
    assert half == (a - b) as real * 2.5;
    assert (half / 0.5).Floor == 5 * (a - b);
    RoundToNearestHalfFixes(half);
    assert (half / 2.5).Floor == a - b;
  }

  /** One shown row: the percentage, what it works out to, and its plates. */
  datatype Row = Row(percentage: int, target: Target, breakdown: seq<real>)

  /** The percentages the table lists, already largest first. */
  const TablePercentages: seq<int> := [100, 95, 90, 85, 80, 75, 70, 65, 60, 55, 50, 45, 40]

  /** Bar loads below this are not shown, whatever bar is selected. */
  const MinimumShown: real := 45.0

  ghost predicate StrictlyDecreasing(s: seq<int>)
  {
    forall a, b :: 0 <= a < b < |s| ==> s[a] > s[b]
  }

  /** `sort((a, b) => b - a)` leaves the listed percentages as they are. */
  lemma TablePercentagesSorted()
    ensures StrictlyDecreasing(TablePercentages)
    ensures |TablePercentages| == 13
    ensures forall k :: 0 <= k < |TablePercentages| ==> TablePercentages[k] == 100 - 5 * k
  {
  }

  /** The row a percentage produces when it is shown. */
  function MakeRow(maxWeight: real, barbellWeight: real, percentage: int): (r: Row)
    ensures r.percentage == percentage
    ensures r.target == CalculateWeight(maxWeight, percentage, barbellWeight)
    ensures r.breakdown == Greedy(r.target.perSide, Plates)
  {
    PlatesFacts();
    var t := CalculateWeight(maxWeight, percentage, barbellWeight);
    Row(percentage, t, Greedy(t.perSide, Plates))
  }

  /**
   * The table body: each percentage in turn through `calculateWeight`; a bar
   * load below 45 gives no row, any other gives its row with the breakdown of
   * the per-side weight.
   */
  function Rows(maxWeight: real, barbellWeight: real, percentages: seq<int>): (rows: seq<Row>)
    ensures |rows| <= |percentages|
    ensures forall r :: r in rows ==> r.percentage in percentages && r.target.totalWeight >= MinimumShown
  {
    if percentages == [] then []
    else
      var t := CalculateWeight(maxWeight, percentages[0], barbellWeight);
      (if t.totalWeight < MinimumShown then [] else [MakeRow(maxWeight, barbellWeight, percentages[0])])
        + Rows(maxWeight, barbellWeight, percentages[1..])
  }

  /** The percentages of the rows, in order. */
  function Shown(rows: seq<Row>): (ps: seq<int>)
    ensures |ps| == |rows|
    ensures forall k :: 0 <= k < |rows| ==> ps[k] == rows[k].percentage
  {
    if rows == [] then [] else [rows[0].percentage] + Shown(rows[1..])
  }

  /**
   * A percentage gets a row exactly when it is listed and its bar load is at
   * least 45; every row is the one its percentage produces.
   */
  lemma {:induction false} RowsMembers(maxWeight: real, barbellWeight: real, percentages: seq<int>, p: int)
    ensures p in Shown(Rows(maxWeight, barbellWeight, percentages)) <==>
            p in percentages && CalculateWeight(maxWeight, p, barbellWeight).totalWeight >= MinimumShown
    ensures forall r :: r in Rows(maxWeight, barbellWeight, percentages) ==>
              r == MakeRow(maxWeight, barbellWeight, r.percentage) && r.target.totalWeight >= MinimumShown
    decreases |percentages|
  {
    if percentages != [] {
      var head := if CalculateWeight(maxWeight, percentages[0], barbellWeight).totalWeight < MinimumShown
                  then [] else [MakeRow(maxWeight, barbellWeight, percentages[0])];
      var tail := Rows(maxWeight, barbellWeight, percentages[1..]);
      RowsMembers(maxWeight, barbellWeight, percentages[1..], p);
      ShownAppend(head, tail);
      assert percentages == [percentages[0]] + percentages[1..];
    }
  }

  lemma {:induction false} ShownAppend(a: seq<Row>, b: seq<Row>)
    ensures Shown(a + b) == Shown(a) + Shown(b)
  {
    if a == [] {
      assert a + b == b;
    } else {
      assert (a + b)[1..] == a[1..] + b;
      ShownAppend(a[1..], b);
    }
  }

  /** Rows come out in the order of the percentages: largest first. */
  lemma {:induction false} RowsOrdered(maxWeight: real, barbellWeight: real, percentages: seq<int>)
    requires StrictlyDecreasing(percentages)
    ensures StrictlyDecreasing(Shown(Rows(maxWeight, barbellWeight, percentages)))
    decreases |percentages|
  {
    if percentages != [] {
      var tail := Rows(maxWeight, barbellWeight, percentages[1..]);
      RowsOrdered(maxWeight, barbellWeight, percentages[1..]);
      if CalculateWeight(maxWeight, percentages[0], barbellWeight).totalWeight >= MinimumShown {
        ShownBelow(maxWeight, barbellWeight, percentages[1..], percentages[0]);
        ConsDecreasing(percentages[0], Shown(tail));
        ShownAppend([MakeRow(maxWeight, barbellWeight, percentages[0])], tail);
      }
    }
  }

  /** Percentages all below `top` give rows all below `top`. */
  lemma {:induction false} ShownBelow(maxWeight: real, barbellWeight: real, percentages: seq<int>, top: int)
    requires forall k :: 0 <= k < |percentages| ==> percentages[k] < top
    ensures forall k :: 0 <= k < |Rows(maxWeight, barbellWeight, percentages)| ==>
              Rows(maxWeight, barbellWeight, percentages)[k].percentage < top
    decreases |percentages|
  {
    if percentages != [] {
      ShownBelow(maxWeight, barbellWeight, percentages[1..], top);
    }
  }

  lemma ConsDecreasing(x: int, t: seq<int>)
    requires StrictlyDecreasing(t)
    requires forall k :: 0 <= k < |t| ==> t[k] < x
    ensures StrictlyDecreasing([x] + t)
  {
  }

  /**
   * On a bar that is a multiple of 5 and no heavier than 45 (the 45 and 35
   * bars), every shown row loads exactly: the per-side weight is non-negative
   * and a multiple of 2.5, and bar plus both sides is the bar load.
   */
  lemma RowsLoadExactly(maxWeight: real, barbellWeight: real, percentages: seq<int>)
    requires IsMultipleOf(barbellWeight, 5.0) && barbellWeight <= MinimumShown
    ensures forall r :: r in Rows(maxWeight, barbellWeight, percentages) ==>
              r.target.perSide >= 0.0 && IsMultipleOf(r.target.perSide, 2.5) &&
              barbellWeight + 2.0 * Sum(r.breakdown) == r.target.totalWeight
  {
    forall r | r in Rows(maxWeight, barbellWeight, percentages)
      ensures r.target.perSide >= 0.0 && IsMultipleOf(r.target.perSide, 2.5) &&
              barbellWeight + 2.0 * Sum(r.breakdown) == r.target.totalWeight
    {
      RowsMembers(maxWeight, barbellWeight, percentages, r.percentage);
      TargetLoadable(maxWeight, r.percentage, barbellWeight);
    }
  }

  /** `maxWeight * p / 100` is at most `maxWeight` for a percentage up to 100. */
  lemma ScaledBelow(maxWeight: real, p: int)
    requires maxWeight >= 0.0 && 0 <= p <= 100
    ensures 0.0 <= Scaled(maxWeight, p) <= maxWeight
  {
    assert maxWeight * p as real + maxWeight * (100 - p) as real == maxWeight * 100.0;
    if maxWeight > 0.0 {
      MulNonNegative(p as real, maxWeight);
      MulNonNegative((100 - p) as real, maxWeight);
    }
  }

  /** A load below 42.25 rounds to a bar load of at most 40. */
  lemma LightLoad(x: real)
    requires x < 42.25
    ensures RoundToNearestLoadableWeight(RoundToNearestHalf(x)) <= 40.0
  {
    var raw := RoundToNearestHalf(x);
    var k := (raw / 0.5).Floor;
    assert raw == k as real * 0.5;
    assert k <= 84;
    var total := RoundToNearestLoadableWeight(raw);
    var m := (total / 5.0).Floor;
    assert total == m as real * 5.0;
    assert m <= 8;
  }

  /**
   * A max below 42.25, negative ones included, shows no row at all: every
   * load rounds to 40 or less.
   */
  lemma {:induction false} RowsEmptyWhenLight(maxWeight: real, barbellWeight: real, percentages: seq<int>)
    requires maxWeight < 42.25
    requires forall k :: 0 <= k < |percentages| ==> 0 <= percentages[k] <= 100
    ensures Rows(maxWeight, barbellWeight, percentages) == []
    decreases |percentages|
  {
    if percentages != [] {
      var p := percentages[0];
      if maxWeight >= 0.0 {
        ScaledBelow(maxWeight, p);
      } else {
        MulNonNegative(p as real, -maxWeight);
        assert maxWeight * p as real == -(p as real * -maxWeight);
      }
      LightLoad(Scaled(maxWeight, p));
      RowsEmptyWhenLight(maxWeight, barbellWeight, percentages[1..]);
    }
  }

  /** 315 at 80% on a 45 bar: 250 on the bar, 102.5 a side, two 45s, a 10 and a 2.5. */
  lemma TableExample45()
    ensures CalculateWeight(315.0, 80, 45.0) == Target(250.0, 102.5)
    ensures MakeRow(315.0, 45.0, 80).breakdown == [45.0, 45.0, 10.0, 2.5]
  {
    RoundToNearestHalfFixes(252.0);
    RoundToNearestLoadableWeightUnique(252.0, 250.0);
    RoundToNearestHalfFixes(102.5);
    GreedyExample();
  }

  /** 100 at 100% on a 35 bar: 100 on the bar, 32.5 a side, a 25, a 5 and a 2.5. */
  lemma TableExample35()
    ensures CalculateWeight(100.0, 100, 35.0) == Target(100.0, 32.5)
    ensures MakeRow(100.0, 35.0, 100).breakdown == [25.0, 5.0, 2.5]
  {
    RoundToNearestHalfFixes(100.0);
    RoundToNearestLoadableWeightFixes(100.0);
    RoundToNearestHalfFixes(32.5);
    GreedyExample35();
  }

  /** A max of 0 shows an empty table, whatever the bar. */
  lemma TableExampleZero(barbellWeight: real)
    ensures Rows(0.0, barbellWeight, TablePercentages) == []
  {
    TablePercentagesSorted();
    RowsEmptyWhenLight(0.0, barbellWeight, TablePercentages);
  }
}
