/**
 * The older calculator (src/App.tsx): the same rounding and breakdown, a bar
 * fixed at 45, percentages from 95 down to 40, and a displayed bar total that
 * is added up again from the plates.
 */
module LegacyCalculator {
  import opened Rounding
  import opened PlateBreakdown
  import opened PercentageTable

  /** The bar the old page assumes. */
  const Bar: real := 45.0

  /** The old page's percentages; there is no 100% card. */
  const LegacyPercentages: seq<int> := [95, 90, 85, 80, 75, 70, 65, 60, 55, 50, 45, 40]

  /** `calculateWeight` with the bar fixed at 45. */
  function CalculateWeight45(maxWeight: real, percentage: int): (t: Target)
    ensures IsMultipleOf(t.totalWeight, 5.0)
    ensures IsMultipleOf(t.perSide, 0.5)
    ensures (t.totalWeight - Bar) / 2.0 - 0.25 < t.perSide <= (t.totalWeight - Bar) / 2.0 + 0.25
  {
    var totalWeight := RoundToNearestHalf(Scaled(maxWeight, percentage));
    var roundedWeight := RoundToNearestLoadableWeight(totalWeight);
    var perSide := RoundToNearestHalf((roundedWeight - 45.0) / 2.0);
    Target(roundedWeight, perSide)
  }

  /** The old `calculateWeight` is the current one on a 45 bar. */
  lemma CalculateWeight45IsRoute(maxWeight: real, percentage: int)
    ensures CalculateWeight45(maxWeight, percentage) == CalculateWeight(maxWeight, percentage, Bar)
  {
  }

  /** `breakdown.reduce((sum, plate) => sum + plate * 2, 45)`, folded from the left. */
  function BarTotal(sum: real, plates: seq<real>): (total: real)
    ensures (forall k :: 0 <= k < |plates| ==> plates[k] >= 0.0) ==> total >= sum
    decreases |plates|
  {
    if plates == [] then sum else BarTotal(sum + plates[0] * 2.0, plates[1..])
  }

  /** The fold adds twice the plates to its starting value. */
  lemma {:induction false} BarTotalIsTwiceSum(sum: real, plates: seq<real>)
    ensures BarTotal(sum, plates) == sum + 2.0 * Sum(plates)
    decreases |plates|
  {
    if plates != [] {
      BarTotalIsTwiceSum(sum + plates[0] * 2.0, plates[1..]);
    }
  }

  /** One card of the old page: a row and the total it displays. */
  datatype Card = Card(row: Row, displayedTotal: real)

  /**
   * The cards: each percentage through the 45-bar `calculateWeight`, skipped
   * below 45, otherwise its breakdown and the folded bar total.
   */
  function Cards(maxWeight: real, percentages: seq<int>): (cards: seq<Card>)
    ensures |cards| <= |percentages|
  {
    if percentages == [] then []
    else
      var t := CalculateWeight45(maxWeight, percentages[0]);
      var rest := Cards(maxWeight, percentages[1..]);
      if t.totalWeight < 45.0 then rest
      else
        PlatesFacts();
        var breakdown := Greedy(t.perSide, Plates);
        [Card(Row(percentages[0], t, breakdown), BarTotal(45.0, breakdown))] + rest
  }

  function RowsOf(cards: seq<Card>): seq<Row>
  {
    if cards == [] then [] else [cards[0].row] + RowsOf(cards[1..])
  }

  /** The old page shows the rows the current one shows on a 45 bar, in the same order. */
  lemma {:induction false} CardsAreRows(maxWeight: real, percentages: seq<int>)
    ensures RowsOf(Cards(maxWeight, percentages)) == Rows(maxWeight, Bar, percentages)
    decreases |percentages|
  {
    if percentages != [] {
      CalculateWeight45IsRoute(maxWeight, percentages[0]);
      CardsAreRows(maxWeight, percentages[1..]);
      var t := CalculateWeight45(maxWeight, percentages[0]);
      if t.totalWeight >= 45.0 {
        var c := Cards(maxWeight, percentages);
        assert c[1..] == Cards(maxWeight, percentages[1..]);
      }
    }
  }

  /**
   * On every card the displayed total equals the bar load, and the load is
   * positive, so the plate stack (drawn only when `totalWeight > 0`) is shown.
   */
  lemma CardsDisplayBarLoad(maxWeight: real, percentages: seq<int>)
    ensures forall c :: c in Cards(maxWeight, percentages) ==>
              c.displayedTotal == c.row.target.totalWeight && c.row.target.totalWeight > 0.0
  {
    forall c | c in Cards(maxWeight, percentages)
      ensures c.displayedTotal == c.row.target.totalWeight && c.row.target.totalWeight > 0.0
    {
      CardShape(maxWeight, percentages, c);
      var t := c.row.target;
      assert IsMultipleOf(Bar, 5.0) by {
        assert (45.0 / 5.0).Floor == 9;
      }
      TargetLoadable(maxWeight, c.row.percentage, Bar);
      BarTotalIsTwiceSum(45.0, c.row.breakdown);
    }
  }

  /** Each card is the one its percentage produces. */
  lemma {:induction false} CardShape(maxWeight: real, percentages: seq<int>, c: Card)
    requires c in Cards(maxWeight, percentages)
    ensures c.row.target == CalculateWeight(maxWeight, c.row.percentage, Bar)
    ensures c.row.target.totalWeight >= 45.0
    ensures c.row.breakdown == Greedy(c.row.target.perSide, Plates)
    ensures c.displayedTotal == BarTotal(45.0, c.row.breakdown)
    decreases |percentages|
  {
    var t := CalculateWeight45(maxWeight, percentages[0]);
    CalculateWeight45IsRoute(maxWeight, percentages[0]);
    if c !in Cards(maxWeight, percentages[1..]) {
      PlatesFacts();
      assert c == Card(Row(percentages[0], t, Greedy(t.perSide, Plates)),
                       BarTotal(45.0, Greedy(t.perSide, Plates)));
    } else {
      CardShape(maxWeight, percentages[1..], c);
    }
  }

  /** The old percentages run from 95 down to 40 in steps of 5; 100 is not one of them. */
  lemma LegacyPercentagesShape()
    ensures StrictlyDecreasing(LegacyPercentages)
    ensures forall k :: 0 <= k < |LegacyPercentages| ==> LegacyPercentages[k] == 95 - 5 * k
    ensures 100 !in LegacyPercentages
    ensures TablePercentages == [100] + LegacyPercentages
  {
  }

  /** The old page lists its cards largest percentage first, and never a 100% card. */
  lemma LegacyCardsOrdered(maxWeight: real)
    ensures StrictlyDecreasing(Shown(RowsOf(Cards(maxWeight, LegacyPercentages))))
    ensures 100 !in Shown(RowsOf(Cards(maxWeight, LegacyPercentages)))
  {
    LegacyPercentagesShape();
    CardsAreRows(maxWeight, LegacyPercentages);
    RowsOrdered(maxWeight, Bar, LegacyPercentages);
    RowsMembers(maxWeight, Bar, LegacyPercentages, 100);
  }
}
