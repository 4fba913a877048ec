/**
 * `calculateWeightBreakdown`: the greedy split of a per-side weight into
 * plates (src/routes/App.tsx:79-92; the same text is src/App.tsx:61-74).
 */
module PlateBreakdown {
  import opened Rounding

  /** The plates the calculator loads, largest first. */
  const Plates: seq<real> := [45.0, 35.0, 25.0, 10.0, 5.0, 2.5]

  /** The smallest plate, which sets the finest step a side can be loaded in. */
  const SmallestPlate: real := 2.5

  /** `n` copies of `plate`, in the order the inner loop pushes them; none when `n <= 0`. */
  function Repeat(plate: real, n: int): (r: seq<real>)
    ensures |r| == if n > 0 then n else 0
    ensures forall k :: 0 <= k < |r| ==> r[k] == plate
    decreases n
  {
    if n <= 0 then [] else Repeat(plate, n - 1) + [plate]
  }

  function Sum(s: seq<real>): real
  {
    if s == [] then 0.0 else s[0] + Sum(s[1..])
  }

  ghost predicate NonIncreasing(s: seq<real>)
  {
    forall a, b :: 0 <= a < b < |s| ==> s[a] >= s[b]
  }

  /** Every plate weighs something, so the greedy step can divide by it. */
  predicate AllPositive(plates: seq<real>)
  {
    forall i :: 0 <= i < |plates| ==> plates[i] > 0.0
  }

  /** `count` plates fit into `weight`, and one more would not. */
  predicate Fits(count: int, weight: real, plate: real)
  {
    count as real * plate <= weight < count as real * plate + plate
  }

  /**
   * `Math.floor(weight / plate)`, characterised as the one count that fits
   * (`CountIsFloor` shows the two agree).
   */
  function Count(weight: real, plate: real): (count: int)
    requires plate > 0.0
    ensures Fits(count, weight, plate)
  {
    FloorFits(weight, plate);
    forall c: int, d: int | Fits(c, weight, plate) && Fits(d, weight, plate)
      ensures c == d
    {
      FitsUnique(weight, plate, c, d);
    }
    var count :| Fits(count, weight, plate); count
  }

  /** What the greedy step takes off, `count * plate`: never more than the weight. */
  function Taken(weight: real, plate: real): (taken: real)
    requires plate > 0.0
    ensures taken <= weight < taken + plate
  {
    Count(weight, plate) as real * plate
  }

  /** The weight left after the greedy step, `weight -= count * plate`. */
  function Rest(weight: real, plate: real): (rest: real)
    requires plate > 0.0
    ensures 0.0 <= rest < plate
  {
    weight - Taken(weight, plate)
  }

  /**
   * The greedy breakdown of `weight` over `plates`: for each plate in turn take
   * `Math.floor(weight / plate)` copies and subtract them from the weight.
   */
  function Greedy(weight: real, plates: seq<real>): seq<real>
    requires AllPositive(plates)
    decreases |plates|
  {
    if plates == [] then []
    else
      Repeat(plates[0], Count(weight, plates[0])) + Greedy(Rest(weight, plates[0]), plates[1..])
  }

  /** What is left of `weight` once every plate of `plates` has been taken off. */
  function Residual(weight: real, plates: seq<real>): real
    requires AllPositive(plates)
    decreases |plates|
  {
    if plates == [] then weight
    else
      Residual(Rest(weight, plates[0]), plates[1..])
  }

  lemma MulNonNegative(a: real, b: real)
    requires a >= 0.0 && b > 0.0
    ensures a * b >= 0.0
  {
  }

  /** `Math.floor(weight / plate)` plates fit. */
  lemma FloorFits(weight: real, plate: real)
    requires plate > 0.0
    ensures Fits((weight / plate).Floor, weight, plate)
  {
    var q := weight / plate;
    var c := q.Floor;
    assert q * plate == weight;
    MulNonNegative(q - c as real, plate);
    assert (q - c as real) * plate == weight - c as real * plate;
    MulNonNegative(c as real + 1.0 - q, plate);
    assert (c as real + 1.0 - q) * plate == c as real * plate + plate - weight;
    if (c as real + 1.0 - q) * plate == 0.0 {
      assert c as real + 1.0 - q > 0.0;
    }
  }

  /** At most one count fits. */
  lemma FitsUnique(weight: real, plate: real, c: int, d: int)
    requires plate > 0.0
    requires Fits(c, weight, plate) && Fits(d, weight, plate)
    ensures c == d
  {
    if c > d {
      assert (c - d - 1) as real * plate == c as real * plate - d as real * plate - plate;
      MulNonNegative((c - d - 1) as real, plate);
    } else if d > c {
      assert (d - c - 1) as real * plate == d as real * plate - c as real * plate - plate;
      MulNonNegative((d - c - 1) as real, plate);
    }
  }

  /** The count the greedy step takes is exactly `Math.floor(weight / plate)` in `calculateWeightBreakdown`. */
  lemma CountIsFloor(weight: real, plate: real)
    requires plate > 0.0
    ensures Count(weight, plate) == (weight / plate).Floor
  {
    FloorFits(weight, plate);
    FitsUnique(weight, plate, Count(weight, plate), (weight / plate).Floor);
  }

  /** A non-negative weight takes a non-negative count. */
  lemma CountNonNegative(weight: real, plate: real)
    requires plate > 0.0 && weight >= 0.0
    ensures Count(weight, plate) >= 0
  {
    var c := Count(weight, plate);
    if c < 0 {
      assert (-c - 1) as real * plate == -(c as real * plate) - plate;
      MulNonNegative((-c - 1) as real, plate);
    }
  }

  ghost predicate StrictlyDescending(plates: seq<real>)
  {
    forall a, b :: 0 <= a < b < |plates| ==> plates[a] > plates[b]
  }

  /** Every plate weighs a whole number of the smallest plate's 2.5. */
  ghost predicate AllSteps(plates: seq<real>)
  {
    forall i :: 0 <= i < |plates| ==> IsMultipleOf(plates[i], 2.5)
  }

  /** The fixed plate list is positive, strictly decreasing, in steps of 2.5, and ends in 2.5. */
  lemma PlatesFacts()
    ensures AllPositive(Plates) && StrictlyDescending(Plates) && AllSteps(Plates)
    ensures Plates[|Plates| - 1] == SmallestPlate
  {
    assert (45.0 / 2.5).Floor == 18 && (35.0 / 2.5).Floor == 14 && (25.0 / 2.5).Floor == 10;
    assert (10.0 / 2.5).Floor == 4 && (5.0 / 2.5).Floor == 2 && (2.5 / 2.5).Floor == 1;
  }

  /**
   * `calculateWeightBreakdown`: the breakdown over the calculator's own plate
   * list, with the guarantees that list gives it.
   */
  method CalculateWeightBreakdown(weight: real) returns (breakdown: seq<real>)
    ensures breakdown == Greedy(weight, Plates)
    ensures forall k :: 0 <= k < |breakdown| ==> breakdown[k] in Plates
    ensures NonIncreasing(breakdown)
    ensures weight >= 0.0 ==> Sum(breakdown) <= weight < Sum(breakdown) + SmallestPlate
    ensures weight >= 0.0 && IsMultipleOf(weight, 2.5) ==> Sum(breakdown) == weight
  {
    PlatesFacts();
    breakdown := LoadPlates(weight, Plates);
    GreedyFacts(weight);
  }

  /**
   * The loop of `calculateWeightBreakdown`: `forEach` over the plates, an inner
   * `for` loop that pushes `count` copies, then `weight -= count * plate`.
   * `Count` is `Math.floor(weight / plate)` (`CountIsFloor`) and `Rest` is the
   * subtraction.
   */
  method LoadPlates(weight: real, plates: seq<real>) returns (breakdown: seq<real>)
    requires AllPositive(plates)
    ensures breakdown == Greedy(weight, plates)
  {
    var w := weight;
    breakdown := [];
    assert plates[0..] == plates;
    for i := 0 to |plates|
      invariant breakdown + Greedy(w, plates[i..]) == Greedy(weight, plates)
    {
      var plate := plates[i];
      var count := Count(w, plate);
      assert plates[i..][1..] == plates[i + 1..];
      ghost var before := breakdown;
      var j := 0;
      // `count` is negative for a negative weight; the loop then runs no times.
      while j < count
        invariant 0 <= j && (j == 0 || j <= count)
        invariant breakdown == before + Repeat(plate, j)
      {
        breakdown := breakdown + [plate];
        j := j + 1;
      }
      assert Repeat(plate, j) == Repeat(plate, count);
      w := Rest(w, plate);
    }
    assert plates[|plates|..] == [];
  }

  /** What the breakdown of the fixed plate list promises, in one place. */
  lemma GreedyFacts(weight: real)
    ensures var g := Greedy(weight, Plates);
            (forall k :: 0 <= k < |g| ==> g[k] in Plates) && NonIncreasing(g) &&
            (weight >= 0.0 ==> Sum(g) <= weight < Sum(g) + SmallestPlate) &&
            (weight >= 0.0 && IsMultipleOf(weight, 2.5) ==> Sum(g) == weight)
  {
    PlatesFacts();
    GreedyShape(weight, Plates);
    if weight >= 0.0 {
      GreedyBounds(weight);
      if IsMultipleOf(weight, 2.5) {
        GreedyExact(weight);
      }
    }
  }

  lemma {:induction false} SumAppend(a: seq<real>, b: seq<real>)
    ensures Sum(a + b) == Sum(a) + Sum(b)
  {
    if a == [] {
      assert a + b == b;
    } else {
      assert (a + b)[1..] == a[1..] + b;
      SumAppend(a[1..], b);
    }
  }

  lemma {:induction false} SumRepeat(plate: real, n: nat)
    ensures Sum(Repeat(plate, n)) == n as real * plate
  {
    if n > 0 {
      SumRepeat(plate, n - 1);
      SumAppend(Repeat(plate, n - 1), [plate]);
      assert Sum([plate]) == plate + Sum([]);
    }
  }

  /** The copies the greedy step pushes weigh what it takes off. */
  lemma SumTaken(weight: real, plate: real)
    requires plate > 0.0 && weight >= 0.0
    ensures Sum(Repeat(plate, Count(weight, plate))) == Taken(weight, plate)
  {
    CountNonNegative(weight, plate);
    SumRepeat(plate, Count(weight, plate));
  }

  /**
   * Over a strictly decreasing plate list the breakdown only holds plates of
   * the list, largest first, none above the first plate.
   */
  lemma {:induction false} GreedyShape(weight: real, plates: seq<real>)
    requires AllPositive(plates) && StrictlyDescending(plates)
    ensures var g := Greedy(weight, plates);
            NonIncreasing(g) &&
            forall k :: 0 <= k < |g| ==> g[k] in plates && (plates != [] ==> g[k] <= plates[0])
    decreases |plates|
  {
    if plates != [] {
      var rest := Rest(weight, plates[0]);
      GreedyShape(rest, plates[1..]);
      var head, tail := Repeat(plates[0], Count(weight, plates[0])), Greedy(rest, plates[1..]);
      assert Greedy(weight, plates) == head + tail;
      forall k | 0 <= k < |tail|
        ensures tail[k] < plates[0] && tail[k] in plates
      {
        assert tail[k] <= plates[1];
      }
    }
  }

  /** Copies of one plate are contiguous: a consequence of the order alone. */
  lemma PlatesContiguous(s: seq<real>)
    requires NonIncreasing(s)
    ensures forall a, k, b :: 0 <= a < k < b < |s| && s[a] == s[b] ==> s[k] == s[a]
  {
  }

  /**
   * For a non-negative weight the breakdown and the dropped residual add up to
   * the weight, and the residual is below the last plate.
   */
  lemma {:induction false} GreedyPlusResidual(weight: real, plates: seq<real>)
    requires AllPositive(plates)
    requires weight >= 0.0
    ensures Sum(Greedy(weight, plates)) + Residual(weight, plates) == weight
    ensures 0.0 <= Residual(weight, plates)
    ensures plates != [] ==> Residual(weight, plates) < plates[|plates| - 1]
    decreases |plates|
  {
    if plates != [] {
      var plate := plates[0];
      var rest := Rest(weight, plate);
      CountNonNegative(weight, plate);
      GreedyPlusResidual(rest, plates[1..]);
      SumAppend(Repeat(plate, Count(weight, plate)), Greedy(rest, plates[1..]));
      SumTaken(weight, plate);
    }
  }

  /**
   * For a non-negative weight the breakdown never exceeds it, and what it
   * silently drops is less than the smallest plate.
   */
  lemma GreedyBounds(weight: real)
    requires weight >= 0.0
    ensures Sum(Greedy(weight, Plates)) <= weight < Sum(Greedy(weight, Plates)) + SmallestPlate
  {
    PlatesFacts();
    GreedyPlusResidual(weight, Plates);
  }

  /** Taking whole plates that weigh a multiple of 2.5 off a multiple of 2.5 leaves one. */
  lemma StepKeepsMultiple(weight: real, plate: real)
    requires plate > 0.0
    requires IsMultipleOf(weight, 2.5) && IsMultipleOf(plate, 2.5)
    ensures IsMultipleOf(Rest(weight, plate), 2.5)
  {
    var count := Count(weight, plate);
    var k, m := (weight / 2.5).Floor, (plate / 2.5).Floor;
    assert weight == k as real * 2.5 && plate == m as real * 2.5;
    assert (count * m) as real == count as real * m as real;
    assert count as real * plate == (count * m) as real * 2.5;
    assert Rest(weight, plate) / 2.5 == (k - count * m) as real;
  }

  lemma {:induction false} ResidualMultiple(weight: real, plates: seq<real>)
    requires AllPositive(plates) && AllSteps(plates)
    requires IsMultipleOf(weight, 2.5)
    ensures IsMultipleOf(Residual(weight, plates), 2.5)
    decreases |plates|
  {
    if plates != [] {
      StepKeepsMultiple(weight, plates[0]);
      ResidualMultiple(Rest(weight, plates[0]), plates[1..]);
    }
  }

  /** Over plates that end in 2.5, a non-negative multiple of 2.5 leaves nothing. */
  lemma ResidualZero(weight: real, plates: seq<real>)
    requires AllPositive(plates) && AllSteps(plates)
    requires plates != [] && plates[|plates| - 1] == 2.5
    requires weight >= 0.0 && IsMultipleOf(weight, 2.5)
    ensures Residual(weight, plates) == 0.0
  {
    GreedyPlusResidual(weight, plates);
    ResidualMultiple(weight, plates);
    var r := Residual(weight, plates);
    var k := (r / 2.5).Floor;
    assert r == k as real * 2.5;
    assert k == 0;
  }

  /** A non-negative multiple of 2.5 is loaded exactly: nothing is dropped. */
  lemma GreedyExact(weight: real)
    requires weight >= 0.0
    requires IsMultipleOf(weight, 2.5)
    ensures Sum(Greedy(weight, Plates)) == weight
  {
    PlatesFacts();
    ResidualZero(weight, Plates);
    GreedyPlusResidual(weight, Plates);
  }

  /** The greedy step on a weight whose count is known. */
  lemma GreedyCons(weight: real, plates: seq<real>, count: int, rest: real)
    requires AllPositive(plates) && plates != []
    requires Fits(count, weight, plates[0]) && rest == weight - count as real * plates[0]
    ensures Greedy(weight, plates) == Repeat(plates[0], count) + Greedy(rest, plates[1..])
  {
    FitsUnique(weight, plates[0], count, Count(weight, plates[0]));
    assert Taken(weight, plates[0]) == count as real * plates[0];
  }

  /** The last two plates load 2.5 as one 2.5. */
  lemma ExampleSmallPlates()
    ensures Greedy(2.5, [5.0, 2.5]) == [2.5]
  {
    GreedyCons(2.5, [5.0, 2.5], 0, 2.5);
    assert [5.0, 2.5][1..] == [2.5];
    GreedyCons(2.5, [2.5], 1, 0.0);
    assert Repeat(2.5, 1) == [2.5];
    assert [2.5][1..] == [];
  }

  /** From the 10 down, 12.5 is a 10 and a 2.5. */
  lemma ExampleFromTen()
    ensures Greedy(12.5, [10.0, 5.0, 2.5]) == [10.0, 2.5]
  {
    GreedyCons(12.5, [10.0, 5.0, 2.5], 1, 2.5);
    assert Repeat(10.0, 1) == [10.0];
    assert [10.0, 5.0, 2.5][1..] == [5.0, 2.5];
    ExampleSmallPlates();
  }

  /** Below the 45s, 12.5 is a 10 and a 2.5. */
  lemma ExampleMiddlePlates()
    ensures Greedy(12.5, [35.0, 25.0, 10.0, 5.0, 2.5]) == [10.0, 2.5]
  {
    GreedyCons(12.5, [35.0, 25.0, 10.0, 5.0, 2.5], 0, 12.5);
    assert [35.0, 25.0, 10.0, 5.0, 2.5][1..] == [25.0, 10.0, 5.0, 2.5];
    ExampleFromTwentyFive();
  }

  /** From the 25 down, 12.5 is a 10 and a 2.5. */
  lemma ExampleFromTwentyFive()
    ensures Greedy(12.5, [25.0, 10.0, 5.0, 2.5]) == [10.0, 2.5]
  {
    GreedyCons(12.5, [25.0, 10.0, 5.0, 2.5], 0, 12.5);
    assert [25.0, 10.0, 5.0, 2.5][1..] == [10.0, 5.0, 2.5];
    ExampleFromTen();
  }

  /** 102.5 per side is two 45s, a 10 and a 2.5. */
  lemma GreedyExample()
    ensures Greedy(102.5, Plates) == [45.0, 45.0, 10.0, 2.5]
  {
    PlatesFacts();
    GreedyCons(102.5, Plates, 2, 12.5);
    assert Repeat(45.0, 2) == [45.0, 45.0];
    assert Plates[1..] == [35.0, 25.0, 10.0, 5.0, 2.5];
    ExampleMiddlePlates();
  }

  /** From the 10 down, 7.5 is a 5 and a 2.5. */
  lemma ExampleSevenAndAHalf()
    ensures Greedy(7.5, [10.0, 5.0, 2.5]) == [5.0, 2.5]
  {
    GreedyCons(7.5, [10.0, 5.0, 2.5], 0, 7.5);
    assert [10.0, 5.0, 2.5][1..] == [5.0, 2.5];
    ExampleSmallPlates75();
  }

  /** The last two plates load 7.5 as a 5 and a 2.5. */
  lemma ExampleSmallPlates75()
    ensures Greedy(7.5, [5.0, 2.5]) == [5.0, 2.5]
  {
    GreedyCons(7.5, [5.0, 2.5], 1, 2.5);
    assert Repeat(5.0, 1) == [5.0];
    assert [5.0, 2.5][1..] == [2.5];
    GreedyCons(2.5, [2.5], 1, 0.0);
    assert Repeat(2.5, 1) == [2.5];
    assert [2.5][1..] == [];
  }

  /** From the 25 down, 32.5 is a 25, a 5 and a 2.5. */
  lemma ExampleFromTwentyFive35()
    ensures Greedy(32.5, [25.0, 10.0, 5.0, 2.5]) == [25.0, 5.0, 2.5]
  {
    GreedyCons(32.5, [25.0, 10.0, 5.0, 2.5], 1, 7.5);
    assert Repeat(25.0, 1) == [25.0];
    assert [25.0, 10.0, 5.0, 2.5][1..] == [10.0, 5.0, 2.5];
    ExampleSevenAndAHalf();
  }

  /** Below the 45s, 32.5 is a 25, a 5 and a 2.5. */
  lemma ExampleThirtyTwoAndAHalf()
    ensures Greedy(32.5, [35.0, 25.0, 10.0, 5.0, 2.5]) == [25.0, 5.0, 2.5]
  {
    GreedyCons(32.5, [35.0, 25.0, 10.0, 5.0, 2.5], 0, 32.5);
    assert [35.0, 25.0, 10.0, 5.0, 2.5][1..] == [25.0, 10.0, 5.0, 2.5];
    ExampleFromTwentyFive35();
  }

  /** 32.5 per side is a 25, a 5 and a 2.5. */
  lemma GreedyExample35()
    ensures Greedy(32.5, Plates) == [25.0, 5.0, 2.5]
  {
    PlatesFacts();
    GreedyCons(32.5, Plates, 0, 32.5);
    assert Plates[1..] == [35.0, 25.0, 10.0, 5.0, 2.5];
    ExampleThirtyTwoAndAHalf();
  }
}
