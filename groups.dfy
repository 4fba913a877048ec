/**
 * `groupPlates` (src/routes/App.tsx:94-104): count each plate of a breakdown
 * in a dictionary, then list the (plate, count) entries sorted by plate,
 * largest first.
 */
module PlateGroups {
  import opened PlateBreakdown

  /** One entry of the grouped display: a plate and how many copies of it. */
  datatype PlateCount = PlateCount(plate: real, count: nat)

  /** The plates named by the entries, as a set. */
  function PlateSet(gs: seq<PlateCount>): (r: set<real>)
    ensures forall k :: 0 <= k < |gs| ==> gs[k].plate in r
  {
    if gs == [] then {} else {gs[0].plate} + PlateSet(gs[1..])
  }

  /** Total number of plates the entries stand for. */
  function CountSum(gs: seq<PlateCount>): int
  {
    if gs == [] then 0 else gs[0].count + CountSum(gs[1..])
  }

  /** Total weight the entries stand for. */
  function WeightSum(gs: seq<PlateCount>): real
  {
    if gs == [] then 0.0 else gs[0].count as real * gs[0].plate + WeightSum(gs[1..])
  }

  /** The entries written out again, `count` copies of each plate in turn. */
  function Expand(gs: seq<PlateCount>): seq<real>
  {
    if gs == [] then [] else Repeat(gs[0].plate, gs[0].count) + Expand(gs[1..])
  }

  ghost predicate DescendingPlates(gs: seq<PlateCount>)
  {
    forall a, b :: 0 <= a < b < |gs| ==> gs[a].plate > gs[b].plate
  }

  /**
   * `gs` is the grouping of `s`: one entry per distinct plate of `s`, with the
   * number of times it occurs, sorted by plate from largest to smallest.
   */
  ghost predicate GroupsOf(gs: seq<PlateCount>, s: seq<real>)
  {
    DescendingPlates(gs) &&
    PlateSet(gs) == (set x | x in s) &&
    forall k :: 0 <= k < |gs| ==> gs[k].count == multiset(s)[gs[k].plate]
  }

  /** `x` is the largest of `keys`. */
  predicate IsLargest(x: real, keys: set<real>)
  {
    x in keys && forall y :: y in keys ==> y <= x
  }

  lemma {:induction false} LargestExists(keys: set<real>)
    requires keys != {}
    ensures exists x :: IsLargest(x, keys)
    decreases |keys|
  {
    // Names a member of `keys` for the `:|` pick below.
    if forall x :: x !in keys {
      assert false;
    }
    var x :| x in keys;
    if keys == {x} {
      assert IsLargest(x, keys);
    } else {
      LargestExists(keys - {x});
      var y :| IsLargest(y, keys - {x});
      var top := if x <= y then y else x;
      forall z | z in keys
        ensures z <= top
      {
        if z != x {
          assert z in keys - {x};
        }
      }
      assert IsLargest(top, keys);
    }
  }

  /** The largest key of a non-empty dictionary. */
  function Largest(m: map<real, nat>): (x: real)
    requires |m| > 0
    ensures IsLargest(x, m.Keys)
  {
    assert |m.Keys| > 0;
    LargestExists(m.Keys);
    var x :| IsLargest(x, m.Keys); x
  }

  /**
   * `Object.entries(plateCounts).map(...).sort((a, b) => b.plate - a.plate)`:
   * every entry of the dictionary, largest plate first.
   */
  function SortedEntries(m: map<real, nat>): (gs: seq<PlateCount>)
    ensures |gs| == |m|
    ensures DescendingPlates(gs)
    ensures PlateSet(gs) == m.Keys
    ensures forall k :: 0 <= k < |gs| ==> gs[k].plate in m && gs[k].count == m[gs[k].plate]
    decreases |m|
  {
    if |m| == 0 then []
    else
      var top := Largest(m);
      var rest := SortedEntries(m - {top});
      assert PlateSet([PlateCount(top, m[top])] + rest) == {top} + PlateSet(rest) by {
        assert ([PlateCount(top, m[top])] + rest)[1..] == rest;
      }
      [PlateCount(top, m[top])] + rest
  }

  /**
   * `groupPlates`: a `forEach` that bumps `plateCounts[plate]` (starting from 0),
   * then the sorted entries of the dictionary.
   */
  method GroupPlates(plates: seq<real>) returns (groups: seq<PlateCount>)
    ensures GroupsOf(groups, plates)
  {
    var plateCounts: map<real, nat> := map[];
    for i := 0 to |plates|
      invariant plateCounts.Keys == set x | x in plates[..i]
      invariant forall x :: x in plateCounts ==> plateCounts[x] == multiset(plates[..i])[x]
    {
      var plate := plates[i];
      var previous := if plate in plateCounts then plateCounts[plate] else 0;
      assert plates[..i + 1] == plates[..i] + [plate];
      plateCounts := plateCounts[plate := previous + 1];
    }
    assert plates[..|plates|] == plates;
    groups := SortedEntries(plateCounts);
  }

  /** `s` without any copy of `p`, in the same order. */
  function Without(s: seq<real>, p: real): (r: seq<real>)
    ensures forall x :: x in r <==> x in s && x != p
    ensures forall x :: x != p ==> multiset(r)[x] == multiset(s)[x]
    ensures |s| == multiset(s)[p] + |r|
  {
    if s == [] then []
    else
      assert s == [s[0]] + s[1..];
      if s[0] == p then Without(s[1..], p) else [s[0]] + Without(s[1..], p)
  }

  /** Taking every `p` out of `s` takes all its copies off the sum. */
  lemma {:induction false} SumWithout(s: seq<real>, p: real)
    ensures Sum(s) == Sum(Repeat(p, multiset(s)[p])) + Sum(Without(s, p))
  {
    if s != [] {
      var n, w := multiset(s[1..])[p], Without(s[1..], p);
      SumWithout(s[1..], p);
      OccurrencesCons(s, p);
      if s[0] == p {
        assert multiset(s)[p] == n + 1;
        SumAppend(Repeat(p, n), [p]);
        assert Sum([p]) == p + Sum([]);
      } else {
        assert multiset(s)[p] == n;
        assert ([s[0]] + w)[1..] == w;
      }
    }
  }

  /** The copies of `p` in `s` are those in its head and those in its tail. */
  lemma OccurrencesCons(s: seq<real>, p: real)
    requires s != []
    ensures multiset(s)[p] == (if s[0] == p then 1 else 0) + multiset(s[1..])[p]
  {
    assert s == [s[0]] + s[1..];
  }

  /** Dropping the first entry of a grouping leaves the grouping of the rest. */
  lemma GroupsOfTail(gs: seq<PlateCount>, s: seq<real>)
    requires GroupsOf(gs, s) && gs != []
    ensures GroupsOf(gs[1..], Without(s, gs[0].plate))
  {
    var p, t := gs[0].plate, Without(s, gs[0].plate);
    assert PlateSet(gs) == {p} + PlateSet(gs[1..]);
    forall x | x in PlateSet(gs[1..])
      ensures x != p
    {
      var k :| 0 <= k < |gs[1..]| && gs[1..][k].plate == x by {
        PlateSetMembers(gs[1..], x);
      }
      assert gs[k + 1].plate < p;
    }
    assert PlateSet(gs[1..]) == (set x | x in t);
  }

  lemma {:induction false} PlateSetMembers(gs: seq<PlateCount>, x: real)
    requires x in PlateSet(gs)
    ensures exists k :: 0 <= k < |gs| && gs[k].plate == x
  {
    if gs[0].plate != x {
      PlateSetMembers(gs[1..], x);
      var k :| 0 <= k < |gs[1..]| && gs[1..][k].plate == x;
      assert gs[k + 1].plate == x;
    }
  }

  /**
   * A grouping accounts for every plate: the counts add up to the number of
   * plates and the counted weight to their total weight; no count is zero.
   */
  lemma GroupsTotals(gs: seq<PlateCount>, s: seq<real>)
    requires GroupsOf(gs, s)
    ensures CountSum(gs) == |s|
    ensures WeightSum(gs) == Sum(s)
    ensures forall k :: 0 <= k < |gs| ==> gs[k].count >= 1
  {
    GroupsPositive(gs, s);
    GroupsCount(gs, s);
    GroupsExpandSum(gs, s);
    WeightSumExpand(gs);
  }

  lemma {:induction false} GroupsCount(gs: seq<PlateCount>, s: seq<real>)
    requires GroupsOf(gs, s)
    ensures CountSum(gs) == |s|
    decreases |gs|
  {
    if s != [] {
      GroupsOfNonEmpty(gs, s);
    }
    if gs != [] {
      assert gs[0].count == multiset(s)[gs[0].plate];
      GroupsOfTail(gs, s);
      GroupsCount(gs[1..], Without(s, gs[0].plate));
    }
  }

  lemma {:induction false} GroupsExpandSum(gs: seq<PlateCount>, s: seq<real>)
    requires GroupsOf(gs, s)
    ensures Sum(Expand(gs)) == Sum(s)
    decreases |gs|
  {
    if s != [] {
      GroupsOfNonEmpty(gs, s);
    }
    if gs != [] {
      assert gs[0].count == multiset(s)[gs[0].plate];
      GroupsOfTail(gs, s);
      GroupsExpandSum(gs[1..], Without(s, gs[0].plate));
      SumWithout(s, gs[0].plate);
      SumAppend(Repeat(gs[0].plate, gs[0].count), Expand(gs[1..]));
    }
  }

  /** The weighted sum of the entries is the weight of the plates they stand for. */
  lemma {:induction false} WeightSumExpand(gs: seq<PlateCount>)
    ensures WeightSum(gs) == Sum(Expand(gs))
  {
    if gs != [] {
      var h, t := Repeat(gs[0].plate, gs[0].count), Expand(gs[1..]);
      EntryWeight(gs[0], h, WeightSum(gs), WeightSum(gs[1..]));
      assert Expand(gs) == h + t;
      WeightSumExpand(gs[1..]);
      SumAppend(h, t);
    }
  }

  lemma EntryWeight(e: PlateCount, h: seq<real>, total: real, rest: real)
    requires h == Repeat(e.plate, e.count) && total == e.count as real * e.plate + rest
    ensures total == Sum(h) + rest
  {
    SumRepeat(e.plate, e.count);
  }

  /** A breakdown with plates has at least one entry. */
  lemma GroupsOfNonEmpty(gs: seq<PlateCount>, s: seq<real>)
    requires GroupsOf(gs, s) && s != []
    ensures gs != []
  {
    assert s[0] in (set x | x in s);
    assert s[0] in PlateSet(gs);
  }

  lemma GroupsPositive(gs: seq<PlateCount>, s: seq<real>)
    requires GroupsOf(gs, s)
    ensures forall k :: 0 <= k < |gs| ==> gs[k].count >= 1
  {
    forall k | 0 <= k < |gs|
      ensures gs[k].count >= 1
    {
      assert gs[k].plate in (set x | x in s);
    }
  }

  /** The grouping of a breakdown is determined by the breakdown. */
  lemma {:induction false} GroupsUnique(gs: seq<PlateCount>, hs: seq<PlateCount>, s: seq<real>)
    requires GroupsOf(gs, s) && GroupsOf(hs, s)
    ensures gs == hs
    decreases |gs|
  {
    if gs == [] || hs == [] {
    } else {
      HeadIsLargest(gs, s);
      HeadIsLargest(hs, s);
      assert gs[0].plate == hs[0].plate;
      GroupsOfTail(gs, s);
      GroupsOfTail(hs, s);
      GroupsUnique(gs[1..], hs[1..], Without(s, gs[0].plate));
      assert gs == [gs[0]] + gs[1..] && hs == [hs[0]] + hs[1..];
    }
  }

  /** The first entry of a grouping holds the heaviest plate of the breakdown. */
  lemma HeadIsLargest(gs: seq<PlateCount>, s: seq<real>)
    requires GroupsOf(gs, s) && gs != []
    ensures IsLargest(gs[0].plate, set x | x in s)
  {
    forall y | y in s
      ensures y <= gs[0].plate
    {
      PlateSetMembers(gs, y);
      var k :| 0 <= k < |gs| && gs[k].plate == y;
      assert k == 0 || gs[0].plate > gs[k].plate;
    }
  }

  /** The breakdown of 102.5 per side groups into two 45s, one 10 and one 2.5. */
  lemma GroupsExample()
    ensures GroupsOf([PlateCount(45.0, 2), PlateCount(10.0, 1), PlateCount(2.5, 1)],
                     [45.0, 45.0, 10.0, 2.5])
  {
    var s := [45.0, 45.0, 10.0, 2.5];
    var gs := [PlateCount(45.0, 2), PlateCount(10.0, 1), PlateCount(2.5, 1)];
    assert multiset(s) == multiset{45.0, 45.0, 10.0, 2.5};
    assert PlateSet(gs) == {45.0, 10.0, 2.5} by {
      assert gs[1..][1..][1..] == [];
    }
    assert (set x | x in s) == {45.0, 10.0, 2.5};
  }
}
