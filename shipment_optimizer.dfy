/**
 * Shipment selection: the exhaustive search over every subset of the
 * remaining packages, encoded as a bitmask, for the one to load next.
 *
 * Masks are unbounded naturals below 2^n. This agrees with the 32-bit
 * shifts of the original for n <= 30 packages.
 */
module Shipments {
  import opened Base
  import opened Packages

  function Pow2(n: nat): (r: nat)
    ensures r >= 1
  {
    if n == 0 then 1 else 2 * Pow2(n - 1)
  }

  /** Bit `i` of `mask` is set, i.e. `mask & (1 << i)` is non-zero. */
  predicate Bit(mask: nat, i: nat)
  {
    if i == 0 then mask % 2 == 1 else Bit(mask / 2, i - 1)
  }

  /** The packages among the first `i` of `s` whose bit is set in `mask`, in their original order. */
  function SelectUpTo(s: seq<Package>, mask: nat, i: nat): (r: seq<Package>)
    requires i <= |s|
    ensures |r| <= i
  {
    if i == 0 then [] else SelectUpTo(s, mask, i - 1) + (if Bit(mask, i - 1) then [s[i - 1]] else [])
  }

  /** The subset of `s` that `mask` encodes, in the order of `s`. */
  function Select(s: seq<Package>, mask: nat): seq<Package>
  {
    SelectUpTo(s, mask, |s|)
  }

  /** Sum of the weights, added in order. */
  function TotalWeight(ps: seq<Package>): real
  {
    if ps == [] then 0.0 else TotalWeight(ps[..|ps| - 1]) + ps[|ps| - 1].weight
  }

  /** `Math.max` of 0 and the distances: the running maximum the enumeration keeps. */
  function FarthestOrZero(ps: seq<Package>): real
  {
    if ps == [] then 0.0 else Max(FarthestOrZero(ps[..|ps| - 1]), ps[|ps| - 1].distance)
  }

  /** Every running total of the weights, taken in order, stays within `capacity`. */
  predicate RunningWeightWithin(ps: seq<Package>, capacity: real)
  {
    ps == [] || (RunningWeightWithin(ps[..|ps| - 1], capacity) && TotalWeight(ps) <= capacity)
  }

  /**
   * A mask the enumeration keeps: it selects at least one package and the
   * running weight never exceeds the capacity (the inner loop gives up on
   * a subset as soon as it does).
   */
  predicate Feasible(s: seq<Package>, mask: nat, capacity: real)
  {
    var ps := Select(s, mask);
    |ps| > 0 && RunningWeightWithin(ps, capacity)
  }

  /** The record `best` of the enumeration: `{mask, count, totalWeight, maxDist}`. */
  datatype Candidate = Candidate(mask: nat, count: int, totalWeight: real, maxDist: real)

  /** The metrics the enumeration computes for a mask. */
  function Score(s: seq<Package>, mask: nat): (c: Candidate)
    ensures c.mask == mask && c.count == |Select(s, mask)|
  {
    var ps := Select(s, mask);
    Candidate(mask, |ps|, TotalWeight(ps), FarthestOrZero(ps))
  }

  /** `a` replaces `b`: more packages, else heavier, else a smaller farthest distance. */
  predicate Outranks(a: Candidate, b: Candidate)
  {
    a.count > b.count ||
    (a.count == b.count && a.totalWeight > b.totalWeight) ||
    (a.count == b.count && a.totalWeight == b.totalWeight && a.maxDist < b.maxDist)
  }

  /**
   * `m` is the mask the enumeration settles on: feasible, outranked by no
   * feasible mask, and strictly better than every feasible mask enumerated
   * before it (ties go to the lowest mask).
   */
  ghost predicate IsChosenMask(s: seq<Package>, capacity: real, m: nat)
  {
    && 1 <= m < Pow2(|s|)
    && Feasible(s, m, capacity)
    && forall m' :: 1 <= m' < Pow2(|s|) && Feasible(s, m', capacity) ==>
         !Outranks(Score(s, m'), Score(s, m)) && (m' < m ==> Outranks(Score(s, m), Score(s, m')))
  }

  /** Some subset can be loaded. */
  ghost predicate SomeFeasible(s: seq<Package>, capacity: real)
  {
    exists m :: 1 <= m < Pow2(|s|) && Feasible(s, m, capacity)
  }

  /** `t` consists of the elements of `s` at the strictly increasing positions `idx`. */
  predicate IndexedBy(t: seq<Package>, s: seq<Package>, idx: seq<nat>)
  {
    && |idx| == |t|
    && (forall k :: 0 <= k < |idx| ==> idx[k] < |s| && t[k] == s[idx[k]])
    && (forall j, k :: 0 <= j < k < |idx| ==> idx[j] < idx[k])
  }

  ghost predicate IsSubsequence(t: seq<Package>, s: seq<Package>)
  {
    exists idx :: IndexedBy(t, s, idx)
  }

  /**
   * `findBestShipment`: enumerates every mask, keeps the best feasible
   * one under `Outranks` (strict, so the lowest mask wins exact ties),
   * falls back to the first package that fits alone when no mask was
   * kept, and builds the result in the order of `remaining`.
   */
  method FindBestShipment(remaining: seq<Package>, capacity: real) returns (shipment: seq<Package>)
    ensures IsSubsequence(shipment, remaining)
    ensures RunningWeightWithin(shipment, capacity)
    ensures |shipment| > 0 <==> exists i :: 0 <= i < |remaining| && remaining[i].weight <= capacity
    ensures SomeFeasible(remaining, capacity) ==>
      exists m :: IsChosenMask(remaining, capacity, m) && shipment == Select(remaining, m)
    ensures SomeFeasible(remaining, capacity) ==> shipment == ChosenShipment(remaining, capacity)
  {
    var n := |remaining|;
    // The original starts `maxDist` at Infinity; it is never compared, because
    // the first feasible mask has count >= 1 > 0 and wins on count alone.
    var best := Candidate(0, 0, 0.0, 0.0);
    var mask := 1;
    while mask < Pow2(n)
      invariant 1 <= mask <= Pow2(n)
      invariant best.count == 0 ==> forall m :: 1 <= m < mask ==> !Feasible(remaining, m, capacity)
      invariant best.count != 0 ==>
        && 1 <= best.mask < mask
        && Feasible(remaining, best.mask, capacity)
        && best == Score(remaining, best.mask)
        && forall m :: 1 <= m < mask && Feasible(remaining, m, capacity) ==>
             !Outranks(Score(remaining, m), best) && (m < best.mask ==> Outranks(best, Score(remaining, m)))
    {
      var count, weight, distance := MeasureSubset(remaining, mask, capacity);
      if count > 0 {
        var current := Candidate(mask, count, weight, distance);
        if Outranks(current, best) {
          best := current;
        }
      }
      mask := mask + 1;
    }

    if best.count == 0 {
      // Try to fit at least one package on its own.
      var i := 0;
      while i < n
        invariant 0 <= i <= n
        invariant forall j :: 0 <= j < i ==> remaining[j].weight > capacity
      {
        if remaining[i].weight <= capacity {
          shipment := [remaining[i]];
          assert IndexedBy(shipment, remaining, [i]);
          AloneFits(remaining[i], capacity);
          return;
        }
        i := i + 1;
      }
      shipment := [];
      assert IndexedBy(shipment, remaining, []);
      return;
    }

    var selected := [];
    var i := 0;
    while i < n
      invariant 0 <= i <= n
      invariant selected == SelectUpTo(remaining, best.mask, i)
    {
      if Bit(best.mask, i) {
        selected := selected + [remaining[i]];
      }
      i := i + 1;
    }
    shipment := selected;
    assert IsChosenMask(remaining, capacity, best.mask);
    SelectIsSubsequence(remaining, best.mask, n);
    FirstFits(shipment, capacity);
    var idx := Positions(best.mask, n);
    assert remaining[idx[0]].weight <= capacity;
  }

  /**
   * The inner loop of `findBestShipment`: adds up the weights of the
   * selected packages in order, giving up (count -1) as soon as the running
   * weight exceeds the capacity, and tracks the farthest distance.
   */
  method MeasureSubset(remaining: seq<Package>, mask: nat, capacity: real) returns (count: int, weight: real, distance: real)
    ensures count > 0 <==> Feasible(remaining, mask, capacity)
    ensures count > 0 ==> Score(remaining, mask) == Candidate(mask, count, weight, distance)
  {
    weight, count, distance := 0.0, 0, 0.0;
    var i := 0;
    while i < |remaining|
      invariant 0 <= i <= |remaining|
      invariant count == |SelectUpTo(remaining, mask, i)|
      invariant weight == TotalWeight(SelectUpTo(remaining, mask, i))
      invariant distance == FarthestOrZero(SelectUpTo(remaining, mask, i))
      invariant RunningWeightWithin(SelectUpTo(remaining, mask, i), capacity)
    {
      if Bit(mask, i) {
        ghost var before := SelectUpTo(remaining, mask, i);
        ghost var after := SelectUpTo(remaining, mask, i + 1);
        assert after == before + [remaining[i]] && after[..|after| - 1] == before;
        weight := weight + remaining[i].weight;
        if weight > capacity {
          count := -1;
          ExceededPrefixInfeasible(remaining, mask, i, capacity);
          break;
        }
        count := count + 1;
        distance := Max(distance, remaining[i].distance);
        assert weight == TotalWeight(after);
        assert distance == FarthestOrZero(after);
        assert RunningWeightWithin(after, capacity);
      } else {
        assert SelectUpTo(remaining, mask, i + 1) == SelectUpTo(remaining, mask, i);
      }
      i := i + 1;
    }
  }

  /** The positions below `i` whose bit is set in `mask`, ascending. */
  function Positions(mask: nat, i: nat): (r: seq<nat>)
    ensures forall k :: 0 <= k < |r| ==> r[k] < i
  {
    if i == 0 then [] else Positions(mask, i - 1) + (if Bit(mask, i - 1) then [i - 1] else [])
  }

  lemma {:induction false} SelectIsSubsequence(s: seq<Package>, mask: nat, i: nat)
    requires i <= |s|
    ensures IndexedBy(SelectUpTo(s, mask, i), s, Positions(mask, i))
  {
    if i > 0 {
      SelectIsSubsequence(s, mask, i - 1);
      if Bit(mask, i - 1) {
        IndexedByAppend(SelectUpTo(s, mask, i - 1), s, Positions(mask, i - 1), i - 1);
      }
    }
  }

  /** Appending the element at a position beyond every listed one extends the indexing. */
  lemma IndexedByAppend(t: seq<Package>, s: seq<Package>, idx: seq<nat>, j: nat)
    requires IndexedBy(t, s, idx) && j < |s|
    requires forall k :: 0 <= k < |idx| ==> idx[k] < j
    ensures IndexedBy(t + [s[j]], s, idx + [j])
  {
  }

  /** A prefix of a selection is the selection of a shorter prefix of the packages. */
  lemma {:induction false} SelectUpToPrefix(s: seq<Package>, mask: nat, i: nat, j: nat)
    requires i <= j <= |s|
    ensures |SelectUpTo(s, mask, i)| <= |SelectUpTo(s, mask, j)|
    ensures SelectUpTo(s, mask, j)[..|SelectUpTo(s, mask, i)|] == SelectUpTo(s, mask, i)
  {
    if i < j {
      SelectUpToPrefix(s, mask, i, j - 1);
      var a := SelectUpTo(s, mask, j - 1);
      var b := SelectUpTo(s, mask, j);
      assert b[..|a|] == a;
      assert b[..|SelectUpTo(s, mask, i)|] == a[..|SelectUpTo(s, mask, i)|];
    }
  }

  /** The running-weight condition holds of every prefix of a sequence it holds of. */
  lemma {:induction false} RunningWeightPrefix(ps: seq<Package>, k: nat, capacity: real)
    requires k <= |ps|
    requires RunningWeightWithin(ps, capacity)
    ensures RunningWeightWithin(ps[..k], capacity)
  {
    if k < |ps| {
      assert ps[..|ps| - 1][..k] == ps[..k];
      RunningWeightPrefix(ps[..|ps| - 1], k, capacity);
    } else {
      assert ps[..k] == ps;
    }
  }

  /** The inner loop's early exit: once a prefix is too heavy the whole mask is infeasible. */
  lemma ExceededPrefixInfeasible(s: seq<Package>, mask: nat, i: nat, capacity: real)
    requires i < |s| && Bit(mask, i)
    requires TotalWeight(SelectUpTo(s, mask, i)) + s[i].weight > capacity
    ensures !Feasible(s, mask, capacity)
  {
    var prefix := SelectUpTo(s, mask, i + 1);
    assert prefix[..|prefix| - 1] == SelectUpTo(s, mask, i);
    assert !RunningWeightWithin(prefix, capacity);
    SelectUpToPrefix(s, mask, i + 1, |s|);
    if RunningWeightWithin(Select(s, mask), capacity) {
      RunningWeightPrefix(Select(s, mask), |prefix|, capacity);
    }
  }

  lemma {:induction false} FirstFits(ps: seq<Package>, capacity: real)
    requires ps != [] && RunningWeightWithin(ps, capacity)
    ensures ps[0].weight <= capacity
  {
    if |ps| == 1 {
      assert ps[..|ps| - 1] == [];
      assert TotalWeight(ps) == ps[0].weight;
    } else {
      FirstFits(ps[..|ps| - 1], capacity);
    }
  }

  lemma {:induction false} Pow2Increasing(i: nat, n: nat)
    requires i < n
    ensures Pow2(i) < Pow2(n)
  {
    if i < n - 1 {
      Pow2Increasing(i, n - 1);
    }
  }

  lemma {:induction false} NoBitOfZero(j: nat)
    ensures !Bit(0, j)
  {
    if j > 0 {
      NoBitOfZero(j - 1);
    }
  }

  /** `1 << i` has exactly bit `i` set. */
  lemma {:induction false} BitOfPow2(i: nat, j: nat)
    ensures Bit(Pow2(i), j) <==> i == j
  {
    if j == 0 {
      if i > 0 {
        assert Pow2(i) == 2 * Pow2(i - 1);
      }
    } else if i == 0 {
      NoBitOfZero(j - 1);
    } else {
      assert Pow2(i) / 2 == Pow2(i - 1);
      BitOfPow2(i - 1, j - 1);
    }
  }

  lemma {:induction false} SelectSingletonUpTo(s: seq<Package>, i: nat, k: nat)
    requires i < |s| && k <= |s|
    ensures SelectUpTo(s, Pow2(i), k) == if i < k then [s[i]] else []
  {
    if k > 0 {
      SelectSingletonUpTo(s, i, k - 1);
      BitOfPow2(i, k - 1);
    }
  }

  /** The mask `1 << i` selects exactly package `i`. */
  lemma SelectSingleton(s: seq<Package>, i: nat)
    requires i < |s|
    ensures Select(s, Pow2(i)) == [s[i]]
  {
    SelectSingletonUpTo(s, i, |s|);
  }

  /**
   * Some subset can be loaded exactly when some package fits on its own.
   * So when the enumeration keeps nothing, no package fits alone either,
   * and the single-package fallback of `findBestShipment` always ends
   * with an empty result.
   */
  lemma SomeFeasibleIffOneFits(s: seq<Package>, capacity: real)
    ensures SomeFeasible(s, capacity) <==> exists i :: 0 <= i < |s| && s[i].weight <= capacity
  {
    if i :| 0 <= i < |s| && s[i].weight <= capacity {
      SelectSingleton(s, i);
      Pow2Increasing(i, |s|);
      var single := Select(s, Pow2(i));
      assert single[..0] == [] && TotalWeight(single) == s[i].weight;
      assert Feasible(s, Pow2(i), capacity);
    }
    if SomeFeasible(s, capacity) {
      var m :| 1 <= m < Pow2(|s|) && Feasible(s, m, capacity);
      SelectIsSubsequence(s, m, |s|);
      FirstFits(Select(s, m), capacity);
      var idx := Positions(m, |s|);
      assert s[idx[0]].weight <= capacity;
    }
  }

  /** At most one mask is the chosen one, so the shipment is determined. */
  lemma ChosenMaskUnique(s: seq<Package>, capacity: real, m1: nat, m2: nat)
    requires IsChosenMask(s, capacity, m1) && IsChosenMask(s, capacity, m2)
    ensures m1 == m2
  {
    assert !Outranks(Score(s, m2), Score(s, m1));
    assert !Outranks(Score(s, m1), Score(s, m2));
  }

  /**
   * Optimality of the chosen shipment: no loadable subset has more
   * packages; none with as many is heavier; none with as many and as
   * heavy has a smaller farthest distance.
   */
  lemma ChosenMaskOptimal(s: seq<Package>, capacity: real, m: nat, other: nat)
    requires IsChosenMask(s, capacity, m)
    requires 1 <= other < Pow2(|s|) && Feasible(s, other, capacity)
    ensures |Select(s, other)| <= |Select(s, m)|
    ensures |Select(s, other)| == |Select(s, m)| ==> TotalWeight(Select(s, other)) <= TotalWeight(Select(s, m))
    ensures |Select(s, other)| == |Select(s, m)| && TotalWeight(Select(s, other)) == TotalWeight(Select(s, m)) ==>
      FarthestOrZero(Select(s, m)) <= FarthestOrZero(Select(s, other))
  {
    assert !Outranks(Score(s, other), Score(s, m));
  }

  /**
   * The best feasible mask below `k` under `Outranks`, keeping the lower
   * mask on a tie, or 0 when none below `k` is feasible.
   */
  ghost function BestBelow(s: seq<Package>, capacity: real, k: nat): (b: nat)
    requires 1 <= k
    ensures b == 0 ==> forall m :: 1 <= m < k ==> !Feasible(s, m, capacity)
    ensures b != 0 ==>
      && 1 <= b < k
      && Feasible(s, b, capacity)
      && forall m :: 1 <= m < k && Feasible(s, m, capacity) ==>
           !Outranks(Score(s, m), Score(s, b)) && (m < b ==> Outranks(Score(s, b), Score(s, m)))
  {
    if k == 1 then 0
    else
      var b := BestBelow(s, capacity, k - 1);
      if Feasible(s, k - 1, capacity) && (b == 0 || Outranks(Score(s, k - 1), Score(s, b))) then k - 1 else b
  }

  /** Whenever some subset can be loaded, there is a chosen mask. */
  lemma ChosenMaskExists(s: seq<Package>, capacity: real)
    requires SomeFeasible(s, capacity)
    ensures exists m :: IsChosenMask(s, capacity, m)
  {
    var b := BestBelow(s, capacity, Pow2(|s|));
    assert IsChosenMask(s, capacity, b);
  }

  /**
   * The shipment `findBestShipment` settles on when some subset can be
   * loaded: the selection of the chosen mask.
   */
  ghost function ChosenShipment(s: seq<Package>, capacity: real): (r: seq<Package>)
    requires SomeFeasible(s, capacity)
    ensures |r| > 0 && IsSubsequence(r, s) && RunningWeightWithin(r, capacity)
    ensures forall m :: IsChosenMask(s, capacity, m) ==> r == Select(s, m)
  {
    ChosenMaskExists(s, capacity);
    var m :| IsChosenMask(s, capacity, m);
    SelectIsSubsequence(s, m, |s|);
    Select(s, m)
  }

  /** A lone package within capacity is shipped as it is. */
  lemma SinglePackageShipped(p: Package, capacity: real, m: nat)
    requires p.weight <= capacity
    requires IsChosenMask([p], capacity, m)
    ensures Select([p], m) == [p]
  {
    assert Pow2(1) == 2;
    assert m == 1 == Pow2(0);
    SelectSingleton([p], 0);
  }

  /** The three non-empty masks over two 100 kg packages: each alone, and both together. */
  lemma TwoFullLoadsSelections(p1: Package, p2: Package)
    requires p1 == Package("P1", 100.0, 100.0, None, None) && p2 == Package("P2", 100.0, 150.0, None, None)
    ensures Select([p1, p2], 1) == [p1] && Select([p1, p2], 2) == [p2] && Select([p1, p2], 3) == [p1, p2]
  {
    var s := [p1, p2];
    SelectSingleton(s, 0);
    SelectSingleton(s, 1);
    assert Pow2(0) == 1 && Pow2(1) == 2;
    assert Bit(3, 0) && Bit(3, 1);
    assert SelectUpTo(s, 3, 1) == [p1];
    assert SelectUpTo(s, 3, 2) == [p1, p2];
  }

  /** A package that fits on its own, loaded on its own. */
  lemma AloneFits(p: Package, capacity: real)
    requires p.weight <= capacity
    ensures TotalWeight([p]) == p.weight && RunningWeightWithin([p], capacity)
  {
    assert [p][..0] == [];
  }

  /** Over two 100 kg packages and capacity 100: the first alone fits, both do not, and the second alone ranks lower. */
  lemma TwoFullLoadsRanking(p1: Package, p2: Package)
    requires p1 == Package("P1", 100.0, 100.0, None, None) && p2 == Package("P2", 100.0, 150.0, None, None)
    ensures Feasible([p1, p2], 1, 100.0) && !Feasible([p1, p2], 3, 100.0)
    ensures !Outranks(Score([p1, p2], 2), Score([p1, p2], 1))
  {
    TwoFullLoadsSelections(p1, p2);
    AloneFits(p1, 100.0);
    AloneFits(p2, 100.0);
    assert [p1, p2][..1] == [p1];
    assert TotalWeight([p1, p2]) == 200.0;
    assert FarthestOrZero([p1]) == 100.0 && FarthestOrZero([p2]) == 150.0 by {
      assert [p1][..0] == [] && [p2][..0] == [];
    }
  }

  /** Two 100 kg packages and capacity 100: only one is loaded, the nearer one. */
  lemma TwoFullLoadsShipOne(capacity: real, m: nat)
    requires capacity == 100.0
    requires IsChosenMask([Package("P1", 100.0, 100.0, None, None), Package("P2", 100.0, 150.0, None, None)], capacity, m)
    ensures Select([Package("P1", 100.0, 100.0, None, None), Package("P2", 100.0, 150.0, None, None)], m)
      == [Package("P1", 100.0, 100.0, None, None)]
  {
    var p1 := Package("P1", 100.0, 100.0, None, None);
    var p2 := Package("P2", 100.0, 150.0, None, None);
    var s := [p1, p2];
    assert Pow2(2) == 4;
    TwoFullLoadsSelections(p1, p2);
    TwoFullLoadsRanking(p1, p2);
    assert IsChosenMask(s, capacity, 1) by {
      forall other | 1 <= other < Pow2(|s|) && Feasible(s, other, capacity)
        ensures !Outranks(Score(s, other), Score(s, 1))
      {
        assert other == 1 || other == 2;
      }
    }
    ChosenMaskUnique(s, capacity, m, 1);
  }

  /** A subsequence of an id-unique list is id-unique, and every element comes from the list. */
  lemma SubsequenceFacts(t: seq<Package>, s: seq<Package>)
    requires IsSubsequence(t, s)
    ensures forall x :: x in t ==> x in s
    ensures UniqueIds(s) ==> UniqueIds(t)
  {
    var idx :| IndexedBy(t, s, idx);
    forall x | x in t
      ensures x in s
    {
      var k :| 0 <= k < |t| && t[k] == x;
      assert s[idx[k]] == x;
    }
  }

  lemma {:induction false} TotalWeightNonNegative(ps: seq<Package>)
    requires forall x :: x in ps ==> x.weight >= 0.0
    ensures TotalWeight(ps) >= 0.0
  {
    if ps != [] {
      TotalWeightNonNegative(ps[..|ps| - 1]);
    }
  }

  /** With non-negative weights, every package of a loadable shipment fits on its own. */
  lemma {:induction false} EachFitsAlone(ps: seq<Package>, capacity: real)
    requires forall x :: x in ps ==> x.weight >= 0.0
    requires RunningWeightWithin(ps, capacity)
    ensures forall x :: x in ps ==> x.weight <= capacity
  {
    if ps != [] {
      var init := ps[..|ps| - 1];
      EachFitsAlone(init, capacity);
      TotalWeightNonNegative(init);
      assert ps == init + [ps[|ps| - 1]];
    }
  }
}
