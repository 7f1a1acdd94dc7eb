/** The feasibility oracle: can `slots` more picks from the pool, after one
    copy of the candidate's score has been taken out, land in the window
    [minNeeded, maxAllowed]? The oracle scans the pool and skips that copy as
    it goes; it never copies the pool. */
module Feasibility {
  import opened ScoreSeqs

  // ---------------------------------------------------------------------
  // What the three scans of the oracle compute

  /** The first scan: walk the pool from the front, skip the first copy of
      `x` (unless `skipped` says it is gone already), and add up the first
      `k` values kept. */
  function FrontSum(s: seq<int>, x: int, skipped: bool, k: int): int
  {
    if |s| == 0 || k <= 0 then 0
    else if !skipped && s[0] == x then FrontSum(s[1..], x, true, k)
    else s[0] + FrontSum(s[1..], x, skipped, k - 1)
  }

  /** The second scan: the same from the back of the pool. */
  function BackSum(s: seq<int>, x: int, skipped: bool, k: int): int
  {
    if |s| == 0 || k <= 0 then 0
    else if !skipped && s[|s| - 1] == x then BackSum(s[..|s| - 1], x, true, k)
    else s[|s| - 1] + BackSum(s[..|s| - 1], x, skipped, k - 1)
  }

  /** The gap scan: the first value kept that reaches `lo` decides, by
      whether it also stays within `hi`; no such value means no. */
  function GapScan(s: seq<int>, x: int, skipped: bool, lo: int, hi: int): bool
  {
    if |s| == 0 then false
    else if !skipped && s[0] == x then GapScan(s[1..], x, true, lo, hi)
    else if s[0] >= lo then s[0] <= hi
    else GapScan(s[1..], x, skipped, lo, hi)
  }

  /** The oracle's verdict, branch for branch: no slot left, too few values
      left (the length test subtracts one whether or not `x` occurs), the
      smallest-sum bound, the largest-sum bound, and for a single slot the
      exact gap scan. */
  predicate Feasible(slots: int, lo: int, hi: int, s: seq<int>, x: int)
  {
    if slots <= 0 then lo <= 0 && 0 <= hi
    else if |s| - 1 < slots then false
    else if FrontSum(s, x, false, slots) > hi then false
    else if BackSum(s, x, false, slots) < lo then false
    else if slots == 1 then GapScan(s, x, false, lo, hi)
    else true
  }

  /** The oracle itself, with its three loops. */
  method CheckFeasibilityWithRemoval(slots: int, minNeeded: int, maxAllowed: int,
                                     sortedScores: seq<int>, scoreToRemove: int)
    returns (feasible: bool)
    ensures feasible == Feasible(slots, minNeeded, maxAllowed, sortedScores, scoreToRemove)
  {
    if slots <= 0 {
      return minNeeded <= 0 && 0 <= maxAllowed;
    }
    if |sortedScores| - 1 < slots {
      return false;
    }

    // the smallest possible sum
    var minSum, count, skipped, i := 0, 0, false, 0;
    while i < |sortedScores| && count < slots
      invariant 0 <= i <= |sortedScores| && 0 <= count <= slots
      invariant minSum + FrontSum(sortedScores[i..], scoreToRemove, skipped, slots - count)
                == FrontSum(sortedScores, scoreToRemove, false, slots)
    {
      var s := sortedScores[i];
      assert sortedScores[i..][1..] == sortedScores[i + 1..];
      if !skipped && s == scoreToRemove {
        skipped := true;
      } else {
        minSum := minSum + s;
        count := count + 1;
      }
      i := i + 1;
    }
    if minSum > maxAllowed {
      return false;
    }

    // the largest possible sum
    var maxSum, j := 0, |sortedScores| - 1;
    count, skipped := 0, false;
    assert sortedScores[..j + 1] == sortedScores;
    while j >= 0 && count < slots
      invariant -1 <= j < |sortedScores| && 0 <= count <= slots
      invariant maxSum + BackSum(sortedScores[..j + 1], scoreToRemove, skipped, slots - count)
                == BackSum(sortedScores, scoreToRemove, false, slots)
    {
      var s := sortedScores[j];
      assert sortedScores[..j + 1][..j] == sortedScores[..j];
      if !skipped && s == scoreToRemove {
        skipped := true;
      } else {
        maxSum := maxSum + s;
        count := count + 1;
      }
      j := j - 1;
    }
    if maxSum < minNeeded {
      return false;
    }

    // the gap problem: with one slot, some value must lie in the window
    if slots == 1 {
      skipped, i := false, 0;
      while i < |sortedScores|
        invariant 0 <= i <= |sortedScores|
        invariant GapScan(sortedScores[i..], scoreToRemove, skipped, minNeeded, maxAllowed)
                  == GapScan(sortedScores, scoreToRemove, false, minNeeded, maxAllowed)
      {
        var s := sortedScores[i];
        assert sortedScores[i..][1..] == sortedScores[i + 1..];
        if !skipped && s == scoreToRemove {
          skipped := true;
        } else if s >= minNeeded {
          return s <= maxAllowed;
        }
        i := i + 1;
      }
      return false;
    }
    return true;
  }

  // ---------------------------------------------------------------------
  // What the scans mean

  lemma {:induction false} FrontSumAfterSkip(s: seq<int>, x: int, k: int)
    requires 0 <= k <= |s|
    ensures FrontSum(s, x, true, k) == Sum(s[..k])
  {
    if |s| > 0 && k > 0 {
      FrontSumAfterSkip(s[1..], x, k - 1);
      assert s[..k][1..] == s[1..][..k - 1];
    }
  }

  /** The first scan adds up the `k` first values of the pool with one copy
      of `x` taken out. */
  lemma {:induction false} FrontSumIsPrefixSum(s: seq<int>, x: int, k: int)
    requires 0 <= k <= |RemoveFirst(s, x)|
    ensures FrontSum(s, x, false, k) == Sum(RemoveFirst(s, x)[..k])
  {
    if |s| > 0 && k > 0 {
      if s[0] == x {
        FrontSumAfterSkip(s[1..], x, k);
      } else {
        FrontSumIsPrefixSum(s[1..], x, k - 1);
        var r := RemoveFirst(s, x);
        assert r[..k][1..] == RemoveFirst(s[1..], x)[..k - 1];
      }
    }
  }

  lemma {:induction false} BackSumAfterSkip(s: seq<int>, x: int, k: int)
    requires 0 <= k <= |s|
    ensures BackSum(s, x, true, k) == Sum(s[|s| - k..])
  {
    if |s| > 0 && k > 0 {
      var init := s[..|s| - 1];
      BackSumAfterSkip(init, x, k - 1);
      assert s == init + [s[|s| - 1]];
      SumSuffixSnoc(init, s[|s| - 1], s, k);
    } else {
      assert s[|s| - k..] == [];
    }
  }

  /** The last `k` values of `r == t + [y]` sum to the last `k - 1` of `t`
      plus `y`. */
  lemma SumSuffixSnoc(t: seq<int>, y: int, r: seq<int>, k: int)
    requires r == t + [y] && 1 <= k <= |r|
    ensures Sum(r[|r| - k..]) == Sum(t[|t| - (k - 1)..]) + y
  {
    assert r[|r| - k..] == t[|t| - (k - 1)..] + [y];
    SumAppend(t[|t| - (k - 1)..], [y]);
  }

  /** The last `k` values of `r`, added up. */
  function SuffixSum(r: seq<int>, k: int): int
    requires 0 <= k <= |r|
  {
    Sum(r[|r| - k..])
  }

  /** One step of the second scan when the last value is the first copy
      of `x` met: it is skipped, and it is the copy `RemoveLast` drops. */
  lemma BackSumDrop(s: seq<int>, x: int, k: int)
    requires |s| > 0 && 0 < k <= |s| - 1 && s[|s| - 1] == x
    ensures RemoveLast(s, x) == s[..|s| - 1]
    ensures BackSum(s, x, false, k) == SuffixSum(RemoveLast(s, x), k)
  {
    BackSumAfterSkip(s[..|s| - 1], x, k);
  }

  /** One step of the second scan when the last value is kept: the last
      value joins the sum of the `k - 1` before it. */
  lemma BackSumKeep(s: seq<int>, x: int, k: int)
    requires |s| > 0 && k > 0 && s[|s| - 1] != x
    requires k - 1 <= |RemoveLast(s[..|s| - 1], x)|
    requires BackSum(s[..|s| - 1], x, false, k - 1) == SuffixSum(RemoveLast(s[..|s| - 1], x), k - 1)
    ensures k <= |RemoveLast(s, x)|
    ensures BackSum(s, x, false, k) == SuffixSum(RemoveLast(s, x), k)
  {
    var init, y := s[..|s| - 1], s[|s| - 1];
    var t := RemoveLast(init, x);
    assert RemoveLast(s, x) == t + [y];
    SumSuffixSnoc(t, y, RemoveLast(s, x), k);
  }

  /** The second scan adds up the `k` last values of the pool with the last
      copy of `x` taken out. */
  lemma {:induction false} BackSumIsSuffixSum(s: seq<int>, x: int, k: int)
    requires 0 <= k <= |RemoveLast(s, x)|
    ensures BackSum(s, x, false, k) == SuffixSum(RemoveLast(s, x), k)
  {
    if |s| > 0 && k > 0 && s[|s| - 1] == x {
      assert RemoveLast(s, x) == s[..|s| - 1];
      BackSumDrop(s, x, k);
    } else if |s| > 0 && k > 0 {
      var init := s[..|s| - 1];
      assert |RemoveLast(s, x)| == |RemoveLast(init, x)| + 1 by {
        assert RemoveLast(s, x) == RemoveLast(init, x) + [s[|s| - 1]];
      }
      BackSumIsSuffixSum(init, x, k - 1);
      BackSumKeep(s, x, k);
    } else {
      var r := RemoveLast(s, x);
      assert r[|r| - k..] == [];
    }
  }

  /** The gap scan over the pool is a plain scan over the pool without the
      skipped copy. */
  lemma {:induction false} GapScanSkipsOneCopy(s: seq<int>, x: int, lo: int, hi: int)
    ensures GapScan(s, x, false, lo, hi) == GapScan(RemoveFirst(s, x), x, true, lo, hi)
  {
    if |s| > 0 && s[0] != x {
      GapScanSkipsOneCopy(s[1..], x, lo, hi);
      assert RemoveFirst(s, x)[1..] == RemoveFirst(s[1..], x);
    }
  }

  /** On a sorted pool, the plain scan answers exactly whether some value
      lies in [lo, hi]. */
  lemma {:induction false} GapScanFindsWindow(t: seq<int>, x: int, lo: int, hi: int)
    requires Sorted(t)
    ensures GapScan(t, x, true, lo, hi) <==> exists v :: v in t && lo <= v <= hi
  {
    if |t| > 0 {
      GapScanFindsWindow(t[1..], x, lo, hi);
      if t[0] >= lo {
        assert GapScan(t, x, true, lo, hi) == (t[0] <= hi);
        assert t[0] in t;
        if exists v :: v in t && lo <= v <= hi {
          var v :| v in t && lo <= v <= hi;
          var m :| 0 <= m < |t| && t[m] == v;
          assert t[0] <= v;
        }
      } else {
        assert GapScan(t, x, true, lo, hi) == GapScan(t[1..], x, true, lo, hi);
        if exists v :: v in t && lo <= v <= hi {
          var v :| v in t && lo <= v <= hi;
          var m :| 0 <= m < |t| && t[m] == v;
          assert m > 0 && t[1..][m - 1] == v;
          assert v in t[1..];
        }
        if exists v :: v in t[1..] && lo <= v <= hi {
          var v :| v in t[1..] && lo <= v <= hi;
          assert v in t;
        }
      }
    }
  }

  // ---------------------------------------------------------------------
  // The oracle's guarantees

  /** Some choice of exactly `slots` distinct values of `pool` sums into
      [lo, hi]: the question the oracle approximates. */
  ghost predicate CanFill(slots: int, lo: int, hi: int, pool: seq<int>)
  {
    exists idx :: IsSelection(idx, |pool|) && |idx| == slots && lo <= Sum(Pick(pool, idx)) <= hi
  }

  /** With no slot left, only the empty choice is left, whatever the pool. */
  lemma NoSlotsLeft(slots: int, lo: int, hi: int, s: seq<int>, x: int)
    requires slots <= 0
    ensures Feasible(slots, lo, hi, s, x) <==> lo <= 0 <= hi
  {
  }

  /** With fewer than `slots` values besides one removed copy, the oracle
      says no. The length test counts the removed copy whether or not the
      pool holds it. */
  lemma TooFewLeft(slots: int, lo: int, hi: int, s: seq<int>, x: int)
    requires slots > 0 && |s| - 1 < slots
    ensures !Feasible(slots, lo, hi, s, x)
  {
  }

  /** The length test when the removed score is absent: the pool [5] keeps
      its 5, which lies in [5, 5], and still the oracle says no for one slot. */
  lemma AbsentScoreStillCounted()
    ensures RemoveFirst([5], 7) == [5]
    ensures !Feasible(1, 5, 5, [5], 7)
  {
  }

  /** A yes from the oracle means both bounds hold on the pool without one
      copy of `x`: the `slots` smallest values fit under `hi`, and the `slots`
      largest reach `lo`. */
  lemma OracleBoundsHold(slots: int, lo: int, hi: int, s: seq<int>, x: int)
    requires Sorted(s) && slots >= 1
    requires Feasible(slots, lo, hi, s, x)
    ensures var rest := RemoveFirst(s, x);
      && slots <= |rest|
      && Sum(rest[..slots]) <= hi
      && Sum(rest[|rest| - slots..]) >= lo
  {
    FrontSumIsPrefixSum(s, x, slots);
    RemoveLastIsRemoveFirst(s, x);
    BackSumIsSuffixSum(s, x, slots);
  }

  /** The oracle never over-prunes: when some `slots` distinct values of the
      pool without the candidate's copy sum into the window, it says yes. */
  lemma OracleComplete(slots: int, lo: int, hi: int, s: seq<int>, x: int)
    requires Sorted(s) && x in s
    requires CanFill(slots, lo, hi, RemoveFirst(s, x))
    ensures Feasible(slots, lo, hi, s, x)
  {
    var rest := RemoveFirst(s, x);
    var idx :| IsSelection(idx, |rest|) && |idx| == slots && lo <= Sum(Pick(rest, idx)) <= hi;
    if slots == 0 {
      assert Pick(rest, idx) == [];
    } else {
      BoundsPass(slots, lo, hi, s, x, idx);
      if slots == 1 {
        SingleValueFound(lo, hi, s, x, rest[idx[0]]);
      }
    }
  }

  /** A choice summing into the window passes both bounds. */
  lemma BoundsPass(slots: int, lo: int, hi: int, s: seq<int>, x: int, idx: seq<int>)
    requires Sorted(s) && x in s && slots >= 1
    requires IsSelection(idx, |RemoveFirst(s, x)|) && |idx| == slots
    requires lo <= Sum(Pick(RemoveFirst(s, x), idx)) <= hi
    ensures |s| - 1 >= slots
    ensures FrontSum(s, x, false, slots) <= hi && BackSum(s, x, false, slots) >= lo
  {
    var rest := RemoveFirst(s, x);
    assert |rest| == |s| - 1;
    assert Sum(rest[..slots]) <= hi && lo <= Sum(rest[|rest| - slots..]) by {
      RemoveFirstSorted(s, x);
      SelectionSumBounds(rest, idx);
    }
    assert FrontSum(s, x, false, slots) == Sum(rest[..slots]) by {
      FrontSumIsPrefixSum(s, x, slots);
    }
    assert BackSum(s, x, false, slots) == Sum(rest[|rest| - slots..]) by {
      BackSumSorted(s, x, slots);
    }
  }

  /** On a sorted pool the second scan adds up the `k` largest values of
      the pool without one copy of `x`. */
  lemma BackSumSorted(s: seq<int>, x: int, k: int)
    requires Sorted(s) && x in s && 0 <= k <= |s| - 1
    ensures var rest := RemoveFirst(s, x);
      BackSum(s, x, false, k) == Sum(rest[|rest| - k..])
  {
    RemoveLastIsRemoveFirst(s, x);
    BackSumIsSuffixSum(s, x, k);
  }

  /** A value in the window found in the pool without the candidate's copy
      makes the gap scan say yes. */
  lemma SingleValueFound(lo: int, hi: int, s: seq<int>, x: int, v: int)
    requires Sorted(s) && v in RemoveFirst(s, x) && lo <= v <= hi
    ensures GapScan(s, x, false, lo, hi)
  {
    RemoveFirstSorted(s, x);
    GapScanSkipsOneCopy(s, x, lo, hi);
    GapScanFindsWindow(RemoveFirst(s, x), x, lo, hi);
  }

  /** The gap check: with a single slot the oracle is exact. It says yes
      exactly when some value of the pool without one copy of `x` lies in
      the window. */
  lemma GapCheckExact(lo: int, hi: int, s: seq<int>, x: int)
    requires Sorted(s) && x in s
    ensures Feasible(1, lo, hi, s, x) <==> exists v :: v in RemoveFirst(s, x) && lo <= v <= hi
  {
    var rest := RemoveFirst(s, x);
    if exists v :: v in rest && lo <= v <= hi {
      var v :| v in rest && lo <= v <= hi;
      var m :| 0 <= m < |rest| && rest[m] == v;
      assert Pick(rest, [m]) == [v];
      BoundsPass(1, lo, hi, s, x, [m]);
      SingleValueFound(lo, hi, s, x, v);
    }
    if Feasible(1, lo, hi, s, x) {
      RemoveFirstSorted(s, x);
      GapScanSkipsOneCopy(s, x, lo, hi);
      GapScanFindsWindow(rest, x, lo, hi);
    }
  }

  /** The gap problem that the comment at src/utils/DraftLogic.js:71-72
      describes: a pool of 10, 20 and 99, with 99 taken, has nothing in
      [12, 18], although 10 <= 18 and 20 >= 12. */
  lemma GapExample()
    ensures !Feasible(1, 12, 18, [10, 20, 99], 99)
  {
    var s := [10, 20, 99];
    assert s[1..] == [20, 99] && s[1..][1..] == [99];
    assert GapScan(s[1..][1..], 99, false, 12, 18) == false;
    assert GapScan(s, 99, false, 12, 18) == false;
  }

  /** With two or more slots the two bounds are not sufficient: from
      [0, 0, 10, 10] two values sum to 0, 10 or 20, never to 5, yet the
      oracle says yes for the window [5, 5]. */
  lemma MultiSlotIsApproximate()
    ensures Feasible(2, 5, 5, [0, 0, 10, 10, 99], 99)
    ensures !CanFill(2, 5, 5, RemoveFirst([0, 0, 10, 10, 99], 99))
  {
    ExampleBounds();
    ExampleRemoval();
    NoTwoSumToFive();
  }

  lemma ExampleBounds()
    ensures FrontSum([0, 0, 10, 10, 99], 99, false, 2) == 0
    ensures BackSum([0, 0, 10, 10, 99], 99, false, 2) == 20
  {
    var s := [0, 0, 10, 10, 99];
    assert s[1..] == [0, 10, 10, 99] && s[1..][1..] == [10, 10, 99];
    assert s[..4] == [0, 0, 10, 10] && s[..4][..3] == [0, 0, 10];
    assert BackSum(s[..4][..3], 99, true, 1) == 10;
    assert BackSum(s[..4], 99, true, 2) == 20;
  }

  lemma ExampleRemoval()
    ensures RemoveFirst([0, 0, 10, 10, 99], 99) == [0, 0, 10, 10]
  {
    var s1, s2, s3, s4 := [99], [10, 99], [10, 10, 99], [0, 10, 10, 99];
    assert RemoveFirst(s1, 99) == [];
    assert s2[1..] == s1;
    assert RemoveFirst(s2, 99) == [10];
    assert s3[1..] == s2;
    assert RemoveFirst(s3, 99) == [10, 10];
    assert s4[1..] == s3;
    assert RemoveFirst(s4, 99) == [0, 10, 10];
    assert [0, 0, 10, 10, 99][1..] == s4;
  }

  lemma NoTwoSumToFive()
    ensures !CanFill(2, 5, 5, [0, 0, 10, 10])
  {
    var rest := [0, 0, 10, 10];
    forall idx | IsSelection(idx, |rest|) && |idx| == 2
      ensures Sum(Pick(rest, idx)) != 5
    {
      var p := Pick(rest, idx);
      assert p[0] == 0 || p[0] == 10;
      assert p[1] == 0 || p[1] == 10;
      assert Sum(p) == p[0] + p[1] by {
        assert p[1..][0] == p[1] && p[1..][1..] == [];
        assert Sum(p[1..]) == p[1] + Sum(p[1..][1..]);
      }
    }
  }
}
