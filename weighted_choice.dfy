/** The automatic pick (`weightedChoiceSoftmax`): each candidate gets a
    share of [0, 1) in proportion to its weight, and the draw picks the
    candidate whose share it falls in. The weights (the exponentials of
    the scaled scores) and the draw (`Math.random()`) are inputs here. */
module WeightedChoice {
  import opened DraftTypes

  /** The sum of the weights; positive weights have a positive sum. */
  function Total(w: seq<real>): (t: real)
    ensures Positive(w) && |w| > 0 ==> t > 0.0
  {
    if |w| == 0 then 0.0 else Total(w[..|w| - 1]) + w[|w| - 1]
  }

  predicate Positive(w: seq<real>)
  {
    forall i :: 0 <= i < |w| ==> w[i] > 0.0
  }

  /** The total of the first `k` weights. */
  function Prefix(w: seq<real>, k: nat): real
    requires k <= |w|
  {
    Total(w[..k])
  }

  /** Adding weights raises the running total. */
  lemma {:induction false} PrefixMonotone(w: seq<real>, i: nat, j: nat)
    requires Positive(w) && i <= j <= |w|
    ensures Prefix(w, i) <= Prefix(w, j)
    ensures i < j ==> Prefix(w, i) < Prefix(w, j)
    decreases j - i
  {
    if i < j {
      PrefixMonotone(w, i, j - 1);
      assert w[..j][..j - 1] == w[..j - 1];
    }
  }

  /** The index the draw selects: the first candidate whose running share
      of the total exceeds the draw, and the last candidate when none does. */
  function Bucket(w: seq<real>, draw: real): (k: nat)
    requires |w| > 0 && Positive(w)
    ensures k < |w|
  {
    BucketFrom(w, Total(w), draw, 0)
  }

  function BucketFrom(w: seq<real>, total: real, draw: real, i: nat): (k: nat)
    requires i < |w| && total > 0.0
    ensures i <= k < |w|
    decreases |w| - i
  {
    if i == |w| - 1 then i
    else if draw < Prefix(w, i + 1) / total then i
    else BucketFrom(w, total, draw, i + 1)
  }

  /** The search from `i` on stops at the first index at or after `i` whose
      running share exceeds the draw, or at the last index. */
  lemma {:induction false} BucketFromFirst(w: seq<real>, total: real, draw: real, i: nat)
    requires i < |w| && total > 0.0
    ensures var k := BucketFrom(w, total, draw, i);
      && (k < |w| - 1 ==> draw < Prefix(w, k + 1) / total)
      && forall j :: i < j <= k ==> Prefix(w, j) / total <= draw
    decreases |w| - i
  {
    if i < |w| - 1 && Prefix(w, i + 1) / total <= draw {
      BucketFromFirst(w, total, draw, i + 1);
    }
  }

  /** For a draw in [0, 1), candidate `k` is chosen exactly when the draw
      falls in its share [Prefix(w, k) / total, Prefix(w, k + 1) / total) of
      [0, 1), so each candidate is chosen with probability weight / total. */
  lemma BucketIsShare(w: seq<real>, draw: real)
    requires |w| > 0 && Positive(w) && 0.0 <= draw < 1.0
    ensures var k := Bucket(w, draw);
      Prefix(w, k) / Total(w) <= draw < Prefix(w, k + 1) / Total(w)
  {
    var t := Total(w);
    BucketFromFirst(w, t, draw, 0);
    assert w[..|w|] == w && w[..0] == [];
    WholeShare(t);
  }

  /** The whole total is a share of one; nothing is a share of zero. */
  lemma WholeShare(t: real)
    requires t > 0.0
    ensures t / t == 1.0 && 0.0 / t == 0.0
  {
  }

  /** Shares keep the order of the amounts. */
  lemma ShareMonotone(a: real, b: real, t: real)
    requires t > 0.0 && a <= b
    ensures a / t <= b / t
  {
  }

  /** The shares do not overlap: the draw lies in the share of no other
      candidate than the chosen one. */
  lemma BucketUnique(w: seq<real>, draw: real, k: nat)
    requires |w| > 0 && Positive(w) && k < |w|
    requires Prefix(w, k) / Total(w) <= draw < Prefix(w, k + 1) / Total(w)
    ensures k == Bucket(w, draw)
  {
    var t := Total(w);
    var b := Bucket(w, draw);
    BucketFromFirst(w, t, draw, 0);
    // k < b is ruled out by the search having passed index k + 1.
    if b < k {
      PrefixMonotone(w, b + 1, k);
      ShareMonotone(Prefix(w, b + 1), Prefix(w, k), t);
    }
  }

  /** Adding one weight's share to a running share. */
  lemma AddShare(a: real, b: real, t: real)
    requires t > 0.0
    ensures a / t + b / t == (a + b) / t
  {
  }

  /** `weightedChoiceSoftmax` with the weights and the draw given: no
      candidates gives `null`; otherwise the running share is accumulated
      until it exceeds the draw, with the last candidate as the fallback. */
  method WeightedChoiceSoftmax(candidates: seq<Player>, weights: seq<real>, draw: real)
    returns (choice: Option<Player>)
    requires |weights| == |candidates| && Positive(weights)
    ensures candidates == [] <==> choice == None
    ensures candidates != [] ==> choice == Some(candidates[Bucket(weights, draw)])
  {
    if |candidates| == 0 {
      return None;
    }
    var totalWeight := Total(weights);
    assert weights[..0] == [];
    var cumulative := 0.0;
    var i := 0;
    while i < |candidates|
      invariant 0 <= i <= |candidates|
      invariant cumulative == Prefix(weights, i) / totalWeight
      invariant i < |candidates| ==> Bucket(weights, draw) == BucketFrom(weights, totalWeight, draw, i)
      invariant i == |candidates| ==> Bucket(weights, draw) == |candidates| - 1
    {
      assert weights[..i + 1][..i] == weights[..i];
      AddShare(Prefix(weights, i), weights[i], totalWeight);
      cumulative := cumulative + weights[i] / totalWeight;
      if draw < cumulative {
        return Some(candidates[i]);
      }
      i := i + 1;
    }
    return Some(candidates[|candidates| - 1]);
  }
}
