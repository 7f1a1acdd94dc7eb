/** Sequences of integer scores: sums, sortedness, removing one copy of a
    value, choosing a set of distinct positions, and the ascending sort the
    engine applies to the pool before every feasibility query. */
module ScoreSeqs {

  function Sum(s: seq<int>): int
  {
    if |s| == 0 then 0 else s[0] + Sum(s[1..])
  }

  lemma {:induction false} SumAppend(a: seq<int>, b: seq<int>)
    ensures Sum(a + b) == Sum(a) + Sum(b)
  {
    if |a| == 0 {
      assert a + b == b;
    } else {
      assert (a + b)[1..] == a[1..] + b;
      SumAppend(a[1..], b);
    }
  }

  /** Pointwise smaller sequences have smaller sums. */
  lemma {:induction false} SumMonotone(a: seq<int>, b: seq<int>)
    requires |a| == |b|
    requires forall j :: 0 <= j < |a| ==> a[j] <= b[j]
    ensures Sum(a) <= Sum(b)
  {
    if |a| > 0 {
      SumMonotone(a[1..], b[1..]);
    }
  }

  predicate Sorted(s: seq<int>)
  {
    forall i, j :: 0 <= i < j < |s| ==> s[i] <= s[j]
  }

  /** Drops the first copy of `x`; the sequence is unchanged when `x` is absent. */
  function RemoveFirst(s: seq<int>, x: int): (r: seq<int>)
    ensures x in s ==> |r| == |s| - 1
    ensures x !in s ==> r == s
  {
    if |s| == 0 then []
    else if s[0] == x then
      assert s == [s[0]] + s[1..];
      s[1..]
    else
      assert s == [s[0]] + s[1..];
      [s[0]] + RemoveFirst(s[1..], x)
  }

  /** Drops the last copy of `x`; the sequence is unchanged when `x` is absent. */
  function RemoveLast(s: seq<int>, x: int): (r: seq<int>)
    ensures x in s ==> |r| == |s| - 1
    ensures x !in s ==> r == s
  {
    if |s| == 0 then []
    else if s[|s| - 1] == x then
      assert s == s[..|s| - 1] + [x];
      s[..|s| - 1]
    else
      assert s == s[..|s| - 1] + [s[|s| - 1]];
      RemoveLast(s[..|s| - 1], x) + [s[|s| - 1]]
  }

  /** Removing the first copy takes exactly one `x` out of the multiset of
      values (none when there is none). */
  lemma {:induction false} RemoveFirstMultiset(s: seq<int>, x: int)
    ensures multiset(RemoveFirst(s, x)) == multiset(s) - multiset{x}
  {
    if |s| > 0 {
      assert s == [s[0]] + s[1..];
      if s[0] != x {
        RemoveFirstMultiset(s[1..], x);
      }
    }
  }

  /** The same for the last copy. */
  lemma {:induction false} RemoveLastMultiset(s: seq<int>, x: int)
    ensures multiset(RemoveLast(s, x)) == multiset(s) - multiset{x}
  {
    if |s| > 0 {
      var init, y := s[..|s| - 1], s[|s| - 1];
      assert s == init + [y];
      if y != x {
        assert RemoveLast(s, x) == RemoveLast(init, x) + [y];
        RemoveLastMultiset(init, x);
      } else {
        assert RemoveLast(s, x) == init;
      }
    }
  }

  /** Every value of a sequence bounds from below a sorted sequence whose
      values all occur in a sorted sequence starting at that bound. */
  lemma MultisetBelow(s: seq<int>, r: seq<int>, lo: int)
    requires forall v :: v in s ==> lo <= v
    requires multiset(r) <= multiset(s)
    ensures forall j :: 0 <= j < |r| ==> lo <= r[j]
  {
    forall j | 0 <= j < |r|
      ensures lo <= r[j]
    {
      assert r[j] in multiset(r);
      assert r[j] in multiset(s);
      assert r[j] in s;
    }
  }

  /** The same from above. */
  lemma MultisetAbove(s: seq<int>, r: seq<int>, hi: int)
    requires forall v :: v in s ==> v <= hi
    requires multiset(r) <= multiset(s)
    ensures forall j :: 0 <= j < |r| ==> r[j] <= hi
  {
    forall j | 0 <= j < |r|
      ensures r[j] <= hi
    {
      assert r[j] in multiset(r);
      assert r[j] in multiset(s);
      assert r[j] in s;
    }
  }

  lemma SortedCons(x: int, t: seq<int>)
    requires Sorted(t)
    requires forall j :: 0 <= j < |t| ==> x <= t[j]
    ensures Sorted([x] + t)
  {
    var u := [x] + t;
    forall i, j | 0 <= i < j < |u|
      ensures u[i] <= u[j]
    {
      if i > 0 {
        assert u[i] == t[i - 1] && u[j] == t[j - 1];
      } else {
        assert u[j] == t[j - 1];
      }
    }
  }

  lemma SortedSnoc(t: seq<int>, x: int)
    requires Sorted(t)
    requires forall j :: 0 <= j < |t| ==> t[j] <= x
    ensures Sorted(t + [x])
  {
    var u := t + [x];
    forall i, j | 0 <= i < j < |u|
      ensures u[i] <= u[j]
    {
      if j < |t| {
        assert u[i] == t[i] && u[j] == t[j];
      } else {
        assert u[i] == t[i];
      }
    }
  }

  /** Removing one copy of a value keeps a sorted sequence sorted. */
  lemma {:induction false} RemoveFirstSorted(s: seq<int>, x: int)
    requires Sorted(s)
    ensures Sorted(RemoveFirst(s, x))
  {
    if |s| > 0 && s[0] != x {
      var t := RemoveFirst(s[1..], x);
      RemoveFirstSorted(s[1..], x);
      assert forall v :: v in s[1..] ==> s[0] <= v;
      RemoveFirstMultiset(s[1..], x);
      MultisetBelow(s[1..], t, s[0]);
      SortedCons(s[0], t);
    }
  }

  lemma {:induction false} RemoveLastSorted(s: seq<int>, x: int)
    requires Sorted(s)
    ensures Sorted(RemoveLast(s, x))
  {
    if |s| > 0 && s[|s| - 1] != x {
      var init := s[..|s| - 1];
      var t := RemoveLast(init, x);
      RemoveLastSorted(init, x);
      assert forall v :: v in init ==> v <= s[|s| - 1];
      RemoveLastMultiset(init, x);
      MultisetAbove(init, t, s[|s| - 1]);
      SortedSnoc(t, s[|s| - 1]);
    }
  }

  /** A sorted sequence is determined by its multiset of values. */
  lemma {:induction false} SortedUnique(a: seq<int>, b: seq<int>)
    requires Sorted(a) && Sorted(b)
    requires multiset(a) == multiset(b)
    ensures a == b
  {
    assert |a| == |b| by {
      assert |a| == |multiset(a)|;
      assert |b| == |multiset(b)|;
    }
    if |a| > 0 {
      HeadIsLeast(a, b[0]);
      HeadIsLeast(b, a[0]);
      TailMultiset(a, b);
      SortedUnique(a[1..], b[1..]);
      assert a == [a[0]] + a[1..];
      assert b == [b[0]] + b[1..];
    }
  }

  lemma TailMultiset(a: seq<int>, b: seq<int>)
    requires |a| > 0 && |b| > 0 && a[0] == b[0]
    requires multiset(a) == multiset(b)
    ensures multiset(a[1..]) == multiset(b[1..])
  {
    assert a == [a[0]] + a[1..];
    assert b == [b[0]] + b[1..];
    assert multiset(a[1..]) == multiset(a) - multiset{a[0]};
    assert multiset(b[1..]) == multiset(b) - multiset{b[0]};
  }

  lemma HeadIsLeast(a: seq<int>, v: int)
    requires Sorted(a) && |a| > 0
    requires v in multiset(a)
    ensures a[0] <= v
  {
    assert v in a;
    var k :| 0 <= k < |a| && a[k] == v;
  }

  /** In a sorted sequence, it does not matter which copy of a value goes. */
  lemma RemoveLastIsRemoveFirst(s: seq<int>, x: int)
    requires Sorted(s)
    ensures RemoveLast(s, x) == RemoveFirst(s, x)
  {
    RemoveFirstSorted(s, x);
    RemoveLastSorted(s, x);
    RemoveFirstMultiset(s, x);
    RemoveLastMultiset(s, x);
    SortedUnique(RemoveLast(s, x), RemoveFirst(s, x));
  }

  // ---------------------------------------------------------------------
  // Choosing distinct elements

  /** `idx` lists distinct positions of a sequence of length `n`, in
      increasing order: a choice of |idx| distinct elements. */
  predicate IsSelection(idx: seq<int>, n: int)
  {
    && (forall j :: 0 <= j < |idx| ==> 0 <= idx[j] < n)
    && (forall i, j :: 0 <= i < j < |idx| ==> idx[i] < idx[j])
  }

  /** The elements of `s` at the positions `idx`. */
  function Pick<T>(s: seq<T>, idx: seq<int>): (r: seq<T>)
    requires forall j :: 0 <= j < |idx| ==> 0 <= idx[j] < |s|
    ensures |r| == |idx|
    ensures forall j :: 0 <= j < |idx| ==> r[j] == s[idx[j]]
  {
    seq(|idx|, j requires 0 <= j < |idx| => s[idx[j]])
  }

  /** `a` keeps some of the elements of `b`, in their order in `b`. */
  ghost predicate IsSubsequence<T>(a: seq<T>, b: seq<T>)
  {
    exists idx :: IsSelection(idx, |b|) && Pick(b, idx) == a
  }

  /** A choice of positions in a prefix, extended by a position past it. */
  lemma SelectionSnoc(idx: seq<int>, n: int)
    requires IsSelection(idx, n) && 0 <= n
    ensures IsSelection(idx + [n], n + 1)
  {
    var idx' := idx + [n];
    forall j | 0 <= j < |idx'|
      ensures 0 <= idx'[j] < n + 1
    {
      if j < |idx| {
        assert idx'[j] == idx[j];
      }
    }
    forall i, j | 0 <= i < j < |idx'|
      ensures idx'[i] < idx'[j]
    {
      assert idx'[i] == idx[i];
      if j < |idx| {
        assert idx'[j] == idx[j];
      }
    }
  }

  /** A choice of positions in a prefix is one in the whole sequence. */
  lemma SelectionWiden(idx: seq<int>, n: int, m: int)
    requires IsSelection(idx, n) && n <= m
    ensures IsSelection(idx, m)
  {
  }

  /** Picking from a prefix or from the whole sequence is the same. */
  lemma PickPrefix<T>(s: seq<T>, k: int, idx: seq<int>)
    requires 0 <= k <= |s|
    requires IsSelection(idx, k)
    ensures Pick(s[..k], idx) == Pick(s, idx)
  {
  }

  /** Picking one more position appends its element. */
  lemma PickSnoc<T>(s: seq<T>, idx: seq<int>, k: int)
    requires IsSelection(idx, |s|) && 0 <= k < |s|
    ensures Pick(s, idx + [k]) == Pick(s, idx) + [s[k]]
  {
  }

  /** A choice among chosen positions is a choice of positions. */
  lemma SelectionCompose(inner: seq<int>, outer: seq<int>, n: int)
    requires IsSelection(inner, n) && IsSelection(outer, |inner|)
    ensures IsSelection(Pick(inner, outer), n)
  {
    var idx := Pick(inner, outer);
    forall i, j | 0 <= i < j < |idx|
      ensures idx[i] < idx[j]
    {
      assert outer[i] < outer[j];
    }
  }

  /** Keeping some elements of a subsequence keeps a subsequence. */
  lemma SubsequenceTrans<T>(a: seq<T>, b: seq<T>, c: seq<T>)
    requires IsSubsequence(a, b) && IsSubsequence(b, c)
    ensures IsSubsequence(a, c)
  {
    var outer :| IsSelection(outer, |b|) && Pick(b, outer) == a;
    var inner :| IsSelection(inner, |c|) && Pick(c, inner) == b;
    var idx := Pick(inner, outer);
    SelectionCompose(inner, outer, |c|);
    assert Pick(c, idx) == a;
  }

  /** The empty sequence keeps nothing of any sequence. */
  lemma EmptySubsequence<T>(b: seq<T>)
    ensures IsSubsequence([], b)
  {
    assert IsSelection([], |b|) && Pick(b, []) == [];
  }

  lemma {:induction false} SelectionLower(idx: seq<int>, n: int, j: int)
    requires IsSelection(idx, n) && 0 <= j < |idx|
    ensures j <= idx[j]
  {
    if j > 0 {
      SelectionLower(idx, n, j - 1);
    }
  }

  lemma {:induction false} SelectionUpper(idx: seq<int>, n: int, j: int)
    requires IsSelection(idx, n) && 0 <= j < |idx|
    ensures idx[j] <= n - |idx| + j
    decreases |idx| - j
  {
    if j < |idx| - 1 {
      SelectionUpper(idx, n, j + 1);
    }
  }

  /** Any |idx| distinct elements of a sorted sequence sum to at least the
      |idx| smallest and at most the |idx| largest. */
  lemma SelectionSumBounds(s: seq<int>, idx: seq<int>)
    requires Sorted(s) && IsSelection(idx, |s|)
    ensures |idx| <= |s|
    ensures Sum(s[..|idx|]) <= Sum(Pick(s, idx)) <= Sum(s[|s| - |idx|..])
  {
    var k := |idx|;
    if k > 0 {
      SelectionLower(idx, |s|, k - 1);
    }
    var lo, p, hi := s[..k], Pick(s, idx), s[|s| - k..];
    forall j | 0 <= j < k
      ensures lo[j] <= p[j]
    {
      SelectionLower(idx, |s|, j);
      assert lo[j] == s[j] && p[j] == s[idx[j]];
    }
    forall j | 0 <= j < k
      ensures p[j] <= hi[j]
    {
      SelectionUpper(idx, |s|, j);
      assert hi[j] == s[|s| - k + j] && p[j] == s[idx[j]];
    }
    SumMonotone(lo, p);
    SumMonotone(p, hi);
  }

  // ---------------------------------------------------------------------
  // The ascending sort of the pool

  /** Puts `x` before the first element not smaller than it. */
  function Insert(x: int, s: seq<int>): (r: seq<int>)
    ensures |r| == |s| + 1
  {
    if |s| == 0 then [x]
    else if x <= s[0] then [x] + s
    else [s[0]] + Insert(x, s[1..])
  }

  lemma {:induction false} InsertPermutes(x: int, s: seq<int>)
    ensures multiset(Insert(x, s)) == multiset(s) + multiset{x}
  {
    if |s| > 0 && x > s[0] {
      InsertPermutes(x, s[1..]);
      assert s == [s[0]] + s[1..];
    }
  }

  /** A lower bound of `x` and of every element of `s` bounds `Insert(x, s)`. */
  lemma {:induction false} InsertAbove(x: int, s: seq<int>, lo: int)
    requires lo <= x
    requires forall j :: 0 <= j < |s| ==> lo <= s[j]
    ensures forall j :: 0 <= j < |Insert(x, s)| ==> lo <= Insert(x, s)[j]
  {
    if |s| > 0 && x > s[0] {
      InsertAbove(x, s[1..], lo);
    }
  }

  lemma {:induction false} InsertSorted(x: int, s: seq<int>)
    requires Sorted(s)
    ensures Sorted(Insert(x, s))
  {
    if |s| > 0 && x > s[0] {
      InsertSorted(x, s[1..]);
      InsertAbove(x, s[1..], s[0]);
      SortedCons(s[0], Insert(x, s[1..]));
    } else if |s| > 0 {
      SortedCons(x, s);
    }
  }

  /** The pool sorted ascending by score, as the comparator `(a, b) => a - b`
      orders it: as many scores as the pool, in ascending order
      (`SortAscendingSorted`) and a permutation of the pool
      (`SortAscendingPermutes`). It is written as an insertion sort; any sort
      meeting these gives the same result, by `SortedUnique`. Sortedness and
      the permutation are stated apart from the sort's own contract, so that
      only the proofs that need them pay for them. */
  function SortAscending(s: seq<int>): (r: seq<int>)
    ensures |r| == |s|
  {
    if |s| == 0 then [] else Insert(s[0], SortAscending(s[1..]))
  }

  /** The sort keeps the multiset of scores. */
  lemma {:induction false} SortAscendingPermutes(s: seq<int>)
    ensures multiset(SortAscending(s)) == multiset(s)
  {
    if |s| > 0 {
      SortAscendingPermutes(s[1..]);
      InsertPermutes(s[0], SortAscending(s[1..]));
      assert s == [s[0]] + s[1..];
      assert multiset(s) == multiset{s[0]} + multiset(s[1..]);
    }
  }

  /** The sort's result is in ascending order. */
  lemma {:induction false} SortAscendingSorted(s: seq<int>)
    ensures Sorted(SortAscending(s))
  {
    if |s| > 0 {
      SortAscendingSorted(s[1..]);
      InsertSorted(s[0], SortAscending(s[1..]));
    }
  }
}
