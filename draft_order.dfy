/** The snake draft order (`generateDraftOrder`): round after round the
    team indices 0 .. teamsCount - 1, ascending on even rounds and
    descending on odd ones. */
module DraftOrder {

  /** The length of `Array.from({ length: teamsCount })`: a negative count
      gives an empty array. */
  function TeamsLength(teamsCount: int): nat
  {
    if teamsCount < 0 then 0 else teamsCount
  }

  /** 0, 1, ..., n - 1. */
  function Ascending(n: nat): (r: seq<int>)
    ensures |r| == n
    ensures forall i :: 0 <= i < n ==> r[i] == i
  {
    seq(n, i => i)
  }

  /** `s` back to front. */
  function Reversed(s: seq<int>): (r: seq<int>)
    ensures |r| == |s|
    ensures forall i :: 0 <= i < |s| ==> r[i] == s[|s| - 1 - i]
  {
    seq(|s|, i requires 0 <= i < |s| => s[|s| - 1 - i])
  }

  /** The picking order of one round. */
  function RoundOrder(teamsCount: int, round: int): seq<int>
  {
    var ascending := Ascending(TeamsLength(teamsCount));
    if round % 2 != 0 then Reversed(ascending) else ascending
  }

  /** The order of the first `rounds` rounds, one round after the other. */
  function SnakeOrder(teamsCount: int, rounds: int): seq<int>
    decreases rounds
  {
    if rounds <= 0 then [] else SnakeOrder(teamsCount, rounds - 1) + RoundOrder(teamsCount, rounds - 1)
  }

  /** `roundOrder.reverse()`: swaps from both ends towards the middle. */
  method Reverse(a: array<int>)
    modifies a
    ensures a[..] == Reversed(old(a[..]))
  {
    var i, j := 0, a.Length - 1;
    while i < j
      invariant 0 <= i && j == a.Length - 1 - i && i <= a.Length - i
      invariant forall k :: 0 <= k < i ==> a[k] == old(a[a.Length - 1 - k])
      invariant forall k :: a.Length - i <= k < a.Length ==> a[k] == old(a[a.Length - 1 - k])
      invariant forall k :: i <= k < a.Length - i ==> a[k] == old(a[k])
    {
      a[i], a[j] := a[j], a[i];
      i, j := i + 1, j - 1;
    }
  }

  /** `generateDraftOrder`: one array per round, reversed in place on odd
      rounds, appended to the order built so far. */
  method GenerateDraftOrder(teamsCount: int, teammatesPerTeam: int) returns (order: seq<int>)
    ensures order == SnakeOrder(teamsCount, teammatesPerTeam)
  {
    order := [];
    var round := 0;
    while round < teammatesPerTeam
      invariant 0 <= round && (round <= teammatesPerTeam || round == 0)
      invariant order == SnakeOrder(teamsCount, round)
    {
      var roundOrder := new int[TeamsLength(teamsCount)](i => i);
      assert roundOrder[..] == Ascending(TeamsLength(teamsCount));
      if round % 2 != 0 {
        Reverse(roundOrder);
      }
      order := order + roundOrder[..];
      round := round + 1;
    }
  }

  // ---------------------------------------------------------------------
  // Properties

  /** The order has one pick per team per round, and none when there are no
      rounds. */
  lemma {:induction false} SnakeOrderLength(teamsCount: int, rounds: int)
    ensures |SnakeOrder(teamsCount, rounds)| == if rounds <= 0 then 0 else TeamsLength(teamsCount) * rounds
  {
    if rounds > 0 {
      SnakeOrderLength(teamsCount, rounds - 1);
    }
  }

  /** Pick `j` of round `r` goes to team `j` on even rounds and to team
      `n - 1 - j` on odd ones. */
  lemma {:induction false} SnakeOrderAt(teamsCount: int, rounds: int, r: nat, j: nat)
    requires r < rounds && j < TeamsLength(teamsCount)
    ensures var n := TeamsLength(teamsCount);
      r * n + j < |SnakeOrder(teamsCount, rounds)| &&
      SnakeOrder(teamsCount, rounds)[r * n + j] == if r % 2 == 0 then j else n - 1 - j
  {
    var n := TeamsLength(teamsCount);
    var prefix := SnakeOrder(teamsCount, rounds - 1);
    SnakeOrderLength(teamsCount, rounds - 1);
    if r < rounds - 1 {
      SnakeOrderAt(teamsCount, rounds - 1, r, j);
    } else {
      assert |prefix| == r * n;
    }
  }

  /** The number of occurrences of `t` in 0, 1, ..., n - 1. */
  lemma {:induction false} AscendingCount(n: nat, t: int)
    ensures multiset(Ascending(n))[t] == if 0 <= t < n then 1 else 0
  {
    if n > 0 {
      AscendingCount(n - 1, t);
      assert Ascending(n) == Ascending(n - 1) + [n - 1];
    }
  }

  /** Reversing keeps the multiset of values. */
  lemma {:induction false} ReversedPermutes(s: seq<int>)
    ensures multiset(Reversed(s)) == multiset(s)
  {
    if |s| > 0 {
      ReversedPermutes(s[1..]);
      assert Reversed(s) == Reversed(s[1..]) + [s[0]];
      assert s == [s[0]] + s[1..];
    }
  }

  /** Every team index appears exactly once per round, and nothing else
      does. */
  lemma RoundOrderCount(teamsCount: int, round: int, t: int)
    ensures multiset(RoundOrder(teamsCount, round))[t] == if 0 <= t < TeamsLength(teamsCount) then 1 else 0
  {
    var ascending := Ascending(TeamsLength(teamsCount));
    AscendingCount(TeamsLength(teamsCount), t);
    ReversedPermutes(ascending);
  }

  /** Every team index appears exactly once per round over all the rounds,
      so every team gets the same number of picks; nothing else appears. */
  lemma {:induction false} SnakeOrderCount(teamsCount: int, rounds: int, t: int)
    ensures multiset(SnakeOrder(teamsCount, rounds))[t] ==
            if 0 <= t < TeamsLength(teamsCount) && rounds > 0 then rounds else 0
  {
    if rounds > 0 {
      SnakeOrderCount(teamsCount, rounds - 1, t);
      RoundOrderCount(teamsCount, rounds - 1, t);
    }
  }

  /** Consecutive rounds mirror each other: the last pick of a round and
      the first of the next go to the same team. */
  lemma SnakeTurn(teamsCount: int, rounds: int, r: nat)
    requires r + 1 < rounds && TeamsLength(teamsCount) > 0
    ensures var n := TeamsLength(teamsCount);
      var order := SnakeOrder(teamsCount, rounds);
      (r + 1) * n < |order| && order[r * n + (n - 1)] == order[(r + 1) * n]
  {
    var n := TeamsLength(teamsCount);
    var order := SnakeOrder(teamsCount, rounds);
    SnakeOrderAt(teamsCount, rounds, r, n - 1);
    SnakeOrderAt(teamsCount, rounds, r + 1, 0);
    assert (r + 1) * n + 0 == (r + 1) * n;
    if r % 2 == 0 {
      assert (r + 1) % 2 == 1;
      assert order[r * n + (n - 1)] == n - 1 == order[(r + 1) * n];
    } else {
      assert (r + 1) % 2 == 0;
      assert order[r * n + (n - 1)] == 0 == order[(r + 1) * n];
    }
  }
}
