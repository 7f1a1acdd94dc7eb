/** The candidate filter (`getSmartValidPlayers`): the legal candidates
    for the current pick, tier by tier, with the warning or error that goes
    with them. */
module CandidateFilter {
  import opened DraftTypes
  import opened ScoreSeqs
  import opened Feasibility
  import opened TeamChecks

  /** The tests the filter applies to a candidate: under the remaining cap,
      reaching the remaining floor, the self check alone, and the self check
      followed by the global check. */
  datatype Test =
    | UnderCap(remainingScoreMax: int)
    | ReachesFloor(remainingScoreMin: int)
    | SelfFeasible(team: Team, sortedScores: seq<int>, settings: Settings, teammatesPerTeam: int)
    | SmartFeasible(teamIndex: int, teams: seq<Team>, sortedScores: seq<int>,
                    settings: Settings, teammatesPerTeam: int)

  predicate Passes(t: Test, p: Player)
  {
    match t
    case UnderCap(remainingScoreMax) => p.score <= remainingScoreMax
    case ReachesFloor(remainingScoreMin) => p.score >= remainingScoreMin
    case SelfFeasible(team, sortedScores, settings, teammatesPerTeam) =>
      CheckFutureFeasibility(team, p, sortedScores, settings, teammatesPerTeam)
    case SmartFeasible(teamIndex, teams, sortedScores, settings, teammatesPerTeam) =>
      && 0 <= teamIndex < |teams|
      && CheckFutureFeasibility(teams[teamIndex], p, sortedScores, settings, teammatesPerTeam)
      && GloballyFeasible(teamIndex, p, sortedScores, teams, settings, teammatesPerTeam)
  }

  /** The elements of `s` that pass `t`, in their order in `s`. */
  function Filter(s: seq<Player>, t: Test): seq<Player>
  {
    if |s| == 0 then []
    else if Passes(t, s[|s| - 1]) then Filter(s[..|s| - 1], t) + [s[|s| - 1]]
    else Filter(s[..|s| - 1], t)
  }

  /** A player is kept iff it is in the list and passes the test. */
  lemma {:induction false} FilterMembers(s: seq<Player>, t: Test, v: Player)
    ensures v in Filter(s, t) <==> v in s && Passes(t, v)
  {
    if |s| > 0 {
      var init := s[..|s| - 1];
      FilterMembers(init, t, v);
      assert s == init + [s[|s| - 1]];
    }
  }

  /** Filtering keeps an order-preserving subsequence. */
  lemma {:induction false} FilterIsSubsequence(s: seq<Player>, t: Test)
    ensures IsSubsequence(Filter(s, t), s)
  {
    if |s| == 0 {
      assert IsSelection([], 0) && Pick(s, []) == [];
    } else {
      var n := |s| - 1;
      FilterIsSubsequence(s[..n], t);
      var idx :| IsSelection(idx, n) && Pick(s[..n], idx) == Filter(s[..n], t);
      PickPrefix(s, n, idx);
      if Passes(t, s[n]) {
        SelectionSnoc(idx, n);
        SelectionWiden(idx, n, |s|);
        PickSnoc(s, idx, n);
        assert Pick(s, idx + [n]) == Filter(s, t);
      } else {
        SelectionWiden(idx, n, |s|);
        assert Pick(s, idx) == Filter(s, t);
      }
    }
  }

  /** The candidate filter's result: the available players under the
      remaining cap, passed through the tiers with this team's tests. */
  function SmartValidPlayers(teamIndex: int, teams: seq<Team>, availablePlayers: seq<Player>,
                             settings: Settings, teammatesPerTeam: int): FilterResult
    requires 0 <= teamIndex < |teams|
  {
    var team := teams[teamIndex];
    var remainingSlots := teammatesPerTeam - |team.roster|;
    var remainingScoreMax := settings.maxScore - team.score;
    var remainingScoreMin := settings.minScore - team.score;
    var sortedScores := SortAscending(Scores(availablePlayers));
    var validPlayers := Filter(availablePlayers, UnderCap(remainingScoreMax));
    Tiers(validPlayers, remainingSlots,
          ReachesFloor(remainingScoreMin),
          SmartFeasible(teamIndex, teams, sortedScores, settings, teammatesPerTeam),
          SelfFeasible(team, sortedScores, settings, teammatesPerTeam))
  }

  /** The tiers of the pipeline, given the candidates under the cap: none
      is an error; on the last slot keep those reaching the floor; otherwise
      keep those passing both checks, falling back (with a warning) to those
      passing the self check. */
  function Tiers(validPlayers: seq<Player>, remainingSlots: int, floor: Test, smart: Test, self: Test): FilterResult
  {
    if |validPlayers| == 0 then
      FilterResult([], NoPlayerUnderCap)
    else if remainingSlots == 1 then
      var finalValid := Filter(validPlayers, floor);
      if |finalValid| == 0 then FilterResult([], FinalPickBelowMinimum)
      else FilterResult(finalValid, NoError)
    else
      var smartValid := Filter(validPlayers, smart);
      if |smartValid| == 0 then
        var selfFeasible := Filter(validPlayers, self);
        if |selfFeasible| > 0 then FilterResult(selfFeasible, SelfFeasibleOnly)
        else FilterResult([], NoFeasibleChoice)
      else
        FilterResult(smartValid, NoError)
  }

  /** For any tests: an empty list comes exactly with a hard error; the
      first error means that no candidate was under the cap; the second is
      given only on the last slot, the warning and the last error only on
      any other slot. */
  lemma TiersOutcome(validPlayers: seq<Player>, remainingSlots: int, floor: Test, smart: Test, self: Test)
    ensures var r := Tiers(validPlayers, remainingSlots, floor, smart, self);
      && (r.valid == [] <==> r.error != NoError && r.error != SelfFeasibleOnly)
      && (r.error == NoPlayerUnderCap <==> validPlayers == [])
      && (r.error == FinalPickBelowMinimum ==> remainingSlots == 1)
      && (r.error == SelfFeasibleOnly || r.error == NoFeasibleChoice ==> remainingSlots != 1)
  {
  }

  /** For any tests: on the last slot the floor test decides who is
      offered, and the second error means that nobody under the cap passes it. */
  lemma TiersFloor(validPlayers: seq<Player>, remainingSlots: int, floor: Test, smart: Test, self: Test, p: Player)
    ensures var r := Tiers(validPlayers, remainingSlots, floor, smart, self);
      && (remainingSlots == 1 ==> (p in r.valid <==> p in validPlayers && Passes(floor, p)))
      && (p in validPlayers && r.error == FinalPickBelowMinimum ==> !Passes(floor, p))
  {
    FilterMembers(validPlayers, floor, p);
  }

  /** For any tests: on any slot other than the last and with no message, the smart
      test decides who is offered; the warning and the last error mean that
      nobody under the cap passes it. */
  lemma TiersSmart(validPlayers: seq<Player>, remainingSlots: int, floor: Test, smart: Test, self: Test, p: Player)
    ensures var r := Tiers(validPlayers, remainingSlots, floor, smart, self);
      && (remainingSlots != 1 && r.error == NoError ==> (p in r.valid <==> p in validPlayers && Passes(smart, p)))
      && (p in validPlayers && (r.error == SelfFeasibleOnly || r.error == NoFeasibleChoice) ==> !Passes(smart, p))
  {
    FilterMembers(validPlayers, smart, p);
  }

  /** For any tests: with the warning the self test decides who is offered,
      and the last error means that nobody under the cap passes it. */
  lemma TiersSelf(validPlayers: seq<Player>, remainingSlots: int, floor: Test, smart: Test, self: Test, p: Player)
    ensures var r := Tiers(validPlayers, remainingSlots, floor, smart, self);
      && (r.error == SelfFeasibleOnly ==> (p in r.valid <==> p in validPlayers && Passes(self, p)))
      && (p in validPlayers && r.error == NoFeasibleChoice ==> !Passes(self, p))
  {
    FilterMembers(validPlayers, self, p);
  }

  /** For any tests: whatever the tiers offer after the cap keeps some of
      the players, in their order. */
  lemma TiersSubsequence(players: seq<Player>, cap: Test, remainingSlots: int, floor: Test, smart: Test, self: Test)
    ensures IsSubsequence(Tiers(Filter(players, cap), remainingSlots, floor, smart, self).valid, players)
  {
    var validPlayers := Filter(players, cap);
    EmptySubsequence(validPlayers);
    FilterIsSubsequence(validPlayers, floor);
    FilterIsSubsequence(validPlayers, smart);
    FilterIsSubsequence(validPlayers, self);
    FilterIsSubsequence(players, cap);
    SubsequenceTrans(Tiers(validPlayers, remainingSlots, floor, smart, self).valid, validPlayers, players);
  }

  /** `getSmartValidPlayers`: the smart tier is built by a loop that runs
      the global check only on candidates that pass the self check. */
  method GetSmartValidPlayers(teamIndex: int, teams: seq<Team>, availablePlayers: seq<Player>,
                              settings: Settings, teammatesPerTeam: int)
    returns (result: FilterResult)
    requires 0 <= teamIndex < |teams|
    ensures result == SmartValidPlayers(teamIndex, teams, availablePlayers, settings, teammatesPerTeam)
  {
    var team := teams[teamIndex];
    var remainingSlots := teammatesPerTeam - |team.roster|;
    var remainingScoreMax := settings.maxScore - team.score;
    var remainingScoreMin := settings.minScore - team.score;
    var sortedScores := SortAscending(Scores(availablePlayers));

    var validPlayers := Filter(availablePlayers, UnderCap(remainingScoreMax));
    if |validPlayers| == 0 {
      return FilterResult([], NoPlayerUnderCap);
    }

    if remainingSlots == 1 {
      var finalValid := Filter(validPlayers, ReachesFloor(remainingScoreMin));
      if |finalValid| == 0 {
        return FilterResult([], FinalPickBelowMinimum);
      }
      return FilterResult(finalValid, NoError);
    }

    var smartValid := CollectSmartValid(teamIndex, teams, validPlayers, sortedScores, settings, teammatesPerTeam);
    if |smartValid| == 0 {
      var selfFeasible := Filter(validPlayers, SelfFeasible(team, sortedScores, settings, teammatesPerTeam));
      if |selfFeasible| > 0 {
        return FilterResult(selfFeasible, SelfFeasibleOnly);
      }
      return FilterResult([], NoFeasibleChoice);
    }
    return FilterResult(smartValid, NoError);
  }

  /** The loop of the smart tier: keep, in order, the candidates that pass
      the self check and then the global check. */
  method CollectSmartValid(teamIndex: int, teams: seq<Team>, validPlayers: seq<Player>, sortedScores: seq<int>,
                           settings: Settings, teammatesPerTeam: int)
    returns (smartValid: seq<Player>)
    requires 0 <= teamIndex < |teams|
    ensures smartValid == Filter(validPlayers, SmartFeasible(teamIndex, teams, sortedScores, settings, teammatesPerTeam))
  {
    var team := teams[teamIndex];
    ghost var smart := SmartFeasible(teamIndex, teams, sortedScores, settings, teammatesPerTeam);
    smartValid := [];
    var i := 0;
    while i < |validPlayers|
      invariant 0 <= i <= |validPlayers|
      invariant smartValid == Filter(validPlayers[..i], smart)
    {
      var player := validPlayers[i];
      assert validPlayers[..i + 1][..i] == validPlayers[..i];
      if CheckFutureFeasibility(team, player, sortedScores, settings, teammatesPerTeam) {
        var globalOk := CheckGlobalFeasibility(teamIndex, player, sortedScores, teams, settings, teammatesPerTeam);
        if globalOk {
          smartValid := smartValid + [player];
        }
      }
      i := i + 1;
    }
    assert validPlayers[..i] == validPlayers;
  }

  // ---------------------------------------------------------------------
  // Properties of the filter

  /** The filter is the tiers applied to this team's tests. */
  lemma FilterTiers(teamIndex: int, teams: seq<Team>, availablePlayers: seq<Player>,
                    settings: Settings, teammatesPerTeam: int)
    requires 0 <= teamIndex < |teams|
    ensures var team := teams[teamIndex];
      var sortedScores := SortAscending(Scores(availablePlayers));
      var r := SmartValidPlayers(teamIndex, teams, availablePlayers, settings, teammatesPerTeam);
      var t := Tiers(Filter(availablePlayers, UnderCap(settings.maxScore - team.score)),
                     teammatesPerTeam - |team.roster|,
                     ReachesFloor(settings.minScore - team.score),
                     SmartFeasible(teamIndex, teams, sortedScores, settings, teammatesPerTeam),
                     SelfFeasible(team, sortedScores, settings, teammatesPerTeam));
      r.valid == t.valid && r.error == t.error
  {
  }

  /** Every candidate offered is an available player under the remaining
      cap. */
  lemma ValidWithinCap(teamIndex: int, teams: seq<Team>, availablePlayers: seq<Player>,
                       settings: Settings, teammatesPerTeam: int, p: Player)
    requires 0 <= teamIndex < |teams|
    ensures var r := SmartValidPlayers(teamIndex, teams, availablePlayers, settings, teammatesPerTeam);
      p in r.valid ==> p in availablePlayers && p.score <= settings.maxScore - teams[teamIndex].score
  {
    FilterTiers(teamIndex, teams, availablePlayers, settings, teammatesPerTeam);
    var team := teams[teamIndex];
    var sortedScores := SortAscending(Scores(availablePlayers));
    var cap := UnderCap(settings.maxScore - team.score);
    var validPlayers := Filter(availablePlayers, cap);
    var floor := ReachesFloor(settings.minScore - team.score);
    var smart := SmartFeasible(teamIndex, teams, sortedScores, settings, teammatesPerTeam);
    var self := SelfFeasible(team, sortedScores, settings, teammatesPerTeam);
    FilterMembers(availablePlayers, cap, p);
    FilterMembers(validPlayers, floor, p);
    FilterMembers(validPlayers, smart, p);
    FilterMembers(validPlayers, self, p);
  }

  /** The candidates offered keep some of the available players, in their
      order in the pool. */
  lemma ValidIsSubsequence(teamIndex: int, teams: seq<Team>, availablePlayers: seq<Player>,
                           settings: Settings, teammatesPerTeam: int)
    requires 0 <= teamIndex < |teams|
    ensures IsSubsequence(SmartValidPlayers(teamIndex, teams, availablePlayers, settings, teammatesPerTeam).valid,
                          availablePlayers)
  {
    FilterTiers(teamIndex, teams, availablePlayers, settings, teammatesPerTeam);
    var team := teams[teamIndex];
    var sortedScores := SortAscending(Scores(availablePlayers));
    TiersSubsequence(availablePlayers, UnderCap(settings.maxScore - team.score),
                     teammatesPerTeam - |team.roster|,
                     ReachesFloor(settings.minScore - team.score),
                     SmartFeasible(teamIndex, teams, sortedScores, settings, teammatesPerTeam),
                     SelfFeasible(team, sortedScores, settings, teammatesPerTeam));
  }

  /** An empty list always comes with a hard error, and a list with no
      message, or with only the warning, is never empty. */
  lemma EmptyOnlyWithHardError(
      teamIndex: int, teams: seq<Team>, availablePlayers: seq<Player>,
      settings: Settings, teammatesPerTeam: int)
    requires 0 <= teamIndex < |teams|
    ensures var r := SmartValidPlayers(teamIndex, teams, availablePlayers, settings, teammatesPerTeam);
      r.valid == [] <==> r.error != NoError && r.error != SelfFeasibleOnly
  {
    FilterTiers(teamIndex, teams, availablePlayers, settings, teammatesPerTeam);
    var team := teams[teamIndex];
    var sortedScores := SortAscending(Scores(availablePlayers));
    TiersOutcome(Filter(availablePlayers, UnderCap(settings.maxScore - team.score)),
                 teammatesPerTeam - |team.roster|,
                 ReachesFloor(settings.minScore - team.score),
                 SmartFeasible(teamIndex, teams, sortedScores, settings, teammatesPerTeam),
                 SelfFeasible(team, sortedScores, settings, teammatesPerTeam));
  }

  /** The first error is given exactly when nobody available fits under
      the remaining cap. */
  lemma NoPlayerUnderCapExact(
      teamIndex: int, teams: seq<Team>, availablePlayers: seq<Player>,
      settings: Settings, teammatesPerTeam: int)
    requires 0 <= teamIndex < |teams|
    ensures var r := SmartValidPlayers(teamIndex, teams, availablePlayers, settings, teammatesPerTeam);
      var team := teams[teamIndex];
      r.error == NoPlayerUnderCap <==>
        forall p :: p in availablePlayers ==> p.score > settings.maxScore - team.score
  {
    FilterTiers(teamIndex, teams, availablePlayers, settings, teammatesPerTeam);
    var team := teams[teamIndex];
    var sortedScores := SortAscending(Scores(availablePlayers));
    var cap := UnderCap(settings.maxScore - team.score);
    var validPlayers := Filter(availablePlayers, cap);
    TiersOutcome(validPlayers, teammatesPerTeam - |team.roster|,
                 ReachesFloor(settings.minScore - team.score),
                 SmartFeasible(teamIndex, teams, sortedScores, settings, teammatesPerTeam),
                 SelfFeasible(team, sortedScores, settings, teammatesPerTeam));
    if validPlayers != [] {
      FilterMembers(availablePlayers, cap, validPlayers[0]);
    }
    forall p | p in availablePlayers && p.score <= settings.maxScore - team.score
      ensures validPlayers != []
    {
      FilterMembers(availablePlayers, cap, p);
    }
  }

  /** The second error is given only on the last slot; the warning and the
      last error only on any other slot, including a full roster. */
  lemma ErrorsBySlotsLeft(
      teamIndex: int, teams: seq<Team>, availablePlayers: seq<Player>,
      settings: Settings, teammatesPerTeam: int)
    requires 0 <= teamIndex < |teams|
    ensures var r := SmartValidPlayers(teamIndex, teams, availablePlayers, settings, teammatesPerTeam);
      var team := teams[teamIndex];
      && (r.error == FinalPickBelowMinimum ==> teammatesPerTeam - |team.roster| == 1)
      && (r.error == SelfFeasibleOnly || r.error == NoFeasibleChoice ==>
            teammatesPerTeam - |team.roster| != 1)
  {
    FilterTiers(teamIndex, teams, availablePlayers, settings, teammatesPerTeam);
    var team := teams[teamIndex];
    var sortedScores := SortAscending(Scores(availablePlayers));
    TiersOutcome(Filter(availablePlayers, UnderCap(settings.maxScore - team.score)),
                 teammatesPerTeam - |team.roster|,
                 ReachesFloor(settings.minScore - team.score),
                 SmartFeasible(teamIndex, teams, sortedScores, settings, teammatesPerTeam),
                 SelfFeasible(team, sortedScores, settings, teammatesPerTeam));
  }

  /** On the last slot, exactly the available players between the
      remaining floor and cap are offered. */
  lemma LastSlotMembers(
      teamIndex: int, teams: seq<Team>, availablePlayers: seq<Player>,
      settings: Settings, teammatesPerTeam: int, p: Player)
    requires 0 <= teamIndex < |teams|
    ensures var r := SmartValidPlayers(teamIndex, teams, availablePlayers, settings, teammatesPerTeam);
      var team := teams[teamIndex];
      var underCap := p in availablePlayers && p.score <= settings.maxScore - team.score;
      teammatesPerTeam - |team.roster| == 1 ==>
        (p in r.valid <==> underCap && p.score >= settings.minScore - team.score)
  {
    FilterTiers(teamIndex, teams, availablePlayers, settings, teammatesPerTeam);
    var team := teams[teamIndex];
    var sortedScores := SortAscending(Scores(availablePlayers));
    var cap := UnderCap(settings.maxScore - team.score);
    FilterMembers(availablePlayers, cap, p);
    TiersFloor(Filter(availablePlayers, cap), teammatesPerTeam - |team.roster|,
               ReachesFloor(settings.minScore - team.score),
               SmartFeasible(teamIndex, teams, sortedScores, settings, teammatesPerTeam),
               SelfFeasible(team, sortedScores, settings, teammatesPerTeam), p);
  }

  /** On any slot other than the last and with no message, exactly the available players
      under the cap that pass the self check and the global check are offered. */
  lemma SafeTierMembers(
      teamIndex: int, teams: seq<Team>, availablePlayers: seq<Player>,
      settings: Settings, teammatesPerTeam: int, p: Player)
    requires 0 <= teamIndex < |teams|
    ensures var r := SmartValidPlayers(teamIndex, teams, availablePlayers, settings, teammatesPerTeam);
      var team := teams[teamIndex];
      var sortedScores := SortAscending(Scores(availablePlayers));
      var underCap := p in availablePlayers && p.score <= settings.maxScore - team.score;
      teammatesPerTeam - |team.roster| != 1 && r.error == NoError ==>
        (p in r.valid <==> underCap
                           && CheckFutureFeasibility(team, p, sortedScores, settings, teammatesPerTeam)
                           && GloballyFeasible(teamIndex, p, sortedScores, teams, settings, teammatesPerTeam))
  {
    FilterTiers(teamIndex, teams, availablePlayers, settings, teammatesPerTeam);
    var team := teams[teamIndex];
    var sortedScores := SortAscending(Scores(availablePlayers));
    var cap := UnderCap(settings.maxScore - team.score);
    FilterMembers(availablePlayers, cap, p);
    TiersSmart(Filter(availablePlayers, cap), teammatesPerTeam - |team.roster|,
               ReachesFloor(settings.minScore - team.score),
               SmartFeasible(teamIndex, teams, sortedScores, settings, teammatesPerTeam),
               SelfFeasible(team, sortedScores, settings, teammatesPerTeam), p);
  }

  /** With the warning, exactly the available players under the cap that
      pass the self check are offered. */
  lemma WarningTierMembers(
      teamIndex: int, teams: seq<Team>, availablePlayers: seq<Player>,
      settings: Settings, teammatesPerTeam: int, p: Player)
    requires 0 <= teamIndex < |teams|
    ensures var r := SmartValidPlayers(teamIndex, teams, availablePlayers, settings, teammatesPerTeam);
      var team := teams[teamIndex];
      var sortedScores := SortAscending(Scores(availablePlayers));
      var underCap := p in availablePlayers && p.score <= settings.maxScore - team.score;
      r.error == SelfFeasibleOnly ==>
        (p in r.valid <==> underCap && CheckFutureFeasibility(team, p, sortedScores, settings, teammatesPerTeam))
  {
    FilterTiers(teamIndex, teams, availablePlayers, settings, teammatesPerTeam);
    var team := teams[teamIndex];
    var sortedScores := SortAscending(Scores(availablePlayers));
    var cap := UnderCap(settings.maxScore - team.score);
    FilterMembers(availablePlayers, cap, p);
    TiersSelf(Filter(availablePlayers, cap), teammatesPerTeam - |team.roster|,
              ReachesFloor(settings.minScore - team.score),
              SmartFeasible(teamIndex, teams, sortedScores, settings, teammatesPerTeam),
              SelfFeasible(team, sortedScores, settings, teammatesPerTeam), p);
  }

  /** The second error says of every available player under the cap that
      it misses the floor. */
  lemma FinalPickBelowMinimumJustified(
      teamIndex: int, teams: seq<Team>, availablePlayers: seq<Player>,
      settings: Settings, teammatesPerTeam: int, p: Player)
    requires 0 <= teamIndex < |teams|
    requires p in availablePlayers && p.score <= settings.maxScore - teams[teamIndex].score
    ensures var r := SmartValidPlayers(teamIndex, teams, availablePlayers, settings, teammatesPerTeam);
      r.error == FinalPickBelowMinimum ==> p.score < settings.minScore - teams[teamIndex].score
  {
    FilterTiers(teamIndex, teams, availablePlayers, settings, teammatesPerTeam);
    var team := teams[teamIndex];
    var sortedScores := SortAscending(Scores(availablePlayers));
    var cap := UnderCap(settings.maxScore - team.score);
    FilterMembers(availablePlayers, cap, p);
    TiersFloor(Filter(availablePlayers, cap), teammatesPerTeam - |team.roster|,
               ReachesFloor(settings.minScore - team.score),
               SmartFeasible(teamIndex, teams, sortedScores, settings, teammatesPerTeam),
               SelfFeasible(team, sortedScores, settings, teammatesPerTeam), p);
  }

  /** The warning says of every available player under the cap that it
      fails the self check or the global check. */
  lemma SelfFeasibleOnlyJustified(
      teamIndex: int, teams: seq<Team>, availablePlayers: seq<Player>,
      settings: Settings, teammatesPerTeam: int, p: Player)
    requires 0 <= teamIndex < |teams|
    requires p in availablePlayers && p.score <= settings.maxScore - teams[teamIndex].score
    ensures var r := SmartValidPlayers(teamIndex, teams, availablePlayers, settings, teammatesPerTeam);
      var team := teams[teamIndex];
      var sortedScores := SortAscending(Scores(availablePlayers));
      r.error == SelfFeasibleOnly ==>
        !(CheckFutureFeasibility(team, p, sortedScores, settings, teammatesPerTeam)
          && GloballyFeasible(teamIndex, p, sortedScores, teams, settings, teammatesPerTeam))
  {
    FilterTiers(teamIndex, teams, availablePlayers, settings, teammatesPerTeam);
    var team := teams[teamIndex];
    var sortedScores := SortAscending(Scores(availablePlayers));
    var cap := UnderCap(settings.maxScore - team.score);
    FilterMembers(availablePlayers, cap, p);
    TiersSmart(Filter(availablePlayers, cap), teammatesPerTeam - |team.roster|,
               ReachesFloor(settings.minScore - team.score),
               SmartFeasible(teamIndex, teams, sortedScores, settings, teammatesPerTeam),
               SelfFeasible(team, sortedScores, settings, teammatesPerTeam), p);
  }

  /** The last error says of every available player under the cap that it
      fails the self check. */
  lemma NoFeasibleChoiceJustified(
      teamIndex: int, teams: seq<Team>, availablePlayers: seq<Player>,
      settings: Settings, teammatesPerTeam: int, p: Player)
    requires 0 <= teamIndex < |teams|
    requires p in availablePlayers && p.score <= settings.maxScore - teams[teamIndex].score
    ensures var r := SmartValidPlayers(teamIndex, teams, availablePlayers, settings, teammatesPerTeam);
      var team := teams[teamIndex];
      var sortedScores := SortAscending(Scores(availablePlayers));
      r.error == NoFeasibleChoice ==>
        !CheckFutureFeasibility(team, p, sortedScores, settings, teammatesPerTeam)
  {
    FilterTiers(teamIndex, teams, availablePlayers, settings, teammatesPerTeam);
    var team := teams[teamIndex];
    var sortedScores := SortAscending(Scores(availablePlayers));
    var cap := UnderCap(settings.maxScore - team.score);
    FilterMembers(availablePlayers, cap, p);
    TiersSelf(Filter(availablePlayers, cap), teammatesPerTeam - |team.roster|,
              ReachesFloor(settings.minScore - team.score),
              SmartFeasible(teamIndex, teams, sortedScores, settings, teammatesPerTeam),
              SelfFeasible(team, sortedScores, settings, teammatesPerTeam), p);
  }

  /** No false negatives end to end: a candidate under the cap after whom
      the picking team can still finish, and every other team too, is
      offered, and the filter reports no problem. */
  lemma SafeCandidateAlwaysOffered(teamIndex: int, teams: seq<Team>, availablePlayers: seq<Player>,
                                   settings: Settings, teammatesPerTeam: int, p: Player)
    requires 0 <= teamIndex < |teams|
    requires p in availablePlayers
    requires p.score <= settings.maxScore - teams[teamIndex].score
    requires var team := teams[teamIndex];
      var sortedScores := SortAscending(Scores(availablePlayers));
      var projected := team.score + p.score;
      && CanFill(teammatesPerTeam - |team.roster| - 1,
                 settings.minScore - projected, settings.maxScore - projected,
                 RemoveFirst(sortedScores, p.score))
      && forall i :: 0 <= i < |teams| && i != teamIndex ==>
           OtherTeamCanFinish(teams[i], p, sortedScores, settings, teammatesPerTeam)
    ensures var r := SmartValidPlayers(teamIndex, teams, availablePlayers, settings, teammatesPerTeam);
      r.error == NoError && p in r.valid
  {
    var team := teams[teamIndex];
    var sortedScores := SortAscending(Scores(availablePlayers));
    SortAscendingSorted(Scores(availablePlayers));
    ScoreInPool(availablePlayers, p);
    SelfCheckComplete(team, p, sortedScores, settings, teammatesPerTeam);
    NoPlayerUnderCapExact(teamIndex, teams, availablePlayers, settings, teammatesPerTeam);
    ErrorsBySlotsLeft(teamIndex, teams, availablePlayers, settings, teammatesPerTeam);
    if teammatesPerTeam - |team.roster| == 1 {
      FinalPickBelowMinimumJustified(teamIndex, teams, availablePlayers, settings, teammatesPerTeam, p);
      LastSlotMembers(teamIndex, teams, availablePlayers, settings, teammatesPerTeam, p);
    } else {
      GlobalCheckComplete(teamIndex, p, sortedScores, teams, settings, teammatesPerTeam);
      SelfFeasibleOnlyJustified(teamIndex, teams, availablePlayers, settings, teammatesPerTeam, p);
      NoFeasibleChoiceJustified(teamIndex, teams, availablePlayers, settings, teammatesPerTeam, p);
      SafeTierMembers(teamIndex, teams, availablePlayers, settings, teammatesPerTeam, p);
    }
  }

  /** An available player's score is in the sorted pool. */
  lemma ScoreInPool(availablePlayers: seq<Player>, p: Player)
    requires p in availablePlayers
    ensures p.score in SortAscending(Scores(availablePlayers))
  {
    var scores := Scores(availablePlayers);
    ScoresMember(availablePlayers, p);
    SortAscendingPermutes(scores);
    assert p.score in multiset(scores);
    assert p.score in multiset(SortAscending(scores));
  }
}
