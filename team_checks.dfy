/** The two uses of the oracle: can the picking team still finish if it
    takes this candidate, and can every other team still finish once the
    candidate has left the pool? */
module TeamChecks {
  import opened DraftTypes
  import opened ScoreSeqs
  import opened Feasibility

  /** Self-feasibility (`checkFutureFeasibility`): after taking `cand`, the
      team has `teammatesPerTeam - |roster| - 1` slots left; with none left
      its projected score must lie in the budget, otherwise the oracle is
      asked about the shifted window with the candidate's score taken out.
      With no slot left after the candidate (the explicit branch, or a
      roster that is already full, where the oracle sees no slots) the check
      is exactly whether the projected score lies in the budget; with slots
      left it never passes unless the pool holds enough other values. */
  predicate CheckFutureFeasibility(team: Team, cand: Player, sortedScores: seq<int>,
                                   settings: Settings, teammatesPerTeam: int): (ok: bool)
    ensures teammatesPerTeam - |team.roster| - 1 <= 0 ==>
      (ok <==> settings.minScore <= team.score + cand.score <= settings.maxScore)
    ensures ok && teammatesPerTeam - |team.roster| - 1 > 0 ==>
      |sortedScores| - 1 >= teammatesPerTeam - |team.roster| - 1
  {
    var remainingSlots := teammatesPerTeam - |team.roster| - 1;
    var currentScore := team.score + cand.score;
    if remainingSlots == 0 then
      settings.minScore <= currentScore <= settings.maxScore
    else
      Feasible(remainingSlots, settings.minScore - currentScore, settings.maxScore - currentScore,
               sortedScores, cand.score)
  }

  /** The global check, as a property of all teams: every team other than
      the picking one that still has slots passes the oracle on its own
      window, against the pool without the candidate's score. */
  predicate GloballyFeasible(pickingTeamIndex: int, cand: Player, sortedScores: seq<int>,
                             teams: seq<Team>, settings: Settings, teammatesPerTeam: int)
  {
    forall i :: 0 <= i < |teams| && i != pickingTeamIndex ==>
      OtherTeamFeasible(teams[i], cand, sortedScores, settings, teammatesPerTeam)
  }

  /** One team's part of the global check: a team with slots left must
      pass the oracle on [minScore - score, maxScore - score]. */
  predicate OtherTeamFeasible(team: Team, cand: Player, sortedScores: seq<int>,
                              settings: Settings, teammatesPerTeam: int)
  {
    var remainingSlots := teammatesPerTeam - |team.roster|;
    remainingSlots > 0 ==>
      Feasible(remainingSlots, settings.minScore - team.score, settings.maxScore - team.score,
               sortedScores, cand.score)
  }

  /** What the team could really do: fill its remaining slots from the pool
      without the candidate's score and land within its budget. */
  ghost predicate OtherTeamCanFinish(team: Team, cand: Player, sortedScores: seq<int>,
                                     settings: Settings, teammatesPerTeam: int)
  {
    var remainingSlots := teammatesPerTeam - |team.roster|;
    remainingSlots > 0 ==>
      CanFill(remainingSlots, settings.minScore - team.score, settings.maxScore - team.score,
              RemoveFirst(sortedScores, cand.score))
  }

  /** `checkGlobalFeasibility`: one oracle call per other unfinished team,
      stopping at the first team that could no longer finish. */
  method CheckGlobalFeasibility(pickingTeamIndex: int, cand: Player, sortedScores: seq<int>,
                                teams: seq<Team>, settings: Settings, teammatesPerTeam: int)
    returns (ok: bool)
    ensures ok == GloballyFeasible(pickingTeamIndex, cand, sortedScores, teams, settings, teammatesPerTeam)
  {
    var i := 0;
    while i < |teams|
      invariant 0 <= i <= |teams|
      invariant forall k :: 0 <= k < i && k != pickingTeamIndex ==>
        OtherTeamFeasible(teams[k], cand, sortedScores, settings, teammatesPerTeam)
    {
      if i != pickingTeamIndex {
        var team := teams[i];
        var remainingSlots := teammatesPerTeam - |team.roster|;
        if remainingSlots > 0 {
          var minNeeded := settings.minScore - team.score;
          var maxAllowed := settings.maxScore - team.score;
          var feasible := CheckFeasibilityWithRemoval(remainingSlots, minNeeded, maxAllowed,
                                                      sortedScores, cand.score);
          if !feasible {
            return false;
          }
        }
      }
      i := i + 1;
    }
    return true;
  }

  // ---------------------------------------------------------------------
  // Properties

  /** No false negatives: if, after taking the candidate, the team could
      fill its remaining slots from the rest of the pool within its budget,
      the self check passes. */
  lemma SelfCheckComplete(team: Team, cand: Player, sortedScores: seq<int>,
                          settings: Settings, teammatesPerTeam: int)
    requires Sorted(sortedScores) && cand.score in sortedScores
    requires var projected := team.score + cand.score;
      CanFill(teammatesPerTeam - |team.roster| - 1,
              settings.minScore - projected, settings.maxScore - projected,
              RemoveFirst(sortedScores, cand.score))
    ensures CheckFutureFeasibility(team, cand, sortedScores, settings, teammatesPerTeam)
  {
    var projected := team.score + cand.score;
    var remainingSlots := teammatesPerTeam - |team.roster| - 1;
    OracleComplete(remainingSlots, settings.minScore - projected, settings.maxScore - projected,
                   sortedScores, cand.score);
  }

  /** With exactly one slot left after the candidate, the self check is
      exact: it passes iff some remaining value completes the budget. */
  lemma SelfCheckExactBeforeLastPick(team: Team, cand: Player, sortedScores: seq<int>,
                                     settings: Settings, teammatesPerTeam: int)
    requires Sorted(sortedScores) && cand.score in sortedScores
    requires teammatesPerTeam - |team.roster| - 1 == 1
    ensures CheckFutureFeasibility(team, cand, sortedScores, settings, teammatesPerTeam)
            <==> exists v :: v in RemoveFirst(sortedScores, cand.score) &&
                   settings.minScore <= team.score + cand.score + v <= settings.maxScore
  {
    var projected := team.score + cand.score;
    var lo, hi := settings.minScore - projected, settings.maxScore - projected;
    var rest := RemoveFirst(sortedScores, cand.score);
    GapCheckExact(lo, hi, sortedScores, cand.score);
    assert CheckFutureFeasibility(team, cand, sortedScores, settings, teammatesPerTeam)
           == Feasible(1, lo, hi, sortedScores, cand.score);
    assert forall v :: v in rest ==> ((lo <= v <= hi) == (settings.minScore <= projected + v <= settings.maxScore));
  }

  /** No false negatives for the global check: if every other team that
      still has slots could fill them from the pool without the candidate,
      the global check passes. */
  lemma GlobalCheckComplete(pickingTeamIndex: int, cand: Player, sortedScores: seq<int>,
                            teams: seq<Team>, settings: Settings, teammatesPerTeam: int)
    requires Sorted(sortedScores) && cand.score in sortedScores
    requires forall i :: 0 <= i < |teams| && i != pickingTeamIndex ==>
      OtherTeamCanFinish(teams[i], cand, sortedScores, settings, teammatesPerTeam)
    ensures GloballyFeasible(pickingTeamIndex, cand, sortedScores, teams, settings, teammatesPerTeam)
  {
    forall i | 0 <= i < |teams| && i != pickingTeamIndex
      ensures OtherTeamFeasible(teams[i], cand, sortedScores, settings, teammatesPerTeam)
    {
      var t := teams[i];
      var slots := teammatesPerTeam - |t.roster|;
      if slots > 0 {
        OracleComplete(slots, settings.minScore - t.score, settings.maxScore - t.score,
                       sortedScores, cand.score);
      }
    }
  }

  /** The picking team and teams with no slots left never affect the
      global check: replacing either kind by any other such team leaves the
      verdict unchanged. */
  lemma GlobalCheckIgnoresPickerAndFullTeams(pickingTeamIndex: int, cand: Player, sortedScores: seq<int>,
                                             teams: seq<Team>, settings: Settings, teammatesPerTeam: int,
                                             i: int, other: Team)
    requires 0 <= i < |teams|
    requires i == pickingTeamIndex ||
             (teammatesPerTeam - |teams[i].roster| <= 0 && teammatesPerTeam - |other.roster| <= 0)
    ensures GloballyFeasible(pickingTeamIndex, cand, sortedScores, teams[i := other], settings, teammatesPerTeam)
            == GloballyFeasible(pickingTeamIndex, cand, sortedScores, teams, settings, teammatesPerTeam)
  {
    var teams' := teams[i := other];
    forall k | 0 <= k < |teams| && k != i
      ensures teams'[k] == teams[k]
    {
    }
  }
}
