/** The risk classifier (`analyzeRisk`) behind manual picks: a level from
    1 (safe) to 5 (illegal) for one candidate, from the same bounds and the
    same two checks as the candidate filter. */
module Risk {
  import opened DraftTypes
  import opened ScoreSeqs
  import opened TeamChecks
  import opened CandidateFilter

  /** `analyzeRisk`. The global check is only run once the team has at
      least one player; before that it counts as passed. Every verdict has a
      level in 1 .. 5 (the question-mark default at 99 is never reached),
      and the glyph follows the level: a tick for 1 and a warning sign for
      2 to 4. */
  function AnalyzeRisk(teamIndex: int, player: Player, availablePlayers: seq<Player>,
                       teams: seq<Team>, settings: Settings, teammatesPerTeam: int): (r: RiskResult)
    requires 0 <= teamIndex < |teams|
    ensures 1 <= r.level <= 5
    ensures r.status != Unknown
    ensures r.level == 1 <==> r.status == Safe
    ensures 2 <= r.level <= 4 <==> r.status == AtRisk
  {
    var sortedScores := SortAscending(Scores(availablePlayers));
    var team := teams[teamIndex];
    var remainingSlots := teammatesPerTeam - |team.roster|;
    var remainingMax := settings.maxScore - team.score;
    var remainingMin := settings.minScore - team.score;
    if player.score > remainingMax then RiskResult(HardFail, ScoreTooHigh, 5)
    else if remainingSlots == 1 && player.score < remainingMin then RiskResult(HardFail, ScoreTooLow, 5)
    else
      var isSafeSelf := CheckFutureFeasibility(team, player, sortedScores, settings, teammatesPerTeam);
      var isSafeGlobal :=
        if |team.roster| >= 1 then GloballyFeasible(teamIndex, player, sortedScores, teams, settings, teammatesPerTeam)
        else true;
      if isSafeSelf && isSafeGlobal then RiskResult(Safe, SafePick, 1)
      else if !isSafeSelf && !isSafeGlobal then RiskResult(AtRisk, Risky, 4)
      else if !isSafeGlobal then RiskResult(AtRisk, Risky, 3)
      else if !isSafeSelf then RiskResult(AtRisk, Risky, 2)
      else RiskResult(Unknown, Unexplained, 99)
  }

  // ---------------------------------------------------------------------
  // Properties

  /** Level 5 is given exactly for a score over the remaining cap, or under
      the remaining floor on the last slot; it always comes with the cross. */
  lemma HardFailExact(teamIndex: int, player: Player, availablePlayers: seq<Player>,
                      teams: seq<Team>, settings: Settings, teammatesPerTeam: int)
    requires 0 <= teamIndex < |teams|
    ensures var r := AnalyzeRisk(teamIndex, player, availablePlayers, teams, settings, teammatesPerTeam);
      var team := teams[teamIndex];
      && (r.level == 5 <==>
            || player.score > settings.maxScore - team.score
            || (teammatesPerTeam - |team.roster| == 1 && player.score < settings.minScore - team.score))
      && (r.level == 5 <==> r.status == HardFail)
  {
  }

  /** Below level 5 the level is 1 to 4, never the default 99: level 1 when
      both checks pass, 2 when only the global one does, 3 when only the
      self check does, 4 when neither does. */
  lemma LevelsBelowHardFail(teamIndex: int, player: Player, availablePlayers: seq<Player>,
                            teams: seq<Team>, settings: Settings, teammatesPerTeam: int)
    requires 0 <= teamIndex < |teams|
    ensures var r := AnalyzeRisk(teamIndex, player, availablePlayers, teams, settings, teammatesPerTeam);
      var team := teams[teamIndex];
      var sortedScores := SortAscending(Scores(availablePlayers));
      var self := CheckFutureFeasibility(team, player, sortedScores, settings, teammatesPerTeam);
      var global := |team.roster| == 0 ||
                    GloballyFeasible(teamIndex, player, sortedScores, teams, settings, teammatesPerTeam);
      r.level != 5 ==>
        && (r.level == 1 <==> self && global)
        && (r.level == 2 <==> !self && global)
        && (r.level == 3 <==> self && !global)
        && (r.level == 4 <==> !self && !global)
  {
  }

  /** With an empty roster the global check is skipped, so only levels 1, 2
      and 5 can come out. */
  lemma EmptyRosterLevels(teamIndex: int, player: Player, availablePlayers: seq<Player>,
                          teams: seq<Team>, settings: Settings, teammatesPerTeam: int)
    requires 0 <= teamIndex < |teams| && |teams[teamIndex].roster| == 0
    ensures var r := AnalyzeRisk(teamIndex, player, availablePlayers, teams, settings, teammatesPerTeam);
      r.level == 1 || r.level == 2 || r.level == 5
  {
  }

  /** A level-5 player is never offered by the candidate filter for the same
      team and pool. */
  lemma HardFailNeverOffered(teamIndex: int, player: Player, availablePlayers: seq<Player>,
                             teams: seq<Team>, settings: Settings, teammatesPerTeam: int)
    requires 0 <= teamIndex < |teams|
    requires AnalyzeRisk(teamIndex, player, availablePlayers, teams, settings, teammatesPerTeam).level == 5
    ensures player !in SmartValidPlayers(teamIndex, teams, availablePlayers, settings, teammatesPerTeam).valid
  {
    HardFailExact(teamIndex, player, availablePlayers, teams, settings, teammatesPerTeam);
    ValidWithinCap(teamIndex, teams, availablePlayers, settings, teammatesPerTeam, player);
    LastSlotMembers(teamIndex, teams, availablePlayers, settings, teammatesPerTeam, player);
  }

  /** Once the team has a player, a level-1 player from the pool is offered
      by the candidate filter, with no message. */
  lemma SafeIsOffered(teamIndex: int, player: Player, availablePlayers: seq<Player>,
                      teams: seq<Team>, settings: Settings, teammatesPerTeam: int)
    requires 0 <= teamIndex < |teams| && |teams[teamIndex].roster| >= 1
    requires player in availablePlayers
    requires AnalyzeRisk(teamIndex, player, availablePlayers, teams, settings, teammatesPerTeam).level == 1
    ensures var r := SmartValidPlayers(teamIndex, teams, availablePlayers, settings, teammatesPerTeam);
      r.error == NoError && player in r.valid
  {
    var team := teams[teamIndex];
    HardFailExact(teamIndex, player, availablePlayers, teams, settings, teammatesPerTeam);
    LevelsBelowHardFail(teamIndex, player, availablePlayers, teams, settings, teammatesPerTeam);
    NoPlayerUnderCapExact(teamIndex, teams, availablePlayers, settings, teammatesPerTeam);
    ErrorsBySlotsLeft(teamIndex, teams, availablePlayers, settings, teammatesPerTeam);
    if teammatesPerTeam - |team.roster| == 1 {
      FinalPickBelowMinimumJustified(teamIndex, teams, availablePlayers, settings, teammatesPerTeam, player);
      LastSlotMembers(teamIndex, teams, availablePlayers, settings, teammatesPerTeam, player);
    } else {
      SelfFeasibleOnlyJustified(teamIndex, teams, availablePlayers, settings, teammatesPerTeam, player);
      NoFeasibleChoiceJustified(teamIndex, teams, availablePlayers, settings, teammatesPerTeam, player);
      SafeTierMembers(teamIndex, teams, availablePlayers, settings, teammatesPerTeam, player);
    }
  }
}
