/** Records the draft engine reads: players, teams, the score budget, and the
    result shapes of the candidate filter and the risk classifier. */
module DraftTypes {

  datatype Option<+T> = None | Some(value: T)

  /** A player of the shared pool; only the id and the integer score matter
      to the engine (the display name is presentation). */
  datatype Player = Player(id: int, score: int)

  /** A team as the engine sees it: its running score and its roster so far. */
  datatype Team = Team(score: int, roster: seq<Player>)

  /** The inclusive per-team score budget [minScore, maxScore]. */
  datatype Settings = Settings(minScore: int, maxScore: int)

  /** The four messages the candidate filter can attach to its result. The
      third is a warning that comes with a non-empty candidate list; the
      other three are hard errors that come with an empty one. */
  datatype FilterError =
    | NoError                 // the `null` error: nothing to report
    | NoPlayerUnderCap        // no score fits under the remaining cap
    | FinalPickBelowMinimum   // the last pick cannot reach the floor
    | SelfFeasibleOnly        // no pick is safe for everyone; self-feasible only
    | NoFeasibleChoice        // the team itself cannot be completed

  /** `{valid, error}` as returned by the candidate filter. */
  datatype FilterResult = FilterResult(valid: seq<Player>, error: FilterError)

  /** The status glyph of the risk classifier: a cross, a tick, a warning
      sign, and the question mark of its defensive default. */
  datatype RiskStatus = HardFail | Safe | AtRisk | Unknown

  /** The description strings of the risk classifier. */
  datatype RiskReason = ScoreTooHigh | ScoreTooLow | SafePick | Risky | Unexplained

  datatype RiskResult = RiskResult(status: RiskStatus, description: RiskReason, level: int)

  /** The scores of a list of players, in list order: one per player
      (`ScoresAt` gives each position). */
  function Scores(ps: seq<Player>): (r: seq<int>)
    ensures |r| == |ps|
  {
    if |ps| == 0 then [] else [ps[0].score] + Scores(ps[1..])
  }

  /** Position `i` of the scores is the score of player `i`. */
  lemma {:induction false} ScoresAt(ps: seq<Player>, i: int)
    requires 0 <= i < |ps|
    ensures Scores(ps)[i] == ps[i].score
  {
    if i > 0 {
      ScoresAt(ps[1..], i - 1);
    }
  }

  /** The score of every player of the list is among its scores. */
  lemma {:induction false} ScoresMember(ps: seq<Player>, p: Player)
    requires p in ps
    ensures p.score in Scores(ps)
  {
    if ps[0] != p {
      ScoresMember(ps[1..], p);
    }
  }
}
