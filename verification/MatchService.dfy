/** The point-award and reset entry points of services/match_service.py. The
    repository's current match is passed in and the new one returned; the
    match-winner check, which the service delegates to code that is not part of this
    model, is a parameter. */
module MatchService {
  import opened Basics
  import opened MatchModel
  import opened ScoreHandler

  /** Python truthiness of `match.winner`: None and the id 0 both read as "no winner". */
  predicate HasWinner(m: Match): (b: bool)
    ensures b <==> m.winner != None && m.winner != Some(0)
  {
    m.winner.Some? && m.winner.value != 0
  }

  /** The rally seen from `key`'s side: that player's record, the other one's, and the flag. */
  function RallyOf(m: Match, key: string): (r: Rally)
    requires IsPlayerKey(key)
    ensures r.scorer == ScoreOf(m, key) && r.opponent == ScoreOf(m, Opponent(key))
    ensures {r.scorer, r.opponent} == {m.scores.player1, m.scores.player2}
    ensures r.isTiebreak == m.isTiebreak
  {
    Rally(ScoreOf(m, key), ScoreOf(m, Opponent(key)), m.isTiebreak)
  }

  /** Writes a rally back into the match under `key`'s side. */
  function WriteBack(m: Match, key: string, r: Rally): (n: Match)
    requires IsPlayerKey(key)
    ensures RallyOf(n, key) == r
    ensures n.(scores := m.scores, isTiebreak := m.isTiebreak) == m
  {
    var scores := if key == Player1Key then Scores(r.scorer, r.opponent) else Scores(r.opponent, r.scorer);
    m.(scores := scores, isTiebreak := r.isTiebreak)
  }

  /** The rule dispatch: the tie-break rule in tie-break mode, the regular rule otherwise. */
  function ApplyRule(r: Rally): (out: Result<Rally, ScoreError>)
    ensures r.isTiebreak ==> out == Success(TiebreakPoint(r))
    ensures !r.isTiebreak ==> out == RegularPoint(r)
  {
    if r.isTiebreak then Success(TiebreakPoint(r)) else RegularPoint(r)
  }

  /** `update_current_match_score(player)`. The result is the repository's current match
      afterwards, which is also what the service hands back. A rule that raises is caught
      and leaves the match as it was. */
  function UpdateCurrentMatchScore(current: Option<Match>, key: string,
                                   matchWon: (string, PlayerScore) -> bool)
    : (next: Option<Match>)
    ensures current.None? <==> next.None?
    ensures current.Some? && !IsPlayerKey(key) ==> next == current
    ensures current.Some? && HasWinner(current.value) ==> next == current
    ensures current.Some? && IsPlayerKey(key) && !HasWinner(current.value) ==>
              var m := current.value;
              match ApplyRule(RallyOf(m, key))
              case Failure(_) => next == current
              case Success(r) =>
                && RallyOf(next.value, key) == r
                && next.value.winner == (if matchWon(key, r.scorer) then PlayerOf(m, key).id else m.winner)
                && next.value.(scores := m.scores, isTiebreak := m.isTiebreak, winner := m.winner) == m
  {
    match current
    case None => None
    case Some(m) =>
      if !IsPlayerKey(key) || HasWinner(m) then current
      else match ApplyRule(RallyOf(m, key))
        case Failure(_) => current
        case Success(r) =>
          var n := WriteBack(m, key, r);
          Some(if matchWon(key, r.scorer) then n.(winner := PlayerOf(m, key).id) else n)
  }

  /** `reset_current_match`: no match, nothing to do; otherwise the score is reset. */
  function ResetCurrentMatch(current: Option<Match>): (next: Option<Match>)
    ensures current.None? ==> next.None?
    ensures current.Some? ==> next.Some? && HasInitialScore(next.value)
    ensures current.Some? ==>
              next.value.(scores := current.value.scores, isTiebreak := current.value.isTiebreak,
                          winner := current.value.winner) == current.value
  {
    match current
    case None => None
    case Some(m) => Some(ResetMatchScore(m))
  }

  /** The score invariant, stated on a whole match. */
  predicate MatchInvariant(m: Match) {
    ScoreInvariant(m.scores.player1, m.scores.player2, m.isTiebreak)
  }

  lemma RallyOfKeepsInvariant(m: Match, key: string)
    requires IsPlayerKey(key)
    ensures MatchInvariant(m) <==> RallyInvariant(RallyOf(m, key))
  {
    ScoreInvariantSymmetric(m.scores.player1, m.scores.player2, m.isTiebreak);
  }

  /** Awarding a point to either player of a match in a valid state leaves it in a valid
      state, and no rule raises on the way. */
  lemma UpdateKeepsInvariant(current: Option<Match>, key: string, matchWon: (string, PlayerScore) -> bool)
    requires current.Some? && MatchInvariant(current.value)
    ensures UpdateCurrentMatchScore(current, key, matchWon).Some?
    ensures MatchInvariant(UpdateCurrentMatchScore(current, key, matchWon).value)
    ensures IsPlayerKey(key) && !HasWinner(current.value) ==>
              ApplyRule(RallyOf(current.value, key)).Success?
  {
    var m := current.value;
    if IsPlayerKey(key) && !HasWinner(m) {
      var r := RallyOf(m, key);
      RallyOfKeepsInvariant(m, key);
      if r.isTiebreak {
        TiebreakPointKeepsInvariant(r);
      } else {
        RegularPointKeepsInvariant(r);
      }
      var out := ApplyRule(r).value;
      var n := WriteBack(m, key, out);
      RallyOfKeepsInvariant(n, key);
    }
  }

  /** A winner id of 0 reads as no winner, so such a match goes on scoring points. */
  lemma WinnerZeroDoesNotStopPlay(m: Match, key: string, matchWon: (string, PlayerScore) -> bool)
    requires IsPlayerKey(key) && m.winner == Some(0) && MatchInvariant(m)
    ensures UpdateCurrentMatchScore(Some(m), key, matchWon).Some?
    ensures ApplyRule(RallyOf(m, key)).Success?
    ensures RallyOf(UpdateCurrentMatchScore(Some(m), key, matchWon).value, key) == ApplyRule(RallyOf(m, key)).value
  {
    UpdateKeepsInvariant(Some(m), key, matchWon);
  }

  /** A freshly constructed match and a reset match both start from a valid state. */
  lemma InitialScoreIsValid(m: Match)
    requires HasInitialScore(m)
    ensures MatchInvariant(m)
  {
  }

  /** Resetting twice is resetting once. */
  lemma ResetIsIdempotent(current: Option<Match>)
    ensures ResetCurrentMatch(ResetCurrentMatch(current)) == ResetCurrentMatch(current)
  {
  }

  /** What the pages send to the service. */
  datatype Command = Point(key: string) | Reset

  /** The current match after a sequence of commands. */
  function Replay(current: Option<Match>, commands: seq<Command>,
                  matchWon: (string, PlayerScore) -> bool): Option<Match>
    decreases |commands|
  {
    if |commands| == 0 then current
    else
      var next := match commands[0]
        case Point(key) => UpdateCurrentMatchScore(current, key, matchWon)
        case Reset => ResetCurrentMatch(current);
      Replay(next, commands[1..], matchWon)
  }

  /** Starting from a newly created match, every sequence of points and resets keeps
      the score valid: points within the table, at most one advantage and only at
      40-40, sets in progress below seven games, tie-breaks only at six all. */
  lemma {:induction false} ReplayKeepsInvariant(current: Option<Match>, commands: seq<Command>,
                                                matchWon: (string, PlayerScore) -> bool)
    requires current.Some? && MatchInvariant(current.value)
    ensures Replay(current, commands, matchWon).Some?
    ensures MatchInvariant(Replay(current, commands, matchWon).value)
    decreases |commands|
  {
    if |commands| > 0 {
      match commands[0]
      case Point(key) =>
        UpdateKeepsInvariant(current, key, matchWon);
        ReplayKeepsInvariant(UpdateCurrentMatchScore(current, key, matchWon), commands[1..], matchWon);
      case Reset =>
        ReplayKeepsInvariant(ResetCurrentMatch(current), commands[1..], matchWon);
    }
  }

  /** Every match the constructor accepts starts valid and stays valid under any replay. */
  lemma NewMatchStaysValid(name1: string, name2: string, uid: string, id1: int, id2: int,
                           commands: seq<Command>, matchWon: (string, PlayerScore) -> bool)
    requires NewMatch(name1, name2, uid, id1, id2).Success?
    ensures var start := Some(NewMatch(name1, name2, uid, id1, id2).value);
            && Replay(start, commands, matchWon).Some?
            && MatchInvariant(Replay(start, commands, matchWon).value)
  {
    var start := Some(NewMatch(name1, name2, uid, id1, id2).value);
    InitialScoreIsValid(start.value);
    ReplayKeepsInvariant(start, commands, matchWon);
  }
}
