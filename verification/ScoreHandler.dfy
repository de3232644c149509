/** The scoring rules of services/score_handler.py: one point of a regular game
    (0/15/30/40, deuce, advantage), one point of a tie-break, the set check after a
    game, and the full reset. Each rule is a pure step on the two score records the
    point touches. */
module ScoreHandler {
  import opened Basics
  import opened MatchModel

  /** The two records a point touches, the scorer's first, and the match's tie-break flag. */
  datatype Rally = Rally(scorer: PlayerScore, opponent: PlayerScore, isTiebreak: bool)

  /** The IndexError the eager debug message of `update_regular_score` raises when a
      point count does not index the display table; it fires before anything changes. */
  datatype ScoreError = PointsOutsideTable

  const GamesToWinSet: nat := 6
  const TiebreakPointsToWin: nat := 7
  const WinningMargin: nat := 2

  /** `check_set_win`'s first condition, from the scorer's side. */
  predicate WinsSet(games: nat, opponentGames: nat) {
    games >= GamesToWinSet && games >= opponentGames + WinningMargin
  }

  /** The tie-break win condition of `update_tiebreak_score`. */
  predicate WinsTiebreak(points: nat, opponentPoints: nat) {
    points >= TiebreakPointsToWin && points >= opponentPoints + WinningMargin
  }

  /** A regular game won by the scorer: games + 1, both back to 0, no advantage. */
  function AwardGame(r: Rally): Rally {
    r.(scorer := r.scorer.(games := r.scorer.games + 1, points := 0, advantage := false),
       opponent := r.opponent.(points := 0, advantage := false))
  }

  /** `check_set_win`: after a game, the scorer takes the set with six games and a
      two-game lead; at six all the tie-break starts; otherwise nothing happens. */
  function CheckSetWin(r: Rally): (c: Rally)
    ensures WinsSet(r.scorer.games, r.opponent.games) ==>
              && c.scorer == r.scorer.(sets := r.scorer.sets + 1, games := 0, points := 0)
              && c.opponent == r.opponent.(games := 0, points := 0)
              && c.isTiebreak == r.isTiebreak
    ensures !WinsSet(r.scorer.games, r.opponent.games)
            && r.scorer.games == GamesToWinSet && r.opponent.games == GamesToWinSet ==>
              && c.isTiebreak
              && c.scorer == r.scorer.(tiebreakPoints := 0, points := 0)
              && c.opponent == r.opponent.(tiebreakPoints := 0, points := 0)
    ensures !WinsSet(r.scorer.games, r.opponent.games)
            && !(r.scorer.games == GamesToWinSet && r.opponent.games == GamesToWinSet) ==>
              c == r
  {
    if WinsSet(r.scorer.games, r.opponent.games) then
      r.(scorer := r.scorer.(sets := r.scorer.sets + 1, games := 0, points := 0),
         opponent := r.opponent.(games := 0, points := 0))
    else if r.scorer.games == GamesToWinSet && r.opponent.games == GamesToWinSet then
      r.(isTiebreak := true,
         scorer := r.scorer.(tiebreakPoints := 0, points := 0),
         opponent := r.opponent.(tiebreakPoints := 0, points := 0))
    else
      r
  }

  /** `update_regular_score`. */
  function RegularPoint(r: Rally): (out: Result<Rally, ScoreError>)
    ensures out.Failure? <==> r.scorer.points > Forty || r.opponent.points > Forty
    // the scorer held advantage: the game is won
    ensures out.Success? && r.scorer.advantage ==> out.value == CheckSetWin(AwardGame(r))
    // below 40: only the scorer's points move
    ensures out.Success? && !r.scorer.advantage && r.scorer.points < Forty ==>
              out.value == r.(scorer := r.scorer.(points := r.scorer.points + 1))
    // 40-40, opponent had advantage: back to deuce
    ensures out.Success? && !r.scorer.advantage && r.scorer.points == Forty && r.opponent.points == Forty
            && r.opponent.advantage ==>
              out.value == r.(opponent := r.opponent.(advantage := false))
    // 40-40 at deuce: the scorer gains advantage
    ensures out.Success? && !r.scorer.advantage && r.scorer.points == Forty && r.opponent.points == Forty
            && !r.opponent.advantage ==>
              out.value == r.(scorer := r.scorer.(advantage := true))
    // 40 against less: the game is won
    ensures out.Success? && !r.scorer.advantage && r.scorer.points == Forty && r.opponent.points < Forty ==>
              out.value == CheckSetWin(AwardGame(r))
  {
    if r.scorer.points > Forty || r.opponent.points > Forty then
      Failure(PointsOutsideTable)
    else if r.scorer.advantage then
      Success(CheckSetWin(AwardGame(r)))
    else if r.scorer.points < Forty then
      Success(r.(scorer := r.scorer.(points := r.scorer.points + 1)))
    else if r.opponent.points == Forty then
      if r.opponent.advantage then Success(r.(opponent := r.opponent.(advantage := false)))
      else Success(r.(scorer := r.scorer.(advantage := true)))
    else
      Success(CheckSetWin(AwardGame(r)))
  }

  /** `update_tiebreak_score`. */
  function TiebreakPoint(r: Rally): (t: Rally)
    ensures WinsTiebreak(r.scorer.tiebreakPoints + 1, r.opponent.tiebreakPoints) ==>
              && t.scorer == r.scorer.(sets := r.scorer.sets + 1, games := 0, points := 0, tiebreakPoints := 0)
              && t.opponent == r.opponent.(games := 0, points := 0, tiebreakPoints := 0)
              && !t.isTiebreak
    ensures !WinsTiebreak(r.scorer.tiebreakPoints + 1, r.opponent.tiebreakPoints) ==>
              t == r.(scorer := r.scorer.(tiebreakPoints := r.scorer.tiebreakPoints + 1))
  {
    var tb := r.scorer.tiebreakPoints + 1;
    if WinsTiebreak(tb, r.opponent.tiebreakPoints) then
      Rally(r.scorer.(sets := r.scorer.sets + 1, games := 0, points := 0, tiebreakPoints := 0),
            r.opponent.(games := 0, points := 0, tiebreakPoints := 0),
            false)
    else
      r.(scorer := r.scorer.(tiebreakPoints := tb))
  }

  /** `reset_match_score`: every counter, advantage, the tie-break flag and the winner
      go back to the start; the players, ids and set history are kept. */
  function ResetMatchScore(m: Match): (r: Match)
    ensures HasInitialScore(r)
    ensures r.(scores := m.scores, isTiebreak := m.isTiebreak, winner := m.winner) == m
  {
    m.(scores := Scores(ZeroScore, ZeroScore), isTiebreak := false, winner := None)
  }

  // ---------------------------------------------------------------------------
  // The invariant the rules keep.

  /** A set still being played in regular games: neither player has taken it and the
      games have not reached six all. */
  predicate SetInProgress(games: nat, opponentGames: nat) {
    && games <= GamesToWinSet && opponentGames <= GamesToWinSet
    && !(games == GamesToWinSet && opponentGames == GamesToWinSet)
    && (games == GamesToWinSet ==> opponentGames == GamesToWinSet - 1)
    && (opponentGames == GamesToWinSet ==> games == GamesToWinSet - 1)
  }

  /** A tie-break neither player has won yet. */
  predicate TiebreakInProgress(points: nat, opponentPoints: nat) {
    !WinsTiebreak(points, opponentPoints) && !WinsTiebreak(opponentPoints, points)
  }

  /** The state of two score records between points. In regular play the tie-break
      counters rest at 0; a tie-break is only played at six games all, with the regular
      point counters at rest. */
  predicate ScoreInvariant(p: PlayerScore, o: PlayerScore, isTiebreak: bool) {
    && PointsInvariant(p, o)
    && (if isTiebreak then
          && p.games == GamesToWinSet && o.games == GamesToWinSet
          && p.points == 0 && o.points == 0 && !p.advantage && !o.advantage
          && TiebreakInProgress(p.tiebreakPoints, o.tiebreakPoints)
        else
          && p.tiebreakPoints == 0 && o.tiebreakPoints == 0
          && SetInProgress(p.games, o.games))
  }

  predicate RallyInvariant(r: Rally) {
    ScoreInvariant(r.scorer, r.opponent, r.isTiebreak)
  }

  /** A regular point never leaves the point-level invariant: points stay within
      0..40, at most one advantage, advantage only at 40-40. */
  lemma RegularPointKeepsPointsInvariant(r: Rally)
    requires PointsInvariant(r.scorer, r.opponent)
    ensures RegularPoint(r).Success?
    ensures PointsInvariant(RegularPoint(r).value.scorer, RegularPoint(r).value.opponent)
  {
    if r.scorer.advantage || (r.scorer.points == Forty && r.opponent.points < Forty) {
      var w := AwardGame(r);
      assert PointsInvariant(w.scorer, w.opponent);
      CheckSetWinKeepsPointsInvariant(w);
    }
  }

  lemma CheckSetWinKeepsPointsInvariant(r: Rally)
    requires PointsInvariant(r.scorer, r.opponent)
    requires !r.scorer.advantage && !r.opponent.advantage
    ensures PointsInvariant(CheckSetWin(r).scorer, CheckSetWin(r).opponent)
    ensures !CheckSetWin(r).scorer.advantage && !CheckSetWin(r).opponent.advantage
  {
  }

  /** A game won inside a set in progress either ends the set, starts the tie-break,
      or leaves a set still in progress. */
  lemma GameWonKeepsInvariant(r: Rally)
    requires RallyInvariant(r) && !r.isTiebreak
    ensures RallyInvariant(CheckSetWin(AwardGame(r)))
  {
    var w := AwardGame(r);
    var g, h := w.scorer.games, w.opponent.games;
    if !WinsSet(g, h) && !(g == GamesToWinSet && h == GamesToWinSet) {
      assert g <= GamesToWinSet;
      assert SetInProgress(g, h);
    }
  }

  /** A regular point keeps the whole score invariant, and never raises. */
  lemma RegularPointKeepsInvariant(r: Rally)
    requires RallyInvariant(r) && !r.isTiebreak
    ensures RegularPoint(r).Success?
    ensures RallyInvariant(RegularPoint(r).value)
  {
    if r.scorer.advantage || (r.scorer.points == Forty && r.opponent.points < Forty) {
      GameWonKeepsInvariant(r);
    }
  }

  /** A tie-break point keeps the whole score invariant. */
  lemma TiebreakPointKeepsInvariant(r: Rally)
    requires RallyInvariant(r) && r.isTiebreak
    ensures RallyInvariant(TiebreakPoint(r))
  {
    var tb := r.scorer.tiebreakPoints + 1;
    if !WinsTiebreak(tb, r.opponent.tiebreakPoints) {
      assert !WinsTiebreak(r.opponent.tiebreakPoints, r.scorer.tiebreakPoints);
      assert TiebreakInProgress(tb, r.opponent.tiebreakPoints);
    }
  }

  /** The invariant does not depend on which player is called the scorer. */
  lemma ScoreInvariantSymmetric(p: PlayerScore, o: PlayerScore, isTiebreak: bool)
    ensures ScoreInvariant(p, o, isTiebreak) <==> ScoreInvariant(o, p, isTiebreak)
  {
  }

  /** No regular point ever takes a set away, and at most one set is gained per point. */
  lemma PointNeverLosesSets(r: Rally)
    requires RegularPoint(r).Success?
    ensures var n := RegularPoint(r).value;
            && r.scorer.sets <= n.scorer.sets <= r.scorer.sets + 1
            && n.opponent.sets == r.opponent.sets
  {
  }

  /** No tie-break point takes a set away, and at most one set is gained per point. */
  lemma TiebreakPointNeverLosesSets(r: Rally)
    ensures TiebreakPoint(r).opponent.sets == r.opponent.sets
    ensures r.scorer.sets <= TiebreakPoint(r).scorer.sets <= r.scorer.sets + 1
  {
  }

  // ---------------------------------------------------------------------------
  // An independent reference for the regular game: counting points won.

  /** A game of tennis by counts: won by the first to four points with a two-point lead. */
  predicate GameWon(won: nat, lost: nat) {
    won >= 4 && won >= lost + 2
  }

  predicate GameLive(a: nat, b: nat) {
    !GameWon(a, b) && !GameWon(b, a)
  }

  /** How a live game with `a` points to `b` is written on the board:
      (points, opponent points, advantage, opponent advantage). */
  function BoardOf(a: nat, b: nat): (nat, nat, bool, bool) {
    if a >= 3 && b >= 3 then (Forty, Forty, a == b + 1, b == a + 1)
    else (a, b, false, false)
  }

  predicate Shows(p: PlayerScore, o: PlayerScore, a: nat, b: nat) {
    (p.points, o.points, p.advantage, o.advantage) == BoardOf(a, b)
  }

  /** Only the point counters and advantages of `n` differ from those of `r`. */
  predicate SameBeyondPoints(n: Rally, r: Rally) {
    && n.scorer.(points := 0, advantage := false) == r.scorer.(points := 0, advantage := false)
    && n.opponent.(points := 0, advantage := false) == r.opponent.(points := 0, advantage := false)
    && n.isTiebreak == r.isTiebreak
  }

  /** The 0/15/30/40/advantage machine refines counting: on a board showing a live game
      of `a` points to `b`, the scorer's point wins the game exactly when `a + 1` points
      win it by the counting rule, and otherwise the board shows `a + 1` to `b`. */
  lemma RegularPointRefinesCounting(r: Rally, a: nat, b: nat)
    requires !r.isTiebreak && GameLive(a, b) && Shows(r.scorer, r.opponent, a, b)
    ensures RegularPoint(r).Success?
    ensures GameWon(a + 1, b) ==> RegularPoint(r).value == CheckSetWin(AwardGame(r))
    ensures !GameWon(a + 1, b) ==>
              && Shows(RegularPoint(r).value.scorer, RegularPoint(r).value.opponent, a + 1, b)
              && SameBeyondPoints(RegularPoint(r).value, r)
  {
    if a >= 3 && b >= 3 {
      assert a <= b + 1 && b <= a + 1;
    } else {
      assert a <= 3 && b <= 3;
    }
  }

  /** Conversely, every board the point invariant allows shows some live game. */
  lemma EveryBoardShowsALiveGame(p: PlayerScore, o: PlayerScore)
    requires PointsInvariant(p, o)
    ensures exists a: nat, b: nat :: GameLive(a, b) && Shows(p, o, a, b)
  {
    if p.advantage {
      assert GameLive(4, 3) && Shows(p, o, 4, 3);
    } else if o.advantage {
      assert GameLive(3, 4) && Shows(p, o, 3, 4);
    } else {
      assert GameLive(p.points, o.points) && Shows(p, o, p.points, o.points);
    }
  }
}
