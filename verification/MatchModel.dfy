/** The in-memory tennis match of model/match.py: the two players, the live score
    record of each, the tie-break flag, the winner, the history of completed sets,
    and the strings the match renders for display and for the final result. */
module MatchModel {
  import opened Basics
  import opened Decimal

  /** The regular-game display table `score_values`: index = points won in the game. */
  const ScoreValues: seq<string> := ["0", "15", "30", "40"]

  /** Index of "40" in the display table; the regular rule compares points against it. */
  const Forty: nat := |ScoreValues| - 1

  const Player1Key: string := "player1"
  const Player2Key: string := "player2"

  /** The keys of the `players` and `scores` dictionaries. */
  predicate IsPlayerKey(key: string) {
    key == Player1Key || key == Player2Key
  }

  /** The other player's key. */
  function Opponent(key: string): (other: string)
    requires IsPlayerKey(key)
    ensures IsPlayerKey(other) && other != key
  {
    if key == Player1Key then Player2Key else Player1Key
  }

  /** One player's entry of `scores`. */
  datatype PlayerScore = PlayerScore(
    sets: nat,
    games: nat,
    points: nat,
    advantage: bool,
    tiebreakPoints: nat)

  const ZeroScore: PlayerScore := PlayerScore(0, 0, 0, false, 0)

  datatype Scores = Scores(player1: PlayerScore, player2: PlayerScore)

  /** `Player`: the id is the process-wide counter value at creation, later replaced by
      the database id (which may be None). */
  datatype Player = Player(id: Option<int>, name: string)

  /** An entry of `set_scores_history`: games of each player and, when the set ended in
      a tie-break, each player's tie-break score. */
  datatype SetScore = SetScore(
    player1Games: int,
    player2Games: int,
    player1Tiebreak: Option<int>,
    player2Tiebreak: Option<int>)

  datatype Match = Match(
    uid: string,
    player1: Player,
    player2: Player,
    player1DbId: Option<int>,
    player2DbId: Option<int>,
    scores: Scores,
    isTiebreak: bool,
    winner: Option<int>,
    id: Option<int>,
    history: seq<SetScore>)

  /** The ValueErrors raised by the constructor and by `set_winner`. */
  datatype MatchError = EmptyPlayerName | SamePlayerNames | UnknownPlayerKey

  /** The point-level invariant the scoring rules keep: points index the display table,
      at most one player holds advantage, and advantage is only held at 40-40. */
  predicate PointsInvariant(p: PlayerScore, o: PlayerScore) {
    && p.points <= Forty
    && o.points <= Forty
    && !(p.advantage && o.advantage)
    && ((p.advantage || o.advantage) ==> p.points == Forty && o.points == Forty)
  }

  /** Every counter zero, no advantage, no tie-break, no winner. */
  predicate HasInitialScore(m: Match) {
    && m.scores == Scores(ZeroScore, ZeroScore)
    && !m.isTiebreak
    && m.winner == None
  }

  /** `Match(player_one_name, player_two_name)`. The uuid and the two players' counter
      ids are produced by the runtime and are passed in. */
  function NewMatch(name1: string, name2: string, uid: string, counterId1: int, counterId2: int)
    : (r: Result<Match, MatchError>)
    ensures r.Failure? <==> (name1 == [] || name2 == [] || name1 == name2)
    ensures r.Failure? ==>
              (r.error == EmptyPlayerName <==> (name1 == [] || name2 == []))
    ensures r.Failure? && r.error != EmptyPlayerName ==> r.error == SamePlayerNames
    ensures r.Success? ==>
              && HasInitialScore(r.value)
              && r.value.history == []
              && r.value.player1 == Player(Some(counterId1), name1)
              && r.value.player2 == Player(Some(counterId2), name2)
              && r.value.player1DbId == None && r.value.player2DbId == None
              && r.value.id == None
              && r.value.uid == uid
  {
    if name1 == [] || name2 == [] then Failure(EmptyPlayerName)
    else if name1 == name2 then Failure(SamePlayerNames)
    else Success(Match(
      uid, Player(Some(counterId1), name1), Player(Some(counterId2), name2), None, None,
      Scores(ZeroScore, ZeroScore), false, None, None, []))
  }

  function ScoreOf(m: Match, key: string): PlayerScore
    requires IsPlayerKey(key)
  {
    if key == Player1Key then m.scores.player1 else m.scores.player2
  }

  function PlayerOf(m: Match, key: string): Player
    requires IsPlayerKey(key)
  {
    if key == Player1Key then m.player1 else m.player2
  }

  /** `_format_points(player, opponent)`: what the board shows for `p` while `o` is
      the opponent's record. */
  function FormatPoints(p: PlayerScore, o: PlayerScore): (shown: string)
    ensures shown == "AD" <==> p.advantage
    ensures shown == "" <==> !p.advantage && o.advantage
    ensures !p.advantage && !o.advantage && p.points < |ScoreValues| ==>
              shown == ScoreValues[p.points]
    ensures !p.advantage && !o.advantage && p.points >= |ScoreValues| ==>
              shown == NatToString(p.points)
  {
    if p.advantage then "AD"
    else if o.advantage then ""
    else if p.points < |ScoreValues| then ScoreValues[p.points]
    else NatToString(p.points)
  }

  /** Position of a regular-game display value in the table, if it is one. */
  function PointIndex(shown: string): (r: Option<nat>)
    ensures r.Some? ==> r.value < |ScoreValues| && ScoreValues[r.value] == shown
  {
    if shown == "0" then Some(0)
    else if shown == "15" then Some(1)
    else if shown == "30" then Some(2)
    else if shown == "40" then Some(3)
    else None
  }

  /** Reads the two displayed point values back into (points, points, advantage, advantage). */
  function ReadPointDisplay(shown1: string, shown2: string): Option<(nat, nat, bool, bool)> {
    if shown1 == "AD" then Some((Forty, Forty, true, false))
    else if shown2 == "AD" then Some((Forty, Forty, false, true))
    else match (PointIndex(shown1), PointIndex(shown2))
      case (Some(i), Some(j)) => Some((i, j, false, false))
      case _ => None
  }

  /** While the point invariant holds, the two displayed values determine the whole
      point state: nothing the rules distinguish is merged on the board. */
  lemma PointDisplayReadsBack(p: PlayerScore, o: PlayerScore)
    requires PointsInvariant(p, o)
    ensures ReadPointDisplay(FormatPoints(p, o), FormatPoints(o, p))
            == Some((p.points, o.points, p.advantage, o.advantage))
  {
    if !p.advantage && !o.advantage {
      assert PointIndex(ScoreValues[p.points]) == Some(p.points);
      assert PointIndex(ScoreValues[o.points]) == Some(o.points);
    }
  }

  /** Beyond the table the raw number is shown, so 40 points would read like 40 in the
      table: the display is only faithful under the invariant. */
  lemma FortyPointsShowLikeForty()
    ensures FormatPoints(PlayerScore(0, 0, 40, false, 0), ZeroScore)
            == FormatPoints(PlayerScore(0, 0, Forty, false, 0), ZeroScore)
  {
    assert NatToString(4) == "4";
    assert NatToString(40) == NatToString(4) + ['0'];
  }

  /** `set_player_ids`: records the database ids on the match and on both players. */
  function SetPlayerIds(m: Match, id1: Option<int>, id2: Option<int>): (r: Match)
    ensures r.player1DbId == id1 && r.player2DbId == id2
    ensures r.player1 == m.player1.(id := id1) && r.player2 == m.player2.(id := id2)
    ensures r.(player1DbId := m.player1DbId, player2DbId := m.player2DbId,
               player1 := m.player1, player2 := m.player2) == m
  {
    m.(player1DbId := id1, player2DbId := id2,
       player1 := m.player1.(id := id1), player2 := m.player2.(id := id2))
  }

  /** `set_winner(player_key)`: the winner becomes that player's database id. */
  function SetWinner(m: Match, key: string): (r: Result<Match, MatchError>)
    ensures r.Failure? <==> !IsPlayerKey(key)
    ensures r.Failure? ==> r.error == UnknownPlayerKey
    ensures key == Player1Key ==> r == Success(m.(winner := m.player1DbId))
    ensures key == Player2Key ==> r == Success(m.(winner := m.player2DbId))
  {
    if !IsPlayerKey(key) then Failure(UnknownPlayerKey)
    else if key == Player1Key then Success(m.(winner := m.player1DbId))
    else Success(m.(winner := m.player2DbId))
  }

  /** `add_completed_set_score`: one entry is appended; everything else is kept. */
  function AddCompletedSetScore(m: Match, games1: int, games2: int, tb1: Option<int>, tb2: Option<int>)
    : (r: Match)
    ensures |r.history| == |m.history| + 1
    ensures r.history[..|m.history|] == m.history
    ensures r.history[|m.history|] == SetScore(games1, games2, tb1, tb2)
    ensures r.(history := m.history) == m
  {
    m.(history := m.history + [SetScore(games1, games2, tb1, tb2)])
  }

  predicate CommaFree(s: string) {
    forall i :: 0 <= i < |s| ==> s[i] != ','
  }

  /** `a-b`, as the f-string `f"{a}-{b}"` writes it. */
  function FormatPair(a: int, b: int): (s: string)
    ensures CommaFree(s)
  {
    IntToString(a) + "-" + IntToString(b)
  }

  /** One history entry as `g1-g2`, followed by `(w-l)` with the set winner's tie-break
      score first when both tie-break scores are present. */
  function FormatSetScore(e: SetScore): (s: string)
    ensures CommaFree(s)
  {
    var games := FormatPair(e.player1Games, e.player2Games);
    if e.player1Tiebreak.Some? && e.player2Tiebreak.Some? then
      var tb1 := e.player1Tiebreak.value;
      var tb2 := e.player2Tiebreak.value;
      if e.player1Games > e.player2Games then games + "(" + FormatPair(tb1, tb2) + ")"
      else games + "(" + FormatPair(tb2, tb1) + ")"
    else
      games
  }

  /** `", ".join(parts)`. */
  function JoinSets(parts: seq<string>): string {
    if |parts| == 0 then ""
    else if |parts| == 1 then parts[0]
    else parts[0] + ", " + JoinSets(parts[1..])
  }

  function FormatHistory(history: seq<SetScore>): (parts: seq<string>)
    ensures |parts| == |history|
    ensures forall i :: 0 <= i < |history| ==> parts[i] == FormatSetScore(history[i])
  {
    seq(|history|, i requires 0 <= i < |history| => FormatSetScore(history[i]))
  }

  /** `get_final_score_str`: the completed sets in order, or the set count while none
      has been recorded. */
  function FinalScoreString(m: Match): (s: string)
    ensures |m.history| == 0 ==> s == FormatPair(m.scores.player1.sets, m.scores.player2.sets)
    ensures |m.history| > 0 ==>
              && |SplitSets(s)| == |m.history|
              && forall i :: 0 <= i < |m.history| ==> SplitSets(s)[i] == FormatSetScore(m.history[i])
  {
    if |m.history| > 0 then
      var parts := FormatHistory(m.history);
      SplitJoinSets(parts);
      JoinSets(parts)
    else FormatPair(m.scores.player1.sets, m.scores.player2.sets)
  }

  /** `to_final_dto` winner resolution: player 1's database id is compared first, then
      player 2's; Python's `==` makes None equal None. */
  function WinnerName(m: Match): (name: Option<string>)
    ensures m.winner == m.player1DbId ==> name == Some(m.player1.name)
    ensures m.winner != m.player1DbId && m.winner == m.player2DbId ==> name == Some(m.player2.name)
    ensures m.winner != m.player1DbId && m.winner != m.player2DbId ==> name == None
  {
    if m.winner == m.player1DbId then Some(m.player1.name)
    else if m.winner == m.player2DbId then Some(m.player2.name)
    else None
  }

  datatype FinalDto = FinalDto(
    id: int, uuid: string, player1: string, player2: string, winner: Option<string>, score: string)

  /** `to_final_dto`: the id defaults to 0 (`self.id or 0`). */
  function ToFinalDto(m: Match): (d: FinalDto)
    ensures d.id == (if m.id.Some? then m.id.value else 0)
    ensures d.uuid == m.uid && d.player1 == m.player1.name && d.player2 == m.player2.name
    ensures d.winner.Some? ==> d.winner.value == m.player1.name || d.winner.value == m.player2.name
    ensures d.winner == WinnerName(m) && d.score == FinalScoreString(m)
  {
    FinalDto(if m.id.Some? then m.id.value else 0, m.uid, m.player1.name, m.player2.name,
             WinnerName(m), FinalScoreString(m))
  }

  /** A match whose ids were never set and that has no winner is reported as won by
      player 1, because None equals None. */
  lemma UnsetIdsReportPlayerOneAsWinner(m: Match)
    requires m.winner == None && m.player1DbId == None
    ensures ToFinalDto(m).winner == Some(m.player1.name)
  {
  }

  /** With distinct database ids, the player `set_winner` names is the one the final
      record reports. */
  lemma SetWinnerIsReported(m: Match, key: string)
    requires IsPlayerKey(key) && m.player1DbId != m.player2DbId
    ensures SetWinner(m, key).Success?
    ensures WinnerName(SetWinner(m, key).value) == Some(PlayerOf(m, key).name)
    ensures ToFinalDto(SetWinner(m, key).value).winner == Some(PlayerOf(m, key).name)
  {
  }

  /** With equal database ids (both None until `set_player_ids` runs), a win by player 2
      is reported as player 1's. */
  lemma EqualIdsReportPlayerOne(m: Match)
    requires m.player1DbId == m.player2DbId
    ensures SetWinner(m, Player2Key).Success?
    ensures WinnerName(SetWinner(m, Player2Key).value) == Some(m.player1.name)
  {
  }

  datatype LiveDto = LiveDto(
    id: Option<int>, uuid: string, player1: string, player2: string, winner: Option<string>,
    sets: (nat, nat), games: (nat, nat), points: (string, string),
    tiebreakPoints: (nat, nat), isTiebreak: bool)

  /** `to_live_dto`: the live board; the winner is always None here. */
  function ToLiveDto(m: Match): (d: LiveDto)
    ensures d.winner == None && d.id == m.id && d.isTiebreak == m.isTiebreak
    ensures d.uuid == m.uid && d.player1 == m.player1.name && d.player2 == m.player2.name
    ensures d.tiebreakPoints == (m.scores.player1.tiebreakPoints, m.scores.player2.tiebreakPoints)
    ensures d.points == (FormatPoints(m.scores.player1, m.scores.player2),
                         FormatPoints(m.scores.player2, m.scores.player1))
    ensures d.sets == (m.scores.player1.sets, m.scores.player2.sets)
    ensures d.games == (m.scores.player1.games, m.scores.player2.games)
  {
    LiveDto(m.id, m.uid, m.player1.name, m.player2.name, None,
            (m.scores.player1.sets, m.scores.player2.sets),
            (m.scores.player1.games, m.scores.player2.games),
            (FormatPoints(m.scores.player1, m.scores.player2),
             FormatPoints(m.scores.player2, m.scores.player1)),
            (m.scores.player1.tiebreakPoints, m.scores.player2.tiebreakPoints),
            m.isTiebreak)
  }

  // ---------------------------------------------------------------------------
  // Reading a final score string back: the partner definitions of the renderers.

  /** What a reader learns from one rendered set: both game counts and, if shown, the
      tie-break scores in the order they are written (set winner first). */
  datatype SetReading = SetReading(games1: int, games2: int, tiebreak: Option<(int, int)>)

  /** What the rendering of a history entry is meant to convey. */
  function Intended(e: SetScore): SetReading {
    SetReading(
      e.player1Games, e.player2Games,
      if e.player1Tiebreak.Some? && e.player2Tiebreak.Some? then
        if e.player1Games > e.player2Games then Some((e.player1Tiebreak.value, e.player2Tiebreak.value))
        else Some((e.player2Tiebreak.value, e.player1Tiebreak.value))
      else None)
  }

  /** Index of the first comma, or the length when there is none. */
  function FirstComma(s: string): (k: nat)
    ensures k <= |s|
    ensures CommaFree(s[..k])
    ensures k < |s| ==> s[k] == ','
  {
    if |s| == 0 || s[0] == ',' then 0 else 1 + FirstComma(s[1..])
  }

  /** Splits at every ", " separator. */
  function SplitSets(s: string): (parts: seq<string>)
    ensures |parts| > 0
    decreases |s|
  {
    var k := FirstComma(s);
    if k + 1 < |s| && s[k + 1] == ' ' then [s[..k]] + SplitSets(s[k + 2..]) else [s]
  }

  /** Reads `a-b` from the front of `s`: both integers and what follows them. */
  function ReadPair(s: string): Option<(int, int, string)> {
    match ReadInt(s)
    case None => None
    case Some((a, r1)) =>
      if |r1| == 0 || r1[0] != '-' then None
      else match ReadInt(r1[1..])
        case None => None
        case Some((b, r2)) => Some((a, b, r2))
  }

  /** Parses `g1-g2` or `g1-g2(a-b)`. */
  function ParseSetScore(s: string): Option<SetReading> {
    match ReadPair(s)
    case None => None
    case Some((g1, g2, rest)) =>
      if |rest| == 0 then Some(SetReading(g1, g2, None))
      else if rest[0] != '(' then None
      else match ReadPair(rest[1..])
        case None => None
        case Some((a, b, close)) =>
          if close == ")" then Some(SetReading(g1, g2, Some((a, b)))) else None
  }

  lemma ReadPairOfFormatPair(a: int, b: int, tail: string)
    requires StopsReading(tail)
    ensures ReadPair(FormatPair(a, b) + tail) == Some((a, b, tail))
  {
    var rest := "-" + IntToString(b) + tail;
    assert FormatPair(a, b) + tail == IntToString(a) + rest;
    ReadIntOfIntToString(a, rest);
    assert rest[1..] == IntToString(b) + tail;
    ReadIntOfIntToString(b, tail);
  }

  lemma ParseGamesOnly(g1: int, g2: int)
    ensures ParseSetScore(FormatPair(g1, g2)) == Some(SetReading(g1, g2, None))
  {
    assert FormatPair(g1, g2) + "" == FormatPair(g1, g2);
    ReadPairOfFormatPair(g1, g2, "");
  }

  lemma ParseGamesWithTiebreak(g1: int, g2: int, a: int, b: int)
    ensures ParseSetScore(FormatPair(g1, g2) + "(" + FormatPair(a, b) + ")")
            == Some(SetReading(g1, g2, Some((a, b))))
  {
    var inner := FormatPair(a, b) + ")";
    var tail := "(" + inner;
    var s := FormatPair(g1, g2) + "(" + FormatPair(a, b) + ")";
    assert s == FormatPair(g1, g2) + tail;
    ReadPairOfFormatPair(g1, g2, tail);
    assert ReadPair(s) == Some((g1, g2, tail));
    assert tail[1..] == inner;
    ReadPairOfFormatPair(a, b, ")");
    assert ReadPair(tail[1..]) == Some((a, b, ")"));
  }

  /** The rendering of a history entry parses back to the games and the tie-break
      scores written winner-first; a tie-break known for only one player is dropped. */
  lemma SetScoreReadsBack(e: SetScore)
    ensures ParseSetScore(FormatSetScore(e)) == Some(Intended(e))
  {
    var g1, g2 := e.player1Games, e.player2Games;
    if e.player1Tiebreak.Some? && e.player2Tiebreak.Some? {
      var tb1, tb2 := e.player1Tiebreak.value, e.player2Tiebreak.value;
      if g1 > g2 {
        ParseGamesWithTiebreak(g1, g2, tb1, tb2);
      } else {
        ParseGamesWithTiebreak(g1, g2, tb2, tb1);
      }
    } else {
      ParseGamesOnly(g1, g2);
    }
  }

  lemma {:induction false} FirstCommaAfter(p: string, t: string)
    requires CommaFree(p)
    ensures FirstComma(p + t) == |p| + FirstComma(t)
  {
    if |p| > 0 {
      assert (p + t)[1..] == p[1..] + t;
      FirstCommaAfter(p[1..], t);
    } else {
      assert p + t == t;
    }
  }

  lemma SplitAtSeparator(p: string, rest: string)
    requires CommaFree(p)
    ensures SplitSets(p + ", " + rest) == [p] + SplitSets(rest)
  {
    var s := p + ", " + rest;
    assert s == p + (", " + rest);
    FirstCommaAfter(p, ", " + rest);
    assert s[..|p|] == p;
    assert s[|p| + 2..] == rest;
  }

  /** Splitting at ", " undoes `", ".join` when no part contains a comma. */
  lemma {:induction false} SplitJoinSets(parts: seq<string>)
    requires |parts| > 0
    requires forall i :: 0 <= i < |parts| ==> CommaFree(parts[i])
    ensures SplitSets(JoinSets(parts)) == parts
  {
    if |parts| == 1 {
      FirstCommaAfter(parts[0], "");
      assert parts[0] + "" == parts[0];
    } else {
      SplitAtSeparator(parts[0], JoinSets(parts[1..]));
      SplitJoinSets(parts[1..]);
      assert parts == [parts[0]] + parts[1..];
    }
  }

  /** With completed sets recorded, the final score string is the sets in order, each
      readable back to what it records. */
  lemma FinalScoreReadsBack(m: Match)
    requires |m.history| > 0
    ensures |SplitSets(FinalScoreString(m))| == |m.history|
    ensures forall i :: 0 <= i < |m.history| ==>
              ParseSetScore(SplitSets(FinalScoreString(m))[i]) == Some(Intended(m.history[i]))
  {
    var parts := FormatHistory(m.history);
    SplitJoinSets(parts);
    forall i | 0 <= i < |m.history|
      ensures ParseSetScore(parts[i]) == Some(Intended(m.history[i]))
    {
      SetScoreReadsBack(m.history[i]);
    }
  }

  /** With no completed set, the final score string is the set count `s1-s2`, which
      reads exactly like a one-set history without tie-break. */
  lemma EmptyHistoryShowsSetCount(m: Match)
    requires m.history == []
    ensures SplitSets(FinalScoreString(m)) == [FinalScoreString(m)]
    ensures ParseSetScore(FinalScoreString(m))
            == Some(SetReading(m.scores.player1.sets, m.scores.player2.sets, None))
    ensures FinalScoreString(m)
            == FinalScoreString(m.(history := [SetScore(m.scores.player1.sets, m.scores.player2.sets, None, None)]))
  {
    var e := SetScore(m.scores.player1.sets, m.scores.player2.sets, None, None);
    ParseGamesOnly(m.scores.player1.sets, m.scores.player2.sets);
    FirstCommaAfter(FormatSetScore(e), "");
    assert FormatSetScore(e) + "" == FormatSetScore(e);
  }

  /** `", ".join` of one more part: the old join, the separator, the new part. */
  lemma {:induction false} JoinSetsAppend(parts: seq<string>, p: string)
    requires |parts| > 0
    ensures JoinSets(parts + [p]) == JoinSets(parts) + ", " + p
    decreases |parts|
  {
    if |parts| == 1 {
      assert (parts + [p])[1..] == [p];
    } else {
      assert (parts + [p])[1..] == parts[1..] + [p];
      JoinSetsAppend(parts[1..], p);
    }
  }

  /** Recording a completed set extends the final score by that set: after the others,
      separated by ", ", or alone when it is the first. */
  lemma AppendedSetExtendsFinalScore(m: Match, games1: int, games2: int, tb1: Option<int>, tb2: Option<int>)
    ensures var e := SetScore(games1, games2, tb1, tb2);
            var n := AddCompletedSetScore(m, games1, games2, tb1, tb2);
            && (|m.history| > 0 ==> FinalScoreString(n) == FinalScoreString(m) + ", " + FormatSetScore(e))
            && (|m.history| == 0 ==> FinalScoreString(n) == FormatSetScore(e))
  {
    var e := SetScore(games1, games2, tb1, tb2);
    var n := AddCompletedSetScore(m, games1, games2, tb1, tb2);
    assert FormatHistory(n.history) == FormatHistory(m.history) + [FormatSetScore(e)];
    if |m.history| > 0 {
      JoinSetsAppend(FormatHistory(m.history), FormatSetScore(e));
    }
  }
}
