# tennis_score: a Dafny model of the scoring core

This project models the core of the `tennis_score` web application, which keeps
the score of one tennis match at a time:

- the in-memory `Match` with its two players and two score records;
- the scoring rules: a regular point on the 0/15/30/40/advantage table, a tie-break
  point, the set check after a game, and the full reset;
- the service that dispatches a point or a reset to the current match;
- the rendering of the live board and of the final score string;
- the request router and its response record;
- the page script that stops a score form being submitted twice.

Everything is written as pure functions over immutable datatypes. The modules follow
the program's files:

| module | file it models |
|---|---|
| `Basics` | `Option` and `Result` |
| `Decimal` | how Python writes an integer with `str`/f-strings, plus a reader used to prove round trips |
| `MatchModel` | `model/match.py` |
| `ScoreHandler` | `services/score_handler.py` |
| `MatchService` | `services/match_service.py` |
| `Router` | `core/router.py` and `core/response.py` |
| `PageScript` | `templates/static/js/app.js` |

Some source behaviours are modelled as written, even where they look accidental:

- `update_regular_score` builds its debug message eagerly. It indexes the display
  table with both players' points before changing anything. A point count above 3
  therefore raises `IndexError`, and `update_current_match_score` catches it. The
  model returns `Failure(PointsOutsideTable)`, and the service leaves the match
  unchanged.
- `if match.winner:` is Python truthiness, so a winner id of 0 counts as "no winner".
- `to_final_dto` compares with Python's `==`, so an unset winner equals an unset
  player id.
- In the page script, a score form without a submit button makes the submit handler
  throw. The throw happens before the handler touches anything.

The invariant the scoring rules keep (`ScoreHandler.ScoreInvariant`) is proved for
every sequence of points and resets that starts from a new match. The regular-game
rule is shown to refine an independent rule that counts points won
(`ScoreHandler.RegularPointRefinesCounting`). The final score string is shown to read
back to the sets it records (`MatchModel.FinalScoreReadsBack`).

## Model

| member | source | states |
|---|---|---|
| Decimal.NatToString | src/tennis_score/model/match.py:71 | A natural number is written as a non-empty string of decimal digits, with a leading '0' only for 0. |
| Decimal.IntToString | src/tennis_score/model/match.py:102 | An integer is written with digits and a leading '-' exactly when it is negative. |
| Decimal.DigitsValueOfNatToString | src/tennis_score/model/match.py:71 | The digits written for n have the decimal value n. |
| Decimal.ReadNatOfNatToString | src/tennis_score/model/match.py:71 | Reading a number from the front of its rendering followed by a non-digit gives back the number and leaves the rest untouched. |
| Decimal.ReadIntOfIntToString | src/tennis_score/model/match.py:102 | The same round trip for every integer, negative ones included. |
| Decimal.IntToStringInjective | src/tennis_score/model/match.py:102 | Distinct integers are written as distinct strings. |
| MatchModel.Opponent | src/tennis_score/services/match_service.py:61-63 | The opponent of a player key is the other valid player key. |
| MatchModel.NewMatch | src/tennis_score/model/match.py:21-42 | Construction fails exactly when a name is empty or the names are equal, with the empty-name error taking precedence and the same-names error otherwise. A new match has all counters at zero, no advantage, no tie-break, no winner, empty history, unset database ids and the given uuid and counter ids. |
| MatchModel.FormatPoints | src/tennis_score/model/match.py:61-71 | The board shows "AD" exactly for the player with advantage and "" exactly for the other one. Otherwise it shows the table entry for the points, or the raw number beyond the table. |
| MatchModel.PointIndex | src/tennis_score/model/match.py:61-71 | A recognised display value is the table entry at the returned position. |
| MatchModel.PointDisplayReadsBack | src/tennis_score/model/match.py:61-71 | Under the point invariant, the two displayed values determine both point counts and both advantage flags. |
| MatchModel.FortyPointsShowLikeForty | src/tennis_score/model/match.py:69-71 | Beyond the table, 40 points display exactly like the table's "40", so the display is only faithful under the invariant. |
| MatchModel.SetPlayerIds | src/tennis_score/model/match.py:54-59 | The database ids are recorded on the match and on both players, and nothing else changes. |
| MatchModel.SetWinner | src/tennis_score/model/match.py:73-77 | An unknown key fails with ValueError. A valid key makes that player's database id the winner. |
| MatchModel.AddCompletedSetScore | src/tennis_score/model/match.py:79-89 | Exactly one entry is appended to the history, holding the given games and tie-break scores, and nothing else changes. |
| MatchModel.FormatPair | src/tennis_score/model/match.py:102 | The `a-b` rendering contains no comma. |
| MatchModel.FormatSetScore | src/tennis_score/model/match.py:100-109 | A rendered set contains no comma, so it cannot be confused with the separator. |
| MatchModel.FormatHistory | src/tennis_score/model/match.py:99-109 | Each history entry is rendered in order, one part per entry. |
| MatchModel.ReadPairOfFormatPair | src/tennis_score/model/match.py:102 | Reading `a-b` back from the front of a string gives back a, b and the rest. |
| MatchModel.ParseGamesOnly | src/tennis_score/model/match.py:102 | A set without tie-break reads back as its two game counts. |
| MatchModel.ParseGamesWithTiebreak | src/tennis_score/model/match.py:102-108 | A set with a tie-break suffix reads back as its game counts and both tie-break scores in written order. |
| MatchModel.SetScoreReadsBack | src/tennis_score/model/match.py:100-109 | Every rendered history entry parses back to its games and its tie-break scores, set winner first. A tie-break known for only one player is dropped. |
| MatchModel.FirstComma | src/tennis_score/model/match.py:110 | The returned position is the first comma, or the end of the string when there is none. |
| MatchModel.FirstCommaAfter | src/tennis_score/model/match.py:110 | A comma-free prefix shifts the first comma by its own length. |
| MatchModel.SplitAtSeparator | src/tennis_score/model/match.py:110 | Splitting `p, rest` with a comma-free p yields p followed by the split of rest. |
| MatchModel.SplitJoinSets | src/tennis_score/model/match.py:110 | Splitting at ", " undoes `", ".join` for comma-free parts. |
| MatchModel.FinalScoreReadsBack | src/tennis_score/model/match.py:91-110 | With completed sets recorded, the final score string has one part per set, in order, and each part reads back to what that set records. |
| MatchModel.EmptyHistoryShowsSetCount | src/tennis_score/model/match.py:111-112 | With no completed set, the final score is the sets count `s1-s2` and reads like a single set without tie-break. |
| MatchModel.WinnerName | src/tennis_score/model/match.py:140-145 | The winner's name is player 1's when the winner equals player 1's database id, otherwise player 2's when it equals player 2's, otherwise none. |
| MatchModel.ToFinalDto | src/tennis_score/model/match.py:138-153 | The final record uses id 0 when no id is set, and copies the uuid and the names. Its winner, when present, is one of the two names. |
| MatchModel.UnsetIdsReportPlayerOneAsWinner | src/tennis_score/model/match.py:140-141 | A match with neither a winner nor player 1's database id is reported as won by player 1, because None equals None. |
| MatchModel.ToLiveDto | src/tennis_score/model/match.py:114-136 | The live record never has a winner. It copies the id, the uuid and both names. It shows each player's points through the board rule, with that player first, plus both sets, games and tie-break counts and the tie-break flag. |
| MatchModel.SetWinnerIsReported | src/tennis_score/model/match.py:73-77 | With distinct database ids, the player `set_winner` names is the one the final record reports as winner. |
| MatchModel.EqualIdsReportPlayerOne | src/tennis_score/model/match.py:140-141 | With equal database ids, which is the case while both are None, a win by player 2 is reported as player 1's. |
| MatchModel.FinalScoreString | src/tennis_score/model/match.py:91-112 | With no completed set the result is the set count `s1-s2`. Otherwise splitting it at ", " gives one rendered part per completed set, in order. |
| MatchModel.JoinSetsAppend | src/tennis_score/model/match.py:110 | Joining one more part is the old join, the separator and the new part. |
| MatchModel.AppendedSetExtendsFinalScore | src/tennis_score/model/match.py:79-110 | Recording a completed set extends the final score by that set's rendering, after ", " when other sets were recorded, and alone when it is the first. |
| ScoreHandler.CheckSetWin | src/tennis_score/services/score_handler.py:114-131 | Six games with a two-game lead win the set: sets + 1 and games and points back to 0. At six all the tie-break starts with its counters at 0. Otherwise nothing changes. |
| ScoreHandler.RegularPoint | src/tennis_score/services/score_handler.py:11-62 | The point raises exactly when either point count is beyond the table. Otherwise the scorer's advantage or 40 against less wins the game. Below 40 only the scorer's points move. At 40-40 the point either cancels the opponent's advantage or gives the scorer advantage. |
| ScoreHandler.TiebreakPoint | src/tennis_score/services/score_handler.py:79-100 | Seven points with a two-point lead win the set and end the tie-break. Otherwise only the scorer's tie-break count moves. |
| ScoreHandler.ResetMatchScore | src/tennis_score/services/score_handler.py:140-157 | After a reset every counter is zero, there is no advantage, no tie-break and no winner. Players, ids and history are kept. |
| ScoreHandler.RegularPointKeepsPointsInvariant | src/tennis_score/services/score_handler.py:28-62 | A regular point keeps points within the table, keeps at most one advantage, and keeps advantage only at 40-40. It never raises while that holds. |
| ScoreHandler.CheckSetWinKeepsPointsInvariant | src/tennis_score/services/score_handler.py:114-131 | The set check keeps the point invariant and creates no advantage. |
| ScoreHandler.GameWonKeepsInvariant | src/tennis_score/services/score_handler.py:114-131 | A game won inside a set in progress ends the set, starts the tie-break, or leaves a set still in progress. |
| ScoreHandler.RegularPointKeepsInvariant | src/tennis_score/services/score_handler.py:11-62 | A regular point keeps the whole score invariant and never raises. |
| ScoreHandler.TiebreakPointKeepsInvariant | src/tennis_score/services/score_handler.py:64-100 | A tie-break point keeps the whole score invariant. |
| ScoreHandler.ScoreInvariantSymmetric | src/tennis_score/services/match_service.py:61-70 | The invariant does not depend on which player is the scorer. |
| ScoreHandler.PointNeverLosesSets | src/tennis_score/services/score_handler.py:11-62 | No regular point takes a set away from anyone, and the scorer gains at most one set per point. |
| ScoreHandler.TiebreakPointNeverLosesSets | src/tennis_score/services/score_handler.py:79-100 | No tie-break point takes a set away from anyone, and the scorer gains at most one set per point. |
| ScoreHandler.RegularPointRefinesCounting | src/tennis_score/services/score_handler.py:28-62 | On a board showing a live game of a points to b, the scorer's point wins the game exactly when a + 1 points win it by counting. Otherwise the board shows a + 1 to b and nothing beyond the points changes. |
| ScoreHandler.EveryBoardShowsALiveGame | src/tennis_score/services/score_handler.py:28-62 | Every board the point invariant allows shows some live game of counted points. |
| MatchService.HasWinner | src/tennis_score/services/match_service.py:56 | A match has a winner exactly when its winner id is neither None nor 0, as Python truthiness reads it. |
| MatchService.WinnerZeroDoesNotStopPlay | src/tennis_score/services/match_service.py:56-70 | A valid match whose winner id is 0 still scores points: the rule's result is written back. |
| MatchService.RallyOf | src/tennis_score/services/match_service.py:61-63 | The rally takes the scorer's record under the key and the opponent's under the other key, and together they are both records of the match. |
| MatchService.WriteBack | src/tennis_score/services/match_service.py:67-70 | Writing a rally back under a key and reading it again gives the same rally, and nothing but the scores and the tie-break flag changes. |
| MatchService.ApplyRule | src/tennis_score/services/match_service.py:67-70 | Tie-break mode applies the tie-break rule, and regular play applies the regular rule. |
| MatchService.UpdateCurrentMatchScore | src/tennis_score/services/match_service.py:36-82 | With no match there is nothing to do. An unknown key, an existing winner or a rule that raises leaves the match unchanged. Otherwise the rule's result is written back under the key. The winner becomes the scorer's id exactly when the winner check says so. Nothing else changes. |
| MatchService.ResetCurrentMatch | src/tennis_score/services/match_service.py:84-96 | With no match there is nothing to do. Otherwise the match gets the initial score and keeps everything else. |
| MatchService.RallyOfKeepsInvariant | src/tennis_score/services/match_service.py:61-70 | The match is valid exactly when the rally seen from either key is valid. |
| MatchService.UpdateKeepsInvariant | src/tennis_score/services/match_service.py:36-82 | Awarding a point to either player of a valid match leaves it valid, and no rule raises on the way. |
| MatchService.InitialScoreIsValid | src/tennis_score/model/match.py:33-42 | The initial score satisfies the score invariant. |
| MatchService.ResetIsIdempotent | src/tennis_score/services/match_service.py:84-96 | Resetting twice is the same as resetting once. |
| MatchService.ReplayKeepsInvariant | src/tennis_score/services/match_service.py:36-96 | From a valid match, every sequence of points and resets keeps the score invariant. |
| MatchService.NewMatchStaysValid | src/tennis_score/model/match.py:21-42 | Every match the constructor accepts stays valid under any sequence of points and resets. |
| Router.MakeResponse | src/tennis_score/core/response.py:4-22 | The response keeps the template and status, uses an empty context when none is given, and always carries the HTML content type. |
| Router.PathBeforeQuery | src/tennis_score/core/router.py:26 | The routed path is the longest prefix of the request path without '?'. |
| Router.ReadBody | src/tennis_score/core/router.py:48-55 | The body is empty when the content length is not positive or there is no stream. Otherwise it is the first min(length, available) bytes of the stream. |
| Router.ContentLength | src/tennis_score/core/router.py:49-52 | A missing or non-integer `CONTENT_LENGTH` counts as 0. Otherwise it is the integer value. |
| Router.ParsePostData | src/tennis_score/core/router.py:48-55 | A non-positive length or no stream parses an empty body. Otherwise the parse reads the first `length` bytes, or the whole stream when it is shorter. |
| Router.PostIgnoresTail | src/tennis_score/core/router.py:54-55 | Bytes of the stream past the declared length never change the parameters. |
| Router.PostWithoutLengthReadsNothing | src/tennis_score/core/router.py:49-54 | Without a usable length the body is read as empty, whatever the stream holds. |
| Router.RequestParams | src/tennis_score/core/router.py:34-43 | A falsy environ gives no parameters. POST reads the body, GET parses a non-empty query string, and any other method gives none. |
| Router.RouteRequest | src/tennis_score/core/router.py:22-45 | An unregistered (path, method) pair answers 404 and runs no controller. A registered one runs its controller exactly once with the request's parameters and answers what it returns. |
| Router.PathBeforeQueryOfPlainPath | src/tennis_score/core/router.py:26 | A path without '?' is its own route, with or without a query string appended. |
| Router.QueryStringDoesNotChangeRoute | src/tennis_score/core/router.py:26-31 | Appending a query string to a '?'-free path does not change the routing outcome. |
| Router.ScorePageRoutes | src/tennis_score/core/router.py:58-66 | The score page runs the same controller for GET with any query string and for POST. |
| Router.ResetRouteIsPostOnly | src/tennis_score/core/router.py:58-66 | A GET to the reset endpoint is a 404 that runs nothing. |
| PageScript.Freeze | src/tennis_score/templates/static/js/app.js:53-64 | On a completed match every present button is disabled, marked permanent and labelled as finished. Forms without a button stay without one. |
| PageScript.Init | src/tennis_score/templates/static/js/app.js:2-64 | The toggle is bound only when both nav elements exist. The page starts unlocked with no timer. Buttons are frozen exactly when the completed marker is present. |
| PageScript.OnNavClick | src/tennis_score/templates/static/js/app.js:6-10 | A bound toggle flips the menu's active class, and nothing else changes. |
| PageScript.Verdict | src/tennis_score/templates/static/js/app.js:17-24 | A submit throws exactly when its form has no button. It is accepted exactly when the button is enabled and the page is unlocked. |
| PageScript.DisableAll | src/tennis_score/templates/static/js/app.js:27-37 | An accepted submit disables every present button and relabels only the originating one. |
| PageScript.OnSubmit | src/tennis_score/templates/static/js/app.js:17-50 | A submit that is not accepted changes nothing. An accepted one takes the lock, schedules one unlock and disables the buttons. |
| PageScript.Release | src/tennis_score/templates/static/js/app.js:40-49 | The unlock re-enables and relabels every present button without the permanent marker and leaves marked ones untouched. |
| PageScript.OnUnlock | src/tennis_score/templates/static/js/app.js:40-49 | The unlock clears the lock unconditionally, consumes its timer and releases the buttons. |
| PageScript.Step | src/tennis_score/templates/static/js/app.js:7-49 | A click runs the toggle handler. A submit on an existing form runs the guarded submit handler. A pending unlock runs the timer callback. No event changes the number of forms or the toggle binding. A submit on a missing form or an unlock with no timer changes nothing. Only clicks move the menu, and clicks touch nothing else. |
| PageScript.Run | src/tennis_score/templates/static/js/app.js:7-49 | After any events the number of forms and the toggle binding are unchanged. After clicks alone the buttons, the lock and the timers are unchanged. |
| PageScript.StepKeepsGuardInvariant | src/tennis_score/templates/static/js/app.js:17-50 | Each event keeps the guard: at most one unlock pending, the lock held exactly while one is, and every button disabled while locked. |
| PageScript.RunKeepsGuardInvariant | src/tennis_score/templates/static/js/app.js:17-50 | The guard holds after any sequence of events. |
| PageScript.InitSatisfiesGuardInvariant | src/tennis_score/templates/static/js/app.js:14 | A freshly loaded page satisfies the guard. |
| PageScript.LockedPageAcceptsNothing | src/tennis_score/templates/static/js/app.js:21-24 | While the lock is held no submit goes through, and the page is unchanged. |
| PageScript.StepKeepsFrozenButton | src/tennis_score/templates/static/js/app.js:44 | No single event changes a disabled button that carries the permanent marker. |
| PageScript.FrozenButtonStaysFrozen | src/tennis_score/templates/static/js/app.js:40-64 | A disabled button with the permanent marker never changes again, whatever events follow. |
| PageScript.AllFrozenStaysFrozen | src/tennis_score/templates/static/js/app.js:40-64 | A page whose buttons are all frozen, unlocked and with no timer stays exactly so. |
| PageScript.CompletedPageStaysFrozen | src/tennis_score/templates/static/js/app.js:53-64 | On a page loaded with the completed marker, no submit is ever accepted and the buttons never change. |
| PageScript.NavActiveFollowsClickParity | src/tennis_score/templates/static/js/app.js:6-10 | After any events, a bound menu is toggled exactly when the number of clicks is odd. An unbound one never changes. |
| PageScript.ThreeFormScenario | src/tennis_score/templates/static/js/app.js:27-49 | With three forms, a submit on the second disables all three and relabels only the second. The unlock then restores all three to "Score". |

## Left out

- Persistence: the ORM models, repositories and database are not modelled. The
  current match is a parameter of the service, and database ids are plain values.
- The WSGI application, middlewares, controllers, templates and view/data handlers
  are not modelled. The router's controllers are opaque values run through a function.
- `MatchService.UpdateCurrentMatchScore`: the service calls `check_match_winner` on
  its data handler, but `MatchDataHandler` defines no such method. As written, that
  call raises after the rule has already updated the scores in place, and the winner
  is never set. The model takes the winner check as a parameter. Passing a check that
  always answers false gives the state the repository is left in as written.
- `MatchService.UpdateCurrentMatchScore`: every path after a match is found calls
  `get_match_data`, which `Match` does not define. The no-match path returns None
  without calling it. The model returns the current match afterwards
  instead of a data record, and does not model the error that escapes.
- `MatchModel.NewMatch`: the default player names ("Игрок 1", "Игрок 2") are not
  modelled. Callers pass both names explicitly.
- `MatchModel.AddCompletedSetScore`: the default None tie-break scores are not
  modelled. Callers pass `None` explicitly.
- `Router.RoutingTable`, `Router.ScorePageRoutes` and `Router.ResetRouteIsPostOnly`
  describe the routing table as written. As written, core/router.py imports
  `reset_match_controller` from the match controllers module, which does not define it
  (the list controllers module does). So the module and its table fail to import.
- `MatchModel.NewMatch`: the uuid and the process-wide player counter are runtime
  state, so their values are parameters.
- `Router.RequestParams`: `parse_qs`, UTF-8 decoding and `int()` are library
  behaviour and are parameters. A UnicodeDecodeError from a malformed body is not
  modelled.
- `Router.ReadBody`: the WSGI input stream is a finite byte sequence, and a read
  returns as many bytes as asked for or as there are.
- `PageScript.Init`: the DOM is reduced to the toggle, the menu's active flag and one
  optional submit button per score form. The 3000 ms delay is an event with no clock.
  Events for forms that do not exist, and unlocks with no timer pending, change nothing.
- `MatchModel.ToLiveDto`: the `.get(..., 0)` defaults are not modelled, because the
  score records always hold every counter.
- `MatchModel.ToFinalDto`: the contract covers the id, names and winner resolution.
  The score string is specified by `MatchModel.FinalScoreReadsBack` and
  `MatchModel.EmptyHistoryShowsSetCount`.
- Logging and the debug messages are not modelled, except for the eager message in
  `update_regular_score`, which can raise.
- Concurrency between requests is not modelled: the service is a single-threaded
  step function.
