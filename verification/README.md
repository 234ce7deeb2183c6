# FIFA tournament manager — a Dafny model of the tournament engine

`app.py` is a small Streamlit page that runs a FIFA evening among three to six
players. The engine has three stages.

- **REGISTRATION.** A form of name/team entries. Blank names are dropped. Duplicate
  names and fewer than three players are refused.
- **GROUP.** A shuffled round robin. Each result can be recorded and corrected. The
  table (`calculate_standings`) gives 3 points for a win and 1 each for a draw, and
  ranks by points, goal difference and goals for.
- **PLAYOFF.** Entered once every group match is played. The top two
  (three players) or top four (otherwise) are captured as seeds.
  - With three players there is a direct final, seed 1 against seed 2.
  - Otherwise there are semifinals 1 v 4 and 2 v 3, then a third-place match between
    the semifinal losers and a final between the winners.
  - A knockout match goes to the home side only on a strictly higher score.

A sidebar button clears the whole session.

The model is pure Dafny. The session is an immutable `State` record, and every button
is a function from a state to `Result<State>`. An `Err` says why the action is refused, and the
session keeps its old value. Three errors are the page's own messages: duplicate
names, too few players and the number of group matches left. The others stand for
actions the page never offers, such as saving a match that is already played.

| module (file) | models |
|---|---|
| `Types` (`types.dfy`) | players, group fixtures (a subset type: a played fixture always has both scores), errors, facts about sequences without repeats |
| `Registration` (`registration.dfy`) | `p['name'].strip() != ""` filtering, with Python's whitespace set |
| `Schedule` (`schedule.dfy`) | `generate_schedule`: `itertools.combinations`, then `random.shuffle` as a Fisher–Yates pass over caller-supplied random draws |
| `Table` (`table.dfy`) | `calculate_standings`: per-column folds over the matches, and an insertion sort by the ranking key |
| `Knockout` (`knockout.dfy`) | playoff bracket layout, winner/loser resolution, recording knockout results |
| `Tournament` (`tournament.dfy`) | the session state, its invariant `Valid`, every action, and `Step` over all actions |

## Model

| member | source | states |
|---|---|---|
| Registration.NonBlank | app.py:126 | the kept entries are exactly the form entries whose name is not all whitespace, and there are no more of them than form entries |
| Registration.NonBlankConcat | app.py:126 | the filter distributes over concatenation, so kept entries keep their form order |
| Registration.NonBlankKeepsFilledForm | app.py:126 | a form without blank names is kept whole and in order |
| Types.ElementsCount | app.py:129 | `len(set(names)) <= len(names)`, with equality exactly when no name repeats |
| Schedule.PairsCount | app.py:45 | N names give N(N-1)/2 combinations |
| Schedule.PairsMembers | app.py:45 | a pair is among the combinations iff it is (names[i], names[j]) for positions i < j |
| Schedule.PairsDistinct | app.py:45 | distinct names give combinations without repeats |
| Schedule.ShuffleFrom | app.py:46 | each Fisher–Yates step is a swap, so the shuffled list is a permutation of its input |
| Schedule.Shuffle | app.py:46 | `random.shuffle` permutes the list, whatever the random draws |
| Schedule.GenerateSchedule | app.py:42-57 | one fixture per combination, each unplayed with no scores, and the fixtures' (home, away) pairs are a permutation of the combinations |
| Schedule.ScheduleIsRoundRobin | app.py:42-57 | for distinct names: N(N-1)/2 fixtures; home registered before away, so never a self-pairing; every pair present; no pair twice in either orientation; for every shuffle |
| Schedule.FixturesOfAllPairs | app.py:42-57 | any fixture list whose pairs are the combinations in some order is such a round robin |
| Table.Insert | app.py:81 | inserting into a ranked table gives a ranked table with the same rows plus the new one, and column sums grow by that row |
| Table.Sort | app.py:81 | the sorted table is ranked by (points, goal difference, goals for) descending and is a permutation of its input, with the same names and column sums |
| Table.SortKeepsRanked | app.py:81 | sorting an already ranked table returns it unchanged, so re-sorting the standings is idempotent |
| Table.Standings | app.py:59-83 | the table is ranked, holds every registered name exactly as often as registered, and each row is a registered player's own tally |
| Table.FoldPermutation | app.py:63-77 | each column depends only on the multiset of matches, not on their order |
| Table.StandingsIgnoreMatchOrder | app.py:59-83 | permuting the match list yields the identical table |
| Table.UnplayedIgnored | app.py:64 | an unplayed match contributes nothing: dropping it leaves the table unchanged |
| Table.MatchEffect | app.py:63-77 | one more match changes each row by that match alone. A played match between two registered players adds a game to both, its goals to both goal columns and its points to the scorer side; any other match changes nothing |
| Table.MatchTotalsBalance | app.py:68-77 | summed over a match list, G+ equals G-, Z is 2 per counted match, and points are 3 per decided match plus 2 per draw |
| Table.StandingsBalance | app.py:59-83 | with distinct names the table's G+ and G- sums agree, goal differences sum to 0, and the Z and points sums are as above |
| Table.PointsPerMatch | app.py:73-77 | one more match adds 3 points to the table if decided, 2 on a draw, 0 if unplayed or between unregistered names |
| Knockout.InitBracket | app.py:219-252 | three players: the final is seed 1 v seed 2. Otherwise: semifinal 1 is seed 1 v seed 4 and semifinal 2 is seed 2 v seed 3, the third-place match and final have no participants, and nothing is played |
| Knockout.Outcome | app.py:285-288 | the winner/loser pair is the two participants, and for distinct participants the home side wins exactly when its score is strictly higher; a draw goes to the away side |
| Knockout.RecordKnockout | app.py:227-316 | a result is accepted iff the key exists in this bracket shape, the match is unplayed and (third place, final) both semifinals are played; it records that match's scores and touches no other match; the third-place match need not come before the final |
| Knockout.BracketKeepsSeeds | app.py:248-316 | a fresh bracket fits its seeds, and recording keeps it fitting (third place and final recorded only after both semifinals) |
| Knockout.SemifinalPairings | app.py:284-308 | with both semifinals played, third place is (SF1 loser, SF2 loser), the final is (SF1 winner, SF2 winner), and the champion is the SF1 winner exactly when the final's home score is strictly higher |
| Knockout.SemifinalistsAreSeeds | app.py:285-288 | the two winners and two losers are the four seeds, each exactly once |
| Knockout.TopSeedsInSeparateSemifinals | app.py:249-306 | seeds 1 and 2 are in different semifinals; they meet in the final exactly when both win their semifinal, and in the third-place match exactly when both fail to win it |
| Knockout.DirectFinalResolution | app.py:220-228 | with three players the champion is seed 1 iff seed 1 scores strictly more, else seed 2 |
| Tournament.PlayedCount | app.py:169-171 | the played count is at most the fixture count, and equals it (no match left) exactly when every fixture is played |
| Tournament.Register | app.py:125-137 | submitting succeeds iff the stage is REGISTRATION, the non-blank names are distinct and at least three. Duplicates are reported first, then too few players. On success the players are the non-blank entries in order, the count is their number, the fixtures are freshly generated and the stage is GROUP |
| Tournament.RecordGroupMatch | app.py:194-206 | saving succeeds iff in the group stage on an unplayed fixture; it sets that fixture's two scores and played flag and changes nothing else |
| Tournament.CorrectGroupMatch | app.py:189-193 | correcting succeeds iff in the group stage on a played fixture; it clears only the played flag, keeping the old scores, and changes nothing else |
| Tournament.AdvanceToPlayoff | app.py:145-179 | moving on succeeds iff in the group stage with no fixture left, else reports `matches_left`, the fixture count minus the played count, which is positive. The seeds are the first 2 (three players) or 4 table names, distinct. The bracket is laid out from them, and players and fixtures are unchanged |
| Tournament.RecordPlayoffMatch | app.py:209-316 | a playoff result is accepted iff in the playoff stage and the bracket accepts it; only the bracket changes |
| Tournament.SeedsFacts | app.py:177 | the seeds are the leading table names, as many as go through, distinct and registered, and every seed's row ranks at least level with every non-seed row |
| Tournament.ValidIsRoundRobin | app.py:134-136 | in the group and playoff stages the fixtures are a round robin over the registered names |
| Tournament.Step | app.py:125-324 | every accepted action keeps the session valid. Valid means: registration is the empty session; later stages have at least three distinct non-blank names, a count that matches and a round robin of fixtures; the playoff also has every fixture played and a bracket laid out from distinct registered seeds, with third place and final after both semifinals. A restart (`st.session_state.clear()`) succeeds from any stage and yields exactly the fresh session that app.py:27-38 sets up. Every other accepted action moves the stage only REGISTRATION to GROUP to PLAYOFF. In the playoff, players, group results and seeds never change |
| Tournament.SeedsStayFromTable | app.py:177-316 | in the playoff the seeds remain the leading names of the group table: no playoff action changes players, results or seeds |
| Tournament.CorrectionForgetsMatch | app.py:189-193 | after a correction the table equals the table of the other fixtures alone |
| Tournament.RecordCorrectRestoresTable | app.py:189-206 | recording a result and then correcting it gives back the table from before the recording |
| Tournament.RecordCorrectRecord | app.py:189-206 | after recording and correcting, recording new scores gives exactly the state a first recording of those scores would |

## Left out

- Page rendering, CSS, `st.rerun`, the sidebar warning and the column layout: they
  do not change the session.
- `random.shuffle`'s random source: the draws are a parameter. Every property of the
  schedule holds for every sequence of draws.
- Table.Sort: pandas `sort_values` decides the order of rows whose (points, goal
  difference, goals for) are all equal. That code is not part of this model. The
  model sorts with a specific insertion sort and claims only that the result is
  ranked and is a permutation of the rows, not any tie order.
- Table.Standings: `calculate_standings` builds a dictionary keyed by name, so
  duplicate names would merge into one row. The model keeps one row per registered
  player. Registration refuses duplicate names, and `Valid` keeps them distinct, so
  the two agree on every reachable session.
- Score inputs (`st.number_input(min_value=0)`) are `nat`. Python integers are
  unbounded, so there is no overflow to model.
- A played group fixture without scores would make `calculate_standings` fail on
  `None` arithmetic. The fixture type rules this state out: only saving sets
  `played`, and it sets both scores together.
- Tournament.AdvanceToPlayoff: the source creates the bracket on the first render of
  the playoff page. `st.rerun()` triggers that render right after the stage changes,
  so the model lays out the bracket in the transition itself.
- Knockout.RecordKnockout: the third-place match and the final never store their
  participants; both stay `None`, as in the source. The pairings are derived from the
  semifinal results whenever they are needed.
- Tournament.RecordGroupMatch: the page shows a save button only for existing
  unplayed fixtures. The model returns `NoSuchMatch` or `AlreadyPlayed` for other
  requests. Tournament.CorrectGroupMatch does the same with `NotPlayed`.
- Tournament.Register: the page always shows exactly six entry slots. The model
  accepts a form of any length, so the six-player cap is a property of the form,
  not of the engine.
- Knockout draws: `app.py` accepts a level knockout score and sends the away side
  through (app.py:228, 285-288). The model does the same and rejects nothing.
- Match order in the playoff: nothing in app.py:295-316 makes the third-place match
  come before the final, and the model imposes no such order.
- Final ranking: `app.py` shows the champion only. It computes no combined ranking of
  group and playoff results, so the model has none.
- Tie order: no order is claimed for rows whose (points, goal difference, goals for)
  are equal; see Table.Sort above.
