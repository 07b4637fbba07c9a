# Table-tennis tournament: draw, schedule, play-off and results

This project models the core of a Django application that runs a
table-tennis tournament. Participants register and receive drawn numbers
1..N. The draw pairs them into group-stage games and places those games on
weekdays. The top eight of the group stage then play a fixed play-off
bracket. Players enter the set scores of their own games.

The modules follow the application's files:

- `Basics` (basics.dfy): `Option`, `Result`, a pass/fail outcome, and
  repetition-free lists.
- `Models` (models.dfy): `tournament/models.py`. It covers:
  - tournament validation and status;
  - the check on drawn numbers;
  - binding a participant into its games;
  - pair-unordered game equality and the guard of `Game.save`;
  - slot labels;
  - winner and loser from set results;
  - the set-score rule of `SetResult.save`.
- `Pairing` (pairing.dfy): the pairing half of `tournament/functions.py`,
  which is `generate_games` and its helpers. Each round folds a shuffled list
  onto itself (position i plays position n-1-i). Pairs drawn before are
  skipped. When counts are uneven, only the participants with the fewest games
  are folded, padded to two. The loop counts its passes, not its completed
  rounds. The 51st pass (the counter exceeds 50) throws away everything drawn
  so far, and the generator starts again from the unshuffled list 1..N.
- `Scheduling` (scheduling.dfy): the scheduling half of
  `tournament/functions.py`. It covers:
  - the eligible weekdays;
  - the per-day player lists;
  - back-to-back start times;
  - `generate_schedule`, which greedily puts every game on the first weekday
    where neither player already plays, and stores the games only when no
    game was counted as not set. With no eligible days nothing is dated and
    every game is stored.
- `Playoff` (playoff.dfy): the `playoff` view. It covers:
  - the ranking by (sets won, balls won), highest first;
  - seeding the quarterfinals from the top eight;
  - the lazy filling of semifinal, third-place and final slots from the winners
    and losers of their feeder games.
- `Views` (views.dfy): the draw's retry loop in `me_before_draw` and the result
  views `me_games` and `me_playoff_games`.

How the source is represented:

- Dates are day ordinals. Day 1 is 1 January of year 1, a Monday.
- Times of day are seconds after midnight.
- `random.shuffle` is an oracle `shuffle(draw, list)` that must return a
  permutation of its argument.
- Stored games are a sequence or an array of records, updated in place where
  the source updates them.
- Loops that run until they succeed (the round loop of `generate_games`, the
  draw loop of `me_before_draw`) take an explicit bound on their iterations.

Two points about the code that the model keeps as written:

- The ranking sorts by the stored `win_sets`, then `win_balls`, highest first
  (tournament/views.py:90).
- The view does not fix the quarterfinal places itself. Each quarterfinal takes
  the seeds at the positions its game stores (`id1`, `id2`), and a position
  outside the top eight raises an index error (tournament/views.py:97-100).

## Model

| member | source | states |
|---|---|---|
| Models.TournamentClean | tournament/models.py:31-38 | passes in debug mode; otherwise passes exactly when registration ends in the future, the draw comes after registration ends and the start date comes after the draw date; a registration end in the past is reported first |
| Models.GetStatus | tournament/models.py:48-63 | status 0..4; each status holds exactly under its own condition (registration open, registration over before the start, group stage, play-off through the end date, finished) |
| Models.StatusMonotone | tournament/models.py:48-63 | with the group stage no later than the play-off, the status never goes back as time passes |
| Models.CheckSetScore | tournament/models.py:245-265 | accepts a set exactly when the acceptance rule holds; equal scores are always refused with their own error |
| Models.SetRuleMatchesLaw | tournament/models.py:245-265 | for non-negative points, the accepted scores are exactly the finished games of law 2.11 of the ITTF Laws of Table Tennis (11 with a lead of two, or past 10-10 by exactly two) |
| Models.NegativeScoreAccepted | tournament/models.py:246-249 | the check accepts 11 against -1, which no finished game has |
| Models.NeIsNotEq | tournament/models.py:142-152 | the separately written `__ne__` is exactly the negation of `__eq__` |
| Models.EqIsUnorderedPair | tournament/models.py:142-147 | two games are equal exactly when they have the same tournament and round and the same players as a multiset of two ids |
| Models.GameEqEquivalence | tournament/models.py:142-147 | game equality is reflexive, symmetric and transitive |
| Models.ContainsSpec | tournament/models.py:158 | `g in games` holds exactly when some stored game equals g |
| Models.SaveGuard | tournament/models.py:154-160 | updates always pass; a first save passes exactly when the players differ and no stored game equals the new one; a self-pairing is refused as such |
| Models.SaveKeepsNoDup | tournament/models.py:154-160 | storing a game through the first-save guard keeps the stored games free of equal pairs and adds no self-pairing |
| Models.GetP1 | tournament/models.py:162-179 | the first slot shows its participant exactly when one is bound |
| Models.GetP2 | tournament/models.py:181-198 | the second slot shows its participant exactly when one is bound |
| Models.BracketLabels | tournament/models.py:162-198 | unbound slots show the bracket: quarterfinal k is place k against place 9-k; semifinals 5 and 6 take the winners of quarterfinals 1 and 4, and of 2 and 3; game 7 takes the semifinal losers; game 8 takes the semifinal winners; group games show drawn numbers |
| Models.SetsWon1 | tournament/models.py:205-209 | at most one set counted per result |
| Models.SetsPartition | tournament/models.py:205-209 | every set is credited to exactly one side |
| Models.WinnerAndLoser | tournament/models.py:200-230 | with results and two distinct bound players: winner and loser differ exactly when the set counts differ; participant 1 wins exactly with a strict majority and loses exactly with a strict minority; on a tie both are participant 2 |
| Models.GetWinner | tournament/models.py:200-214 | the counting loop returns the winner of the specification (none without results) |
| Models.GetLoser | tournament/models.py:216-230 | the counting loop returns the loser of the specification (none without results) |
| Models.CleanDrawnNumber | tournament/models.py:103-108 | fails exactly when the number is set and held by a participant of another user |
| Models.CleanGivesUniqueNumbers | tournament/models.py:103-108 | when every participant passes the check, participants of different users never share a drawn number |
| Models.BindGames | tournament/models.py:90-99 | every game keeps its length and fields, and a slot whose id is the drawn number gets the participant |
| Models.BindIdempotent | tournament/models.py:90-99 | binding a second time changes nothing |
| Models.Participant.Save | tournament/models.py:89-101 | the first save with a truthy drawn number binds the participant into every game and marks it initialized; any other save leaves the games alone |
| Pairing.NumberOfRounds | tournament/functions.py:17-21 | 4 rounds exactly for an even count of participants, 2 exactly for an odd one |
| Pairing.CountAppend | tournament/functions.py:40-45 | a player's game count over two lists is the sum of the counts |
| Pairing.NumberOfGames | tournament/functions.py:40-45 | the loop returns the number of games the player plays in |
| Pairing.GamesPerPerson | tournament/functions.py:48-51 | one count per participant, in list order |
| Pairing.SingleValue | tournament/functions.py:54-59 | a list of counts has one distinct value exactly when it is non-empty and constant |
| Pairing.GamesNumberIsEqual | tournament/functions.py:54-59 | true exactly when the list is non-empty and everybody on it has the same count |
| Pairing.MinOf | tournament/functions.py:82 | the minimum is an element and no element is smaller |
| Pairing.WithCount | tournament/functions.py:83 | exactly the listed participants with the given count, without repeats when the list has none |
| Pairing.SelectPool | tournament/functions.py:82-90 | computes the minimum pool: the participants with the fewest games, padded to two |
| Pairing.PadPool | tournament/functions.py:85-90 | the padding loop appends missing participants in list order until the pool has two |
| Pairing.PadShape | tournament/functions.py:85-90 | padding keeps the pool as a prefix, adds only list members, repeats nobody, and stops at the size or when nobody is left |
| Pairing.PoolShape | tournament/functions.py:82-90 | the pool holds exactly the participants with the minimum count when there are two or more of them; a single one is followed by the first participant in list order other than itself (or stands alone when the list has one member); the pool never repeats anybody |
| Pairing.PadSingle | tournament/functions.py:85-90 | padding a one-member pool appends the first listed participant other than its member |
| Pairing.NewGamesMembers | tournament/functions.py:30-35 | a game is kept exactly when it is a candidate and equals no game drawn before |
| Pairing.NewGamesDisjoint | tournament/functions.py:30-35 | filtering keeps pairwise disjoint candidates pairwise disjoint |
| Pairing.SubsetShape | tournament/functions.py:24-37 | folding distinct participants yields at most n/2 new games; each is a group game of two different listed participants not drawn before; the fold pair of positions i and n-1-i is in the subset exactly when it was not drawn before; no two share a player |
| Pairing.DisjointNoDup | tournament/functions.py:30-35 | games without a common player are never equal |
| Pairing.NoDupAppend | tournament/functions.py:94 | extending distinct games with distinct new games keeps them distinct |
| Pairing.GenerateGamesSubset | tournament/functions.py:24-37 | the subset is the filtered fold of the shuffled list, and the caller sees the shuffled order |
| Pairing.GenerationRound | tournament/functions.py:76-108 | one loop iteration fails exactly on an empty list (`min` of nothing) and otherwise yields the next state |
| Pairing.NextStateSpec | tournament/functions.py:76-108 | an iteration keeps the invariant (participants a permutation of 1..N, games valid and distinct); the pass that takes the counter past 50 resets to the initial state; otherwise it only appends games and adds a round exactly when the counts are equal afterwards |
| Pairing.RoundPoolShape | tournament/functions.py:79-90 | the list a round folds repeats nobody and takes only from the participants |
| Pairing.ShuffledPoolShape | tournament/functions.py:26 | the shuffled list repeats nobody and holds only drawn numbers 1..N |
| Pairing.RoundKeepsInvariant | tournament/functions.py:92-94 | extending the games with a round's subset keeps them distinct and valid |
| Pairing.EqualCountsAll | tournament/functions.py:98-99 | equal counts over a permutation of 1..N mean every drawn number has the same count |
| Pairing.RoundsFromStep | tournament/functions.py:74-108 | an iteration that runs on a non-empty list with rounds still to go hands the loop on to the next state with the next draw number |
| Pairing.NewGamesOnEmpty | tournament/functions.py:30-35 | with no games drawn before, filtering keeps every candidate |
| Pairing.NextStateGrows | tournament/functions.py:92-94 | an iteration keeps the growth invariant: a non-empty game list holds at least n/2 games, and for n >= 2 a counted round means games exist (the first fold from nothing adds n/2 games) |
| Pairing.RunInvStep | tournament/functions.py:74-108 | an iteration with rounds still to go keeps the loop invariant: a permutation of 1..N, valid distinct games, at least n/2 of them once any exist, and equal counts when the round counter reaches the target |
| Pairing.RoundsFromSpec | tournament/functions.py:74-110 | from any state keeping the loop invariant, returned games are balanced, distinct, valid group games of 1..N and at least n/2 of them for n >= 2; the loop fails exactly when N = 0 and an iteration runs; the draw number never goes back |
| Pairing.GenerateGamesSpec | tournament/functions.py:60-110 | from the start state: on success N > 0, every drawn number plays equally often, no two games are equal, every game is a group game of two different numbers in 1..N and there are at least n/2 of them for n >= 2; it fails exactly when N = 0 |
| Pairing.LoopPass | tournament/functions.py:76-108 | one pass of the loop body either returns the loop's own result or leaves state from which the loop's result is unchanged |
| Pairing.GenerateGames | tournament/functions.py:60-110 | the method's games and next draw number are exactly those of the loop run from the start state, returning as soon as the round counter reaches the target |
| Scheduling.EligibleDaysSpec | tournament/functions.py:120-140 | the days are exactly the weekdays from the start date up to the day before the play-off, strictly increasing |
| Scheduling.WeekdayNext | tournament/functions.py:132 | weekdays run Monday to Sunday and wrap |
| Scheduling.WeekHasFiveDays | tournament/functions.py:129-138 | any seven consecutive days give five eligible days |
| Scheduling.GetDates | tournament/functions.py:120-140 | the loop returns the eligible days of the group stage |
| Scheduling.PlayersThisDay | tournament/functions.py:143-150 | the loop returns both players of every game on the day, in game order |
| Scheduling.DayGamesSpec | tournament/functions.py:163-169 | a game is among the day's games exactly when it is stored and dated that day |
| Scheduling.GamesThisDay | tournament/functions.py:163-169 | the loop returns the games of the day in stored order |
| Scheduling.DayCountIsPlayersCount | tournament/functions.py:143-150 | the per-game count is the number of times a player is on the day's players list |
| Scheduling.DayCountIsGameCount | tournament/functions.py:143-169 | without self-pairings, a player is on the day's list once per game played that day |
| Scheduling.SlotMeansFreeDay | tournament/functions.py:153-160 | with the default limit, a day has a slot exactly when neither player already plays that day |
| Scheduling.MaxStart | tournament/functions.py:175 | the latest start time is one of the start times and none is later |
| Scheduling.LastGameTime | tournament/functions.py:172-178 | the start time of some game of the day, and no game of the day starts later |
| Scheduling.GetTime | tournament/functions.py:112-117 | a time of day congruent to start plus duration modulo a day, equal to it when it does not pass midnight |
| Scheduling.InitialGamesNumber | tournament/functions.py:181-187 | fails (division by zero) exactly without days |
| Scheduling.InitialGamesNumberBounds | tournament/functions.py:181-187 | the daily number times the days covers the games per person by less than two days' worth; with an even field it is the least such number |
| Scheduling.FirstFreeDay | tournament/functions.py:199-201 | the first day from i on with a slot for the game, or none when no later day has one |
| Scheduling.PlaceGame | tournament/functions.py:199-211 | game j is placed on an eligible day with a start time exactly when some day has a slot for it, and stays as it was otherwise; no other game changes |
| Scheduling.PlaceGameRule | tournament/functions.py:199-208 | a placed game goes on the first day with a slot, at the start time when that day has no game and otherwise one duration after the day's latest start, wrapped to a time of day |
| Scheduling.ScheduleGreedy | tournament/functions.py:198-211 | in the outer loop from game j, every later game k is placed by the inner loop's rule against the games as they stand when its turn comes (games before k already placed, games from k on untouched) |
| Scheduling.ScheduleFirstFree | tournament/functions.py:198-211 | the whole loop puts every game that finds a slot on the first free day at the next start time of that day, given the games placed before it, and leaves every other game as it was |
| Scheduling.SaveAllSpec | tournament/functions.py:212-215 | saving succeeds exactly when the games hold no equal pair among themselves or with the stored ones and no self-pairing; the stored games stay a prefix and stay distinct |
| Scheduling.ScheduleStep | tournament/functions.py:198-211 | the outer loop from game j is game j's placement followed by the loop from j+1 |
| Scheduling.DayGamesAppend | tournament/functions.py:163-169 | the day's games of two lists are the concatenation of each list's |
| Scheduling.UndatedBookNothing | tournament/functions.py:143-169 | undated games are on no day's list |
| Scheduling.PlaceSplit | tournament/functions.py:163-169 | dating game j when the rest is undated adds it at the end of its day |
| Scheduling.ScheduleWithoutDays | tournament/functions.py:198-210 | without days nothing is dated and no game is counted as not set |
| Scheduling.ScheduleFrame | tournament/functions.py:198-211 | every game keeps everything but its date and time, and either stays as it was or is placed on an eligible day |
| Scheduling.ScheduleAllPlaced | tournament/functions.py:198-211 | with days and no game counted as not set, every game was placed |
| Scheduling.ScheduleSomeUnplaced | tournament/functions.py:198-211 | a game is counted as not set only when there are days, and not at all when every game was placed |
| Scheduling.PlaceKeepsOnePerDay | tournament/functions.py:200-210 | placing a game keeps every player to at most one game per day |
| Scheduling.ScheduleOnePerDay | tournament/functions.py:198-211 | the whole placement keeps every player to at most one game per day |
| Scheduling.LastIsLatest | tournament/functions.py:172-178 | on a back-to-back day the latest start is that of the day's last game |
| Scheduling.NextSlot | tournament/functions.py:201-204 | on a back-to-back day with L games, where the next game still starts before midnight, it starts L durations after the start time |
| Scheduling.AppendBackToBack | tournament/functions.py:201-206 | a day's back-to-back list followed by a game at the next slot is still back to back |
| Scheduling.PlaceOnDayBackToBack | tournament/functions.py:200-208 | dating game j on a back-to-back day at that day's next slot, before midnight, keeps the day back to back |
| Scheduling.PlaceKeepsBackToBack | tournament/functions.py:200-210 | placing a game keeps back to back (start, start + duration, start + 2 durations and so on) every day whose last game starts before midnight |
| Scheduling.ScheduleBackToBack | tournament/functions.py:198-211 | the whole placement keeps back to back every day whose last game starts before midnight |
| Scheduling.ScheduleSpec | tournament/functions.py:190-211 | on fresh games only dates and times change; without days nothing changes; otherwise no game is missing exactly when every game got a day; every game that gets a day gets the first day with a slot and the next start time of that day, given the games placed before it; no player plays twice on one day |
| Scheduling.ScheduleTimes | tournament/functions.py:190-211 | on every day whose last game starts before midnight, the day's games start back to back from the start time in stored order |
| Scheduling.SaveOutcome | tournament/functions.py:212-215 | the saving loop reports success or the first rejection, never a missing game |
| Scheduling.AssignDay | tournament/functions.py:199-210 | the inner loop performs game j's placement, and the not-set counter grows exactly when it fails with days available |
| Scheduling.SaveSchedule | tournament/functions.py:212-215 | the loop stores the games one by one and stops at the first rejection |
| Scheduling.GenerateSchedule | tournament/functions.py:190-217 | the array holds the scheduled games; the result is "not placed" exactly when some game is not set, and otherwise is the saving outcome |
| Playoff.Insert | tournament/views.py:90 | inserting keeps every element exactly once more |
| Playoff.InsertKeepsRanking | tournament/views.py:90 | inserting into a sorted ranking keeps it sorted |
| Playoff.RankedIsSorted | tournament/views.py:90 | the ranking is sorted by (sets won, balls won), highest first, and is a permutation of the participants |
| Playoff.SeedsAreTop | tournament/views.py:90-91 | the seeds are the first min(8, N) of the ranking, sorted, drawn from the participants, and each ranks at least as high as everybody left out |
| Playoff.PyIndex | tournament/views.py:98-99 | Python indexing: defined exactly for -len <= i < len, counting negative indices from the end |
| Playoff.FirstWithId | tournament/views.py:107 | the index of the first game with the identifier, or none when no game has it |
| Playoff.SeedGameSpec | tournament/views.py:97-100 | a quarterfinal is seeded exactly when both stored positions fall inside the seeds (negative positions count from the end); positions 1..8 take that seed; seeding again changes nothing |
| Playoff.QuarterPassSpec | tournament/views.py:97-100 | the quarterfinal loop succeeds exactly when every quarterfinal can be seeded; then each quarterfinal is seeded and every other game is left alone |
| Playoff.QuarterfinalsReseeded | tournament/views.py:97-100 | seeding a second time changes nothing |
| Playoff.SeedQuarterfinals | tournament/views.py:97-100 | the in-place loop matches the quarterfinal pass, including the games updated before an index error |
| Playoff.FindGame | tournament/views.py:107 | the search returns the first game with the identifier |
| Playoff.FillBoth | tournament/views.py:105-115 | filling both slots of a stage game gives the filled game, and fails exactly when an unbound slot has no feeder |
| Playoff.FillingKept | tournament/views.py:105-141 | one stage game's filling changes neither the later games' feeders nor their fillings |
| Playoff.StagePassSpec | tournament/views.py:105-141 | a stage loop aborts exactly when an unbound slot of a stage game has no feeder game; otherwise every unbound slot takes the winner (the loser for third place) of its feeder, bound slots stay, and other games are untouched |
| Playoff.FillStage | tournament/views.py:105-141 | the in-place loop of one stage matches the stage pass |
| Playoff.StagePassFrame | tournament/views.py:105-141 | a stage changes only the participants of its own games |
| Playoff.StageSettles | tournament/views.py:105-141 | after a stage every slot of its games holds what the stage would put there |
| Playoff.SettledIsFixpoint | tournament/views.py:105-141 | on settled games a stage changes nothing |
| Playoff.StageIdempotent | tournament/views.py:105-141 | running a stage twice is the same as running it once |
| Playoff.SettledKept | tournament/views.py:118-141 | a later stage whose games do not feed this one keeps this stage settled |
| Playoff.LaterStagesSettle | tournament/views.py:105-141 | after semifinals, third place and final, all three stages are settled, identifiers are kept and quarterfinals are unchanged |
| Playoff.ResolveIdempotent | tournament/views.py:81-141 | opening the play-off view again, with no new results, changes no game |
| Playoff.ResolvePlayoff | tournament/views.py:89-141 | the in-place view updates match the resolution: quarterfinals, then semifinals, third place and final |
| Views.PlacingKeepsPairs | tournament/functions.py:198-211 | giving games days and times changes no game count, keeps games distinct, and keeps every game's pair |
| Views.SavedInFull | tournament/functions.py:212-215 | games with no equal pair and no self-pairing are all stored on an empty tournament |
| Views.PlacedNumbers | tournament/functions.py:198-211 | placement keeps every game a pair of two different drawn numbers in 1..N |
| Views.ScheduledDraw | tournament/views.py:259-263 | when generated games are all placed, every one is stored and the stored games are a proper draw |
| Views.DrawFromSpec | tournament/views.py:257-261 | the retry loop never ends in a rejected save; a completed draw is proper: balanced counts, distinct games of two different numbers in 1..N, at most one game per player per day, and every game on an eligible weekday with a start time; it fails exactly when the field is empty and a try runs with some fuel |
| Views.DrawSchedule | tournament/views.py:253-263 | nothing is drawn exactly when the tournament has games; otherwise the outcome is exactly that of the retry loop, where a try whose schedule leaves a game unplaced starts the next try with the next draw number |
| Views.AcceptedPrefix | tournament/models.py:245-265 | the sets before it are all accepted and the set at it, if any, is refused |
| Views.EnteredSets | tournament/views.py:363-365 | the entered sets run up to the first empty score |
| Views.Listed | tournament/views.py:317-318 | the first game on the player's list equal to the target, or none when no such game exists |
| Views.FindListed | tournament/views.py:317-318 | the search over the player's games returns the first equal one |
| Views.SaveSets | tournament/views.py:323-328 | the loop appends the accepted leading sets to the game and reports the first refused set |
| Views.SubmitGroupResult | tournament/views.py:316-331 | a group-game submission of five sets has the effect and report of the submission function |
| Views.SubmitPlayoffResult | tournament/views.py:356-373 | a play-off submission of up to seven sets, stopping at the first empty score, has the effect and report of the submission function |
| Views.SubmitSpec | tournament/views.py:316-331 | only the submitted game changes, and only by the accepted leading sets; a game not on the player's list, or whose listed twin has results, is left alone; the report names the first refused set and its error |
| Views.ListedIsItself | tournament/views.py:317-318 | with distinct games, a game on the player's list is its own first match |
| Views.ResubmissionRefused | tournament/views.py:319-320 | once a submission has saved a set, a second submission for the game is refused and changes nothing |

## Left out

- Database persistence, querysets and transactions are not modelled. Stored games are a sequence or array in stored order, and the date/time ordering of the result views is not modelled.
- `get_current_tournament` is not modelled. The tournament record and the participant count are parameters.
- `timezone.now` and `timezone.localdate` are not modelled. The current instant and date are parameters.
- `strftime` weekday names are not modelled. The weekday comes from the day ordinal.
- Models.TournamentClean: the two business-day (`BDay`) checks on the play-off start and end dates are not modelled, because they need a business-day calendar.
- Scheduling.LastGameTime: the `except: pass` path for games without a start time is excluded by the requirement that every dated game has a time, which generate_schedule maintains.
- Scheduling.GetTime: durations are non-negative.
- Scheduling.ScheduleTimes: a day whose last game would start at or after midnight is not claimed back to back, because `get_time` wraps the time of day there and the times no longer form the ladder.
- Pairing.GenerateGames: the round loop has no bound in the source. The model runs at most `fuel` iterations and reports exhaustion.
- Views.DrawSchedule: the draw loop has no bound in the source. The model tries at most `tries` times and reports exhaustion.
- Views.DrawSchedule: `generate_playoff_games` is not part of this model, so the play-off games the draw creates are not modelled.
- `split_games_by_days`, `write_schedule_to_xls` (the spreadsheet export) and `recount_rating` are not part of this model. The standings they compute are an input of `Playoff.Resolve`.
- Playoff.RankedIsSorted: the stability of Python's sort for tied participants is not stated.
- Form validation (`is_valid`, empty second scores) and the status and drawn-number checks at the top of the result views are not modelled. Submitted sets arrive as validated scores.
- HTTP requests, authentication, redirects, templates and URL routing are not modelled.
- Participant records appear as their primary keys in games. `Participant.__eq__`/`__ne__` are key comparison.
- The game-count list computed at the start of `generate_games` is never used, so it is not modelled.
