# Doubles schedule generator — a Dafny model

This project models the core of a small web application that plans badminton or tennis
doubles for a roster of players. The model has four parts:

- **History-based game picker** (`generateGameAssignments` in `src/App.jsx`). It runs twenty
  rounds. Each round tries one hundred random orderings of the roster, takes the first four
  players of each as two teams, and scores the candidate against a partner table and an
  opponent table. It keeps the first candidate with the lowest score, writes that game into
  both tables and appends it, not completed, to the schedule.
- **"Game done" button** (`handleGameDone` in `src/App.jsx`). It stamps the current game as
  completed with a time and moves the cursor on, but never past the last game.
- **Rest-count scheduler** (`generateSchedule` and helpers in `src/utils.js`). It
  Fisher–Yates-shuffles the ids `1..n` in place and takes the first four as a match. It keeps
  the match only while the rest counts are within one of each other, and then updates the
  counts in place.
- **Player statistics** (the `players.map` block of `src/components/PlayerStats.jsx`). It
  counts, per player, the games before the cursor that include them (`gamesPlayed`) and the
  games they sat out (`gamesRested`).

Files and modules:

- `common.dfy` (`Common`): players, games, schedule entries, and the roster predicates
  shared by the other modules.
- `game_history.dfy` (`GameHistory`): the two history tables, as a class with the
  initialisation loops, `scoreGame` and `updateHistory`, together with the specification
  functions and lemmas about them.
- `assignments.dfy` (`Assignments`): the round and attempt loops, specified by the function
  `Run`.
- `cursor.dfy` (`Cursor`): `handleGameDone` on a `Session` object, specified by `GameDone`.
- `rest_schedule.dfy` (`RestSchedule`): `shuffleArray` and `updateRestCounts` on arrays, and
  the `while` loop, specified by `Step` and `Loop`.
- `player_stats.dfy` (`PlayerStats`): the statistics as pure functions, with counting
  lemmas.

Randomness enters as oracles. For the picker, `orders[round][attempt]` is the index
permutation that `[...players].sort(() => Math.random() - 0.5)` produced. For the shuffle,
`choices[pass][i]` is the `j` that `Math.floor(Math.random() * (i + 1))` produced, so
`0 <= j <= i`. The timestamp `new Date().toLocaleString()` is a string parameter.

Where the documented behaviour and the code disagree, the model follows the code:

- The documented four-player scenario expects every player's `gamesPlayed` to reach 20, the
  number of generated games.
- In the code the cursor stops at the last index: `handleGameDone` only advances while
  `currentGameIndex < length - 1`.
- So with four players `gamesPlayed` equals the cursor (`PlayerStats.FourPlayersPlayAll`),
  and the cursor never exceeds 19 (`Cursor.PressesCursor`). The last game is never marked
  completed (`Cursor.LastNeverCompleted`).
- The scenario's even spread of the three possible pairings (7/7/6) depends on the random
  orderings. No property of the code guarantees it, and it is not claimed here.

## Model

| member | source | states |
|---|---|---|
| GameHistory.HistoryTables.constructor | src/App.jsx:15-28 | the nested `players.forEach` loops leave both tables with a zero for every ordered pair of different roster ids |
| GameHistory.InitialEntries | src/App.jsx:18-28 | the initial tables contain the pair `(a, b)` exactly when `a` and `b` are different roster ids, and every entry is 0 |
| GameHistory.PairKeysMember | src/App.jsx:22-26 | a pair is initialised exactly when both ids are on the roster and differ |
| GameHistory.FitsOnRoster | src/App.jsx:35-41 | for a game of four distinct roster players, every entry `scoreGame` reads exists |
| GameHistory.HistoryTables.ScoreGame | src/App.jsx:31-46 | the accumulator loop returns the score of the game against the current tables and changes no table |
| GameHistory.ScoreFormula | src/App.jsx:31-46 | the score is `partner[a][b] + partner[c][d]` plus the four cross entries `opponent[x][y]` for `x` in team 1 and `y` in team 2 |
| GameHistory.RowScoreTwo | src/App.jsx:39-43 | the inner `team2.forEach` adds the opponent entries of one player against both members of team 2 |
| GameHistory.ScoreNonNegative | src/App.jsx:31-46 | against tables of non-negative counts the score is never negative |
| GameHistory.HistoryTables.UpdateHistory | src/App.jsx:49-63 | the four partner `++` statements and the nested opponent loops leave the tables as `Applied` describes |
| GameHistory.Bump | src/App.jsx:51-60 | one `t[a][b]++` raises that entry by one and leaves every other entry alone |
| GameHistory.PartnerSteps | src/App.jsx:51-54 | the four partner statements are the increments of both directions of both team pairs, in order |
| GameHistory.CrossStep | src/App.jsx:57-62 | one pass of the inner opponent loop performs the next two increments, `[p1][p2]` and `[p2][p1]` |
| GameHistory.CrossKeysTwo | src/App.jsx:57-62 | with two teams of two, the opponent loops make eight increments, each cross pair in both directions |
| GameHistory.IncAllAt | src/App.jsx:49-63 | after a list of increments, each entry has grown by the number of times its key occurs in the list |
| GameHistory.Applied | src/App.jsx:49-63 | `updateHistory` adds no key to either table and removes none |
| GameHistory.AppliedEffect | src/App.jsx:49-63 | each entry grows by the number of its increments |
| GameHistory.AppliedTouches | src/App.jsx:51-62 | with four distinct players, exactly the two team pairs and the four cross pairs, in both directions, grow by one; nothing else changes |
| GameHistory.AppliedKeepsSymmetric | src/App.jsx:51-62 | every `[a][b]++` comes with `[b][a]++`, so symmetric tables stay symmetric |
| GameHistory.AppliedKeepsNonNegative | src/App.jsx:49-63 | non-negative tables stay non-negative |
| GameHistory.AppliedTotals | src/App.jsx:49-63 | one update raises the sum of the partner table by 4 and the sum of the opponent table by 8 |
| GameHistory.IncAllTotal | src/App.jsx:49-63 | increments on pairs of distinct roster ids raise the table's sum by their number |
| GameHistory.ReplayInvariant | src/App.jsx:67-103 | after any sequence of chosen games, both tables are symmetric and non-negative |
| GameHistory.ReplayTotals | src/App.jsx:97 | after `k` games the partner table sums to `4k` and the opponent table to `8k` |
| Assignments.Shuffle | src/App.jsx:73 | the sorted copy holds at position `k` the roster entry with index `p[k]` |
| Assignments.Candidate | src/App.jsx:76-87 | `team1` is the first two of the ordering and `team2` the next two |
| Assignments.CandidateOnRoster | src/App.jsx:73-87 | each candidate is four distinct roster players |
| Assignments.Scores | src/App.jsx:72-89 | one score per attempt, in attempt order, each the score of that attempt's candidate |
| Assignments.Kept | src/App.jsx:68-69 | no attempt is kept (`bestGame = null`) exactly when none has run; otherwise the kept attempt is one of those that ran |
| Assignments.KeptStep | src/App.jsx:91-94 | an attempt replaces the kept one exactly when none is kept yet or its score is strictly lower |
| Assignments.KeptFirstMin | src/App.jsx:91-94 | the kept attempt has the minimum score, and none before it has that score: ties keep the earliest |
| Assignments.Pick | src/App.jsx:72-95 | the game a round keeps is four distinct roster players |
| Assignments.PickFirstMinimum | src/App.jsx:72-95 | the game a round keeps is the candidate of the first attempt of minimum score |
| Assignments.Entry | src/App.jsx:98-102 | a pushed entry holds the game, `completed` false and `completedAt` null |
| Assignments.Run | src/App.jsx:67-103 | after `r` rounds the schedule has `r` entries |
| Assignments.RunStep | src/App.jsx:96-102 | round `m` keeps the pick against the tables so far, appends it and writes it into the tables |
| Assignments.RunLast | src/App.jsx:98-102 | round `m` appends one pending entry of four distinct roster players |
| Assignments.RunGrows | src/App.jsx:98-102 | one more round leaves the earlier entries alone |
| Assignments.RunPrefix | src/App.jsx:67-103 | later rounds only append: the first `r` rounds' schedule is a prefix of the first `m` rounds' |
| Assignments.RunOnRoster | src/App.jsx:98-102 | every entry so far is four distinct roster players, not completed, with no completion time |
| Assignments.PendingStep | src/App.jsx:98-102 | one more round keeps every entry pending and on the roster |
| Assignments.RunReplays | src/App.jsx:96-97 | the tables after `r` rounds are the updates of the schedule's games applied in order to the initial tables |
| Assignments.RunTables | src/App.jsx:49-63 | after `r` rounds both tables are symmetric and non-negative and sum to `4r` and `8r` |
| Assignments.InitialReady | src/App.jsx:15-28 | with at least four players and distinct ids, the initial tables can score every candidate |
| Assignments.Generated | src/App.jsx:66-105 | the result has exactly twenty entries |
| Assignments.GeneratedAt | src/App.jsx:96-102 | entry `r` is the pick of round `r` against the tables the first `r` entries wrote |
| Assignments.GeneratedEntries | src/App.jsx:66-105 | each of the twenty entries is pending and on the roster, and is the first minimum-score candidate of its round |
| Assignments.Attempt | src/App.jsx:73-89 | one attempt returns the ordering's candidate teams and their score against the current tables |
| Assignments.BestOfRound | src/App.jsx:68-95 | the hundred attempts, with `bestGame`/`bestScore` updated only on a strictly lower score, return `Pick` and change no table |
| Assignments.PlayRound | src/App.jsx:67-103 | one pass of the rounds loop appends the round's pick and leaves the object's tables equal to those of `Run` |
| Assignments.GenerateGameAssignments | src/App.jsx:8-106 | fewer than four players fail with "Need at least 4 players for doubles"; otherwise the result is the twenty-round schedule `Generated` |
| Cursor.Stamped | src/App.jsx:124-125 | the stamped entry keeps its game and has `completed` true and the time filled in |
| Cursor.GameDone | src/App.jsx:121-129 | before the last game: the current entry is stamped, the cursor moves on by one, and every other entry and the length are unchanged; at or after the last game nothing changes |
| Cursor.Session.constructor | src/App.jsx:114-119 | a new schedule starts with the cursor at 0 |
| Cursor.Session.HandleGameDone | src/App.jsx:121-129 | the object's schedule and cursor change exactly as `GameDone` says |
| Cursor.ConsistentStart | src/App.jsx:117-118 | the freshly set schedule with cursor 0 is consistent with itself |
| Cursor.GameDoneConsistent | src/App.jsx:121-129 | a press keeps the games and the length, keeps the cursor within `0 .. length - 1`, keeps every entry before the cursor stamped, and leaves every entry from the cursor on untouched |
| Cursor.PressesConsistent | src/App.jsx:121-129 | any number of presses from the start keeps that consistency |
| Cursor.PressesCursor | src/App.jsx:122-127 | after `k` presses the cursor is `k`, or the last index once it has got there |
| Cursor.LastNeverCompleted | src/App.jsx:122 | on a freshly generated schedule the last game is never marked completed, however often the button is pressed |
| RestSchedule.Swap | src/utils.js:34 | the swap keeps the length and rearranges the entries |
| RestSchedule.SwapAt | src/utils.js:34 | the two cells trade places and no other cell changes |
| RestSchedule.SwapDistinct | src/utils.js:34 | a swap keeps the entries distinct |
| RestSchedule.Partial | src/utils.js:31-36 | the passes from the last cell down to `i + 1` keep the length |
| RestSchedule.PartialPermutes | src/utils.js:31-36 | those passes only rearrange the entries and keep them distinct |
| RestSchedule.PartialStep | src/utils.js:32-35 | the swap at `i` takes the array from the state at `i` to the state at `i - 1` |
| RestSchedule.Shuffled | src/utils.js:31-36 | the shuffled array is a rearrangement of the input with distinct entries kept distinct |
| RestSchedule.ShuffleArray | src/utils.js:31-36 | the in-place loop leaves the array as `Shuffled` of its old contents and the oracle |
| RestSchedule.IdentityKeeps | src/utils.js:31-36 | with `j == i` in every pass, the shuffle leaves the players where they are |
| RestSchedule.MaxOf | src/utils.js:40 | `Math.max(...s)` is at least every entry and is one of them |
| RestSchedule.MinOf | src/utils.js:41 | `Math.min(...s)` is at most every entry and is one of them |
| RestSchedule.FairRestSpec | src/utils.js:39-43 | `hasFairRest` is true exactly when no two rest counts are more than 1 apart; it ignores the teams and is true on an empty array |
| RestSchedule.FairWithin | src/utils.js:39-43 | counts within `lo .. lo + 1` pass the check |
| RestSchedule.Reset | src/utils.js:47-49 | the first loop zeroes the counts of the match players and leaves the rest alone |
| RestSchedule.Rested | src/utils.js:46-55 | a match player's count becomes 0 and every other count goes up by 1 |
| RestSchedule.UpdateRestCounts | src/utils.js:46-55 | the two in-place loops leave the array as `Rested` of its old contents |
| RestSchedule.Range | src/utils.js:3 | the players start as `1, 2, .., n` |
| RestSchedule.Zeros | src/utils.js:7 | the rest counts start as `n` zeros |
| RestSchedule.StartGood | src/utils.js:3-7 | the start state is an arrangement of `1..n` with one count per player and no matches |
| RestSchedule.ArrangementInRange | src/utils.js:3 | every entry of an arrangement of `1..n` lies in `1..n` |
| RestSchedule.ShuffledGood | src/utils.js:12 | after a shuffle the players are still an arrangement of `1..n` |
| RestSchedule.FirstFour | src/utils.js:15-16 | `team1` is the first two players and `team2` the next two |
| RestSchedule.FirstFourOk | src/utils.js:15-16 | for `n >= 4` the first four make a match of four distinct ids of `1..n` |
| RestSchedule.Step | src/utils.js:11-24 | one pass shuffles; if the counts before it are fair, it appends the first four and updates the counts; otherwise schedule and counts are unchanged |
| RestSchedule.Loop | src/utils.js:10-25 | the schedule only grows and never exceeds `n` matches; the loop has exited exactly when it holds `n` matches |
| RestSchedule.Pass | src/utils.js:11-24 | the loop body on the two arrays does what `Step` says |
| RestSchedule.GenerateSchedule | src/utils.js:1-28 | the returned schedule and exit flag are those of `Loop` from the start state |
| RestSchedule.StuckForever | src/utils.js:10-25 | once the counts are unfair, no later pass changes the schedule or the counts, so the loop never exits |
| RestSchedule.AllPlay | src/utils.js:46-55 | with four players the match is everybody, so all counts stay 0 |
| RestSchedule.FourPlayersStep | src/utils.js:12-24 | with four players every pass appends its match and the counts stay all zero |
| RestSchedule.FourPlayersExit | src/utils.js:10-25 | with four players the loop exits after exactly four passes with four matches |
| RestSchedule.PartialIdentity | src/utils.js:31-36 | the shuffle with `j == i` in every pass changes nothing |
| RestSchedule.FifthRests | src/utils.js:46-55 | with match 1,2 against 3,4, player 5's count goes up and the others become 0 |
| RestSchedule.FivePlayersPass | src/utils.js:12-24 | five players in order with counts `[0,0,0,0,k]`, `k <= 1`: the match 1,2 against 3,4 is kept and player 5's count rises |
| RestSchedule.FiveLoopStep | src/utils.js:10-24 | that pass inside the loop appends the match and continues with the updated state |
| RestSchedule.FiveTwoPasses | src/utils.js:10-24 | two such passes leave two matches and counts `[0,0,0,0,2]` |
| RestSchedule.FivePlayersStuck | src/utils.js:10-25 | five players and shuffles that move nobody: after two matches the counts spread to 2 and the loop never exits |
| PlayerStats.GamesPlayed | src/components/PlayerStats.jsx:7-12 | the count is at most the number of games and at most the cursor |
| PlayerStats.GamesPlayedCounts | src/components/PlayerStats.jsx:7-12 | the count is the number of schedule positions before the cursor whose game has the player on either team, each game once |
| PlayerStats.Stats | src/components/PlayerStats.jsx:6-22 | one record per player, in roster order, with id and name copied; `gamesPlayed` is that count, at most the number of games; `gamesPlayed + gamesRested == cursor`; `gamesRested >= 0` |
| PlayerStats.PlayedStep | src/components/PlayerStats.jsx:7-12 | moving the cursor past entry `c` raises the count by 1 exactly when that game has the player |
| PlayerStats.StatsStep | src/components/PlayerStats.jsx:7-14 | after one more game, a player of it has one more game played and the same rested; every other player has one more rested and the same played |
| PlayerStats.InvolvesIds | src/components/PlayerStats.jsx:10-11 | for two teams of two, `some(p => p.id === id)` on either team means the id is one of the game's four |
| PlayerStats.HitsFour | src/components/PlayerStats.jsx:10-11 | a game of four distinct roster ids has exactly four of the players |
| PlayerStats.PlayedAllStep | src/components/PlayerStats.jsx:7-12 | one more game adds, summed over the roster, one per player it has |
| PlayerStats.TotalIsPlayed | src/components/PlayerStats.jsx:16-21 | the `gamesPlayed` column sums to the per-player counts |
| PlayerStats.TotalPlayedFour | src/components/PlayerStats.jsx:7-12 | when every game before the cursor is four distinct roster players, the `gamesPlayed` column sums to four times the cursor |
| PlayerStats.FourPlayersPlayAll | src/components/PlayerStats.jsx:7-14 | with exactly four players, each has played every game before the cursor and rested in none |

## Left out

- React state and rendering are not modelled: `useState`, the JSX, the CSS imports,
  `src/components/GameSchedule.jsx` (display only) and the form plumbing of
  `src/components/PlayerInput.jsx`. The roster that form builds (ids `1..n`, distinct, at
  src/components/PlayerInput.jsx:21-24) enters as the precondition `DistinctIds`.
- React batches `setGameSchedule` and `setCurrentGameIndex`. `Cursor.Session.HandleGameDone`
  applies both updates at once, which is the state after the re-render.
- `handleGameDone` copies the array shallowly and then writes `completed`/`completedAt` into
  the entry objects it shares with the old array. The model treats entries as values, so it
  does not capture that aliasing.
- The error path of `generateSchedule` in `App` is not modelled. There a roster below four
  makes `generateGameAssignments` throw after `setPlayers` has already run.
  `Assignments.GenerateGameAssignments` returns that error as a `Failure`.
- Randomness is not modelled; the random orderings and swap indices are oracle
  parameters. The picker's orderings are index permutations; any comparator behaviour is
  covered only through them.
- `bestScore = Infinity` is modelled as `None`.
- The timestamp `new Date().toLocaleString()` is a string parameter.
- The phantom-player branch (src/App.jsx:79-84) is omitted. It needs fewer than four
  players, which the guard at line 10 has already rejected.
- The per-row reset `partnerHistory[player.id] = {}` (src/App.jsx:19-20) is not modelled
  separately. All values written are 0, so the resulting tables are the same.
- A history entry missing from a table would turn into `NaN` in JavaScript. `Inc` leaves such
  an entry alone. Every use in the model is on an entry that exists (`FitsOnRoster`).
- RestSchedule.GenerateSchedule: the JavaScript `while` loop may run forever. The model
  runs one pass per oracle entry and reports whether the loop condition became false
  before the oracle ran out (`exited`). `StuckForever` shows the loop can hang.
- RestSchedule.GenerateSchedule: requires `numPlayers == 0` or at least 4. With one to
  three players, `players[2]`/`players[3]` are `undefined`, and `updateRestCounts` writes to
  the non-index key `NaN`. That JavaScript behaviour is not modelled.
- RestSchedule.UpdateRestCounts: requires every match id to lie in `1..restCounts.length`.
  An out-of-range id would add a property to the JavaScript array; that is not modelled.
- RestSchedule.HasFairRest carries no contract of its own. Its meaning is stated by
  `FairRestSpec`.
- Some loop bodies are split into helper methods (`Assignments.Attempt`,
  `Assignments.BestOfRound`, `Assignments.PlayRound`, `RestSchedule.Pass`). They do the
  source's statements in the source's order.
- Nothing in the shown sources does weighted scoring, pre-enumerated pairs, a tally of games
  per player inside the generator, undo, a fairness warning or persistence, so the model
  has none of them.
