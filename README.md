# CTG — a Dafny model of the weekly puzzle competition

CTG runs a weekly competition. Every Monday between 08:00 and 15:00 Central
time, each registered player gets one Connections puzzle and one 5×5
crossword. One clock runs from the first puzzle opened until both are done.

- **Connections**: sixteen words to sort into four groups of four, with at most
  four mistakes.
- **Crossword**: a grid whose letter cells are to be filled in.
- **Leaderboard**: opens at 17:00 and ranks the finished, unfailed sessions by
  total time.
- **Archive**: an administrator archives the week's board, and the next week
  starts from empty tables.

This project models the parts of CTG that decide the game:

- **`GameService`**: the server's session engine. It covers starting a puzzle,
  judging a Connections guess, checking a crossword, giving up, and stopping the
  clock. A `game_sessions` row is a class whose methods update its fields.
- **`GameRoutes`**: the guards and payload checks of the game routes
  (register, start-puzzle, guess, reorder, submit, give-up), written over the
  engine.
- **`GameStore`**: the browser's store. A class holds the store's fields; each
  action updates them from the server's answer, which it takes as a parameter.
- **`Leaderboard`** and **`ArchiveService`**: the two leaderboard queries, and
  archiving with its tables (a class).
- **`AdminValidation`**: the server's validators for the Connections and
  crossword payloads an administrator uploads.
- **`AdminConnections`** and **`AdminCrossword`**: the administrator's puzzle
  builders. These are the draft edits, the entry detection and numbering of the
  crossword builder, and both pages' client-side `validate`.
- **`CrosswordGrid`**: the play grid. It gives each cell's clue numbers, the
  clues a cell belongs to, highlighting, clicks and cursor movement.
- **`Schedule`**: the weekly calendar of the schedule service, plus the
  dashboard's next-Monday computation.
- **`TimeDisplay`**: the timer, the countdown, and the archive page's time
  format.
- **`Shuffle`**: the Fisher–Yates shuffle used by the server and the client.

Supporting modules:

- `Wrappers` provides `Option` and `Result`.
- `Puzzle` holds the shared types and constants of
  `packages/shared/src/constants.ts`.
- `Json` gives a value model of request bodies, with `String(...)` and
  `Number(...)` as JavaScript computes them on these values.
- `Text` models `trim`, `toUpperCase`, `padStart` and a string's `length` in
  UTF-16 code units.
- `StringOrder` models `Array.prototype.sort` on strings.

Every entry point takes the world as parameters. The clock is an integer
number of milliseconds; the Central-time wall clock is a record of its
fields. Random draws are a sequence of integers, the database is the current
rows, and the server's answer to a client request is a value.

## Model

| member | source | states |
|---|---|---|
| GameService.Elapsed | apps/server/src/services/gameService.ts:153-156 | the stored total exists exactly when a start time does, and start plus total is the stop time |
| GameService.CompleteStampsOnce | apps/server/src/services/gameService.ts:261-272 | `completeGame` stamps only a row without `completed_at`, and a second call changes nothing |
| GameService.StartIdempotent | apps/server/src/services/gameService.ts:62-80 | once a session has started, starting again (either puzzle, any time) leaves the row unchanged |
| GameService.UpperAll | apps/server/src/services/gameService.ts:101 | each guessed word upper-cased, same length and order |
| GameService.Titles | apps/server/src/services/gameService.ts:105 | the set of solved labels is exactly the labels of the solved groups |
| GameService.MatchesIsSortedComparison | apps/server/src/services/gameService.ts:107-111 | comparing the sorted upper-cased lists is the same as comparing the guessed and group words as multisets, up to case |
| GameService.FindMatch | apps/server/src/services/gameService.ts:107-111 | the index found is the first unsolved group whose words match; none exists when nothing is found |
| GameService.FindMatchIgnoresOrderAndCase | apps/server/src/services/gameService.ts:100-111 | two guesses with the same words up to case and order find the same group |
| GameService.GuessWhenOver | apps/server/src/services/gameService.ts:96-98 | a completed or failed Connections ignores the guess and reports its state unchanged |
| GameService.GuessCorrectIff | apps/server/src/services/gameService.ts:96-138 | a guess is correct exactly when the puzzle is open and some unsolved group holds the same words up to case and order |
| GameService.GuessIgnoresOrderAndCase | apps/server/src/services/gameService.ts:100-113 | permuting or re-casing a guess gives the same outcome |
| GameService.GuessMatchEffect | apps/server/src/services/gameService.ts:113-137 | a correct guess appends exactly the matched group and keeps the mistakes; Connections completes exactly at four solved groups; when that finishes the game with the crossword already solved and no stamp yet, the clock stops now (`completeGame`), otherwise the stamp and total stay; the crossword fields do not change |
| GameService.GuessMissEffect | apps/server/src/services/gameService.ts:140-166 | a wrong guess adds one mistake; the fourth fails the puzzle and the session and re-stamps the clock even when a stamp exists |
| GameService.GuessMonotone | apps/server/src/services/gameService.ts:140-143 | mistakes never decrease, the old solved groups stay a prefix of the new ones, and at most four mistakes with `failed` exactly at four is kept |
| GameService.ResubmitSolvedIsMiss | apps/server/src/services/gameService.ts:105-111 | guessing a solved group's words again counts as a mistake when no other group has those words |
| GameService.GuardedGuessKeepsStamp | apps/server/src/services/gameService.ts:148-158 | with the guard, a stamped row keeps its `completed_at` and `total_time_ms` |
| GameService.GuardedGuessAgrees | apps/server/src/services/gameService.ts:148-158 | the guard changes nothing on an unstamped row, and only the stamp on a stamped one |
| GameService.RowWrongFacts | apps/server/src/services/gameService.ts:179-186 | one row's scan lists exactly that row's wrong cells before column `c`, left to right |
| GameService.RowsWrongFacts | apps/server/src/services/gameService.ts:178-187 | the scan of the first `r` rows lists exactly their wrong cells, in row-major order |
| GameService.StringCellsReadable | apps/server/src/services/gameService.ts:181 | a grid of the declared type, rows of strings or `null`, is read without throwing |
| GameService.WrongCellsExactly | apps/server/src/services/gameService.ts:171-190 | the wrong cells are exactly the letter cells whose upper-cased entry differs from the answer, in row-major order |
| GameService.NoWrongCellsIff | apps/server/src/services/gameService.ts:189 | a grid is correct exactly when every letter cell holds its answer, ignoring case |
| GameService.CheckCrossword | apps/server/src/services/gameService.ts:171-190 | the loop throws exactly when a letter cell's entry is neither missing, `null` nor a string; otherwise it returns exactly the wrong cells, and `correct` exactly when there are none |
| GameService.SubmitEffect | apps/server/src/services/gameService.ts:192-244 | on any row: a grid whose cells cannot be read changes nothing and fails; a wrong grid only records the grid; a right one completes the crossword; the clock stops exactly when the grid is right, Connections is complete, nothing failed and no stamp exists; a stamped but unfailed row throws after the writes; a row stamped by failure is graded with its stamp, total and `failed` kept |
| GameService.GiveUpEffect | apps/server/src/services/gameService.ts:246-259 | give-up marks the crossword not completed and failed, fails the session and stamps the clock whatever was stamped before |
| GameService.SessionRow.constructor | apps/server/src/services/gameService.ts:45-51 | a fresh row holds the column defaults |
| GameService.SessionRow.StartPuzzle | apps/server/src/services/gameService.ts:62-80 | the new row is `Started` of the old one, and it is returned |
| GameService.SessionRow.ProcessConnectionsGuess | apps/server/src/services/gameService.ts:89-167 | the new row and the reply are the guess step's outcome on the old row |
| GameService.SessionRow.SubmitCrossword | apps/server/src/services/gameService.ts:192-244 | the new row and the reply are the submission step's outcome on the old row |
| GameService.SessionRow.GiveUpCrossword | apps/server/src/services/gameService.ts:246-259 | the new row is the give-up step of the old one |
| GameService.SessionRow.CompleteGame | apps/server/src/services/gameService.ts:261-272 | the row is stamped only when unstamped, and the updated row is returned only then |
| GameService.GetOrCreateSession | apps/server/src/services/gameService.ts:37-52 | an existing row is returned as it is; otherwise a fresh row with the defaults |
| GameRoutes.GetPuzzleData | apps/server/src/routes/game.ts:38-47 | puzzle data exists exactly when both halves of the current puzzle are set, and it carries them |
| GameRoutes.RegisterAcceptsIff | apps/server/src/routes/game.ts:54-89 | a registration succeeds exactly when all three fields are present and non-empty, none exceeds 50, the city is a state, the game is open and the handle is new |
| GameRoutes.RegisteredFieldsBounded | apps/server/src/routes/game.ts:54-69 | an accepted city is a state of 1 to 50 UTF-16 code units; string names and handles have 1 to 50 code units |
| GameRoutes.ObjectLengthRefused | apps/server/src/routes/game.ts:60-63 | a name given as an object whose `length` field exceeds 50 is refused as too long |
| GameRoutes.RegisterValidatesFirst | apps/server/src/routes/game.ts:54-83 | a malformed request is refused with 400 whatever the lock setting or the player table |
| GameRoutes.InitialConsistent | apps/server/src/services/gameService.ts:45-51 | a fresh session satisfies the consistency invariant the routes keep |
| GameRoutes.GuessWords | apps/server/src/routes/game.ts:244-253 | accepted words are exactly an array of four strings of at most 100 UTF-16 code units, taken in order; anything else is a 400 |
| GameRoutes.UnsolvedWordsExactly | apps/server/src/routes/game.ts:164-174 | a word is unsolved exactly when it is a puzzle word that no solved group holds, up to case |
| GameRoutes.CoversIff | apps/server/src/routes/game.ts:182-185 | the stored-order test holds exactly when both lists have the same length and the same words up to case (also lines 317-321) |
| GameRoutes.WordsForPlayerAreUnsolved | apps/server/src/routes/game.ts:176-196 | the player is shown exactly the unsolved words up to case; a new order is a permutation of them |
| GameRoutes.ParsePuzzleType | apps/server/src/routes/game.ts:131-136 | only the strings `connections` and `crossword` give a puzzle type |
| GameRoutes.PublicClues | apps/server/src/routes/game.ts:213-228 | each clue is sent with its number, text, cell and direction, in order, without its answer |
| GameRoutes.MaskGridRevealsNothing | apps/server/src/routes/game.ts:206-208 | the masked grid keeps the shape and the black cells and holds no letter |
| GameRoutes.StartKeepsConsistent | apps/server/src/routes/game.ts:148-154 | starting keeps the session consistent and sets the start time at most once |
| GameRoutes.DonePuzzleDoesNotStartClock | apps/server/src/routes/game.ts:148-154 | opening a finished puzzle on an unstarted session does not start the clock |
| GameRoutes.HandleStartPuzzle | apps/server/src/routes/game.ts:129-237 | the start route checks the type, then the puzzle, then creates or starts the row and builds the view; the order saved is the shuffle shown |
| GameRoutes.GuessRouteAccepts | apps/server/src/routes/game.ts:240-274 | a guess reaches the engine exactly when body, puzzle and session allow it; a refused guess leaves the session as it was |
| GameRoutes.GuessKeepsConsistent | apps/server/src/routes/game.ts:261-274 | the guess route keeps a consistent session consistent |
| GameRoutes.HandleGuess | apps/server/src/routes/game.ts:240-279 | the handler's reply and new row are the guess route's outcome on the old row |
| GameRoutes.ReorderAcceptedIff | apps/server/src/routes/game.ts:282-327 | an accepted order is exactly one with the unsolved words, up to case, at the same length |
| GameRoutes.SubmitNeverFails | apps/server/src/routes/game.ts:335-370 | on a consistent session, submission never reaches the read of a missing row (gameService.ts lines 229-236): its only 500 is a letter cell that cannot be read, which leaves the session unchanged; the session stays consistent |
| GameRoutes.DeclaredGridNeverFails | apps/server/src/routes/game.ts:335-367 | a grid of rows of strings or `null` never gets a 500 |
| GameRoutes.StringRowGraded | apps/server/src/services/gameService.ts:181 | a row sent as a string is read letter by letter and can be graded correct |
| GameRoutes.NumberCellThrows | apps/server/src/routes/game.ts:335-370 | a number in a letter cell makes the read throw: the reply is 500 and the session is unchanged |
| GameRoutes.HandleSubmit | apps/server/src/routes/game.ts:335-372 | for any JSON body, the handler's reply and new row are the submit route's outcome on the old row |
| GameRoutes.GiveUpKeepsConsistent | apps/server/src/routes/game.ts:375-392 | give-up is accepted exactly on a started, unfinished session and keeps it consistent |
| GameRoutes.GiveUpAfterSolvingCrossword | apps/server/src/routes/game.ts:383-388 | a solved crossword can still be given up before Connections ends, which un-completes it and fails the session |
| GameRoutes.HandleGiveUp | apps/server/src/routes/game.ts:375-397 | the handler's reply and new row are the give-up route's outcome on the old row |
| GameRoutes.SampleMiss | apps/server/src/routes/game.ts:240-274 | a concrete wrong guess passes the guards and costs one mistake |
| GameRoutes.FailureStampOverwritten | apps/server/src/services/gameService.ts:148-158 | as written: a give-up at 100 ms followed by four misses moves the stop time to 500 ms |
| GameRoutes.GuardedStampSurvives | apps/server/src/services/gameService.ts:148-158 | with the guard, the failing guess leaves an earlier stop time in place |
| GameStore.Without | apps/web/src/stores/gameStore.ts:218-220 | the filtered list holds exactly the other words, in order |
| GameStore.WithoutKeepsDistinct | apps/web/src/stores/gameStore.ts:218-220 | filtering a list of distinct words keeps it distinct and removes the word |
| GameStore.WithoutAbsent | apps/web/src/stores/gameStore.ts:218-220 | filtering out a word that is absent changes nothing |
| GameStore.WithoutAppend | apps/web/src/stores/gameStore.ts:211-220 | filtering out a word just appended to a list without it gives the list back |
| GameStore.SelectEffect | apps/web/src/stores/gameStore.ts:211-216 | a word is appended exactly when fewer than four are chosen and it is new; otherwise nothing changes; the selection stays at most four distinct words |
| GameStore.DeselectEffect | apps/web/src/stores/gameStore.ts:218-220 | deselecting removes the word, keeps every other selected word and keeps the selection well formed |
| GameStore.DeselectUndoesSelect | apps/web/src/stores/gameStore.ts:211-220 | deselecting a word just selected restores the selection |
| GameStore.GuessKeyIgnoresOrderAndCase | apps/web/src/stores/gameStore.ts:245 | the same words in any order and case give the same key |
| GameStore.GuessRefusedLocally | apps/web/src/stores/gameStore.ts:240-248 | without four selected words, or with a key already tried, nothing is sent and nothing changes; a repeat is reported as a duplicate |
| GameStore.GuessRepeatIsDuplicate | apps/web/src/stores/gameStore.ts:245-254 | after an answered guess, the same words in another order or case are refused as a duplicate |
| GameStore.CorrectGuessEffect | apps/web/src/stores/gameStore.ts:256-271 | a correct answer appends the group, drops exactly its words up to case, clears the selection, and completes exactly at four groups |
| GameStore.WrongGuessEffect | apps/web/src/stores/gameStore.ts:274-281 | a wrong answer takes the server's mistakes and failed flag and clears the selection |
| GameStore.FailedRequestEffect | apps/web/src/stores/gameStore.ts:282-285 | a failed request records only its message and does not remember the guess |
| GameStore.UpdateCellEffect | apps/web/src/stores/gameStore.ts:288-297 | only the chosen cell changes, to the upper-cased value, and only when it is neither cemented nor black |
| GameStore.SubmitCrosswordEffect | apps/web/src/stores/gameStore.ts:299-331 | after any answer no cell is cemented, no attempt count is known and the grid stays; a correct answer completes the crossword, clears the wrong marks, stops the clock at the client's time when the reply says `completed` and otherwise keeps the earlier stop time, and takes the reply's total when it has one and the earlier total otherwise (`??`); a wrong answer takes the wrong cells, clears the failed flag and keeps the timing; a failed request records only its message and resolves to not correct, not completed |
| GameStore.GiveUpEffect | apps/web/src/stores/gameStore.ts:334-345 | an accepted give-up sets only the failed flag on the board, keeps the start time, stops the timer at the client's clock and takes the server's total exactly when it is non-zero (`\|\| null`); a failed request records only its message and changes nothing else |
| GameStore.ResetRestoresInitial | apps/web/src/stores/gameStore.ts:347-374 | reset gives the initial store without the token, keeping the puzzle date |
| GameStore.InitialStoreOk | apps/web/src/stores/gameStore.ts:76-105 | the initial store satisfies the store invariant |
| GameStore.ConnectionsActionsKeepStoreOk | apps/web/src/stores/gameStore.ts:211-286 | every Connections action keeps the store invariant |
| GameStore.CrosswordActionsKeepStoreOk | apps/web/src/stores/gameStore.ts:288-345 | every crossword action keeps the store invariant |
| GameStore.EditAlwaysLands | apps/web/src/stores/gameStore.ts:288-297 | with nothing cemented, an edit of an existing letter cell always takes effect |
| GameStore.Store.constructor | apps/web/src/stores/gameStore.ts:76-105 | the fields hold the initial store |
| GameStore.Store.SelectWord | apps/web/src/stores/gameStore.ts:211-216 | the new store is the select step of the old one |
| GameStore.Store.DeselectWord | apps/web/src/stores/gameStore.ts:218-220 | the new store is the deselect step of the old one |
| GameStore.Store.ClearSelection | apps/web/src/stores/gameStore.ts:222-224 | the selection is emptied and nothing else changes |
| GameStore.Store.ShuffleConnectionsWords | apps/web/src/stores/gameStore.ts:226-236 | the words become the Fisher–Yates shuffle of the old words for the given draws, a permutation of them |
| GameStore.Store.SubmitConnectionsGuess | apps/web/src/stores/gameStore.ts:238-286 | the new store and the result are the guess action's outcome on the old store |
| GameStore.Store.UpdateCrosswordCell | apps/web/src/stores/gameStore.ts:288-297 | the new store is the cell-update step of the old one |
| GameStore.Store.SubmitCrossword | apps/web/src/stores/gameStore.ts:299-332 | the new store and the result are the submit action's outcome on the old store |
| GameStore.Store.GiveUpCrossword | apps/web/src/stores/gameStore.ts:334-345 | the new store is the give-up action's outcome on the old store |
| GameStore.Store.ResetGame | apps/web/src/stores/gameStore.ts:347-374 | the new store is the reset of the old one |
| GameStore.KeysCoincide | apps/web/src/stores/gameStore.ts:245 | two concrete guesses give the same joined key |
| GameStore.GuessesDiffer | apps/web/src/stores/gameStore.ts:245 | the same two guesses hold different words, even up to order and case |
| GameStore.GuessKeyCollides | apps/web/src/stores/gameStore.ts:245-248 | as written: after one of the two guesses, the other is refused as a duplicate and never sent |
| GameStore.GuessWordsKeyExact | apps/web/src/stores/gameStore.ts:245 | the corrected key: two guesses share it exactly when they hold the same words up to order and case |
| Leaderboard.Kept | apps/server/src/routes/leaderboard.ts:13-17 | the positions of the sessions that join a known player and pass the WHERE clause: each once, in increasing order, and no other |
| Leaderboard.CandidatesUpTo | apps/server/src/routes/leaderboard.ts:9-17 | the join over a prefix of the sessions has one row per kept position, the i-th row made from the i-th kept session |
| Leaderboard.Candidates | apps/server/src/routes/leaderboard.ts:9-17 | the join has one row for each qualifying session of a known player, in the sessions' order (the archive query is at archiveService.ts lines 42-52) |
| Leaderboard.CandidatesIff | apps/server/src/routes/leaderboard.ts:9-17 | a row is a candidate exactly when it is the row of some qualifying session of a known player |
| Leaderboard.InsertByTime | apps/server/src/routes/leaderboard.ts:18 | inserting into a list ordered by time keeps it ordered and adds exactly that row |
| Leaderboard.SortByTime | apps/server/src/routes/leaderboard.ts:18 | `ORDER BY total_time_ms ASC` gives an ordered permutation of the rows |
| Leaderboard.Ranked | apps/server/src/routes/leaderboard.ts:21-27 | the i-th line has rank i + 1 and carries the i-th row's fields |
| Leaderboard.BoardIsRankedCandidates | apps/server/src/routes/leaderboard.ts:9-27 | the board has one line per kept session, and its rows are as a multiset one row per kept session; ranked 1, 2, …, by time |
| Leaderboard.BoardRanked | apps/server/src/routes/leaderboard.ts:18-27 | the ranks count from 1 and the times never decrease down the board |
| Leaderboard.BoardEntriesQualify | apps/server/src/routes/leaderboard.ts:10-17 | each line comes from a qualifying session of a known player |
| Leaderboard.FailedNeverListed | apps/server/src/routes/leaderboard.ts:15 | a failed session appears on neither board |
| Leaderboard.ArchivedLinesTimed | apps/server/src/services/archiveService.ts:42-52 | every line of the archived board has a time |
| Leaderboard.ArchivedBoardOrdered | apps/server/src/services/archiveService.ts:42-62 | the archived board is ranked from 1, fastest first, each line timed |
| Leaderboard.BoardsAgree | apps/server/src/routes/leaderboard.ts:14-17 | on consistent sessions the live and the archive queries (archiveService.ts lines 50-52) select the same sessions, all with a time |
| ArchiveService.ArchiveOf | apps/server/src/services/archiveService.ts:29-69 | archiving fails, with the incomplete-puzzle message, exactly when a half of the puzzle is missing |
| ArchiveService.ArchivedBoardRanked | apps/server/src/services/archiveService.ts:42-62 | the archived board is ranked from 1, fastest first, each line with a time |
| ArchiveService.Summaries | apps/server/src/services/archiveService.ts:94-111 | archives are listed newest first, one summary each |
| ArchiveService.FindArchive | apps/server/src/services/archiveService.ts:113-128 | the archive found has the id asked for; none is found only when no archive has it |
| ArchiveService.Database.ArchiveCurrentGame | apps/server/src/services/archiveService.ts:20-92 | on success the archive is appended and sessions, players and current puzzle are cleared; on failure nothing changes |
| ArchiveService.ArchiveTwiceFails | apps/server/src/services/archiveService.ts:34-36 | a second archive straight after a successful one fails, because the puzzle is cleared |
| ArchiveService.NewestFirst | apps/server/src/services/archiveService.ts:94-111 | a new archive heads the list and the rest is the old list |
| AdminValidation.CleanWords | apps/server/src/routes/admin.ts:94-100 | accepted words are each trimmed and upper-cased, 1 to 40 UTF-16 code units, in order; an error names the group |
| AdminValidation.Collect | apps/server/src/routes/admin.ts:80-113 | `map` with a throwing callback succeeds exactly when every element does, giving their values in order |
| AdminValidation.CollectFirstError | apps/server/src/routes/admin.ts:80-113 | the error thrown is that of the first failing element |
| AdminValidation.FirstRepeatFromNone | apps/server/src/routes/admin.ts:115-123 | no repeat is found exactly when the words are distinct and none was seen before |
| AdminValidation.FindDuplicateWord | apps/server/src/routes/admin.ts:115-123 | the loop with its `seen` set finds exactly the first repeated word |
| AdminValidation.ValidateConnectionsData | apps/server/src/routes/admin.ts:75-126 | the validator's result is the functional `ConnectionsData` |
| AdminValidation.AcceptedConnections | apps/server/src/routes/admin.ts:75-126 | an accepted payload has four groups of four cleaned words, trimmed labels and colours within limits, difficulties 1 to 4, and no word twice |
| AdminValidation.RepeatRejected | apps/server/src/routes/admin.ts:115-123 | cleaned groups with a repeated word are rejected with the duplicate error |
| AdminValidation.ConnectionsOfClean | apps/server/src/routes/admin.ts:75-126 | four clean groups with distinct words are accepted unchanged |
| AdminValidation.ConnectionsRoundTrip | apps/server/src/routes/admin.ts:75-126 | validating the validator's own output gives it back |
| AdminValidation.CleanCell | apps/server/src/routes/admin.ts:140-147 | `null` stays black, anything else must clean to one capital letter; errors name the cell |
| AdminValidation.CleanCells | apps/server/src/routes/admin.ts:140-147 | an accepted row has one cleaned cell per input cell |
| AdminValidation.CleanRows | apps/server/src/routes/admin.ts:136-148 | accepted rows all had five columns and are cleaned cell by cell |
| AdminValidation.CleanAnswer | apps/server/src/routes/admin.ts:185-191 | a string answer must clean to 1 to 5 capitals; a non-string is dropped |
| AdminValidation.CleanRowsShape | apps/server/src/routes/admin.ts:132-148 | an accepted grid is 5 by 5, each cell black or one capital |
| AdminValidation.CleanCluesAreClean | apps/server/src/routes/admin.ts:154-197 | every accepted clue has a positive number, on-grid coordinates, trimmed text of 1 to 200 UTF-16 code units, its list's direction and a valid answer |
| AdminValidation.AcceptedCrossword | apps/server/src/routes/admin.ts:128-207 | an accepted crossword has size 5, a clean 5×5 grid, at least one clue and all clues cleaned in their lists |
| AdminConnections.InitialShaped | apps/web/src/pages/admin/AdminConnectionsPage.tsx:28-33 | the initial draft is four empty groups of difficulty 1 to 4 in the page's shape |
| AdminConnections.UpdateLabel | apps/web/src/pages/admin/AdminConnectionsPage.tsx:52-57 | only the chosen group's label changes |
| AdminConnections.UpdateWord | apps/web/src/pages/admin/AdminConnectionsPage.tsx:59-66 | only the chosen word changes, to the upper-cased value |
| AdminConnections.EditsKeepShape | apps/web/src/pages/admin/AdminConnectionsPage.tsx:52-66 | both edits keep four groups of four words |
| AdminConnections.Validate | apps/web/src/pages/admin/AdminConnectionsPage.tsx:68-86 | the loops return exactly `DraftCheck`, the first blank label or word, else the first duplicate |
| AdminConnections.FirstBlankWordNone | apps/web/src/pages/admin/AdminConnectionsPage.tsx:69-74 | no blank is found exactly when all remaining labels and words are filled |
| AdminConnections.NeverNotSixteen | apps/web/src/pages/admin/AdminConnectionsPage.tsx:84 | a draft in the page's shape never gets the "Need exactly 16 words" error |
| AdminConnections.ValidateAcceptsIff | apps/web/src/pages/admin/AdminConnectionsPage.tsx:68-86 | a draft passes exactly when no label or word is blank and the normalised words are distinct |
| AdminConnections.SpacingAndCaseDuplicate | apps/web/src/pages/admin/AdminConnectionsPage.tsx:76-82 | two words differing only in case or surrounding space are reported as duplicates |
| AdminConnections.PayloadWords | apps/web/src/pages/admin/AdminConnectionsPage.tsx:99-106 | the saved payload's words are exactly the words `validate` checked |
| AdminConnections.SavedGroupClean | apps/web/src/pages/admin/AdminConnectionsPage.tsx:99-106 | a saved group of a filled draft within the server's limits is left unchanged by the server |
| AdminConnections.SavedDraftAccepted | apps/web/src/pages/admin/AdminConnectionsPage.tsx:88-108 | whatever the page lets through, within the limits it does not check, the server accepts unchanged |
| AdminCrossword.EmptyGrid | apps/web/src/pages/admin/AdminCrosswordPage.tsx:40-42 | the new grid is 5×5 with every cell an empty letter cell |
| AdminCrossword.ToggleBlackEffect | apps/web/src/pages/admin/AdminCrosswordPage.tsx:67-73 | the cell flips between black and empty; every other cell stays |
| AdminCrossword.ToggleTwice | apps/web/src/pages/admin/AdminCrosswordPage.tsx:67-73 | toggling an empty or black cell twice gives the grid back |
| AdminCrossword.SetCellEffect | apps/web/src/pages/admin/AdminCrosswordPage.tsx:75-82 | a black cell stays; otherwise the cell becomes the first character upper-cased; nothing else changes |
| AdminCrossword.ReadRun | apps/web/src/pages/admin/AdminCrosswordPage.tsx:97 | the inner loop spells the run of letter cells from the start, `?` for an empty one |
| AdminCrossword.EntryWordsSpanTwo | apps/web/src/pages/admin/AdminCrosswordPage.tsx:97-98 | an entry's word has at least two characters, so the length test always passes |
| AdminCrossword.DownStartOpensColumn | apps/web/src/pages/admin/AdminCrosswordPage.tsx:101-103 | the down start test is the across test on the column |
| AdminCrossword.ScanCell | apps/web/src/pages/admin/AdminCrosswordPage.tsx:91-107 | one visit extends both lists by exactly the entries starting at that cell |
| AdminCrossword.DetectEntries | apps/web/src/pages/admin/AdminCrosswordPage.tsx:89-109 | the nested loops return exactly the entries of the grid in each direction |
| AdminCrossword.DetectedSound | apps/web/src/pages/admin/AdminCrosswordPage.tsx:89-109 | every entry found starts at its own cell and carries its word |
| AdminCrossword.DetectedComplete | apps/web/src/pages/admin/AdminCrosswordPage.tsx:89-109 | every starting cell is found |
| AdminCrossword.DetectedOrdered | apps/web/src/pages/admin/AdminCrosswordPage.tsx:89-109 | the entries come in row-major order |
| AdminCrossword.HasEntryAtIff | apps/web/src/pages/admin/AdminCrosswordPage.tsx:117-118 | a cell has a detected entry exactly when an entry starts there |
| AdminCrossword.NumberCells | apps/web/src/pages/admin/AdminCrosswordPage.tsx:112-123 | the numbering loop returns exactly `Numbers` of the grid |
| AdminCrossword.NumberingExactly | apps/web/src/pages/admin/AdminCrosswordPage.tsx:112-123 | exactly the starting cells are numbered, each one more than the starting cells before it |
| AdminCrossword.NumbersIncrease | apps/web/src/pages/admin/AdminCrosswordPage.tsx:112-123 | numbers are at least 1 and strictly increasing in row-major order |
| AdminCrossword.NumbersBounded | apps/web/src/pages/admin/AdminCrosswordPage.tsx:112-123 | the numbers are exactly 1 up to the count of starting cells |
| AdminCrossword.DetectWords | apps/web/src/pages/admin/AdminCrosswordPage.tsx:85-154 | the new drafts are the entries' drafts in each direction |
| AdminCrossword.DraftsDescribeEntries | apps/web/src/pages/admin/AdminCrosswordPage.tsx:126-150 | each draft sits on a starting cell, with that cell's number and word, and keeps the text of an earlier draft at that cell |
| AdminCrossword.SharedStartSharesNumber | apps/web/src/pages/admin/AdminCrosswordPage.tsx:112-150 | an across and a down draft at the same cell have the same number |
| AdminCrossword.UpdateClue | apps/web/src/pages/admin/AdminCrosswordPage.tsx:161-167 | only the chosen draft's text changes |
| AdminCrossword.DetectedCellNumbers | apps/web/src/pages/admin/AdminCrosswordPage.tsx:219-223 | after detection, the display map shows every starting cell, each with its own number, and nothing else |
| AdminCrossword.FullNumbers | apps/web/src/pages/admin/AdminCrosswordPage.tsx:112-123 | on a grid without black cells, row 0 is numbered 1 to 5 and column 0 is numbered 1, 6, 7, 8, 9 |
| AdminCrossword.SampleNumbers | apps/web/src/pages/admin/AdminCrosswordPage.tsx:7-29 | detection on the sample grid gives the sample clues' cells and numbers |
| AdminCrossword.FindEmptyCell | apps/web/src/pages/admin/AdminCrosswordPage.tsx:171-177 | the cell loop returns the first unfilled letter cell in row-major order |
| AdminCrossword.Validate | apps/web/src/pages/admin/AdminCrosswordPage.tsx:169-188 | the method's answer is `ValidateDraft`: empty cell first, then blank clue, then no words |
| AdminCrossword.ValidateOrder | apps/web/src/pages/admin/AdminCrosswordPage.tsx:169-188 | a draft passes exactly when every letter cell is filled, every clue has text and there is a clue; the first empty cell is reported first, then the first blank clue of the across clues followed by the down clues |
| CrosswordGrid.CellNumbersLast | apps/web/src/components/crossword/CrosswordGrid.tsx:13-20 | a cell shows a number exactly when a clue starts there, namely the last such clue's number |
| CrosswordGrid.DownNumbersWin | apps/web/src/components/crossword/CrosswordGrid.tsx:15 | at a cell where a down clue starts, the down clues' number is shown; at any other cell, the across clues' number if one starts there |
| CrosswordGrid.AcrossLength | apps/web/src/components/crossword/CrosswordGrid.tsx:28-29 | the walk right from a clue's cell gives the length of its run of letter cells |
| CrosswordGrid.DownLength | apps/web/src/components/crossword/CrosswordGrid.tsx:36-37 | the walk down gives the length of the run of letter cells |
| CrosswordGrid.AcrossHits | apps/web/src/components/crossword/CrosswordGrid.tsx:26-33 | the across loop returns exactly the across clues covering the cell, in order |
| CrosswordGrid.DownHits | apps/web/src/components/crossword/CrosswordGrid.tsx:35-41 | the down loop returns exactly the down clues covering the cell, in order |
| CrosswordGrid.GetCellClues | apps/web/src/components/crossword/CrosswordGrid.tsx:23-44 | the result is the across hits followed by the down hits |
| CrosswordGrid.HitsIff | apps/web/src/components/crossword/CrosswordGrid.tsx:26-41 | a reference is a hit exactly when a clue with that number covers the cell |
| CrosswordGrid.CellCluesIff | apps/web/src/components/crossword/CrosswordGrid.tsx:23-44 | a cell belongs to an across clue exactly when it is in its row within its run, and likewise for down by column |
| CrosswordGrid.ClickBlackNoOp | apps/web/src/components/crossword/CrosswordGrid.tsx:64 | clicking a black cell changes nothing |
| CrosswordGrid.ClickNewCell | apps/web/src/components/crossword/CrosswordGrid.tsx:73-81 | clicking a new letter cell activates it and, when it has clues, one of them (in the current direction if possible), so the cell is highlighted |
| CrosswordGrid.ClickAgainFlips | apps/web/src/components/crossword/CrosswordGrid.tsx:67-72 | clicking the active cell again flips the direction and activates that direction's clue if any |
| CrosswordGrid.NextCellIsFirst | apps/web/src/components/crossword/CrosswordGrid.tsx:86-104 | the next cell is the first letter cell strictly after the current one that way; with none, the cursor stays |
| CrosswordGrid.PrevCellIsFirst | apps/web/src/components/crossword/CrosswordGrid.tsx:106-124 | the previous cell is the first letter cell strictly before the current one that way; with none, the cursor stays |
| Schedule.GameAvailableIff | apps/server/src/services/scheduleService.ts:21-27 | outside dev mode the game is open exactly on Monday from 08:00 to 14:59 |
| Schedule.LeaderboardAvailableIff | apps/server/src/services/scheduleService.ts:29-36 | outside dev mode the leaderboard is shown on every day but Monday, and on Monday from 17:00 |
| Schedule.GameAndLeaderboardExclusive | apps/server/src/services/scheduleService.ts:21-36 | the game and the leaderboard are never both available |
| Schedule.DevModeOpensAll | apps/server/src/services/scheduleService.ts:15-36 | with `DEV_MODE` every check passes |
| Schedule.NextGameStartFacts | apps/server/src/services/scheduleService.ts:46-67 | the next start is the nearest Monday 08:00:00.000 not in the past, 0 to 7 days ahead, with no game start in between |
| Schedule.DayTimesFacts | apps/server/src/services/scheduleService.ts:69-83 | both times exist exactly on a game day, at 15:00 and 17:00 today, and agree with the availability checks |
| Schedule.PuzzleDateFormat | apps/server/src/services/scheduleService.ts:38-44 | for a four-digit year the date is `YYYY-MM-DD`, reading back as year, 1-based month and day |
| Schedule.PuzzleDateInjective | apps/server/src/services/scheduleService.ts:38-44 | different days give different puzzle dates |
| Schedule.DaysUntilMondayLeast | apps/web/src/pages/admin/AdminDashboardPage.tsx:5-12 | the dashboard's offset is the least number of days reaching a Monday; the `\|\| 7` fallback never fires |
| Schedule.DashboardMondayAgrees | apps/web/src/pages/admin/AdminDashboardPage.tsx:5-12 | the dashboard's Monday equals the next game start, except on a Monday from 08:00, when it is a week earlier |
| TimeDisplay.JsRem | apps/web/src/components/game/Timer.tsx:7-8 | JavaScript's `%`: for a non-negative dividend the ordinary remainder, for a negative one a value in (-b, 0] |
| TimeDisplay.TimerFieldsMeaning | apps/web/src/components/game/Timer.tsx:4-10 | seconds are 0 to 59 and centiseconds 0 to 99, spelling the duration rounded down to a hundredth |
| TimeDisplay.TimerReadsBack | apps/web/src/components/game/Timer.tsx:4-10 | the text reads back as minutes, seconds and centiseconds of the duration; `MM:SS.cc` under 100 minutes |
| TimeDisplay.TimerTextIff | apps/web/src/components/game/Timer.tsx:4-10 | two durations show the same text exactly when they agree to the hundredth |
| TimeDisplay.ElapsedFacts | apps/web/src/components/game/Timer.tsx:16-38 | a stopped timer ignores the clocks; a running one is never negative and never goes backwards |
| TimeDisplay.ElapsedTotalPrecedence | apps/web/src/components/game/Timer.tsx:17-20 | a stored total of 0 counts as none; any other total is shown as it is |
| TimeDisplay.GiveUpStopsTimer | apps/web/src/stores/gameStore.ts:334-345 | after a give-up the timer (Timer.tsx lines 16-31) is stopped at the server's total or the give-up's span |
| TimeDisplay.CountdownFieldsMeaning | apps/web/src/components/game/Countdown.tsx:23-25 | minutes and seconds are 0 to 59 and with the hours spell the whole seconds left |
| TimeDisplay.CountdownReadsBack | apps/web/src/components/game/Countdown.tsx:15-29 | the text reads back as the hours, minutes and seconds left, zero once the target passed; `onComplete` fires exactly then |
| TimeDisplay.CountdownZeroIff | apps/web/src/components/game/Countdown.tsx:15-29 | `00:00:00` is shown exactly while less than a second is left |
| TimeDisplay.ArchiveReadsBack | apps/web/src/pages/admin/AdminArchivePage.tsx:23-28 | the text reads back as whole minutes and seconds below 60; `m:ss` under ten minutes |
| TimeDisplay.ArchiveTextIff | apps/web/src/pages/admin/AdminArchivePage.tsx:23-28 | two times show the same text exactly when they agree to the second |
| Shuffle.SwapPermutes | apps/server/src/routes/game.ts:193 | one swap keeps the multiset of words |
| Shuffle.ShuffledPermutes | apps/server/src/routes/game.ts:190-194 | the shuffled list is a permutation of the original |
| Shuffle.FisherYates | apps/web/src/stores/gameStore.ts:229-232 | the in-place loop leaves the array as `Shuffled` of its old contents, a permutation of them |
| StringOrder.SortEqualIff | apps/server/src/services/gameService.ts:107-111 | two word lists sort to the same list exactly when they hold the same words |
| Text.TrimIdempotent | apps/server/src/routes/admin.ts:85 | trimming twice is trimming once |
| Text.UpperTrimCommute | apps/server/src/routes/admin.ts:95 | upper-casing and trimming commute |
| Text.Pad2Value | apps/server/src/services/scheduleService.ts:41-42 | `padStart(2, '0')` keeps the number's value and gives two digits below 100 |
| Text.NatToStringRoundTrip | apps/server/src/services/scheduleService.ts:40-43 | the decimal text of a number reads back as that number |
| Text.JsLengthBasic | apps/server/src/routes/admin.ts:86 | without a character above U+FFFF, `length` is the number of characters |
| Text.AstralCountsTwice | apps/server/src/routes/admin.ts:86 | one emoji is one character but two code units of `length` |
| Text.JsLengthUpper | apps/server/src/routes/admin.ts:95-96 | upper-casing keeps `length` |
| Json.StringToNumber | apps/server/src/routes/admin.ts:102-103 | a string is an integer for `Number.isInteger` exactly when `Number` reads it as a finite integral value, which it then is |
| Json.ZeroFractionIsInteger | apps/server/src/routes/admin.ts:129 | `"5.0"` reads as the integer 5 |
| Json.ExponentIsInteger | apps/server/src/routes/admin.ts:102-103 | `"50e-1"` reads as the integer 5 |
| Json.HexIsInteger | apps/server/src/routes/admin.ts:159-167 | `"0x5"` reads as the integer 5 |
| Json.BinaryIsInteger | apps/server/src/routes/admin.ts:159-167 | `"0b101"` reads as the integer 5 |
| Json.FractionNotInteger | apps/server/src/routes/admin.ts:102-103 | `"5.5"` is not an integer |
| Json.SignedRadixNotInteger | apps/server/src/routes/admin.ts:159-167 | `"-0x5"` is `NaN`, since a radix literal takes no sign |
| Json.BarePrefixNotInteger | apps/server/src/routes/admin.ts:159-167 | `"0x"` is `NaN` |
| Json.IntegerRoundTrip | apps/server/src/routes/admin.ts:102-103 | `Number(String(i))` is `i` for every integer |

## Left out

- GameStore.Store.ShuffleConnectionsWords: the best-effort
  `api.connectionsReorder(words)` request sent after a shuffle, whose failure
  is ignored, is not modelled on the client; the store's state does not depend
  on it, and the server's reorder route is `GameRoutes.ReorderAcceptedIff`.
- StringOrder.Leq: orders strings by character, not by UTF-16 code unit as
  `Array.prototype.sort` does; the two differ only between astral characters
  and U+E000 to U+FFFF, and the model only compares sorted lists for equality,
  which does not depend on the order.
- Postgres is not modelled: its I/O, transactions and row locks are out. Each
  service call is one atomic step on the rows passed in. `archiveCurrentGame`'s
  BEGIN/ROLLBACK becomes "on failure nothing changes".
- Concurrency between requests is not modelled, nor are the session-token
  middleware, authentication and the rate limiters. Requests are taken one at
  a time, from a known player.
- Randomness is a parameter. `Math.random()` draws are a sequence of integers,
  each below the bound the loop uses. The admin page's random-sort preview is
  not modelled, because its order is undefined.
- Time is a parameter. The Central-time conversion, `toISOString` and time
  zones are out. Instants are integers of milliseconds, and the wall clock is a
  record of its `getDay`/`getHours`/… fields.
- The date arithmetic of `setDate` is out: a moment is a day offset plus a time
  of day. `DEV_MODE` is a parameter.
- `setInterval`, React effects and rendering are out. Timer and Countdown are
  modelled as the value one tick displays.
- Parsing of ISO date strings is out; stored instants are integers. Floating
  point is out: `Number` is modelled exactly, so a value beyond the range or
  the precision of a double (such as `"1e400"`) is read as the exact number,
  where JavaScript rounds it or makes it `Infinity`. `EXTRACT(EPOCH …) * 1000` becomes the integer
  difference of the two instants.
- The `/dev-complete` route is not modelled, because it exists only in
  development mode.
- The store actions `checkSchedule`, `register`, `loadGameState` and
  `startPuzzle` (`gameStore.ts`, lines 107-209) are not modelled. They only copy
  server replies and dates into fields, through I/O and date parsing.
- `updateConnectionsWordOrder`, `getPlayerByInstagram`, `getGameLocked` and
  `US_STATES` come from code that is not part of this model. The start-puzzle
  handler returns the order to save. The lock setting, the handle lookup and the
  state list are parameters.
- Text.FirstChar: `slice(0, 1)` takes the first UTF-16 code unit; on a
  character above U+FFFF that is half of it, which a Dafny string cannot hold,
  so the model keeps the whole character.
- GameService.PlayerCell: a row sent as a string is indexed by character;
  JavaScript indexes UTF-16 code units, which differs only on a row holding a
  character above U+FFFF.
- GameStore.ResetRestoresInitial: the store record leaves out `session`,
  `crosswordPuzzle`, `gameAvailable`, `gameLocked`, `serverTime` and
  `serverTimeOffset`, which `resetGame` also clears; only the unmodelled
  actions fill them.
- ArchiveService.Summaries: `ORDER BY created_at DESC` is taken as the reverse
  of the order in which archives were appended; archives created at the same
  instant may come back in any order from the database.
- Leaderboard.SortByTime: rows with equal times keep their table order. SQL
  leaves the order of ties unspecified, so that order is a choice of the
  model.
- `toUpperCase` is modelled for ASCII letters only; non-ASCII case mapping is
  out. `trim` strips JavaScript's full set of white-space and line-terminator
  characters.
- TimeDisplay.TimerReadsBack: proved only for non-negative durations. A
  negative total, which the server never stores, prints with JavaScript's signed
  remainder; `JsRem` models that remainder, but the read-back is not proved for it.
- TimeDisplay.TimerTextIff: proved only for non-negative durations, for the same
  reason.
- TimeDisplay.ArchiveReadsBack: proved only for non-negative times, for the same
  reason.
- TimeDisplay.ArchiveTextIff: proved only for non-negative times, for the same
  reason.
- GameStore.UpdateCellEffect: `gameStore.ts` line 291 returns before the
  `set({ …, wrongCells: [] })` of line 296, so editing a cemented cell keeps
  the wrong-cell marks; the model follows the code.
- GameService.GuessStep and the routes over it model the failure stamp as
  written, without the `IS NULL` guard. `GuessStepGuarded` is the corrected
  step, proved beside it (see Findings).

## Findings

| source | as written | input that shows it | evidently intended | confidence | as-written member | corrected member |
|---|---|---|---|---|---|---|
| apps/server/src/services/gameService.ts:148-158 | the fourth wrong Connections guess sets `completed_at` and `total_time_ms` with no `completed_at IS NULL` guard; `giveUpCrossword` (lines 246-259) does the same | start at 0 ms, give up the crossword at 100 ms, then four wrong guesses at 200 to 500 ms: every request passes its guard, and the stop time and total move from 100 to 500 ms | the clock stops once, as `completeGame` ensures with its guard: a failing guess keeps an existing stamp | medium, not executed | GameRoutes.FailureStampOverwritten | GameService.GuardedGuessKeepsStamp |
| apps/web/src/stores/gameStore.ts:245-248 | the duplicate-guess key joins the sorted upper-cased words with `\|`, and a word may itself contain `\|` (the server accepts any 1 to 40 characters) | after `A\|B, C, D, E`, the different guess `A, B\|C, D, E` gets the same key and is refused as a duplicate without reaching the server | a key that is the same exactly for the same words up to order and case | low, not executed | GameStore.GuessKeyCollides | GameStore.GuessWordsKeyExact |
