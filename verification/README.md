# WordBreak backend: a verified model

WordBreak deals letters, finds the words they hold, judges what players submit, and pays the winner
of a staked race. This project models that chain in Dafny and proves what it promises, from the
node table of the prefix tree to the account that a settlement pays.

| files | what they model |
|---|---|
| `Text`, `Seqs`, `Options` | ASCII upper-casing and trimming; facts about sequences and sets; values that may be absent |
| `Tries`, `Boards`, `Mask`, `Solver` | the array-backed prefix tree and the pruned depth-first board solver with its 64-bit visited mask and reused buffer |
| `LetterCounts`, `Dictionaries` | letter tallies with early exit, the word list, the words that a rack can build |
| `Scoring`, `ScoreLaws`, `ScoreMeaning` | the referee's judgement of a submission, the laws of its result, and what that means for raw strings |
| `Answers`, `Drawing`, `Generator` | the solver's answers against dictionary and referee; which boards can be drawn; the best of the boards drawn |
| `Ranking`, `RoomState`, `Rooms` | the race room: its standings, each locked operation as a function on a value, and the live object proved against those functions |
| `RoomRuns`, `RoomSafety`, `RoomLaws`, `RoomSettlement` | every interleaving of a room's operations, its timer and its settlement calls: what all of them keep, what each operation does, and when a room gets settled |
| `DailyState`, `StoreState`, `Stores`, `StoreRuns`, `StoreRecovery` | best daily results, the leaderboard, the persisted copy, and recovery after restarts |

Words and ids are strings whose characters stand for ASCII bytes. Wei are unbounded integers, times
are integers (nanoseconds in the room, the resolution of the database in the store). Clock readings,
random streams, dealt letters, and the answers of the chain and of the signer are parameters. A room's
`Create` is one step: the code publishes the room before it adds the host or sets the round id, and
the capacity and no-duplicate invariants are about rooms that nobody touches in between.

## Where the code and its documentation part

- The solver is documented to use no cell twice. The mask has 64 bits, and Go shifts past that to
  zero, so cells from 64 up are never marked. `RightExactlyWhenMaskFits`: the solver is right for every
  trie and lettering of a size if and only if the board has at most 64 cells. The boards that the
  server deals have at most 36.
- `NewTrie` is documented as case-insensitive. `insert` does not upper-case, and a word with any
  other character than A-Z is not recognised; it leaves the nodes of its A-Z lead behind.
  `CaseMatters`: case makes no difference if and only if every word that is alphabetic in upper case
  is also listed in upper case; a trie of `cat` alone knows neither `CAT` nor `cat`
  (`LowerCaseIsNotIndexed`). `DeadNodes` says when what an abandoned word leaves behind leads nowhere,
  and `AbandonedInsertion` is a case.
- Staked rooms are documented to settle automatically when the race ends. The timer is set once, for
  two seconds after the stake window closes (or at once if that is past), and is not set again if it
  finds the race still running. `SettledExactlyWhenOverInTime`: the room gets settled or failed if and
  only if the race ends by the time the timer is due; with the default of a three-minute window
  and a one-minute race, a start more than 122 seconds after creation is never settled.
- The store is documented to recover rounds and submissions after a restart. From any state, a restart
  gives back a date in full, in whatever order its rows load, if and only if the date has a round row
  that agrees with the round in memory and its submission rows are the bests in memory with each player
  under one spelling, or it has no round row and nothing but its letters to lose
  (`LosesNothingExactlyWhen`). Three kinds of step lead out of that, each with an input: submissions for
  a date that is never opened (`UnopenedDateIsLost`), a better result under a second spelling of an
  address (`SecondSpellingMayLoseTheBest`), and opening a date after a restart before it was loaded
  (`OpenedBeforeLoadedIsLost`). `StepKeepsStep` and `StepLosesNothingExactlyWhen` say that there are no
  others, as long as dates are opened with their own letters, as every handler does.
- The pot of a staked room is shown as the stake times the players. Players are kept by id and entries
  by wallet, so it is backed by that many entries if and only if no two players are spellings of one
  wallet (`PotIsBackedExactlyWhen`, with `TwoSpellingsOneEntry` as the input).

## Model

| member | source | states |
|---|---|---|
| Text.NormalizeIdempotent | internal/room/room.go:388-394 | the room may normalise a word before the scorer normalises it again: the second time changes nothing |
| Text.WritesItsNormalForm | internal/dictionary/dictionary.go:48 | a raw string normalises to u if and only if u has no lower-case letter and no blank at its ends, and the string is u in any case between blanks |
| Text.AnyCaseWritesWord | internal/game/score.go:47 | a word in A-Z, each letter in either case and with blanks around it, normalises to that word |
| Text.UpperCounts | internal/game/score.go:97-105 | upper-casing adds up the two cases of each letter |
| Text.LettersAreTheAlphabet | internal/dictionary/dictionary.go:114-121 | the letters are the twenty-six of the alphabet |
| Tries.Trie.constructor | internal/grid/trie.go:31-37 | a trie built from a list is a tree whose words are exactly the A-Z words listed and whose paths are exactly the prefixes of the A-Z leads |
| Tries.Trie.Insert | internal/grid/trie.go:39-56 | inserting w adds exactly w if it is all A-Z and no word otherwise, adds exactly the prefixes of its A-Z lead as paths, moves no path to another node, and keeps the table a tree |
| Tries.Trie.ChildOrGrow | internal/grid/trie.go:46-53 | one step of an insertion: the child on a letter, appended to the table if absent |
| Tries.Trie.Step | internal/grid/trie.go:60-66 | a step succeeds exactly when the node has a child on the letter, and returns it |
| Tries.Trie.IsWord | internal/grid/trie.go:68 | for whatever letters lead to the node, answers whether they are a recognised word |
| Tries.WalkInjective | internal/grid/trie.go:12-19 | distinct letter paths reach distinct nodes |
| Tries.NodeHasPath | internal/grid/trie.go:12-19 | every node of the table is reached by some letter path |
| Tries.InsertionEffect | internal/grid/trie.go:39-56 | carrying an insertion on from any inserted prefix has the effect of inserting the whole word |
| Tries.OrderIrrelevant | internal/grid/trie.go:31-37 | order and repetition of the words change neither the words recognised, nor the paths, nor the size of the table |
| Tries.StepIffPrefix | internal/grid/trie.go:58-66 | a step from the node of p on c succeeds if and only if p followed by c starts the A-Z lead of an inserted word |
| Tries.NodeCount | internal/grid/trie.go:31-56 | there is one node per distinct prefix: one root and one for every non-empty one |
| Tries.DeadNodes | internal/grid/trie.go:43-45 | every path leads on to a recognised word if and only if every abandoned insertion left only nodes that a complete word needs |
| Tries.NoDeadNodes | internal/grid/trie.go:31-56 | with A-Z inputs every path leads on to a recognised word |
| Tries.AbandonedInsertion | internal/grid/trie.go:43-45 | a word abandoned midway can leave a path that leads nowhere |
| Tries.CaseMatters | internal/grid/trie.go:29-37 | words are indexed without regard to case if and only if every word that is alphabetic in upper case is listed in upper case too |
| Tries.LowerCaseIsNotIndexed | internal/grid/trie.go:29-37 | a trie of a lower-case word recognises it in neither case |
| Tries.PrefixHolds | internal/grid/solve.go:30-33 | what cannot be walked cannot be extended to something that can, so pruning is safe |
| Mask.MarkOne | internal/grid/solve.go:26-35 | or-ing in a cell's bit marks that cell, if it is below 64, and no other |
| Mask.DenotesExtended | internal/grid/solve.go:26-35 | the mask goes on denoting exactly the cells below 64 on the path |
| Solver.TracedSplit | internal/grid/solve.go:37-53 | the words traced from a path are its own word and those traced through a neighbour of its last cell, and no others |
| Solver.NothingThroughPruned | internal/grid/solve.go:30-33 | nothing is traced through a cell whose letter leaves the trie |
| Solver.NextNeighbour | internal/grid/solve.go:41-53 | each turn of the two loops visits the neighbour at its offset if it lies on the board, and so all neighbours once |
| Solver.Append | internal/grid/solve.go:34 | append returns the slice with one more letter and leaves the caller's part of the backing array alone, shared or moved |
| Solver.Dfs | internal/grid/solve.go:25-54 | a call adds to the found words exactly those traced through its cell, leaves the caller's letters in the shared buffer as they were, and terminates; mask, buffer and node agree with the path throughout |
| Solver.DfsAround | internal/grid/solve.go:41-53 | the two loops add exactly the words traced through the neighbours of the cell |
| Solver.Solve | internal/grid/solve.go:9-23 | returns, without duplicates, exactly the indexed words of playable length spelled by a walk over adjacent cells that the mask lets through |
| Solver.AnswersArePlayable | internal/grid/solve.go:5-8 | on a board of at most 64 cells those are exactly the words spelled by paths of distinct cells |
| Solver.RightExactlyWhenMaskFits | internal/grid/solve.go:26-29 | for each board size, the solver is right for every trie and every lettering if and only if the board has at most 64 cells |
| Solver.CellUsedTwice | internal/grid/solve.go:26-29 | every larger board has a lettering on which the solver goes back to cell 64 and reports a word that no path of distinct cells spells |
| LetterCounts.CountLetters | internal/dictionary/dictionary.go:88-97 | the 26 counts are the multiplicities of the letters in the upper-cased text |
| LetterCounts.CanBuild | internal/dictionary/dictionary.go:99-112 | the early-exit loop answers whether the word is all A-Z and included in the rack as a multiset; the scorer's fitsRack is the same code |
| Dictionaries.NewFromWords | internal/dictionary/dictionary.go:45-54 | loads exactly the words of three or more letters A-Z that some raw entry writes, in any case and with blanks around it |
| Dictionaries.AllWords | internal/dictionary/dictionary.go:61-67 | lists every loaded word once |
| Dictionaries.FindWords | internal/dictionary/dictionary.go:77-86 | lists, once each, exactly the dictionary words that fit in the rack |
| Scoring.Judge | internal/game/score.go:57-68 | the verdict on a fresh word is the first check it fails: length, letters, dictionary |
| Scoring.Score | internal/game/score.go:41-75 | the loop with its seen-set gives every word the verdict that the submissions before it call for, in order |
| ScoreLaws.AcceptedAre | internal/game/score.go:38-75 | the accepted list has each distinct scoring word once, with its points, and the total is the sum of the points over that set |
| ScoreLaws.Partition | internal/game/score.go:46-73 | every non-blank submission is accepted or rejected, as often as it was made |
| ScoreLaws.OnlyNormalFormsMatter | internal/game/score.go:38-40 | total and accepted words do not change when the input is duplicated, re-cased or padded |
| ScoreLaws.PermutingKeepsScore | internal/game/score.go:38-40 | nor when it is permuted |
| ScoreLaws.RejectionsAreDue | internal/game/score.go:51-68 | every repetition of a word is rejected as a duplicate and its first attempt for the first check it fails, and nothing else is rejected |
| ScoreLaws.PermutingKeepsRejections | internal/game/score.go:38-40 | as a collection the rejections do not change when the input is permuted or re-cased |
| ScoreLaws.RejectionsMove | internal/game/score.go:51-54 | their order does change |
| ScoreLaws.PointsMonotone | internal/game/score.go:77-95 | a larger set of words scores at least as much, and strictly more if its words are of playable length |
| ScoreLaws.ScoreOne | internal/room/room.go:394-400 | a word scored on its own is accepted exactly when its normal form scores |
| ScoreLaws.CleanSubmission | internal/game/score.go:41-75 | distinct buildable words are all accepted, none rejected |
| ScoreLaws.FoundWordsAreOptimal | internal/dictionary/dictionary.go:75-86 | the referee accepts every word found for the letters, no submission scores more, and one scores as much if and only if it contains them all |
| ScoreLaws.PointsRise | internal/game/score.go:77-95 | points rise with length, and by no less with each further letter |
| ScoreMeaning.PointsTable | internal/game/score.go:77-95 | points by length: 1, 2, 4, 6, 10 for three to seven letters, four more for each further one, none below three |
| ScoreMeaning.FitsMeans | internal/game/score.go:107-119 | a word fits when it is all A-Z and has no letter more often than the rack has it, both cases counted |
| ScoreMeaning.ContainsMeans | internal/dictionary/dictionary.go:69-73 | a word is known in any case exactly when it is one of the words |
| ScoreMeaning.FoundMeans | internal/dictionary/dictionary.go:75-86 | the words found are the dictionary words whose letters the rack has, both cases counted |
| ScoreMeaning.AcceptedMeans | internal/game/score.go:38-75 | a word is accepted, once, if and only if some raw submission writes it and it has three letters, fits the letters and is in the dictionary; the total is the points of those words |
| ScoreMeaning.RejectionsMean | internal/game/score.go:51-68 | of the attempts at a word all but the first are rejected as duplicates, and the first as too short, not in the rack or not a word by those conditions alone |
| ScoreMeaning.OnlyWordsWrittenMatter | internal/game/score.go:38-40 | submissions whose raw strings write the same words get the same total and the same accepted words |
| ScoreMeaning.CaseAndPaddingDoNotMatter | internal/game/score.go:47 | re-casing and padding the words one by one leaves the whole result as it was, order included |
| Answers.SpelledWithin | internal/grid/solve.go:25-54 | a path of distinct cells takes each letter at most as often as the board has it |
| Answers.AnswersAreDictionaryWords | internal/grid/solve.go:5-8 | with a trie of the dictionary's words, a word is an answer if and only if it is in the dictionary and a path of distinct adjacent cells spells it |
| Answers.BoardAnswersScore | internal/game/score.go:107-119 | on boards that fit the mask every answer is among the words found for the board's letters, and the referee accepts them all and rejects none |
| Answers.BoardAnswersNeedTheMask | internal/grid/solve.go:26-29 | on every larger board some answer cannot be built from the board's letters |
| Drawing.Shuffle | internal/grid/grid.go:91 | the in-place swaps from the back give the arrangement that the numbers read call for |
| Drawing.ShuffledKeeps | internal/grid/grid.go:91 | a shuffle keeps the letters as a multiset, whatever the numbers |
| Drawing.ShuffleReaches | internal/grid/grid.go:91 | every arrangement of the letters can come out of a shuffle |
| Drawing.DrawGrid | internal/grid/grid.go:82-93 | the board that the numbers read call for: exactly its size and exactly the intended vowels, on any board of at least three cells, and no Q on any |
| Drawing.GridsAreTheWellDrawn | internal/grid/grid.go:82-93 | some numbers draw a board if and only if it has the size, the intended vowels and no Q: nothing else comes out, and all of these can |
| Drawing.BagsHoldAllButQ | internal/grid/grid.go:9-12 | the vowel bag has the five vowels and the consonant bag every consonant but Q |
| Drawing.VowelBalance | internal/grid/grid.go:34-44 | boards of nine cells or more have a third of vowels, of six or more at least three vowels and three consonants |
| Generator.Generate | internal/grid/grid.go:62-79 | every board drawn has the intended size, letters and vowels; all but the last are below the floor, and the last is returned if it clears it; otherwise all tries were made and the result is the first board with the most words, with exactly its answers, or empty because no draw had any |
| Generator.Floors | internal/grid/grid.go:22-32 | the floor is 8, 16 and 24 words on boards of side 4, 5 and 6 |
| Generator.SolvesCount | internal/grid/grid.go:70-74 | the number of answers does not depend on the order in which they are listed |
| Ranking.RankIds | internal/room/room.go:514-528 | the sort by score and join position yields the ranking |
| Ranking.SiftDown | internal/room/room.go:520-526 | one round of the insertion sort puts the next id in its place |
| Ranking.RankedIsRanking | internal/room/room.go:514-528 | the result lists every joiner once, each before all those it beats |
| Ranking.RankingUnique | internal/room/room.go:514-528 | there is only one such list |
| Ranking.PlaceIsAhead | internal/room/room.go:514-528 | a player's place is the number of players ahead |
| Ranking.LeaderIsEarliestTopScorer | internal/room/room.go:505-512 | the leader is the earliest joiner among the top scorers |
| Ranking.GainKeepsPlace | internal/room/room.go:400-402 | points gained never cost a place |
| Rooms.Create | internal/room/room.go:159-216 | the refusals of a creation, in order, and otherwise a new room: a free one holds its host, a staked one holds nobody and takes entries for three minutes; with its snapshot |
| Rooms.LiveRoom.Create | internal/room/room.go:170-214 | the room as a creation leaves it |
| Rooms.LiveRoom.AddPlayer | internal/room/room.go:491-497 | adds a fresh record at the end of the join order |
| Rooms.LiveRoom.MaybeFinish | internal/room/room.go:499-503 | ends a running race whose time is up |
| Rooms.LiveRoom.CheckJoin | internal/room/room.go:314-339 | the refusals of a join, in order |
| Rooms.LiveRoom.Join | internal/room/room.go:306-342 | the new room, the error and the snapshot of a join |
| Rooms.LiveRoom.Start | internal/room/room.go:344-368 | only the host can start, and only in the lobby; the new room, the error and the snapshot of a start |
| Rooms.LiveRoom.JudgeWord | internal/room/room.go:388-403 | a word counts exactly when the player did not find it before and it scores, and then credits its points |
| Rooms.LiveRoom.Submit | internal/room/room.go:371-407 | acceptance, points, error, snapshot and new room of a submission, late, foreign and duplicate ones included |
| Rooms.LiveRoom.Leader | internal/room/room.go:505-512 | the head of the ranking, or nobody |
| Rooms.LiveRoom.Snapshot | internal/room/room.go:536-577 | ends a race whose time is up and shows phase, letters once dealt, players best first, the winner of a finished race, pot and settlement status |
| Rooms.LiveRoom.SettleBegin | internal/room/room.go:423-432 | claims the settlement exactly on a finished, unsettled race, and carries away its leader and the round of its own stake |
| Rooms.LiveRoom.SettleEnd | internal/room/room.go:468-475 | records the outcome and nothing else |
| RoomState.PayoutIsShareRoundedUp | internal/room/room.go:484-489 | for a rake of at most the whole pot, the payout is the winner's share rounded up, and no more than the pot |
| RoomRuns.RoomStep | internal/room/room.go:306-407 | every step keeps the join order equal to the players, without duplicates and within capacity, and every record equal to the points and number of the scoring words tried |
| RoomSafety.OverStep | internal/room/room.go:376-382 | once the clock has reached the end of the race no step changes players, scores, join order or letters |
| RoomSafety.RaceLastsItsLength | internal/room/room.go:358-378 | from an accepted start on, a player's word is judged exactly until the length of the race has passed |
| RoomSafety.SettleStep | internal/room/room.go:422-476 | every step keeps: at most one claim, on a finished race, for its leader; one call in flight exactly while pending; at most one broadcast, for the claimed winner |
| RoomSafety.StakesPaidStep | internal/room/room.go:323-339 | every step keeps: each player of a staked room has a wallet that the chain has seen enter |
| RoomSafety.Reachable | internal/room/room.go:304-476 | every run from a new room ends in a room that satisfies all of these |
| RoomSafety.FrozenBetween | internal/room/room.go:376-382 | from the end of a race to any later point of a run, standings are frozen |
| RoomSafety.OneWinner | internal/room/room.go:556-559 | every snapshot of a finished race, the settlement's claim and any broadcast name the same winner, in whatever order they come |
| RoomSafety.OneSettlement | internal/room/room.go:422-432 | however often settlement is attempted, at most one attempt passes the guard and broadcasts, on a finished race |
| RoomSafety.PaidPlayerEntered | internal/room/room.go:423-464 | whoever is paid is a player of the room whose wallet entered the round |
| RoomSafety.PotIsBackedExactlyWhen | internal/room/room.go:323-340 | in every run the wallets of a staked room's players have entered, and the pot shown is the stake times those wallets if and only if no two players are spellings of one wallet |
| RoomSafety.TwoSpellingsOneEntry | internal/room/room.go:314-340 | two spellings of one wallet can join on a single entry, and the pot shown is then double |
| RoomSafety.StatusMovesForward | internal/room/room.go:425-475 | the settlement status only moves from unsettled to pending to settled or failed |
| RoomSafety.PhaseMovesForward | internal/room/room.go:306-368 | phases only move from lobby to racing to done, nobody leaves, and after the start nobody joins and letters and end stay |
| RoomSafety.WordKeepsPlace | internal/room/room.go:400-402 | an accepted word never lowers its player's place |
| RoomSafety.DecisionIsSound | internal/room/room.go:434-475 | a call broadcasts exactly when the winner has a wallet, the round could be read and the payout signed, reports success exactly when the broadcast went through and otherwise which of the reasons it was, and pays no more than the pot |
| RoomSafety.BroadcastsPayFromThePot | internal/room/room.go:446-465 | in every run each broadcast pays the winner's share, rounded up, of the pot that was read for it, and no more than that pot |
| RoomSafety.IncrementalIsBatch | internal/room/room.go:388-403 | in every run a player's score, words and finds are what the referee gives for all the words tried, submitted in one go, and at most what the letters hold |
| RoomLaws.CreationExactlyWhen | internal/room/room.go:160-198 | a room is created exactly when it is free, or its host has a wallet, the server has staking, a round id was found and the chain opened the round |
| RoomLaws.NewRoom | internal/room/room.go:170-214 | a new room is an unsettled lobby; a free one holds exactly its host, a staked one nobody, and takes entries for its round for three minutes |
| RoomLaws.FixedByCreation | internal/room/room.go:170-202 | in every run stake, round, host, dictionary and race length stay as created |
| RoomLaws.JoinsExactlyWhen | internal/room/room.go:314-341 | a newcomer gets in exactly in a lobby of fewer than five, and into a staked room only with a wallet whose entry the chain confirms; otherwise the room does not change |
| RoomLaws.JoinRefusalsAre | internal/room/room.go:314-339 | each refusal of a join by its own conditions; a player who is in already is never refused |
| RoomLaws.LookingOnlyEnds | internal/room/room.go:314-316 | joining again or looking changes nothing, except that a race whose time is up is over |
| RoomLaws.OnlyJoinsAdd | internal/room/room.go:340 | nobody gets into a room except by joining it |
| RoomLaws.FreeHostIsIn | internal/room/room.go:205-214 | in every run of a free room the host is in it |
| RoomLaws.OnlyHostStarts | internal/room/room.go:350-360 | a step that takes a room out of the lobby is the host's start |
| RoomLaws.StartsExactlyWhen | internal/room/room.go:350-367 | the host's start in a lobby deals the letters and ends the race one race length after the clock; any other start is refused and changes nothing |
| RoomLaws.ViewShows | internal/room/room.go:536-577 | in every run a view has one row per player with what the referee gives for all the words judged for that player, best first and ties by joining; letters exactly once dealt; the first row as winner of a finished race; pot, phase and status |
| RoomLaws.SettlesItsOwnRound | internal/room/room.go:431-464 | in every run whatever is claimed or broadcast is for the round of the stake that the room was created with |
| RoomLaws.OutcomeIsReported | internal/room/room.go:434-475 | in every run, once a claimed settlement has no call in flight, it is settled exactly when the broadcast landed, and failed for want of a winner exactly when the leader has no wallet |
| RoomLaws.AddressesAre | internal/room/room.go:161 | a wallet address is forty hexadecimal digits, with or without 0x |
| RoomLaws.OneWalletExactlyWhen | internal/room/room.go:331 | two addresses are one wallet exactly when their digits differ in case only |
| RoomSettlement.FiringAfterWindow | internal/room/room.go:411-420 | the scheduled firing is not before the stake window has been closed for two seconds |
| RoomSettlement.FiringTimeIs | internal/room/room.go:411-420 | the settlement fires two seconds after the stake window closes, or at once if that is past |
| RoomSettlement.TimerFiresAfterWindow | internal/room/room.go:411-420 | in every run the timer fires only after that |
| RoomSettlement.SettledExactlyWhenOverInTime | internal/room/room.go:414-428 | with an on-time timer, a room whose timer has fired stays unsettled with nothing broadcast if and only if the race was still running when the timer was due, and is otherwise settled or failed once no call is in flight |
| RoomSettlement.SettledByTheClock | internal/room/room.go:411-428 | once the clock has passed the due time of a timer armed at any point of the run, the room is unsettled for good if and only if the race was still running then, and otherwise settled or failed once no call is in flight |
| RoomSettlement.SettledExactlyWhenRaceFitsWindow | internal/room/room.go:358-366 | for a timer set before the race ends, the room is settled at all if and only if the race ends within two seconds after the stake window |
| RoomSettlement.LateStartIsNotSettled | internal/room/room.go:414-428 | with the default times, a race started two and a half minutes into the window by a player who has entered and then scores any word is never settled, although that player leads |
| RoomSettlement.PendingCanEnd | internal/room/room.go:434-476 | a pending settlement ends in two steps of its own, whatever the chain answers |
| DailyState.FirstBestIsKept | internal/store/store.go:150-162 | after any submissions the store holds, for exactly the players who submitted, the first one with the player's highest score |
| DailyState.InterleavingIrrelevant | internal/store/store.go:150-162 | how the players' submissions interleave makes no difference |
| DailyState.RankCountsTheBetter | internal/store/store.go:164-185 | a rank exceeds the number of players with a higher score, or the same score earlier, and leaves room for those who do worse, so only exact ties are left open |
| DailyState.BoardIsBestFirst | internal/store/store.go:173-178 | scores never rise down the board, and of equal scores the earlier comes first |
| DailyState.BoardOfSubmissions | internal/store/store.go:150-185 | the leaderboard of any submissions has one row per submitter, ranked from 1, with the address, score and words of the submitter's first best |
| DailyState.OnePlayerExactlyWhen | internal/store/store.go:187-195 | two addresses are one player exactly when they differ in the case of letters only |
| Stores.LowerCopy | internal/store/store.go:187-195 | the edited copy is the lower-cased address |
| Stores.Standings | internal/store/store.go:168-178 | collects every player once and sorts them, by score and then time |
| Stores.DailyRound.Submit | internal/store/store.go:151-162 | records a result exactly when it beats the player's best, in memory and in the database |
| Stores.DailyRound.Leaderboard | internal/store/store.go:165-185 | lists every player once, highest score first and earlier first among equals, with ranks from 1 |
| Stores.LiveStore.GetOrCreateDaily | internal/store/store.go:87-108 | the round in memory, or recovered from the database, or new with generated letters |
| Stores.LiveStore.OpenPaidDaily | internal/store/store.go:112-127 | marks the round paid in memory, keeping letters and submissions, and writes the row |
| Stores.LiveStore.SubmitTo | internal/api/api.go:224-230 | a result handed to a date's round changes that round and its row only |
| Stores.Database.UpsertDailyRound | internal/db/db.go:80-85 | on conflict everything but the letters is overwritten |
| Stores.Database.UpsertSubmission | internal/db/db.go:138-144 | on conflict only a higher score overwrites |
| StoreState.ByKeyHolds | internal/store/store.go:98-100 | loading files each row under its lower-cased address |
| StoreRuns.NeverAheadOfDatabase | internal/store/store.go:151-162 | after any opens, submissions and restarts every best in memory is at most the persisted score of its exact address |
| StoreRuns.DatabaseGrows | internal/db/db.go:80-144 | over every run persisted rounds keep their letters, and a persisted result is only ever replaced by one with a higher score |
| StoreRuns.OpeningRegisters | internal/store/store.go:112-127 | opening a date registers round and end in memory and in the database, and keeps letters, submissions and every other date |
| StoreRuns.LoadSyncs | internal/store/store.go:94-107 | loading a date with one spelling per player, and a row unless it has no submissions, brings memory and database into step |
| StoreRuns.StepKeepsStep | internal/store/store.go:87-162 | the steps that keep memory and database in step are exactly those in which a best is not improved under a second spelling, a date not loaded is opened only with its own letters and no rows, and a restart finds the date opened or empty |
| StoreRuns.RunKeepsStep | internal/store/store.go:87-162 | memory and database stay in step over any run of such steps |
| StoreRecovery.LoadsAsExactly | internal/store/store.go:98-100 | the rows of a date load as given bests, in every order, if and only if they are those bests with each player under one spelling |
| StoreRecovery.LosesNothingExactlyWhen | internal/store/store.go:83-108 | from any state, a restart and the first touch give back the date whatever the load order if and only if it has a round row that agrees and rows that are the bests in memory, each player under one spelling, or no row and nothing but its letters |
| StoreRecovery.RecoveredExactlyWhenOpened | internal/store/store.go:95-102 | for memory and database in step that means: the date was opened or had no submissions |
| StoreRecovery.NeverAheadFromEmpty | internal/store/store.go:151-162 | from an empty store, after any run every best in memory is at most the persisted score of its exact address |
| StoreRecovery.RunsLoseNothingExactlyWhen | internal/store/store.go:83-127 | after every run from an empty store that opens the date with its own letters, the next restart loses nothing if and only if the date is opened and its rows are the bests in memory, or it is not and has none |
| StoreRecovery.StepLosesNothingExactlyWhen | internal/store/store.go:112-162 | from a date in step, an opened date loses nothing if and only if the last step neither improved a best under a second spelling nor opened the date unloaded while it had rows |
| StoreRecovery.RunsRecover | internal/store/store.go:83-108 | after any run of steps that keep a date in step, restarts included, one more restart gives the date back if and only if it is opened or empty |
| StoreRecovery.DisciplinedRunsLoseNothingExactlyWhen | internal/store/store.go:83-108 | the same from an empty store, for every load order |
| StoreRecovery.UnopenedDateIsLost | internal/store/store.go:95-102 | a date that was not opened loses its leaderboard, although its rows are in the database |
| StoreRecovery.OpenedBeforeLoadedIsLost | internal/store/store.go:115-119 | a date opened after a restart before it was loaded forgets a better result that the database has |
| StoreRecovery.SecondSpellingMayLoseTheBest | internal/store/store.go:98-100 | a player with two spellings of one address may come back with the lower score |

## Left out

- Trie node indices wrap at 2^31 in the code and are unbounded here.
- Unicode: casing and trimming are ASCII only, and a character is a byte.
- The recursive solver call is one function in the code; its two neighbour loops are a method of their own here. Slices past their capacity move to a larger array whose growth policy is not modelled.
- Solving a board with a negative width or height, on which the code panics while making its buffer.
- The standings and the leaderboard are sorted by Go's library: the sorts here are insertion sorts on sequences, which is what the stable library sort does for at most five players; the leaderboard states only what any sort gives.
- The random source: it is an arbitrary stream of numbers here, and which boards a given seed reaches is not modelled.
- The copies of letterCounts and of the fitting check in the dictionary and the scorer are modelled once.
- internal/rack: generation of racks has the shape of board generation with FindWords in place of Solve and would add only easy members; a start is given its letters.
- The table of rooms: lookup by code, fresh codes and round ids, listing of open rooms, dropping a room whose round could not be opened. Operations take their room.
- Rooms.LiveRoom.Create: leaves out that the room is published before it is filled, and so a room that is joined while its creation is still under way.
- settleRoom is split at the points where it gives up the lock: its locked sections are methods of the live room, its consultation of the chain is a function, and their interleaving is in the runs.
- Rooms.LiveRoom.Snapshot: leaves out the seconds left, names, codes, ids of host, viewer and round, and the text of settlement errors, because they only format what the room holds; the kind of failure is kept.
- A failed write to the database, its connection, the player-names table and the listing of paid rounds.
- Signing, the chain's own state beyond who entered, and whether a broadcast that reports an error nevertheless lands.
- The HTTP layer, its size clamps and the paid-entry gate of daily submissions.
- The letters that a date is given when it is first touched are taken to be a function of the date, which is how the handlers generate them.
