# Tic-tac-toe engine, modelled in Dafny

This project models the game engine of the browser tic-tac-toe page in
`tic-tac-toe/script.js` and proves properties of it. The human plays X and the
engine plays O. The engine is made of:

- a nine-square board whose squares are empty, X or O;
- a fixed table of eight winning lines;
- win and draw detection, winner first;
- a click handler guarded by square, game state and turn;
- `makeMove`, which writes a mark, checks the status and passes the turn;
- a score tally that moves only when a game ends;
- restart and reset;
- the engine's move: exhaustive minimax with depth-biased scores, the
  lowest-index best move, a random move, and the `easy` / `medium` /
  `impossible` switch.

The model is functional. The board is an immutable `seq<Cell>` of length 9.
The page's global state (`board`, `currentPlayer`, `gameActive`, `difficulty`,
`scores`) is a `Game` record, and every handler is a pure function from one
`Game` to the next. Each call to `Math.random()` is an explicit argument of
type `Random`, a real number in [0, 1). The search loops start from
-Infinity or +Infinity; the model writes that seed as `None`.

Files:

- `grid.dfy` (module `Grid`): cells, board, the line table, `checkWinner`,
  `isBoardFull`, the list of empty squares, mark counts.
- `search.dfy` (module `Search`): `minimax`, `getBestMove`, `getRandomMove`,
  and the difficulty switch of `aiMove`.
- `inplace.dfy` (module `InPlace`): `minimax` and `getBestMove` as the page
  runs them. They work on one shared mutable array, place a trial mark,
  recurse and clear the square again. Both are proved to return the
  functional result and to leave the array unchanged. `minimax` asks
  `checkWinner` and `isBoardFull` about the global `board`, not its
  `newBoard` argument. The two are the same array, so those checks see the
  trial marks, and the model evaluates the board being searched.
- `engine.dfy` (module `Engine`): the game state, `checkGameStatus` with the
  score part of `handleWin` / `handleDraw`, `makeMove`, `handleCellClick`,
  `aiMove`, `restartGame`, `resetScores` and the difficulty buttons. It also
  holds an event loop over all of these and the game invariant.
- `scenarios.dfy` (module `Scenarios`): two concrete boards.

How the model treats two details of the code:

- `checkWinner` returns the owner of the first completed line in table
  order. The model keeps that order, and `Grid.WinnerSpec` states it.
- On a board with no empty square, `getBestMove` falls back to
  `getRandomMove`. That returns `undefined`, which passes the `move !== -1`
  test, and `makeMove(undefined, 'O')` then throws when it reaches the cell.
  The model differs here: it returns `None`, and `aiMove` makes no move.
  Neither version of the reply ever meets such a board in a game that is on.
  `Engine.MakeMove` keeps the game on only while the new board is in
  progress, and a board in progress has an empty square.

## Model

| member | source | states |
|---|---|---|
| Grid.LinesAreGridLines | tic-tac-toe/script.js:13-17 | The table has exactly 8 lines, each with its squares in increasing order. Each one lies on a row, a column or a diagonal of the 3x3 grid. Indices stay in 0..8 by their type. |
| Grid.LinesAreDistinct | tic-tac-toe/script.js:13-17 | The eight entries of the table are pairwise different, so no line is scanned twice. |
| Grid.GridLinesAreInTable | tic-tac-toe/script.js:13-17 | Every row, column and diagonal of the 3x3 grid is in the table, so no winning triple is missed. |
| Grid.WinnerFrom | tic-tac-toe/script.js:186-195 | Scanning the table from position k gives no winner exactly when no later line is completed. Otherwise it gives the mark owning a line that no earlier scanned line precedes as completed. |
| Grid.Winner | tic-tac-toe/script.js:186-195 | `checkWinner` finds no winner exactly when no line of the table is completed. Otherwise it returns the owner of a completed line with no completed line before it in the table. |
| Grid.WinnerSpec | tic-tac-toe/script.js:186-195 | `checkWinner` returns null exactly when neither mark has three in a row. Otherwise it returns the owner of the first completed line in table order, and that mark has a line. |
| Grid.IsFull | tic-tac-toe/script.js:197-199 | Every square is taken exactly when the board's count of empty squares is zero. |
| Grid.EvaluateSpec | tic-tac-toe/script.js:174-199 | A board is won exactly when some mark has a line, and the winner has one. It is drawn exactly when it is full and nobody has a line, so a full board with a line is a win, not a draw. It is in progress exactly when it is not full and nobody has a line. |
| Grid.EmptiesFrom | tic-tac-toe/script.js:165-169 | The list of empty squares from i on holds only empty squares at or after i, holds every one of them, is strictly increasing, and has at most 9 - i entries. |
| Grid.Empties | tic-tac-toe/script.js:165-169 | The list of available moves holds exactly the empty squares, in increasing order. It is empty exactly when the board is full. |
| Grid.PlaceShrinksEmpties | tic-tac-toe/script.js:141-158 | Each trial placement on an empty square leaves one empty square fewer, which is why the search terminates. |
| Grid.PlacingKeepsOthersLines | tic-tac-toe/script.js:75-76 | Writing one mark on an empty square cannot give the other mark a line. |
| Search.Minimax | tic-tac-toe/script.js:132-162 | An O win scores 10 - depth, an X win depth - 10, and a full board with no winner 0. When depth plus the number of empty squares is at most 10, the score lies in [depth - 10, 10 - depth], so within [-10, 10]. |
| Search.Scan | tic-tac-toe/script.js:139-161 | The loop of one search node yields a score once it has a seed or meets an empty square. The score stays within the same depth-dependent bounds, one level down. |
| Search.MinimaxIsOptimal | tic-tac-toe/script.js:139-161 | On a board still in play, the maximiser (placing O) scores at least every child and the minimiser (placing X) at most every child. Some empty square attains the score. |
| Search.TopScoreMeansWon | tic-tac-toe/script.js:135-161 | At most 9 - depth squares empty, a score of exactly 10 - depth means O has already won. |
| Search.MoveScore | tic-tac-toe/script.js:117-120 | The score the best-move loop gives an empty square lies in [-10, 10]. It is exactly 10 when the board with O there is won by O, and below 10 otherwise. |
| Search.ScanBest | tic-tac-toe/script.js:116-127 | The best-move loop ends with a choice exactly when it had one or meets an empty square. Its choice is an empty square and carries that square's score. |
| Search.ScanBestIsFirstMaximum | tic-tac-toe/script.js:116-127 | The choice scores at least every empty square it scanned. It leaves its seed only for a strictly higher score, and every empty square before the choice scores strictly less, so ties keep the lowest index. |
| Search.GetBestMove | tic-tac-toe/script.js:112-130 | A move is returned exactly when the board has an empty square. It is empty and of maximal score, and every empty square before it scores strictly less. |
| Search.PickIndex | tic-tac-toe/script.js:170 | `Math.floor(u * n)` is a position below n, and u * n lies in [k, k + 1). |
| Search.RandomMove | tic-tac-toe/script.js:165-171 | A random move exists exactly when the board is not full, and it is an empty square. |
| Search.RandomMoveIsUniform | tic-tac-toe/script.js:170 | The k-th of n empty squares is chosen exactly for draws in [k/n, (k+1)/n), an interval of width 1/n. |
| Search.CompletingMoveScoresTop | tic-tac-toe/script.js:116-121 | On a board in play, a square where O completes a line gets the top score 10 from the best-move loop. |
| Search.TopMoveScoreCompletesLine | tic-tac-toe/script.js:116-121 | A square whose score reaches 10 is one where O completes a line. |
| Search.ChooseMove | tic-tac-toe/script.js:94-104 | At every difficulty and for every random draw, the engine's choice is an empty square, and there is one exactly when the board is not full. `easy`, and `medium` with a draw of at least 0.6, play the uniform random move. `impossible`, and `medium` with a draw below 0.6, play an empty square of maximal score, and every empty square before it scores strictly less. |
| Search.ImpossibleTakesImmediateWin | tic-tac-toe/script.js:101-103 | On a board in play where O can complete a line at once, the `impossible` engine plays a square that completes a line for O. |
| Engine.HandleWin | tic-tac-toe/script.js:201-212 | An X win adds one to `player`, an O win one to `ai`. The other counters are unchanged, so the total grows by exactly one. |
| Engine.HandleDraw | tic-tac-toe/script.js:214-219 | A draw adds one to `draw` and leaves `player` and `ai` unchanged, so the total grows by exactly one. |
| Engine.CheckGameStatus | tic-tac-toe/script.js:174-219 | The game goes off exactly when the board is won or full. An X win adds one to `player`, an O win one to `ai`, a draw one to `draw`, and nothing else changes. An unfinished board changes nothing. |
| Engine.MakeMove | tic-tac-toe/script.js:75-87 | Square i gets the mark and the other 8 squares are unchanged. The game stays on exactly when it was on and the new board is in progress. The turn passes only while the game stays on. The tally grows by one exactly when the new board is finished. |
| Engine.HandleCellClick | tic-tac-toe/script.js:61-73 | A click changes nothing and schedules nothing unless the square is empty, the game is on and it is X's turn. Otherwise it makes X's move and schedules the engine's reply exactly when the game goes on. |
| Engine.AiMove | tic-tac-toe/script.js:89-109 | As written: when the game is off nothing changes. Otherwise the engine writes O through `makeMove`, whoever's turn it is. The square is the one the difficulty switch (`Search.ChooseMove`) picks at the game's level, and it is empty. |
| Engine.GuardedAiMove | tic-tac-toe/script.js:89-109 | Corrected: nothing changes unless the game is on and it is O's turn. Then O is written through `makeMove` on the empty square the difficulty switch (`Search.ChooseMove`) picks at the game's level. |
| Engine.ImpossibleReplyWins | tic-tac-toe/script.js:89-109 | At the `impossible` level, in O's turn on a board in play where O can complete a line, the guarded reply ends the game and adds one to `ai`. |
| Engine.WinningMoveEndsGame | tic-tac-toe/script.js:75-87 | O's move that completes a line on a board in play turns the game off and adds exactly one to `ai`, as `makeMove`, `checkGameStatus` and `handleWin` do together. |
| Engine.Restart | tic-tac-toe/script.js:267-279 | All nine squares empty, X to move, game on; difficulty and scores kept. |
| Engine.ResetScores | tic-tac-toe/script.js:281-286 | All three counters are zero and the game is restarted. |
| Engine.SelectDifficulty | tic-tac-toe/script.js:43-50 | The chosen level is stored and the game is restarted. |
| Engine.RestartEstablishesInv | tic-tac-toe/script.js:267-279 | A fresh game satisfies the game invariant: marks balanced, a game that is on is in progress, X to move exactly when the counts are equal, and at most one mark has a line. |
| Engine.MovePreservesInv | tic-tac-toe/script.js:75-87 | The move of the side whose turn it is, on an empty square of a game that is on, keeps the invariant. |
| Engine.ClickPreservesInv | tic-tac-toe/script.js:61-73 | A click keeps the invariant: it is ignored, or it is X's move on an empty square in X's turn. |
| Engine.ReplyPreservesInv | tic-tac-toe/script.js:89-109 | The turn-guarded reply keeps the invariant: it is ignored, or it is O's move on an empty square in O's turn. |
| Engine.Step | tic-tac-toe/script.js:38-50 | One event, with the turn-guarded reply (`Engine.GuardedAiMove`) on the timer. A click or the timer changes nothing once the game is off, and the reply changes nothing in X's turn. Every button gives an empty board, X to move and the game on. Only a difficulty button changes the level. Reset zeroes the scores, and Restart and the difficulty buttons keep them. |
| Engine.StepPreservesInv | tic-tac-toe/script.js:38-50 | With the turn-guarded reply (`Engine.GuardedAiMove`), each event keeps the invariant: a click, the engine's timer firing at any moment, restart, reset, or a difficulty button. As written, the reply breaks it (`Engine.PendingReplyAfterRestartDeadlocks`). |
| Engine.RunPreservesInv | tic-tac-toe/script.js:38-50 | With the turn-guarded reply (`Engine.GuardedAiMove`), every sequence of events keeps the invariant. |
| Engine.ReachableGamesAreSound | tic-tac-toe/script.js:1-10 | With the turn-guarded reply (`Engine.GuardedAiMove`), from the starting state, after any events, X has as many marks as O or one more, and never do both marks have a line. |
| Engine.FinishedGameIsFrozen | tic-tac-toe/script.js:64 | Once a game is over, clicks and the engine's timer change nothing, so a game reaches its end state once. |
| Engine.ScoresChangeOnlyAtGameEnd | tic-tac-toe/script.js:174-184 | A click or the engine's move changes the scores only by ending a game that was on, and then the total grows by exactly one. |
| Engine.PendingReplyAfterRestartDeadlocks | tic-tac-toe/script.js:70-90 | A click schedules the engine's reply; after a restart, the reply as written plays O first. The game is then on with O to move, X 0 marks against O's 1, the invariant broken, and every click ignored. The guarded reply leaves the fresh game alone. |
| Engine.ReplyOnFreshBoard | tic-tac-toe/script.js:75-87 | O's move through `makeMove` on a fresh game in X's turn leaves the game on with O to move. X then has no mark and O one, the invariant fails, and every click is ignored. |
| InPlace.MinimaxInPlace | tic-tac-toe/script.js:132-162 | Minimax on the shared array returns the functional minimax of the board it started with, and the array is restored to that board. |
| InPlace.TryInPlace | tic-tac-toe/script.js:141-157 | Placing the mover's mark on an empty square of the shared array, scoring the child and clearing the square returns the child's functional score and leaves the array unchanged. |
| InPlace.GetBestMoveInPlace | tic-tac-toe/script.js:112-130 | The best-move loop on the shared array returns the functional best move and leaves the array unchanged. |
| Scenarios.TopRowWin | tic-tac-toe/script.js:61-87 | With X on squares 0 and 1, a click on square 2 completes the first line of the table. X wins, the game stops, no reply is scheduled, and the scores become 1 / 0 / 0. |
| Scenarios.FullBoardDraw | tic-tac-toe/script.js:174-199 | The full board X O X / O X O / O X O has no line. It is a draw, credited to the draw counter. |

## Left out

- Everything the page draws: cell text and classes, the modal, `updateCurrentPlayer`, `updateScoreDisplay`, confetti, floating draggable shapes and particles. They are presentation only and use floating-point geometry.
- `drawWinLine`, which `checkWinner` calls as a side effect. It is a rendering effect, and `Grid.Winner` is pure. Because `minimax` calls `checkWinner` too, the page can draw a line for a board that exists only inside the search.
- The 500 ms `setTimeout` before the engine's reply. The event loop (`Engine.Step`) lets the reply fire at any moment, which covers every delay. `Engine.Step` runs the turn-guarded reply (`Engine.GuardedAiMove`). The reply as written is `Engine.AiMove`, and for it the invariant fails (see "## Findings").
- `Math.random()`: every draw is an explicit `Random` argument.
- `saveScores` and `loadScores` (local storage). `Engine.Start` begins with zero scores. The invariant does not depend on the scores, so any loaded tally gives the same results.
- `closeModalAndRestart`: besides hiding the modal it only calls `restartGame`, which `Engine.Restart` models.
- A `difficulty` value other than the three buttons' levels: only those three can be set.
- Search.ChooseMove: it does not prove that `impossible` never loses when it plays second. That needs the value of the whole game tree from the empty board, which is too large to evaluate inside the verifier. `Search.ImpossibleTakesImmediateWin` and `Search.GetBestMove` state the local optimality instead.
- Search.ChooseMove: the claim that `medium` loses some games against a perfect player is statistical and is not stated.
- Search.RandomMoveIsUniform: the draw is an exact real in [0, 1). `Math.random()` returns an IEEE double, so the intervals [k/n, (k+1)/n) hold exactly only over the reals. Rounding in `Math.random() * n` is not modelled.
- Search.ChooseMove: the `medium` threshold `blend < 0.6` compares against the exact real 0.6. The page compares doubles, and the double written `0.6` lies just below the real 0.6. A draw equal to that double therefore plays the best move in the model and the random move on the page.
- Search.RandomMove: on a full board the page reads past the end of the empty list and `makeMove` then fails on an undefined square. The model returns no move there. No game that is still on has a full board.

## Findings

| source | as written | input that shows it | evidently intended | confidence | as-written member | corrected member |
|---|---|---|---|---|---|---|
| tic-tac-toe/script.js:89-90 | `aiMove` checks only `gameActive`, not whose turn it is. | Click a square, then press Restart (or a difficulty button) within the 500 ms delay. The pending reply plays O on the fresh board and passes the turn to O. Every later click is then ignored until the next restart. | The engine moves only when `currentPlayer` is `'O'`. | medium, not executed | Engine.AiMove, shown by Engine.PendingReplyAfterRestartDeadlocks | Engine.GuardedAiMove, used by Engine.Step, with Engine.StepPreservesInv and Engine.RunPreservesInv |
