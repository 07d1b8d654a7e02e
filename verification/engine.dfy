/** The game's state machine: the board, whose turn it is, whether the game is
    still on, the difficulty and the score tally, updated by the click handler,
    the engine's move, the status check and the restart and reset buttons. */
module Engine {
  import opened Grid
  import opened Search

  /** Games won by the human, games won by the engine, draws. */
  datatype Scores = Scores(player: nat, ai: nat, draw: nat)

  function Total(s: Scores): nat
  {
    s.player + s.ai + s.draw
  }

  datatype Game = Game(board: Board, current: Mark, active: bool, difficulty: Difficulty, scores: Scores)

  /** The state the page starts in, before any stored scores are loaded. */
  const Start: Game := Game(EmptyBoard, X, true, Medium, Scores(0, 0, 0))

  // ----- Status and scores -----

  /** The tally after a win: the winner's counter goes up by one. */
  function HandleWin(s: Scores, winner: Mark): (r: Scores)
    ensures r.player == s.player + (if winner == X then 1 else 0)
    ensures r.ai == s.ai + (if winner == O then 1 else 0)
    ensures r.draw == s.draw
    ensures Total(r) == Total(s) + 1
  {
    if winner == X then s.(player := s.player + 1) else s.(ai := s.ai + 1)
  }

  /** The tally after a draw: only the draw counter goes up, by one. */
  function HandleDraw(s: Scores): (r: Scores)
    ensures r.player == s.player && r.ai == s.ai && r.draw == s.draw + 1
    ensures Total(r) == Total(s) + 1
  {
    s.(draw := s.draw + 1)
  }

  /** The status check after a move: a winner or a full board ends the game and
      credits the outcome to exactly one counter; otherwise nothing changes. */
  function CheckGameStatus(g: Game): (r: Game)
    ensures r.board == g.board && r.current == g.current && r.difficulty == g.difficulty
    ensures r.active == (g.active && Evaluate(g.board) == InProgress)
    ensures Evaluate(g.board) == Won(X) ==> r.scores == g.scores.(player := g.scores.player + 1)
    ensures Evaluate(g.board) == Won(O) ==> r.scores == g.scores.(ai := g.scores.ai + 1)
    ensures Evaluate(g.board) == Draw ==> r.scores == g.scores.(draw := g.scores.draw + 1)
    ensures Evaluate(g.board) == InProgress ==> r == g
    ensures Total(r.scores) == Total(g.scores) + (if Evaluate(g.board) == InProgress then 0 else 1)
  {
    match Winner(g.board)
    case Some(w) => g.(active := false, scores := HandleWin(g.scores, w))
    case None =>
      if IsFull(g.board) then g.(active := false, scores := HandleDraw(g.scores)) else g
  }

  // ----- Moves -----

  /** Writes `p` on square `i`, checks the status, and passes the turn if the
      game goes on. */
  function MakeMove(g: Game, i: Index, p: Mark): (r: Game)
    ensures r.board[i] == p
    ensures forall j: Index :: j != i ==> r.board[j] == g.board[j]
    ensures r.active == (g.active && Evaluate(r.board) == InProgress)
    ensures r.current == (if r.active then Other(g.current) else g.current)
    ensures r.difficulty == g.difficulty
    ensures Total(r.scores) == Total(g.scores) + (if Evaluate(r.board) == InProgress then 0 else 1)
  {
    var checked := CheckGameStatus(g.(board := g.board[i := p]));
    if checked.active then checked.(current := Other(checked.current)) else checked
  }

  /** A click on square `i` by the human. It is ignored unless the square is
      empty, the game is on and it is X's turn; the flag says whether the
      engine's reply is scheduled. */
  function HandleCellClick(g: Game, i: Index): (r: (Game, bool))
    ensures !(g.board[i] == Empty && g.active && g.current == X) ==> r == (g, false)
    ensures g.board[i] == Empty && g.active && g.current == X ==>
      r.0 == MakeMove(g, i, X) && (r.1 <==> r.0.active)
  {
    if g.board[i] != Empty || !g.active || g.current != X then (g, false)
    else
      var next := MakeMove(g, i, X);
      (next, next.active && next.current == O)
  }

  /** The engine's move, as the game runs it when its timer fires: it checks
      only that the game is on, not whose turn it is. */
  function AiMove(g: Game, blend: Random, pick: Random): (r: Game)
    ensures !g.active ==> r == g
    ensures g.active && !IsFull(g.board) ==>
      exists i: Index :: g.board[i] == Empty && r == MakeMove(g, i, O)
    ensures g.active && !IsFull(g.board) ==>
      r.board == g.board[ChooseMove(g.board, g.difficulty, blend, pick).value := O]
  {
    if !g.active then g
    else match ChooseMove(g.board, g.difficulty, blend, pick)
      case None => g
      case Some(i) => MakeMove(g, i, O)
  }

  /** The engine's move guarded as intended: it plays only while the game is
      on and it is O's turn. */
  function GuardedAiMove(g: Game, blend: Random, pick: Random): (r: Game)
    ensures !(g.active && g.current == O) ==> r == g
    ensures g.active && g.current == O && !IsFull(g.board) ==>
      exists i: Index :: g.board[i] == Empty && r == MakeMove(g, i, O)
    ensures g.active && g.current == O && !IsFull(g.board) ==>
      r.board == g.board[ChooseMove(g.board, g.difficulty, blend, pick).value := O]
  {
    if g.current != O then g else AiMove(g, blend, pick)
  }

  // ----- Controls -----

  /** A fresh game: empty board, X to move, game on; difficulty and scores
      are kept. */
  function Restart(g: Game): (r: Game)
    ensures forall i: Index :: r.board[i] == Empty
    ensures r.current == X && r.active
    ensures r.difficulty == g.difficulty && r.scores == g.scores
  {
    Game(EmptyBoard, X, true, g.difficulty, g.scores)
  }

  /** All three counters back to zero, then a fresh game. */
  function ResetScores(g: Game): (r: Game)
    ensures r.scores == Scores(0, 0, 0)
    ensures r == Restart(g).(scores := Scores(0, 0, 0))
  {
    Restart(g.(scores := Scores(0, 0, 0)))
  }

  /** A difficulty button: the new level, then a fresh game. */
  function SelectDifficulty(g: Game, d: Difficulty): (r: Game)
    ensures r.difficulty == d
    ensures r == Restart(g).(difficulty := d)
  {
    Restart(g.(difficulty := d))
  }

  // ----- Events and the invariant -----

  /** What can happen to the game: a click on a square, the engine's timer
      firing with its random draws, and the three buttons. */
  datatype Event =
    | Click(square: Index)
    | AiTimer(blend: Random, pick: Random)
    | RestartPressed
    | ResetPressed
    | DifficultyPressed(level: Difficulty)

  /** One event, with the engine's move guarded by the turn. The timer may fire
      at any moment, which covers every interleaving of the delayed reply with
      the buttons. */
  function Step(g: Game, e: Event): (r: Game)
    ensures (e.Click? || e.AiTimer?) && !g.active ==> r == g
    ensures e.AiTimer? && g.current == X ==> r == g
    ensures e.RestartPressed? || e.ResetPressed? || e.DifficultyPressed? ==>
      r.board == EmptyBoard && r.current == X && r.active
    ensures r.difficulty == (if e.DifficultyPressed? then e.level else g.difficulty)
    ensures e.ResetPressed? ==> r.scores == Scores(0, 0, 0)
    ensures e.RestartPressed? || e.DifficultyPressed? ==> r.scores == g.scores
  {
    match e
    case Click(i) => HandleCellClick(g, i).0
    case AiTimer(blend, pick) => GuardedAiMove(g, blend, pick)
    case RestartPressed => Restart(g)
    case ResetPressed => ResetScores(g)
    case DifficultyPressed(d) => SelectDifficulty(g, d)
  }

  function Run(g: Game, es: seq<Event>): Game
    decreases |es|
  {
    if es == [] then g else Run(Step(g, es[0]), es[1..])
  }

  /** X has as many marks as O, or one more. */
  predicate Balanced(b: Board)
  {
    Count(b, X) == Count(b, O) || Count(b, X) == Count(b, O) + 1
  }

  /** The game invariant: marks alternate, a game that is on has no line and a
      free square, it is X's turn exactly when the counts are equal, and never
      do both marks have a line. */
  predicate Inv(g: Game)
  {
    && Balanced(g.board)
    && (g.active ==> Evaluate(g.board) == InProgress)
    && (g.active ==> (g.current == X <==> Count(g.board, X) == Count(g.board, O)))
    && !(HasLine(g.board, X) && HasLine(g.board, O))
  }

  /** A fresh game satisfies the invariant. */
  lemma RestartEstablishesInv(g: Game)
    ensures Inv(Restart(g))
  {
    var b := Restart(g).board;
    CountZeroIffAbsent(b, X);
    CountZeroIffAbsent(b, O);
    assert b[0] == Empty;
    EvaluateSpec(b);
  }

  /** The move of the side whose turn it is, on an empty square of a game that
      is on, keeps the invariant. */
  lemma MovePreservesInv(g: Game, i: Index)
    requires Inv(g) && g.active && g.board[i] == Empty
    ensures Inv(MakeMove(g, i, g.current))
  {
    var p := g.current;
    var r := MakeMove(g, i, p);
    assert r.board == g.board[i := p];
    CountUpdate(g.board, i, p, X);
    CountUpdate(g.board, i, p, O);
    EvaluateSpec(g.board);
    EvaluateSpec(r.board);
    PlacingKeepsOthersLines(g.board, i, p);
  }

  /** A click keeps the invariant: it is ignored or is X's move in turn. */
  lemma ClickPreservesInv(g: Game, i: Index)
    requires Inv(g)
    ensures Inv(HandleCellClick(g, i).0)
  {
    if g.board[i] == Empty && g.active && g.current == X {
      MovePreservesInv(g, i);
    }
  }

  /** The turn-guarded reply keeps the invariant: it is ignored or is O's
      move in turn. */
  lemma ReplyPreservesInv(g: Game, blend: Random, pick: Random)
    requires Inv(g)
    ensures Inv(GuardedAiMove(g, blend, pick))
  {
    if g.active && g.current == O {
      EvaluateSpec(g.board);
      var i: Index :| g.board[i] == Empty && GuardedAiMove(g, blend, pick) == MakeMove(g, i, O);
      MovePreservesInv(g, i);
    }
  }

  /** Every event keeps the invariant. */
  lemma StepPreservesInv(g: Game, e: Event)
    requires Inv(g)
    ensures Inv(Step(g, e))
  {
    match e
    case Click(i) =>
      ClickPreservesInv(g, i);
      assert Step(g, e) == HandleCellClick(g, i).0;
    case AiTimer(blend, pick) =>
      ReplyPreservesInv(g, blend, pick);
      assert Step(g, e) == GuardedAiMove(g, blend, pick);
    case RestartPressed =>
      RestartEstablishesInv(g);
      assert Step(g, e) == Restart(g);
    case ResetPressed =>
      RestartEstablishesInv(g.(scores := Scores(0, 0, 0)));
      assert Step(g, e) == Restart(g.(scores := Scores(0, 0, 0)));
    case DifficultyPressed(d) =>
      RestartEstablishesInv(g.(difficulty := d));
      assert Step(g, e) == Restart(g.(difficulty := d));
  }

  /** Every sequence of events keeps the invariant. */
  lemma {:induction false} RunPreservesInv(g: Game, es: seq<Event>)
    requires Inv(g)
    ensures Inv(Run(g, es))
    decreases |es|
  {
    if es != [] {
      StepPreservesInv(g, es[0]);
      RunPreservesInv(Step(g, es[0]), es[1..]);
    }
  }

  /** From the starting page, whatever happens, the marks stay balanced and
      at most one mark ever has three in a row. */
  lemma ReachableGamesAreSound(es: seq<Event>)
    ensures Balanced(Run(Start, es).board)
    ensures !(HasLine(Run(Start, es).board, X) && HasLine(Run(Start, es).board, O))
  {
    RestartEstablishesInv(Start);
    assert Restart(Start) == Start;
    RunPreservesInv(Start, es);
  }

  /** Once a game is over, clicks and the engine's timer change nothing: the
      tally moves once per game. */
  lemma FinishedGameIsFrozen(g: Game, e: Event)
    requires !g.active && (e.Click? || e.AiTimer?)
    ensures Step(g, e) == g
  {
  }

  /** Clicks and the engine's timer change the scores only by ending the game,
      and then by one. */
  lemma ScoresChangeOnlyAtGameEnd(g: Game, e: Event)
    requires e.Click? || e.AiTimer?
    ensures Step(g, e).scores != g.scores ==>
      g.active && !Step(g, e).active && Total(Step(g, e).scores) == Total(g.scores) + 1
  {
    var r := Step(g, e);
    if r.scores != g.scores {
      if e.Click? {
        assert r == MakeMove(g, e.square, X);
      } else {
        EvaluateSpec(g.board);
      }
    }
  }

  /** At the `impossible` level, when O can complete a line, the guarded
      reply wins: the game ends and the engine's counter goes up by one. */
  lemma ImpossibleReplyWins(g: Game, i: Index, blend: Random, pick: Random)
    requires g.active && g.current == O && g.difficulty == Impossible
    requires Evaluate(g.board) == InProgress
    requires g.board[i] == Empty && HasLine(g.board[i := O], O)
    ensures var r := GuardedAiMove(g, blend, pick);
      !r.active && r.scores == g.scores.(ai := g.scores.ai + 1)
  {
    ImpossibleTakesImmediateWin(g.board, i, blend, pick);
    var c := ChooseMove(g.board, Impossible, blend, pick).value;
    assert GuardedAiMove(g, blend, pick) == MakeMove(g, c, O);
    WinningMoveEndsGame(g, c);
  }

  /** O's move that completes a line on a board in play ends the game as a
      win for O: the engine's counter goes up by one. */
  lemma WinningMoveEndsGame(g: Game, c: Index)
    requires g.active && Evaluate(g.board) == InProgress
    requires g.board[c] == Empty && HasLine(g.board[c := O], O)
    ensures var r := MakeMove(g, c, O);
      !r.active && r.scores == g.scores.(ai := g.scores.ai + 1)
  {
    var next := g.board[c := O];
    EvaluateSpec(g.board);
    PlacingKeepsOthersLines(g.board, c, O);
    WinnerSpec(next);
    assert Evaluate(next) == Won(O);
  }

  // ----- The delayed reply -----

  /** A single mark on an empty board neither wins nor fills it. */
  lemma SingleMarkInProgress(i: Index, m: Mark)
    ensures Evaluate(EmptyBoard[i := m]) == InProgress
  {
    var b := EmptyBoard[i := m];
    assert forall j: Index :: j != i ==> b[j] == Empty;
    LinesAreGridLines();
    forall k | 0 <= k < |Lines|
      ensures !Owns(b, Lines[k], X) && !Owns(b, Lines[k], O)
    {
      var l := Lines[k];
      assert l.a < l.b;
      if l.a == i {
        assert b[l.b] == Empty;
      } else {
        assert b[l.a] == Empty;
      }
    }
    EvaluateSpec(b);
    assert b[if i == 0 then 1 else 0] == Empty;
  }

  /** The engine's reply that a click schedules still fires after Restart.
      Since the engine's move as written checks only that a game is on, it then
      plays first on the fresh board and hands the turn to O: every later click
      is ignored, nothing is left to move for X, and O has one mark more than
      X. The turn-guarded move leaves the fresh game alone. */
  lemma PendingReplyAfterRestartDeadlocks(blend: Random, pick: Random)
    ensures HandleCellClick(Start, 4).1
    ensures var stuck := AiMove(Restart(HandleCellClick(Start, 4).0), blend, pick);
      && stuck.active && stuck.current == O
      && Count(stuck.board, X) == 0 && Count(stuck.board, O) == 1
      && !Inv(stuck)
      && (forall i: Index :: HandleCellClick(stuck, i) == (stuck, false))
    ensures var restarted := Restart(HandleCellClick(Start, 4).0);
      GuardedAiMove(restarted, blend, pick) == restarted
  {
    SingleMarkInProgress(4, X);
    var restarted := Restart(HandleCellClick(Start, 4).0);
    assert restarted.board == EmptyBoard;
    assert restarted.board[0] == Empty;
    var c := ChooseMove(restarted.board, restarted.difficulty, blend, pick).value;
    assert AiMove(restarted, blend, pick) == MakeMove(restarted, c, O);
    ReplyOnFreshBoard(restarted, c);
  }

  /** O's move on a fresh game, in X's turn: the game stays on with O to move,
      X has no mark and O one, the invariant fails and every click is ignored. */
  lemma ReplyOnFreshBoard(g: Game, c: Index)
    requires g.board == EmptyBoard && g.active && g.current == X
    ensures var stuck := MakeMove(g, c, O);
      && stuck.active && stuck.current == O
      && Count(stuck.board, X) == 0 && Count(stuck.board, O) == 1
      && !Inv(stuck)
      && (forall i: Index :: HandleCellClick(stuck, i) == (stuck, false))
  {
    SingleMarkInProgress(c, O);
    var stuck := MakeMove(g, c, O);
    assert stuck.board == EmptyBoard[c := O];
    CountZeroIffAbsent(EmptyBoard, X);
    CountZeroIffAbsent(EmptyBoard, O);
    CountUpdate(EmptyBoard, c, O, X);
    CountUpdate(EmptyBoard, c, O, O);
  }
}
