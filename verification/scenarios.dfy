/** Concrete games: a top-row win for X and a full board without a line. */
module Scenarios {
  import opened Grid
  import opened Search
  import opened Engine

  /** With X on squares 0 and 1, a click on square 2 completes the top row:
      the first completed line is the table's first, X wins, the game stops
      and the human's counter goes up by one. */
  lemma TopRowWin()
    ensures var g := Game([X, X, Empty, Empty, Empty, Empty, Empty, Empty, Empty], X, true, Impossible, Scores(0, 0, 0));
      var r := HandleCellClick(g, 2);
      && Completes(r.0.board, Lines[0])
      && Winner(r.0.board) == Some(X)
      && Evaluate(r.0.board) == Won(X)
      && !r.0.active && !r.1
      && r.0.scores == Scores(1, 0, 0)
  {
    var g := Game([X, X, Empty, Empty, Empty, Empty, Empty, Empty, Empty], X, true, Impossible, Scores(0, 0, 0));
    var b: Board := [X, X, X, Empty, Empty, Empty, Empty, Empty, Empty];
    assert g.board[2 := X] == b;
    assert Completes(b, Lines[0]);
    assert Winner(b) == Some(X);
  }

  /** The full board X O X / O X O / O X O has no line: a draw, credited to
      the draw counter. */
  lemma FullBoardDraw()
    ensures var b: Board := [X, O, X, O, X, O, O, X, O];
      && Evaluate(b) == Draw
      && CheckGameStatus(Game(b, X, true, Medium, Scores(0, 0, 0))).scores == Scores(0, 0, 1)
  {
    var b: Board := [X, O, X, O, X, O, O, X, O];
    assert forall k :: 0 <= k < |Lines| ==> !Completes(b, Lines[k]);
    assert Winner(b) == None;
    assert IsFull(b);
  }
}
