/** The search as the game runs it: on one shared mutable board, placing a
    trial mark, recursing, and clearing the square again. Each method computes
    the same value as its functional counterpart in `Search` and leaves the
    board as it found it. */
module InPlace {
  import opened Grid
  import opened Search

  /** Minimax on the shared board. */
  method MinimaxInPlace(a: array<Cell>, depth: nat, maximizing: bool) returns (score: int)
    requires a.Length == 9
    modifies a
    ensures a[..] == old(a[..])
    ensures score == Minimax(old(a[..]), depth, maximizing)
    decreases EmptyCount(a[..]), 1
  {
    var b: Board := a[..];
    var w := Winner(b);
    if w == Some(O) {
      return 10 - depth;
    }
    if w == Some(X) {
      return depth - 10;
    }
    if IsFull(b) {
      return 0;
    }
    var best: Option<int> := None;
    var i := 0;
    while i < 9
      invariant 0 <= i <= 9
      invariant a[..] == b
      invariant Scan(b, depth, maximizing, i, best) == Scan(b, depth, maximizing, 0, None)
    {
      if a[i] == Empty {
        ScanTries(b, depth, maximizing, i, best);
        var s := TryInPlace(a, depth, maximizing, i);
        best := Some(Combine(maximizing, best, s));
      } else {
        ScanSkips(b, depth, maximizing, i, best);
      }
      i := i + 1;
    }
    score := best.value;
  }

  /** One child of a minimax node: the mover's mark is placed on empty square
      `i`, the child is scored, and the square is cleared again. */
  method TryInPlace(a: array<Cell>, depth: nat, maximizing: bool, i: Index) returns (score: int)
    requires a.Length == 9 && a[i] == Empty
    modifies a
    ensures a[..] == old(a[..])
    ensures score == ChildScore(old(a[..]), depth, maximizing, i)
    decreases EmptyCount(a[..]), 0
  {
    ghost var b: Board := a[..];
    var mark := Mover(maximizing);
    a[i] := mark;
    assert a[..] == b[i := mark];
    PlaceShrinksEmpties(b, i, mark);
    score := MinimaxInPlace(a, depth + 1, !maximizing);
    a[i] := Empty;
    assert a[..] == b;
  }

  /** The engine's best move on the shared board: each empty square is tried
      with O, scored, and cleared; a strictly higher score replaces the choice. */
  method GetBestMoveInPlace(a: array<Cell>, pick: Random) returns (move: Option<Index>)
    requires a.Length == 9
    modifies a
    ensures a[..] == old(a[..])
    ensures move == GetBestMove(old(a[..]), pick)
  {
    var b: Board := a[..];
    ghost var scores := MoveScores(b);
    var best: Option<Choice> := None;
    var i := 0;
    while i < 9
      invariant 0 <= i <= 9
      invariant a[..] == b
      invariant ValidChoice(b, scores, i, best)
      invariant ScanBest(b, scores, i, best) == ScanBest(b, scores, 0, None)
    {
      if a[i] == Empty {
        a[i] := O;
        assert a[..] == b[i := O];
        var s := MinimaxInPlace(a, 0, false);
        a[i] := Empty;
        assert a[..] == b;
        if best.None? || s > best.value.score {
          best := Some(Choice(i, s));
        }
      }
      i := i + 1;
    }
    if best.Some? {
      move := Some(best.value.cell);
    } else {
      move := RandomMove(b, pick);
    }
  }
}
