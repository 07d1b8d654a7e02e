/** The engine's move selection: exhaustive minimax with depth-biased scores,
    the lowest-index best move, the random move and the difficulty switch.
    Every call to Math.random() is an explicit `Random` argument. */
module Search {
  import opened Grid

  /** One draw of Math.random(): a real number in [0, 1). */
  type Random = u: real | 0.0 <= u < 1.0

  datatype Difficulty = Easy | Medium | Impossible

  /** Under Medium, the share of draws below which the best move is played. */
  const MediumBestOdds: real := 0.6

  /** The mark placed by the side to move: the maximiser is the engine (O),
      the minimiser the human (X). */
  function Mover(maximizing: bool): Mark
  {
    if maximizing then O else X
  }

  /** Math.max or Math.min of a new score and the best so far, where `None`
      stands for the -Infinity or +Infinity the search loops start from. */
  function Combine(maximizing: bool, best: Option<int>, score: int): int
  {
    match best
    case None => score
    case Some(v) =>
      if maximizing then (if score > v then score else v)
      else (if score < v then score else v)
  }

  // ----- Minimax -----

  /** The value of board `b` for the engine, `depth` moves below the search
      root, with `maximizing` telling whose turn it is. A win for O scores
      10 - depth, a win for X depth - 10, a draw 0; otherwise the best of the
      children for the side to move. */
  function Minimax(b: Board, depth: nat, maximizing: bool): (r: int)
    ensures Winner(b) == Some(O) ==> r == 10 - depth
    ensures Winner(b) == Some(X) ==> r == depth - 10
    ensures Winner(b).None? && IsFull(b) ==> r == 0
    ensures depth + EmptyCount(b) <= 10 ==> -10 + depth <= r <= 10 - depth
    decreases EmptyCount(b), 1
  {
    var w := Winner(b);
    if w == Some(O) then 10 - depth
    else if w == Some(X) then depth - 10
    else if IsFull(b) then 0
    else Scan(b, depth, maximizing, 0, None).value
  }

  /** The loop over squares `i`..8 of one minimax node: each empty square is
      tried with the mover's mark and its score folded into `best`. */
  function Scan(b: Board, depth: nat, maximizing: bool, i: nat, best: Option<int>): (r: Option<int>)
    requires i <= 9
    ensures best.Some? || (exists j :: i <= j < 9 && b[j] == Empty) ==> r.Some?
    ensures depth + EmptyCount(b) <= 10 && (best.Some? ==> -9 + depth <= best.value <= 9 - depth)
      ==> (r.Some? ==> -9 + depth <= r.value <= 9 - depth)
    decreases EmptyCount(b), 0, 9 - i
  {
    if i == 9 then best
    else if b[i] == Empty then
      PlaceShrinksEmpties(b, i, Mover(maximizing));
      var score := Minimax(b[i := Mover(maximizing)], depth + 1, !maximizing);
      Scan(b, depth, maximizing, i + 1, Some(Combine(maximizing, best, score)))
    else Scan(b, depth, maximizing, i + 1, best)
  }

  /** One step of the scan past an occupied square. */
  lemma ScanSkips(b: Board, depth: nat, maximizing: bool, i: nat, best: Option<int>)
    requires i < 9 && b[i] != Empty
    ensures Scan(b, depth, maximizing, i, best) == Scan(b, depth, maximizing, i + 1, best)
  {
  }

  /** One step of the scan over an empty square: its child's score is folded in. */
  lemma ScanTries(b: Board, depth: nat, maximizing: bool, i: Index, best: Option<int>)
    requires b[i] == Empty
    ensures Scan(b, depth, maximizing, i, best) ==
      Scan(b, depth, maximizing, i + 1, Some(Combine(maximizing, best, ChildScore(b, depth, maximizing, i))))
  {
  }

  /** The score of trying the mover's mark on empty square `i`. */
  function ChildScore(b: Board, depth: nat, maximizing: bool, i: Index): int
    requires b[i] == Empty
  {
    Minimax(b[i := Mover(maximizing)], depth + 1, !maximizing)
  }

  /** Better for the side to move: higher for the engine, lower for the human. */
  predicate AtLeastAsGood(maximizing: bool, x: int, y: int)
  {
    if maximizing then x >= y else x <= y
  }

  /** The scores of a node's children, square by square; occupied squares
      are never read. */
  function ChildScores(b: Board, depth: nat, maximizing: bool): (s: seq<int>)
    ensures |s| == 9
    ensures forall j: Index :: b[j] == Empty ==> s[j] == ChildScore(b, depth, maximizing, j)
  {
    seq(9, j requires 0 <= j < 9 => if b[j] == Empty then ChildScore(b, depth, maximizing, j) else 0)
  }

  /** The fold of one minimax loop over given child scores. */
  function Fold(maximizing: bool, b: Board, scores: seq<int>, i: nat, best: Option<int>): Option<int>
    requires |scores| == 9 && i <= 9
    decreases 9 - i
  {
    if i == 9 then best
    else if b[i] == Empty then Fold(maximizing, b, scores, i + 1, Some(Combine(maximizing, best, scores[i])))
    else Fold(maximizing, b, scores, i + 1, best)
  }

  /** The minimax loop is the fold over its children's scores. */
  lemma {:induction false} ScanIsFold(b: Board, depth: nat, maximizing: bool, i: nat, best: Option<int>)
    requires i <= 9
    ensures Scan(b, depth, maximizing, i, best) == Fold(maximizing, b, ChildScores(b, depth, maximizing), i, best)
    decreases 9 - i
  {
    if i < 9 {
      if b[i] == Empty {
        ScanTries(b, depth, maximizing, i, best);
        ScanIsFold(b, depth, maximizing, i + 1, Some(Combine(maximizing, best, ChildScore(b, depth, maximizing, i))));
      } else {
        ScanSkips(b, depth, maximizing, i, best);
        ScanIsFold(b, depth, maximizing, i + 1, best);
      }
    }
  }

  /** The fold's result is at least as good as everything it has seen. */
  lemma {:induction false} FoldIsExtreme(maximizing: bool, b: Board, scores: seq<int>, i: nat, best: Option<int>)
    requires |scores| == 9 && i <= 9
    requires Fold(maximizing, b, scores, i, best).Some?
    ensures best.Some? ==> AtLeastAsGood(maximizing, Fold(maximizing, b, scores, i, best).value, best.value)
    ensures forall j :: i <= j < 9 && b[j] == Empty ==>
      AtLeastAsGood(maximizing, Fold(maximizing, b, scores, i, best).value, scores[j])
    decreases 9 - i
  {
    if i < 9 {
      if b[i] == Empty {
        FoldIsExtreme(maximizing, b, scores, i + 1, Some(Combine(maximizing, best, scores[i])));
      } else {
        FoldIsExtreme(maximizing, b, scores, i + 1, best);
      }
    }
  }

  /** The fold's result is the seed it started from or the score of a square
      it passed. */
  lemma {:induction false} FoldIsAttained(maximizing: bool, b: Board, scores: seq<int>, i: nat, best: Option<int>)
    requires |scores| == 9 && i <= 9
    requires Fold(maximizing, b, scores, i, best).Some?
    ensures var v := Fold(maximizing, b, scores, i, best).value;
      (best.Some? && v == best.value) || exists j :: i <= j < 9 && b[j] == Empty && v == scores[j]
    decreases 9 - i
  {
    if i < 9 {
      if b[i] == Empty {
        FoldIsAttained(maximizing, b, scores, i + 1, Some(Combine(maximizing, best, scores[i])));
      } else {
        FoldIsAttained(maximizing, b, scores, i + 1, best);
      }
    }
  }

  /** On a board still in play, minimax is the score of the best child for the
      side to move: no child is better, and some child attains it. */
  lemma MinimaxIsOptimal(b: Board, depth: nat, maximizing: bool)
    requires Evaluate(b) == InProgress
    ensures forall j: Index :: b[j] == Empty ==>
      AtLeastAsGood(maximizing, Minimax(b, depth, maximizing), ChildScore(b, depth, maximizing, j))
    ensures exists j: Index :: (b[j] == Empty &&
      Minimax(b, depth, maximizing) == ChildScore(b, depth, maximizing, j))
  {
    var scores := ChildScores(b, depth, maximizing);
    ScanIsFold(b, depth, maximizing, 0, None);
    FoldIsExtreme(maximizing, b, scores, 0, None);
    FoldIsAttained(maximizing, b, scores, 0, None);
  }

  // ----- Best move -----

  /** The score the engine gives to playing O on empty square `i`. */
  function MoveScore(b: Board, i: Index): (r: int)
    requires b[i] == Empty
    ensures -10 <= r <= 10
    ensures r == 10 <==> Winner(b[i := O]) == Some(O)
  {
    PlaceShrinksEmpties(b, i, O);
    var r := Minimax(b[i := O], 0, false);
    if r == 10 then TopScoreMeansWon(b[i := O], 0, false); r else r
  }

  /** The score of every square as the best-move loop computes it, square by
      square; the loop never reads the score of an occupied square. */
  function MoveScores(b: Board): (s: seq<int>)
    ensures |s| == 9
    ensures forall i: Index :: b[i] == Empty ==> s[i] == MoveScore(b, i)
  {
    seq(9, i requires 0 <= i < 9 => if b[i] == Empty then MoveScore(b, i) else 0)
  }

  datatype Choice = Choice(cell: Index, score: int)

  /** A choice that records an empty square before `i` and its score. */
  predicate ValidChoice(b: Board, scores: seq<int>, i: nat, best: Option<Choice>)
    requires |scores| == 9
  {
    best.Some? ==>
      best.value.cell < i && b[best.value.cell] == Empty && best.value.score == scores[best.value.cell]
  }

  /** The best-move loop over squares `i`..8: a square replaces the current
      choice only with a strictly higher score, so ties keep the lower index. */
  function ScanBest(b: Board, scores: seq<int>, i: nat, best: Option<Choice>): (r: Option<Choice>)
    requires |scores| == 9 && i <= 9 && ValidChoice(b, scores, i, best)
    ensures r.Some? <==> best.Some? || exists j :: i <= j < 9 && b[j] == Empty
    ensures ValidChoice(b, scores, 9, r)
    decreases 9 - i
  {
    if i == 9 then best
    else if b[i] == Empty then
      if best.None? || scores[i] > best.value.score then ScanBest(b, scores, i + 1, Some(Choice(i, scores[i])))
      else ScanBest(b, scores, i + 1, best)
    else ScanBest(b, scores, i + 1, best)
  }

  /** The scan keeps a square of maximal score, and the first one: it moves
      off its seed only to a strictly better square, and every square it
      passes before its choice scores strictly less. */
  lemma {:induction false} ScanBestIsFirstMaximum(b: Board, scores: seq<int>, i: nat, best: Option<Choice>)
    requires |scores| == 9 && i <= 9 && ValidChoice(b, scores, i, best)
    requires ScanBest(b, scores, i, best).Some?
    ensures var c := ScanBest(b, scores, i, best).value;
      && (forall j :: i <= j < 9 && b[j] == Empty ==> scores[j] <= c.score)
      && (best.Some? ==> best.value.score <= c.score)
      && ((best.Some? && c == best.value) ||
          (i <= c.cell
           && (best.Some? ==> best.value.score < c.score)
           && forall j :: i <= j < c.cell && b[j] == Empty ==> scores[j] < c.score))
    decreases 9 - i
  {
    if i < 9 {
      if b[i] == Empty && (best.None? || scores[i] > best.value.score) {
        ScanBestIsFirstMaximum(b, scores, i + 1, Some(Choice(i, scores[i])));
      } else {
        ScanBestIsFirstMaximum(b, scores, i + 1, best);
      }
    }
  }

  /** The engine's best move: an empty square of maximal score, the lowest such
      square on ties; on a board with no empty square the random move is the
      fallback, and it finds nothing either. */
  function GetBestMove(b: Board, pick: Random): (r: Option<Index>)
    ensures r.Some? <==> !IsFull(b)
    ensures r.Some? ==> b[r.value] == Empty
    ensures r.Some? ==> forall j: Index :: b[j] == Empty ==> MoveScore(b, j) <= MoveScore(b, r.value)
    ensures r.Some? ==> forall j: Index :: j < r.value && b[j] == Empty ==> MoveScore(b, j) < MoveScore(b, r.value)
  {
    var scores := MoveScores(b);
    match ScanBest(b, scores, 0, None)
    case Some(c) =>
      ScanBestIsFirstMaximum(b, scores, 0, None);
      Some(c.cell)
    case None => RandomMove(b, pick)
  }

  // ----- Random move -----

  /** Math.floor(u * n): a position in a list of `n` items. */
  function PickIndex(u: Random, n: nat): (k: nat)
    requires n > 0
    ensures k < n
    ensures k as real <= u * n as real < (k + 1) as real
  {
    assert u * n as real < n as real;
    (u * n as real).Floor
  }

  /** A uniformly drawn empty square: `pick` chooses a position in the list of
      empty squares. A board with no empty square has no move (the game reads
      past the end of the empty list there). */
  function RandomMove(b: Board, pick: Random): (r: Option<Index>)
    ensures r.Some? <==> !IsFull(b)
    ensures r.Some? ==> b[r.value] == Empty
  {
    var moves := Empties(b);
    if |moves| == 0 then None else Some(moves[PickIndex(pick, |moves|)])
  }

  /** For n > 0, k <= u * n exactly when k / n <= u. */
  lemma ScaleBound(k: real, n: real, u: real)
    requires n > 0.0
    ensures k <= u * n <==> k / n <= u
  {
    var q := k / n;
    assert q * n == k;
    if q <= u {
      assert q * n <= u * n;
    }
    if k <= u * n {
      assert q * n <= u * n;
    }
  }

  /** Each of the n empty squares is chosen for exactly the draws in one
      interval of width 1/n: the k-th empty square for k/n <= pick < (k+1)/n. */
  lemma RandomMoveIsUniform(b: Board, pick: Random, k: nat)
    requires k < |Empties(b)|
    ensures RandomMove(b, pick) == Some(Empties(b)[k]) <==>
      k as real / |Empties(b)| as real <= pick < (k + 1) as real / |Empties(b)| as real
  {
    var moves := Empties(b);
    var p := PickIndex(pick, |moves|);
    assert moves[p] == moves[k] <==> p == k;
    PickIndexIsUniform(pick, |moves|, k);
  }

  /** Math.floor(u * n) is k exactly for k/n <= u < (k+1)/n. */
  lemma PickIndexIsUniform(u: Random, n: nat, k: nat)
    requires k < n
    ensures PickIndex(u, n) == k <==> k as real / n as real <= u < (k + 1) as real / n as real
  {
    ScaleBound(k as real, n as real, u);
    ScaleBound((k + 1) as real, n as real, u);
  }

  // ----- Difficulty -----

  /** The engine's move at a difficulty: Easy plays the random move, Impossible
      the best move, and Medium the best move when its draw `blend` is below
      0.6 and the random move otherwise. */
  function ChooseMove(b: Board, d: Difficulty, blend: Random, pick: Random): (r: Option<Index>)
    ensures r.Some? <==> !IsFull(b)
    ensures r.Some? ==> b[r.value] == Empty
    ensures d == Easy || (d == Medium && blend >= MediumBestOdds) ==> r == RandomMove(b, pick)
    ensures d == Impossible || (d == Medium && blend < MediumBestOdds) ==> r.Some? ==>
      && (forall j: Index :: b[j] == Empty ==> MoveScore(b, j) <= MoveScore(b, r.value))
      && (forall j: Index :: j < r.value && b[j] == Empty ==> MoveScore(b, j) < MoveScore(b, r.value))
  {
    match d
    case Easy => RandomMove(b, pick)
    case Medium => if blend < MediumBestOdds then GetBestMove(b, pick) else RandomMove(b, pick)
    case Impossible => GetBestMove(b, pick)
  }

  /** Minimax never exceeds 10 - depth below a root with at most 10 - depth
      empty squares, and reaches it only when O has already won. */
  lemma TopScoreMeansWon(b: Board, depth: nat, maximizing: bool)
    requires depth + EmptyCount(b) <= 9
    requires Minimax(b, depth, maximizing) == 10 - depth
    ensures Winner(b) == Some(O)
  {
    if Winner(b) == None && !IsFull(b) {
      MinimaxIsOptimal(b, depth, maximizing);
    }
  }

  /** When O can complete a line at once, the Impossible engine plays a move
      that completes one. */
  lemma ImpossibleTakesImmediateWin(b: Board, i: Index, blend: Random, pick: Random)
    requires Evaluate(b) == InProgress
    requires b[i] == Empty && HasLine(b[i := O], O)
    ensures var r := ChooseMove(b, Impossible, blend, pick);
      r.Some? && HasLine(b[r.value := O], O)
  {
    CompletingMoveScoresTop(b, i);
    var c := GetBestMove(b, pick).value;
    TopMoveScoreCompletesLine(b, c);
  }

  /** On a board in play, a square where O completes a line scores 10. */
  lemma CompletingMoveScoresTop(b: Board, i: Index)
    requires Evaluate(b) == InProgress
    requires b[i] == Empty && HasLine(b[i := O], O)
    ensures MoveScore(b, i) == 10
  {
    EvaluateSpec(b);
    PlacingKeepsOthersLines(b, i, O);
    WinnerSpec(b[i := O]);
  }

  /** A square whose move score reaches 10 completes a line for O. */
  lemma TopMoveScoreCompletesLine(b: Board, c: Index)
    requires b[c] == Empty && MoveScore(b, c) >= 10
    ensures HasLine(b[c := O], O)
  {
    var next := b[c := O];
    PlaceShrinksEmpties(b, c, O);
    assert EmptyCount(next) <= 8;
    TopScoreMeansWon(next, 0, false);
    WinnerSpec(next);
  }
}
