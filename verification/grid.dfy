/** The tic-tac-toe board: its cells, the table of winning lines, and the win,
    draw and free-cell queries the engine asks of a board. */
module Grid {

  datatype Option<+T> = None | Some(value: T)

  /** One square: empty (the empty string in the game) or taken by a mark. */
  datatype Cell = Empty | X | O

  /** A player's mark: a cell that is not empty. X is the human, O the engine. */
  type Mark = c: Cell | c != Empty witness X

  /** A square's position, row-major on the 3x3 grid. */
  type Index = i: nat | i < 9

  /** The nine squares, row-major. */
  type Board = b: seq<Cell> | |b| == 9
    witness [Empty, Empty, Empty, Empty, Empty, Empty, Empty, Empty, Empty]

  const EmptyBoard: Board := [Empty, Empty, Empty, Empty, Empty, Empty, Empty, Empty, Empty]

  /** The mark that is not `m`. */
  function Other(m: Mark): (r: Mark)
    ensures r != m
  {
    if m == X then O else X
  }

  // ----- Winning lines -----

  datatype Line = Line(a: Index, b: Index, c: Index)

  /** The eight winning triples, in the order the game scans them. */
  const Lines: seq<Line> := [
    Line(0, 1, 2), Line(3, 4, 5), Line(6, 7, 8), // rows
    Line(0, 3, 6), Line(1, 4, 7), Line(2, 5, 8), // columns
    Line(0, 4, 8), Line(2, 4, 6)                 // diagonals
  ]

  function Row(i: Index): nat { i / 3 }
  function Column(i: Index): nat { i % 3 }

  /** Three squares that lie on one row, one column or one of the two diagonals
      of the 3x3 grid. */
  predicate OnOneLine(a: Index, b: Index, c: Index)
  {
    || (Row(a) == Row(b) == Row(c))
    || (Column(a) == Column(b) == Column(c))
    || (Row(a) == Column(a) && Row(b) == Column(b) && Row(c) == Column(c))
    || (Row(a) + Column(a) == 2 && Row(b) + Column(b) == 2 && Row(c) + Column(c) == 2)
  }

  lemma OnOneLineCases(a: Index, b: Index, c: Index)
    requires a < b < c && OnOneLine(a, b, c)
    ensures Line(a, b, c) in Lines
  {
    if Row(a) == Row(b) == Row(c) {
      var r := Row(a);
      assert a == 3 * r && b == 3 * r + 1 && c == 3 * r + 2;
      assert Lines[r] == Line(a, b, c) by {
        if r == 0 {} else if r == 1 {} else {}
      }
    } else if Column(a) == Column(b) == Column(c) {
      var q := Column(a);
      assert a == q && b == q + 3 && c == q + 6;
      assert Lines[3 + q] == Line(a, b, c) by {
        if q == 0 {} else if q == 1 {} else {}
      }
    } else {
      assert Line(a, b, c) in Lines[6..];
    }
  }

  /** The table has eight different entries, each a row, a column or a
      diagonal of the grid with its squares in increasing order. */
  lemma LinesAreGridLines()
    ensures |Lines| == 8
    ensures forall k :: 0 <= k < |Lines| ==>
      Lines[k].a < Lines[k].b < Lines[k].c && OnOneLine(Lines[k].a, Lines[k].b, Lines[k].c)
  {
    forall k | 0 <= k < |Lines|
      ensures Lines[k].a < Lines[k].b < Lines[k].c && OnOneLine(Lines[k].a, Lines[k].b, Lines[k].c)
    {
      TableEntryIsGridLine(k);
    }
  }

  /** The eight entries of the table are pairwise different. */
  lemma LinesAreDistinct()
    ensures forall k, l :: 0 <= k < l < |Lines| ==> Lines[k] != Lines[l]
  {
  }

  lemma TableEntryIsGridLine(k: nat)
    requires k < |Lines|
    ensures Lines[k].a < Lines[k].b < Lines[k].c && OnOneLine(Lines[k].a, Lines[k].b, Lines[k].c)
  {
    var l := Lines[k];
    if k < 3 {
      assert Row(l.a) == Row(l.b) == Row(l.c) == k;
    } else if k < 6 {
      assert Column(l.a) == Column(l.b) == Column(l.c) == k - 3;
    } else if k == 6 {
      assert l == Line(0, 4, 8);
    } else {
      assert l == Line(2, 4, 6);
    }
  }

  /** Every row, column and diagonal of the grid is in the table. */
  lemma GridLinesAreInTable()
    ensures forall a: Index, b: Index, c: Index ::
      a < b < c && OnOneLine(a, b, c) ==> Line(a, b, c) in Lines
  {
    forall a: Index, b: Index, c: Index | a < b < c && OnOneLine(a, b, c)
      ensures Line(a, b, c) in Lines
    {
      OnOneLineCases(a, b, c);
    }
  }

  /** The game's test for a won line: the first square is taken and the other
      two hold the same mark. */
  predicate Completes(b: Board, l: Line)
  {
    b[l.a] != Empty && b[l.a] == b[l.b] && b[l.a] == b[l.c]
  }

  /** All three squares of `l` hold `m`. */
  predicate Owns(b: Board, l: Line, m: Mark)
  {
    b[l.a] == m && b[l.b] == m && b[l.c] == m
  }

  /** `m` has three in a row somewhere on the board. */
  predicate HasLine(b: Board, m: Mark)
  {
    exists k :: 0 <= k < |Lines| && Owns(b, Lines[k], m)
  }

  // ----- Win detection -----

  /** The scan of the winning lines from position `k` of the table on. */
  function WinnerFrom(b: Board, k: nat): (r: Option<Mark>)
    requires k <= |Lines|
    ensures r.None? <==> forall j :: k <= j < |Lines| ==> !Completes(b, Lines[j])
    ensures r.Some? ==> exists j :: (k <= j < |Lines| && Owns(b, Lines[j], r.value)
      && forall i :: k <= i < j ==> !Completes(b, Lines[i]))
    decreases |Lines| - k
  {
    if k == |Lines| then None
    else if Completes(b, Lines[k]) then Some(b[Lines[k].a])
    else WinnerFrom(b, k + 1)
  }

  /** The winner of the board, if any: the mark of the first completed line in
      table order. */
  function Winner(b: Board): (r: Option<Mark>)
    ensures r.None? <==> forall k :: 0 <= k < |Lines| ==> !Completes(b, Lines[k])
    ensures r.Some? ==> exists k :: (0 <= k < |Lines| && Owns(b, Lines[k], r.value)
      && forall j :: 0 <= j < k ==> !Completes(b, Lines[j]))
  {
    WinnerFrom(b, 0)
  }

  /** A board has a winner exactly when some mark has three in a row, and the
      winner is the owner of the first completed line in table order. */
  lemma WinnerSpec(b: Board)
    ensures Winner(b).None? <==> !HasLine(b, X) && !HasLine(b, O)
    ensures Winner(b).Some? ==> HasLine(b, Winner(b).value)
    ensures Winner(b).Some? ==> exists k :: (0 <= k < |Lines| && Owns(b, Lines[k], Winner(b).value)
      && forall j :: 0 <= j < k ==> !Completes(b, Lines[j]))
  {
    assert forall k :: 0 <= k < |Lines| && Completes(b, Lines[k]) ==>
      Owns(b, Lines[k], X) || Owns(b, Lines[k], O);
  }

  /** No square is empty. */
  predicate IsFull(b: Board): (r: bool)
    ensures r <==> EmptyCount(b) == 0
  {
    CountZeroIffAbsent(b, Empty);
    forall i :: 0 <= i < |b| ==> b[i] != Empty
  }

  datatype Status = InProgress | Won(winner: Mark) | Draw

  /** The outcome of a board, winner first. */
  function Evaluate(b: Board): Status
  {
    match Winner(b)
    case Some(m) => Won(m)
    case None => if IsFull(b) then Draw else InProgress
  }

  /** A board is won exactly when some mark has three in a row, and then by a
      mark that has one; it is drawn exactly when it is full and nobody has a
      line, so a full board with three in a row is a win, not a draw. */
  lemma EvaluateSpec(b: Board)
    ensures Evaluate(b).Won? <==> HasLine(b, X) || HasLine(b, O)
    ensures Evaluate(b).Won? ==> HasLine(b, Evaluate(b).winner)
    ensures Evaluate(b) == Draw <==> IsFull(b) && !HasLine(b, X) && !HasLine(b, O)
    ensures Evaluate(b) == InProgress <==> !IsFull(b) && !HasLine(b, X) && !HasLine(b, O)
  {
    WinnerSpec(b);
  }

  // ----- Free squares -----

  /** The empty squares from `i` on, in increasing order. */
  function EmptiesFrom(b: Board, i: nat): (r: seq<Index>)
    requires i <= 9
    ensures |r| <= 9 - i
    ensures forall k :: 0 <= k < |r| ==> i <= r[k] && b[r[k]] == Empty
    ensures forall j :: i <= j < 9 && b[j] == Empty ==> j in r
    ensures forall k, l :: 0 <= k < l < |r| ==> r[k] < r[l]
    decreases 9 - i
  {
    if i == 9 then []
    else if b[i] == Empty then [i] + EmptiesFrom(b, i + 1)
    else EmptiesFrom(b, i + 1)
  }

  /** The empty squares in increasing order: the list of available moves. */
  function Empties(b: Board): (r: seq<Index>)
    ensures forall j: Index :: j in r <==> b[j] == Empty
    ensures forall k, l :: 0 <= k < l < |r| ==> r[k] < r[l]
    ensures |r| == 0 <==> IsFull(b)
    ensures |r| <= 9
  {
    EmptiesFrom(b, 0)
  }

  /** The number of empty squares: the minimax termination measure. */
  function EmptyCount(b: Board): nat
  {
    Count(b, Empty)
  }

  /** Placing a mark on an empty square leaves one empty square fewer. */
  lemma PlaceShrinksEmpties(b: Board, i: Index, m: Mark)
    requires b[i] == Empty
    ensures EmptyCount(b[i := m]) == EmptyCount(b) - 1
  {
    CountUpdate(b, i, m, Empty);
  }

  /** Placing `m` on an empty square cannot give the other mark a line. */
  lemma PlacingKeepsOthersLines(b: Board, i: Index, m: Mark)
    requires b[i] == Empty
    ensures HasLine(b[i := m], Other(m)) ==> HasLine(b, Other(m))
  {
    if HasLine(b[i := m], Other(m)) {
      var k :| 0 <= k < |Lines| && Owns(b[i := m], Lines[k], Other(m));
      assert Owns(b, Lines[k], Other(m));
    }
  }

  // ----- Counting marks -----

  function Count(s: seq<Cell>, c: Cell): (n: nat)
    ensures n <= |s|
  {
    if s == [] then 0 else (if s[0] == c then 1 else 0) + Count(s[1..], c)
  }

  lemma {:induction false} CountUpdate(s: seq<Cell>, i: nat, v: Cell, c: Cell)
    requires i < |s|
    ensures Count(s[i := v], c) ==
      Count(s, c) - (if s[i] == c then 1 else 0) + (if v == c then 1 else 0)
  {
    if i == 0 {
      assert s[i := v][1..] == s[1..];
    } else {
      assert s[i := v][1..] == s[1..][i - 1 := v];
      CountUpdate(s[1..], i - 1, v, c);
    }
  }

  /** A sequence holds no `c` exactly when its count of `c` is zero. */
  lemma {:induction false} CountZeroIffAbsent(s: seq<Cell>, c: Cell)
    ensures Count(s, c) == 0 <==> forall k :: 0 <= k < |s| ==> s[k] != c
  {
    if s != [] {
      CountZeroIffAbsent(s[1..], c);
      assert forall k :: 1 <= k < |s| ==> s[k] == s[1..][k - 1];
    }
  }
}
