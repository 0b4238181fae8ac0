/**
 Single `make_move` calls on concrete positions: an opening move, a win on
 the top row, a draw on the last blank cell, and a win on the last blank
 cell that is reported as a win and not as a draw.
 */
module Scenarios {
  import opened Board
  import opened TicTacToe

  /** An accepted move whose resulting board `b` is given cell by cell:
      the result is decided by `check_winner` and `is_draw` on `b`. */
  lemma AcceptedMove(g: Game, row: int, col: int, b: Grid)
    requires Valid(g) && InRange(row, col) && g.board[row][col] == Empty
    requires WellFormed(b) && b[row][col] == Mover(g)
    requires forall i, j :: InRange(i, j) && (i, j) != (row, col) ==> b[i][j] == g.board[i][j]
    ensures MakeMove(g, row, col).0.board == b
    ensures MakeMove(g, row, col).1 ==
      if CheckWinner(Game(b, g.current)) then Win(Mover(g))
      else if Full(b) then Draw
      else Continue
  {
    SameCells(MakeMove(g, row, col).0.board, b);
  }

  /** The first move of a game marks the corner with the heart and hands
      the turn to player 1. */
  lemma OpeningMove(g: Game)
    requires g == Init()
    ensures MakeMove(g, 0, 0) ==
      (Game([[Heart, Empty, Empty], [Empty, Empty, Empty], [Empty, Empty, Empty]], 1), Continue)
  {
    var E, H := Empty, Heart;
    var b := [[H, E, E], [E, E, E], [E, E, E]];
    assert b[2][2] == E;
    AcceptedMove(g, 0, 0, b);
  }

  /** The heart completes the top row: a win for the heart, and the heart
      stays to move. */
  lemma TopRowWin(g: Game)
    requires g == Game([[Heart, Heart, Empty], [MoneyBag, MoneyBag, Empty], [Empty, Empty, Empty]], 0)
    ensures MakeMove(g, 0, 2) ==
      (Game([[Heart, Heart, Heart], [MoneyBag, MoneyBag, Empty], [Empty, Empty, Empty]], 0), Win(Heart))
  {
    var E, H, M := Empty, Heart, MoneyBag;
    AcceptedMove(g, 0, 2, [[H, H, H], [M, M, E], [E, E, E]]);
  }

  /** The ninth mark completes no line: X O X / X O O / O X X with the
      heart as X is a draw, and the heart stays to move. */
  lemma LastCellDraw(g: Game)
    requires g == Game([[Heart, MoneyBag, Heart], [Heart, MoneyBag, MoneyBag], [MoneyBag, Heart, Empty]], 0)
    ensures MakeMove(g, 2, 2) ==
      (Game([[Heart, MoneyBag, Heart], [Heart, MoneyBag, MoneyBag], [MoneyBag, Heart, Heart]], 0), Draw)
  {
    var H, M := Heart, MoneyBag;
    AcceptedMove(g, 2, 2, [[H, M, H], [H, M, M], [M, H, H]]);
  }

  /** The ninth mark completes the main diagonal of X O X / O X O / O X X:
      the board is full, but the win is checked first and reported. */
  lemma LastCellWin(g: Game)
    requires g == Game([[Heart, MoneyBag, Heart], [MoneyBag, Heart, MoneyBag], [MoneyBag, Heart, Empty]], 0)
    ensures MakeMove(g, 2, 2) ==
      (Game([[Heart, MoneyBag, Heart], [MoneyBag, Heart, MoneyBag], [MoneyBag, Heart, Heart]], 0), Win(Heart))
  {
    var H, M := Heart, MoneyBag;
    AcceptedMove(g, 2, 2, [[H, M, H], [M, H, M], [M, H, H]]);
  }

  /** A click on a marked cell is refused and changes nothing. */
  lemma OccupiedCell(g: Game)
    requires g == Game([[Heart, Empty, Empty], [Empty, Empty, Empty], [Empty, Empty, Empty]], 1)
    ensures MakeMove(g, 0, 0) == (g, Invalid)
  {
  }
}
