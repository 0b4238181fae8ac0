/**
 The game-state engine, class `TicTacToe`: a board, the index of the player
 to move, and the operations `make_move`, `check_winner`, `is_draw` and
 `reset_game`. The mutable object is modelled as an immutable `Game` value;
 every operation returns the new value.
 */
module TicTacToe {
  import opened Board

  /** `self.symbols`: the mark of player 0 and the mark of player 1. */
  const Symbols: seq<Cell> := [Heart, MoneyBag]

  /** The object's state: `self.board` and `self.current_player`. */
  datatype Game = Game(board: Grid, current: int)

  /** What `make_move` returns: the invalid-move message, the winner message
      naming the mover's symbol, the draw message, or `None`. */
  datatype Outcome = Invalid | Win(mark: Cell) | Draw | Continue

  /** The invariant every operation keeps: a 3×3 board and a player index
      that selects one of the two symbols. */
  predicate Valid(g: Game)
  {
    WellFormed(g.board) && (g.current == 0 || g.current == 1)
  }

  /** The symbol of the player to move. */
  function Mover(g: Game): (c: Cell)
    requires Valid(g)
    ensures c != Empty
    ensures c == Heart <==> g.current == 0
  {
    Symbols[g.current]
  }

  /** `__init__`: an empty board with player 0 to move. */
  function Init(): (g: Game)
    ensures Valid(g)
    ensures forall i, j :: InRange(i, j) ==> g.board[i][j] == Empty
    ensures g.current == 0
  {
    Game(NewBoard(), 0)
  }

  /** `reset_game`: whatever the state, back to an empty board with player 0
      to move. */
  function Reset(g: Game): (r: Game)
    ensures Valid(r)
    ensures forall i, j :: InRange(i, j) ==> r.board[i][j] == Empty
    ensures r.current == 0
  {
    Game(NewBoard(), 0)
  }

  /** Any valid state with an all-blank board and player 0 to move is the
      state `__init__` builds, and so the state `reset_game` builds. */
  lemma FreshStateIsInit(g: Game)
    requires Valid(g)
    requires forall i, j :: InRange(i, j) ==> g.board[i][j] == Empty
    requires g.current == 0
    ensures g == Init() && g == Reset(g)
  {
    BlankBoardIsNew(g.board);
  }

  /** Resetting twice is resetting once. */
  lemma ResetIdempotent(g: Game)
    ensures Reset(Reset(g)) == Reset(g)
    ensures Reset(g) == Init()
  {
  }

  /** The loop of `check_winner` over the indices `i` from the given one up
      to 2: row `i` is tested, then column `i`. */
  function ScanRowsAndColumns(b: Grid, sym: Cell, i: nat): (found: bool)
    requires WellFormed(b) && i <= 3
    ensures found <==> exists k :: i <= k < 3 && (Owns(b, Row(k), sym) || Owns(b, Column(k), sym))
    decreases 3 - i
  {
    if i == 3 then false
    else if b[i][0] == sym && b[i][1] == sym && b[i][2] == sym then
      assert Owns(b, Row(i), sym);
      true
    else if b[0][i] == sym && b[1][i] == sym && b[2][i] == sym then
      assert Owns(b, Column(i), sym);
      true
    else ScanRowsAndColumns(b, sym, i + 1)
  }

  /** `check_winner`: does the player to move own one of the eight lines?
      Only the mover's symbol is tested. */
  function CheckWinner(g: Game): (won: bool)
    requires Valid(g)
    ensures won <==> HasLine(g.board, Mover(g))
  {
    var b, sym := g.board, Mover(g);
    HasLineCases(b, sym);
    ScanRowsAndColumns(b, sym, 0)
    || (b[0][0] == sym && b[1][1] == sym && b[2][2] == sym)
    || (b[0][2] == sym && b[1][1] == sym && b[2][0] == sym)
  }

  /** `is_draw`: no cell is blank, that is, nine marks are on the board. */
  function IsDraw(g: Game): (full: bool)
    requires Valid(g)
    ensures full <==> Filled(g.board) == 9
  {
    FullIffNine(g.board);
    Full(g.board)
  }

  /** `make_move(row, col)`. A move on a marked cell is refused and changes
      nothing. Otherwise the mover's symbol is placed; a completed line of
      that symbol wins, else a full board is a draw, and in both cases the
      turn stays with the mover; otherwise the turn passes to the other
      player. Nothing stops a move after a win or a draw. */
  function MakeMove(g: Game, row: int, col: int): (r: (Game, Outcome))
    requires Valid(g) && InRange(row, col)
    ensures Valid(r.0)
    ensures r.1 == Invalid <==> g.board[row][col] != Empty
    ensures r.1 == Invalid ==> r.0 == g
    // only the chosen cell changes, and it receives the mover's symbol
    ensures r.1 != Invalid ==> r.0.board[row][col] == Mover(g)
    ensures forall i, j :: InRange(i, j) && (i, j) != (row, col) ==> r.0.board[i][j] == g.board[i][j]
    // the outcome of an accepted move
    ensures r.1 != Invalid ==> (r.1.Win? <==> HasLine(r.0.board, Mover(g)))
    ensures r.1.Win? ==> r.1.mark == Mover(g)
    ensures r.1 == Draw <==> r.1 != Invalid && !HasLine(r.0.board, Mover(g)) && Full(r.0.board)
    ensures r.1 == Continue <==> r.1 != Invalid && !HasLine(r.0.board, Mover(g)) && !Full(r.0.board)
    // the turn passes only on a move that neither wins nor draws
    ensures r.1 == Continue ==> r.0.current == 1 - g.current
    ensures r.1 != Continue ==> r.0.current == g.current
  {
    if g.board[row][col] != Empty then (g, Invalid)
    else
      var sym := Mover(g);
      var placed := Game(Place(g.board, row, col, sym), g.current);
      if CheckWinner(placed) then (placed, Win(sym))
      else if IsDraw(placed) then (placed, Draw)
      else (placed.(current := 1 - g.current), Continue)
  }

  /** An accepted move adds exactly one mark; a refused one adds none. So a
      draw is reached on the ninth accepted move, never earlier. */
  lemma MoveAddsOneMark(g: Game, row: int, col: int)
    requires Valid(g) && InRange(row, col)
    ensures var r := MakeMove(g, row, col);
      Filled(r.0.board) == Filled(g.board) + (if r.1 == Invalid then 0 else 1)
    ensures MakeMove(g, row, col).1 == Draw ==> Filled(g.board) == 8
  {
    var r := MakeMove(g, row, col);
    if r.1 != Invalid {
      PlaceAddsOne(g.board, row, col, Mover(g));
      assert r.0.board == Place(g.board, row, col, Mover(g));
      if r.1 == Draw {
        FullIffNine(r.0.board);
      }
    }
  }

  /** No terminal flag: after a win the turn stays with the winner, the
      winning line stays on the board, and so every further accepted move
      wins again for the same player. */
  lemma WinRepeats(g: Game, row: int, col: int, row2: int, col2: int)
    requires Valid(g) && InRange(row, col) && InRange(row2, col2)
    requires MakeMove(g, row, col).1.Win?
    requires MakeMove(g, row, col).0.board[row2][col2] == Empty
    ensures MakeMove(MakeMove(g, row, col).0, row2, col2).1 == MakeMove(g, row, col).1
  {
  }

  /** After a draw every cell is marked, so every further move is refused
      and changes nothing until the game is reset. */
  lemma DrawFreezes(g: Game, row: int, col: int, row2: int, col2: int)
    requires Valid(g) && InRange(row, col) && InRange(row2, col2)
    requires MakeMove(g, row, col).1 == Draw
    ensures MakeMove(MakeMove(g, row, col).0, row2, col2) == (MakeMove(g, row, col).0, Invalid)
  {
  }
}
