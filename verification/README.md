# Tic-tac-toe game engine in Dafny

A model of the game-state engine of a two-player tic-tac-toe program, the
class `TicTacToe`. Its state is a 3×3 board of cells and the index of the
player to move. Each cell is blank or holds one of the two player symbols,
a heart for player 0 and a money bag for player 1. The class has four
operations:

- `make_move(row, col)` refuses a marked cell. Otherwise it places the
  mover's symbol on the cell. It then checks for a win, then for a draw, and
  passes the turn only when neither happened.
- `check_winner` looks for a row, a column or a diagonal made up entirely of
  the mover's symbol.
- `is_draw` holds when no cell is blank.
- `reset_game` clears the board and gives the turn to player 0.

The mutable object becomes an immutable value `TicTacToe.Game(board,
current)`, and each operation is a pure function that returns the new value.
`make_move` also returns an `Outcome`: `Invalid`, `Win(mark)`, `Draw` or
`Continue`. These stand for the invalid-move message, the winner message
naming the mover's symbol, the draw message and `None`.

Modules:

- `Board` (`board.dfy`) holds the cells, the 3×3 grid, the eight lines as
  data, fullness and the count of marks.
- `TicTacToe` (`tictactoe.dfy`) holds the class's state and operations.
- `Play` (`play.dfy`) treats a game as a sequence of `make_move` calls
  without a reset in between.
- `Scenarios` (`scenarios.dfy`) holds single moves on concrete positions.

The engine keeps no terminal state, and the model follows the code here. A
move after a win or a draw is evaluated like any other. After a win the turn
has stayed with the winner, so every further accepted move is another win
for that player (`WinRepeats`). After a draw the board is full, so every
further move is refused (`DrawFreezes`). A design in which the engine itself
rejects moves once the game is over is not what the code does. Only the
graphical front end, which resets after every non-`None` result, keeps such
moves from happening.

## Model

| member | source | states |
|---|---|---|
| Board.NewBoard | tic_tac_toe_gui.py:7 | the initial grid is 3×3 and every cell is blank |
| Board.BlankBoardIsNew | tic_tac_toe_gui.py:46 | any 3×3 grid whose nine cells are blank is the grid `reset_game` builds |
| Board.Place | tic_tac_toe_gui.py:14 | the assignment `board[row][col] = sym` sets that cell to the symbol and leaves the other eight cells as they were |
| Board.HasLineCases | tic_tac_toe_gui.py:28-36 | a symbol owns one of the eight lines exactly when it owns a row or a column (the loop), or the main diagonal, or the anti-diagonal |
| Board.HasLineKept | tic_tac_toe_gui.py:13-14 | a completed line survives any change that keeps existing marks, and marks are only ever added to blank cells |
| Board.FullIffNine | tic_tac_toe_gui.py:40-42 | "no blank cell" is the same as "nine marks on the board" |
| Board.PlaceAddsOne | tic_tac_toe_gui.py:13-14 | placing a symbol on a blank cell raises the mark count by exactly one |
| TicTacToe.Mover | tic_tac_toe_gui.py:25 | `symbols[current_player]` is never blank, and it is the heart exactly when player 0 moves |
| TicTacToe.Init | tic_tac_toe_gui.py:5-9 | a new engine has an all-blank board, player 0 to move, and satisfies the state invariant |
| TicTacToe.Reset | tic_tac_toe_gui.py:44-47 | whatever the prior state, reset gives an all-blank board with player 0 to move |
| TicTacToe.FreshStateIsInit | tic_tac_toe_gui.py:5-9 | the all-blank, player-0 state is unique, so it equals both the constructor's state and the reset state |
| TicTacToe.ResetIdempotent | tic_tac_toe_gui.py:44-47 | resetting twice is resetting once, and reset yields the constructor's state |
| TicTacToe.ScanRowsAndColumns | tic_tac_toe_gui.py:28-32 | the loop from index `i` on finds a hit exactly when some row or column with index at least `i` is all the symbol |
| TicTacToe.CheckWinner | tic_tac_toe_gui.py:23-38 | true exactly when one of the eight lines is entirely the mover's symbol; the other player's lines are not looked at |
| TicTacToe.IsDraw | tic_tac_toe_gui.py:40-42 | true exactly when nine marks are on the board |
| TicTacToe.MakeMove | tic_tac_toe_gui.py:11-21 | a marked cell gives `Invalid` and changes nothing; otherwise only the chosen cell changes, to the mover's symbol; `Win(mover)` exactly when the mover now owns a line; `Draw` exactly when there is no such line and the board is full; `Continue` otherwise; the turn passes only on `Continue`; the invariant `current ∈ {0, 1}` is kept |
| TicTacToe.MoveAddsOneMark | tic_tac_toe_gui.py:13-18 | an accepted move adds one mark and a refused move adds none, so a draw comes only on the ninth mark |
| TicTacToe.WinRepeats | tic_tac_toe_gui.py:15-19 | with no terminal flag and no turn change after a win, any further accepted move returns the same win |
| TicTacToe.DrawFreezes | tic_tac_toe_gui.py:17-21 | after a draw every further move is refused and leaves the state unchanged |
| Play.Run | tic_tac_toe_gui.py:11-21 | any sequence of in-range moves keeps the state invariant and yields one result per move |
| Play.RunKeepsMarks | tic_tac_toe_gui.py:13-14 | over any sequence of moves no marked cell is ever cleared or changed |
| Play.RunCountsMarks | tic_tac_toe_gui.py:13-14 | the marks on the board equal the initial marks plus the accepted moves, so at most nine moves are accepted between resets |
| Play.RunTurns | tic_tac_toe_gui.py:15-20 | the player to move is the starting player shifted by the number of `Continue` results, mod 2 |
| Scenarios.OpeningMove | tic_tac_toe_gui.py:19-20 | on a new board, the move (0, 0) places the heart and passes the turn to player 1 |
| Scenarios.TopRowWin | tic_tac_toe_gui.py:15-16 | completing the top row returns the heart's win and keeps the heart to move |
| Scenarios.LastCellDraw | tic_tac_toe_gui.py:17-18 | a ninth mark that completes no line is a draw |
| Scenarios.LastCellWin | tic_tac_toe_gui.py:15-18 | a ninth mark that completes a diagonal is a win, not a draw |
| Scenarios.OccupiedCell | tic_tac_toe_gui.py:13-21 | a move on a marked cell returns `Invalid` with the state unchanged |

## Left out

- The `TicTacToeGUI` class (tic_tac_toe_gui.py:50-89) and the `__main__` block (lines 91-94) are not modelled. They are tkinter widgets, callbacks, dialogs and the event loop. So is the front end's habit of showing a "Game Over" dialog and resetting on every non-`None` result, the invalid-move message included.
- The emoji glyphs and the message strings are left out. The symbols are the constructors `Heart` and `MoneyBag`, and the messages are the `Outcome` constructors.
- `self.symbols` is the constant `TicTacToe.Symbols`, because no code ever assigns to it.
- TicTacToe.MakeMove: requires `0 <= row < 3 && 0 <= col < 3`. Out-of-range indices are not modelled. Python would raise `IndexError` for them, or wrap around for negative ones.
- `current_player` is an unbounded `int`. Every operation requires and keeps the invariant `current ∈ {0, 1}`. A state outside the invariant, reachable only by assigning the field from outside the class, is not modelled.
