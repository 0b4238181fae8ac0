/**
 The 3×3 grid held in `TicTacToe.board`: its cells, the eight winning lines,
 fullness and the number of marks on it.
 */
module Board {

  /** A cell is blank (the string " " in the program) or holds one of the two
      player symbols (the heart of player 0, the money bag of player 1). */
  datatype Cell = Empty | Heart | MoneyBag

  /** Row-major grid: `b[row][col]`. */
  type Grid = seq<seq<Cell>>

  /** A board position `(row, col)`. */
  type Pos = (int, int)

  /** Every board the engine builds has three rows of three cells. */
  predicate WellFormed(b: Grid)
  {
    |b| == 3 && forall i :: 0 <= i < 3 ==> |b[i]| == 3
  }

  predicate InRange(row: int, col: int)
  {
    0 <= row < 3 && 0 <= col < 3
  }

  /** The grid a new game and a reset start from: three rows of three blank
      cells. */
  function NewBoard(): (b: Grid)
    ensures WellFormed(b)
    ensures forall i, j :: InRange(i, j) ==> b[i][j] == Empty
  {
    [[Empty, Empty, Empty], [Empty, Empty, Empty], [Empty, Empty, Empty]]
  }

  /** Two well-formed grids that agree on all nine cells are equal. */
  lemma SameCells(b1: Grid, b2: Grid)
    requires WellFormed(b1) && WellFormed(b2)
    requires forall i, j :: InRange(i, j) ==> b1[i][j] == b2[i][j]
    ensures b1 == b2
  {
    forall i | 0 <= i < 3
      ensures b1[i] == b2[i]
    {
      assert b1[i][0] == b2[i][0] && b1[i][1] == b2[i][1] && b1[i][2] == b2[i][2];
    }
  }

  /** A well-formed grid whose nine cells are all blank is the new board. */
  lemma BlankBoardIsNew(b: Grid)
    requires WellFormed(b)
    requires forall i, j :: InRange(i, j) ==> b[i][j] == Empty
    ensures b == NewBoard()
  {
    SameCells(b, NewBoard());
  }

  /** The grid after cell `(row, col)` is assigned `c`. */
  function Place(b: Grid, row: int, col: int, c: Cell): (b': Grid)
    requires WellFormed(b) && InRange(row, col)
    ensures WellFormed(b')
    ensures b'[row][col] == c
    ensures forall i, j :: InRange(i, j) && (i, j) != (row, col) ==> b'[i][j] == b[i][j]
  {
    b[row := b[row][col := c]]
  }

  /** `b2` agrees with `b1` on every cell that `b1` has already marked. */
  ghost predicate KeepsMarks(b1: Grid, b2: Grid)
    requires WellFormed(b1) && WellFormed(b2)
  {
    forall i, j :: InRange(i, j) && b1[i][j] != Empty ==> b2[i][j] == b1[i][j]
  }

  // ---------------------------------------------------------------------------
  // Lines
  // ---------------------------------------------------------------------------

  /** Three positions in a straight line. */
  datatype Line = Line(p: Pos, q: Pos, r: Pos)

  function Row(i: int): Line { Line((i, 0), (i, 1), (i, 2)) }

  function Column(j: int): Line { Line((0, j), (1, j), (2, j)) }

  const MainDiagonal: Line := Line((0, 0), (1, 1), (2, 2))

  const AntiDiagonal: Line := Line((0, 2), (1, 1), (2, 0))

  /** The eight lines of the game: three rows, three columns, two diagonals. */
  const Lines: seq<Line> :=
    [Row(0), Row(1), Row(2), Column(0), Column(1), Column(2), MainDiagonal, AntiDiagonal]

  /** Position `p` is on the board and holds `c`. */
  predicate Holds(b: Grid, p: Pos, c: Cell)
    requires WellFormed(b)
  {
    InRange(p.0, p.1) && b[p.0][p.1] == c
  }

  /** All three positions of `l` hold `c`. */
  predicate Owns(b: Grid, l: Line, c: Cell)
    requires WellFormed(b)
  {
    Holds(b, l.p, c) && Holds(b, l.q, c) && Holds(b, l.r, c)
  }

  /** Some one of the eight lines consists entirely of `c`. */
  predicate HasLine(b: Grid, c: Cell)
    requires WellFormed(b)
  {
    exists k :: 0 <= k < |Lines| && Owns(b, Lines[k], c)
  }

  /** The eight lines, split the way a scan over rows and columns and then
      the two diagonals sees them. */
  lemma HasLineCases(b: Grid, c: Cell)
    requires WellFormed(b)
    ensures HasLine(b, c) <==>
      (exists k :: 0 <= k < 3 && (Owns(b, Row(k), c) || Owns(b, Column(k), c)))
      || Owns(b, MainDiagonal, c) || Owns(b, AntiDiagonal, c)
  {
    if HasLine(b, c) {
      var k :| 0 <= k < |Lines| && Owns(b, Lines[k], c);
      if k < 3 {
        assert Owns(b, Row(k), c);
      } else if k < 6 {
        assert Owns(b, Column(k - 3), c);
      }
    }
    if exists k :: 0 <= k < 3 && (Owns(b, Row(k), c) || Owns(b, Column(k), c)) {
      var k :| 0 <= k < 3 && (Owns(b, Row(k), c) || Owns(b, Column(k), c));
      if Owns(b, Row(k), c) {
        assert Lines[k] == Row(k);
      } else {
        assert Lines[k + 3] == Column(k);
      }
    }
    if Owns(b, MainDiagonal, c) {
      assert Lines[6] == MainDiagonal;
    }
    if Owns(b, AntiDiagonal, c) {
      assert Lines[7] == AntiDiagonal;
    }
  }

  /** A line of `c` survives every change that keeps the marks already made. */
  lemma HasLineKept(b1: Grid, b2: Grid, c: Cell)
    requires WellFormed(b1) && WellFormed(b2)
    requires c != Empty && KeepsMarks(b1, b2)
    requires HasLine(b1, c)
    ensures HasLine(b2, c)
  {
  }

  // ---------------------------------------------------------------------------
  // Fullness and counting marks
  // ---------------------------------------------------------------------------

  /** No cell is blank: the condition of `is_draw`. */
  predicate Full(b: Grid)
    requires WellFormed(b)
  {
    forall i, j :: 0 <= i < 3 && 0 <= j < 3 ==> b[i][j] != Empty
  }

  /** Number of marked cells in one row. */
  function CountMarks(row: seq<Cell>): (n: nat)
    ensures n <= |row|
  {
    if row == [] then 0
    else (if row[0] != Empty then 1 else 0) + CountMarks(row[1..])
  }

  /** Number of marked cells on the board. */
  function Filled(b: Grid): (n: nat)
    requires WellFormed(b)
    ensures n <= 9
  {
    CountMarks(b[0]) + CountMarks(b[1]) + CountMarks(b[2])
  }

  lemma {:induction false} CountMarksAll(row: seq<Cell>)
    ensures CountMarks(row) == |row| <==> forall k :: 0 <= k < |row| ==> row[k] != Empty
  {
    if row != [] {
      CountMarksAll(row[1..]);
      assert forall k :: 1 <= k < |row| ==> row[k] == row[1..][k - 1];
    }
  }

  /** Marking a blank cell of a row adds exactly one mark. */
  lemma {:induction false} CountMarksUpdate(row: seq<Cell>, j: int, c: Cell)
    requires 0 <= j < |row| && row[j] == Empty && c != Empty
    ensures CountMarks(row[j := c]) == CountMarks(row) + 1
  {
    if j > 0 {
      CountMarksUpdate(row[1..], j - 1, c);
      assert row[j := c][1..] == row[1..][j - 1 := c];
    } else {
      assert row[j := c][1..] == row[1..];
    }
  }

  /** The board is full exactly when it carries nine marks. */
  lemma FullIffNine(b: Grid)
    requires WellFormed(b)
    ensures Full(b) <==> Filled(b) == 9
  {
    CountMarksAll(b[0]);
    CountMarksAll(b[1]);
    CountMarksAll(b[2]);
    if Filled(b) == 9 {
      forall i, j | InRange(i, j)
        ensures b[i][j] != Empty
      {
        assert CountMarks(b[i]) == 3;
      }
    }
  }

  /** Placing a mark on a blank cell adds exactly one mark to the board. */
  lemma PlaceAddsOne(b: Grid, row: int, col: int, c: Cell)
    requires WellFormed(b) && InRange(row, col)
    requires b[row][col] == Empty && c != Empty
    ensures Filled(Place(b, row, col, c)) == Filled(b) + 1
  {
    CountMarksUpdate(b[row], col, c);
    var b' := Place(b, row, col, c);
    assert b'[row] == b[row][col := c];
    assert forall i :: 0 <= i < 3 && i != row ==> b'[i] == b[i];
  }
}
