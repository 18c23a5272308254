/**
 * The pieces of TetraMaster: the playfield dimensions, the seven shape
 * templates, tetromino values and the clockwise rotation of a shape matrix.
 *
 * A shape is a matrix of integers in which 0 is an empty cell and any other
 * value is an occupied cell; the templates store the piece's colour id in
 * their occupied cells.
 */
module Pieces {

  /** Number of rows of the playfield. */
  const ROWS: int := 20
  /** Number of columns of the playfield. */
  const COLS: int := 10
  /** Side of the square preview grid for the next piece. */
  const NEXT_SIZE: int := 4

  type Matrix = seq<seq<int>>

  /** Index of one of the seven piece kinds (I, O, T, S, Z, J, L), as drawn by the generator. */
  type Kind = k: int | 0 <= k < 7

  /** A piece: its current shape matrix, its colour id and its kind index. */
  datatype Tetromino = Tetromino(shape: Matrix, color: int, idx: int)

  /** Every row is as long as the matrix is tall. */
  predicate IsSquare(m: Matrix)
  {
    forall r | 0 <= r < |m| :: |m[r]| == |m|
  }

  /** At least one row, and every row as long as the first. */
  predicate Rectangular(m: Matrix)
  {
    |m| > 0 && forall r | 0 <= r < |m| :: |m[r]| == |m[0]|
  }

  /** The matrix has at least one occupied cell. */
  predicate HasCell(m: Matrix)
  {
    exists r, c | 0 <= r < |m| && 0 <= c < |m[r]| :: m[r][c] != 0
  }

  /** Every cell is empty or holds the given colour. */
  predicate CellsIn(m: Matrix, color: int)
  {
    forall r, c | 0 <= r < |m| && 0 <= c < |m[r]| :: m[r][c] == 0 || m[r][c] == color
  }

  /** The positions (row, column) of the occupied cells. */
  function Cells(m: Matrix): set<(int, int)>
  {
    set r, c | 0 <= r < |m| && 0 <= c < |m[r]| && m[r][c] != 0 :: (r, c)
  }

  /** A piece as the engine keeps it: a square shape of side 1..NEXT_SIZE with a cell, coloured 1..7. */
  predicate PieceOk(t: Tetromino)
  {
    0 < |t.shape| <= NEXT_SIZE && IsSquare(t.shape) && HasCell(t.shape)
    && 1 <= t.color <= 7 && CellsIn(t.shape, t.color)
  }

  /** The shape template of kind k: I, O, T, S, Z, J, L in that order, cells coloured k + 1. */
  function Template(k: Kind): (m: Matrix)
    ensures IsSquare(m) && 2 <= |m| <= NEXT_SIZE
    ensures HasCell(m) && CellsIn(m, k + 1)
  {
    match k
    case 0 =>
      var m := [[0,0,0,0], [1,1,1,1], [0,0,0,0], [0,0,0,0]];
      assert m[1][0] != 0; m
    case 1 =>
      var m := [[2,2], [2,2]];
      assert m[0][0] != 0; m
    case 2 =>
      var m := [[0,3,0], [3,3,3], [0,0,0]];
      assert m[1][0] != 0; m
    case 3 =>
      var m := [[0,4,4], [4,4,0], [0,0,0]];
      assert m[1][0] != 0; m
    case 4 =>
      var m := [[5,5,0], [0,5,5], [0,0,0]];
      assert m[0][0] != 0; m
    case 5 =>
      var m := [[6,0,0], [6,6,6], [0,0,0]];
      assert m[0][0] != 0; m
    case 6 =>
      var m := [[0,0,7], [7,7,7], [0,0,0]];
      assert m[1][0] != 0; m
  }

  /** Every template keeps its cells in its top two rows. */
  lemma TemplateTopRows(k: Kind)
    ensures forall r, c | 0 <= r < |Template(k)| && 0 <= c < |Template(k)[r]| && Template(k)[r][c] != 0 :: r < 2
  {
  }

  /**
   * The piece the generator yields for the drawn index k: a fresh copy of the
   * template with colour k + 1. The random draw itself is a parameter.
   */
  function RandomTetromino(k: Kind): (t: Tetromino)
    ensures PieceOk(t)
    ensures t.idx == k && t.color == k + 1
  {
    Tetromino(Template(k), k + 1, k)
  }

  /** A piece as the generator produces it. */
  predicate Drawn(t: Tetromino)
  {
    0 <= t.idx < 7 && t == RandomTetromino(t.idx)
  }

  /**
   * Clockwise quarter turn: column c of the input, read bottom to top,
   * becomes row c of the result.
   */
  function Rotate(m: Matrix): (r: Matrix)
    requires Rectangular(m)
    ensures |r| == |m[0]|
    ensures forall c | 0 <= c < |r| :: |r[c]| == |m|
    ensures forall c, k | 0 <= c < |m[0]| && 0 <= k < |m| :: r[c][k] == m[|m| - 1 - k][c]
  {
    seq(|m[0]|, c requires 0 <= c < |m[0]| => seq(|m|, k requires 0 <= k < |m| => m[|m| - 1 - k][c]))
  }

  /** The cell at (row, c) of a shape lands at (c, N-1-row) after a clockwise turn. */
  lemma RotateMovesCell(m: Matrix, row: int, c: int)
    requires Rectangular(m) && 0 <= row < |m| && 0 <= c < |m[0]|
    ensures Rotate(m)[c][|m| - 1 - row] == m[row][c]
  {
    var k := |m| - 1 - row;
    assert Rotate(m)[c][k] == m[|m| - 1 - k][c];
  }

  /** A quarter turn keeps a square shape square, of the same size, and keeps its cells' values. */
  lemma RotateSquare(m: Matrix, color: int)
    requires |m| > 0 && IsSquare(m)
    ensures IsSquare(Rotate(m)) && |Rotate(m)| == |m|
    ensures CellsIn(m, color) ==> CellsIn(Rotate(m), color)
    ensures HasCell(m) ==> HasCell(Rotate(m))
  {
    var r := Rotate(m);
    var n := |m|;
    if CellsIn(m, color) {
      forall i, j | 0 <= i < n && 0 <= j < n
        ensures r[i][j] == 0 || r[i][j] == color
      {
        assert r[i][n - 1 - (n - 1 - j)] == m[n - 1 - j][i];
      }
    }
    if HasCell(m) {
      var a, b :| 0 <= a < n && 0 <= b < |m[a]| && m[a][b] != 0;
      assert r[b][n - 1 - a] != 0;
    }
  }

  /** A rotated piece keeps the properties the engine relies on. */
  lemma RotatePiece(t: Tetromino)
    requires PieceOk(t)
    ensures PieceOk(t.(shape := Rotate(t.shape)))
  {
    RotateSquare(t.shape, t.color);
  }

  /** n clockwise quarter turns of a non-empty square shape. */
  function Turn(m: Matrix, n: nat): (r: Matrix)
    requires |m| > 0 && IsSquare(m)
    ensures |r| == |m| && IsSquare(r)
  {
    if n == 0 then m
    else
      var p := Turn(m, n - 1);
      RotateSquare(p, 0);
      Rotate(p)
  }

  /** Any number of quarter turns keeps a piece's shape square, of the same size, coloured and occupied. */
  lemma {:induction false} TurnPiece(t: Tetromino, n: nat)
    requires PieceOk(t)
    ensures PieceOk(t.(shape := Turn(t.shape, n)))
  {
    if n > 0 {
      TurnPiece(t, n - 1);
      RotatePiece(t.(shape := Turn(t.shape, n - 1)));
    }
  }

  /** Two quarter turns are a half turn: the matrix read backwards in both directions. */
  lemma HalfTurn(m: Matrix)
    requires |m| > 0 && IsSquare(m)
    ensures |Rotate(Rotate(m))| == |m| && IsSquare(Rotate(Rotate(m)))
    ensures forall i, j | 0 <= i < |m| && 0 <= j < |m| :: Rotate(Rotate(m))[i][j] == m[|m| - 1 - i][|m| - 1 - j]
  {
    var n := |m|;
    var r1 := Rotate(m);
    var r2 := Rotate(r1);
    forall i, j | 0 <= i < n && 0 <= j < n
      ensures r2[i][j] == m[n - 1 - i][n - 1 - j]
    {
      assert r2[i][n - 1 - (n - 1 - j)] == r1[n - 1 - j][i];
      assert r1[n - 1 - j][n - 1 - (n - 1 - i)] == m[n - 1 - i][n - 1 - j];
    }
  }

  /** The first turns of Turn, written out. */
  lemma TurnUnfold(m: Matrix)
    requires |m| > 0 && IsSquare(m)
    ensures Turn(m, 1) == Rotate(m)
    ensures Turn(m, 2) == Rotate(Rotate(m))
    ensures Turn(m, 3) == Rotate(Rotate(Rotate(m)))
    ensures Turn(m, 4) == Rotate(Rotate(Rotate(Rotate(m))))
  {
    assert Turn(m, 0) == m;
  }

  /** b is the half turn of a: both square of one size, b read backwards in both directions. */
  predicate IsHalfTurn(a: Matrix, b: Matrix)
  {
    IsSquare(a) && IsSquare(b) && |a| == |b|
    && forall i, j | 0 <= i < |a| && 0 <= j < |a| :: b[i][j] == a[|a| - 1 - i][|a| - 1 - j]
  }

  /** A half turn of a half turn is the original matrix. */
  lemma HalfOfHalf(a: Matrix, b: Matrix, c: Matrix)
    requires IsHalfTurn(a, b) && IsHalfTurn(b, c)
    ensures c == a
  {
    var n := |a|;
    forall i | 0 <= i < n
      ensures c[i] == a[i]
    {
      forall j | 0 <= j < n
        ensures c[i][j] == a[i][j]
      {
        assert c[i][j] == b[n - 1 - i][n - 1 - j];
      }
    }
  }

  /** Two half turns cancel out. */
  lemma HalfTurnsCancel(m: Matrix)
    requires |m| > 0 && IsSquare(m)
    ensures Rotate(Rotate(Rotate(Rotate(m)))) == m
  {
    HalfTurn(m);
    var h := Rotate(Rotate(m));
    HalfTurn(h);
    HalfOfHalf(m, h, Rotate(Rotate(h)));
  }

  /** Four clockwise quarter turns give back the original shape. */
  lemma {:induction false} FourTurns(m: Matrix)
    requires |m| > 0 && IsSquare(m)
    ensures Turn(m, 4) == m
  {
    TurnUnfold(m);
    HalfTurnsCancel(m);
  }

  /**
   * Counter-clockwise rotation, as the engine computes it with three
   * clockwise turns: a cell at (row, c) moves to (N-1-c, row), and a
   * clockwise turn undoes it in either order.
   */
  lemma {:induction false} CounterClockwise(m: Matrix)
    requires |m| > 0 && IsSquare(m)
    ensures forall row, c | 0 <= row < |m| && 0 <= c < |m| :: Turn(m, 3)[|m| - 1 - c][row] == m[row][c]
    ensures Rotate(Turn(m, 3)) == m
    ensures Turn(Rotate(m), 3) == m
  {
    ThreeTurnsMoveCells(m);
    TurnUnfold(m);
    FourTurns(m);
    var r := Rotate(m);
    TurnUnfold(r);
    assert Turn(r, 3) == Turn(m, 4);
  }

  /** Three clockwise turns move the cell at (row, c) to (N-1-c, row). */
  lemma ThreeTurnsMoveCells(m: Matrix)
    requires |m| > 0 && IsSquare(m)
    ensures forall row, c | 0 <= row < |m| && 0 <= c < |m| :: Turn(m, 3)[|m| - 1 - c][row] == m[row][c]
  {
    var h := Turn(m, 2);
    assert h == Rotate(Rotate(m)) by {
      assert Turn(m, 0) == m;
      assert Turn(m, 1) == Rotate(m);
    }
    HalfTurn(m);
    QuarterAfterHalf(m, h, Turn(m, 3));
  }

  /** A quarter turn of the half turn of m moves m's cell (row, c) to (N-1-c, row). */
  lemma QuarterAfterHalf(m: Matrix, h: Matrix, t: Matrix)
    requires IsHalfTurn(m, h) && |m| > 0
    requires |t| == |h| && forall c | 0 <= c < |t| :: |t[c]| == |h|
    requires forall c, k | 0 <= c < |h| && 0 <= k < |h| :: t[c][k] == h[|h| - 1 - k][c]
    ensures forall row, c | 0 <= row < |m| && 0 <= c < |m| :: t[|m| - 1 - c][row] == m[row][c]
  {
    var n := |m|;
    forall row, c | 0 <= row < n && 0 <= c < n
      ensures t[n - 1 - c][row] == m[row][c]
    {
      assert t[n - 1 - c][row] == h[n - 1 - row][n - 1 - c];
    }
  }

  /**
   * The counter-clockwise turn as the key handler computes it: three
   * clockwise turns in a row. Cell (row, c) moves to (n - 1 - c, row).
   */
  method RotateCounterClockwise(m: Matrix) returns (r: Matrix)
    requires |m| > 0 && IsSquare(m)
    ensures r == Turn(m, 3)
    ensures forall row, c | 0 <= row < |m| && 0 <= c < |m| :: r[|m| - 1 - c][row] == m[row][c]
  {
    r := m;
    for i := 0 to 3
      invariant r == Turn(m, i)
    {
      r := Rotate(r);
    }
    CounterClockwise(m);
  }

  /** The turn of a cell position (row, c) of an n-row matrix. */
  function TurnCell(p: (int, int), n: int): (int, int)
  {
    (p.1, n - 1 - p.0)
  }

  /** Mapping positions with TurnCell loses none of them. */
  lemma {:induction false} TurnCellsCount(s: set<(int, int)>, n: int)
    ensures |set p | p in s :: TurnCell(p, n)| == |s|
    decreases |s|
  {
    if s != {} {
      var p :| p in s;
      var rest := s - {p};
      TurnCellsCount(rest, n);
      assert (set q | q in s :: TurnCell(q, n)) == (set q | q in rest :: TurnCell(q, n)) + {TurnCell(p, n)};
      assert TurnCell(p, n) !in (set q | q in rest :: TurnCell(q, n));
    }
  }

  /** A clockwise turn moves occupied cells one-to-one, so it keeps their number. */
  lemma RotateKeepsCellCount(m: Matrix)
    requires |m| > 0 && IsSquare(m)
    ensures |Cells(Rotate(m))| == |Cells(m)|
  {
    var n := |m|;
    var r := Rotate(m);
    RotateSquare(m, 0);
    var image := set p | p in Cells(m) :: TurnCell(p, n);
    forall q | q in Cells(r)
      ensures q in image
    {
      var p := (n - 1 - q.1, q.0);
      assert r[q.0][n - 1 - p.0] == m[p.0][p.1];
      assert p in Cells(m);
      assert TurnCell(p, n) == q;
    }
    forall q | q in image
      ensures q in Cells(r)
    {
      var p :| p in Cells(m) && q == TurnCell(p, n);
      assert r[p.1][n - 1 - p.0] == m[p.0][p.1];
    }
    assert Cells(r) == image;
    TurnCellsCount(Cells(m), n);
  }
}
