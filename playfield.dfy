/**
 * The playfield utilities of TetraMaster: the ROWS x COLS board of colour ids,
 * the collision test, merging a piece into the board, clearing full rows and
 * the preview grid of the next piece.
 *
 * Each operation the game performs with a loop is a method proved against a
 * function or predicate that states the same result declaratively.
 */
module Playfield {
  import opened Pieces

  /** A board: a sequence of rows, each a sequence of cells; 0 is empty, 1..7 a colour id. */
  type Board = seq<seq<int>>

  /** ROWS rows of COLS cells each. */
  predicate WellFormed(b: Board)
  {
    |b| == ROWS && forall r | 0 <= r < |b| :: |b[r]| == COLS
  }

  /** Every cell is empty or one of the seven colour ids. */
  predicate CellsInRange(b: Board)
  {
    forall r, c | 0 <= r < |b| && 0 <= c < |b[r]| :: 0 <= b[r][c] <= 7
  }

  function EmptyRow(): seq<int>
  {
    seq(COLS, _ => 0)
  }

  function EmptyRows(n: nat): Board
  {
    seq(n, _ => EmptyRow())
  }

  /** The board a game starts with: ROWS rows of COLS empty cells. */
  function EmptyBoard(): (b: Board)
    ensures WellFormed(b) && CellsInRange(b) && NoFullRow(b)
    ensures Cells(b) == {}
  {
    assert EmptyRow()[0] == 0;
    EmptyRows(ROWS)
  }

  // ---------------------------------------------------------------------
  // Collision
  // ---------------------------------------------------------------------

  /**
   * Board position (nx, ny) can take an occupied piece cell: inside the
   * columns, above the floor, and empty unless it is above the board.
   */
  predicate CellFree(b: Board, nx: int, ny: int)
    requires WellFormed(b)
  {
    0 <= nx < COLS && ny < ROWS && (ny >= 0 ==> b[ny][nx] == 0)
  }

  /** Every occupied cell of the shape, placed with its top-left corner at (x, y), lands on a free position. */
  predicate Fits(b: Board, shape: Matrix, x: int, y: int)
    requires WellFormed(b)
  {
    forall r, c | 0 <= r < |shape| && 0 <= c < |shape[r]| && shape[r][c] != 0 :: CellFree(b, x + c, y + r)
  }

  /** Every occupied cell of the placed shape is inside the columns and above the floor. */
  predicate InBounds(shape: Matrix, x: int, y: int)
  {
    forall r, c | 0 <= r < |shape| && 0 <= c < |shape[r]| && shape[r][c] != 0 :: 0 <= x + c < COLS && y + r < ROWS
  }

  /**
   * The collision test: scans the shape row by row and stops at the first
   * occupied cell that is outside the columns, below the floor, or on an
   * occupied board cell.
   */
  method IsValidMove(board: Board, shape: Matrix, x: int, y: int) returns (ok: bool)
    requires WellFormed(board)
    ensures ok == Fits(board, shape, x, y)
  {
    for row := 0 to |shape|
      invariant forall r, c | 0 <= r < row && 0 <= c < |shape[r]| && shape[r][c] != 0 :: CellFree(board, x + c, y + r)
    {
      for col := 0 to |shape[row]|
        invariant forall r, c | 0 <= r < row && 0 <= c < |shape[r]| && shape[r][c] != 0 :: CellFree(board, x + c, y + r)
        invariant forall c | 0 <= c < col && shape[row][c] != 0 :: CellFree(board, x + c, y + row)
      {
        if shape[row][col] != 0 {
          var nx := x + col;
          var ny := y + row;
          if nx < 0 || nx >= COLS || ny >= ROWS || (ny >= 0 && board[ny][nx] != 0) {
            return false;
          }
        }
      }
    }
    return true;
  }

  /** A shape whose cells all lie strictly above the board fits wherever its columns are inside the board. */
  lemma AboveBoardFits(b: Board, shape: Matrix, x: int, y: int)
    requires WellFormed(b)
    requires y + |shape| <= 0
    requires forall r, c | 0 <= r < |shape| && 0 <= c < |shape[r]| && shape[r][c] != 0 :: 0 <= x + c < COLS
    ensures Fits(b, shape, x, y)
  {
  }

  /** A shape that fits is in bounds. */
  lemma FitsInBounds(b: Board, shape: Matrix, x: int, y: int)
    requires WellFormed(b) && Fits(b, shape, x, y)
    ensures InBounds(shape, x, y)
  {
  }

  /** A shape that fits has a lowest cell above the floor, so its top-left row is above the floor. */
  lemma FitsAboveFloor(b: Board, shape: Matrix, x: int, y: int)
    requires WellFormed(b) && HasCell(shape) && Fits(b, shape, x, y)
    ensures y < ROWS
  {
    var r, c :| 0 <= r < |shape| && 0 <= c < |shape[r]| && shape[r][c] != 0;
    assert CellFree(b, x + c, y + r);
  }

  // ---------------------------------------------------------------------
  // Merging a piece into the board
  // ---------------------------------------------------------------------

  /** The board position (nx, ny) lies under an occupied cell of the shape placed at (x, y). */
  predicate Covers(shape: Matrix, x: int, y: int, nx: int, ny: int)
  {
    0 <= ny - y < |shape| && 0 <= nx - x < |shape[ny - y]| && shape[ny - y][nx - x] != 0
  }

  /**
   * The board with the placed shape's on-board cells painted in the given
   * colour, every other cell as before. Cells above the board are dropped.
   */
  function Overlay(b: Board, shape: Matrix, x: int, y: int, color: int): (o: Board)
    requires WellFormed(b)
    ensures WellFormed(o)
  {
    seq(ROWS, ny requires 0 <= ny < ROWS =>
      seq(COLS, nx requires 0 <= nx < COLS =>
        if Covers(shape, x, y, nx, ny) then color else b[ny][nx]))
  }

  /** The board positions taken by the occupied cells of the shape placed at (x, y) that are not above the board. */
  function Placed(shape: Matrix, x: int, y: int): set<(int, int)>
  {
    set r, c | 0 <= r < |shape| && 0 <= c < |shape[r]| && shape[r][c] != 0 && y + r >= 0 :: (y + r, x + c)
  }

  /**
   * Merging a fitting piece overlaps nothing: the occupied cells afterwards
   * are the ones before plus the piece's on-board cells, and the two are disjoint.
   */
  lemma OverlayOccupies(b: Board, shape: Matrix, x: int, y: int, color: int)
    requires WellFormed(b) && Fits(b, shape, x, y) && color != 0
    ensures Cells(Overlay(b, shape, x, y, color)) == Cells(b) + Placed(shape, x, y)
    ensures Cells(b) !! Placed(shape, x, y)
  {
    var o := Overlay(b, shape, x, y, color);
    var placed := Placed(shape, x, y);
    forall p | p in placed
      ensures p in Cells(o) && p !in Cells(b)
    {
      var r, c :| 0 <= r < |shape| && 0 <= c < |shape[r]| && shape[r][c] != 0 && y + r >= 0 && p == (y + r, x + c);
      assert CellFree(b, x + c, y + r);
      assert Covers(shape, x, y, x + c, y + r);
    }
    forall p | p in Cells(b)
      ensures p in Cells(o)
    {
      if Covers(shape, x, y, p.1, p.0) {
        assert false;
      }
    }
    forall p | p in Cells(o)
      ensures p in Cells(b) + placed
    {
      if Covers(shape, x, y, p.1, p.0) {
        var r, c := p.0 - y, p.1 - x;
        assert (y + r, x + c) in placed;
      }
    }
  }

  /**
   * On a board with no full row, merging a shape can fill at most as many
   * rows as the shape has: every other row is unchanged.
   */
  lemma OverlayFillsAtMost(b: Board, shape: Matrix, x: int, y: int, color: int)
    requires WellFormed(b) && NoFullRow(b)
    ensures FullCount(Overlay(b, shape, x, y, color)) <= |shape|
  {
    var o := Overlay(b, shape, x, y, color);
    var lo := if y < 0 then 0 else if y > ROWS then ROWS else y;
    var top := y + |shape|;
    var hi := if top < lo then lo else if top > ROWS then ROWS else top;
    forall i | 0 <= i < |o| && !(lo <= i < hi)
      ensures !IsFull(o[i])
    {
      assert !(0 <= i - y < |shape|);
      assert forall nx | 0 <= nx < COLS :: !Covers(shape, x, y, nx, i);
      assert o[i] == b[i];
    }
    FullRowsWithin(o, lo, hi);
  }

  /** Painting with a colour id keeps every cell within 0..7. */
  lemma OverlayInRange(b: Board, shape: Matrix, x: int, y: int, color: int)
    requires WellFormed(b) && CellsInRange(b) && 0 <= color <= 7
    ensures CellsInRange(Overlay(b, shape, x, y, color))
  {
  }

  /**
   * Merge: copies the board and writes the colour into every occupied cell of
   * the shape that is not above the board. The columns and the floor are not
   * checked here, so the caller must place the shape in bounds.
   */
  method Merge(board: Board, shape: Matrix, x: int, y: int, color: int) returns (merged: Board)
    requires WellFormed(board) && InBounds(shape, x, y)
    ensures merged == Overlay(board, shape, x, y, color)
  {
    merged := board;
    for row := 0 to |shape|
      invariant WellFormed(merged)
      invariant forall ny, nx | 0 <= ny < ROWS && 0 <= nx < COLS ::
        merged[ny][nx] == if ny - y < row && Covers(shape, x, y, nx, ny) then color else board[ny][nx]
    {
      for col := 0 to |shape[row]|
        invariant WellFormed(merged)
        invariant forall ny, nx | 0 <= ny < ROWS && 0 <= nx < COLS ::
          merged[ny][nx] ==
            if (ny - y < row || (ny - y == row && nx - x < col)) && Covers(shape, x, y, nx, ny)
            then color else board[ny][nx]
      {
        if shape[row][col] != 0 {
          var nx := x + col;
          var ny := y + row;
          if ny >= 0 {
            merged := merged[ny := merged[ny][nx := color]];
          }
        }
      }
    }
    var o := Overlay(board, shape, x, y, color);
    forall ny | 0 <= ny < ROWS
      ensures merged[ny] == o[ny]
    {
    }
  }

  // ---------------------------------------------------------------------
  // Clearing full rows
  // ---------------------------------------------------------------------

  /** A row is full when none of its cells is empty. */
  predicate IsFull(row: seq<int>)
  {
    forall i | 0 <= i < |row| :: row[i] != 0
  }

  /** The rows that are not full, in their original order. */
  function Kept(rows: Board): (k: Board)
    ensures |k| <= |rows|
    ensures forall i | 0 <= i < |k| :: k[i] in rows && !IsFull(k[i])
  {
    if rows == [] then []
    else
      var last := rows[|rows| - 1];
      Kept(rows[..|rows| - 1]) + if IsFull(last) then [] else [last]
  }

  /** The number of full rows. */
  function FullCount(rows: Board): (n: nat)
    ensures n <= |rows|
  {
    if rows == [] then 0
    else FullCount(rows[..|rows| - 1]) + if IsFull(rows[|rows| - 1]) then 1 else 0
  }

  /** Every row is either kept or counted as full. */
  lemma {:induction false} KeptPlusFull(rows: Board)
    ensures |Kept(rows)| + FullCount(rows) == |rows|
  {
    if rows != [] {
      KeptPlusFull(rows[..|rows| - 1]);
    }
  }

  /**
   * The board after clearing: the full rows removed, the others in order at
   * the bottom, and one empty row on top for each removed row.
   */
  function Cleared(b: Board): (r: Board)
    requires WellFormed(b)
    ensures WellFormed(r)
  {
    KeptPlusFull(b);
    EmptyRows(FullCount(b)) + Kept(b)
  }

  /** Keeping and counting distribute over concatenation. */
  lemma {:induction false} SplitRows(a: Board, b: Board)
    ensures Kept(a + b) == Kept(a) + Kept(b)
    ensures FullCount(a + b) == FullCount(a) + FullCount(b)
  {
    if b == [] {
      assert a + b == a;
    } else {
      var b' := b[..|b| - 1];
      SplitRows(a, b');
      assert (a + b)[..|a + b| - 1] == a + b';
    }
  }

  /** No row of the board is full. */
  predicate NoFullRow(rows: Board)
  {
    forall i | 0 <= i < |rows| :: !IsFull(rows[i])
  }

  /** Rows with no full row among them are all kept and none is counted. */
  lemma {:induction false} NoFullRows(rows: Board)
    requires NoFullRow(rows)
    ensures Kept(rows) == rows && FullCount(rows) == 0
  {
    if rows != [] {
      NoFullRows(rows[..|rows| - 1]);
    }
  }

  /** No row is counted exactly when no row is full. */
  lemma {:induction false} FullCountZero(rows: Board)
    ensures FullCount(rows) == 0 <==> NoFullRow(rows)
  {
    if rows != [] {
      var init := rows[..|rows| - 1];
      FullCountZero(init);
      assert forall i | 0 <= i < |init| :: init[i] == rows[i];
    }
  }

  /** If every full row lies among rows lo..hi-1, at most hi - lo rows are full. */
  lemma {:induction false} FullRowsWithin(rows: Board, lo: int, hi: int)
    requires 0 <= lo <= hi <= |rows|
    requires forall i | 0 <= i < |rows| && !(lo <= i < hi) :: !IsFull(rows[i])
    ensures FullCount(rows) <= hi - lo
    decreases |rows|
  {
    if lo == |rows| {
      FullCountZero(rows);
    } else {
      var init := rows[..|rows| - 1];
      assert forall i | 0 <= i < |init| :: init[i] == rows[i];
      if hi == |rows| {
        FullRowsWithin(init, lo, hi - 1);
      } else {
        FullRowsWithin(init, lo, hi);
      }
    }
  }

  /**
   * A board with no full row comes back unchanged with no lines cleared, and
   * a cleared board has no full row left, so clearing again changes nothing.
   */
  lemma ClearedFacts(b: Board)
    requires WellFormed(b)
    ensures FullCount(b) == 0 ==> Cleared(b) == b
    ensures NoFullRow(Cleared(b))
    ensures Cleared(Cleared(b)) == Cleared(b)
  {
    var n := FullCount(b);
    var e := EmptyRows(n);
    var k := Kept(b);
    assert !IsFull(EmptyRow()) by {
      assert EmptyRow()[0] == 0;
    }
    if n == 0 {
      assert e + k == k;
      FullCountZero(b);
      NoFullRows(b);
    }
    NoFullRows(e);
    NoFullRows(k);
    SplitRows(e, k);
    var c := Cleared(b);
    assert c == e + k;
    FullCountZero(c);
    NoFullRows(c);
  }

  /** Clearing keeps every cell within 0..7. */
  lemma ClearedInRange(b: Board)
    requires WellFormed(b) && CellsInRange(b)
    ensures CellsInRange(Cleared(b))
  {
    var n := FullCount(b);
    var c := Cleared(b);
    forall r, col | 0 <= r < |c| && 0 <= col < |c[r]|
      ensures 0 <= c[r][col] <= 7
    {
      if r >= n {
        assert c[r] == Kept(b)[r - n];
        assert c[r] in b;
      }
    }
  }

  /** The filter step of clearLines: keeps the rows that are not full and counts the others. */
  method DropFullRows(board: Board) returns (kept: Board, lines: int)
    ensures kept == Kept(board) && lines == FullCount(board)
    ensures |kept| + lines == |board|
  {
    lines := 0;
    kept := [];
    for i := 0 to |board|
      invariant kept == Kept(board[..i])
      invariant lines == FullCount(board[..i])
    {
      assert board[..i + 1][..i] == board[..i];
      if IsFull(board[i]) {
        lines := lines + 1;
      } else {
        kept := kept + [board[i]];
      }
    }
    assert board[..|board|] == board;
    KeptPlusFull(board);
  }

  /**
   * clearLines: drops the full rows while counting them, then pushes empty
   * rows on top until the board has ROWS rows again.
   */
  method ClearLines(board: Board) returns (newBoard: Board, linesCleared: int)
    requires WellFormed(board)
    ensures linesCleared == FullCount(board)
    ensures newBoard == Cleared(board)
  {
    var kept, lines := DropFullRows(board);
    newBoard := kept;
    while |newBoard| < ROWS
      invariant |kept| <= |newBoard| <= ROWS
      invariant newBoard == EmptyRows(|newBoard| - |kept|) + kept
      decreases ROWS - |newBoard|
    {
      newBoard := [EmptyRow()] + newBoard;
    }
    linesCleared := lines;
  }

  // ---------------------------------------------------------------------
  // Preview grid
  // ---------------------------------------------------------------------

  /**
   * drawMini: a NEXT_SIZE x NEXT_SIZE grid of zeros with the colour written
   * at every occupied cell of the shape.
   */
  method DrawMini(shape: Matrix, color: int) returns (grid: Matrix)
    requires |shape| <= NEXT_SIZE && forall r | 0 <= r < |shape| :: |shape[r]| <= NEXT_SIZE
    ensures |grid| == NEXT_SIZE && forall r | 0 <= r < NEXT_SIZE :: |grid[r]| == NEXT_SIZE
    ensures forall r, c | 0 <= r < NEXT_SIZE && 0 <= c < NEXT_SIZE ::
      grid[r][c] == if r < |shape| && c < |shape[r]| && shape[r][c] != 0 then color else 0
  {
    grid := seq(NEXT_SIZE, _ => seq(NEXT_SIZE, _ => 0));
    for row := 0 to |shape|
      invariant |grid| == NEXT_SIZE && forall r | 0 <= r < NEXT_SIZE :: |grid[r]| == NEXT_SIZE
      invariant forall r, c | 0 <= r < NEXT_SIZE && 0 <= c < NEXT_SIZE ::
        grid[r][c] == if r < row && c < |shape[r]| && shape[r][c] != 0 then color else 0
    {
      for col := 0 to |shape[row]|
        invariant |grid| == NEXT_SIZE && forall r | 0 <= r < NEXT_SIZE :: |grid[r]| == NEXT_SIZE
        invariant forall r, c | 0 <= r < NEXT_SIZE && 0 <= c < NEXT_SIZE ::
          grid[r][c] == if (r < row || (r == row && c < col)) && c < |shape[r]| && shape[r][c] != 0 then color else 0
      {
        if shape[row][col] != 0 {
          grid := grid[row := grid[row][col := color]];
        }
      }
    }
  }
}
