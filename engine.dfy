/**
 * The TetraMaster game engine: the state the component keeps (board, falling
 * piece and its position, next piece, score, level, cleared lines, game-over
 * flag), the transitions that lock a piece, apply gravity, answer a key
 * command and restart the game, and the class that performs them one
 * handler at a time.
 *
 * Every random draw is a parameter: a Kind (0..6) stands for one call of the
 * random piece generator.
 */
module Engine {
  import opened Pieces
  import opened Playfield
  import opened Scoring

  /** Top-left corner of the falling piece's shape on the board; y < 0 is above the board. */
  datatype Pos = Pos(x: int, y: int)

  /** The component's state, one field per state hook. */
  datatype GameState = GameState(
    board: Board,
    current: Tetromino,
    pos: Pos,
    next: Tetromino,
    score: int,
    level: int,
    linesTotal: int,
    gameOver: bool)

  /** The decoded key commands. */
  datatype Command = MoveLeft | MoveRight | SoftDrop | HardDrop | RotateCW | RotateCCW | Restart

  /**
   * One event the engine reacts to: a gravity tick, a key, or a press of the
   * restart button, which is shown only while the game is over.
   */
  datatype Input =
    | Tick(k: Kind)
    | Key(cmd: Command, k1: Kind, k2: Kind)
    | RestartButton(k1: Kind, k2: Kind)

  /** Row at which every piece appears. */
  const START_Y: int := -2
  /** Column at which the first piece appears, at start and after a restart. */
  const START_X: int := 3

  /**
   * What holds of every state the game reaches: a ROWS x COLS board of colour
   * ids with no full row, a proper falling piece, a freshly generated next
   * piece, non-negative score, a level that is the number of tens of lines
   * cleared, and, while the game runs, a falling piece that fits where it is.
   */
  predicate Inv(s: GameState)
  {
    WellFormed(s.board) && CellsInRange(s.board) && NoFullRow(s.board)
    && PieceOk(s.current) && Drawn(s.next)
    && 0 <= s.score && 0 <= s.linesTotal && s.level == s.linesTotal / 10
    && (!s.gameOver ==> Fits(s.board, s.current.shape, s.pos.x, s.pos.y))
  }

  /** Every piece fits at its first position on an empty board. */
  lemma SpawnOnEmptyBoard(t: Tetromino)
    requires PieceOk(t)
    ensures Fits(EmptyBoard(), t.shape, START_X, START_Y)
  {
  }

  /**
   * The state at start and after a restart: an empty board, two drawn pieces,
   * the falling one at (3, -2), all counters zero and the game running.
   */
  function Initial(k1: Kind, k2: Kind): (s: GameState)
    ensures Inv(s) && !s.gameOver
    ensures Cells(s.board) == {} && s.score == 0 && s.level == 0 && s.linesTotal == 0
    ensures GetInterval(s.level) == 900
  {
    SpawnOnEmptyBoard(RandomTetromino(k1));
    GameState(EmptyBoard(), RandomTetromino(k1), Pos(START_X, START_Y), RandomTetromino(k2), 0, 0, 0, false)
  }

  /**
   * The column at which a promoted piece appears: centred, rounding down, so
   * the free columns to its right are as many as those to its left or one more.
   */
  function SpawnX(t: Tetromino): (x: int)
    requires |t.shape| > 0
    ensures |t.shape[0]| <= COLS ==>
      0 <= x && x + |t.shape[0]| <= COLS && COLS - (x + |t.shape[0]|) - x in {0, 1}
  {
    (COLS - |t.shape[0]|) / 2
  }

  /**
   * Locking the falling piece at (lx, ly): merge it, clear full rows, add the
   * score at the level before the lock, add the lines, go up one level when the
   * tens of lines pass the level, promote the next piece to (SpawnX, -2), draw
   * a new next piece, and end the game if the promoted piece does not fit.
   * The new board, counters and pieces are kept even when the game ends.
   */
  function Lock(s: GameState, lx: int, ly: int, k: Kind): GameState
    requires WellFormed(s.board) && InBounds(s.current.shape, lx, ly) && |s.next.shape| > 0
  {
    var merged := Overlay(s.board, s.current.shape, lx, ly, s.current.color);
    var linesCleared := FullCount(merged);
    var newBoard := Cleared(merged);
    var startX := SpawnX(s.next);
    var canSpawn := Fits(newBoard, s.next.shape, startX, START_Y);
    GameState(
      newBoard,
      s.next,
      Pos(startX, START_Y),
      RandomTetromino(k),
      s.score + GetScore(linesCleared, s.level),
      if (s.linesTotal + linesCleared) / 10 > s.level then s.level + 1 else s.level,
      s.linesTotal + linesCleared,
      s.gameOver || !canSpawn)
  }

  /**
   * The row a hard drop stops at: the piece descends from y through rows where
   * it fits and stops at the first row from which one more step would not fit.
   */
  function Landing(b: Board, shape: Matrix, x: int, y: int): (landY: int)
    requires WellFormed(b) && HasCell(shape)
    ensures y <= landY
    ensures forall d | y < d <= landY :: Fits(b, shape, x, d)
    ensures Fits(b, shape, x, y) ==> Fits(b, shape, x, landY)
    ensures !Fits(b, shape, x, landY + 1)
    decreases ROWS - y
  {
    if Fits(b, shape, x, y + 1) then
      FitsAboveFloor(b, shape, x, y + 1);
      Landing(b, shape, x, y + 1)
    else y
  }

  /** A gravity tick: one row down if the piece fits there, otherwise lock where it is. */
  function Gravity(s: GameState, k: Kind): GameState
    requires Inv(s)
  {
    if s.gameOver then s
    else if Fits(s.board, s.current.shape, s.pos.x, s.pos.y + 1) then s.(pos := Pos(s.pos.x, s.pos.y + 1))
    else Lock(s, s.pos.x, s.pos.y, k)
  }

  /** A move or the soft drop: shift the piece by (dx, dy) if it fits there. */
  function Shift(s: GameState, dx: int, dy: int): GameState
    requires WellFormed(s.board)
  {
    if Fits(s.board, s.current.shape, s.pos.x + dx, s.pos.y + dy) then s.(pos := Pos(s.pos.x + dx, s.pos.y + dy))
    else s
  }

  /** A rotation: replace the falling shape by r if it fits in place. */
  function Turned(s: GameState, r: Matrix): GameState
    requires WellFormed(s.board)
  {
    if Fits(s.board, r, s.pos.x, s.pos.y) then s.(current := s.current.(shape := r)) else s
  }

  /** The hard drop: lock the piece at its landing row. */
  function Dropped(s: GameState, k: Kind): GameState
    requires Inv(s) && !s.gameOver
  {
    var landY := Landing(s.board, s.current.shape, s.pos.x, s.pos.y);
    FitsInBounds(s.board, s.current.shape, s.pos.x, landY);
    Lock(s, s.pos.x, landY, k)
  }

  /**
   * A key command. Moves, the soft drop and rotations take effect only where
   * the piece then fits (the soft drop never locks); the hard drop locks at the
   * landing row; restart starts over. Nothing happens once the game is over.
   * k1 is the draw a lock uses; a restart uses k1 and k2.
   */
  function KeyStep(s: GameState, cmd: Command, k1: Kind, k2: Kind): GameState
    requires Inv(s)
  {
    if s.gameOver then s
    else
      match cmd
      case MoveLeft => Shift(s, -1, 0)
      case MoveRight => Shift(s, 1, 0)
      case SoftDrop => Shift(s, 0, 1)
      case HardDrop => Dropped(s, k1)
      case RotateCW => Turned(s, Rotate(s.current.shape))
      case RotateCCW => Turned(s, Turn(s.current.shape, 3))
      case Restart => Initial(k1, k2)
  }

  /**
   * The effect of one input. The restart button exists only while the game is
   * over; in a running game there is nothing to press.
   */
  function Apply(s: GameState, input: Input): GameState
    requires Inv(s)
  {
    match input
    case Tick(k) => Gravity(s, k)
    case Key(cmd, k1, k2) => KeyStep(s, cmd, k1, k2)
    case RestartButton(k1, k2) => if s.gameOver then Initial(k1, k2) else s
  }

  // ---------------------------------------------------------------------
  // Properties of a lock
  // ---------------------------------------------------------------------

  /**
   * A lock of a fitting piece clears at most as many lines as the piece has
   * rows, so at most four.
   */
  lemma LockClearsAtMostFour(s: GameState, lx: int, ly: int)
    requires Inv(s)
    ensures FullCount(Overlay(s.board, s.current.shape, lx, ly, s.current.color)) <= |s.current.shape| <= 4
  {
    OverlayFillsAtMost(s.board, s.current.shape, lx, ly, s.current.color);
  }

  /**
   * The effect of a lock on the counters and pieces: the score grows by the
   * points for the cleared lines at the old level, the line total by the lines
   * cleared, the level by at most one, and exactly when the tens of lines pass
   * it; the next piece becomes the falling one at (SpawnX, -2), a new one is
   * drawn, and the game ends exactly when the promoted piece does not fit.
   */
  lemma LockEffects(s: GameState, lx: int, ly: int, k: Kind)
    requires Inv(s) && !s.gameOver && Fits(s.board, s.current.shape, lx, ly)
    ensures
      var merged := Overlay(s.board, s.current.shape, lx, ly, s.current.color);
      var lines := FullCount(merged);
      var t := Lock(s, lx, ly, k);
      && t.board == Cleared(merged)
      && t.score == s.score + GetScore(lines, s.level) && t.score >= s.score
      && t.linesTotal == s.linesTotal + lines
      && (t.level == s.level + 1 <==> (s.linesTotal + lines) / 10 > s.level)
      && s.level <= t.level <= s.level + 1
      && t.current == s.next && t.next == RandomTetromino(k)
      && t.pos == Pos(SpawnX(s.next), START_Y)
      && (t.gameOver <==> !Fits(t.board, t.current.shape, t.pos.x, t.pos.y))
  {
  }

  /** Locking a fitting piece keeps the invariant; in particular the level stays the tens of lines cleared. */
  lemma LockKeepsInv(s: GameState, lx: int, ly: int, k: Kind)
    requires Inv(s) && !s.gameOver && Fits(s.board, s.current.shape, lx, ly)
    ensures Inv(Lock(s, lx, ly, k))
  {
    var merged := Overlay(s.board, s.current.shape, lx, ly, s.current.color);
    var t := Lock(s, lx, ly, k);
    assert WellFormed(t.board) && CellsInRange(t.board) && NoFullRow(t.board) by {
      OverlayInRange(s.board, s.current.shape, lx, ly, s.current.color);
      ClearedInRange(merged);
      ClearedFacts(merged);
    }
    assert t.level == t.linesTotal / 10 by {
      LockClearsAtMostFour(s, lx, ly);
      LevelStep(s.linesTotal, FullCount(merged));
    }
  }

  /** Adding fewer than ten lines raises the tens of lines by at most one. */
  lemma LevelStep(total: int, lines: int)
    requires 0 <= total && 0 <= lines < 10
    ensures (total + lines) / 10 == total / 10 || (total + lines) / 10 == total / 10 + 1
  {
  }

  // ---------------------------------------------------------------------
  // Properties of the transitions
  // ---------------------------------------------------------------------

  /** A hard drop descends only through positions that fit and locks where one row lower does not fit. */
  lemma HardDropLands(s: GameState, k1: Kind, k2: Kind)
    requires Inv(s) && !s.gameOver
    ensures
      var y := Landing(s.board, s.current.shape, s.pos.x, s.pos.y);
      && Fits(s.board, s.current.shape, s.pos.x, y)
      && !Fits(s.board, s.current.shape, s.pos.x, y + 1)
      && forall d | s.pos.y <= d <= y :: Fits(s.board, s.current.shape, s.pos.x, d)
  {
  }

  /** A move or soft drop keeps the invariant: the piece only goes where it fits. */
  lemma ShiftKeepsInv(s: GameState, dx: int, dy: int)
    requires Inv(s)
    ensures Inv(Shift(s, dx, dy))
  {
  }

  /** A rotation to a well-formed shape keeps the invariant. */
  lemma TurnedKeepsInv(s: GameState, r: Matrix)
    requires Inv(s) && PieceOk(s.current.(shape := r))
    ensures Inv(Turned(s, r))
  {
  }

  /** A gravity tick keeps the invariant. */
  lemma GravityKeepsInv(s: GameState, k: Kind)
    requires Inv(s)
    ensures Inv(Gravity(s, k))
  {
    if !s.gameOver {
      if Fits(s.board, s.current.shape, s.pos.x, s.pos.y + 1) {
        assert Gravity(s, k) == Shift(s, 0, 1);
        ShiftKeepsInv(s, 0, 1);
      } else {
        assert Gravity(s, k) == Lock(s, s.pos.x, s.pos.y, k);
        LockKeepsInv(s, s.pos.x, s.pos.y, k);
      }
    }
  }

  /** A hard drop keeps the invariant. */
  lemma DroppedKeepsInv(s: GameState, k: Kind)
    requires Inv(s) && !s.gameOver
    ensures Inv(Dropped(s, k))
  {
    var landY := Landing(s.board, s.current.shape, s.pos.x, s.pos.y);
    FitsInBounds(s.board, s.current.shape, s.pos.x, landY);
    LockKeepsInv(s, s.pos.x, landY, k);
  }

  /** Every key command keeps the invariant. */
  lemma KeyStepKeepsInv(s: GameState, cmd: Command, k1: Kind, k2: Kind)
    requires Inv(s)
    ensures Inv(KeyStep(s, cmd, k1, k2))
  {
    if !s.gameOver {
      match cmd
      case MoveLeft => ShiftKeepsInv(s, -1, 0);
      case MoveRight => ShiftKeepsInv(s, 1, 0);
      case SoftDrop => ShiftKeepsInv(s, 0, 1);
      case HardDrop => DroppedKeepsInv(s, k1);
      case RotateCW =>
        RotatePiece(s.current);
        TurnedKeepsInv(s, Rotate(s.current.shape));
      case RotateCCW =>
        TurnPiece(s.current, 3);
        TurnedKeepsInv(s, Turn(s.current.shape, 3));
      case Restart =>
    }
  }

  /** Every transition keeps the invariant. */
  lemma ApplyKeepsInv(s: GameState, input: Input)
    requires Inv(s)
    ensures Inv(Apply(s, input))
  {
    match input
    case Tick(k) => GravityKeepsInv(s, k);
    case Key(cmd, k1, k2) => KeyStepKeepsInv(s, cmd, k1, k2);
    case RestartButton(_, _) =>
  }

  /** Once the game is over, ticks and keys change nothing. */
  lemma GameOverFreezes(s: GameState, cmd: Command, k1: Kind, k2: Kind)
    requires Inv(s) && s.gameOver
    ensures Gravity(s, k1) == s && KeyStep(s, cmd, k1, k2) == s
  {
  }

  /**
   * Moves, the soft drop and rotations change only the position or the shape,
   * by their own step, and only to a placement that fits; otherwise the state
   * is unchanged. In a running game the step is taken whenever its candidate
   * placement fits. The soft drop in particular never locks.
   */
  lemma MovesOnlyWhenFit(s: GameState, cmd: Command, k1: Kind, k2: Kind)
    requires Inv(s)
    requires cmd in {MoveLeft, MoveRight, SoftDrop, RotateCW, RotateCCW}
    ensures
      var t := KeyStep(s, cmd, k1, k2);
      && t == s.(pos := t.pos, current := t.current)
      && t.current.color == s.current.color
      && (t != s ==> !s.gameOver && Fits(t.board, t.current.shape, t.pos.x, t.pos.y))
      && (cmd in {MoveLeft, MoveRight, SoftDrop} ==> t.current == s.current)
      && (cmd == MoveLeft ==> t.pos.x in {s.pos.x, s.pos.x - 1} && t.pos.y == s.pos.y)
      && (cmd == MoveRight ==> t.pos.x in {s.pos.x, s.pos.x + 1} && t.pos.y == s.pos.y)
      && (cmd == SoftDrop ==> t.pos.x == s.pos.x && t.pos.y in {s.pos.y, s.pos.y + 1})
      && (cmd in {RotateCW, RotateCCW} ==> t.pos == s.pos)
      && (cmd == RotateCW ==> t.current.shape in {s.current.shape, Rotate(s.current.shape)})
      && (cmd == RotateCCW ==> t.current.shape in {s.current.shape, Turn(s.current.shape, 3)})
      && (!s.gameOver && cmd == MoveLeft && Fits(s.board, s.current.shape, s.pos.x - 1, s.pos.y)
          ==> t.pos == Pos(s.pos.x - 1, s.pos.y))
      && (!s.gameOver && cmd == MoveRight && Fits(s.board, s.current.shape, s.pos.x + 1, s.pos.y)
          ==> t.pos == Pos(s.pos.x + 1, s.pos.y))
      && (!s.gameOver && cmd == SoftDrop && Fits(s.board, s.current.shape, s.pos.x, s.pos.y + 1)
          ==> t.pos == Pos(s.pos.x, s.pos.y + 1))
      && (!s.gameOver && cmd == RotateCW && Fits(s.board, Rotate(s.current.shape), s.pos.x, s.pos.y)
          ==> t.current.shape == Rotate(s.current.shape))
      && (!s.gameOver && cmd == RotateCCW && Fits(s.board, Turn(s.current.shape, 3), s.pos.x, s.pos.y)
          ==> t.current.shape == Turn(s.current.shape, 3))
  {
  }

  /**
   * Every template has its occupied cells in its first two rows, so a piece
   * placed at row -2 lies wholly above the board: the spawn test of a lock
   * passes on every board.
   */
  lemma SpawnAlwaysFits(b: Board, t: Tetromino)
    requires WellFormed(b) && Drawn(t)
    ensures Fits(b, t.shape, SpawnX(t), START_Y)
  {
    TemplateTopRows(t.idx);
  }

  /** Hence no transition ever ends a running game. */
  lemma ApplyNeverEnds(s: GameState, input: Input)
    requires Inv(s) && !s.gameOver
    ensures !Apply(s, input).gameOver
  {
    var b, t, x, y := s.board, s.current, s.pos.x, s.pos.y;
    match input
    case Tick(k) =>
      if !Fits(b, t.shape, x, y + 1) {
        LockNeverEnds(s, x, y, k);
      }
    case Key(cmd, k1, k2) =>
      if cmd == HardDrop {
        var landY := Landing(b, t.shape, x, y);
        FitsInBounds(b, t.shape, x, landY);
        LockNeverEnds(s, x, landY, k1);
      }
    case RestartButton(_, _) =>
  }

  /** A lock in a running game leaves it running. */
  lemma LockNeverEnds(s: GameState, lx: int, ly: int, k: Kind)
    requires Inv(s) && !s.gameOver && InBounds(s.current.shape, lx, ly)
    ensures !Lock(s, lx, ly, k).gameOver
  {
    var merged := Overlay(s.board, s.current.shape, lx, ly, s.current.color);
    SpawnAlwaysFits(Cleared(merged), s.next);
  }

  /** The bottom row of the worked lock: full but for a two-cell gap in columns 4 and 5. */
  function GapRow(): seq<int>
  {
    [1, 1, 1, 1, 0, 0, 1, 1, 1, 1]
  }

  /** The O piece merged into the gap at (4, 18): its top half on row 18, the bottom row filled. */
  lemma MergeIntoGap()
    ensures Overlay(EmptyRows(ROWS - 1) + [GapRow()], Template(1), 4, 18, 2)
         == EmptyRows(ROWS - 2) + [[0, 0, 0, 0, 2, 2, 0, 0, 0, 0], [1, 1, 1, 1, 2, 2, 1, 1, 1, 1]]
  {
    var b := EmptyRows(ROWS - 1) + [GapRow()];
    var m := Overlay(b, Template(1), 4, 18, 2);
    var e := EmptyRows(ROWS - 2) + [[0, 0, 0, 0, 2, 2, 0, 0, 0, 0], [1, 1, 1, 1, 2, 2, 1, 1, 1, 1]];
    forall ny | 0 <= ny < ROWS
      ensures m[ny] == e[ny]
    {
      if ny < ROWS - 2 {
        assert forall nx | 0 <= nx < COLS :: !Covers(Template(1), 4, 18, nx, ny);
      }
    }
  }

  /** Clearing the merged board of the worked lock removes exactly the filled bottom row. */
  lemma ClearGap()
    ensures
      var m := EmptyRows(ROWS - 2) + [[0, 0, 0, 0, 2, 2, 0, 0, 0, 0], [1, 1, 1, 1, 2, 2, 1, 1, 1, 1]];
      FullCount(m) == 1 && Cleared(m) == EmptyRows(ROWS - 1) + [[0, 0, 0, 0, 2, 2, 0, 0, 0, 0]]
  {
    var top := [0, 0, 0, 0, 2, 2, 0, 0, 0, 0];
    var full := [1, 1, 1, 1, 2, 2, 1, 1, 1, 1];
    var upper := EmptyRows(ROWS - 2) + [top];
    assert EmptyRows(ROWS - 2) + [top, full] == upper + [full];
    assert !IsFull(EmptyRow()) by {
      assert EmptyRow()[0] == 0;
    }
    assert !IsFull(top) by {
      assert top[0] == 0;
    }
    NoFullRows(upper);
    SplitRows(upper, [full]);
    assert FullCount([full]) == 1 && Kept([full]) == [];
    assert EmptyRows(1) + upper == EmptyRows(ROWS - 1) + [top];
  }

  /**
   * A worked lock: an O piece locked in the gap of an otherwise full bottom
   * row clears that row, scores 40 at level 0, and leaves the O's top half on
   * the bottom row of the new board.
   */
  lemma SingleLineClear(k1: Kind, k: Kind)
    ensures
      var s := GameState(EmptyRows(ROWS - 1) + [GapRow()], RandomTetromino(1),
                         Pos(4, 18), RandomTetromino(k1), 0, 0, 0, false);
      var t := Lock(s, 4, 18, k);
      && t.board == EmptyRows(ROWS - 1) + [[0, 0, 0, 0, 2, 2, 0, 0, 0, 0]]
      && t.score == 40 && t.linesTotal == 1 && t.level == 0 && !t.gameOver
  {
    var s := GameState(EmptyRows(ROWS - 1) + [GapRow()], RandomTetromino(1),
                       Pos(4, 18), RandomTetromino(k1), 0, 0, 0, false);
    assert s.current.shape == Template(1) && s.current.color == 2;
    MergeIntoGap();
    ClearGap();
    var m := EmptyRows(ROWS - 2) + [[0, 0, 0, 0, 2, 2, 0, 0, 0, 0], [1, 1, 1, 1, 2, 2, 1, 1, 1, 1]];
    SpawnAlwaysFits(Cleared(m), s.next);
  }

  // ---------------------------------------------------------------------
  // Runs of inputs
  // ---------------------------------------------------------------------

  /** The state after a sequence of inputs; every state on the way satisfies the invariant. */
  function Play(s: GameState, inputs: seq<Input>): (t: GameState)
    requires Inv(s)
    ensures Inv(t)
    decreases |inputs|
  {
    if inputs == [] then s
    else
      ApplyKeepsInv(s, inputs[0]);
      Play(Apply(s, inputs[0]), inputs[1..])
  }

  /** The input restarts the game. */
  predicate IsRestart(input: Input)
  {
    input.RestartButton? || (input.Key? && input.cmd == Restart)
  }

  /** One input other than a restart never lowers the score, the line total or the level. */
  lemma ApplyMonotone(s: GameState, input: Input)
    requires Inv(s) && !IsRestart(input)
    ensures var t := Apply(s, input);
      s.score <= t.score && s.linesTotal <= t.linesTotal && s.level <= t.level <= s.level + 1
  {
    if !s.gameOver {
      var b, t, x, y := s.board, s.current, s.pos.x, s.pos.y;
      match input
      case Tick(k) =>
        if !Fits(b, t.shape, x, y + 1) {
          LockEffects(s, x, y, k);
        }
      case Key(cmd, k1, k2) =>
        if cmd == HardDrop {
          LockEffects(s, x, Landing(b, t.shape, x, y), k1);
        }
    }
  }

  /**
   * Across any run without a restart, the score, the line total and the level
   * never decrease; once the game is over, such a run changes nothing.
   */
  lemma {:induction false} PlayMonotone(s: GameState, inputs: seq<Input>)
    requires Inv(s)
    requires forall i | 0 <= i < |inputs| :: !IsRestart(inputs[i])
    ensures var t := Play(s, inputs);
      s.score <= t.score && s.linesTotal <= t.linesTotal && s.level <= t.level
    ensures s.gameOver ==> Play(s, inputs) == s
    decreases |inputs|
  {
    if inputs != [] {
      ApplyMonotone(s, inputs[0]);
      ApplyKeepsInv(s, inputs[0]);
      PlayMonotone(Apply(s, inputs[0]), inputs[1..]);
    }
  }

  /** A game that is running stays running whatever the inputs. */
  lemma {:induction false} PlayNeverEnds(s: GameState, inputs: seq<Input>)
    requires Inv(s) && !s.gameOver
    ensures !Play(s, inputs).gameOver
    decreases |inputs|
  {
    if inputs != [] {
      ApplyNeverEnds(s, inputs[0]);
      ApplyKeepsInv(s, inputs[0]);
      PlayNeverEnds(Apply(s, inputs[0]), inputs[1..]);
    }
  }

  // ---------------------------------------------------------------------
  // The component
  // ---------------------------------------------------------------------

  /**
   * The body of lockPiece on a snapshot of the game: merge, clear, promote the
   * next piece to the spawn column, draw a new next piece, update the counters
   * and test the spawn.
   */
  method LockStep(s: GameState, lockX: int, lockY: int, k: Kind) returns (t: GameState)
    requires WellFormed(s.board) && InBounds(s.current.shape, lockX, lockY) && |s.next.shape| > 0
    ensures t == Lock(s, lockX, lockY, k)
  {
    var merged := Merge(s.board, s.current.shape, lockX, lockY, s.current.color);
    var newBoard, linesCleared := ClearLines(merged);
    var newCurrent := s.next;
    var newNext := RandomTetromino(k);
    var startX := (COLS - |newCurrent.shape[0]|) / 2;
    var canSpawn := IsValidMove(newBoard, newCurrent.shape, startX, START_Y);
    var newScore := s.score + GetScore(linesCleared, s.level);
    var newLevel := if (s.linesTotal + linesCleared) / 10 > s.level then s.level + 1 else s.level;
    var newLines := s.linesTotal + linesCleared;
    t := GameState(newBoard, newCurrent, Pos(startX, START_Y), newNext, newScore, newLevel, newLines, s.gameOver || !canSpawn);
  }

  /**
   * The game component: one field per state hook, one method per handler.
   * Each method performs its handler as one atomic step and is proved to
   * produce the state the corresponding transition function describes.
   */
  class Game {
    var board: Board
    var current: Tetromino
    var pos: Pos
    var next: Tetromino
    var score: int
    var level: int
    var linesTotal: int
    var gameOver: bool

    /** The fields as one state value. */
    function State(): GameState
      reads this
    {
      GameState(board, current, pos, next, score, level, linesTotal, gameOver)
    }

    ghost predicate Valid()
      reads this
    {
      Inv(State())
    }

    /** Mounting the component: the initial state with two drawn pieces. */
    constructor (k1: Kind, k2: Kind)
      ensures Valid() && State() == Initial(k1, k2)
    {
      board := EmptyBoard();
      current := RandomTetromino(k1);
      pos := Pos(START_X, START_Y);
      next := RandomTetromino(k2);
      score := 0;
      level := 0;
      linesTotal := 0;
      gameOver := false;
    }

    /** lockPiece: merge, clear, score, level up, promote the next piece and test the spawn. */
    method LockPiece(lockX: int, lockY: int, k: Kind)
      requires Valid() && !gameOver && Fits(board, current.shape, lockX, lockY)
      modifies this
      ensures Valid() && State() == Lock(old(State()), lockX, lockY, k)
    {
      var s := State();
      FitsInBounds(s.board, s.current.shape, lockX, lockY);
      var t := LockStep(s, lockX, lockY, k);
      board, score, linesTotal, level := t.board, t.score, t.linesTotal, t.level;
      current, next, pos, gameOver := t.current, t.next, t.pos, t.gameOver;
      LockKeepsInv(s, lockX, lockY, k);
    }

    /** hardDrop: bump the row while one row lower fits, then lock there. */
    method HardDrop(k: Kind)
      requires Valid() && !gameOver
      modifies this
      ensures Valid()
      ensures State() == Dropped(old(State()), k)
    {
      var b, shape, x, y := board, current.shape, pos.x, pos.y;
      FitsAboveFloor(b, shape, x, y);
      var dropY := y;
      var ok := IsValidMove(b, shape, x, dropY + 1);
      while ok
        invariant unchanged(this)
        invariant dropY < ROWS
        invariant Fits(b, shape, x, dropY)
        invariant ok == Fits(b, shape, x, dropY + 1)
        invariant Landing(b, shape, x, dropY) == Landing(b, shape, x, y)
        decreases ROWS - dropY
      {
        FitsAboveFloor(b, shape, x, dropY + 1);
        dropY := dropY + 1;
        ok := IsValidMove(b, shape, x, dropY + 1);
      }
      LockPiece(x, dropY, k);
    }

    /** The gravity effect: on each tick, descend one row or lock. */
    method GravityTick(k: Kind)
      requires Valid()
      modifies this
      ensures Valid() && State() == Gravity(old(State()), k)
    {
      if gameOver {
        return;
      }
      var ok := IsValidMove(board, current.shape, pos.x, pos.y + 1);
      if ok {
        pos := Pos(pos.x, pos.y + 1);
      } else {
        LockPiece(pos.x, pos.y, k);
      }
    }

    /** The key handler, for an already decoded command. */
    method HandleKey(cmd: Command, k1: Kind, k2: Kind)
      requires Valid()
      modifies this
      ensures Valid() && State() == KeyStep(old(State()), cmd, k1, k2)
    {
      if gameOver {
        return;
      }
      match cmd
      case MoveLeft => TryShift(-1, 0);
      case MoveRight => TryShift(1, 0);
      case SoftDrop => TryShift(0, 1);
      case HardDrop => HardDrop(k1);
      case RotateCW =>
        var rotated := Rotate(current.shape);
        RotatePiece(current);
        TryShape(rotated);
      case RotateCCW =>
        var r := RotateCounterClockwise(current.shape);
        TurnPiece(current, 3);
        TryShape(r);
      case Restart =>
        HandleRestart(k1, k2);
    }

    /** The move and soft-drop branches: shift the piece by (dx, dy) if it fits there. */
    method TryShift(dx: int, dy: int)
      requires Valid() && !gameOver
      modifies this
      ensures Valid()
      ensures State() == Shift(old(State()), dx, dy)
    {
      var ok := IsValidMove(board, current.shape, pos.x + dx, pos.y + dy);
      if ok {
        pos := Pos(pos.x + dx, pos.y + dy);
      }
    }

    /** The rotation branches: replace the falling shape by r if it fits in place. */
    method TryShape(r: Matrix)
      requires Valid() && !gameOver && PieceOk(current.(shape := r))
      modifies this
      ensures Valid()
      ensures State() == Turned(old(State()), r)
    {
      var ok := IsValidMove(board, r, pos.x, pos.y);
      if ok {
        current := current.(shape := r);
      }
    }

    /** handleRestart: a new game with two new pieces, whatever the state. */
    method HandleRestart(k1: Kind, k2: Kind)
      modifies this
      ensures Valid() && State() == Initial(k1, k2)
    {
      board := EmptyBoard();
      current := RandomTetromino(k1);
      next := RandomTetromino(k2);
      pos := Pos(START_X, START_Y);
      score := 0;
      level := 0;
      linesTotal := 0;
      gameOver := false;
    }

    /**
     * drawBoard: a copy of the board with the falling piece's cells that lie
     * on the board painted in its colour.
     */
    method DrawBoard() returns (display: Board)
      requires Valid()
      ensures display == Overlay(board, current.shape, pos.x, pos.y, current.color)
    {
      display := board;
      var shape, color := current.shape, current.color;
      for row := 0 to |shape|
        invariant WellFormed(display)
        invariant forall ny, nx | 0 <= ny < ROWS && 0 <= nx < COLS ::
          display[ny][nx] == if ny - pos.y < row && Covers(shape, pos.x, pos.y, nx, ny) then color else board[ny][nx]
      {
        for col := 0 to |shape[row]|
          invariant WellFormed(display)
          invariant forall ny, nx | 0 <= ny < ROWS && 0 <= nx < COLS ::
            display[ny][nx] ==
              if (ny - pos.y < row || (ny - pos.y == row && nx - pos.x < col)) && Covers(shape, pos.x, pos.y, nx, ny)
              then color else board[ny][nx]
        {
          if shape[row][col] != 0 {
            var nx := pos.x + col;
            var ny := pos.y + row;
            if ny >= 0 && nx >= 0 && nx < COLS && ny < ROWS {
              display := display[ny := display[ny][nx := color]];
            }
          }
        }
      }
      var o := Overlay(board, shape, pos.x, pos.y, color);
      forall ny | 0 <= ny < ROWS
        ensures display[ny] == o[ny]
      {
      }
    }

    /** drawMini for the next piece: its preview grid. */
    method DrawNext() returns (grid: Matrix)
      requires Valid()
      ensures |grid| == NEXT_SIZE && forall r | 0 <= r < NEXT_SIZE :: |grid[r]| == NEXT_SIZE
      ensures forall r, c | 0 <= r < NEXT_SIZE && 0 <= c < NEXT_SIZE ::
        (grid[r][c] != 0 <==> r < |next.shape| && c < |next.shape[r]| && next.shape[r][c] != 0)
      ensures forall r, c | 0 <= r < NEXT_SIZE && 0 <= c < NEXT_SIZE :: grid[r][c] in {0, next.color}
    {
      grid := DrawMini(next.shape, next.color);
    }
  }
}
