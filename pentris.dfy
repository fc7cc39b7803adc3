/**
 * The rules part of pentris/pentris.py: the player's attempted moves, the
 * piece's fall, spawning the next piece and game over, and the bookkeeping of
 * lines, score and level after a piece locks.
 *
 * Wall-clock time is not modelled. Each comparison "more time than the
 * interval has passed since the timer was reset" is a boolean input, and a
 * timer reset stores `now`, a time supplied by the caller.
 */
module Pentris {
  import opened Wrappers
  import opened Pentominoes
  import opened ShapeFactory
  import opened Boards

  /** `BOARD_MINO_WIDTH`: columns of the playing field. */
  const BoardMinoWidth: nat := 12
  /** `BOARD_MINO_HEIGHT`: rows of the playing field. */
  const BoardMinoHeight: nat := 20
  /** `PENTOMINO_START_X = BOARD_MINO_WIDTH // 2 - 3`: the spawn column. */
  const PentominoStartX: int := BoardMinoWidth / 2 - 3

  // ---------------------------------------------------------------------
  // Scoring
  // ---------------------------------------------------------------------

  /** `int(2250*n**2 - 3850*n + 900)`: the score change for a lock that cleared `n` rows. */
  function ScoreDelta(n: nat): int
  {
    2250 * (n * n) - 3850 * n + 900
  }

  /** The running totals of `play`. */
  datatype Progress = Progress(lines: nat, score: int, level: nat)

  /** The totals after a lock that cleared `cleared` rows (pentris.py lines 120-122). */
  function AfterLock(p: Progress, cleared: nat): (q: Progress)
    ensures q.lines == p.lines + cleared
    ensures q.score - p.score == ScoreDelta(cleared)
    ensures 10 * q.level <= q.lines < 10 * q.level + 10
  {
    Progress(p.lines + cleared, p.score + ScoreDelta(cleared), (p.lines + cleared) / 10)
  }

  /** A lock that clears nothing scores 900; clearing one row costs 700. */
  lemma ScoreDeltaSmallCounts()
    ensures ScoreDelta(0) == 900 && ScoreDelta(1) == -700 && ScoreDelta(2) == 2200
  {
  }

  /** Clearing exactly one row is the only lock that lowers the score. */
  lemma ScoreFallsOnlyForOneRow(n: nat)
    ensures ScoreDelta(n) < 0 <==> n == 1
  {
    if n >= 2 {
      var m := n - 2;
      assert n * n == m * m + 4 * m + 4 by {
        assert n * n == (m + 2) * (m + 2);
      }
      assert m * m >= 0;
      assert ScoreDelta(n) == 2250 * (m * m) + 5150 * m + 2200;
    }
  }

  /** More cleared rows than one always score more than fewer. */
  lemma ScoreGrowsFromOneRow(n: nat)
    requires n >= 1
    ensures ScoreDelta(n + 1) > ScoreDelta(n)
  {
    assert ScoreDelta(n + 1) - ScoreDelta(n) == 4500 * n - 1600 by {
      assert (n + 1) * (n + 1) == n * n + 2 * n + 1;
    }
  }

  /** The level never drops from one lock to the next, because lines only grow. */
  lemma LevelNeverDecreases(p: Progress, cleared: nat)
    requires p.level == p.lines / 10
    ensures AfterLock(p, cleared).level >= p.level
  {
  }

  // ---------------------------------------------------------------------
  // Timers and the two per-frame steps
  // ---------------------------------------------------------------------

  /** The module-level timers of pentris.py: when each was last reset. */
  class Timers {
    var lastFallTime: int
    var lastPlayerDownTime: int
    var lastPlayerSidewaysTime: int

    /** All three reset to `now`, as `play` does on entry. */
    constructor (now: int)
      ensures lastFallTime == now && lastPlayerDownTime == now && lastPlayerSidewaysTime == now
    {
      lastFallTime := now;
      lastPlayerDownTime := now;
      lastPlayerSidewaysTime := now;
    }
  }

  /** The board can check the piece: its rotation and template are usable and it is not too far above the field. */
  ghost predicate Checkable(board: Board, p: Pentomino)
    reads board.grid, p
  {
    board.Valid() && p.Valid() && Scannable(p.shape[p.rotation]) && p.y >= -(board.height as int)
  }

  /**
   * The attempt-then-revert pattern: a piece with template `t` at (`x`, `y`)
   * on grid `g` tries to move by (`dx`, `dy`); it keeps the move if the moved
   * piece fits and otherwise goes back where it was. A piece that fitted still
   * fits.
   */
  function Attempt(g: Grid, width: nat, height: nat, t: Template, x: int, y: int, dx: int, dy: int): (pos: (int, int))
    requires Shaped(g, width, height) && Scannable(t) && y >= -(height as int) && dy >= 0
    ensures Fits(g, width, height, t, x + dx, y + dy) ==> pos == (x + dx, y + dy)
    ensures !Fits(g, width, height, t, x + dx, y + dy) ==> pos == (x, y)
    ensures Fits(g, width, height, t, x, y) ==> Fits(g, width, height, t, pos.0, pos.1)
  {
    if Fits(g, width, height, t, x + dx, y + dy) then (x + dx, y + dy) else (x, y)
  }

  /**
   * One attempted move of `handlePentominoMovement`: the piece moves by
   * (`dx`, `dy`), is checked, and is moved back if the board rejects it.
   * `kept` tells whether the move stayed.
   */
  method TryMove(board: Board, p: Pentomino, dx: int, dy: int) returns (kept: bool)
    requires Checkable(board, p)
    requires (dx == -1 && dy == 0) || (dx == 1 && dy == 0) || (dx == 0 && dy == 1)
    modifies p`x, p`y
    ensures Checkable(board, p)
    ensures kept <==> (p.x, p.y) != (old(p.x), old(p.y))
    ensures (p.x, p.y) == Attempt(board.grid[..], board.width, board.height, p.shape[p.rotation], old(p.x), old(p.y), dx, dy)
  {
    if dx == -1 {
      p.MoveLeft();
    } else if dx == 1 {
      p.MoveRight();
    } else {
      p.MoveDown();
    }
    kept := board.IsPentominoValid(p);
    if !kept {
      if dx == -1 {
        p.MoveRight();
      } else if dx == 1 {
        p.MoveLeft();
      } else {
        p.MoveUp();
      }
    }
  }

  /**
   * `handlePentominoMovement`: when the sideways interval has passed, tries a
   * move left and then a move right for the keys held; when the soft-drop
   * interval has passed, tries a move down. A timer is reset only by a move
   * that stays. The reverting move up is assumed to be `y -= 1`.
   */
  method HandlePentominoMovement(board: Board, p: Pentomino, timers: Timers,
                                 goingDown: bool, goingLeft: bool, goingRight: bool,
                                 sidewaysElapsed: bool, downElapsed: bool, now: int)
    requires Checkable(board, p) && p.y >= -1
    modifies p, timers
    ensures p.rotation == old(p.rotation) && Checkable(board, p) && p.y >= -1
    ensures
      var g, t := board.grid[..], p.shape[p.rotation];
      var start := (old(p.x), old(p.y));
      var left := if sidewaysElapsed && goingLeft then Attempt(g, board.width, board.height, t, start.0, start.1, -1, 0) else start;
      var right := if sidewaysElapsed && goingRight then Attempt(g, board.width, board.height, t, left.0, left.1, 1, 0) else left;
      var down := if downElapsed && goingDown then Attempt(g, board.width, board.height, t, right.0, right.1, 0, 1) else right;
      && (p.x, p.y) == down
      && timers.lastPlayerSidewaysTime == (if left != start || right != left then now else old(timers.lastPlayerSidewaysTime))
      && timers.lastPlayerDownTime == (if down != right then now else old(timers.lastPlayerDownTime))
      && timers.lastFallTime == old(timers.lastFallTime)
    ensures
      var g, t := board.grid[..], p.shape[p.rotation];
      Fits(g, board.width, board.height, t, old(p.x), old(p.y)) ==> Fits(g, board.width, board.height, t, p.x, p.y)
  {
    if sidewaysElapsed {
      if goingLeft {
        var kept := TryMove(board, p, -1, 0);
        if kept {
          timers.lastPlayerSidewaysTime := now;
        }
      }
      if goingRight {
        var kept := TryMove(board, p, 1, 0);
        if kept {
          timers.lastPlayerSidewaysTime := now;
        }
      }
    }
    if downElapsed {
      if goingDown {
        var kept := TryMove(board, p, 0, 1);
        if kept {
          timers.lastPlayerDownTime := now;
        }
      }
    }
  }

  /**
   * `handlePentominoFall`: when the fall interval has passed, checks a copy of
   * the piece one row lower. If the copy fits, the piece moves down, the fall
   * timer is reset and the result is `False`; otherwise the piece has landed
   * and the result is `True`. Before the interval has passed nothing changes
   * and the result is `None`.
   */
  method HandlePentominoFall(board: Board, p: Pentomino, timers: Timers, fallElapsed: bool, now: int)
    returns (landed: Option<bool>)
    requires Checkable(board, p)
    modifies p, timers
    ensures p.rotation == old(p.rotation) && p.x == old(p.x) && Checkable(board, p)
    ensures timers.lastPlayerDownTime == old(timers.lastPlayerDownTime)
    ensures timers.lastPlayerSidewaysTime == old(timers.lastPlayerSidewaysTime)
    ensures !fallElapsed ==> landed == None && p.y == old(p.y) && timers.lastFallTime == old(timers.lastFallTime)
    ensures fallElapsed ==>
      var fits := board.Admits(p.shape[p.rotation], old(p.x), old(p.y) + 1);
      && landed == Some(!fits)
      && p.y == (if fits then old(p.y) + 1 else old(p.y))
      && timers.lastFallTime == (if fits then now else old(timers.lastFallTime))
  {
    if fallElapsed {
      var copy := new Pentomino.Copy(p);
      copy.MoveDown();
      var valid := board.IsPentominoValid(copy);
      if valid {
        p.MoveDown();
        timers.lastFallTime := now;
        return Some(false);
      } else {
        return Some(true);
      }
    }
    return None;
  }

  // ---------------------------------------------------------------------
  // One session of play
  // ---------------------------------------------------------------------

  /** What an iteration of the game loop ends in. */
  datatype Status = Running | GameOver | Raised(error: Error)

  /** A piece as the game keeps it: a catalogue shape, a valid rotation, at most one row above the field. */
  ghost predicate InPlay(p: Pentomino)
    reads p
  {
    IsShape(p.shape) && p.Valid() && p.y >= -1
  }

  /** A catalogue shape's templates can all be scanned by `isPentominoValid`. */
  lemma ShapeTemplatesScannable(shape: seq<Template>)
    requires IsShape(shape)
    ensures forall r | 0 <= r < |shape| :: Scannable(shape[r])
  {
    forall r | 0 <= r < |shape|
      ensures Scannable(shape[r])
    {
      assert IsPentominoTemplate(shape[r]);
    }
  }

  /** The locals of `play`: board, factory, current and next piece, and the totals. */
  class Play {
    const board: Board
    const factory: Factory
    const timers: Timers
    /** `currentPiece`; `null` stands for `None`, between a lock and the next spawn. */
    var currentPiece: Pentomino?
    var nextPiece: Pentomino
    var lines: nat
    var score: int
    var level: nat

    ghost predicate Valid()
      reads this, board.grid, factory, currentPiece, nextPiece
    {
      && board.Valid() && board.height > 0
      && factory.Valid()
      && InPlay(nextPiece)
      && (currentPiece != null ==> InPlay(currentPiece) && currentPiece != nextPiece)
      && level == lines / 10
    }

    /** The totals as a value. */
    ghost function Totals(): Progress
      reads this
    {
      Progress(lines, score, level)
    }

    /**
     * The set-up of `play`: an empty 12 x 20 board, a full bag in the order
     * `shuffled`, timers reset to `now`, and a current and a next piece drawn
     * at the indices `first` and `second`. Each piece is made as
     * `Pentomino(shape, PENTOMINO_START_X)`, so it starts in row -1.
     */
    constructor (shuffled: seq<nat>, first: nat, second: nat, now: int)
      requires IsShuffle(shuffled)
      requires first < ShapeCount && second < ShapeCount - 1
      ensures Valid() && fresh(board) && fresh(board.grid) && fresh(factory) && fresh(timers)
      ensures board.width == BoardMinoWidth && board.height == BoardMinoHeight
      ensures forall y | 0 <= y < board.height :: board.grid[y] == EmptyRow(board.width)
      ensures timers.lastFallTime == now && timers.lastPlayerDownTime == now && timers.lastPlayerSidewaysTime == now
      ensures currentPiece != null && currentPiece.shape == Shapes()[shuffled[first]]
      ensures currentPiece.rotation == 0 && currentPiece.x == PentominoStartX && currentPiece.y == -1
      ensures nextPiece.shape == Shapes()[RemoveAt(shuffled, first)[second]]
      ensures nextPiece.rotation == 0 && nextPiece.x == PentominoStartX && nextPiece.y == -1
      ensures factory.queue == RemoveAt(RemoveAt(shuffled, first), second)
      ensures lines == 0 && score == 0 && level == 0
    {
      var b := new Board(BoardMinoWidth, BoardMinoHeight);
      var f := new Factory(shuffled);
      var t := new Timers(now);
      var s1 := f.ObtainShape(first, shuffled);
      var s2 := f.ObtainShape(second, shuffled);
      var current := new Pentomino(Shapes()[s1], PentominoStartX);
      var next := new Pentomino(Shapes()[s2], PentominoStartX);
      board, factory, timers := b, f, t;
      currentPiece, nextPiece := current, next;
      lines, score, level := 0, 0, 0;
    }

    /**
     * Lines 105-111 of `play`: with no piece in play, the next piece becomes
     * current and a new next piece is made from the shape drawn at `index`
     * (refilling the bag in the order `shuffled` if it empties). The game is
     * over when the new current piece does not fit.
     */
    method SpawnIfNeeded(index: nat, shuffled: seq<nat>) returns (gameOver: bool)
      requires Valid() && index < |factory.queue| && IsShuffle(shuffled)
      modifies this, factory
      ensures Valid() && currentPiece != null && Totals() == old(Totals())
      ensures old(currentPiece) != null ==>
        && !gameOver && currentPiece == old(currentPiece) && nextPiece == old(nextPiece)
        && factory.queue == old(factory.queue)
      ensures old(currentPiece) == null ==>
        && currentPiece == old(nextPiece) && fresh(nextPiece)
        && nextPiece.shape == Shapes()[old(factory.queue)[index]]
        && nextPiece.rotation == 0 && nextPiece.x == PentominoStartX && nextPiece.y == -1
        && factory.queue == (if |old(factory.queue)| == 1 then shuffled else RemoveAt(old(factory.queue), index))
        && gameOver == !board.Admits(currentPiece.shape[currentPiece.rotation], currentPiece.x, currentPiece.y)
    {
      gameOver := false;
      if currentPiece == null {
        currentPiece := nextPiece;
        var shape := factory.ObtainShape(index, shuffled);
        nextPiece := new Pentomino(Shapes()[shape], PentominoStartX);
        ShapeTemplatesScannable(currentPiece.shape);
        var valid := board.IsPentominoValid(currentPiece);
        gameOver := !valid;
      }
    }

    /**
     * Lines 116-122 of `play`: the fall step, and when it reports a landing,
     * the lock. The piece is committed (the grid `committed` stands for what
     * `addPentominoToBoard` leaves), there is no current piece any more, full
     * rows are cleared and the totals are updated. If clearing raises, the
     * exception ends the loop and the totals are not updated.
     */
    method FallAndLock(fallElapsed: bool, now: int, committed: Grid) returns (status: Status)
      requires Valid() && currentPiece != null && Shaped(committed, board.width, board.height)
      modifies this`currentPiece, this`lines, this`score, this`level, currentPiece, timers, board.grid
      ensures Valid()
      ensures status != GameOver
      ensures timers.lastPlayerDownTime == old(timers.lastPlayerDownTime)
      ensures timers.lastPlayerSidewaysTime == old(timers.lastPlayerSidewaysTime)
      ensures
        var t := old(currentPiece.shape[currentPiece.rotation]);
        var lowerFits := Fits(old(board.grid[..]), board.width, board.height, t, old(currentPiece.x), old(currentPiece.y) + 1);
        currentPiece == null <==> fallElapsed && !lowerFits
      ensures currentPiece != null ==>
        && status == Running && currentPiece == old(currentPiece)
        && currentPiece.rotation == old(currentPiece.rotation) && currentPiece.x == old(currentPiece.x)
        && currentPiece.y == (if fallElapsed then old(currentPiece.y) + 1 else old(currentPiece.y))
        && timers.lastFallTime == (if fallElapsed then now else old(timers.lastFallTime))
        && Totals() == old(Totals()) && board.grid[..] == old(board.grid[..])
      ensures currentPiece == null ==>
        var outcome := CompleteLines(committed, board.width, board.height);
        && timers.lastFallTime == old(timers.lastFallTime)
        && (outcome.Err? ==> status == Raised(outcome.error) && Totals() == old(Totals()) && board.grid[..] == committed)
        && (outcome.Ok? ==>
              status == Running && board.grid[..] == outcome.value.0
              && Totals() == AfterLock(old(Totals()), outcome.value.1))
      ensures currentPiece == null && board.height > board.width ==> status == Raised(ValueError)
    {
      ShapeTemplatesScannable(currentPiece.shape);
      var landed := HandlePentominoFall(board, currentPiece, timers, fallElapsed, now);
      if landed == Some(true) {
        board.CommitPiece(committed);
        currentPiece := null;
        var cleared := board.CheckForCompleteLines();
        if cleared.Err? {
          return Raised(cleared.error);
        }
        lines := lines + cleared.value;
        score := score + ScoreDelta(cleared.value);
        level := lines / 10;
      }
      return Running;
    }

    /**
     * One iteration of the game loop (lines 99-122): spawn if needed, then
     * movement with the three key flags `play` passes, then the fall and lock.
     * `play` never sets those flags, so it passes `False` for all three.
     */
    method Step(index: nat, shuffled: seq<nat>, sidewaysElapsed: bool, downElapsed: bool,
                fallElapsed: bool, now: int, committed: Grid) returns (status: Status)
      requires Valid() && index < |factory.queue| && IsShuffle(shuffled)
      requires Shaped(committed, board.width, board.height)
      modifies this, factory, timers, board.grid, currentPiece, nextPiece
      ensures Valid()
      ensures lines >= old(lines) && level >= old(level)
      ensures status == GameOver ==> old(currentPiece) == null && Totals() == old(Totals())
    {
      var gameOver := SpawnIfNeeded(index, shuffled);
      if gameOver {
        return GameOver;
      }
      ShapeTemplatesScannable(currentPiece.shape);
      HandlePentominoMovement(board, currentPiece, timers, false, false, false, sidewaysElapsed, downElapsed, now);
      ghost var before := Totals();
      status := FallAndLock(fallElapsed, now, committed);
      if currentPiece == null && status == Running {
        LevelNeverDecreases(before, lines - before.lines);
      }
    }
  }
}
