/**
 * The playing field of pentris/board.py: a `height` x `width` grid of cells,
 * each `EMPTY` or holding a colour. The first half states what the board's
 * operations compute, on grids as values; the class `Board` then holds the
 * grid as an array of rows, updated in place as the Python list is.
 */
module Boards {
  import opened Wrappers
  import opened Pentominoes

  /** A display colour; the rules never look inside it. */
  datatype Color = Rgb(red: int, green: int, blue: int)

  /** A board cell: `EMPTY` ('.') or the colour of a locked mino. */
  datatype Cell = Empty | Filled(color: Color)

  /** A grid of cells, a list of rows, row 0 at the top. */
  type Grid = seq<seq<Cell>>

  /** `[EMPTY] * width`. */
  function EmptyRow(width: nat): (row: seq<Cell>)
    ensures |row| == width
  {
    seq(width, _ => Empty)
  }

  /** `height` rows of `width` cells each. */
  predicate Shaped(g: Grid, width: nat, height: nat)
  {
    |g| == height && forall y | 0 <= y < height :: |g[y]| == width
  }

  /** No cell of the row is `EMPTY`. */
  predicate RowFull(row: seq<Cell>)
  {
    forall x | 0 <= x < |row| :: row[x] != Empty
  }

  /**
   * `isOnTheBoard`: the column is on the board and the row is not below it.
   * There is deliberately no lower bound on the row.
   */
  predicate IsOnTheBoard(width: int, height: int, x: int, y: int)
  {
    0 <= x < width && y < height
  }

  /**
   * What the bounds test guarantees `isPentominoValid`: a position it accepts
   * names an existing cell once a negative row is wrapped; rows above the
   * field, on a real column, are accepted.
   */
  lemma OnTheBoardNamesACell(g: Grid, width: nat, height: nat, x: int, y: int)
    requires Shaped(g, width, height) && y >= -(height as int)
    ensures IsOnTheBoard(width, height, x, y) ==>
      0 <= WrapRow(y, height) < |g| && 0 <= x < |g[WrapRow(y, height)]|
    ensures 0 <= x < width && y < 0 ==> IsOnTheBoard(width, height, x, y)
    ensures x < 0 || x >= width || y >= height ==> !IsOnTheBoard(width, height, x, y)
  {
  }

  /** The list index Python uses for row `y`: a negative row counts from the bottom. */
  function WrapRow(y: int, height: nat): (row: int)
    requires -(height as int) <= y < height
    ensures 0 <= row < height
    ensures y >= 0 ==> row == y
    ensures y < 0 ==> row - y == height
  {
    if y < 0 then height + y else y
  }

  // ---------------------------------------------------------------------
  // isLineComplete
  // ---------------------------------------------------------------------

  /**
   * What `isLineComplete(y)` yields: `ValueError` when `y` is outside
   * [0, width) (the range is checked against the width, as written);
   * `IndexError` when `y` passes that check but is not a row; otherwise
   * whether row `y` is full.
   */
  function LineComplete(g: Grid, width: nat, height: nat, y: int): Result<bool>
    requires Shaped(g, width, height)
  {
    if y < 0 || y >= width then Err(ValueError)
    else if y >= height then Err(IndexError)
    else Ok(RowFull(g[y]))
  }

  // ---------------------------------------------------------------------
  // isPentominoValid
  // ---------------------------------------------------------------------

  /**
   * The filled template cell at (`dx`, `dy`) of a piece at (`px`, `py`) lands
   * on the board, in a cell that is `EMPTY` (a negative row reads the row that
   * Python's negative index selects).
   */
  predicate MinoFits(g: Grid, width: nat, height: nat, px: int, py: int, dx: int, dy: int)
    requires Shaped(g, width, height)
    requires py + dy >= -(height as int)
  {
    IsOnTheBoard(width, height, px + dx, py + dy) && g[WrapRow(py + dy, height)][px + dx] == Empty
  }

  /**
   * `isPentominoValid` for template `t` at (`px`, `py`): every filled cell of the
   * columns `range(len(t[0]))` fits. '.' cells are not examined.
   */
  predicate Fits(g: Grid, width: nat, height: nat, t: Template, px: int, py: int)
    requires Shaped(g, width, height) && Scannable(t) && py >= -(height as int)
  {
    forall dy, dx | 0 <= dy < |t| && 0 <= dx < |t[0]| && t[dy][dx] != EmptyMark ::
      MinoFits(g, width, height, px, py, dx, dy)
  }

  /** A filled cell off the sides of the board or below it makes the placement invalid. */
  lemma OutOfBoundsMinoRejects(g: Grid, width: nat, height: nat, t: Template, px: int, py: int, dx: int, dy: int)
    requires Shaped(g, width, height) && Scannable(t) && py >= -(height as int)
    requires 0 <= dy < |t| && 0 <= dx < |t[0]| && t[dy][dx] != EmptyMark
    requires px + dx < 0 || px + dx >= width || py + dy >= height
    ensures !Fits(g, width, height, t, px, py)
  {
    assert !MinoFits(g, width, height, px, py, dx, dy);
  }

  /** A filled cell on an occupied board cell makes the placement invalid. */
  lemma OccupiedMinoRejects(g: Grid, width: nat, height: nat, t: Template, px: int, py: int, dx: int, dy: int)
    requires Shaped(g, width, height) && Scannable(t) && py >= -(height as int)
    requires 0 <= dy < |t| && 0 <= dx < |t[0]| && t[dy][dx] != EmptyMark
    requires IsOnTheBoard(width, height, px + dx, py + dy)
    requires g[WrapRow(py + dy, height)][px + dx] != Empty
    ensures !Fits(g, width, height, t, px, py)
  {
    assert !MinoFits(g, width, height, px, py, dx, dy);
  }

  /**
   * Only 'O' cells matter: two templates with the same filled cells (within the
   * scanned columns) are accepted at exactly the same places.
   */
  lemma OnlyFilledCellsMatter(g: Grid, width: nat, height: nat, t: Template, u: Template, px: int, py: int)
    requires Shaped(g, width, height) && Scannable(t) && Scannable(u) && py >= -(height as int)
    requires |t| == |u| && (|t| > 0 ==> |t[0]| == |u[0]|)
    requires forall dy, dx | 0 <= dy < |t| && 0 <= dx < |t[0]| :: (t[dy][dx] == EmptyMark) == (u[dy][dx] == EmptyMark)
    ensures Fits(g, width, height, t, px, py) == Fits(g, width, height, u, px, py)
  {
    if Fits(g, width, height, t, px, py) {
      forall dy, dx | 0 <= dy < |u| && 0 <= dx < |u[0]| && u[dy][dx] != EmptyMark
        ensures MinoFits(g, width, height, px, py, dx, dy)
      {
        assert t[dy][dx] != EmptyMark;
      }
    }
    if Fits(g, width, height, u, px, py) {
      forall dy, dx | 0 <= dy < |t| && 0 <= dx < |t[0]| && t[dy][dx] != EmptyMark
        ensures MinoFits(g, width, height, px, py, dx, dy)
      {
        assert u[dy][dx] != EmptyMark;
      }
    }
  }

  /**
   * There is no exemption for rows above the field: a filled cell in row -1
   * is checked against the bottom row, so a full bottom row rejects a piece
   * whose filled cell sits in row -1 on the board's columns.
   */
  lemma NegativeRowReadsBottomRow(g: Grid, width: nat, height: nat, t: Template, px: int, dx: int, dy: int)
    requires Shaped(g, width, height) && Scannable(t)
    requires 0 <= dy < |t| && dy < height && 0 <= dx < |t[0]| && t[dy][dx] != EmptyMark
    requires 0 <= px + dx < width
    requires RowFull(g[height - 1])
    ensures !Fits(g, width, height, t, px, -1 - dy)
  {
    assert WrapRow(-1, height) == height - 1;
    assert !MinoFits(g, width, height, px, -1 - dy, dx, dy);
  }

  // ---------------------------------------------------------------------
  // checkForCompleteLines
  // ---------------------------------------------------------------------

  /**
   * The grid after a full row `y` is removed: the rows above it move down one
   * and a fresh `EMPTY` row becomes row 0; rows below `y` stay.
   */
  function DropRow(g: Grid, y: nat, width: nat): (r: Grid)
    requires y < |g|
    ensures |r| == |g|
  {
    [EmptyRow(width)] + g[..y] + g[y + 1..]
  }

  /**
   * The bottom-to-top scan of `checkForCompleteLines` over rows `n`-1 down to 0:
   * the grid it leaves and the number of rows it removed. After a removal the
   * scan goes on with the next row index up, so the row just pulled down into
   * the removed row's place is not examined again.
   */
  function ClearRows(g: Grid, width: nat, n: nat): (r: (Grid, nat))
    requires n <= |g|
    ensures |r.0| == |g| && r.1 <= n
    decreases n
  {
    if n == 0 then (g, 0)
    else if RowFull(g[n - 1]) then
      var (cleared, count) := ClearRows(DropRow(g, n - 1, width), width, n - 1);
      (cleared, count + 1)
    else ClearRows(g, width, n - 1)
  }

  /**
   * What `checkForCompleteLines` yields: when the board is taller than it is
   * wide, the first row it asks about fails `isLineComplete`'s width check
   * and the call raises before changing anything; otherwise the scan's result.
   */
  function CompleteLines(g: Grid, width: nat, height: nat): Result<(Grid, nat)>
    requires Shaped(g, width, height)
  {
    if height > width then Err(ValueError) else Ok(ClearRows(g, width, height))
  }

  /** Removing a row keeps the grid's dimensions. */
  lemma DropRowShaped(g: Grid, width: nat, height: nat, y: nat)
    requires Shaped(g, width, height) && y < height
    ensures Shaped(DropRow(g, y, width), width, height)
  {
    var d := DropRow(g, y, width);
    assert forall r | 1 <= r <= y :: d[r] == g[r - 1];
    assert forall r | y < r < height :: d[r] == g[r];
  }

  lemma MulSucc(a: nat, b: nat)
    ensures a * (b + 1) == a * b + a
  {
  }

  /** The scan keeps the grid's dimensions and removes at most as many rows as it examines. */
  lemma {:induction false} ClearRowsKeepsShape(g: Grid, width: nat, height: nat, n: nat)
    requires Shaped(g, width, height) && n <= height
    ensures Shaped(ClearRows(g, width, n).0, width, height)
    decreases n
  {
    if n > 0 {
      if RowFull(g[n - 1]) {
        DropRowShaped(g, width, height, n - 1);
        ClearRowsKeepsShape(DropRow(g, n - 1, width), width, height, n - 1);
      } else {
        ClearRowsKeepsShape(g, width, height, n - 1);
      }
    }
  }

  /** The scan never touches the rows it does not examine. */
  lemma {:induction false} ClearRowsKeepsRowsBelow(g: Grid, width: nat, n: nat)
    requires n <= |g|
    ensures |ClearRows(g, width, n).0| == |g|
    ensures forall y | n <= y < |g| :: ClearRows(g, width, n).0[y] == g[y]
    decreases n
  {
    if n > 0 {
      if RowFull(g[n - 1]) {
        var d := DropRow(g, n - 1, width);
        ClearRowsKeepsRowsBelow(d, width, n - 1);
        assert forall y | n <= y < |g| :: d[y] == g[y];
      } else {
        ClearRowsKeepsRowsBelow(g, width, n - 1);
      }
    }
  }

  /**
   * Rows below the bottom-most full row are never modified: if none of rows
   * `k`..`n`-1 is full, every row from `k` down is left as it was.
   */
  lemma {:induction false} ClearRowsKeepsRowsBelowFirstFull(g: Grid, width: nat, n: nat, k: nat)
    requires k <= n <= |g|
    requires forall y | k <= y < n :: !RowFull(g[y])
    ensures |ClearRows(g, width, n).0| == |g|
    ensures forall y | k <= y < |g| :: ClearRows(g, width, n).0[y] == g[y]
  {
    if n == k {
      ClearRowsKeepsRowsBelow(g, width, n);
    } else {
      ClearRowsKeepsRowsBelowFirstFull(g, width, n - 1, k);
    }
  }

  /** A grid with no full row among those scanned is returned unchanged, with count 0. */
  lemma {:induction false} NoFullRowLeavesGrid(g: Grid, width: nat, n: nat)
    requires n <= |g|
    requires forall y | 0 <= y < n :: !RowFull(g[y])
    ensures ClearRows(g, width, n) == (g, 0)
    decreases n
  {
    if n > 0 {
      NoFullRowLeavesGrid(g, width, n - 1);
    }
  }

  /** A scan that removed nothing changed nothing. */
  lemma {:induction false} NothingClearedNothingChanged(g: Grid, width: nat, n: nat)
    requires n <= |g|
    requires ClearRows(g, width, n).1 == 0
    ensures ClearRows(g, width, n).0 == g
    decreases n
  {
    if n > 0 {
      if !RowFull(g[n - 1]) {
        NothingClearedNothingChanged(g, width, n - 1);
      }
    }
  }

  /** An empty row of positive width is not full. */
  lemma EmptyRowNotFull(width: nat)
    requires width > 0
    ensures !RowFull(EmptyRow(width))
  {
    assert EmptyRow(width)[0] == Empty;
  }

  /**
   * `EMPTY` rows on top stay on top: if rows 0..`k`-1 are `EMPTY`, then after
   * the scan the top `k` plus as many rows as were removed are `EMPTY`.
   */
  lemma {:induction false} EmptyTopRowsStayOnTop(g: Grid, width: nat, height: nat, n: nat, k: nat)
    requires Shaped(g, width, height) && width > 0 && k <= n <= height
    requires forall i | 0 <= i < k :: g[i] == EmptyRow(width)
    ensures ClearRows(g, width, n).1 + k <= n
    ensures forall i | 0 <= i < ClearRows(g, width, n).1 + k :: ClearRows(g, width, n).0[i] == EmptyRow(width)
    decreases n
  {
    EmptyRowNotFull(width);
    if k == n {
      NoFullRowLeavesGrid(g, width, n);
    } else if RowFull(g[n - 1]) {
      var d := DropRow(g, n - 1, width);
      DropRowShaped(g, width, height, n - 1);
      assert forall i | 1 <= i < k + 1 :: d[i] == g[i - 1];
      if k + 1 < n {
        EmptyTopRowsStayOnTop(d, width, height, n - 1, k + 1);
      } else {
        NoFullRowLeavesGrid(d, width, n - 1);
      }
    } else {
      EmptyTopRowsStayOnTop(g, width, height, n - 1, k);
    }
  }

  /** After a scan that removed `count` rows, the top `count` rows are entirely `EMPTY`. */
  lemma ClearedRowsAreEmpty(g: Grid, width: nat, height: nat, n: nat)
    requires Shaped(g, width, height) && n <= height
    ensures forall i | 0 <= i < ClearRows(g, width, n).1 :: ClearRows(g, width, n).0[i] == EmptyRow(width)
  {
    if width == 0 {
      ClearRowsKeepsShape(g, width, height, n);
    } else {
      EmptyTopRowsStayOnTop(g, width, height, n, 0);
    }
  }

  /** Indices in strictly increasing order. */
  predicate Increasing(idx: seq<nat>)
  {
    forall i, j | 0 <= i < j < |idx| :: idx[i] < idx[j]
  }

  /** Where row `j` of `DropRow(g, n - 1, width)` came from in `g`, for `j` > 0. */
  function Unshift(j: nat, n: nat): nat
    requires j > 0
  {
    if j < n then j - 1 else j
  }

  /** Dropping the first index and undoing the shift keeps indices increasing. */
  lemma UnshiftKeepsOrder(inner: seq<nat>, n: nat) returns (kept: seq<nat>)
    requires |inner| > 0 && Increasing(inner)
    ensures |kept| == |inner| - 1 && Increasing(kept)
    ensures forall i | 0 <= i < |kept| :: inner[i + 1] > 0 && kept[i] == Unshift(inner[i + 1], n)
  {
    forall i | 0 < i < |inner| ensures inner[i] > 0 {
      assert inner[0] < inner[i];
    }
    kept := seq(|inner| - 1, i requires 0 <= i < |inner| - 1 => Unshift(inner[i + 1], n));
  }

  /**
   * The rows below the cleared ones are rows of the old grid in their old
   * order: row `count` + `i` of the result is row `kept[i]` of `g`, and the
   * indices `kept` increase.
   */
  lemma {:induction false} ClearRowsKeepsOrder(g: Grid, width: nat, n: nat) returns (kept: seq<nat>)
    requires n <= |g|
    ensures |kept| == |g| - ClearRows(g, width, n).1 && Increasing(kept)
    ensures forall i | 0 <= i < |kept| ::
      kept[i] < |g| && ClearRows(g, width, n).0[ClearRows(g, width, n).1 + i] == g[kept[i]]
    decreases n
  {
    if n == 0 {
      kept := seq(|g|, i => i);
    } else if RowFull(g[n - 1]) {
      var d := DropRow(g, n - 1, width);
      assert forall j | 0 < j < |g| :: d[j] == g[Unshift(j, n)];
      var inner := ClearRowsKeepsOrder(d, width, n - 1);
      var r, c := ClearRows(d, width, n - 1).0, ClearRows(d, width, n - 1).1;
      assert ClearRows(g, width, n) == (r, c + 1);
      kept := UnshiftKeepsOrder(inner, n);
      forall i | 0 <= i < |kept|
        ensures kept[i] < |g| && r[c + 1 + i] == g[kept[i]]
      {
        assert r[c + (i + 1)] == d[inner[i + 1]];
      }
    } else {
      kept := ClearRowsKeepsOrder(g, width, n - 1);
    }
  }

  /** The number of non-`EMPTY` cells of a row. */
  function RowMinoCount(row: seq<Cell>): nat
  {
    if row == [] then 0 else (if row[0] != Empty then 1 else 0) + RowMinoCount(row[1..])
  }

  /** The number of non-`EMPTY` cells of a grid. */
  function GridMinoCount(g: Grid): nat
  {
    if g == [] then 0 else RowMinoCount(g[0]) + GridMinoCount(g[1..])
  }

  /** A full row holds as many minos as it has cells; an empty row holds none. */
  lemma {:induction false} RowMinoCountBounds(row: seq<Cell>)
    ensures RowFull(row) ==> RowMinoCount(row) == |row|
    ensures (forall x | 0 <= x < |row| :: row[x] == Empty) ==> RowMinoCount(row) == 0
  {
    if row != [] {
      RowMinoCountBounds(row[1..]);
      assert forall x | 1 <= x < |row| :: row[x] == row[1..][x - 1];
    }
  }

  /** Counting minos distributes over concatenation of row lists. */
  lemma {:induction false} GridMinoCountAppend(a: Grid, b: Grid)
    ensures GridMinoCount(a + b) == GridMinoCount(a) + GridMinoCount(b)
  {
    if a == [] {
      assert a + b == b;
    } else {
      assert (a + b)[1..] == a[1..] + b;
      GridMinoCountAppend(a[1..], b);
    }
  }

  /** Removing a full row of `width` cells takes exactly `width` minos off the grid. */
  lemma DropRowMinoCount(g: Grid, y: nat, width: nat)
    requires y < |g| && |g[y]| == width && RowFull(g[y])
    ensures GridMinoCount(DropRow(g, y, width)) + width == GridMinoCount(g)
  {
    assert g == g[..y] + [g[y]] + g[y + 1..];
    GridMinoCountAppend(g[..y] + [g[y]], g[y + 1..]);
    GridMinoCountAppend(g[..y], [g[y]]);
    GridMinoCountAppend([EmptyRow(width)] + g[..y], g[y + 1..]);
    GridMinoCountAppend([EmptyRow(width)], g[..y]);
    RowMinoCountBounds(g[y]);
    RowMinoCountBounds(EmptyRow(width));
    assert GridMinoCount([g[y]]) == RowMinoCount(g[y]);
    assert GridMinoCount([EmptyRow(width)]) == RowMinoCount(EmptyRow(width));
  }

  /** Each removed row takes exactly `width` minos off the board. */
  lemma {:induction false} ClearRowsMinoCount(g: Grid, width: nat, height: nat, n: nat)
    requires Shaped(g, width, height) && n <= height
    ensures GridMinoCount(ClearRows(g, width, n).0) + width * ClearRows(g, width, n).1 == GridMinoCount(g)
    decreases n
  {
    if n > 0 {
      if RowFull(g[n - 1]) {
        var d := DropRow(g, n - 1, width);
        DropRowMinoCount(g, n - 1, width);
        DropRowShaped(g, width, height, n - 1);
        ClearRowsMinoCount(d, width, height, n - 1);
        MulSucc(width, ClearRows(d, width, n - 1).1);
      } else {
        ClearRowsMinoCount(g, width, height, n - 1);
      }
    }
  }

  // ---------------------------------------------------------------------
  // The board object
  // ---------------------------------------------------------------------

  class Board {
    /** `BOARD_WIDTH`: cells per row. */
    const width: nat
    /** `BOARD_HEIGHT`: number of rows. */
    const height: nat
    /** `self.board`: the rows, row 0 at the top; rows are replaced in place. */
    const grid: array<seq<Cell>>

    /** The grid has `height` rows of `width` cells. */
    ghost predicate Valid()
      reads grid
    {
      grid.Length == height && forall y | 0 <= y < height :: |grid[y]| == width
    }

    /** `board_height` rows of `board_width` `EMPTY` cells (the evident intent of the constructor). */
    constructor (width: nat, height: nat)
      ensures Valid() && fresh(grid)
      ensures this.width == width && this.height == height
      ensures forall y | 0 <= y < height :: grid[y] == EmptyRow(width)
    {
      this.width := width;
      this.height := height;
      grid := new seq<Cell>[height](_ => EmptyRow(width));
    }

    /** `isPentominoValid` on the current grid, for template `t` at (`px`, `py`). */
    predicate Admits(t: Template, px: int, py: int)
      reads grid
      requires Valid() && Scannable(t) && py >= -(height as int)
    {
      Fits(grid[..], width, height, t, px, py)
    }

    /** `isLineComplete(y)`: scans row `y` for an `EMPTY` cell. */
    method IsLineComplete(y: int) returns (r: Result<bool>)
      requires Valid()
      ensures r == LineComplete(grid[..], width, height, y)
    {
      if y < 0 || y >= width {
        return Err(ValueError);
      }
      if y >= height {
        return Err(IndexError);
      }
      for x := 0 to width
        invariant forall k | 0 <= k < x :: grid[y][k] != Empty
      {
        if grid[y][x] == Empty {
          return Ok(false);
        }
      }
      return Ok(true);
    }

    /**
     * `checkForCompleteLines`: scans rows bottom to top, removing each full
     * row it meets by moving the rows above it down one.
     */
    method CheckForCompleteLines() returns (r: Result<nat>)
      requires Valid()
      modifies grid
      ensures Valid()
      ensures height > width ==> r == Err(ValueError) && grid[..] == old(grid[..])
      ensures height <= width ==>
        var (cleared, count) := ClearRows(old(grid[..]), width, height);
        r == Ok(count) && grid[..] == cleared
    {
      ghost var start := grid[..];
      var numLines := 0;
      var y := height - 1;
      while y >= 0
        invariant -1 <= y < height
        invariant Valid()
        invariant y == height - 1 ==> grid[..] == start && numLines == 0
        invariant y < height - 1 ==> height <= width
        invariant ClearRows(grid[..], width, y + 1).0 == ClearRows(start, width, height).0
        invariant numLines + ClearRows(grid[..], width, y + 1).1 == ClearRows(start, width, height).1
      {
        var complete := IsLineComplete(y);
        if complete.Err? {
          return Err(complete.error);
        }
        if complete.value {
          RemoveRow(y);
          numLines := numLines + 1;
        }
        y := y - 1;
      }
      r := Ok(numLines);
    }

    /**
     * The removal step of `checkForCompleteLines`: every row above `y` is
     * copied one row down, from `y`-1 up to row 0, then row 0 is reset to `EMPTY`.
     */
    method RemoveRow(y: int)
      requires Valid() && 0 <= y < height
      modifies grid
      ensures Valid() && grid[..] == DropRow(old(grid[..]), y, width)
    {
      ghost var before := grid[..];
      var row := y - 1;
      while row >= 0
        invariant -1 <= row < y
        invariant forall k | 0 <= k <= row + 1 :: grid[k] == before[k]
        invariant forall k | row + 2 <= k <= y :: grid[k] == before[k - 1]
        invariant forall k | y < k < height :: grid[k] == before[k]
      {
        grid[row + 1] := grid[row];
        row := row - 1;
      }
      grid[0] := EmptyRow(width);
      assert grid[..] == DropRow(before, y, width);
      DropRowShaped(before, width, height, y);
    }

    /**
     * `isPentominoValid`: checks every filled cell of the piece's current
     * template against the bounds and the grid, stopping at the first that fails.
     */
    method IsPentominoValid(p: Pentomino) returns (valid: bool)
      requires Valid() && p.Valid() && Scannable(p.shape[p.rotation]) && p.y >= -(height as int)
      ensures valid == Admits(p.shape[p.rotation], p.x, p.y)
    {
      var template := p.GetCurrentTemplate();
      ghost var g := grid[..];
      if |template| == 0 {
        return true;
      }
      for y := 0 to |template|
        invariant forall dy, dx | 0 <= dy < y && 0 <= dx < |template[0]| && template[dy][dx] != EmptyMark ::
          MinoFits(g, width, height, p.x, p.y, dx, dy)
      {
        for x := 0 to |template[0]|
          invariant forall dy, dx | 0 <= dy < y && 0 <= dx < |template[0]| && template[dy][dx] != EmptyMark ::
            MinoFits(g, width, height, p.x, p.y, dx, dy)
          invariant forall dx | 0 <= dx < x && template[y][dx] != EmptyMark ::
            MinoFits(g, width, height, p.x, p.y, dx, y)
        {
          if template[y][x] == EmptyMark {
            continue;
          }
          var minoX := p.x + x;
          var minoY := p.y + y;
          if !IsOnTheBoard(width, height, minoX, minoY) {
            assert !MinoFits(g, width, height, p.x, p.y, x, y);
            return false;
          }
          if grid[WrapRow(minoY, height)][minoX] != Empty {
            assert !MinoFits(g, width, height, p.x, p.y, x, y);
            return false;
          }
        }
      }
      return true;
    }

    /**
     * Stands for `addPentominoToBoard`, which pentris/board.py does not
     * define: its outcome, a grid of the same dimensions, is supplied.
     */
    method CommitPiece(after: Grid)
      requires Valid() && Shaped(after, width, height)
      modifies grid
      ensures Valid() && grid[..] == after
    {
      for y := 0 to height
        invariant forall k | 0 <= k < y :: grid[k] == after[k]
      {
        grid[y] := after[y];
      }
    }
  }
}
