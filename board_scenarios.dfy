/**
 * Concrete runs of `checkForCompleteLines` on a board 10 cells wide and 4 rows
 * tall, worked out from its specification `Boards.CompleteLines`.
 */
module LineClearScenarios {
  import opened Wrappers
  import opened Boards

  const Red: Color := Rgb(255, 0, 0)

  /** A row of `width` red minos. */
  function RedRow(width: nat): (row: seq<Cell>)
    ensures |row| == width && RowFull(row)
  {
    seq(width, _ => Filled(Red))
  }

  /** Only the bottom row full: one row is removed and the board ends all `EMPTY`. */
  lemma BottomRowClearsToEmptyBoard()
    ensures
      var g := [EmptyRow(10), EmptyRow(10), EmptyRow(10), RedRow(10)];
      CompleteLines(g, 10, 4) == Ok(([EmptyRow(10), EmptyRow(10), EmptyRow(10), EmptyRow(10)], 1))
  {
    var g := [EmptyRow(10), EmptyRow(10), EmptyRow(10), RedRow(10)];
    var e := [EmptyRow(10), EmptyRow(10), EmptyRow(10), EmptyRow(10)];
    EmptyRowNotFull(10);
    assert DropRow(g, 3, 10) == e;
    NoFullRowLeavesGrid(e, 10, 3);
  }

  /**
   * The two bottom rows full: only one row is removed, because the full row
   * pulled down into row 3 is not examined again; row 3 is still full after.
   */
  lemma PulledDownRowIsSkipped()
    ensures
      var g := [EmptyRow(10), EmptyRow(10), RedRow(10), RedRow(10)];
      CompleteLines(g, 10, 4) == Ok(([EmptyRow(10), EmptyRow(10), EmptyRow(10), RedRow(10)], 1))
  {
    var g := [EmptyRow(10), EmptyRow(10), RedRow(10), RedRow(10)];
    var d := [EmptyRow(10), EmptyRow(10), EmptyRow(10), RedRow(10)];
    EmptyRowNotFull(10);
    assert DropRow(g, 3, 10) == d;
    NoFullRowLeavesGrid(d, 10, 3);
  }

  /**
   * Hence a second call straight after the first does not return 0: on the
   * grid the first call left, it removes the remaining full row.
   */
  lemma SecondCallStillClears()
    ensures
      var d := [EmptyRow(10), EmptyRow(10), EmptyRow(10), RedRow(10)];
      CompleteLines(d, 10, 4).Ok? && CompleteLines(d, 10, 4).value.1 == 1
  {
    var d := [EmptyRow(10), EmptyRow(10), EmptyRow(10), RedRow(10)];
    BottomRowClearsToEmptyBoard();
  }

  /** Any board taller than it is wide, such as the game's 12 x 20, makes the call raise. */
  lemma TallBoardRaises(g: Grid)
    requires Shaped(g, 12, 20)
    ensures CompleteLines(g, 12, 20) == Err(ValueError)
  {
  }
}
