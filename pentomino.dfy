/**
 * The falling piece of pentris/pentomino.py: a shape (its list of rotation
 * templates), a rotation index into it and a board position. Every operation
 * changes the piece unconditionally; checking a move against the board is the
 * caller's business.
 */
module Pentominoes {

  /** One rotation of a shape: rows of characters, 'O' for a mino, '.' for none. */
  type Template = seq<string>

  /** The character that marks an empty template cell (`Board.EMPTY`). */
  const EmptyMark: char := '.'

  /** Every row of the template has the length of the first. */
  predicate Rectangular(t: Template)
  {
    forall r | 0 <= r < |t| :: |t[r]| == |t[0]|
  }

  /**
   * No row is shorter than the first: the columns `isPentominoValid` reads,
   * `range(len(template[0]))`, exist in every row.
   */
  predicate Scannable(t: Template)
  {
    forall r | 0 <= r < |t| :: |t[0]| <= |t[r]|
  }

  /** The number of filled cells (any character but '.') in a row. */
  function RowMinos(row: string): nat
  {
    if row == [] then 0 else (if row[0] != EmptyMark then 1 else 0) + RowMinos(row[1..])
  }

  /** The number of filled cells in a template. */
  function MinoCount(t: Template): nat
  {
    if t == [] then 0 else RowMinos(t[0]) + MinoCount(t[1..])
  }

  /** The rotation index after one clockwise turn among `n` templates (Python `%`). */
  function Clockwise(rotation: int, n: nat): int
    requires n > 0
  {
    (rotation + 1) % n
  }

  /** The rotation index after one counterclockwise turn among `n` templates (Python `%`). */
  function Counterclockwise(rotation: int, n: nat): int
    requires n > 0
  {
    (rotation - 1) % n
  }

  /** The rotation index after `k` clockwise turns. */
  function ClockwiseTimes(rotation: int, n: nat, k: nat): int
    requires n > 0
  {
    if k == 0 then rotation else Clockwise(ClockwiseTimes(rotation, n, k - 1), n)
  }

  /** Python's `%` leaves an index already in range untouched. */
  lemma ModOfIndex(a: int, n: nat)
    requires 0 <= a < n
    ensures a % n == a
  {
  }

  /** Python's `%` maps the one-past-the-end index back to 0. */
  lemma ModOfCount(n: nat)
    requires n > 0
    ensures n % n == 0
  {
  }

  /** A turn in either direction always lands on a template that exists. */
  lemma TurnsStayInRange(rotation: int, n: nat)
    requires n > 0
    ensures 0 <= Clockwise(rotation, n) < n
    ensures 0 <= Counterclockwise(rotation, n) < n
  {
  }

  /**
   * Turning counterclockwise from rotation 0 wraps round to the last template,
   * because the remainder of -1 is taken non-negative.
   */
  lemma CounterclockwiseFromZero(n: nat)
    requires n > 0
    ensures Counterclockwise(0, n) == n - 1
  {
  }

  /** A clockwise turn is undone by a counterclockwise one. */
  lemma ClockwiseThenCounterclockwise(rotation: int, n: nat)
    requires n > 0 && 0 <= rotation < n
    ensures Counterclockwise(Clockwise(rotation, n), n) == rotation
  {
    var turned := Clockwise(rotation, n);
    if rotation == n - 1 {
      ModOfCount(n);
      assert turned == 0;
      CounterclockwiseFromZero(n);
    } else {
      ModOfIndex(rotation + 1, n);
      assert turned == rotation + 1;
      ModOfIndex(rotation, n);
    }
  }

  /** A counterclockwise turn is undone by a clockwise one. */
  lemma CounterclockwiseThenClockwise(rotation: int, n: nat)
    requires n > 0 && 0 <= rotation < n
    ensures Clockwise(Counterclockwise(rotation, n), n) == rotation
  {
    var turned := Counterclockwise(rotation, n);
    if rotation == 0 {
      CounterclockwiseFromZero(n);
      assert turned == n - 1;
      ModOfCount(n);
    } else {
      ModOfIndex(rotation - 1, n);
      assert turned == rotation - 1;
      ModOfIndex(rotation, n);
    }
  }

  /**
   * Up to `n` clockwise turns from a valid rotation advance it by `k`, wrapping
   * once past the last template.
   */
  lemma {:induction false} ClockwiseTimesWraps(rotation: int, n: nat, k: nat)
    requires n > 0 && 0 <= rotation < n && k <= n
    ensures ClockwiseTimes(rotation, n, k) == if rotation + k < n then rotation + k else rotation + k - n
  {
    if k > 0 {
      ClockwiseTimesWraps(rotation, n, k - 1);
      var before := ClockwiseTimes(rotation, n, k - 1);
      if before + 1 == n {
        ModOfCount(n);
      } else {
        ModOfIndex(before + 1, n);
      }
    }
  }

  /** As many clockwise turns as the shape has templates bring the piece back where it was. */
  lemma FullTurnIsIdentity(rotation: int, n: nat)
    requires n > 0 && 0 <= rotation < n
    ensures ClockwiseTimes(rotation, n, n) == rotation
  {
    ClockwiseTimesWraps(rotation, n, n);
  }

  /** A shape with a single template (the X pentomino) never changes rotation. */
  lemma SingleTemplateNeverTurns()
    ensures Clockwise(0, 1) == 0 && Counterclockwise(0, 1) == 0
  {
  }

  class Pentomino {
    /** The shape: its list of rotation templates. */
    const shape: seq<Template>
    /** Index of the current template in `shape`. */
    var rotation: int
    /** Board column of the template's left edge. */
    var x: int
    /** Board row of the template's top edge; negative while above the field. */
    var y: int

    /** The rotation indexes an existing template. */
    ghost predicate Valid()
      reads this
    {
      0 <= rotation < |shape|
    }

    /** A new piece: rotation 0 at (`startX`, `startY`), where `startY` defaults to -1. */
    constructor (shape: seq<Template>, startX: int, startY: int := -1)
      ensures this.shape == shape && rotation == 0 && x == startX && y == startY
      ensures Valid() <==> |shape| > 0
    {
      this.shape := shape;
      rotation := 0;
      x := startX;
      y := startY;
    }

    /** A copy with the same shape, rotation and position (Python's `deepcopy`). */
    constructor Copy(other: Pentomino)
      ensures shape == other.shape && rotation == other.rotation
      ensures x == other.x && y == other.y
    {
      shape := other.shape;
      rotation := other.rotation;
      x := other.x;
      y := other.y;
    }

    /** The template of the current rotation; nothing changes. */
    method GetCurrentTemplate() returns (t: Template)
      requires Valid()
      ensures t == shape[rotation]
    {
      t := shape[rotation];
    }

    /** Turns one step clockwise and returns the new current template. */
    method RotateClockwise() returns (t: Template)
      requires Valid()
      modifies this`rotation
      ensures Valid() && rotation == Clockwise(old(rotation), |shape|)
      ensures t == shape[rotation]
    {
      TurnsStayInRange(rotation, |shape|);
      rotation := (rotation + 1) % |shape|;
      t := shape[rotation];
    }

    /** Turns one step counterclockwise and returns the new current template. */
    method RotateCounterclockwise() returns (t: Template)
      requires Valid()
      modifies this`rotation
      ensures Valid() && rotation == Counterclockwise(old(rotation), |shape|)
      ensures t == shape[rotation]
    {
      TurnsStayInRange(rotation, |shape|);
      rotation := (rotation - 1) % |shape|;
      t := shape[rotation];
    }

    method MoveLeft()
      modifies this`x
      ensures x == old(x) - 1
    {
      x := x - 1;
    }

    method MoveRight()
      modifies this`x
      ensures x == old(x) + 1
    {
      x := x + 1;
    }

    method MoveDown()
      modifies this`y
      ensures y == old(y) + 1
    {
      y := y + 1;
    }

    /**
     * One row up. pentris/pentomino.py has no such method although
     * pentris/pentris.py calls it; this is the assumed inverse of `MoveDown`.
     */
    method MoveUp()
      modifies this`y
      ensures y == old(y) - 1
    {
      y := y - 1;
    }
  }

  /** Rotations and moves undone by their opposites restore the piece exactly. */
  method TurnAndMoveBack(p: Pentomino)
    requires p.Valid()
    modifies p
    ensures p.rotation == old(p.rotation) && p.x == old(p.x) && p.y == old(p.y)
  {
    var _ := p.RotateClockwise();
    ClockwiseThenCounterclockwise(old(p.rotation), |p.shape|);
    var _ := p.RotateCounterclockwise();
    p.MoveLeft();
    p.MoveRight();
    p.MoveDown();
    p.MoveUp();
  }
}
