/**
 * The shape catalogue and shuffle-bag of pentris/factory.py. Shapes are named
 * by their index 0..17 in `Shapes()`; the bag (`queue`) holds indices.
 * Python's `randrange` and `shuffle` are not modelled: the index drawn and the
 * shuffled order are supplied by the caller.
 */
module ShapeFactory {
  import opened Pentominoes

  /** The number of shapes in the catalogue. */
  const ShapeCount: nat := 18

  /** `F_SHAPE`, pentris/factory.py:14-25. */
  const FShape: seq<Template> := [
    ["..OO.", ".OO..", "..O.."],
    ["..O..", ".OOO.", "...O."],
    ["..O..", "..OO.", ".OO.."],
    [".O...", ".OOO.", "..O.."]
  ]

  /** `F_PRIME_SHAPE`, pentris/factory.py:27-38. */
  const FPrimeShape: seq<Template> := [
    [".OO..", "..OO.", "..O.."],
    ["...O.", ".OOO.", "..O.."],
    ["..O..", ".OO..", "..OO."],
    ["..O..", ".OOO.", ".O..."]
  ]

  /** `I_SHAPE`, pentris/factory.py:40-45. */
  const IShape: seq<Template> := [
    [".OOOOO."],
    [".O.", ".O.", ".O.", ".O.", ".O."]
  ]

  /** `L_SHAPE`, pentris/factory.py:47-58. */
  const LShape: seq<Template> := [
    ["....O.", ".OOOO."],
    [".O..", ".O..", ".O..", ".OO."],
    [".OOOO.", ".O...."],
    [".OO.", "..O.", "..O.", "..O."]
  ]

  /** `J_SHAPE`, pentris/factory.py:60-71. */
  const JShape: seq<Template> := [
    [".O....", ".OOOO."],
    [".OO.", ".O..", ".O..", ".O.."],
    [".OOOO.", "....O."],
    ["..O.", "..O.", "..O.", ".OO."]
  ]

  /** `N_SHAPE`, pentris/factory.py:73-84. */
  const NShape: seq<Template> := [
    [".OOO..", "...OO."],
    ["..O.", "..O.", ".OO.", ".O.."],
    [".OO...", "..OOO."],
    ["..O.", ".OO.", ".O..", ".O.."]
  ]

  /** `N_PRIME_SHAPE`, pentris/factory.py:86-97. */
  const NPrimeShape: seq<Template> := [
    ["..OOO.", ".OO..."],
    [".O..", ".OO.", "..O.", "..O."],
    ["...OO.", ".OOO.."],
    [".O..", ".O..", ".OO.", "..O."]
  ]

  /** `P_SHAPE`, pentris/factory.py:99-108. */
  const PShape: seq<Template> := [
    [".OO.", ".OO.", ".O.."],
    [".OOO.", "..OO."],
    ["..O.", ".OO.", ".OO."],
    [".OO..", ".OOO."]
  ]

  /** `Q_SHAPE`, pentris/factory.py:110-119. */
  const QShape: seq<Template> := [
    [".OO.", ".OO.", "..O."],
    ["..OO.", ".OOO."],
    [".O..", ".OO.", ".OO."],
    [".OOO.", ".OO.."]
  ]

  /** `T_SHAPE`, pentris/factory.py:121-132. */
  const TShape: seq<Template> := [
    ["..O..", "..O..", ".OOO."],
    [".O...", ".OOO.", ".O..."],
    [".OOO.", "..O..", "..O.."],
    ["...O.", ".OOO.", "...O."]
  ]

  /** `U_SHAPE`, pentris/factory.py:134-143. */
  const UShape: seq<Template> := [
    [".O.O.", ".OOO."],
    [".OO.", ".O..", ".OO."],
    [".OOO.", ".O.O."],
    [".OO.", "..O.", ".OO."]
  ]

  /** `V_SHAPE`, pentris/factory.py:145-156. */
  const VShape: seq<Template> := [
    [".O...", ".O...", ".OOO."],
    [".OOO.", ".O...", ".O..."],
    [".OOO.", "...O.", "...O."],
    ["...O.", "...O.", ".OOO."]
  ]

  /** `W_SHAPE`, pentris/factory.py:158-169. */
  const WShape: seq<Template> := [
    [".O...", ".OO..", "..OO."],
    ["..OO.", ".OO..", ".O..."],
    [".OO..", "..OO.", "...O."],
    ["...O.", "..OO.", ".OO.."]
  ]

  /** `X_SHAPE`, pentris/factory.py:171-173. */
  const XShape: seq<Template> := [
    ["..O..", ".OOO.", "..O.."]
  ]

  /** `Y_SHAPE`, pentris/factory.py:175-186. */
  const YShape: seq<Template> := [
    ["...O..", ".OOOO."],
    [".O..", ".O..", ".OO.", ".O.."],
    [".OOOO.", "..O..."],
    ["..O.", ".OO.", "..O.", "..O."]
  ]

  /** `Y_PRIME_SHAPE`, pentris/factory.py:188-199. */
  const YPrimeShape: seq<Template> := [
    ["..O...", ".OOOO."],
    [".O..", ".OO.", ".O..", ".O.."],
    [".OOOO.", "...O.."],
    ["..O.", "..O.", ".OO.", "..O."]
  ]

  /** `Z_SHAPE`, pentris/factory.py:201-206. */
  const ZShape: seq<Template> := [
    [".OO..", "..O..", "..OO."],
    ["...O.", ".OOO.", ".O..."]
  ]

  /** `S_SHAPE`, pentris/factory.py:208-213. */
  const SShape: seq<Template> := [
    ["..OO.", "..O..", ".OO.."],
    [".O...", ".OOO.", "...O."]
  ]

  /** A template of the catalogue: rectangular, made only of 'O' and '.', with exactly five 'O's. */
  predicate IsPentominoTemplate(t: Template)
  {
    && |t| > 0
    && Rectangular(t)
    && (forall r, c | 0 <= r < |t| && 0 <= c < |t[r]| :: t[r][c] == 'O' || t[r][c] == EmptyMark)
    && MinoCount(t) == 5
  }

  /** A shape of the catalogue: at least one template, each a pentomino template. */
  predicate IsShape(shape: seq<Template>)
  {
    |shape| > 0 && forall r | 0 <= r < |shape| :: IsPentominoTemplate(shape[r])
  }

  /** Row by row: only 'O' and '.' occur. */
  function MarksOnly(row: string): bool
  {
    row == [] || ((row[0] == 'O' || row[0] == EmptyMark) && MarksOnly(row[1..]))
  }

  /** Row by row: every row is as long as the next, and holds only 'O' and '.'. */
  function RowsCheck(t: Template): bool
  {
    t == [] || (MarksOnly(t[0]) && (|t| == 1 || |t[1]| == |t[0]|) && RowsCheck(t[1..]))
  }

  /** Template by template: non-empty and passing `RowsCheck`. */
  function TemplatesCheck(shape: seq<Template>): bool
  {
    shape == [] || (|shape[0]| > 0 && RowsCheck(shape[0]) && TemplatesCheck(shape[1..]))
  }

  /** The filled cells of a row, in order. */
  function FilledCells(row: string): string
  {
    if row == [] then [] else if row[0] != EmptyMark then [row[0]] + FilledCells(row[1..]) else FilledCells(row[1..])
  }

  /** The filled cells of a template, row by row. */
  function TemplateFilledCells(t: Template): string
  {
    if t == [] then [] else FilledCells(t[0]) + TemplateFilledCells(t[1..])
  }

  /** Template by template: exactly five filled cells. */
  function CountsCheck(shape: seq<Template>): bool
  {
    shape == [] || (|TemplateFilledCells(shape[0])| == 5 && CountsCheck(shape[1..]))
  }

  /** `FilledCells` collects exactly the cells `RowMinos` counts. */
  lemma {:induction false} FilledCellsCount(row: string)
    ensures |FilledCells(row)| == RowMinos(row)
  {
    if row != [] {
      FilledCellsCount(row[1..]);
    }
  }

  /** `TemplateFilledCells` collects exactly the cells `MinoCount` counts. */
  lemma {:induction false} TemplateFilledCellsCount(t: Template)
    ensures |TemplateFilledCells(t)| == MinoCount(t)
  {
    if t != [] {
      FilledCellsCount(t[0]);
      TemplateFilledCellsCount(t[1..]);
    }
  }

  lemma {:induction false} MarksOnlySound(row: string)
    requires MarksOnly(row)
    ensures forall c | 0 <= c < |row| :: row[c] == 'O' || row[c] == EmptyMark
  {
    if row != [] {
      MarksOnlySound(row[1..]);
      assert forall c | 1 <= c < |row| :: row[c] == row[1..][c - 1];
    }
  }

  lemma {:induction false} RowsCheckSound(t: Template)
    requires RowsCheck(t)
    ensures Rectangular(t)
    ensures forall r, c | 0 <= r < |t| && 0 <= c < |t[r]| :: t[r][c] == 'O' || t[r][c] == EmptyMark
  {
    if t != [] {
      MarksOnlySound(t[0]);
      RowsCheckSound(t[1..]);
      assert forall r | 1 <= r < |t| :: t[r] == t[1..][r - 1];
    }
  }

  /** At least one template, each non-empty, rectangular and drawn in 'O' and '.' only. */
  predicate RowsHold(shape: seq<Template>)
  {
    |shape| > 0 && forall r | 0 <= r < |shape| ::
      |shape[r]| > 0 && Rectangular(shape[r]) &&
      forall i, c | 0 <= i < |shape[r]| && 0 <= c < |shape[r][i]| :: shape[r][i][c] == 'O' || shape[r][i][c] == EmptyMark
  }

  /** Every template has five minos. */
  predicate CountsHold(shape: seq<Template>)
  {
    forall r | 0 <= r < |shape| :: MinoCount(shape[r]) == 5
  }

  /** A shape passing `TemplatesCheck` has only non-empty, rectangular, well-marked templates. */
  lemma {:induction false} TemplatesCheckSound(shape: seq<Template>)
    requires TemplatesCheck(shape)
    ensures forall r | 0 <= r < |shape| ::
      |shape[r]| > 0 && Rectangular(shape[r]) &&
      forall i, c | 0 <= i < |shape[r]| && 0 <= c < |shape[r][i]| :: shape[r][i][c] == 'O' || shape[r][i][c] == EmptyMark
  {
    if shape != [] {
      RowsCheckSound(shape[0]);
      TemplatesCheckSound(shape[1..]);
      assert forall r | 1 <= r < |shape| :: shape[r] == shape[1..][r - 1];
    }
  }

  /** A shape passing `CountsCheck` has five minos in every template. */
  lemma {:induction false} CountsCheckSound(shape: seq<Template>)
    requires CountsCheck(shape)
    ensures CountsHold(shape)
  {
    if shape != [] {
      TemplateFilledCellsCount(shape[0]);
      CountsCheckSound(shape[1..]);
      assert forall r | 1 <= r < |shape| :: shape[r] == shape[1..][r - 1];
    }
  }

  /** `SHAPES`, in catalogue order. */
  const ShapeTable: seq<seq<Template>> :=
    [FShape, FPrimeShape, IShape, LShape, JShape,
     NShape, NPrimeShape, PShape, QShape, TShape,
     UShape, VShape, WShape, XShape, YShape,
     YPrimeShape, ZShape, SShape]

  lemma FShapeRows()
    ensures RowsHold(FShape)
  {
    assert TemplatesCheck(FShape);
    TemplatesCheckSound(FShape);
  }

  lemma FShapeCounts()
    ensures CountsHold(FShape)
  {
    assert CountsCheck(FShape);
    CountsCheckSound(FShape);
  }

  lemma FShapeIsShape()
    ensures IsShape(FShape)
  {
    FShapeRows();
    FShapeCounts();
  }

  lemma FPrimeShapeRows()
    ensures RowsHold(FPrimeShape)
  {
    assert TemplatesCheck(FPrimeShape);
    TemplatesCheckSound(FPrimeShape);
  }

  lemma FPrimeShapeCounts()
    ensures CountsHold(FPrimeShape)
  {
    assert CountsCheck(FPrimeShape);
    CountsCheckSound(FPrimeShape);
  }

  lemma FPrimeShapeIsShape()
    ensures IsShape(FPrimeShape)
  {
    FPrimeShapeRows();
    FPrimeShapeCounts();
  }

  lemma IShapeRows()
    ensures RowsHold(IShape)
  {
    assert TemplatesCheck(IShape);
    TemplatesCheckSound(IShape);
  }

  lemma IShapeCounts()
    ensures CountsHold(IShape)
  {
    assert CountsCheck(IShape);
    CountsCheckSound(IShape);
  }

  lemma IShapeIsShape()
    ensures IsShape(IShape)
  {
    IShapeRows();
    IShapeCounts();
  }

  lemma LShapeRows()
    ensures RowsHold(LShape)
  {
    assert TemplatesCheck(LShape);
    TemplatesCheckSound(LShape);
  }

  lemma LShapeCounts()
    ensures CountsHold(LShape)
  {
    assert CountsCheck(LShape);
    CountsCheckSound(LShape);
  }

  lemma LShapeIsShape()
    ensures IsShape(LShape)
  {
    LShapeRows();
    LShapeCounts();
  }

  lemma JShapeRows()
    ensures RowsHold(JShape)
  {
    assert TemplatesCheck(JShape);
    TemplatesCheckSound(JShape);
  }

  lemma JShapeCounts()
    ensures CountsHold(JShape)
  {
    assert CountsCheck(JShape);
    CountsCheckSound(JShape);
  }

  lemma JShapeIsShape()
    ensures IsShape(JShape)
  {
    JShapeRows();
    JShapeCounts();
  }

  lemma NShapeRows()
    ensures RowsHold(NShape)
  {
    assert TemplatesCheck(NShape);
    TemplatesCheckSound(NShape);
  }

  lemma NShapeCounts()
    ensures CountsHold(NShape)
  {
    assert CountsCheck(NShape);
    CountsCheckSound(NShape);
  }

  lemma NShapeIsShape()
    ensures IsShape(NShape)
  {
    NShapeRows();
    NShapeCounts();
  }

  lemma NPrimeShapeRows()
    ensures RowsHold(NPrimeShape)
  {
    assert TemplatesCheck(NPrimeShape);
    TemplatesCheckSound(NPrimeShape);
  }

  lemma NPrimeShapeCounts()
    ensures CountsHold(NPrimeShape)
  {
    assert CountsCheck(NPrimeShape);
    CountsCheckSound(NPrimeShape);
  }

  lemma NPrimeShapeIsShape()
    ensures IsShape(NPrimeShape)
  {
    NPrimeShapeRows();
    NPrimeShapeCounts();
  }

  lemma PShapeRows()
    ensures RowsHold(PShape)
  {
    assert TemplatesCheck(PShape);
    TemplatesCheckSound(PShape);
  }

  lemma PShapeCounts()
    ensures CountsHold(PShape)
  {
    assert CountsCheck(PShape);
    CountsCheckSound(PShape);
  }

  lemma PShapeIsShape()
    ensures IsShape(PShape)
  {
    PShapeRows();
    PShapeCounts();
  }

  lemma QShapeRows()
    ensures RowsHold(QShape)
  {
    assert TemplatesCheck(QShape);
    TemplatesCheckSound(QShape);
  }

  lemma QShapeCounts()
    ensures CountsHold(QShape)
  {
    assert CountsCheck(QShape);
    CountsCheckSound(QShape);
  }

  lemma QShapeIsShape()
    ensures IsShape(QShape)
  {
    QShapeRows();
    QShapeCounts();
  }

  lemma TShapeRows()
    ensures RowsHold(TShape)
  {
    assert TemplatesCheck(TShape);
    TemplatesCheckSound(TShape);
  }

  lemma TShapeCounts()
    ensures CountsHold(TShape)
  {
    assert CountsCheck(TShape);
    CountsCheckSound(TShape);
  }

  lemma TShapeIsShape()
    ensures IsShape(TShape)
  {
    TShapeRows();
    TShapeCounts();
  }

  lemma UShapeRows()
    ensures RowsHold(UShape)
  {
    assert TemplatesCheck(UShape);
    TemplatesCheckSound(UShape);
  }

  lemma UShapeCounts()
    ensures CountsHold(UShape)
  {
    assert CountsCheck(UShape);
    CountsCheckSound(UShape);
  }

  lemma UShapeIsShape()
    ensures IsShape(UShape)
  {
    UShapeRows();
    UShapeCounts();
  }

  lemma VShapeRows()
    ensures RowsHold(VShape)
  {
    assert TemplatesCheck(VShape);
    TemplatesCheckSound(VShape);
  }

  lemma VShapeCounts()
    ensures CountsHold(VShape)
  {
    assert CountsCheck(VShape);
    CountsCheckSound(VShape);
  }

  lemma VShapeIsShape()
    ensures IsShape(VShape)
  {
    VShapeRows();
    VShapeCounts();
  }

  lemma WShapeRows()
    ensures RowsHold(WShape)
  {
    assert TemplatesCheck(WShape);
    TemplatesCheckSound(WShape);
  }

  lemma WShapeCounts()
    ensures CountsHold(WShape)
  {
    assert CountsCheck(WShape);
    CountsCheckSound(WShape);
  }

  lemma WShapeIsShape()
    ensures IsShape(WShape)
  {
    WShapeRows();
    WShapeCounts();
  }

  lemma XShapeRows()
    ensures RowsHold(XShape)
  {
    assert TemplatesCheck(XShape);
    TemplatesCheckSound(XShape);
  }

  lemma XShapeCounts()
    ensures CountsHold(XShape)
  {
    assert CountsCheck(XShape);
    CountsCheckSound(XShape);
  }

  lemma XShapeIsShape()
    ensures IsShape(XShape)
  {
    XShapeRows();
    XShapeCounts();
  }

  lemma YShapeRows()
    ensures RowsHold(YShape)
  {
    assert TemplatesCheck(YShape);
    TemplatesCheckSound(YShape);
  }

  lemma YShapeCounts()
    ensures CountsHold(YShape)
  {
    assert CountsCheck(YShape);
    CountsCheckSound(YShape);
  }

  lemma YShapeIsShape()
    ensures IsShape(YShape)
  {
    YShapeRows();
    YShapeCounts();
  }

  lemma YPrimeShapeRows()
    ensures RowsHold(YPrimeShape)
  {
    assert TemplatesCheck(YPrimeShape);
    TemplatesCheckSound(YPrimeShape);
  }

  lemma YPrimeShapeCounts()
    ensures CountsHold(YPrimeShape)
  {
    assert CountsCheck(YPrimeShape);
    CountsCheckSound(YPrimeShape);
  }

  lemma YPrimeShapeIsShape()
    ensures IsShape(YPrimeShape)
  {
    YPrimeShapeRows();
    YPrimeShapeCounts();
  }

  lemma ZShapeRows()
    ensures RowsHold(ZShape)
  {
    assert TemplatesCheck(ZShape);
    TemplatesCheckSound(ZShape);
  }

  lemma ZShapeCounts()
    ensures CountsHold(ZShape)
  {
    assert CountsCheck(ZShape);
    CountsCheckSound(ZShape);
  }

  lemma ZShapeIsShape()
    ensures IsShape(ZShape)
  {
    ZShapeRows();
    ZShapeCounts();
  }

  lemma SShapeRows()
    ensures RowsHold(SShape)
  {
    assert TemplatesCheck(SShape);
    TemplatesCheckSound(SShape);
  }

  lemma SShapeCounts()
    ensures CountsHold(SShape)
  {
    assert CountsCheck(SShape);
    CountsCheckSound(SShape);
  }

  lemma SShapeIsShape()
    ensures IsShape(SShape)
  {
    SShapeRows();
    SShapeCounts();
  }

  /** Every entry of the table is a shape. */
  lemma ShapeTableIsWellFormed()
    ensures forall s | 0 <= s < |ShapeTable| :: IsShape(ShapeTable[s])
  {
    forall s | 0 <= s < |ShapeTable|
      ensures IsShape(ShapeTable[s])
    {
      if s == 0 { FShapeIsShape(); }
      else if s == 1 { FPrimeShapeIsShape(); }
      else if s == 2 { IShapeIsShape(); }
      else if s == 3 { LShapeIsShape(); }
      else if s == 4 { JShapeIsShape(); }
      else if s == 5 { NShapeIsShape(); }
      else if s == 6 { NPrimeShapeIsShape(); }
      else if s == 7 { PShapeIsShape(); }
      else if s == 8 { QShapeIsShape(); }
      else if s == 9 { TShapeIsShape(); }
      else if s == 10 { UShapeIsShape(); }
      else if s == 11 { VShapeIsShape(); }
      else if s == 12 { WShapeIsShape(); }
      else if s == 13 { XShapeIsShape(); }
      else if s == 14 { YShapeIsShape(); }
      else if s == 15 { YPrimeShapeIsShape(); }
      else if s == 16 { ZShapeIsShape(); }
      else { SShapeIsShape(); }
    }
  }

  /**
   * `SHAPES`: the eighteen shapes in catalogue order. Every shape has at least
   * one template, and every template is a pentomino template.
   */
  function Shapes(): (shapes: seq<seq<Template>>)
    ensures |shapes| == ShapeCount
    ensures forall s | 0 <= s < |shapes| :: IsShape(shapes[s])
  {
    ShapeTableIsWellFormed();
    ShapeTable
  }

  /** `Indices(n)` lists 0..n-1 in order; `Indices(ShapeCount)` is `list(SHAPES)`. */
  function Indices(n: nat): seq<nat>
  {
    seq(n, i requires 0 <= i => i as nat)
  }

  /** Each of 0..n-1 occurs exactly once in `Indices(n)`, and nothing else occurs. */
  lemma {:induction false} IndicesOnce(n: nat, e: nat)
    ensures multiset(Indices(n))[e] == if e < n then 1 else 0
  {
    if n > 0 {
      IndicesOnce(n - 1, e);
      var last: nat := n - 1;
      assert Indices(n) == Indices(n - 1) + [last];
    }
  }

  /**
   * `shuffled` is an order of the whole catalogue, as `shuffle(list(SHAPES))`
   * yields: eighteen shape indices, each shape exactly once.
   */
  predicate IsShuffle(shuffled: seq<nat>)
  {
    && |shuffled| == ShapeCount
    && (forall k | 0 <= k < |shuffled| :: shuffled[k] < ShapeCount)
    && multiset(shuffled) == multiset(Indices(ShapeCount))
  }

  /** `queue.pop(index)`: the queue without its element at `index`. */
  function RemoveAt(queue: seq<nat>, index: nat): (rest: seq<nat>)
    requires index < |queue|
    ensures |rest| == |queue| - 1
    ensures multiset(rest) + multiset{queue[index]} == multiset(queue)
    ensures forall k | 0 <= k < |rest| :: rest[k] == if k < index then queue[k] else queue[k + 1]
  {
    assert queue == queue[..index] + [queue[index]] + queue[index + 1..];
    queue[..index] + queue[index + 1..]
  }

  /**
   * What `drawn` and `queue` together hold: each shape exactly once. From this
   * the bag has no duplicates, only catalogue shapes, and nothing drawn since
   * the last refill is still in it.
   */
  lemma {:induction false} CycleHoldsEachShapeOnce(drawn: seq<nat>, queue: seq<nat>, e: nat)
    requires multiset(drawn) + multiset(queue) == multiset(Indices(ShapeCount))
    ensures e in queue ==> e < ShapeCount && e !in drawn && multiset(queue)[e] == 1
    ensures e < ShapeCount ==> (e in queue) != (e in drawn)
  {
    IndicesOnce(ShapeCount, e);
  }

  class Factory {
    /** The bag: indices of the shapes not yet drawn in this cycle. */
    var queue: seq<nat>
    /** The shapes returned since the last refill, in order. */
    ghost var drawn: seq<nat>

    /** Returned shapes and the bag together make up the whole catalogue; the bag is never empty. */
    ghost predicate Valid()
      reads this
    {
      && |queue| > 0
      && (forall k | 0 <= k < |queue| :: queue[k] < ShapeCount)
      && multiset(drawn) + multiset(queue) == multiset(Indices(ShapeCount))
    }

    /** A full bag in the order `shuffled` (`list(SHAPES)` then `shuffle`). */
    constructor (shuffled: seq<nat>)
      requires IsShuffle(shuffled)
      ensures Valid() && queue == shuffled && drawn == []
    {
      queue := shuffled;
      drawn := [];
    }

    /**
     * Pops the shape at `index` (the value `randrange` returned). If that
     * empties the bag, it is refilled with the order `shuffled`.
     */
    method ObtainShape(index: nat, shuffled: seq<nat>) returns (shape: nat)
      requires Valid()
      requires index < |queue|
      requires IsShuffle(shuffled)
      modifies this
      ensures Valid()
      ensures shape == old(queue)[index] && shape < ShapeCount && shape !in old(drawn)
      ensures |old(queue)| == 1 ==> queue == shuffled && drawn == []
      ensures |old(queue)| > 1 ==> queue == RemoveAt(old(queue), index) && drawn == old(drawn) + [shape]
    {
      CycleHoldsEachShapeOnce(drawn, queue, queue[index]);
      shape := queue[index];
      queue := RemoveAt(queue, index);
      drawn := drawn + [shape];

      if queue == [] {
        queue := shuffled;
        drawn := [];
      }
    }

    /**
     * The promise of the factory's docstring: from a full bag, eighteen
     * draws return every shape exactly once, and the bag is full again after.
     */
    method DrawCycle(indices: seq<nat>, shuffled: seq<nat>) returns (shapes: seq<nat>)
      requires Valid() && drawn == []
      requires |indices| == ShapeCount
      requires forall k | 0 <= k < ShapeCount :: indices[k] < ShapeCount - k
      requires IsShuffle(shuffled)
      modifies this
      ensures multiset(shapes) == multiset(Indices(ShapeCount))
      ensures Valid() && queue == shuffled && drawn == []
    {
      assert |queue| == ShapeCount by {
        assert |multiset(queue)| == |multiset(Indices(ShapeCount))|;
      }
      shapes := [];
      var k := 0;
      while k < ShapeCount
        invariant 0 <= k <= ShapeCount
        invariant Valid()
        invariant k < ShapeCount ==> shapes == drawn && |queue| == ShapeCount - k
        invariant k == ShapeCount ==> multiset(shapes) == multiset(Indices(ShapeCount))
        invariant k == ShapeCount ==> queue == shuffled && drawn == []
      {
        ghost var before, bag := drawn, queue;
        var s := ObtainShape(indices[k], shuffled);
        shapes := shapes + [s];
        if k == ShapeCount - 1 {
          assert bag == [s];
          assert multiset(shapes) == multiset(before) + multiset(bag);
        }
        k := k + 1;
      }
    }
  }
}
