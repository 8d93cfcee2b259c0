/**
 * One gravity step over a board value (Board.UpdateStep).
 *
 * Rows are scanned from height - 2 up to 0 and each row left to right. A grain
 * falls straight down when it can; otherwise it slides down-left or down-right.
 * The right slide also needs the cell beside the grain, (x + 1, y), to be empty;
 * the left slide does not look at (x - 1, y). When both slides are open a random
 * bit picks one; the model receives that bit as pickLeft(x, y).
 */
module Gravity {
  import opened Constants
  import opened GridModel

  /** What happens to the grain at one cell during the scan. */
  datatype Move = Stay | Down | DownLeft | DownRight

  /** One grain moved during a step, from one cell to another. */
  datatype Shift = Shift(from: Pos, to: Pos)

  /** The board after a step, with the moves the step made, in scan order. */
  datatype Pass = Pass(grid: Grid, shifts: seq<Shift>)

  function Target(x: int, y: int, m: Move): Pos
  {
    match m
    case Stay => Pos(x, y)
    case Down => Pos(x, y + 1)
    case DownLeft => Pos(x - 1, y + 1)
    case DownRight => Pos(x + 1, y + 1)
  }

  /** The cell straight below is on the board and empty. */
  predicate CanFall(g: Grid, x: int, y: int)
    requires g.Valid()
  {
    y + 1 < g.height && g.Get(x, y + 1) == Empty
  }

  /** The cell down-left is on the board and empty. */
  predicate CanGoLeft(g: Grid, x: int, y: int)
    requires g.Valid()
  {
    x - 1 >= 0 && y + 1 < g.height && g.Get(x - 1, y + 1) == Empty
  }

  /** The cell down-right and the cell to the right are on the board and empty. */
  predicate CanGoRight(g: Grid, x: int, y: int)
    requires g.Valid()
  {
    x + 1 < g.width && y + 1 < g.height && g.Get(x + 1, y + 1) == Empty && g.Get(x + 1, y) == Empty
  }

  /** The cell holds a grain that has somewhere to go. */
  predicate CanMove(g: Grid, x: int, y: int)
    requires g.Valid()
  {
    g.Get(x, y) != Empty && (CanFall(g, x, y) || CanGoLeft(g, x, y) || CanGoRight(g, x, y))
  }

  /** The decision UpdateStep takes for the grain at (x, y). */
  function Decide(g: Grid, x: int, y: int, pickLeft: bool): (m: Move)
    requires g.Valid()
    ensures (m != Stay) == CanMove(g, x, y)
    ensures m != Stay ==>
      var to := Target(x, y, m);
      g.InBounds(x, y) && g.InBounds(to.x, to.y) && g.At(to) == Empty && to.y == y + 1
    ensures (m == Down) == (g.Get(x, y) != Empty && CanFall(g, x, y))
    ensures m == DownLeft ==> CanGoLeft(g, x, y) && (pickLeft || !CanGoRight(g, x, y))
    ensures m == DownRight ==> CanGoRight(g, x, y) && (!pickLeft || !CanGoLeft(g, x, y))
    ensures y >= g.height - 1 ==> m == Stay
  {
    var cell := g.Get(x, y);
    if cell == Empty then Stay
    else if y + 1 < g.height && g.Get(x, y + 1) == Empty then Down
    else
      var canGoLeft := x - 1 >= 0 && y + 1 < g.height && g.Get(x - 1, y + 1) == Empty;
      var canGoRight := x + 1 < g.width && y + 1 < g.height &&
                        g.Get(x + 1, y + 1) == Empty && g.Get(x + 1, y) == Empty;
      if canGoLeft && canGoRight then (if pickLeft then DownLeft else DownRight)
      else if canGoLeft then DownLeft
      else if canGoRight then DownRight
      else Stay
  }

  /** Carry out a decision: write the grain at its target, then empty its old cell. */
  function Apply(g: Grid, x: int, y: int, m: Move): (r: Grid)
    requires g.Valid()
    ensures r.Valid() && r.width == g.width && r.height == g.height
  {
    if m == Stay then g
    else
      var to := Target(x, y, m);
      g.Set(to.x, to.y, g.Get(x, y)).Set(x, y, Empty)
  }

  /** The rest of a step: cells x.. of row y, then every cell of rows y - 1 down to 0. */
  function ScanFrom(g: Grid, y: int, x: nat, pickLeft: (int, int) -> bool): (r: Pass)
    requires g.Valid() && x <= g.width
    ensures r.grid.Valid() && r.grid.width == g.width && r.grid.height == g.height
    decreases y + 1, g.width - x
  {
    if y < 0 then Pass(g, [])
    else if x == g.width then ScanFrom(g, y - 1, 0, pickLeft)
    else
      var m := Decide(g, x, y, pickLeft(x, y));
      var rest := ScanFrom(Apply(g, x, y, m), y, x + 1, pickLeft);
      Pass(rest.grid, (if m == Stay then [] else [Shift(Pos(x, y), Target(x, y, m))]) + rest.shifts)
  }

  /** One whole step, as UpdateStep performs it. */
  function Step(g: Grid, pickLeft: (int, int) -> bool): Pass
    requires g.Valid()
  {
    ScanFrom(g, g.height - 2, 0, pickLeft)
  }

  /** No grain on the board can move: UpdateStep would report nothing fell. */
  predicate Settled(g: Grid)
    requires g.Valid()
  {
    forall x, y | 0 <= x < g.width && 0 <= y < g.height - 1 :: !CanMove(g, x, y)
  }

  /** No grain among the cells the rest of the scan from (x, y) visits can move. */
  predicate SettledFrom(g: Grid, y: int, x: int)
    requires g.Valid()
  {
    forall i, j | 0 <= i < g.width && 0 <= j <= y && (j < y || x <= i) :: !CanMove(g, i, j)
  }

  /** A one-row drop between two cells of the board, to the same or a neighbouring column. */
  predicate IsDrop(width: int, height: int, s: Shift)
  {
    && 0 <= s.from.x < width && 0 <= s.from.y < height && 0 <= s.to.x < width && 0 <= s.to.y < height
    && s.to.y == s.from.y + 1 && s.from.x - 1 <= s.to.x <= s.from.x + 1
  }

  /** Scan order: p is visited before q (lower rows first, then left to right). */
  predicate ScannedBefore(p: Pos, q: Pos)
  {
    p.y > q.y || (p.y == q.y && p.x < q.x)
  }

  // ---------------------------------------------------------------------------
  // One move

  /** A move only relocates a grain: the count of every material is unchanged. */
  lemma MoveContents(g: Grid, x: int, y: int, pickLeft: bool)
    requires g.Valid()
    ensures Apply(g, x, y, Decide(g, x, y, pickLeft)).Contents() == g.Contents()
  {
    var m := Decide(g, x, y, pickLeft);
    if m != Stay {
      var to := Target(x, y, m);
      var cell := g.Get(x, y);
      var g1 := g.Set(to.x, to.y, cell);
      SetContents(g, to.x, to.y, cell);
      assert g1.Get(x, y) == cell;
      SetContents(g1, x, y, Empty);
      var g2 := g1.Set(x, y, Empty);
      assert g2.Contents() + multiset{cell} == g.Contents() + multiset{cell};
      forall t
        ensures g2.Contents()[t] == g.Contents()[t]
      {
        assert (g2.Contents() + multiset{cell})[t] == (g.Contents() + multiset{cell})[t];
      }
    }
  }

  /** A move lowers the grain by one row, so the height potential drops by exactly one. */
  lemma MoveWeight(g: Grid, x: int, y: int, pickLeft: bool)
    requires g.Valid()
    ensures var m := Decide(g, x, y, pickLeft);
      Apply(g, x, y, m).Weight() + (if m == Stay then 0 else 1) == g.Weight()
  {
    var m := Decide(g, x, y, pickLeft);
    if m != Stay {
      var to := Target(x, y, m);
      var cell := g.Get(x, y);
      var g1 := g.Set(to.x, to.y, cell);
      SetWeight(g, to.x, to.y, cell);
      assert g1.Get(x, y) == cell;
      SetWeight(g1, x, y, Empty);
    }
  }

  // ---------------------------------------------------------------------------
  // The scan

  /** Scanning from a cell: decide and move that cell, then scan on from its right neighbour. */
  lemma ScanCell(g: Grid, y: int, x: nat, pickLeft: (int, int) -> bool)
    requires g.Valid() && 0 <= y && x < g.width
    ensures var m := Decide(g, x, y, pickLeft(x, y));
      var rest := ScanFrom(Apply(g, x, y, m), y, x + 1, pickLeft);
      && ScanFrom(g, y, x, pickLeft).grid == rest.grid
      && ScanFrom(g, y, x, pickLeft).shifts ==
           (if m == Stay then [] else [Shift(Pos(x, y), Target(x, y, m))]) + rest.shifts
  {
  }

  /** Past the end of a row the scan goes on at the start of the row above. */
  lemma ScanRowEnd(g: Grid, y: int, pickLeft: (int, int) -> bool)
    requires g.Valid() && 0 <= y
    ensures ScanFrom(g, y, g.width, pickLeft) == ScanFrom(g, y - 1, 0, pickLeft)
  {
  }

  lemma {:induction false} ScanContents(g: Grid, y: int, x: nat, pickLeft: (int, int) -> bool)
    requires g.Valid() && x <= g.width
    ensures ScanFrom(g, y, x, pickLeft).grid.Contents() == g.Contents()
    decreases y + 1, g.width - x
  {
    if y < 0 {
    } else if x == g.width {
      ScanRowEnd(g, y, pickLeft);
      ScanContents(g, y - 1, 0, pickLeft);
    } else {
      ScanCell(g, y, x, pickLeft);
      var m := Decide(g, x, y, pickLeft(x, y));
      MoveContents(g, x, y, pickLeft(x, y));
      ScanContents(Apply(g, x, y, m), y, x + 1, pickLeft);
    }
  }

  lemma {:induction false} ScanWeight(g: Grid, y: int, x: nat, pickLeft: (int, int) -> bool)
    requires g.Valid() && x <= g.width
    ensures var r := ScanFrom(g, y, x, pickLeft); r.grid.Weight() + |r.shifts| == g.Weight()
    decreases y + 1, g.width - x
  {
    if y < 0 {
    } else if x == g.width {
      ScanRowEnd(g, y, pickLeft);
      ScanWeight(g, y - 1, 0, pickLeft);
    } else {
      ScanCell(g, y, x, pickLeft);
      var m := Decide(g, x, y, pickLeft(x, y));
      MoveWeight(g, x, y, pickLeft(x, y));
      ScanWeight(Apply(g, x, y, m), y, x + 1, pickLeft);
    }
  }

  lemma {:induction false} ScanUnchanged(g: Grid, y: int, x: nat, pickLeft: (int, int) -> bool)
    requires g.Valid() && x <= g.width
    ensures var r := ScanFrom(g, y, x, pickLeft); r.shifts == [] ==> r.grid == g
    decreases y + 1, g.width - x
  {
    if y < 0 {
    } else if x == g.width {
      ScanRowEnd(g, y, pickLeft);
      ScanUnchanged(g, y - 1, 0, pickLeft);
    } else {
      ScanCell(g, y, x, pickLeft);
      var m := Decide(g, x, y, pickLeft(x, y));
      ScanUnchanged(Apply(g, x, y, m), y, x + 1, pickLeft);
    }
  }

  lemma {:induction false} ScanSettled(g: Grid, y: int, x: nat, pickLeft: (int, int) -> bool)
    requires g.Valid() && x <= g.width
    ensures ScanFrom(g, y, x, pickLeft).shifts == [] <==> SettledFrom(g, y, x)
    decreases y + 1, g.width - x
  {
    if y < 0 {
    } else if x == g.width {
      ScanRowEnd(g, y, pickLeft);
      ScanSettled(g, y - 1, 0, pickLeft);
      SettledRowEnd(g, y);
    } else {
      ScanCell(g, y, x, pickLeft);
      SettledCell(g, y, x);
      if Decide(g, x, y, pickLeft(x, y)) == Stay {
        ScanSettled(g, y, x + 1, pickLeft);
      }
    }
  }

  /** A scan position at the end of a row settles what the start of the row above settles. */
  lemma SettledRowEnd(g: Grid, y: int)
    requires g.Valid()
    ensures SettledFrom(g, y, g.width) <==> SettledFrom(g, y - 1, 0)
  {
  }

  /** From (x, y) on nothing moves iff the grain at (x, y) stays and nothing moves from (x + 1, y) on. */
  lemma SettledCell(g: Grid, y: int, x: int)
    requires g.Valid() && 0 <= y && 0 <= x < g.width
    ensures SettledFrom(g, y, x) <==> !CanMove(g, x, y) && SettledFrom(g, y, x + 1)
  {
  }

  /** Every shift of s is a one-row drop from a cell a scan resumed at (x, y) still visits. */
  predicate DropsFrom(width: int, height: int, s: seq<Shift>, y: int, x: int)
  {
    forall i | 0 <= i < |s| ::
      IsDrop(width, height, s[i]) && s[i].from.y <= y && (s[i].from.y == y ==> x <= s[i].from.x)
  }

  /** The shifts start at cells in strict scan order. */
  predicate InScanOrder(s: seq<Shift>)
  {
    forall i, j | 0 <= i < j < |s| :: ScannedBefore(s[i].from, s[j].from)
  }

  /** Putting the move made at (x, y) in front of the moves of the rest of the scan. */
  lemma ConsShift(width: int, height: int, sh: Shift, rest: seq<Shift>, y: int, x: int)
    requires IsDrop(width, height, sh) && sh.from == Pos(x, y)
    requires DropsFrom(width, height, rest, y, x + 1) && InScanOrder(rest)
    ensures DropsFrom(width, height, [sh] + rest, y, x) && InScanOrder([sh] + rest)
  {
    var s := [sh] + rest;
    forall i | 1 <= i < |s|
      ensures s[i] == rest[i - 1]
    {
    }
  }

  /** Drops from the row above are drops from the end of this row. */
  lemma DropsRowEnd(width: int, height: int, s: seq<Shift>, y: int)
    requires DropsFrom(width, height, s, y - 1, 0)
    ensures DropsFrom(width, height, s, y, width)
  {
  }

  /** Drops from (x + 1, y) on are drops from (x, y) on. */
  lemma DropsWiden(width: int, height: int, s: seq<Shift>, y: int, x: int)
    requires DropsFrom(width, height, s, y, x + 1)
    ensures DropsFrom(width, height, s, y, x)
  {
  }

  /** Every move the scan makes is a one-row drop from a cell the scan visits, made in scan order. */
  lemma {:induction false} ScanShifts(g: Grid, y: int, x: nat, pickLeft: (int, int) -> bool)
    requires g.Valid() && x <= g.width
    ensures DropsFrom(g.width, g.height, ScanFrom(g, y, x, pickLeft).shifts, y, x)
    ensures InScanOrder(ScanFrom(g, y, x, pickLeft).shifts)
    decreases y + 1, g.width - x
  {
    if y < 0 {
    } else if x == g.width {
      ScanRowEnd(g, y, pickLeft);
      ScanShifts(g, y - 1, 0, pickLeft);
      DropsRowEnd(g.width, g.height, ScanFrom(g, y - 1, 0, pickLeft).shifts, y);
    } else {
      ScanCell(g, y, x, pickLeft);
      var m := Decide(g, x, y, pickLeft(x, y));
      var g' := Apply(g, x, y, m);
      ScanShifts(g', y, x + 1, pickLeft);
      var rest := ScanFrom(g', y, x + 1, pickLeft).shifts;
      if m != Stay {
        ConsShift(g.width, g.height, Shift(Pos(x, y), Target(x, y, m)), rest, y, x);
      } else {
        DropsWiden(g.width, g.height, rest, y, x);
        assert [] + rest == rest;
      }
    }
  }

  // ---------------------------------------------------------------------------
  // Properties of a whole step

  /** Grains are only moved by a step, never created or destroyed. */
  lemma StepConservesMaterial(g: Grid, pickLeft: (int, int) -> bool)
    requires g.Valid()
    ensures Step(g, pickLeft).grid.Contents() == g.Contents()
    ensures forall t :: Step(g, pickLeft).grid.Contents()[t] == g.Contents()[t]
  {
    ScanContents(g, g.height - 2, 0, pickLeft);
  }

  /** Every move lowers one grain by one row. */
  lemma StepLowersPotential(g: Grid, pickLeft: (int, int) -> bool)
    requires g.Valid()
    ensures Step(g, pickLeft).grid.Weight() + |Step(g, pickLeft).shifts| == g.Weight()
  {
    ScanWeight(g, g.height - 2, 0, pickLeft);
  }

  /** A step reports movement exactly when it changed the board. */
  lemma StepMovedIffChanged(g: Grid, pickLeft: (int, int) -> bool)
    requires g.Valid()
    ensures Step(g, pickLeft).shifts == [] <==> Step(g, pickLeft).grid == g
  {
    ScanUnchanged(g, g.height - 2, 0, pickLeft);
    ScanWeight(g, g.height - 2, 0, pickLeft);
  }

  /** A step moves nothing exactly when no grain can move, whatever the random bits. */
  lemma StepSettledIff(g: Grid, pickLeft: (int, int) -> bool)
    requires g.Valid()
    ensures Step(g, pickLeft).shifts == [] <==> Settled(g)
  {
    ScanSettled(g, g.height - 2, 0, pickLeft);
    assert Settled(g) <==> SettledFrom(g, g.height - 2, 0);
  }

  /**
   * Each move goes one row down from a row above the bottom one, and no grain
   * moves twice: a later move never starts where an earlier one ended, nor
   * where an earlier one started.
   */
  lemma StepMovesEachGrainOnce(g: Grid, pickLeft: (int, int) -> bool)
    requires g.Valid()
    ensures var s := Step(g, pickLeft).shifts;
      && (forall i | 0 <= i < |s| :: IsDrop(g.width, g.height, s[i]) && s[i].from.y < g.height - 1)
      && (forall i, j | 0 <= i < j < |s| :: s[j].from != s[i].to && s[j].from != s[i].from)
  {
    ScanShifts(g, g.height - 2, 0, pickLeft);
    var s := Step(g, pickLeft).shifts;
    assert DropsFrom(g.width, g.height, s, g.height - 2, 0) && InScanOrder(s);
    forall i, j | 0 <= i < j < |s|
      ensures s[j].from != s[i].to && s[j].from != s[i].from
    {
      assert ScannedBefore(s[i].from, s[j].from);
      assert IsDrop(g.width, g.height, s[i]);
    }
  }
}
