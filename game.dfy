/**
 * The game manager's board-facing rules: whether the current block may be
 * placed at a board position, and which block a spawn produces.
 */
module Game {
  import opened Constants
  import opened GridModel
  import opened Blocks

  datatype Option<T> = None | Some(value: T)

  /**
   * Every occupied cell of mask m, placed with its top-left corner at board
   * cell (px, py), lands on the board on an empty cell.
   */
  predicate Fits(g: Grid, m: Matrix, px: int, py: int)
    requires g.Valid()
  {
    forall r, c | 0 <= r < |m| && 0 <= c < |m[r]| && m[r][c] == 1 ::
      g.InBounds(px + c, py + r) && g.Get(px + c, py + r) == Empty
  }

  /** Fits, for the occupied mask cells at or after (r0, c0) in row-major order. */
  predicate FitsFrom(g: Grid, m: Matrix, px: int, py: int, r0: int, c0: int)
    requires g.Valid()
  {
    forall r, c | 0 <= r < |m| && 0 <= c < |m[r]| && (r > r0 || (r == r0 && c >= c0)) && m[r][c] == 1 ::
      g.InBounds(px + c, py + r) && g.Get(px + c, py + r) == Empty
  }

  /**
   * The nested scan of CanPlaceBlockAt from mask cell (r, c) on: false at the
   * first occupied mask cell that falls off the board or onto a grain.
   */
  function PlacementScan(g: Grid, m: Matrix, px: int, py: int, r: nat, c: nat): bool
    requires g.Valid()
    decreases |m| - r, if r < |m| then |m[r]| - c else 0
  {
    if r >= |m| then true
    else if c >= |m[r]| then PlacementScan(g, m, px, py, r + 1, 0)
    else
      var boardX, boardY := px + c, py + r;
      if m[r][c] == 1 && (boardX < 0 || boardX >= g.width || boardY < 0 || boardY >= g.height) then false
      else if m[r][c] == 1 && g.Get(boardX, boardY) != Empty then false
      else PlacementScan(g, m, px, py, r, c + 1)
  }

  /**
   * Whether the current block, if any, may be placed with its corner at
   * (px, py): exactly when there is a current block and every occupied cell of
   * its mask lands on the board on an empty cell.
   */
  function CanPlaceBlockAt(g: Grid, currentBlock: Option<Matrix>, px: int, py: int): (ok: bool)
    requires g.Valid()
    ensures ok <==> currentBlock.Some? && Fits(g, currentBlock.value, px, py)
  {
    match currentBlock
    case None => false
    case Some(m) =>
      PlacementScanIff(g, m, px, py, 0, 0);
      assert FitsFrom(g, m, px, py, 0, 0) <==> Fits(g, m, px, py);
      PlacementScan(g, m, px, py, 0, 0)
  }

  /** The scan from (r, c) succeeds exactly when the remaining occupied cells fit. */
  lemma {:induction false} PlacementScanIff(g: Grid, m: Matrix, px: int, py: int, r: nat, c: nat)
    requires g.Valid()
    ensures PlacementScan(g, m, px, py, r, c) <==> FitsFrom(g, m, px, py, r, c)
    decreases |m| - r, if r < |m| then |m[r]| - c else 0
  {
    if r >= |m| {
    } else if c >= |m[r]| {
      PlacementScanIff(g, m, px, py, r + 1, 0);
      assert FitsFrom(g, m, px, py, r, c) <==> FitsFrom(g, m, px, py, r + 1, 0);
    } else {
      var boardX, boardY := px + c, py + r;
      if m[r][c] == 1 && (!g.InBounds(boardX, boardY) || g.Get(boardX, boardY) != Empty) {
        assert !FitsFrom(g, m, px, py, r, c);
      } else {
        PlacementScanIff(g, m, px, py, r, c + 1);
        assert FitsFrom(g, m, px, py, r, c) <==> FitsFrom(g, m, px, py, r, c + 1);
      }
    }
  }

  /**
   * Stamping a block where it fits overwrites no grain, and every occupied
   * mask cell ends up on the board in the block's colour.
   */
  lemma PlacedStampKeepsGrains(g: Grid, m: Matrix, px: int, py: int, t: BlockType)
    requires g.Valid() && Fits(g, m, px, py)
    ensures forall x, y | g.Get(x, y) != Empty :: Stamp(g, m, px, py, t).Get(x, y) == g.Get(x, y)
    ensures forall r, c | 0 <= r < |m| && 0 <= c < |m[r]| && m[r][c] == 1 ::
      g.InBounds(px + c, py + r) && Stamp(g, m, px, py, t).Get(px + c, py + r) == t
  {
    var s := Stamp(g, m, px, py, t);
    forall x, y | g.Get(x, y) != Empty
      ensures s.Get(x, y) == g.Get(x, y)
    {
      var r, c := y - py, x - px;
      assert px + c == x && py + r == y;
    }
    forall r, c | 0 <= r < |m| && 0 <= c < |m[r]| && m[r][c] == 1
      ensures g.InBounds(px + c, py + r) && s.Get(px + c, py + r) == t
    {
      assert Covers(m, px, py, px + c, py + r);
    }
  }

  /**
   * A template occupied in its first and last column, scaled wider than the
   * board, fits nowhere: its leftmost or its rightmost grains fall off.
   */
  lemma WideShapeNeverFits(g: Grid, m: Matrix, k: nat, px: int, py: int)
    requires g.Valid() && IsTetromino(m) && k > 0 && Cols(m) * k > g.width
    ensures !Fits(g, Scale(m, k), px, py)
  {
    if px < 0 {
      LeftEdgeOffBoard(g, m, k, px, py);
    } else {
      RightEdgeOffBoard(g, m, k, px, py);
    }
  }

  /** Placed left of column 0, an occupied first column falls off the board. */
  lemma LeftEdgeOffBoard(g: Grid, m: Matrix, k: nat, px: int, py: int)
    requires g.Valid() && IsTetromino(m) && k > 0 && px < 0
    ensures !Fits(g, Scale(m, k), px, py)
  {
    var left :| 0 <= left < |m| && m[left][0] == 1;
    var r := left * k;
    ScaleSquare(m, k, left, 0, 0, 0, r, 0);
    assert !g.InBounds(px + 0, py + r);
  }

  /** Placed at column 0 or right of it, an occupied last column wider than the board falls off. */
  lemma RightEdgeOffBoard(g: Grid, m: Matrix, k: nat, px: int, py: int)
    requires g.Valid() && IsTetromino(m) && k > 0 && Cols(m) * k > g.width && px >= 0
    ensures !Fits(g, Scale(m, k), px, py)
  {
    var right :| 0 <= right < |m| && m[right][Cols(m) - 1] == 1;
    var r := right * k;
    var c := (Cols(m) - 1) * k + (k - 1);
    LastIndex(Cols(m), k);
    ScaleSquare(m, k, right, Cols(m) - 1, 0, k - 1, r, c);
    assert !g.InBounds(px + c, py + r);
  }

  /** The last entry of n blocks of k. */
  lemma LastIndex(n: int, k: int)
    ensures (n - 1) * k + (k - 1) == n * k - 1
  {
  }

  /**
   * With the shipped constants no catalog shape fits anywhere: every scaled
   * shape is at least 14 columns wide and occupied in its first and last
   * column, and the board is 10 columns wide.
   */
  lemma NoShippedShapeFits(g: Grid, i: int, px: int, py: int)
    requires g.Valid() && g.width == BOARD_WIDTH && 0 <= i < |TetrisShapes()|
    ensures !CanPlaceBlockAt(g, Some(Scale(TetrisShapes()[i], SCALE_FACTOR)), px, py)
  {
    var m := TetrisShapes()[i];
    CatalogShape(i);
    assert Cols(m) * SCALE_FACTOR >= 14;
    WideShapeNeverFits(g, m, SCALE_FACTOR, px, py);
  }

  /** On an empty board at least as large as the scaled mask, the block fits at the top-left corner. */
  lemma ScaledShapeFitsBlank(m: Matrix, k: nat, width: nat, height: nat)
    requires IsRect(m) && Cols(m) * k <= width && |m| * k <= height
    ensures CanPlaceBlockAt(Blank(width, height), Some(Scale(m, k)), 0, 0)
  {
    var g, s := Blank(width, height), Scale(m, k);
    ScaleDims(m, k);
    forall r, c | 0 <= r < |s| && 0 <= c < |s[r]| && s[r][c] == 1
      ensures g.InBounds(0 + c, 0 + r) && g.Get(0 + c, 0 + r) == Empty
    {
      assert |s[r]| == Cols(m) * k;
    }
  }

  /**
   * With the board measured in grains (BOARD_WIDTH * SCALE_FACTOR columns,
   * BOARD_HEIGHT * SCALE_FACTOR rows) every catalog shape fits on the empty board.
   */
  lemma ShapesFitGrainBoard(i: int)
    requires 0 <= i < |TetrisShapes()|
    ensures CanPlaceBlockAt(Blank(BOARD_WIDTH * SCALE_FACTOR, BOARD_HEIGHT * SCALE_FACTOR),
                            Some(Scale(TetrisShapes()[i], SCALE_FACTOR)), 0, 0)
  {
    var m := TetrisShapes()[i];
    CatalogShape(i);
    assert Cols(m) * SCALE_FACTOR <= BOARD_WIDTH * SCALE_FACTOR;
    assert |m| * SCALE_FACTOR <= BOARD_HEIGHT * SCALE_FACTOR;
    ScaledShapeFitsBlank(m, SCALE_FACTOR, BOARD_WIDTH * SCALE_FACTOR, BOARD_HEIGHT * SCALE_FACTOR);
  }

  /** A scaled tetromino is a 0/1 mask of k * k * 4 grains, rows * k by cols * k. */
  lemma ScaledTetromino(m: Matrix, k: nat)
    requires IsTetromino(m)
    ensures var s := Scale(m, k);
      IsMask(s) && Ones(s) == k * k * 4 && |s| == |m| * k && Cols(s) == Cols(m) * k
  {
    ScaleDims(m, k);
    ScaleMask(m, k);
    ScaleOnes(m, k);
    assert Ones(m) == 4;
  }

  /**
   * The colour roll of a spawn (1 to 4) never gives Empty, and the spawned
   * mask is a 0/1 mask of k * k grains per template cell: k * k * 4 grains in all.
   */
  lemma SpawnedBlock(shapeRoll: int, colourRoll: int, k: nat)
    requires 0 <= shapeRoll < |TetrisShapes()| && 1 <= colourRoll < 5
    ensures FromOrdinal(colourRoll) != Empty
    ensures var s := Scale(TetrisShapes()[shapeRoll], k);
      IsMask(s) && Ones(s) == k * k * 4
      && |s| == |TetrisShapes()[shapeRoll]| * k && Cols(s) == Cols(TetrisShapes()[shapeRoll]) * k
  {
    CatalogShape(shapeRoll);
    ScaledTetromino(TetrisShapes()[shapeRoll], k);
  }

  /**
   * Spawns a block of catalog shape shapeRoll in colour colourRoll; the two
   * rolls are the values Random.Range(0, 7) and Random.Range(1, 5) returned.
   */
  method SpawnNewBlock(shapeRoll: int, colourRoll: int, k: nat) returns (currentBlock: Block)
    requires 0 <= shapeRoll < |TetrisShapes()| && 1 <= colourRoll < 5
    ensures fresh(currentBlock)
    ensures currentBlock.shapeIndex == shapeRoll && currentBlock.blockType == FromOrdinal(colourRoll)
    ensures currentBlock.blockType != Empty
    ensures currentBlock.Mask() == Scale(TetrisShapes()[shapeRoll], k)
  {
    currentBlock := new Block();
    var shapeIndex := shapeRoll;
    var blockType := FromOrdinal(colourRoll);
    currentBlock.Initialize(shapeIndex, blockType, k);
  }
}
