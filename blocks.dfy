/**
 * A falling block: a catalog template blown up by the scale factor into a
 * mask of grains, and the stamping of that mask onto the board when the block
 * lands ("sandify").
 */
module Blocks {
  import opened Constants
  import opened GridModel
  import opened SandBoard

  // ---------------------------------------------------------------------------
  // Scaling a template
  // ---------------------------------------------------------------------------

  /** k copies of v. */
  function Repeat<T>(v: T, k: nat): (s: seq<T>)
    ensures |s| == k && forall i | 0 <= i < k :: s[i] == v
  {
    if k == 0 then [] else [v] + Repeat(v, k - 1)
  }

  /** A template row with every entry widened into k copies. */
  function ScaleRow(row: seq<int>, k: nat): (s: seq<int>)
    ensures |s| == |row| * k
  {
    if row == [] then [] else Repeat(row[0], k) + ScaleRow(row[1..], k)
  }

  /** A template with every entry blown up into a k x k square. */
  function Scale(m: Matrix, k: nat): (s: Matrix)
    ensures |s| == |m| * k
  {
    if m == [] then [] else Repeat(ScaleRow(m[0], k), k) + Scale(m[1..], k)
  }

  /** Offset o of widened entry b, at index i = b * k + o, is template entry b. */
  lemma {:induction false} ScaleRowBlock(row: seq<int>, k: nat, b: nat, o: nat, i: int)
    requires b < |row| && o < k && i == b * k + o
    ensures 0 <= i < |ScaleRow(row, k)| && ScaleRow(row, k)[i] == row[b]
    decreases b
  {
    var head := Repeat(row[0], k);
    assert ScaleRow(row, k) == head + ScaleRow(row[1..], k);
    if b > 0 {
      BlockShift(b, k, o);
      ScaleRowBlock(row[1..], k, b - 1, o, i - k);
      assert row[1..][b - 1] == row[b];
    } else {
      assert i == o;
      assert ScaleRow(row, k)[i] == head[o];
    }
  }

  /** Row o of the square for template row b, at index i = b * k + o, is template row b widened. */
  lemma {:induction false} ScaleBlock(m: Matrix, k: nat, b: nat, o: nat, i: int)
    requires b < |m| && o < k && i == b * k + o
    ensures 0 <= i < |Scale(m, k)| && Scale(m, k)[i] == ScaleRow(m[b], k)
    decreases b
  {
    var head := Repeat(ScaleRow(m[0], k), k);
    assert Scale(m, k) == head + Scale(m[1..], k);
    if b > 0 {
      BlockShift(b, k, o);
      ScaleBlock(m[1..], k, b - 1, o, i - k);
      assert m[1..][b - 1] == m[b];
    } else {
      assert i == o;
      assert Scale(m, k)[i] == head[o];
    }
  }

  /** Entry c of a widened row is row entry c / k. */
  lemma ScaleRowEntry(row: seq<int>, k: nat, c: int)
    requires 0 < k && 0 <= c < |row| * k
    ensures 0 <= c / k < |row| && c < |ScaleRow(row, k)| && ScaleRow(row, k)[c] == row[c / k]
  {
    Split(c, k, |row|);
    ScaleRowBlock(row, k, c / k, c % k, c);
  }

  /** Every cell of the square blown up from template cell [b][j] holds that cell's value. */
  lemma ScaleSquare(m: Matrix, k: nat, b: nat, j: nat, o1: nat, o2: nat, r: int, c: int)
    requires IsRect(m) && b < |m| && j < Cols(m) && o1 < k && o2 < k
    requires r == b * k + o1 && c == j * k + o2
    ensures 0 <= r < |Scale(m, k)| && 0 <= c < |Scale(m, k)[r]| && Scale(m, k)[r][c] == m[b][j]
  {
    ScaleBlock(m, k, b, o1, r);
    ScaleRowBlock(m[b], k, j, o2, c);
  }

  /** Block b starts one whole block after block b - 1. */
  lemma BlockShift(b: int, k: int, o: int)
    ensures b * k + o - k == (b - 1) * k + o
  {
  }

  /** Index i below n * k splits into block i / k below n and offset i % k. */
  lemma Split(i: int, k: int, n: int)
    requires 0 <= i < n * k && 0 < k
    ensures 0 <= i / k < n && 0 <= i % k < k && i == (i / k) * k + i % k
  {
    var b := i / k;
    if b >= n {
      MulMono(b, n, k);
      assert false;
    }
  }

  /** Division by k is determined by the block and offset. */
  lemma DivUnique(i: int, k: int, q: int, r: int)
    requires 0 < k && i == q * k + r && 0 <= r < k
    ensures i / k == q
  {
    var q', r' := i / k, i % k;
    if q' > q {
      MulMono(q', q + 1, k);
      assert false;
    } else if q' < q {
      MulMono(q, q' + 1, k);
      assert false;
    }
  }

  lemma MulMono(a: int, b: int, k: int)
    requires a >= b && k > 0
    ensures a * k >= b * k
  {
  }

  /** Row r of a scaled template is template row r / k, widened. */
  lemma ScaleRowAt(m: Matrix, k: nat, r: int)
    requires IsRect(m) && 0 <= r < |m| * k
    ensures k > 0 && 0 <= r / k < |m| && Scale(m, k)[r] == ScaleRow(m[r / k], k)
    ensures |Scale(m, k)[r]| == Cols(m) * k
  {
    if k == 0 {
      assert false;
    }
    Split(r, k, |m|);
    ScaleBlock(m, k, r / k, r % k, r);
  }

  /** Entry [r][c] of a scaled template is template entry [r / k][c / k]. */
  lemma ScaleAt(m: Matrix, k: nat, r: int, c: int)
    requires IsRect(m) && 0 <= r < |m| * k && 0 <= c < Cols(m) * k
    ensures k > 0 && 0 <= r / k < |m| && 0 <= c / k < Cols(m) && c < |Scale(m, k)[r]|
    ensures Scale(m, k)[r][c] == m[r / k][c / k]
  {
    ScaleRowAt(m, k, r);
    Split(c, k, Cols(m));
    ScaleRowBlock(m[r / k], k, c / k, c % k, c);
  }

  /** A scaled template has rows * k rows of cols * k entries each. */
  lemma ScaleDims(m: Matrix, k: nat)
    requires IsRect(m)
    ensures IsRect(Scale(m, k)) && Cols(Scale(m, k)) == Cols(m) * k
    ensures forall r | 0 <= r < |Scale(m, k)| :: |Scale(m, k)[r]| == Cols(m) * k
  {
    forall r | 0 <= r < |m| * k
      ensures |Scale(m, k)[r]| == Cols(m) * k
    {
      ScaleRowAt(m, k, r);
    }
    if |m| * k > 0 {
      ScaleRowAt(m, k, 0);
    }
  }

  /** Scaling a 0/1 mask gives a 0/1 mask. */
  lemma ScaleMask(m: Matrix, k: nat)
    requires IsMask(m)
    ensures IsMask(Scale(m, k))
  {
    ScaleDims(m, k);
    var s := Scale(m, k);
    forall r, c | 0 <= r < |s| && 0 <= c < |s[r]|
      ensures s[r][c] == 0 || s[r][c] == 1
    {
      ScaleAt(m, k, r, c);
    }
  }

  lemma {:induction false} RowOnesConcat(a: seq<int>, b: seq<int>)
    ensures RowOnes(a + b) == RowOnes(a) + RowOnes(b)
    decreases |a|
  {
    if a != [] {
      assert (a + b)[1..] == a[1..] + b;
      RowOnesConcat(a[1..], b);
    } else {
      assert a + b == b;
    }
  }

  lemma {:induction false} OnesConcat(a: Matrix, b: Matrix)
    ensures Ones(a + b) == Ones(a) + Ones(b)
    decreases |a|
  {
    if a != [] {
      assert (a + b)[1..] == a[1..] + b;
      OnesConcat(a[1..], b);
    } else {
      assert a + b == b;
    }
  }

  lemma {:induction false} RowOnesRepeat(v: int, k: nat)
    ensures RowOnes(Repeat(v, k)) == if v == 1 then k else 0
  {
    if k > 0 {
      RowOnesConcat([v], Repeat(v, k - 1));
      RowOnesRepeat(v, k - 1);
    }
  }

  lemma {:induction false} OnesRepeat(row: seq<int>, k: nat)
    ensures Ones(Repeat(row, k)) == k * RowOnes(row)
  {
    if k > 0 {
      OnesConcat([row], Repeat(row, k - 1));
      OnesRepeat(row, k - 1);
    }
  }

  /** Widening a row by k multiplies its occupied entries by k. */
  lemma {:induction false} RowOnesScale(row: seq<int>, k: nat)
    ensures RowOnes(ScaleRow(row, k)) == k * RowOnes(row)
    decreases |row|
  {
    if row != [] {
      RowOnesConcat(Repeat(row[0], k), ScaleRow(row[1..], k));
      RowOnesRepeat(row[0], k);
      RowOnesScale(row[1..], k);
      var h := if row[0] == 1 then 1 else 0;
      assert RowOnes(row) == h + RowOnes(row[1..]);
      assert RowOnes(Repeat(row[0], k)) == k * h;
      Distribute(k, h, RowOnes(row[1..]));
    }
  }

  /** Blowing a template up by k multiplies its occupied cells by k * k. */
  lemma {:induction false} ScaleOnes(m: Matrix, k: nat)
    ensures Ones(Scale(m, k)) == k * k * Ones(m)
    decreases |m|
  {
    if m != [] {
      OnesConcat(Repeat(ScaleRow(m[0], k), k), Scale(m[1..], k));
      OnesRepeat(ScaleRow(m[0], k), k);
      RowOnesScale(m[0], k);
      ScaleOnes(m[1..], k);
      SquareSum(k, RowOnes(m[0]), Ones(m[1..]));
    }
  }

  lemma Distribute(k: int, a: int, b: int)
    ensures k * a + k * b == k * (a + b)
  {
  }

  lemma SquareSum(k: int, a: int, o: int)
    ensures k * (k * a) + k * k * o == k * k * (a + o)
  {
  }

  /** A 2D array read row by row. */
  function View(a: array2<int>): (v: Matrix)
    reads a
    ensures |v| == a.Length0 && IsRect(v) && (|v| > 0 ==> Cols(v) == a.Length1)
    ensures forall r, c | 0 <= r < a.Length0 && 0 <= c < a.Length1 :: |v[r]| == a.Length1 && v[r][c] == a[r, c]
  {
    seq(a.Length0, r requires 0 <= r < a.Length0 reads a =>
      seq(a.Length1, c requires 0 <= c < a.Length1 reads a => a[r, c]))
  }

  /** Two matrices with the same rows entry by entry are equal. */
  lemma SameMatrix(a: Matrix, b: Matrix)
    requires |a| == |b| && forall r | 0 <= r < |a| :: |a[r]| == |b[r]|
    requires forall r, c | 0 <= r < |a| && 0 <= c < |a[r]| :: a[r][c] == b[r][c]
    ensures a == b
  {
    forall r | 0 <= r < |a|
      ensures a[r] == b[r]
    {
    }
  }

  /** Fills a fresh rows * k by cols * k array with the template blown up by k. */
  method CreateScaledMatrix(baseMatrix: Matrix, k: nat) returns (scaledMatrix: array2<int>)
    requires IsRect(baseMatrix)
    ensures fresh(scaledMatrix)
    ensures scaledMatrix.Length0 == |baseMatrix| * k && scaledMatrix.Length1 == Cols(baseMatrix) * k
    ensures View(scaledMatrix) == Scale(baseMatrix, k)
  {
    var baseRows := |baseMatrix|;
    var baseCols := Cols(baseMatrix);
    var scaledRows := baseRows * k;
    var scaledCols := baseCols * k;
    scaledMatrix := new int[scaledRows, scaledCols];
    ghost var s := Scale(baseMatrix, k);
    ScaleDims(baseMatrix, k);
    for r := 0 to scaledRows
      invariant forall i, j | 0 <= i < r && 0 <= j < scaledCols :: scaledMatrix[i, j] == s[i][j]
    {
      FillScaledRow(baseMatrix, k, scaledMatrix, r);
    }
    SameMatrix(View(scaledMatrix), s);
  }

  /** The inner loop of CreateScaledMatrix: fills row r of the scaled matrix and no other. */
  method FillScaledRow(baseMatrix: Matrix, k: nat, scaledMatrix: array2<int>, r: int)
    requires IsRect(baseMatrix) && 0 <= r < scaledMatrix.Length0
    requires scaledMatrix.Length0 == |baseMatrix| * k && scaledMatrix.Length1 == Cols(baseMatrix) * k
    modifies scaledMatrix
    ensures forall j | 0 <= j < scaledMatrix.Length1 :: j < |Scale(baseMatrix, k)[r]| && scaledMatrix[r, j] == Scale(baseMatrix, k)[r][j]
    ensures forall i, j | 0 <= i < scaledMatrix.Length0 && i != r && 0 <= j < scaledMatrix.Length1 ::
      scaledMatrix[i, j] == old(scaledMatrix[i, j])
  {
    ScaleRowAt(baseMatrix, k, r);
    ghost var row := Scale(baseMatrix, k)[r];
    for c := 0 to scaledMatrix.Length1
      invariant forall j | 0 <= j < c :: j < |row| && scaledMatrix[r, j] == row[j]
      invariant forall i, j | 0 <= i < scaledMatrix.Length0 && i != r && 0 <= j < scaledMatrix.Length1 ::
        scaledMatrix[i, j] == old(scaledMatrix[i, j])
    {
      var baseRow := r / k;
      ScaleRowEntry(baseMatrix[baseRow], k, c);
      var baseCol := c / k;
      scaledMatrix[r, c] := baseMatrix[baseRow][baseCol];
    }
  }

  // ---------------------------------------------------------------------------
  // Stamping a mask onto the board
  // ---------------------------------------------------------------------------

  /** Board cell (x, y) lies under an occupied cell of the mask placed with its corner at (px, py). */
  predicate Covers(m: Matrix, px: int, py: int, x: int, y: int)
  {
    var r, c := y - py, x - px;
    0 <= r < |m| && 0 <= c < |m[r]| && m[r][c] == 1
  }

  /** Covers, by a mask cell the row-major scan visits before mask cell (r0, c0). */
  predicate CoveredBefore(m: Matrix, px: int, py: int, x: int, y: int, r0: int, c0: int)
  {
    Covers(m, px, py, x, y) && (y - py < r0 || (y - py == r0 && x - px < c0))
  }

  /** The board after the mask cells before (r0, c0) have been stamped with t. */
  function StampPart(g: Grid, m: Matrix, px: int, py: int, t: BlockType, r0: int, c0: int): (s: Grid)
    requires g.Valid()
    ensures s.Valid() && s.width == g.width && s.height == g.height
    ensures forall x, y :: s.Get(x, y) == if g.InBounds(x, y) && CoveredBefore(m, px, py, x, y, r0, c0) then t else g.Get(x, y)
  {
    Grid(g.width, g.height,
      seq(g.width, x requires 0 <= x < g.width =>
        seq(g.height, y requires 0 <= y < g.height =>
          if CoveredBefore(m, px, py, x, y, r0, c0) then t else g.cols[x][y])))
  }

  /**
   * The board after the whole mask has been stamped with t: every board cell
   * under an occupied mask cell now holds t, occupied mask cells that fall
   * off the board are dropped, and every other cell keeps its material.
   */
  function Stamp(g: Grid, m: Matrix, px: int, py: int, t: BlockType): (s: Grid)
    requires g.Valid()
    ensures s.Valid() && s.width == g.width && s.height == g.height
    ensures forall x, y | g.InBounds(x, y) && Covers(m, px, py, x, y) :: s.Get(x, y) == t
    ensures forall x, y | !(g.InBounds(x, y) && Covers(m, px, py, x, y)) :: s.Get(x, y) == g.Get(x, y)
  {
    StampPart(g, m, px, py, t, |m|, 0)
  }

  lemma StampStart(g: Grid, m: Matrix, px: int, py: int, t: BlockType)
    requires g.Valid()
    ensures StampPart(g, m, px, py, t, 0, 0) == g
  {
    SameCells(StampPart(g, m, px, py, t, 0, 0), g);
  }

  /** Visiting mask cell (r, c) writes t under it if it is occupied (nothing if that is off the board). */
  lemma StampNext(g: Grid, m: Matrix, px: int, py: int, t: BlockType, r: int, c: int)
    requires g.Valid() && 0 <= r < |m| && 0 <= c < |m[r]|
    ensures StampPart(g, m, px, py, t, r, c + 1) ==
      if m[r][c] == 1 then StampPart(g, m, px, py, t, r, c).Set(px + c, py + r, t) else StampPart(g, m, px, py, t, r, c)
  {
    var next := StampPart(g, m, px, py, t, r, c + 1);
    var here := StampPart(g, m, px, py, t, r, c);
    if m[r][c] == 1 {
      SameCells(next, here.Set(px + c, py + r, t));
    } else {
      SameCells(next, here);
    }
  }

  lemma StampRowEnd(g: Grid, m: Matrix, px: int, py: int, t: BlockType, r: int)
    requires g.Valid() && 0 <= r < |m|
    ensures StampPart(g, m, px, py, t, r, |m[r]|) == StampPart(g, m, px, py, t, r + 1, 0)
  {
    SameCells(StampPart(g, m, px, py, t, r, |m[r]|), StampPart(g, m, px, py, t, r + 1, 0));
  }

  // ---------------------------------------------------------------------------
  // The block
  // ---------------------------------------------------------------------------

  class Block {
    var blockType: BlockType
    var shapeIndex: int
    var scaledMatrix: array2<int>

    /**
     * A freshly instantiated block, before Initialize: the serialized fields
     * hold their defaults, and the 0 x 0 array stands for the scaled matrix
     * that is still null until Initialize assigns it.
     */
    constructor ()
      ensures blockType == Empty && shapeIndex == 0
      ensures scaledMatrix.Length0 == 0 && scaledMatrix.Length1 == 0
    {
      blockType := Empty;
      shapeIndex := 0;
      scaledMatrix := new int[0, 0];
    }

    /** The scaled mask, row by row. */
    function Mask(): Matrix
      reads this, scaledMatrix
    {
      View(scaledMatrix)
    }

    /** Takes catalog shape shapeIdx, blown up by k, in colour t. */
    method Initialize(shapeIdx: int, t: BlockType, k: nat)
      requires 0 <= shapeIdx < |TetrisShapes()|
      modifies this
      ensures shapeIndex == shapeIdx && blockType == t && fresh(scaledMatrix)
      ensures Mask() == Scale(TetrisShapes()[shapeIdx], k)
    {
      shapeIndex := shapeIdx;
      blockType := t;
      CatalogShape(shapeIndex);
      var baseMatrix := TetrisShapes()[shapeIndex];
      scaledMatrix := CreateScaledMatrix(baseMatrix, k);
    }

    /**
     * Stamps the block's grains onto the board with the mask's top-left corner
     * at board cell (px, py), in the block's colour.
     */
    method Sandify(board: Board, px: int, py: int)
      modifies board.board
      ensures board.Snapshot() == Stamp(old(board.Snapshot()), Mask(), px, py, blockType)
    {
      ghost var g0 := board.Snapshot();
      ghost var m := Mask();
      StampStart(g0, m, px, py, blockType);
      for r := 0 to scaledMatrix.Length0
        invariant m == Mask()
        invariant board.Snapshot() == StampPart(g0, m, px, py, blockType, r, 0)
      {
        for c := 0 to scaledMatrix.Length1
          invariant m == Mask()
          invariant board.Snapshot() == StampPart(g0, m, px, py, blockType, r, c)
        {
          StampNext(g0, m, px, py, blockType, r, c);
          if scaledMatrix[r, c] == 1 {
            var boardX := px + c;
            var boardY := py + r;
            if board.IsValidPosition(boardX, boardY) {
              board.SetCell(boardX, boardY, blockType);
            }
          }
        }
        StampRowEnd(g0, m, px, py, blockType, r);
      }
    }
  }
}
