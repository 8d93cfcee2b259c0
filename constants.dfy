/**
 * Dimensions, materials and the shape catalog of the game.
 *
 * The engine itself is written against width, height and scale parameters;
 * the constants here are the values the game ships with.
 */
module Constants {

  /** Number of grain columns on the board. */
  const BOARD_WIDTH: nat := 10
  /** Number of grain rows on the board (row 0 is the top). */
  const BOARD_HEIGHT: nat := 20
  /** Each template cell becomes a SCALE_FACTOR x SCALE_FACTOR square of grains. */
  const SCALE_FACTOR: nat := 7

  /** The material of one cell: the Empty sentinel or one of four colours. */
  datatype BlockType = Empty | Red | Blue | Green | Yellow

  /** The integer value behind each enum member; Empty is 0. */
  function Ordinal(t: BlockType): (n: nat)
    ensures n < 5
    ensures n == 0 <==> t == Empty
  {
    match t
    case Empty => 0
    case Red => 1
    case Blue => 2
    case Green => 3
    case Yellow => 4
  }

  /** The enum cast `(BlockType)n`, defined on the values the enum declares. */
  function FromOrdinal(n: int): (t: BlockType)
    requires 0 <= n < 5
    ensures Ordinal(t) == n
  {
    if n == 0 then Empty
    else if n == 1 then Red
    else if n == 2 then Blue
    else if n == 3 then Green
    else Yellow
  }

  /** Casting an enum member to its value and back gives the member again. */
  lemma OrdinalRoundTrip(t: BlockType)
    ensures FromOrdinal(Ordinal(t)) == t
  {
  }

  /** A 2D integer matrix stored row by row: m[r][c]. */
  type Matrix = seq<seq<int>>

  /** Width of a matrix, read off its first row. */
  function Cols(m: Matrix): nat
  {
    if |m| == 0 then 0 else |m[0]|
  }

  /** Every row has the same length, as in a C# `int[,]`. */
  predicate IsRect(m: Matrix)
  {
    forall r | 0 <= r < |m| :: |m[r]| == Cols(m)
  }

  /** A rectangular occupancy mask: every entry is 0 or 1. */
  predicate IsMask(m: Matrix)
  {
    IsRect(m) && forall r, c | 0 <= r < |m| && 0 <= c < |m[r]| :: m[r][c] == 0 || m[r][c] == 1
  }

  /** Number of entries equal to 1 in a row. */
  function RowOnes(row: seq<int>): nat
  {
    if row == [] then 0 else (if row[0] == 1 then 1 else 0) + RowOnes(row[1..])
  }

  /** Number of entries equal to 1 in a matrix. */
  function Ones(m: Matrix): nat
  {
    if m == [] then 0 else RowOnes(m[0]) + Ones(m[1..])
  }

  /** Some row is occupied in the first column, and some row in the last. */
  predicate ReachesBothSides(m: Matrix)
    requires IsRect(m) && Cols(m) > 0
  {
    (exists r | 0 <= r < |m| :: m[r][0] == 1) && (exists r | 0 <= r < |m| :: m[r][Cols(m) - 1] == 1)
  }

  /** A template of the catalog: a 0/1 mask with four occupied cells, one to
      four rows tall and two to four columns wide, occupied somewhere in its
      first and in its last column. */
  predicate IsTetromino(m: Matrix)
  {
    IsMask(m) && 0 < |m| <= 4 && 2 <= Cols(m) <= 4 && Ones(m) == 4 && ReachesBothSides(m)
  }

  function ShapeI(): (m: Matrix)
    ensures IsTetromino(m)
  {
    [[1, 1, 1, 1]]
  }

  function ShapeO(): (m: Matrix)
    ensures IsTetromino(m)
  {
    [[1, 1],
     [1, 1]]
  }

  function ShapeT(): (m: Matrix)
    ensures IsTetromino(m)
  {
    [[0, 1, 0],
     [1, 1, 1]]
  }

  function ShapeL(): (m: Matrix)
    ensures IsTetromino(m)
  {
    [[1, 0],
     [1, 0],
     [1, 1]]
  }

  function ShapeJ(): (m: Matrix)
    ensures IsTetromino(m)
  {
    [[0, 1],
     [0, 1],
     [1, 1]]
  }

  function ShapeS(): (m: Matrix)
    ensures IsTetromino(m)
  {
    [[0, 1, 1],
     [1, 1, 0]]
  }

  function ShapeZ(): (m: Matrix)
    ensures IsTetromino(m)
  {
    [[1, 1, 0],
     [0, 1, 1]]
  }

  /** The catalog TETRIS_SHAPES: I, O, T, L, J, S, Z, in that order. */
  function TetrisShapes(): (shapes: seq<Matrix>)
    ensures |shapes| == 7
    ensures forall m | m in shapes :: IsTetromino(m)
  {
    var i, o, t, l, j, s, z := ShapeI(), ShapeO(), ShapeT(), ShapeL(), ShapeJ(), ShapeS(), ShapeZ();
    assert IsTetromino(i) && IsTetromino(o) && IsTetromino(t) && IsTetromino(l);
    assert IsTetromino(j) && IsTetromino(s) && IsTetromino(z);
    [i, o, t, l, j, s, z]
  }

  /** Catalog entry i is a tetromino template. */
  lemma CatalogShape(i: int)
    requires 0 <= i < |TetrisShapes()|
    ensures IsTetromino(TetrisShapes()[i])
  {
    assert TetrisShapes()[i] in TetrisShapes();
  }
}
