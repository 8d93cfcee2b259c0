/**
 * The board as a value: a width x height array of materials indexed [x][y],
 * with row 0 at the top and y + 1 one row further down. Reads outside the
 * board give Empty and writes outside the board change nothing.
 */
module GridModel {
  import opened Constants

  /** A board coordinate (Vector2Int). */
  datatype Pos = Pos(x: int, y: int)

  datatype Grid = Grid(width: nat, height: nat, cols: seq<seq<BlockType>>)
  {
    /** The storage really is width columns of height cells. */
    predicate Valid()
    {
      |cols| == width && forall x | 0 <= x < width :: |cols[x]| == height
    }

    /** 0 <= x < width and 0 <= y < height. */
    predicate InBounds(x: int, y: int)
    {
      0 <= x < width && 0 <= y < height
    }

    /** The material at (x, y); Empty anywhere outside the board. */
    function Get(x: int, y: int): (t: BlockType)
      requires Valid()
      ensures !InBounds(x, y) ==> t == Empty
    {
      if InBounds(x, y) then cols[x][y] else Empty
    }

    function At(p: Pos): BlockType
      requires Valid()
    {
      Get(p.x, p.y)
    }

    /** Overwrite cell (x, y); out of bounds the board stays as it is. */
    function Set(x: int, y: int, t: BlockType): (r: Grid)
      requires Valid()
      ensures r.Valid() && r.width == width && r.height == height
      ensures forall i, j :: r.Get(i, j) == if i == x && j == y && InBounds(x, y) then t else Get(i, j)
    {
      if InBounds(x, y) then Grid(width, height, cols[x := cols[x][y := t]]) else this
    }

    /** The board with every cell of s emptied. */
    ghost function Erase(s: set<Pos>): (r: Grid)
      requires Valid()
      ensures r.Valid() && r.width == width && r.height == height
      ensures forall i, j :: r.Get(i, j) == if Pos(i, j) in s then Empty else Get(i, j)
    {
      Grid(width, height,
        seq(width, i requires 0 <= i < width =>
          seq(height, j requires 0 <= j < height => if Pos(i, j) in s then Empty else cols[i][j])))
    }

    /** All grains and empty cells, counted per material. */
    function Contents(): multiset<BlockType>
      requires Valid()
    {
      ColumnsContents(cols)
    }

    /**
     * The height potential: every grain in row y weighs height - y, so it is
     * at least 1 on the board and drops by exactly 1 when the grain falls one row.
     */
    function Weight(): nat
      requires Valid()
    {
      ColumnsWeight(cols)
    }

    /** The number of grains on the board: cells holding anything but Empty. */
    function Grains(): nat
      requires Valid()
    {
      var c := Contents();
      |c| - c[Empty]
    }

    /** What a cell of row y holding t adds to Weight(). */
    function CellWeight(t: BlockType, y: int): int
    {
      if t == Empty then 0 else height - y
    }
  }

  /** The board Awake creates: every cell Empty. */
  function Blank(width: nat, height: nat): (g: Grid)
    ensures g.Valid() && g.width == width && g.height == height
    ensures forall x, y :: g.Get(x, y) == Empty
  {
    Grid(width, height, seq(width, _ => seq(height, _ => Empty)))
  }

  /** Every cell of the board, as coordinates. */
  function AllCells(g: Grid): set<Pos>
  {
    set x, y | 0 <= x < g.width && 0 <= y < g.height :: Pos(x, y)
  }

  lemma InAllCells(g: Grid, p: Pos)
    ensures p in AllCells(g) <==> g.InBounds(p.x, p.y)
  {
    if g.InBounds(p.x, p.y) {
      assert p == Pos(p.x, p.y);
    }
  }

  function ColumnsContents(cs: seq<seq<BlockType>>): multiset<BlockType>
  {
    if cs == [] then multiset{} else multiset(cs[0]) + ColumnsContents(cs[1..])
  }

  function ColumnWeight(col: seq<BlockType>): nat
  {
    if col == [] then 0 else (if col[0] == Empty then 0 else |col|) + ColumnWeight(col[1..])
  }

  function ColumnsWeight(cs: seq<seq<BlockType>>): nat
  {
    if cs == [] then 0 else ColumnWeight(cs[0]) + ColumnsWeight(cs[1..])
  }

  /** Two boards of the same size that agree on every cell are equal. */
  lemma SameCells(a: Grid, b: Grid)
    requires a.Valid() && b.Valid() && a.width == b.width && a.height == b.height
    requires forall x, y | 0 <= x < a.width && 0 <= y < a.height :: a.Get(x, y) == b.Get(x, y)
    ensures a == b
  {
    forall x | 0 <= x < a.width
      ensures a.cols[x] == b.cols[x]
    {
      forall y | 0 <= y < a.height
        ensures a.cols[x][y] == b.cols[x][y]
      {
        assert a.Get(x, y) == b.Get(x, y);
      }
    }
  }

  /** Erasing nothing leaves the board as it is. */
  lemma EraseNothing(g: Grid)
    requires g.Valid()
    ensures g.Erase({}) == g
  {
    SameCells(g.Erase({}), g);
  }

  /** Emptying one more cell of an erased board is erasing one more cell. */
  lemma EraseOneMore(g: Grid, s: set<Pos>, p: Pos)
    requires g.Valid() && g.InBounds(p.x, p.y)
    ensures g.Erase(s).Set(p.x, p.y, Empty) == g.Erase(s + {p})
  {
    SameCells(g.Erase(s).Set(p.x, p.y, Empty), g.Erase(s + {p}));
  }

  /** Emptying one more grain of an erased board lowers the height potential by at least one. */
  lemma EraseOneMoreWeight(g: Grid, s: set<Pos>, p: Pos)
    requires g.Valid() && g.InBounds(p.x, p.y) && p !in s && g.At(p) != Empty
    ensures g.Erase(s + {p}).Weight() + 1 <= g.Erase(s).Weight()
  {
    EraseOneMore(g, s, p);
    SetWeight(g.Erase(s), p.x, p.y, Empty);
  }

  /**
   * Emptying a set of grains removes exactly that many grains and lowers the
   * height potential by at least one per grain.
   */
  lemma {:induction false} EraseGrains(g: Grid, s: set<Pos>)
    requires g.Valid() && forall p | p in s :: g.InBounds(p.x, p.y) && g.At(p) != Empty
    ensures g.Erase(s).Grains() + |s| == g.Grains()
    ensures g.Erase(s).Weight() + |s| <= g.Weight()
    decreases s
  {
    if s == {} {
      EraseNothing(g);
    } else {
      var p :| p in s;
      var rest := s - {p};
      EraseGrains(g, rest);
      assert rest + {p} == s && |s| == |rest| + 1;
      var h := g.Erase(rest);
      assert h.Get(p.x, p.y) == g.At(p);
      EraseOneMore(g, rest, p);
      EmptyOneGrain(h, p.x, p.y);
    }
  }

  /** Emptying one grain removes one grain and lowers the height potential. */
  lemma EmptyOneGrain(h: Grid, x: int, y: int)
    requires h.Valid() && h.InBounds(x, y) && h.Get(x, y) != Empty
    ensures h.Set(x, y, Empty).Grains() + 1 == h.Grains()
    ensures h.Set(x, y, Empty).Weight() + 1 <= h.Weight()
  {
    SetContents(h, x, y, Empty);
    SetWeight(h, x, y, Empty);
    var after, before, was := h.Set(x, y, Empty).Contents(), h.Contents(), h.Get(x, y);
    assert (after + multiset{was})[Empty] == (before + multiset{Empty})[Empty];
    assert |after + multiset{was}| == |before + multiset{Empty}|;
  }

  lemma {:induction false} ColumnsContentsUpdate(cs: seq<seq<BlockType>>, x: nat, y: nat, t: BlockType)
    requires x < |cs| && y < |cs[x]|
    ensures ColumnsContents(cs[x := cs[x][y := t]]) + multiset{cs[x][y]}
         == ColumnsContents(cs) + multiset{t}
  {
    var cs' := cs[x := cs[x][y := t]];
    if x == 0 {
      assert cs'[1..] == cs[1..];
      assert multiset(cs[0][y := t]) + multiset{cs[0][y]} == multiset(cs[0]) + multiset{t};
    } else {
      var tail := cs[1..];
      assert tail[x - 1] == cs[x];
      assert cs'[1..] == tail[x - 1 := tail[x - 1][y := t]];
      ColumnsContentsUpdate(tail, x - 1, y, t);
      calc {
        ColumnsContents(cs') + multiset{cs[x][y]};
        multiset(cs[0]) + (ColumnsContents(cs'[1..]) + multiset{cs[x][y]});
        multiset(cs[0]) + (ColumnsContents(tail) + multiset{t});
      }
    }
  }

  /** Overwriting one cell swaps one occurrence of its old material for the new one. */
  lemma SetContents(g: Grid, x: int, y: int, t: BlockType)
    requires g.Valid() && g.InBounds(x, y)
    ensures g.Set(x, y, t).Contents() + multiset{g.Get(x, y)} == g.Contents() + multiset{t}
  {
    ColumnsContentsUpdate(g.cols, x, y, t);
  }

  lemma {:induction false} ColumnWeightUpdate(col: seq<BlockType>, y: nat, t: BlockType)
    requires y < |col|
    ensures ColumnWeight(col[y := t]) + (if col[y] == Empty then 0 else |col| - y)
         == ColumnWeight(col) + (if t == Empty then 0 else |col| - y)
  {
    if y > 0 {
      assert col[y := t][1..] == col[1..][y - 1 := t];
      ColumnWeightUpdate(col[1..], y - 1, t);
    }
  }

  lemma {:induction false} ColumnsWeightUpdate(cs: seq<seq<BlockType>>, x: nat, y: nat, t: BlockType)
    requires x < |cs| && y < |cs[x]|
    ensures ColumnsWeight(cs[x := cs[x][y := t]]) + (if cs[x][y] == Empty then 0 else |cs[x]| - y)
         == ColumnsWeight(cs) + (if t == Empty then 0 else |cs[x]| - y)
  {
    var cs' := cs[x := cs[x][y := t]];
    if x == 0 {
      assert cs'[1..] == cs[1..];
      ColumnWeightUpdate(cs[0], y, t);
    } else {
      var tail := cs[1..];
      assert tail[x - 1] == cs[x];
      assert cs'[1..] == tail[x - 1 := tail[x - 1][y := t]];
      ColumnsWeightUpdate(tail, x - 1, y, t);
    }
  }

  /** Overwriting one cell changes the height potential by the difference of the two cell weights. */
  lemma SetWeight(g: Grid, x: int, y: int, t: BlockType)
    requires g.Valid() && g.InBounds(x, y)
    ensures g.Set(x, y, t).Weight() + g.CellWeight(g.Get(x, y), y) == g.Weight() + g.CellWeight(t, y)
  {
    ColumnsWeightUpdate(g.cols, x, y, t);
  }
}
