/**
 * The Board component: a width x height array of materials that a physics
 * loop updates in place, one gravity step or one clearing pass at a time.
 * Every method is proved against the value-level definitions of the Gravity,
 * Clearing and Physics modules, read off the array through Snapshot().
 */
module SandBoard {
  import opened Constants
  import opened GridModel
  import opened Gravity
  import opened Clearing
  import opened Physics

  /** The cells listed in s. */
  function Elems(s: seq<Pos>): set<Pos>
  {
    set p | p in s
  }

  /** No cell is listed twice. */
  predicate NoDuplicates(s: seq<Pos>)
  {
    forall i, j | 0 <= i < j < |s| :: s[i] != s[j]
  }

  /**
   * Every edge neighbour holding t of a cell of s has been visited: the part of
   * the search already done has looked at all it had to.
   */
  ghost predicate Closed(g: Grid, t: BlockType, s: set<Pos>, visited: set<Pos>)
    requires g.Valid()
  {
    forall p, q | p in s && Adjacent(p, q) && Holds(g, t, q) :: q in visited
  }

  /** A neighbour of a group member that holds the group's colour is in the group too. */
  lemma EnqueueInGroup(g: Grid, start: Pos, current: Pos, next: Pos)
    requires g.Valid() && current in Component(g, start)
    requires Adjacent(current, next) && Holds(g, g.At(start), next)
    ensures next in Component(g, start)
  {
    ComponentMember(g, start, current);
    LinkedStep(g, g.At(start), start, current, next);
    ComponentMember(g, start, next);
  }

  lemma ElemsAppend(s: seq<Pos>, p: Pos)
    ensures Elems(s + [p]) == Elems(s) + {p}
  {
    assert forall q | q in s + [p] :: q in s || q == p;
  }

  lemma SplitAt(s: seq<Pos>, n: nat)
    requires n <= |s|
    ensures s == s[..n] + s[n..]
  {
  }

  /** Taking one pass off the front of the passes still to come. */
  lemma SuffixCons(s: seq<set<Pos>>, i: nat, c: set<Pos>, rest: seq<set<Pos>>)
    requires i <= |s| && s[i..] == [c] + rest
    ensures i < |s| && s[i] == c && s[i + 1..] == rest
  {
    assert s[i..][0] == c;
    assert s[i + 1..] == s[i..][1..];
  }

  /** The passes reported so far, one more of them matched. */
  lemma AppendPass(clears: seq<seq<Pos>>, cells: seq<Pos>, passes: seq<set<Pos>>)
    requires |clears| < |passes| && Elems(cells) == passes[|clears|] && NoDuplicates(cells)
    requires forall k | 0 <= k < |clears| :: Elems(clears[k]) == passes[k] && NoDuplicates(clears[k])
    ensures forall k | 0 <= k < |clears + [cells]| ::
      Elems((clears + [cells])[k]) == passes[k] && NoDuplicates((clears + [cells])[k])
  {
    forall k | 0 <= k < |clears + [cells]|
      ensures Elems((clears + [cells])[k]) == passes[k] && NoDuplicates((clears + [cells])[k])
    {
      if k < |clears| {
        assert (clears + [cells])[k] == clears[k];
      } else {
        assert (clears + [cells])[k] == cells;
      }
    }
  }

  /**
   * The physics loop at board g and gravity step n is on course for run: the
   * clears listed so far are run's first ones, and the rest of the run from
   * here is the rest of run.
   */
  ghost predicate Tracks(run: Run, g: Grid, pickLeft: (nat, int, int) -> bool, n: nat, clears: seq<seq<Pos>>)
    requires g.Valid()
  {
    && |clears| <= |run.clears|
    && Settle(g, pickLeft, n).board == run.board
    && Settle(g, pickLeft, n).clears == run.clears[|clears|..]
    && forall k | 0 <= k < |clears| :: Elems(clears[k]) == run.clears[k] && NoDuplicates(clears[k])
  }

  /** A gravity step moved something: the loop stays on course at step n + 1. */
  lemma TracksMoved(run: Run, g: Grid, pickLeft: (nat, int, int) -> bool, n: nat, clears: seq<seq<Pos>>)
    requires g.Valid() && Tracks(run, g, pickLeft, n, clears)
    requires Step(g, Coin(pickLeft, n)).shifts != []
    ensures Step(g, Coin(pickLeft, n)).grid.Valid()
    ensures Tracks(run, Step(g, Coin(pickLeft, n)).grid, pickLeft, n + 1, clears)
  {
    SettleMoved(g, pickLeft, n);
  }

  /** A clearing pass removed cells: listing them keeps the loop on course. */
  lemma TracksCleared(run: Run, g: Grid, pickLeft: (nat, int, int) -> bool, n: nat, clears: seq<seq<Pos>>, cells: seq<Pos>)
    requires g.Valid() && Tracks(run, g, pickLeft, n, clears)
    requires Step(g, Coin(pickLeft, n)).shifts == []
    requires cells != [] && Elems(cells) == Cleared(g) && NoDuplicates(cells)
    ensures Tracks(run, g.Erase(Cleared(g)), pickLeft, n, clears + [cells])
  {
    assert cells[0] in Elems(cells);
    SettleCleared(g, pickLeft, n);
    Advance(run.clears, clears, cells, Cleared(g), Settle(g.Erase(Cleared(g)), pickLeft, n).clears);
  }

  /** The next pass to come is c, listed as cells: list it, and later is what is still to come. */
  lemma Advance(passes: seq<set<Pos>>, clears: seq<seq<Pos>>, cells: seq<Pos>, c: set<Pos>, later: seq<set<Pos>>)
    requires |clears| <= |passes| && passes[|clears|..] == [c] + later
    requires Elems(cells) == c && NoDuplicates(cells)
    requires forall k | 0 <= k < |clears| :: Elems(clears[k]) == passes[k] && NoDuplicates(clears[k])
    ensures |clears + [cells]| <= |passes| && passes[|clears + [cells]|..] == later
    ensures forall k | 0 <= k < |clears + [cells]| ::
      Elems((clears + [cells])[k]) == passes[k] && NoDuplicates((clears + [cells])[k])
  {
    SuffixCons(passes, |clears|, c, later);
    AppendPass(clears, cells, passes);
  }

  /** Nothing moved and nothing was cleared: the loop has produced all of run. */
  lemma TracksDone(run: Run, g: Grid, pickLeft: (nat, int, int) -> bool, n: nat, clears: seq<seq<Pos>>)
    requires g.Valid() && Tracks(run, g, pickLeft, n, clears)
    requires Step(g, Coin(pickLeft, n)).shifts == [] && Cleared(g) == {}
    ensures g == run.board && |clears| == |run.clears|
    ensures forall k | 0 <= k < |clears| :: Elems(clears[k]) == run.clears[k] && NoDuplicates(clears[k])
  {
    SettleStill(g, pickLeft, n);
  }

  /** A pass listing the cells of a non-empty set lists at least one cell. */
  lemma ListedPasses(passes: seq<set<Pos>>, clears: seq<seq<Pos>>)
    requires {} !in passes && |clears| == |passes|
    requires forall k | 0 <= k < |clears| :: Elems(clears[k]) == passes[k]
    ensures forall k | 0 <= k < |clears| :: clears[k] != []
  {
    forall k | 0 <= k < |clears|
      ensures clears[k] != []
    {
      assert passes[k] in passes && passes[k] != {};
      var p :| p in passes[k];
      assert p in clears[k];
    }
  }

  lemma SplitHead(s: seq<Pos>)
    requires |s| > 0
    ensures s == [s[0]] + s[1..]
  {
  }

  lemma ConcatAssoc(a: seq<Pos>, b: seq<Pos>, c: seq<Pos>)
    ensures (a + b) + c == a + (b + c)
  {
  }

  lemma ElemsConcat(s: seq<Pos>, t: seq<Pos>)
    ensures Elems(s + t) == Elems(s) + Elems(t)
  {
    assert forall q | q in s + t :: q in s || q in t;
  }

  /** A cell of the sequence lies in column x. */
  predicate InColumn(s: seq<Pos>, x: int)
  {
    exists i | 0 <= i < |s| :: s[i].x == x
  }

  lemma InColumnAppend(s: seq<Pos>, p: Pos, x: int)
    ensures InColumn(s + [p], x) <==> InColumn(s, x) || p.x == x
  {
    if InColumn(s, x) {
      var i :| 0 <= i < |s| && s[i].x == x;
      assert (s + [p])[i] == s[i];
    }
    if p.x == x {
      assert (s + [p])[|s|] == p;
    }
  }

  /**
   * The state of the breadth-first search from start: cells were dequeued and
   * queue waits, together distinct and inside start's group, and marked visited
   * on top of the cells visited before the search; every same-coloured
   * neighbour of a dequeued cell has been visited.
   */
  ghost predicate Searching(g: Grid, start: Pos, before: set<Pos>, cells: seq<Pos>, queue: seq<Pos>, visited: set<Pos>)
    requires g.Valid()
  {
    var order := cells + queue;
    && |order| > 0 && order[0] == start
    && visited == before + Elems(order)
    && NoDuplicates(order)
    && (forall i | 0 <= i < |order| :: order[i] in Component(g, start))
    && Closed(g, g.At(start), Elems(cells), visited)
  }

  lemma SearchStart(g: Grid, start: Pos, before: set<Pos>)
    requires g.Valid() && g.InBounds(start.x, start.y)
    ensures Searching(g, start, before, [], [start], before + {start})
  {
    ComponentOwn(g, start);
    assert [] + [start] == [start];
    assert Elems([start]) == {start};
  }

  /**
   * One turn of the search loop: current is dequeued, and added, the unvisited
   * same-coloured neighbours of current, are queued and marked visited. The
   * search state is kept, and the unvisited part of the board shrinks unless
   * nothing was queued.
   */
  lemma SearchStep(g: Grid, start: Pos, before: set<Pos>, done: seq<Pos>, current: Pos,
                   waiting: seq<Pos>, seen: set<Pos>, added: seq<Pos>)
    requires g.Valid() && Searching(g, start, before, done, [current] + waiting, seen)
    requires NoDuplicates(added)
    requires forall q | q in added :: q !in seen && Adjacent(current, q) && Holds(g, g.At(start), q)
    requires forall q | Adjacent(current, q) && Holds(g, g.At(start), q) :: q in seen + Elems(added)
    ensures Searching(g, start, before, done + [current], waiting + added, seen + Elems(added))
    ensures added == [] || AllCells(g) - (seen + Elems(added)) < AllCells(g) - seen
  {
    var order := done + ([current] + waiting);
    var order' := (done + [current]) + (waiting + added);
    ConcatAssoc(done, [current], waiting);
    ConcatAssoc(done + [current], waiting, added);
    assert current == order[|done|];
    ElemsConcat(order, added);
    ElemsAppend(done, current);
    NoDuplicatesConcat(order, added, seen);
    CloseOne(g, g.At(start), Elems(done), current, seen, seen + Elems(added));
    InGroupConcat(g, start, order, current, added);
    if added != [] {
      var q := added[0];
      assert q in added;
      InAllCells(g, q);
      assert q in AllCells(g) - seen;
    }
  }

  /** After its neighbours are visited, a dequeued cell joins the closed part of the search. */
  lemma CloseOne(g: Grid, t: BlockType, done: set<Pos>, current: Pos, seen: set<Pos>, visited: set<Pos>)
    requires g.Valid() && Closed(g, t, done, seen) && seen <= visited
    requires forall q | Adjacent(current, q) && Holds(g, t, q) :: q in visited
    ensures Closed(g, t, done + {current}, visited)
  {
  }

  lemma NoDuplicatesConcat(a: seq<Pos>, b: seq<Pos>, seen: set<Pos>)
    requires NoDuplicates(a) && NoDuplicates(b) && Elems(a) <= seen
    requires forall q | q in b :: q !in seen
    ensures NoDuplicates(a + b)
  {
    var ab := a + b;
    forall i, j | 0 <= i < j < |ab|
      ensures ab[i] != ab[j]
    {
      if j >= |a| {
        assert ab[j] == b[j - |a|];
        if i >= |a| {
          assert ab[i] == b[i - |a|];
        } else {
          assert ab[i] == a[i] && a[i] in Elems(a);
        }
      }
    }
  }

  lemma InGroupConcat(g: Grid, start: Pos, a: seq<Pos>, current: Pos, b: seq<Pos>)
    requires g.Valid() && current in Component(g, start)
    requires forall i | 0 <= i < |a| :: a[i] in Component(g, start)
    requires forall q | q in b :: Adjacent(current, q) && Holds(g, g.At(start), q)
    ensures forall i | 0 <= i < |a + b| :: (a + b)[i] in Component(g, start)
  {
    forall i | |a| <= i < |a + b|
      ensures (a + b)[i] in Component(g, start)
    {
      assert (a + b)[i] == b[i - |a|];
      EnqueueInGroup(g, start, current, b[i - |a|]);
    }
  }

  /**
   * When the queue runs dry, the dequeued cells are exactly the group: they lie
   * in it, and every neighbour of theirs that the group would add was visited
   * either by this search or, impossibly, by an earlier one.
   */
  lemma SearchComplete(g: Grid, start: Pos, before: set<Pos>, cells: seq<Pos>, visited: set<Pos>)
    requires g.Valid() && Searching(g, start, before, cells, [], visited)
    requires Component(g, start) !! before
    ensures Elems(cells) == Component(g, start)
    ensures NoDuplicates(cells) && visited == before + Elems(cells)
  {
    assert cells + [] == cells;
    var found := Elems(cells);
    forall p, q | p in found && Adjacent(p, q) && Holds(g, g.At(start), q)
      ensures q in found
    {
      EnqueueInGroup(g, start, p, q);
    }
    ClosedContainsComponent(g, found, start);
  }

  /**
   * ClearSand's state before cursor (x, y): visited holds exactly the grains whose
   * group the scan has met, and the result lists, once each, exactly the grains
   * of the groups cleared so far.
   */
  ghost predicate Sweeping(g: Grid, y: int, x: int, visited: set<Pos>, cleared: seq<Pos>)
    requires g.Valid()
  {
    visited == Seen(g, y, x) && Elems(cleared) == ClearedBefore(g, y, x) && NoDuplicates(cleared)
  }

  /** The search's wall flags say exactly whether the group touches both walls. */
  lemma SpansInColumns(g: Grid, cells: seq<Pos>)
    ensures InColumn(cells, 0) && InColumn(cells, g.width - 1) <==> Spans(g, Elems(cells))
  {
    if Spans(g, Elems(cells)) {
      var l :| l in Elems(cells) && l.x == 0;
      var r :| r in Elems(cells) && r.x == g.width - 1;
      var i :| 0 <= i < |cells| && cells[i] == l;
      var j :| 0 <= j < |cells| && cells[j] == r;
    }
    if InColumn(cells, 0) && InColumn(cells, g.width - 1) {
      var i :| 0 <= i < |cells| && cells[i].x == 0;
      var j :| 0 <= j < |cells| && cells[j].x == g.width - 1;
      assert cells[i] in Elems(cells) && cells[j] in Elems(cells);
    }
  }

  /**
   * Emptying the i-th cell of a group being cleared: it still holds a grain, is
   * listed for the first time, and lowers the height potential.
   */
  lemma ClearOne(g: Grid, p: Pos, erased: set<Pos>, cells: seq<Pos>, i: nat, before: seq<Pos>)
    requires g.Valid() && i < |cells| && g.At(p) != Empty
    requires Elems(cells) == Component(g, p) && NoDuplicates(cells)
    requires Component(g, p) !! erased && Elems(before) == erased && NoDuplicates(before)
    ensures var c := cells[i];
      && g.InBounds(c.x, c.y) && c !in erased + Elems(cells[..i])
      && g.Erase(erased + Elems(cells[..i])).Set(c.x, c.y, Empty) == g.Erase(erased + Elems(cells[..i + 1]))
      && g.Erase(erased + Elems(cells[..i + 1])).Weight() + 1 <= g.Erase(erased + Elems(cells[..i])).Weight()
      && Elems(before + cells[..i + 1]) == erased + Elems(cells[..i + 1])
      && NoDuplicates(before + cells[..i + 1])
      && before + cells[..i + 1] == (before + cells[..i]) + [c]
  {
    var c := cells[i];
    assert c in Elems(cells);
    ComponentShared(g, p, c);
    ComponentMember(g, p, c);
    LinkedEnds(g, g.At(p), p, c);
    assert cells[..i + 1] == cells[..i] + [c];
    ElemsAppend(cells[..i], c);
    assert c !in Elems(cells[..i]) by {
      forall j | 0 <= j < i
        ensures cells[..i][j] != c
      {
      }
    }
    EraseOneMore(g, erased + Elems(cells[..i]), c);
    assert erased + Elems(cells[..i]) + {c} == erased + Elems(cells[..i + 1]);
    EraseOneMoreWeight(g, erased + Elems(cells[..i]), c);
    ElemsConcat(before, cells[..i + 1]);
    NoDuplicatesConcat(before, cells[..i + 1], erased);
    ConcatAssoc(before, cells[..i], [c]);
  }

  /**
   * UpdateStep's state before cell (x, y): finishing the scan from here gives
   * the whole step's board, and hasFallen, if not yet set, will be set exactly
   * when the rest of the scan moves something.
   */
  ghost predicate Scanning(g: Grid, y: int, x: int, pickLeft: (int, int) -> bool, goal: Pass, hasFallen: bool)
  {
    && g.Valid() && 0 <= x <= g.width
    && ScanFrom(g, y, x, pickLeft).grid == goal.grid
    && if hasFallen then goal.shifts != [] else ScanFrom(g, y, x, pickLeft).shifts == goal.shifts
  }

  lemma ScanningStep(g: Grid, y: int, x: int, pickLeft: (int, int) -> bool, goal: Pass, hasFallen: bool)
    requires Scanning(g, y, x, pickLeft, goal, hasFallen) && 0 <= y && x < g.width
    ensures var m := Decide(g, x, y, pickLeft(x, y));
      Scanning(Apply(g, x, y, m), y, x + 1, pickLeft, goal, hasFallen || m != Stay)
  {
    ScanCell(g, y, x, pickLeft);
  }

  lemma ScanningRowEnd(g: Grid, y: int, pickLeft: (int, int) -> bool, goal: Pass, hasFallen: bool)
    requires Scanning(g, y, g.width, pickLeft, goal, hasFallen) && 0 <= y
    ensures Scanning(g, y - 1, 0, pickLeft, goal, hasFallen)
  {
    ScanRowEnd(g, y, pickLeft);
  }

  class Board {
    /** board[x, y] is the material in column x, row y (row 0 at the top). */
    const board: array2<BlockType>
    /** Set while the physics loop runs, so that a second start is ignored. */
    var isPhysicsRunning: bool

    function Width(): nat
    {
      board.Length0
    }

    function Height(): nat
    {
      board.Length1
    }

    /** The array's contents as a board value. */
    ghost function Snapshot(): (g: Grid)
      reads board
      ensures g.Valid() && g.width == Width() && g.height == Height()
      ensures forall x, y | 0 <= x < Width() && 0 <= y < Height() :: g.Get(x, y) == board[x, y]
    {
      Grid(board.Length0, board.Length1,
        seq(board.Length0, x requires 0 <= x < board.Length0 reads board =>
          seq(board.Length1, y requires 0 <= y < board.Length1 reads board => board[x, y])))
    }

    /** Awake: a board of the given size with every cell Empty. */
    constructor (width: nat, height: nat)
      ensures Snapshot() == Blank(width, height)
      ensures !isPhysicsRunning
    {
      board := new BlockType[width, height];
      isPhysicsRunning := false;
      new;
      var x := 0;
      while x < width
        invariant 0 <= x <= width && !isPhysicsRunning
        invariant forall i, j | 0 <= i < x && 0 <= j < height :: board[i, j] == Empty
      {
        var y := 0;
        while y < height
          invariant 0 <= y <= height && !isPhysicsRunning
          invariant forall i, j | 0 <= i < x && 0 <= j < height :: board[i, j] == Empty
          invariant forall j | 0 <= j < y :: board[x, j] == Empty
        {
          board[x, y] := Empty;
          y := y + 1;
        }
        x := x + 1;
      }
      SameCells(Snapshot(), Blank(width, height));
    }

    /** The cell lies on the board. */
    predicate IsValidPosition(x: int, y: int)
      ensures IsValidPosition(x, y) <==> Snapshot().InBounds(x, y)
    {
      x >= 0 && x < Width() && y >= 0 && y < Height()
    }

    /** The material at (x, y); Empty off the board. */
    function GetCell(x: int, y: int): (t: BlockType)
      reads board
      ensures t == Snapshot().Get(x, y)
      ensures !IsValidPosition(x, y) ==> t == Empty
    {
      if !IsValidPosition(x, y) then Empty else board[x, y]
    }

    /** Overwrite (x, y); a write off the board is ignored. */
    method SetCell(x: int, y: int, t: BlockType)
      modifies board
      ensures Snapshot() == old(Snapshot()).Set(x, y, t)
    {
      if !IsValidPosition(x, y) {
        return;
      }
      board[x, y] := t;
      SameCells(Snapshot(), old(Snapshot()).Set(x, y, t));
    }

    /**
     * One gravity step over the whole board: rows height - 2 up to 0, each
     * left to right. Returns whether any grain moved. pickLeft(x, y) is the
     * random choice made when both slides are open at (x, y).
     */
    method UpdateStep(pickLeft: (int, int) -> bool) returns (hasFallen: bool)
      modifies board
      ensures Snapshot() == Step(old(Snapshot()), pickLeft).grid
      ensures hasFallen <==> Step(old(Snapshot()), pickLeft).shifts != []
    {
      ghost var goal := Step(Snapshot(), pickLeft);
      hasFallen := false;
      var y := Height() - 2;
      while y >= 0
        invariant y >= -2
        invariant Scanning(Snapshot(), y, 0, pickLeft, goal, hasFallen)
        decreases y
      {
        var x := 0;
        while x < Width()
          invariant 0 <= x <= Width()
          invariant Scanning(Snapshot(), y, x, pickLeft, goal, hasFallen)
        {
          ScanningStep(Snapshot(), y, x, pickLeft, goal, hasFallen);
          var moved := MoveCell(x, y, pickLeft(x, y));
          hasFallen := hasFallen || moved;
          x := x + 1;
        }
        ScanningRowEnd(Snapshot(), y, pickLeft, goal, hasFallen);
        y := y - 1;
      }
    }

    /** The body of UpdateStep's inner loop: the decision for one cell, carried out. */
    method MoveCell(x: int, y: int, pickLeft: bool) returns (moved: bool)
      modifies board
      ensures Snapshot() == Apply(old(Snapshot()), x, y, Decide(old(Snapshot()), x, y, pickLeft))
      ensures moved <==> Decide(old(Snapshot()), x, y, pickLeft) != Stay
    {
      ghost var g := Snapshot();
      ghost var m := Decide(g, x, y, pickLeft);
      var cell := GetCell(x, y);
      if cell == Empty {
        return false;
      }
      if y + 1 < Height() && GetCell(x, y + 1) == Empty {
        assert m == Down;
        MoveGrain(x, y, x, y + 1, cell);
        return true;
      }
      var canGoLeft := x - 1 >= 0 && y + 1 < Height() && GetCell(x - 1, y + 1) == Empty;
      var canGoRight := x + 1 < Width() && y + 1 < Height() &&
                        GetCell(x + 1, y + 1) == Empty && GetCell(x + 1, y) == Empty;
      assert canGoLeft == CanGoLeft(g, x, y) && canGoRight == CanGoRight(g, x, y);
      moved := false;
      if canGoLeft && canGoRight {
        var direction := if pickLeft then -1 else 1;
        MoveGrain(x, y, x + direction, y + 1, cell);
        moved := true;
      } else if canGoLeft {
        MoveGrain(x, y, x - 1, y + 1, cell);
        moved := true;
      } else if canGoRight {
        MoveGrain(x, y, x + 1, y + 1, cell);
        moved := true;
      }
    }

    /** A grain leaves (x, y) for (toX, toY): the target is written first, then the source emptied. */
    method MoveGrain(x: int, y: int, toX: int, toY: int, cell: BlockType)
      modifies board
      ensures Snapshot() == old(Snapshot()).Set(toX, toY, cell).Set(x, y, Empty)
    {
      SetCell(toX, toY, cell);
      SetCell(x, y, Empty);
    }

    /**
     * Breadth-first search from (startX, startY) through edge neighbours that
     * hold targetType. Every cell it queues is added to visited; the result
     * lists the group in the order the cells were dequeued, and says whether
     * the group reaches column 0 and column width - 1.
     */
    method FindConnectedGroup(startX: int, startY: int, targetType: BlockType, visited: set<Pos>)
      returns (cells: seq<Pos>, touchesLeftWall: bool, touchesRightWall: bool, visitedOut: set<Pos>)
      requires Snapshot().InBounds(startX, startY) && Snapshot().Get(startX, startY) == targetType
      requires Component(Snapshot(), Pos(startX, startY)) !! visited
      ensures Elems(cells) == Component(Snapshot(), Pos(startX, startY))
      ensures NoDuplicates(cells)
      ensures visitedOut == visited + Elems(cells)
      ensures touchesLeftWall == InColumn(cells, 0)
      ensures touchesRightWall == InColumn(cells, Width() - 1)
    {
      ghost var g := Snapshot();
      var start := Pos(startX, startY);
      cells := [];
      touchesLeftWall := false;
      touchesRightWall := false;
      var queue := [start];
      visitedOut := visited + {start};
      SearchStart(g, start, visited);
      while |queue| > 0
        invariant Snapshot() == g && g.At(start) == targetType
        invariant Searching(g, start, visited, cells, queue, visitedOut)
        invariant touchesLeftWall == InColumn(cells, 0)
        invariant touchesRightWall == InColumn(cells, Width() - 1)
        decreases AllCells(g) - visitedOut, |queue|
      {
        var current := queue[0];
        ghost var done := cells;
        ghost var seen := visitedOut;
        SplitHead(queue);
        queue := queue[1..];
        cells := cells + [current];
        if current.x == 0 {
          touchesLeftWall := true;
        }
        if current.x == Width() - 1 {
          touchesRightWall := true;
        }
        InColumnAppend(done, current, 0);
        InColumnAppend(done, current, Width() - 1);
        ghost var waiting := queue;
        queue, visitedOut := EnqueueNeighbours(current, targetType, queue, visitedOut);
        assert Snapshot() == g;
        ghost var added := queue[|waiting|..];
        SplitAt(queue, |waiting|);
        SearchStep(g, start, visited, done, current, waiting, seen, added);
      }
      SearchComplete(g, start, visited, cells, visitedOut);
    }

    /**
     * The foreach over the four directions in FindConnectedGroup: every edge
     * neighbour of current that is on the board, not yet visited and of
     * targetType is marked visited and queued, in direction order.
     */
    method EnqueueNeighbours(current: Pos, targetType: BlockType, queue: seq<Pos>, visited: set<Pos>)
      returns (queueOut: seq<Pos>, visitedOut: set<Pos>)
      ensures |queueOut| >= |queue| && queueOut[..|queue|] == queue
      ensures visitedOut == visited + Elems(queueOut[|queue|..])
      ensures NoDuplicates(queueOut[|queue|..])
      ensures forall q | q in queueOut[|queue|..] ::
                q !in visited && Adjacent(current, q) && Holds(Snapshot(), targetType, q)
      ensures forall q | Adjacent(current, q) && Holds(Snapshot(), targetType, q) :: q in visitedOut
    {
      ghost var g := Snapshot();
      queueOut := queue;
      visitedOut := visited;
      var directions := Directions();
      DirectionsAreNeighbours(current);
      for k := 0 to |directions|
        invariant |queueOut| >= |queue| && queueOut[..|queue|] == queue
        invariant visitedOut == visited + Elems(queueOut[|queue|..])
        invariant NoDuplicates(queueOut[|queue|..])
        invariant forall q | q in queueOut[|queue|..] ::
                    q !in visited && Adjacent(current, q) && Holds(g, targetType, q)
        invariant forall j | 0 <= j < k && Holds(g, targetType, Offset(current, directions[j])) ::
                    Offset(current, directions[j]) in visitedOut
      {
        var next := Offset(current, directions[k]);
        if IsValidPosition(next.x, next.y) && next !in visitedOut && GetCell(next.x, next.y) == targetType {
          ghost var before := queueOut[|queue|..];
          visitedOut := visitedOut + {next};
          queueOut := queueOut + [next];
          assert queueOut[|queue|..] == before + [next];
          ElemsAppend(before, next);
        }
      }
    }

    /**
     * Starts the physics run unless one is already going. Runs are synchronous
     * here, so the guard never fires between calls.
     */
    method StartPhysicsSimulation(pickLeft: (nat, int, int) -> bool) returns (clears: seq<seq<Pos>>)
      modifies this, board
      ensures old(isPhysicsRunning) ==> Snapshot() == old(Snapshot()) && clears == [] && isPhysicsRunning
      ensures !old(isPhysicsRunning) ==> Snapshot() == Settle(old(Snapshot()), pickLeft, 0).board && !isPhysicsRunning
      ensures !old(isPhysicsRunning) ==> |clears| == |Settle(old(Snapshot()), pickLeft, 0).clears|
      ensures !old(isPhysicsRunning) ==>
        forall k | 0 <= k < |clears| :: Elems(clears[k]) == Settle(old(Snapshot()), pickLeft, 0).clears[k]
      ensures !old(isPhysicsRunning) ==> Settled(Snapshot()) && Cleared(Snapshot()) == {}
      ensures forall k | 0 <= k < |clears| :: clears[k] != [] && NoDuplicates(clears[k])
    {
      clears := [];
      if !isPhysicsRunning {
        ghost var start := Snapshot();
        clears := PhysicsSimulation(pickLeft);
        SettleQuiet(start, pickLeft, 0);
        SettleClearsNonEmpty(start, pickLeft, 0);
        ListedPasses(Settle(start, pickLeft, 0).clears, clears);
      }
    }

    /**
     * The physics coroutine, run to completion: step the sand until nothing
     * falls, then clear spanning groups; after a clear the sand is stepped
     * again, otherwise the run ends. pickLeft(n, x, y) is the coin flip of step
     * n at cell (x, y); each non-empty clear is reported in clears, in order.
     * The board ends as Settle says and the clears are Settle's passes.
     */
    method PhysicsSimulation(pickLeft: (nat, int, int) -> bool) returns (clears: seq<seq<Pos>>)
      modifies this, board
      ensures Snapshot() == Settle(old(Snapshot()), pickLeft, 0).board
      ensures |clears| == |Settle(old(Snapshot()), pickLeft, 0).clears|
      ensures forall k | 0 <= k < |clears| ::
        Elems(clears[k]) == Settle(old(Snapshot()), pickLeft, 0).clears[k] && NoDuplicates(clears[k])
      ensures !isPhysicsRunning
    {
      ghost var run := Settle(Snapshot(), pickLeft, 0);
      isPhysicsRunning := true;
      clears := [];
      var step: nat := 0;
      while true
        invariant Tracks(run, Snapshot(), pickLeft, step, clears)
        decreases Snapshot().Weight()
      {
        ghost var before := Snapshot();
        var coin := Coin(pickLeft, step);
        var hasMoved := UpdateStep(coin);
        StepLowersPotential(before, coin);
        if hasMoved {
          TracksMoved(run, before, pickLeft, step, clears);
          step := step + 1;
        } else {
          StepMovedIffChanged(before, coin);
          var clearedCells := ClearSand();
          if |clearedCells| > 0 {
            TracksCleared(run, before, pickLeft, step, clears, clearedCells);
            clears := clears + [clearedCells];
          } else {
            assert Cleared(before) == {} by {
              assert Elems(clearedCells) == {};
            }
            EraseNothing(before);
            TracksDone(run, before, pickLeft, step, clears);
            break;
          }
        }
      }
      isPhysicsRunning := false;
    }

    /**
     * One clearing pass: cells are scanned row by row from the top, each row
     * left to right; the group of every grain not yet visited is searched, and
     * a group touching both walls is emptied and its cells appended to the
     * result. Returns the cleared cells.
     */
    method ClearSand() returns (clearedCells: seq<Pos>)
      modifies board
      ensures Snapshot() == old(Snapshot()).Erase(Cleared(old(Snapshot())))
      ensures Elems(clearedCells) == Cleared(old(Snapshot()))
      ensures NoDuplicates(clearedCells)
      ensures Snapshot().Weight() + |clearedCells| <= old(Snapshot()).Weight()
    {
      ghost var g0 := Snapshot();
      var visited: set<Pos> := {};
      clearedCells := [];
      SeenStart(g0);
      EraseNothing(g0);
      var y := 0;
      while y < Height()
        invariant 0 <= y <= Height()
        invariant Sweeping(g0, y, 0, visited, clearedCells)
        invariant Snapshot() == g0.Erase(ClearedBefore(g0, y, 0))
        invariant Snapshot().Weight() + |clearedCells| <= g0.Weight()
      {
        var x := 0;
        while x < Width()
          invariant 0 <= x <= Width()
          invariant Sweeping(g0, y, x, visited, clearedCells)
          invariant Snapshot() == g0.Erase(ClearedBefore(g0, y, x))
          invariant Snapshot().Weight() + |clearedCells| <= g0.Weight()
        {
          visited, clearedCells := SweepCell(g0, x, y, visited, clearedCells);
          x := x + 1;
        }
        SeenNextRow(g0, y);
        y := y + 1;
      }
      SeenEnd(g0);
    }

    /**
     * ClearSand's loop body at cell (x, y): a grain whose group has not been
     * met yet has that group searched, and the group is cleared when it
     * touches both walls.
     */
    method SweepCell(ghost g0: Grid, x: int, y: int, visited: set<Pos>, clearedCells: seq<Pos>)
        returns (visitedOut: set<Pos>, clearedOut: seq<Pos>)
      requires g0.Valid() && g0.width == Width() && g0.height == Height() && g0.InBounds(x, y)
      requires Sweeping(g0, y, x, visited, clearedCells)
      requires Snapshot() == g0.Erase(ClearedBefore(g0, y, x))
      modifies board
      ensures Sweeping(g0, y, x + 1, visitedOut, clearedOut)
      ensures Snapshot() == g0.Erase(ClearedBefore(g0, y, x + 1))
      ensures Snapshot().Weight() + |clearedOut| <= old(Snapshot()).Weight() + |clearedCells|
    {
      var p := Pos(x, y);
      ghost var erased := ClearedBefore(g0, y, x);
      visitedOut, clearedOut := visited, clearedCells;
      var cellType := GetCell(x, y);
      if cellType != Empty && p !in visited {
        MeetGroup(g0, y, x);
        var cells, touchesLeftWall, touchesRightWall;
        cells, touchesLeftWall, touchesRightWall, visitedOut := FindConnectedGroup(x, y, cellType, visited);
        SpansInColumns(g0, cells);
        if touchesLeftWall && touchesRightWall {
          clearedOut := ClearGroup(g0, p, erased, cells, clearedCells);
        }
      } else {
        PassSeenCell(g0, y, x);
      }
    }

    /** Empties every cell of a spanning group and appends it to the cleared list. */
    method ClearGroup(ghost g0: Grid, ghost p: Pos, ghost erased: set<Pos>, cells: seq<Pos>, clearedCells: seq<Pos>)
        returns (clearedOut: seq<Pos>)
      requires g0.Valid() && g0.width == Width() && g0.height == Height() && g0.At(p) != Empty
      requires Elems(cells) == Component(g0, p) && NoDuplicates(cells)
      requires Component(g0, p) !! erased && Elems(clearedCells) == erased && NoDuplicates(clearedCells)
      requires Snapshot() == g0.Erase(erased)
      modifies board
      ensures Snapshot() == g0.Erase(erased + Elems(cells))
      ensures clearedOut == clearedCells + cells
      ensures Elems(clearedOut) == erased + Elems(cells) && NoDuplicates(clearedOut)
      ensures Snapshot().Weight() + |clearedOut| <= old(Snapshot()).Weight() + |clearedCells|
    {
      clearedOut := clearedCells;
      assert cells[..0] == [];
      assert erased + Elems(cells[..0]) == erased;
      for i := 0 to |cells|
        invariant Snapshot() == g0.Erase(erased + Elems(cells[..i]))
        invariant clearedOut == clearedCells + cells[..i]
        invariant Elems(clearedOut) == erased + Elems(cells[..i]) && NoDuplicates(clearedOut)
        invariant Snapshot().Weight() + |clearedOut| <= old(Snapshot()).Weight() + |clearedCells|
      {
        ClearOne(g0, p, erased, cells, i, clearedCells);
        SetCell(cells[i].x, cells[i].y, Empty);
        clearedOut := clearedOut + [cells[i]];
      }
      assert cells[..|cells|] == cells;
    }
  }
}
