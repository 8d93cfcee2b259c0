/**
 * The whole physics run as a value (Board.PhysicsSimulationCoroutine).
 *
 * Gravity steps are taken until one moves nothing; then a clearing pass runs.
 * If it clears something the run goes on with more gravity steps, otherwise
 * the run is over. Step n of the run draws its random tie-breaks from
 * pickLeft(n, x, y); a clearing pass does not advance n.
 */
module Physics {
  import opened Constants
  import opened GridModel
  import opened Gravity
  import opened Clearing

  /** The final board of a run and the cells of each non-empty clearing pass, in order. */
  datatype Run = Run(board: Grid, clears: seq<set<Pos>>)

  /** The tie-break bits of gravity step n. */
  function Coin(pickLeft: (nat, int, int) -> bool, n: nat): (int, int) -> bool
  {
    (x: int, y: int) => pickLeft(n, x, y)
  }

  /** The total number of cells over all passes. */
  function Total(clears: seq<set<Pos>>): nat
  {
    if clears == [] then 0 else |clears[0]| + Total(clears[1..])
  }

  /** A clearing pass that removes something lowers the height potential. */
  lemma ClearLowersWeight(g: Grid)
    requires g.Valid() && Cleared(g) != {}
    ensures g.Erase(Cleared(g)).Weight() < g.Weight()
    ensures g.Erase(Cleared(g)).Grains() + |Cleared(g)| == g.Grains()
  {
    ClearedOccupied(g);
    EraseGrains(g, Cleared(g));
  }

  /**
   * The run from board g at gravity step n. It terminates because every
   * gravity step that moves and every clearing pass that removes something
   * lowers the height potential.
   */
  ghost function Settle(g: Grid, pickLeft: (nat, int, int) -> bool, n: nat): (r: Run)
    requires g.Valid()
    ensures r.board.Valid() && r.board.width == g.width && r.board.height == g.height
    decreases g.Weight()
  {
    var pass := Step(g, Coin(pickLeft, n));
    StepLowersPotential(g, Coin(pickLeft, n));
    if pass.shifts != [] then Settle(pass.grid, pickLeft, n + 1)
    else if Cleared(g) != {} then
      ClearLowersWeight(g);
      var rest := Settle(g.Erase(Cleared(g)), pickLeft, n);
      Run(rest.board, [Cleared(g)] + rest.clears)
    else Run(g, [])
  }

  // ---------------------------------------------------------------------------
  // One round of a run, as the loop of the coroutine takes it

  /** A gravity step that moved something: the run goes on from the new board at step n + 1. */
  lemma SettleMoved(g: Grid, pickLeft: (nat, int, int) -> bool, n: nat)
    requires g.Valid() && Step(g, Coin(pickLeft, n)).shifts != []
    ensures Step(g, Coin(pickLeft, n)).grid.Valid()
    ensures Settle(g, pickLeft, n) == Settle(Step(g, Coin(pickLeft, n)).grid, pickLeft, n + 1)
  {
    StepLowersPotential(g, Coin(pickLeft, n));
  }

  /** A still board with spanning groups: they are reported and the run goes on at step n. */
  lemma SettleCleared(g: Grid, pickLeft: (nat, int, int) -> bool, n: nat)
    requires g.Valid() && Step(g, Coin(pickLeft, n)).shifts == [] && Cleared(g) != {}
    ensures Settle(g, pickLeft, n).board == Settle(g.Erase(Cleared(g)), pickLeft, n).board
    ensures Settle(g, pickLeft, n).clears == [Cleared(g)] + Settle(g.Erase(Cleared(g)), pickLeft, n).clears
  {
  }

  /** A still board with nothing to clear ends the run, with nothing more reported. */
  lemma SettleStill(g: Grid, pickLeft: (nat, int, int) -> bool, n: nat)
    requires g.Valid() && Step(g, Coin(pickLeft, n)).shifts == [] && Cleared(g) == {}
    ensures Settle(g, pickLeft, n) == Run(g, [])
  {
  }

  /** A run ends on a board where no grain can move and no group spans the board. */
  lemma {:induction false} SettleQuiet(g: Grid, pickLeft: (nat, int, int) -> bool, n: nat)
    requires g.Valid()
    ensures Settled(Settle(g, pickLeft, n).board) && Cleared(Settle(g, pickLeft, n).board) == {}
    decreases g.Weight()
  {
    var coin := Coin(pickLeft, n);
    var pass := Step(g, coin);
    StepLowersPotential(g, coin);
    if pass.shifts != [] {
      SettleQuiet(pass.grid, pickLeft, n + 1);
    } else if Cleared(g) != {} {
      ClearLowersWeight(g);
      SettleQuiet(g.Erase(Cleared(g)), pickLeft, n);
    } else {
      StepSettledIff(g, coin);
    }
  }

  lemma TotalCons(c: set<Pos>, rest: seq<set<Pos>>)
    ensures Total([c] + rest) == |c| + Total(rest)
  {
    assert ([c] + rest)[1..] == rest;
  }

  /**
   * No grain is created or lost except by clearing: the grains left at the end
   * plus the grains of every reported pass are the grains the run started with.
   */
  lemma {:induction false} SettleGrains(g: Grid, pickLeft: (nat, int, int) -> bool, n: nat)
    requires g.Valid()
    ensures Settle(g, pickLeft, n).board.Grains() + Total(Settle(g, pickLeft, n).clears) == g.Grains()
    decreases g.Weight()
  {
    var coin := Coin(pickLeft, n);
    var pass := Step(g, coin);
    StepLowersPotential(g, coin);
    if pass.shifts != [] {
      StepConservesMaterial(g, coin);
      SettleGrains(pass.grid, pickLeft, n + 1);
    } else if Cleared(g) != {} {
      ClearLowersWeight(g);
      SettleGrains(g.Erase(Cleared(g)), pickLeft, n);
      TotalCons(Cleared(g), Settle(g.Erase(Cleared(g)), pickLeft, n).clears);
    }
  }

  /** Every pass a run reports removed at least one cell. */
  lemma {:induction false} SettleClearsNonEmpty(g: Grid, pickLeft: (nat, int, int) -> bool, n: nat)
    requires g.Valid()
    ensures {} !in Settle(g, pickLeft, n).clears
    decreases g.Weight()
  {
    var coin := Coin(pickLeft, n);
    var pass := Step(g, coin);
    StepLowersPotential(g, coin);
    if pass.shifts != [] {
      SettleClearsNonEmpty(pass.grid, pickLeft, n + 1);
    } else if Cleared(g) != {} {
      ClearLowersWeight(g);
      SettleClearsNonEmpty(g.Erase(Cleared(g)), pickLeft, n);
    }
  }

  /** Each round of a run lowers the height potential: at most one pass per unit of it. */
  lemma {:induction false} SettleWeight(g: Grid, pickLeft: (nat, int, int) -> bool, n: nat)
    requires g.Valid()
    ensures Settle(g, pickLeft, n).board.Weight() + |Settle(g, pickLeft, n).clears| <= g.Weight()
    decreases g.Weight()
  {
    var coin := Coin(pickLeft, n);
    var pass := Step(g, coin);
    StepLowersPotential(g, coin);
    if pass.shifts != [] {
      SettleWeight(pass.grid, pickLeft, n + 1);
    } else if Cleared(g) != {} {
      ClearLowersWeight(g);
      SettleWeight(g.Erase(Cleared(g)), pickLeft, n);
    }
  }
}
