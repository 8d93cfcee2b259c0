/**
 * Which grains ClearSand removes, stated without the search that finds them.
 *
 * A group is a set of grains of one colour joined through shared edges (up,
 * down, left, right; never diagonally). A group that reaches both the left
 * wall (x == 0) and the right wall (x == width - 1) is cleared.
 */
module Clearing {
  import opened Constants
  import opened GridModel

  /** The neighbour offsets, in the order FindConnectedGroup tries them. */
  function Directions(): (ds: seq<Pos>)
    ensures |ds| == 4
  {
    [Pos(0, 1), Pos(0, -1), Pos(1, 0), Pos(-1, 0)]
  }

  function Offset(p: Pos, d: Pos): Pos
  {
    Pos(p.x + d.x, p.y + d.y)
  }

  /** p and q share an edge. */
  predicate Adjacent(p: Pos, q: Pos)
  {
    || (p.x == q.x && (q.y == p.y + 1 || q.y == p.y - 1))
    || (p.y == q.y && (q.x == p.x + 1 || q.x == p.x - 1))
  }

  /** The four offsets reach exactly the edge neighbours of a cell. */
  lemma DirectionsAreNeighbours(p: Pos)
    ensures forall k | 0 <= k < 4 :: Adjacent(p, Offset(p, Directions()[k]))
    ensures forall q | Adjacent(p, q) :: exists k | 0 <= k < 4 :: q == Offset(p, Directions()[k])
  {
    forall q | Adjacent(p, q)
      ensures exists k | 0 <= k < 4 :: q == Offset(p, Directions()[k])
    {
      if q.y == p.y + 1 && q.x == p.x {
        assert q == Offset(p, Directions()[0]);
      } else if q.y == p.y - 1 && q.x == p.x {
        assert q == Offset(p, Directions()[1]);
      } else if q.x == p.x + 1 {
        assert q == Offset(p, Directions()[2]);
      } else {
        assert q == Offset(p, Directions()[3]);
      }
    }
  }

  /** p is a cell of the board holding material t. */
  predicate Holds(g: Grid, t: BlockType, p: Pos)
    requires g.Valid()
  {
    g.InBounds(p.x, p.y) && g.At(p) == t
  }

  /** A walk through edge-neighbouring cells that all hold t. */
  predicate IsPath(g: Grid, t: BlockType, path: seq<Pos>)
    requires g.Valid()
  {
    && |path| > 0
    && (forall i | 0 <= i < |path| :: Holds(g, t, path[i]))
    && (forall i | 0 <= i < |path| - 1 :: Adjacent(path[i], path[i + 1]))
  }

  /** q can be reached from p without leaving cells that hold t. */
  ghost predicate Linked(g: Grid, t: BlockType, p: Pos, q: Pos)
    requires g.Valid()
  {
    exists path :: IsPath(g, t, path) && path[0] == p && path[|path| - 1] == q
  }

  /** The group of p: every cell reachable from p through cells of p's colour. */
  ghost function Component(g: Grid, p: Pos): set<Pos>
    requires g.Valid()
  {
    set q | q in AllCells(g) && Linked(g, g.At(p), p, q)
  }

  /** The group touches the left wall and the right wall. */
  ghost predicate Spans(g: Grid, s: set<Pos>)
  {
    (exists q :: q in s && q.x == 0) && (exists q :: q in s && q.x == g.width - 1)
  }

  /** Every grain whose group touches both walls: what one ClearSand removes. */
  ghost function Cleared(g: Grid): set<Pos>
    requires g.Valid()
  {
    set p | p in AllCells(g) && g.At(p) != Empty && Spans(g, Component(g, p))
  }

  // ---------------------------------------------------------------------------
  // Reachability is an equivalence on the cells holding t

  lemma LinkedReflexive(g: Grid, t: BlockType, p: Pos)
    requires g.Valid() && Holds(g, t, p)
    ensures Linked(g, t, p, p)
  {
    assert IsPath(g, t, [p]);
  }

  lemma LinkedEnds(g: Grid, t: BlockType, p: Pos, q: Pos)
    requires g.Valid() && Linked(g, t, p, q)
    ensures Holds(g, t, p) && Holds(g, t, q)
  {
    var path :| IsPath(g, t, path) && path[0] == p && path[|path| - 1] == q;
    assert Holds(g, t, path[0]) && Holds(g, t, path[|path| - 1]);
  }

  lemma LinkedSymmetric(g: Grid, t: BlockType, p: Pos, q: Pos)
    requires g.Valid() && Linked(g, t, p, q)
    ensures Linked(g, t, q, p)
  {
    var path :| IsPath(g, t, path) && path[0] == p && path[|path| - 1] == q;
    var n := |path|;
    var back := seq(n, i requires 0 <= i < n => path[n - 1 - i]);
    forall i | 0 <= i < n - 1
      ensures Adjacent(back[i], back[i + 1])
    {
      assert Adjacent(path[n - 2 - i], path[n - 1 - i]);
    }
    forall i | 0 <= i < n
      ensures Holds(g, t, back[i])
    {
      assert Holds(g, t, path[n - 1 - i]);
    }
    assert IsPath(g, t, back) && back[0] == q && back[n - 1] == p;
  }

  lemma LinkedTransitive(g: Grid, t: BlockType, p: Pos, q: Pos, r: Pos)
    requires g.Valid() && Linked(g, t, p, q) && Linked(g, t, q, r)
    ensures Linked(g, t, p, r)
  {
    var a :| IsPath(g, t, a) && a[0] == p && a[|a| - 1] == q;
    var b :| IsPath(g, t, b) && b[0] == q && b[|b| - 1] == r;
    var c := a + b[1..];
    forall i | 0 <= i < |c|
      ensures Holds(g, t, c[i])
    {
      if i >= |a| {
        assert c[i] == b[i - |a| + 1];
      }
    }
    forall i | 0 <= i < |c| - 1
      ensures Adjacent(c[i], c[i + 1])
    {
      if i < |a| - 1 {
      } else if i == |a| - 1 {
        assert c[i] == b[0] && c[i + 1] == b[1];
      } else {
        assert c[i] == b[i - |a| + 1] && c[i + 1] == b[i - |a| + 2];
      }
    }
    assert c[|c| - 1] == r by {
      if |b| == 1 {
      } else {
        assert c[|c| - 1] == b[|b| - 1];
      }
    }
    assert IsPath(g, t, c) && c[0] == p;
  }

  /** A path can be extended by one more neighbouring cell of the same colour. */
  lemma LinkedStep(g: Grid, t: BlockType, p: Pos, q: Pos, r: Pos)
    requires g.Valid() && Linked(g, t, p, q) && Adjacent(q, r) && Holds(g, t, r)
    ensures Linked(g, t, p, r)
  {
    var path :| IsPath(g, t, path) && path[0] == p && path[|path| - 1] == q;
    var longer := path + [r];
    assert forall i | 0 <= i < |path| :: longer[i] == path[i];
    assert IsPath(g, t, longer) && longer[0] == p && longer[|longer| - 1] == r;
  }

  /** Every cell of a path is reachable from its first cell. */
  lemma PathPrefix(g: Grid, t: BlockType, path: seq<Pos>, i: nat)
    requires g.Valid() && IsPath(g, t, path) && i < |path|
    ensures Linked(g, t, path[0], path[i])
  {
    var prefix := path[..i + 1];
    assert IsPath(g, t, prefix) && prefix[0] == path[0] && prefix[i] == path[i];
  }

  // ---------------------------------------------------------------------------
  // Groups

  /** Every cell of the board belongs to its own group. */
  lemma ComponentOwn(g: Grid, p: Pos)
    requires g.Valid() && g.InBounds(p.x, p.y)
    ensures p in Component(g, p)
  {
    LinkedReflexive(g, g.At(p), p);
    InAllCells(g, p);
  }

  /** Membership in a group: reachable through cells of the group's colour. */
  lemma ComponentMember(g: Grid, p: Pos, q: Pos)
    requires g.Valid()
    ensures q in Component(g, p) <==> Linked(g, g.At(p), p, q)
  {
    if Linked(g, g.At(p), p, q) {
      LinkedEnds(g, g.At(p), p, q);
      InAllCells(g, q);
    }
  }

  /** Two cells of one group have the same group and the same colour. */
  lemma ComponentShared(g: Grid, p: Pos, q: Pos)
    requires g.Valid() && q in Component(g, p)
    ensures g.At(q) == g.At(p)
    ensures Component(g, q) == Component(g, p)
  {
    var t := g.At(p);
    LinkedEnds(g, t, p, q);
    forall r | r in Component(g, q)
      ensures r in Component(g, p)
    {
      LinkedTransitive(g, t, p, q, r);
    }
    forall r | r in Component(g, p)
      ensures r in Component(g, q)
    {
      LinkedSymmetric(g, t, p, q);
      LinkedTransitive(g, t, q, p, r);
    }
  }

  /** Being in a group is symmetric. */
  lemma ComponentSymmetric(g: Grid, p: Pos, q: Pos)
    requires g.Valid() && q in Component(g, p)
    ensures p in Component(g, q)
  {
    ComponentShared(g, p, q);
    LinkedEnds(g, g.At(p), p, q);
    ComponentOwn(g, p);
  }

  /**
   * A set holding start that contains every same-coloured neighbour of each of
   * its members contains start's whole group.
   */
  lemma {:induction false} ClosedContainsComponent(g: Grid, s: set<Pos>, start: Pos)
    requires g.Valid() && start in s
    requires forall p, q | p in s && Adjacent(p, q) && Holds(g, g.At(start), q) :: q in s
    ensures Component(g, start) <= s
  {
    var t := g.At(start);
    forall q | q in Component(g, start)
      ensures q in s
    {
      var path :| IsPath(g, t, path) && path[0] == start && path[|path| - 1] == q;
      PathInClosed(g, t, s, path, |path| - 1);
    }
  }

  lemma {:induction false} PathInClosed(g: Grid, t: BlockType, s: set<Pos>, path: seq<Pos>, i: nat)
    requires g.Valid() && IsPath(g, t, path) && path[0] in s && i < |path|
    requires forall p, q | p in s && Adjacent(p, q) && Holds(g, t, q) :: q in s
    ensures path[i] in s
  {
    if i > 0 {
      PathInClosed(g, t, s, path, i - 1);
      assert Adjacent(path[i - 1], path[i]) && Holds(g, t, path[i]);
    }
  }

  // ---------------------------------------------------------------------------
  // Erasing whole groups leaves the other groups as they were

  /** Every group with a cell in e lies wholly inside e. */
  ghost predicate WholeGroups(g: Grid, e: set<Pos>)
    requires g.Valid()
  {
    forall p | p in e :: Component(g, p) <= e
  }

  lemma ErasePreservesComponent(g: Grid, e: set<Pos>, p: Pos)
    requires g.Valid() && WholeGroups(g, e) && p !in e && g.At(p) != Empty
    ensures g.Erase(e).At(p) == g.At(p)
    ensures Component(g.Erase(e), p) == Component(g, p)
  {
    var g' := g.Erase(e);
    var t := g.At(p);
    forall q | q in Component(g', p)
      ensures q in Component(g, p)
    {
      var path :| IsPath(g', t, path) && path[0] == p && path[|path| - 1] == q;
      forall i | 0 <= i < |path|
        ensures Holds(g, t, path[i])
      {
        assert Holds(g', t, path[i]);
      }
      assert IsPath(g, t, path);
      ComponentMember(g, p, q);
    }
    forall q | q in Component(g, p)
      ensures q in Component(g', p)
    {
      var path :| IsPath(g, t, path) && path[0] == p && path[|path| - 1] == q;
      forall i | 0 <= i < |path|
        ensures Holds(g', t, path[i])
      {
        PathPrefix(g, t, path, i);
        ComponentMember(g, p, path[i]);
        if path[i] in e {
          ComponentSymmetric(g, p, path[i]);
          assert false;
        }
        assert Holds(g, t, path[i]);
      }
      assert IsPath(g', t, path);
      ComponentMember(g', p, q);
    }
  }

  /** What ClearSand removes is a union of whole groups, each of grains and each touching both walls. */
  lemma ClearedWholeGroups(g: Grid)
    requires g.Valid()
    ensures WholeGroups(g, Cleared(g))
    ensures forall p | p in Cleared(g) :: g.InBounds(p.x, p.y) && g.At(p) != Empty && Spans(g, Component(g, p))
  {
    SeenEnd(g);
    SeenWhole(g, g.height, 0);
    ClearedOccupied(g);
  }

  /** Only sand on the board is cleared. */
  lemma ClearedOccupied(g: Grid)
    requires g.Valid()
    ensures forall p | p in Cleared(g) :: g.InBounds(p.x, p.y) && g.At(p) != Empty
  {
    forall p | p in Cleared(g)
      ensures g.InBounds(p.x, p.y)
    {
      InAllCells(g, p);
    }
  }

  /** Clearing is idempotent: once the spanning groups are gone no group spans. */
  lemma ClearIdempotent(g: Grid)
    requires g.Valid()
    ensures Cleared(g.Erase(Cleared(g))) == {}
  {
    var e := Cleared(g);
    var g' := g.Erase(e);
    ClearedWholeGroups(g);
    forall p | p in Cleared(g')
      ensures false
    {
      InAllCells(g', p);
      assert p !in e && g.At(p) != Empty;
      ErasePreservesComponent(g, e, p);
      InAllCells(g, p);
    }
  }

  // ---------------------------------------------------------------------------
  // The row-by-row scan of ClearSand

  /** q comes before cursor (x, y) in ClearSand's scan: rows top-down, each left to right. */
  predicate Before(q: Pos, y: int, x: int)
  {
    q.y < y || (q.y == y && q.x < x)
  }

  /** The grains whose group has a cell the scan has already passed: the visited set. */
  ghost function Seen(g: Grid, y: int, x: int): set<Pos>
    requires g.Valid()
  {
    set p | p in AllCells(g) && g.At(p) != Empty && exists q :: q in Component(g, p) && Before(q, y, x)
  }

  /** The grains the scan has cleared so far. */
  ghost function ClearedBefore(g: Grid, y: int, x: int): set<Pos>
    requires g.Valid()
  {
    set p | p in Seen(g, y, x) && Spans(g, Component(g, p))
  }

  lemma SeenStart(g: Grid)
    requires g.Valid()
    ensures Seen(g, 0, 0) == {} && ClearedBefore(g, 0, 0) == {}
  {
    forall p | p in AllCells(g)
      ensures forall q :: q in Component(g, p) ==> !Before(q, 0, 0)
    {
    }
  }

  lemma SeenEnd(g: Grid)
    requires g.Valid()
    ensures ClearedBefore(g, g.height, 0) == Cleared(g)
  {
    forall p | p in AllCells(g) && g.At(p) != Empty
      ensures p in Seen(g, g.height, 0)
    {
      InAllCells(g, p);
      ComponentOwn(g, p);
    }
  }

  lemma SeenNextRow(g: Grid, y: int)
    requires g.Valid()
    ensures Seen(g, y, g.width) == Seen(g, y + 1, 0)
    ensures ClearedBefore(g, y, g.width) == ClearedBefore(g, y + 1, 0)
  {
    forall p | p in AllCells(g)
      ensures forall q :: q in Component(g, p) ==> (Before(q, y, g.width) <==> Before(q, y + 1, 0))
    {
      forall q | q in Component(g, p)
        ensures Before(q, y, g.width) <==> Before(q, y + 1, 0)
      {
        InAllCells(g, q);
      }
    }
  }

  /** Passing cell p adds p's group to the seen grains, if p holds a grain. */
  lemma SeenNextCell(g: Grid, y: int, x: int)
    requires g.Valid() && g.InBounds(x, y)
    ensures var p := Pos(x, y);
      Seen(g, y, x + 1) == Seen(g, y, x) + (if g.At(p) != Empty then Component(g, p) else {})
    ensures g.At(Pos(x, y)) == Empty ==> Seen(g, y, x + 1) == Seen(g, y, x)
  {
    var p := Pos(x, y);
    forall r | r in Seen(g, y, x + 1)
      ensures r in Seen(g, y, x) || (g.At(p) != Empty && r in Component(g, p))
    {
      var q :| q in Component(g, r) && Before(q, y, x + 1);
      if q == p {
        ComponentShared(g, r, p);
        ComponentOwn(g, p);
        ComponentSymmetric(g, r, p);
      }
    }
    if g.At(p) != Empty {
      forall r | r in Component(g, p)
        ensures r in Seen(g, y, x + 1)
      {
        ComponentShared(g, p, r);
        ComponentSymmetric(g, p, r);
        LinkedEnds(g, g.At(p), p, r);
        InAllCells(g, r);
      }
    }
  }

  /** Passing cell p adds p's group to the cleared grains when that group touches both walls. */
  lemma ClearedNextCell(g: Grid, y: int, x: int)
    requires g.Valid() && g.InBounds(x, y)
    ensures var p := Pos(x, y);
      ClearedBefore(g, y, x + 1) == ClearedBefore(g, y, x) +
        (if g.At(p) != Empty && Spans(g, Component(g, p)) then Component(g, p) else {})
    ensures var p := Pos(x, y);
      !(g.At(p) != Empty && Spans(g, Component(g, p))) ==> ClearedBefore(g, y, x + 1) == ClearedBefore(g, y, x)
  {
    var p := Pos(x, y);
    var grown := if g.At(p) != Empty && Spans(g, Component(g, p)) then Component(g, p) else {};
    SeenNextCell(g, y, x);
    forall r | r in ClearedBefore(g, y, x + 1)
      ensures r in ClearedBefore(g, y, x) + grown
    {
      if r !in Seen(g, y, x) {
        ComponentShared(g, p, r);
      }
    }
    forall r | r in grown
      ensures r in ClearedBefore(g, y, x + 1)
    {
      ComponentShared(g, p, r);
    }
  }

  /**
   * Passing a cell that is empty once the groups cleared so far are erased, or
   * whose grain's group was already met, changes neither set.
   */
  lemma PassSeenCell(g: Grid, y: int, x: int)
    requires g.Valid() && g.InBounds(x, y)
    requires g.Erase(ClearedBefore(g, y, x)).At(Pos(x, y)) == Empty || Pos(x, y) in Seen(g, y, x)
    ensures Seen(g, y, x + 1) == Seen(g, y, x)
    ensures ClearedBefore(g, y, x + 1) == ClearedBefore(g, y, x)
  {
    SeenWhole(g, y, x);
    PassSeen(g, y, x);
    PassCleared(g, y, x);
  }

  lemma PassSeen(g: Grid, y: int, x: int)
    requires g.Valid() && g.InBounds(x, y)
    requires g.At(Pos(x, y)) == Empty || Pos(x, y) in Seen(g, y, x)
    ensures Seen(g, y, x + 1) == Seen(g, y, x)
  {
    var p := Pos(x, y);
    SeenNextCell(g, y, x);
    if g.At(p) != Empty {
      SeenWhole(g, y, x);
      AbsorbSubset(Seen(g, y, x), Component(g, p));
    }
  }

  lemma PassCleared(g: Grid, y: int, x: int)
    requires g.Valid() && g.InBounds(x, y)
    requires g.At(Pos(x, y)) == Empty || Pos(x, y) in Seen(g, y, x)
    ensures ClearedBefore(g, y, x + 1) == ClearedBefore(g, y, x)
  {
    var p := Pos(x, y);
    if g.At(p) != Empty && Spans(g, Component(g, p)) {
      assert p in ClearedBefore(g, y, x);
      SeenWhole(g, y, x);
      assert Component(g, p) <= ClearedBefore(g, y, x);
      AbsorbSubset(ClearedBefore(g, y, x), Component(g, p));
      ClearedNextCell(g, y, x);
    } else {
      ClearedNextCell(g, y, x);
    }
  }

  /**
   * Meeting a grain whose group has not been met yet: the grain and its group
   * are untouched by the erasures so far, and passing it adds the group to the
   * seen grains, and to the cleared ones exactly when it touches both walls.
   */
  lemma MeetGroup(g: Grid, y: int, x: int)
    requires g.Valid() && g.InBounds(x, y)
    requires g.Erase(ClearedBefore(g, y, x)).At(Pos(x, y)) != Empty && Pos(x, y) !in Seen(g, y, x)
    ensures var p := Pos(x, y); var e := ClearedBefore(g, y, x);
      && g.At(p) != Empty && g.Erase(e).At(p) == g.At(p)
      && Component(g.Erase(e), p) == Component(g, p)
      && Component(g, p) !! Seen(g, y, x) && Component(g, p) !! e
      && Seen(g, y, x + 1) == Seen(g, y, x) + Component(g, p)
      && (Spans(g, Component(g, p)) ==> ClearedBefore(g, y, x + 1) == e + Component(g, p))
      && (!Spans(g, Component(g, p)) ==> ClearedBefore(g, y, x + 1) == e)
  {
    var p := Pos(x, y);
    SeenWhole(g, y, x);
    ErasePreservesComponent(g, ClearedBefore(g, y, x), p);
    UnseenGroup(g, y, x, p);
    SeenNextCell(g, y, x);
    ClearedNextCell(g, y, x);
  }

  lemma AbsorbSubset<T>(a: set<T>, b: set<T>)
    requires b <= a
    ensures a + b == a
  {
  }

  /** The grains seen so far form whole groups, and so do those cleared so far. */
  lemma SeenWhole(g: Grid, y: int, x: int)
    requires g.Valid()
    ensures WholeGroups(g, Seen(g, y, x)) && WholeGroups(g, ClearedBefore(g, y, x))
    ensures ClearedBefore(g, y, x) <= Seen(g, y, x)
  {
    forall p, r | p in Seen(g, y, x) && r in Component(g, p)
      ensures r in Seen(g, y, x) && Component(g, r) == Component(g, p)
    {
      ComponentShared(g, p, r);
      LinkedEnds(g, g.At(p), p, r);
      InAllCells(g, r);
    }
  }

  /** The group of a grain the scan has not seen shares no cell with the seen ones. */
  lemma UnseenGroup(g: Grid, y: int, x: int, p: Pos)
    requires g.Valid() && g.InBounds(p.x, p.y) && g.At(p) != Empty && p !in Seen(g, y, x)
    ensures Component(g, p) !! Seen(g, y, x)
  {
    InAllCells(g, p);
    forall r | r in Component(g, p) && r in Seen(g, y, x)
      ensures false
    {
      ComponentShared(g, p, r);
    }
  }
}
