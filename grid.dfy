/** The small Option type used for the treasure cell and the death record. */
module Wrappers {
  datatype Option<T> = None | Some(value: T)
}

/**
 * Cells of the square board, the four unit moves and walks: sequences of
 * moves that stay on passable cells. A walk is the reference notion against
 * which the breadth-first search is proved, and the notion the automatic
 * route-following of the game is proved against.
 */
module Grid {

  /** A board cell (x, y), the column first, as in the game. */
  type Cell = (int, int)

  /** A unit move vector (dx, dy). */
  type Move = (int, int)

  /** The four moves in the order the search and the cue derivation try them. */
  const Directions: seq<Move> := [(-1, 0), (1, 0), (0, -1), (0, 1)]

  predicate InBounds(c: Cell, size: int) {
    0 <= c.0 < size && 0 <= c.1 < size
  }

  function Add(c: Cell, m: Move): Cell {
    (c.0 + m.0, c.1 + m.1)
  }

  function Abs(n: int): nat {
    if n < 0 then -n else n
  }

  /** Two cells that share a side (Manhattan distance 1). */
  predicate Adjacent(a: Cell, b: Cell) {
    Abs(a.0 - b.0) + Abs(a.1 - b.1) == 1
  }

  /** A cell the search may step onto. */
  predicate Passable(c: Cell, size: int, obstacles: set<Cell>) {
    InBounds(c, size) && c !in obstacles
  }

  /** All in-bounds cells of a size x size board. */
  function AllCells(size: int): set<Cell> {
    set x, y | 0 <= x < size && 0 <= y < size :: (x, y)
  }

  /** The cell reached from `start` by applying `moves` in order. */
  function Follow(start: Cell, moves: seq<Move>): Cell
    decreases |moves|
  {
    if moves == [] then start
    else Add(Follow(start, moves[..|moves| - 1]), moves[|moves| - 1])
  }

  /**
   * Every move is one of the four directions and every cell entered (after
   * each move) is in bounds and not an obstacle. The start cell itself is
   * not tested, as in the search.
   */
  predicate IsWalk(start: Cell, moves: seq<Move>, size: int, obstacles: set<Cell>)
    decreases |moves|
  {
    moves == [] ||
    (IsWalk(start, moves[..|moves| - 1], size, obstacles) &&
     moves[|moves| - 1] in Directions &&
     Passable(Follow(start, moves), size, obstacles))
  }

  /** One step of a unit move reaches exactly the side neighbours. */
  lemma AdjacentIffStep(a: Cell, b: Cell)
    ensures Adjacent(a, b) <==> exists k :: 0 <= k < |Directions| && b == Add(a, Directions[k])
  {
    if Adjacent(a, b) {
      if b.0 == a.0 - 1 {
        assert b == Add(a, Directions[0]);
      } else if b.0 == a.0 + 1 {
        assert b == Add(a, Directions[1]);
      } else if b.1 == a.1 - 1 {
        assert b == Add(a, Directions[2]);
      } else {
        assert b == Add(a, Directions[3]);
      }
    }
  }

  lemma InBoardIffInBounds(c: Cell, size: int)
    ensures c in AllCells(size) <==> InBounds(c, size)
  {
    if InBounds(c, size) {
      var (x, y) := c;
      assert (x, y) in AllCells(size);
    }
  }

  /** Following `u + v` is following `u`, then `v` from where `u` ends. */
  lemma {:induction false} FollowConcat(start: Cell, u: seq<Move>, v: seq<Move>)
    ensures Follow(start, u + v) == Follow(Follow(start, u), v)
    decreases |v|
  {
    if v == [] {
      assert u + v == u;
    } else {
      var v' := v[..|v| - 1];
      assert (u + v)[..|u + v| - 1] == u + v';
      FollowConcat(start, u, v');
    }
  }

  /** A walk extended by one passable step is a walk. */
  lemma WalkExtend(start: Cell, w: seq<Move>, d: Move, size: int, obstacles: set<Cell>)
    requires IsWalk(start, w, size, obstacles)
    requires d in Directions && Passable(Add(Follow(start, w), d), size, obstacles)
    ensures Follow(start, w + [d]) == Add(Follow(start, w), d)
    ensures IsWalk(start, w + [d], size, obstacles)
  {
    assert (w + [d])[..|w|] == w;
  }

  /** Every prefix of a walk is a walk. */
  lemma {:induction false} WalkPrefix(start: Cell, w: seq<Move>, k: nat, size: int, obstacles: set<Cell>)
    requires IsWalk(start, w, size, obstacles) && k <= |w|
    ensures IsWalk(start, w[..k], size, obstacles)
    decreases |w| - k
  {
    if k < |w| {
      WalkPrefix(start, w[..|w| - 1], k, size, obstacles);
      assert w[..|w| - 1][..k] == w[..k];
    } else {
      assert w[..k] == w;
    }
  }

  /**
   * Move `k` of a walk is a unit move from the cell after `k` moves to a
   * passable cell: the explicit, move-by-move form of IsWalk.
   */
  lemma WalkStep(start: Cell, w: seq<Move>, k: nat, size: int, obstacles: set<Cell>)
    requires IsWalk(start, w, size, obstacles) && k < |w|
    ensures w[k] in Directions
    ensures Follow(start, w[..k + 1]) == Add(Follow(start, w[..k]), w[k])
    ensures Passable(Follow(start, w[..k + 1]), size, obstacles)
  {
    WalkPrefix(start, w, k + 1, size, obstacles);
    assert w[..k + 1][..k] == w[..k];
  }

  /** Walks compose: a walk to c followed by a walk from c. */
  lemma {:induction false} WalkConcat(start: Cell, u: seq<Move>, v: seq<Move>, size: int, obstacles: set<Cell>)
    requires IsWalk(start, u, size, obstacles) && IsWalk(Follow(start, u), v, size, obstacles)
    ensures IsWalk(start, u + v, size, obstacles)
    decreases |v|
  {
    if v == [] {
      assert u + v == u;
    } else {
      var v' := v[..|v| - 1];
      assert (u + v)[..|u + v| - 1] == u + v';
      WalkConcat(start, u, v', size, obstacles);
      FollowConcat(start, u, v);
    }
  }

  /** The part of a walk after its first `u` moves is a walk from where `u` ends. */
  lemma {:induction false} WalkSuffix(start: Cell, u: seq<Move>, v: seq<Move>, size: int, obstacles: set<Cell>)
    requires IsWalk(start, u + v, size, obstacles)
    ensures IsWalk(Follow(start, u), v, size, obstacles)
    decreases |v|
  {
    if v != [] {
      var v' := v[..|v| - 1];
      assert (u + v)[..|u + v| - 1] == u + v';
      WalkSuffix(start, u, v', size, obstacles);
      FollowConcat(start, u, v);
    }
  }

  /**
   * A shortest walk to its end cell never enters the same cell twice: a
   * repeated cell would let the loop between the two visits be cut out.
   */
  lemma ShortestWalkIsSimple(start: Cell, w: seq<Move>, size: int, obstacles: set<Cell>)
    requires IsWalk(start, w, size, obstacles)
    requires forall w' :: IsWalk(start, w', size, obstacles) && Follow(start, w') == Follow(start, w) ==> |w| <= |w'|
    ensures forall i, j :: 0 <= i < j <= |w| ==> Follow(start, w[..i]) != Follow(start, w[..j])
  {
    forall i, j | 0 <= i < j <= |w|
      ensures Follow(start, w[..i]) != Follow(start, w[..j])
    {
      if Follow(start, w[..i]) == Follow(start, w[..j]) {
        CutLoop(start, w, i, j, size, obstacles);
        assert false;
      }
    }
  }

  /** Cutting out the moves between two visits of the same cell leaves a walk to the same end. */
  lemma CutLoop(start: Cell, w: seq<Move>, i: nat, j: nat, size: int, obstacles: set<Cell>)
    requires IsWalk(start, w, size, obstacles)
    requires i < j <= |w| && Follow(start, w[..i]) == Follow(start, w[..j])
    ensures IsWalk(start, w[..i] + w[j..], size, obstacles)
    ensures Follow(start, w[..i] + w[j..]) == Follow(start, w)
    ensures |w[..i] + w[j..]| < |w|
  {
    WalkPrefix(start, w, i, size, obstacles);
    assert w == w[..j] + w[j..];
    WalkSuffix(start, w[..j], w[j..], size, obstacles);
    WalkConcat(start, w[..i], w[j..], size, obstacles);
    FollowConcat(start, w[..i], w[j..]);
    FollowConcat(start, w[..j], w[j..]);
  }
}
