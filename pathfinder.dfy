/**
 * Breadth-first search from a start cell to a goal cell over the four-way
 * grid (function `bfs`). The queue holds (cell, moves so far) entries and
 * is consumed from its front; `visited` holds every cell ever enqueued.
 */
module Pathfinder {
  import opened Grid

  /** A queue entry: a cell and the moves that lead to it from the start. */
  type Entry = (Cell, seq<Move>)

  function QueueCells(queue: seq<Entry>): set<Cell> {
    set e | e in queue :: e.0
  }

  /** Cells of the queue entries whose move list has length `k`. */
  function LayerCells(queue: seq<Entry>, k: nat): set<Cell> {
    set e | e in queue && |e.1| == k :: e.0
  }

  predicate DistinctCells(queue: seq<Entry>) {
    forall i, j :: 0 <= i < j < |queue| ==> queue[i].0 != queue[j].0
  }

  /** Each entry's moves form a walk from `start` to the entry's cell. */
  predicate EntriesAreWalks(start: Cell, queue: seq<Entry>, size: int, obstacles: set<Cell>) {
    forall i :: 0 <= i < |queue| ==>
      IsWalk(start, queue[i].1, size, obstacles) && Follow(start, queue[i].1) == queue[i].0
  }

  /**
   * The breadth-first shape of the queue: move counts ascend, starting at
   * `layer` at the head and never exceeding `layer + 1`.
   */
  predicate Layered(queue: seq<Entry>, layer: nat) {
    (forall i :: 0 <= i < |queue| ==> layer <= |queue[i].1| <= layer + 1) &&
    (forall i, j :: 0 <= i < j < |queue| ==> |queue[i].1| <= |queue[j].1|) &&
    (queue != [] ==> |queue[0].1| == layer)
  }

  /**
   * Every cell reachable in fewer than `layer` moves has been expanded; every
   * cell reachable in exactly `layer` moves has been expanded or waits in
   * the queue with `layer` moves.
   */
  ghost predicate ShortWalksReached(start: Cell, size: int, obstacles: set<Cell>, done: set<Cell>, queue: seq<Entry>, layer: nat) {
    (forall w :: IsWalk(start, w, size, obstacles) && |w| < layer ==> Follow(start, w) in done) &&
    (forall w :: IsWalk(start, w, size, obstacles) && |w| == layer ==> Follow(start, w) in done + LayerCells(queue, layer))
  }

  /** `e` is one move beyond `current`, reached by `path`, onto a passable cell. */
  predicate Extends(current: Cell, path: seq<Move>, e: Entry, size: int, obstacles: set<Cell>) {
    |e.1| == |path| + 1 && e.1[..|path|] == path && e.1[|path|] in Directions &&
    e.0 == Add(current, e.1[|path|]) && Passable(e.0, size, obstacles)
  }

  /** Every passable neighbour of a cell in `done` is in `visited`. */
  predicate Closed(done: set<Cell>, visited: set<Cell>, size: int, obstacles: set<Cell>) {
    forall c, k :: c in done && 0 <= k < |Directions| && Passable(Add(c, Directions[k]), size, obstacles) ==>
      Add(c, Directions[k]) in visited
  }

  /**
   * The inner loop of `bfs`: tries the four directions from `current` in
   * order and enqueues each in-bounds, unvisited, non-obstacle neighbour
   * with `path` extended by that move, marking it visited.
   */
  method Expand(current: Cell, path: seq<Move>, size: int, obstacles: set<Cell>, visited: set<Cell>)
    returns (visited': set<Cell>, added: seq<Entry>)
    ensures visited' == visited + QueueCells(added)
    ensures forall i :: 0 <= i < |added| ==>
      Extends(current, path, added[i], size, obstacles) && added[i].0 !in visited
    ensures DistinctCells(added)
    ensures forall k :: 0 <= k < |Directions| && Passable(Add(current, Directions[k]), size, obstacles) ==>
      Add(current, Directions[k]) in visited'
  {
    visited' := visited;
    added := [];
    for k := 0 to |Directions|
      invariant visited' == visited + QueueCells(added)
      invariant forall i :: 0 <= i < |added| ==>
        Extends(current, path, added[i], size, obstacles) && added[i].0 !in visited
      invariant DistinctCells(added)
      invariant forall k' :: 0 <= k' < k && Passable(Add(current, Directions[k']), size, obstacles) ==>
        Add(current, Directions[k']) in visited'
    {
      var (dx, dy) := Directions[k];
      var (nx, ny) := (current.0 + dx, current.1 + dy);
      if 0 <= nx < size && 0 <= ny < size && (nx, ny) !in visited' && (nx, ny) !in obstacles {
        var e := ((nx, ny), path + [(dx, dy)]);
        assert e.1[..|path|] == path;
        assert forall i :: 0 <= i < |added| ==> added[i].0 in visited';
        visited' := visited' + {(nx, ny)};
        added := added + [e];
      }
    }
  }

  /**
   * `bfs(start, goal, size, obstacles)`. Returns the moves of a shortest
   * walk from `start` to `goal`, or [] when `start == goal` or no walk
   * exists. The goal is tested against `obstacles` like any other cell.
   */
  method Bfs(start: Cell, goal: Cell, size: int, obstacles: set<Cell>) returns (path: seq<Move>)
    ensures path != [] ==> IsWalk(start, path, size, obstacles) && Follow(start, path) == goal
    ensures forall w :: IsWalk(start, w, size, obstacles) && Follow(start, w) == goal ==> |path| <= |w|
    ensures path == [] && start != goal ==>
      forall w :: IsWalk(start, w, size, obstacles) ==> Follow(start, w) != goal
    ensures start == goal ==> path == []
    ensures goal in obstacles && start != goal ==> path == []
    ensures forall i, j :: 0 <= i < j <= |path| ==> Follow(start, path[..i]) != Follow(start, path[..j])
  {
    var queue: seq<Entry> := [(start, [])];
    var visited: set<Cell> := {start};
    ghost var done: set<Cell> := {};
    ghost var layer: nat := 0;
    while queue != []
      invariant SearchInv(start, goal, size, obstacles, queue, visited, done, layer)
      decreases AllCells(size) - visited, |queue|
    {
      var (current, p) := queue[0];
      if current == goal {
        HeadIsShortest(start, goal, size, obstacles, queue, visited, done, layer);
        return p;
      }
      var visited', added := Expand(current, p, size, obstacles, visited);
      var queue' := queue[1..] + added;
      ghost var layer' := if queue' != [] && |queue'[0].1| == layer + 1 then layer + 1 else layer;
      SearchStep(start, goal, size, obstacles, queue, visited, done, layer, added, visited', layer');
      UnvisitedShrinks(current, p, size, obstacles, visited, visited', added);
      queue, visited, done, layer := queue', visited', done + {current}, layer';
    }
    ExhaustedMeansUnreachable(start, goal, size, obstacles, visited, done, layer);
    return [];
  }

  /** Enqueuing fresh board cells removes them from the cells not yet visited. */
  lemma UnvisitedShrinks(current: Cell, path: seq<Move>, size: int, obstacles: set<Cell>,
                         visited: set<Cell>, visited': set<Cell>, added: seq<Entry>)
    requires visited' == visited + QueueCells(added)
    requires forall i :: 0 <= i < |added| ==>
      Extends(current, path, added[i], size, obstacles) && added[i].0 !in visited
    ensures added == [] ==> visited' == visited
    ensures added != [] ==> AllCells(size) - visited' < AllCells(size) - visited
  {
    if added != [] {
      InBoardIffInBounds(added[0].0, size);
      assert added[0].0 in visited' - visited;
    }
  }

  /** The loop invariant of the search. */
  ghost predicate SearchInv(start: Cell, goal: Cell, size: int, obstacles: set<Cell>,
                            queue: seq<Entry>, visited: set<Cell>, done: set<Cell>, layer: nat) {
    start in visited && goal !in done &&
    visited == done + QueueCells(queue) && done !! QueueCells(queue) &&
    DistinctCells(queue) &&
    EntriesAreWalks(start, queue, size, obstacles) &&
    Layered(queue, layer) &&
    Closed(done, visited, size, obstacles) &&
    ShortWalksReached(start, size, obstacles, done, queue, layer)
  }

  /** One iteration that expands a head other than the goal keeps the invariant. */
  lemma SearchStep(start: Cell, goal: Cell, size: int, obstacles: set<Cell>,
                   queue: seq<Entry>, visited: set<Cell>, done: set<Cell>, layer: nat,
                   added: seq<Entry>, visited': set<Cell>, layer': nat)
    requires SearchInv(start, goal, size, obstacles, queue, visited, done, layer)
    requires queue != [] && queue[0].0 != goal
    requires visited' == visited + QueueCells(added)
    requires forall i :: 0 <= i < |added| ==>
      Extends(queue[0].0, queue[0].1, added[i], size, obstacles) && added[i].0 !in visited
    requires DistinctCells(added)
    requires forall k :: 0 <= k < |Directions| && Passable(Add(queue[0].0, Directions[k]), size, obstacles) ==>
      Add(queue[0].0, Directions[k]) in visited'
    requires layer' == if queue[1..] + added != [] && |(queue[1..] + added)[0].1| == layer + 1 then layer + 1 else layer
    ensures SearchInv(start, goal, size, obstacles, queue[1..] + added, visited', done + {queue[0].0}, layer')
    ensures visited <= visited'
  {
    CellsStep(queue, added, visited, visited', done);
    EntriesStep(start, size, obstacles, queue, added);
    LayeredStep(queue, added, layer, layer');
    LayerStep(start, size, obstacles, queue, added, done, visited', layer, layer');
  }

  /**
   * The head of the queue holds a shortest walk to its cell, and so one that
   * enters no cell twice.
   */
  lemma HeadIsShortest(start: Cell, goal: Cell, size: int, obstacles: set<Cell>,
                        queue: seq<Entry>, visited: set<Cell>, done: set<Cell>, layer: nat)
    requires queue != [] && queue[0].0 == goal
    requires SearchInv(start, goal, size, obstacles, queue, visited, done, layer)
    ensures IsWalk(start, queue[0].1, size, obstacles) && Follow(start, queue[0].1) == goal
    ensures forall w :: IsWalk(start, w, size, obstacles) && Follow(start, w) == goal ==> |queue[0].1| <= |w|
    ensures forall i, j :: 0 <= i < j <= |queue[0].1| ==> Follow(start, queue[0].1[..i]) != Follow(start, queue[0].1[..j])
  {
    assert goal in QueueCells(queue);
    ShortestWalkIsSimple(start, queue[0].1, size, obstacles);
  }

  /** With nothing left to expand, the expanded set holds every reachable cell. */
  lemma ExhaustedMeansUnreachable(start: Cell, goal: Cell, size: int, obstacles: set<Cell>,
                                   visited: set<Cell>, done: set<Cell>, layer: nat)
    requires SearchInv(start, goal, size, obstacles, [], visited, done, layer)
    ensures forall w :: IsWalk(start, w, size, obstacles) ==> Follow(start, w) != goal
  {
    forall w | IsWalk(start, w, size, obstacles)
      ensures Follow(start, w) != goal
    {
      WalksStayInside(start, w, size, obstacles, done);
    }
  }

  /** Every walk from a cell of a neighbour-closed set stays in that set. */
  lemma {:induction false} WalksStayInside(start: Cell, w: seq<Move>, size: int, obstacles: set<Cell>, s: set<Cell>)
    requires start in s && Closed(s, s, size, obstacles)
    requires IsWalk(start, w, size, obstacles)
    ensures Follow(start, w) in s
    decreases |w|
  {
    if w != [] {
      var w' := w[..|w| - 1];
      WalksStayInside(start, w', size, obstacles, s);
      var k :| 0 <= k < |Directions| && Directions[k] == w[|w| - 1];
    }
  }


  /** Popping the head and appending fresh cells keeps cells distinct and accounted for. */
  lemma CellsStep(queue: seq<Entry>, added: seq<Entry>, visited: set<Cell>, visited': set<Cell>, done: set<Cell>)
    requires queue != []
    requires visited == done + QueueCells(queue) && done !! QueueCells(queue)
    requires DistinctCells(queue)
    requires visited' == visited + QueueCells(added)
    requires forall i :: 0 <= i < |added| ==> added[i].0 !in visited
    requires DistinctCells(added)
    ensures visited' == done + {queue[0].0} + QueueCells(queue[1..] + added)
    ensures done + {queue[0].0} !! QueueCells(queue[1..] + added)
    ensures DistinctCells(queue[1..] + added)
  {
    var c, rest := queue[0].0, queue[1..];
    var q := rest + added;
    assert queue == [queue[0]] + rest;
    assert QueueCells(queue) == {c} + QueueCells(rest);
    assert QueueCells(q) == QueueCells(rest) + QueueCells(added);
    assert c !in QueueCells(rest) by {
      forall e | e in rest ensures e.0 != c {
        var i :| 0 <= i < |rest| && rest[i] == e;
        assert queue[i + 1] == e;
      }
    }
    assert c !in QueueCells(added) by {
      forall e | e in added ensures e.0 != c {
        var i :| 0 <= i < |added| && added[i] == e;
      }
    }
    assert QueueCells(added) !! visited by {
      forall e | e in added ensures e.0 !in visited {
        var i :| 0 <= i < |added| && added[i] == e;
      }
    }
    forall i, j | 0 <= i < j < |q|
      ensures q[i].0 != q[j].0
    {
      if i < |rest| && j < |rest| {
        assert q[i] == queue[i + 1] && q[j] == queue[j + 1];
      } else if i < |rest| {
        assert q[i] == queue[i + 1];
        assert q[i].0 in QueueCells(queue);
        assert q[j] == added[j - |rest|];
      } else {
        assert q[i] == added[i - |rest|] && q[j] == added[j - |rest|];
      }
    }
  }

  /** Entries appended behind the head extend the head's walk by one move. */
  lemma EntriesStep(start: Cell, size: int, obstacles: set<Cell>, queue: seq<Entry>, added: seq<Entry>)
    requires queue != []
    requires EntriesAreWalks(start, queue, size, obstacles)
    requires forall i :: 0 <= i < |added| ==> Extends(queue[0].0, queue[0].1, added[i], size, obstacles)
    ensures EntriesAreWalks(start, queue[1..] + added, size, obstacles)
  {
    var p := queue[0].1;
    var rest := queue[1..];
    var q := rest + added;
    forall i | 0 <= i < |q|
      ensures IsWalk(start, q[i].1, size, obstacles) && Follow(start, q[i].1) == q[i].0
    {
      if i < |rest| {
        assert q[i] == queue[i + 1];
      } else {
        var e := added[i - |rest|];
        assert q[i] == e;
        var m := e.1[|p|];
        assert e.1 == p + [m];
        WalkExtend(start, p, m, size, obstacles);
      }
    }
  }

  /** Appending entries one move longer than the head keeps the queue layered. */
  lemma LayeredStep(queue: seq<Entry>, added: seq<Entry>, layer: nat, layer': nat)
    requires queue != [] && Layered(queue, layer)
    requires forall i :: 0 <= i < |added| ==> |added[i].1| == layer + 1
    requires layer' == if queue[1..] + added != [] && |(queue[1..] + added)[0].1| == layer + 1 then layer + 1 else layer
    ensures Layered(queue[1..] + added, layer')
    ensures layer' == layer + 1 ==> forall i :: 0 < i < |queue| ==> |queue[i].1| == layer + 1
  {
    var rest := queue[1..];
    var q := rest + added;
    forall i | 0 <= i < |rest| ensures rest[i] == queue[i + 1] { }
    if layer' == layer + 1 && rest != [] {
      assert q[0] == rest[0];
    }
    forall i, j | 0 <= i < j < |q|
      ensures |q[i].1| <= |q[j].1|
    {
      if j < |rest| {
        assert q[i] == queue[i + 1] && q[j] == queue[j + 1];
      } else if i < |rest| {
        assert q[i] == queue[i + 1];
      }
    }
  }

  /**
   * The layer invariant after one iteration: the head's cell joins the
   * expanded set; the queue now holds every cell one move further than an
   * expanded cell that is not itself expanded.
   */
  lemma LayerStep(start: Cell, size: int, obstacles: set<Cell>, queue: seq<Entry>, added: seq<Entry>,
                  done: set<Cell>, visited': set<Cell>, layer: nat, layer': nat)
    requires queue != [] && Layered(queue, layer)
    requires ShortWalksReached(start, size, obstacles, done, queue, layer)
    requires Layered(queue[1..] + added, layer')
    requires layer' == layer || layer' == layer + 1
    requires layer' == layer + 1 ==> forall i :: 0 < i < |queue| ==> |queue[i].1| == layer + 1
    requires forall i :: 0 <= i < |added| ==> |added[i].1| == layer + 1
    requires visited' == done + {queue[0].0} + QueueCells(queue[1..] + added)
    requires Closed(done + {queue[0].0}, visited', size, obstacles)
    ensures ShortWalksReached(start, size, obstacles, done + {queue[0].0}, queue[1..] + added, layer')
  {
    if layer' == layer + 1 {
      LayerGrows(start, size, obstacles, queue, added, done, visited', layer);
    } else {
      LayerStays(start, size, obstacles, queue, added, done, layer);
    }
  }

  /** The head was the last entry of its layer: the next layer starts. */
  lemma LayerGrows(start: Cell, size: int, obstacles: set<Cell>, queue: seq<Entry>, added: seq<Entry>,
                   done: set<Cell>, visited': set<Cell>, layer: nat)
    requires queue != [] && |queue[0].1| == layer
    requires ShortWalksReached(start, size, obstacles, done, queue, layer)
    requires forall i :: 0 < i < |queue| ==> |queue[i].1| == layer + 1
    requires forall i :: 0 <= i < |added| ==> |added[i].1| == layer + 1
    requires visited' == done + {queue[0].0} + QueueCells(queue[1..] + added)
    requires Closed(done + {queue[0].0}, visited', size, obstacles)
    ensures ShortWalksReached(start, size, obstacles, done + {queue[0].0}, queue[1..] + added, layer + 1)
  {
    var c, rest := queue[0].0, queue[1..];
    var q, d := rest + added, done + {c};
    HeadIsLayer(queue, layer);
    NextLayerCells(queue, added, layer);
    assert forall w :: IsWalk(start, w, size, obstacles) && |w| <= layer ==> Follow(start, w) in d;
    forall w | IsWalk(start, w, size, obstacles) && |w| == layer + 1
      ensures Follow(start, w) in d + LayerCells(q, layer + 1)
    {
      var w' := w[..|w| - 1];
      assert Follow(start, w') in d;
      var k :| 0 <= k < |Directions| && Directions[k] == w[|w| - 1];
      assert Follow(start, w) in visited';
    }
  }

  /** When every later entry is one move longer, the head alone has the head's length. */
  lemma HeadIsLayer(queue: seq<Entry>, layer: nat)
    requires queue != []
    requires forall i :: 0 < i < |queue| ==> |queue[i].1| == layer + 1
    ensures LayerCells(queue, layer) <= {queue[0].0}
  {
    forall e | e in queue && |e.1| == layer ensures e.0 == queue[0].0 {
      var i :| 0 <= i < |queue| && queue[i] == e;
    }
  }

  /** When every queued entry after the head is one move longer, all its cells lie in that layer. */
  lemma NextLayerCells(queue: seq<Entry>, added: seq<Entry>, layer: nat)
    requires queue != []
    requires forall i :: 0 < i < |queue| ==> |queue[i].1| == layer + 1
    requires forall i :: 0 <= i < |added| ==> |added[i].1| == layer + 1
    ensures QueueCells(queue[1..] + added) <= LayerCells(queue[1..] + added, layer + 1)
  {
    var rest := queue[1..];
    var q := rest + added;
    forall e | e in q ensures e.0 in LayerCells(q, layer + 1) {
      var i :| 0 <= i < |q| && q[i] == e;
      if i < |rest| {
        assert e == queue[i + 1];
      } else {
        assert e == added[i - |rest|];
      }
    }
  }

  /** The layer continues: the head's cell moves from the queue to the expanded set. */
  lemma LayerStays(start: Cell, size: int, obstacles: set<Cell>, queue: seq<Entry>, added: seq<Entry>,
                   done: set<Cell>, layer: nat)
    requires queue != []
    requires ShortWalksReached(start, size, obstacles, done, queue, layer)
    ensures ShortWalksReached(start, size, obstacles, done + {queue[0].0}, queue[1..] + added, layer)
  {
    var c, rest := queue[0].0, queue[1..];
    var q := rest + added;
    assert LayerCells(queue, layer) <= {c} + LayerCells(q, layer) by {
      forall e | e in queue && |e.1| == layer ensures e.0 == c || e.0 in LayerCells(q, layer) {
        var i :| 0 <= i < |queue| && queue[i] == e;
        if i > 0 { assert q[i - 1] == e; }
      }
    }
  }
}
