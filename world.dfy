/**
 * The game object WumpusWorld: its board, hazards, cues, route and player
 * state are fields that set-up and the step methods update in place. Each
 * step method changes its fields exactly as the matching function of
 * module Game says, and keeps Game.Inv.
 */
module World {
  import opened Wrappers
  import opened Grid
  import opened Pathfinder
  import opened Game

  class WumpusWorld {
    const size: int
    var entryPoint: Cell
    var exitPoint: Cell
    var wumpusPos: Cell
    var treasurePos: Option<Cell>
    var pitPositions: seq<Cell>
    var windPositions: set<Cell>
    var odorPositions: set<Cell>
    var playerPos: Cell
    var gameOver: bool
    var treasureCollected: bool
    var deathInfo: Option<Death>
    var pathToExit: seq<Move>
    var pathIndex: nat

    /** The fields that stay fixed after set-up. */
    function Board(): Layout
      reads this
    {
      Layout(size, entryPoint, exitPoint, wumpusPos, pitPositions, windPositions, odorPositions, pathToExit)
    }

    /** The fields the steps change. */
    function State(): Play
      reads this
    {
      Play(playerPos, treasurePos, treasureCollected, gameOver, deathInfo, pathIndex)
    }

    ghost predicate Valid()
      reads this
    {
      Inv(Board(), State())
    }

    /**
     * `__init__`: sets the world up, puts the player on the entry with both
     * flags false and no death recorded, and computes the route to the exit
     * with the search, treating the monster, the treasure, the pits and all
     * cue cells as obstacles.
     */
    constructor (size: int)
      requires size >= 4
      ensures this.size == size && treasurePos.Some?
      ensures SetUp(size, entryPoint, exitPoint, wumpusPos, treasurePos.value, pitPositions, windPositions, odorPositions)
      ensures Valid() && State() == Initial(Board(), treasurePos.value)
      ensures var obstacles := Obstacles(Board(), treasurePos.value);
        && (pathToExit != [] ==> IsWalk(entryPoint, pathToExit, size, obstacles) && Follow(entryPoint, pathToExit) == exitPoint)
        && (forall w :: IsWalk(entryPoint, w, size, obstacles) && Follow(entryPoint, w) == exitPoint ==> |pathToExit| <= |w|)
        && (pathToExit == [] ==> forall w :: IsWalk(entryPoint, w, size, obstacles) ==> Follow(entryPoint, w) != exitPoint)
    {
      var entry, exit, wumpus, treasure, pits, wind, odor := InitLayout(size);
      var obstacles := {wumpus, treasure} + (set p | p in pits) + wind + odor;
      var route := Bfs(entry, exit, size, obstacles);
      this.size := size;
      entryPoint, exitPoint, wumpusPos, treasurePos := entry, exit, wumpus, Some(treasure);
      pitPositions, windPositions, odorPositions := pits, wind, odor;
      playerPos, gameOver, treasureCollected, deathInfo := entry, false, false, None;
      pathToExit, pathIndex := route, 0;
      new;
      SetUpInitial(Board(), treasure);
    }

    /**
     * `init_world`: fixes the entry and the exit, then places the monster,
     * the treasure and two pits away from them (each pit avoiding the
     * monster and the treasure but not the other pit), then derives the
     * wind and odor cells.
     */
    method InitWorld()
      requires size >= 4
      modifies this`entryPoint, this`exitPoint, this`wumpusPos, this`treasurePos, this`pitPositions,
               this`windPositions, this`odorPositions
      ensures treasurePos.Some?
      ensures SetUp(size, entryPoint, exitPoint, wumpusPos, treasurePos.value, pitPositions, windPositions, odorPositions)
    {
      var entry, exit, wumpus, treasure, pits, wind, odor := InitLayout(size);
      entryPoint, exitPoint, wumpusPos, treasurePos := entry, exit, wumpus, Some(treasure);
      pitPositions, windPositions, odorPositions := pits, wind, odor;
    }

    /** `check_position`: the priority chain of Game.CheckPosition, in place. */
    method CheckPosition()
      requires Valid()
      modifies this`playerPos, this`treasurePos, this`treasureCollected, this`gameOver, this`deathInfo
      ensures Valid()
      ensures State() == Game.CheckPosition(Board(), old(State()))
    {
      CheckPositionKeepsInv(Board(), State());
      if playerPos == wumpusPos {
        deathInfo := Some(Death(playerPos, Monster));
        playerPos := entryPoint;
      } else if playerPos in pitPositions {
        deathInfo := Some(Death(playerPos, Pit));
        playerPos := entryPoint;
      } else if Some(playerPos) == treasurePos {
        if !treasureCollected {
          treasureCollected := true;
          treasurePos := None;
        }
      } else if playerPos == exitPoint {
        gameOver := true;
      }
      // on a wind or odor cell, or anywhere else, only a message is printed
    }

    /**
     * `move_player(dx, dy)`: ignored once the game is over or when it would
     * leave the board; otherwise moves the player and checks the new cell.
     */
    method MovePlayer(dx: int, dy: int)
      requires Valid()
      modifies this`playerPos, this`treasurePos, this`treasureCollected, this`gameOver, this`deathInfo
      ensures Valid()
      ensures State() == Game.MovePlayer(Board(), old(State()), (dx, dy))
    {
      if gameOver {
        return;
      }
      var newX, newY := playerPos.0 + dx, playerPos.1 + dy;
      if 0 <= newX < size && 0 <= newY < size {
        playerPos := (newX, newY);
        CheckPosition();
      }
    }

    /**
     * `move_player_automatically`: makes the next route move, if any, and
     * advances the cursor whether or not the move took effect.
     */
    method MovePlayerAutomatically()
      requires Valid()
      modifies this`playerPos, this`treasurePos, this`treasureCollected, this`gameOver, this`deathInfo, this`pathIndex
      ensures Valid()
      ensures State() == MoveAutomatically(Board(), old(State()))
    {
      if pathIndex < |pathToExit| {
        var (dx, dy) := pathToExit[pathIndex];
        MovePlayer(dx, dy);
        pathIndex := pathIndex + 1;
      }
      // otherwise the route is used up and only a message is printed
    }
  }

  /** A 4 x 4 world whose cue cells wall the entry in; the treasure is at (1, 2). */
  function WalledLayout(): Layout {
    Layout(4, (0, 0), (3, 3), (2, 1), [(0, 2), (3, 0)],
           {(0, 1), (0, 3), (2, 0), (3, 1)}, {(1, 1), (3, 1), (2, 0), (2, 2)}, [])
  }

  /**
   * A world `init_world` can produce in which the search finds no route:
   * the wind and odor cells wall the entry in with the one free cell
   * beside it, so `bfs` returns [] and the agent never moves.
   */
  lemma WalledInWorld()
    ensures var l := WalledLayout();
      && SetUp(l.size, l.entry, l.exit, l.wumpus, (1, 2), l.pits, l.wind, l.odor)
      && forall w :: IsWalk(l.entry, w, l.size, Obstacles(l, (1, 2))) ==> Follow(l.entry, w) != l.exit
  {
    WalledInSetUp();
    WalledInUnreachable();
  }

  lemma WalledInUnreachable()
    ensures forall w :: IsWalk((0, 0), w, 4, Obstacles(WalledLayout(), (1, 2))) ==> Follow((0, 0), w) != (3, 3)
  {
    var obstacles := Obstacles(WalledLayout(), (1, 2));
    WalledInClosed();
    forall w | IsWalk((0, 0), w, 4, obstacles)
      ensures Follow((0, 0), w) != (3, 3)
    {
      WalksStayInside((0, 0), w, 4, obstacles, {(0, 0), (1, 0)});
    }
  }

  lemma WalledInSetUp()
    ensures var l := WalledLayout();
      SetUp(l.size, l.entry, l.exit, l.wumpus, (1, 2), l.pits, l.wind, l.odor)
  {
    WalledInPlaced();
    WalledInWind();
    WalledInOdor();
  }

  lemma WalledInPlaced()
    ensures Acceptable((2, 1), 4, (0, 0), (3, 3), [(0, 0), (3, 3)])
    ensures Acceptable((1, 2), 4, (0, 0), (3, 3), [(0, 0), (3, 3), (2, 1)])
    ensures forall p :: p in [(0, 2), (3, 0)] ==> Acceptable(p, 4, (0, 0), (3, 3), [(0, 0), (3, 3), (2, 1), (1, 2)])
  {
  }

  lemma WalledInWind()
    ensures WindSpec({(0, 1), (0, 3), (2, 0), (3, 1)}, 4, [(0, 2), (3, 0)], (2, 1), (1, 2))
  {
    var wind, pits := {(0, 1), (0, 3), (2, 0), (3, 1)}, [(0, 2), (3, 0)];
    forall c
      ensures c in wind <==>
        InBounds(c, 4) && c != (2, 1) && c != (1, 2) && exists pit :: pit in pits && Adjacent(pit, c)
    {
      if c in wind {
        if c.0 == 0 {
          assert (0, 2) in pits && Adjacent((0, 2), c);
        } else {
          assert (3, 0) in pits && Adjacent((3, 0), c);
        }
      } else {
        forall pit | pit in pits && Adjacent(pit, c)
          ensures c == (1, 2) || !InBounds(c, 4)
        {
          assert pit == (0, 2) || pit == (3, 0);
        }
      }
    }
  }

  lemma WalledInOdor()
    ensures OdorSpec({(1, 1), (3, 1), (2, 0), (2, 2)}, 4, (2, 1), (0, 0), (3, 3))
  {
  }

  /** From the entry only (1, 0) can be entered, and it leads nowhere else. */
  lemma WalledInClosed()
    ensures Closed({(0, 0), (1, 0)}, {(0, 0), (1, 0)}, 4, Obstacles(WalledLayout(), (1, 2)))
  {
    var l, t := WalledLayout(), (1, 2);
    assert Obstacles(l, t) == {(2, 1), (1, 2), (0, 2), (3, 0), (0, 1), (0, 3), (2, 0), (3, 1), (1, 1), (2, 2)};
  }
}
