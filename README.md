# Wumpus world core in Dafny

This project models the engine of `Thanos1.py`, a Wumpus-world game on a
square board. The modelled parts are these:

- World generation. The entry is at (0, 0) and the exit at (size-1, size-1).
  The monster, the treasure and two pits are each placed off the entry and
  the exit and their king-move neighbours.
- Cue derivation. Wind cells lie beside the pits and odor cells beside the
  monster.
- Route search. A breadth-first search finds a route from the entry to the
  exit that avoids the hazards, the treasure and every cue cell.
- The per-step transition. This covers `move_player`, `check_position` and
  `move_player_automatically`.
- The coordinate labels used in messages ("A1" for (0, 0)).

Modules, one concept each:

- `Grid` (grid.dfy): cells, the four unit moves, and walks. A walk is a
  sequence of moves that stays on passable cells. It is the reference
  notion the search is proved against. `Wrappers` holds the `Option` type.
- `Pathfinder` (pathfinder.dfy): `bfs` as an imperative method over a
  queue and a visited set. Its loop invariant says three things:
  - the queue is layered by route length;
  - every passable neighbour of an expanded cell has been visited;
  - every walk shorter than the current layer ends in an expanded cell.

  From this the result is proved a valid, shortest and simple route, and
  an empty result is proved to mean that the exit cannot be reached.
- `Game` (game.dfy): placement, the cue sets and `init_world` as methods
  on values. The step transition is given as functions over a `Layout`
  (what is fixed after set-up) and a `Play` (what the steps change). The
  lemmas about the transition are here too.
- `World` (world.dfy): the class `WumpusWorld`. It has the source's fields,
  and its step methods update them in place. Each step method is proved
  to leave exactly the state the matching `Game` function gives, and to
  keep the invariant `Game.Inv`.
- `Display` (display.dfy): `get_display_coordinates`, with a parser proved
  to be its inverse.

Main results:

- When the search finds a route, the automatic agent follows it and ends
  at the exit with the game over. It gets there in exactly as many steps
  as the route has moves, never dies, and never collects the treasure. The
  route avoids the treasure by construction, so such a game is always lost
  by escaping without it (`Game.AutoRunEscapes`).
- When the search finds no route, the agent never moves and the game never
  ends (`Game.NoRouteNoMove`). This can happen: in the world of
  `World.WalledInWorld` the cue cells wall the entry in.
- The exit is never among the route's obstacles. So the code's test of the
  goal against the obstacle set is harmless in the game
  (`Game.EntryExitNeverObstacles`).

The search tests every cell it enters, the goal included, against the
obstacle set (Thanos1.py:65). So `Pathfinder.Bfs` returns [] when the goal
is an obstacle other than the start.

## Model

| member | source | states |
|---|---|---|
| Grid.AdjacentIffStep | Thanos1.py:53 | the four direction vectors reach exactly the cells that share a side with a cell |
| Grid.ShortestWalkIsSimple | Thanos1.py:52-69 | a shortest walk to its end cell never enters the same cell twice |
| Grid.CutLoop | Thanos1.py:52-69 | cutting out the moves between two visits of one cell leaves a strictly shorter walk to the same end |
| Pathfinder.Expand | Thanos1.py:63-67 | the neighbour loop enqueues only passable, unvisited neighbours, each with its path extended by the move, with no cell twice, and leaves every passable neighbour visited |
| Pathfinder.Bfs | Thanos1.py:52-69 | a non-empty result is a walk from start to goal that avoids the obstacles and stays on the board; no walk to the goal is shorter; an empty result with start != goal means no walk reaches the goal; start == goal gives []; an obstacle goal other than the start gives []; the route never revisits a cell |
| Pathfinder.SearchStep | Thanos1.py:58-67 | popping and expanding a head other than the goal keeps the search invariant (layered queue, closed expanded set, short walks reached) and the visited set only grows |
| Pathfinder.UnvisitedShrinks | Thanos1.py:63-67 | each iteration that enqueues a cell removes it from the board cells not yet visited, and one that enqueues nothing leaves `visited` as it was; so the search terminates |
| Pathfinder.HeadIsShortest | Thanos1.py:59-61 | when the popped cell is the goal its path is a shortest walk to it |
| Pathfinder.ExhaustedMeansUnreachable | Thanos1.py:58-69 | once the queue is empty no walk from the start reaches the goal, so the search falls through to [] only when the goal is unreachable |
| Pathfinder.WalksStayInside | Thanos1.py:58-69 | a walk that starts in a set holding every passable neighbour of its cells stays in that set (the expanded set of an exhausted search is such a set) |
| Game.IsNearbyEntryOrExit | Thanos1.py:102-105 | true exactly when the cell is within king-move distance 1 of the entry or of the exit |
| Game.PlaceRandomly | Thanos1.py:96-100 | the chosen cell is on the board, not excluded, and more than one king move from the entry and from the exit |
| Game.PlacementPossible | Thanos1.py:90-92 | on a board of size 4 or more an acceptable cell exists for every placement `init_world` makes, so the retry loop ends |
| Game.NoPitCellBelowFour | Thanos1.py:92 | on a board of size 3 no acceptable cell is left for a pit once the monster and the treasure are placed |
| Game.GenerateWindPositions | Thanos1.py:107-115 | a cell is a wind cell exactly when it is on the board, is neither the monster nor the treasure cell, and shares a side with some pit |
| Game.GenerateOdorPositions | Thanos1.py:117-124 | a cell is an odor cell exactly when it is on the board, is neither the entry nor the exit, and shares a side with the monster |
| Game.InitLayout | Thanos1.py:87-94 | fixes the entry at (0, 0) and the exit at (size-1, size-1); places the monster off the entry, the exit and their king-move neighbours, the treasure off those and the monster, and two pits off all of those (not off each other); wind and odor as above |
| Game.CheckPositionCases | Thanos1.py:143-166 | the first matching case wins: monster, then pit (death recorded, player back at the entry), then uncollected treasure (collected, removed), then exit (game over); a wind, odor or empty cell changes nothing |
| Game.ExitEndsGame | Thanos1.py:157-162 | a move onto the exit always ends the game and changes nothing else, since no hazard or treasure can lie there |
| Game.CheckPositionKeepsInv | Thanos1.py:143-166 | `check_position` keeps the world invariant |
| Game.MovePlayerKeepsInv | Thanos1.py:126-133 | `move_player` keeps the world invariant; the player stays on the board |
| Game.MoveAutomaticallyKeepsInv | Thanos1.py:135-141 | `move_player_automatically` keeps the world invariant, the route cursor within the route |
| Game.FlagsOnlyRise | Thanos1.py:126-166 | `game_over` and `treasure_collected` never go from true back to false |
| Game.GameOverIsFinal | Thanos1.py:127-128 | once the game is over a move changes nothing and an automatic step only advances the cursor |
| Game.AutoStepAdvancesCursor | Thanos1.py:135-141 | while route moves remain, an automatic step advances `path_index` by exactly one even when the move is dropped; afterwards it changes nothing |
| Game.EntryExitNeverObstacles | Thanos1.py:83-84 | neither the entry nor the exit is among the route's obstacles |
| Game.RouteStep | Thanos1.py:135-139 | one automatic step along a route that avoids every obstacle keeps the state on the route (OnRoute: nothing collected, nobody dead, the player on the route's k-th cell or at the exit with the game over) with the cursor one further |
| Game.RouteProgress | Thanos1.py:135-139 | after k automatic steps along an obstacle-free route the state is OnRoute for k |
| Game.AutoRunEscapes | Thanos1.py:83-85 | following a route from the search, the agent reaches the exit with the game over after exactly the route's length in steps, without the treasure and without dying |
| Game.NoRouteNoMove | Thanos1.py:135-141 | with an empty route the automatic steps never change the state |
| Game.SetUpInitial | Thanos1.py:73-80 | a world as `init_world` leaves it, with the player on the entry, flags false and no death, satisfies the invariant |
| World.WalledInWorld | Thanos1.py:83-92 | a 4 x 4 world that `init_world` can produce (monster (2,1), treasure (1,2), pits (0,2) and (3,0)) in which no obstacle-avoiding walk from the entry reaches the exit, so the search returns [] |
| World.WumpusWorld.constructor | Thanos1.py:73-85 | the world is set up as `init_world` leaves it, with the player on the entry, both flags false, no death, cursor 0, and the invariant holding; the route is a shortest obstacle-avoiding walk to the exit, or empty exactly when none exists |
| World.WumpusWorld.InitWorld | Thanos1.py:87-94 | the layout fields are set as `Game.InitLayout` describes |
| World.WumpusWorld.CheckPosition | Thanos1.py:143-166 | updates the fields exactly as `Game.CheckPosition` and keeps the invariant |
| World.WumpusWorld.MovePlayer | Thanos1.py:126-133 | updates the fields exactly as `Game.MovePlayer` and keeps the invariant |
| World.WumpusWorld.MovePlayerAutomatically | Thanos1.py:135-141 | updates the fields exactly as `Game.MoveAutomatically` and keeps the invariant |
| Display.GetDisplayCoordinates | Thanos1.py:168-172 | the label is absent exactly when code 65 + x is not a character; otherwise it starts with the character of code 65 + x and holds at least one more character |
| Display.DecimalRoundTrip | Thanos1.py:171-172 | the decimal digits of a natural number read back as that number |
| Display.IntRoundTrip | Thanos1.py:171-172 | the row number as written, with a minus sign when negative, reads back as itself |
| Display.DisplayRoundTrip | Thanos1.py:168-172 | every label reads back as the cell it labels |
| Display.DisplayInjective | Thanos1.py:168-172 | different cells never share a label |
| Display.BoardLabels | Thanos1.py:168-172 | on a board up to 26 columns wide every cell's label starts with a capital letter |
| Display.LabelExamples | Thanos1.py:168-172 | (0,0) is "A1", (3,3) is "D4", (1,9) is "B10" and (0,-3) is "A-2" |

## Left out

- The pygame window, images, fonts, drawing, menus and the event loop
  (Thanos1.py:1-49, 174-306) are I/O with no state of the core. The driver's
  call of `move_player_automatically` once per frame is modelled by
  `Game.Run`.
- The messages printed by `check_position` and `move_player_automatically`
  are output only. The wind and odor branches of `check_position` change
  no state, so in the model they are the no-change case.
- The `board` field (Thanos1.py:75) is never read and is not modelled.
  The same goes for the TILE_SIZE and screen globals.
- Game.PlaceRandomly: the random draws and the retry loop become a choice
  of any acceptable cell. The retry loop ends only when such a cell exists.
  So the constructor requires size >= 4, where `Game.PlacementPossible`
  shows one always exists. At size 3, once the monster and the treasure
  are placed, no cell is left for a pit and the retry loop never ends
  (`Game.NoPitCellBelowFour`). Sizes below 3 are not analysed. The
  default size is 4.
- World.WumpusWorld.constructor: it stores the results of `Game.InitLayout`
  (the value form of `init_world`) and of the search directly, without
  calling `InitWorld` after allocation. The resulting state is the same.
- Obstacles, wind cells and odor cells are sets, where the source has lists.
  The source only tests membership in them, and the wind and odor lists
  come from sets in arbitrary order.
- `death_info` is modelled as the cell and the kind of hazard (`Game.Death`)
  rather than the cell and a Spanish message.
- Pathfinder.Bfs: which of several shortest routes is returned is not part
  of the contract. That choice depends on the fixed direction order.
- Display.GetDisplayCoordinates: requires that 65 + x is not a surrogate
  code (0xD800-0xDFFF). Python's `chr` accepts those codes, but a Dafny
  character cannot hold them. Below code 0 and above 0x10FFFF, where `chr`
  raises, the result is None.
- Python's unbounded integers match Dafny's `int`, so no overflow is
  modelled.
