/**
 * The game logic of WumpusWorld as values: where the monster, the treasure
 * and the pits may be placed, the wind and odor cue cells they give rise
 * to, and the per-step transition (`check_position`, `move_player`,
 * `move_player_automatically`) as functions from one state to the next.
 * The class in module World updates its fields exactly as these functions
 * say.
 */
module Game {
  import opened Wrappers
  import opened Grid

  // ---------------------------------------------------------------------
  // Placement
  // ---------------------------------------------------------------------

  /** The king-move distance between two cells. */
  function Chebyshev(a: Cell, b: Cell): nat {
    var dx, dy := Abs(a.0 - b.0), Abs(a.1 - b.1);
    if dx < dy then dy else dx
  }

  /** `is_nearby_entry_or_exit`: within one king move of the entry or of the exit. */
  function IsNearbyEntryOrExit(pos: Cell, entry: Cell, exit: Cell): (nearby: bool)
    ensures nearby <==> Chebyshev(pos, entry) <= 1 || Chebyshev(pos, exit) <= 1
  {
    (Abs(pos.0 - entry.0) <= 1 && Abs(pos.1 - entry.1) <= 1) ||
    (Abs(pos.0 - exit.0) <= 1 && Abs(pos.1 - exit.1) <= 1)
  }

  /** The acceptance test of `place_randomly` for a drawn cell. */
  predicate Acceptable(pos: Cell, size: int, entry: Cell, exit: Cell, exclude: seq<Cell>) {
    InBounds(pos, size) && pos !in exclude && !IsNearbyEntryOrExit(pos, entry, exit)
  }

  /**
   * `place_randomly(exclude)`: draws cells until one passes the acceptance
   * test. The draw is a choice of any acceptable cell; the retry loop ends
   * only when one exists, which callers must ensure.
   */
  method PlaceRandomly(size: int, entry: Cell, exit: Cell, exclude: seq<Cell>) returns (pos: Cell)
    requires exists c :: Acceptable(c, size, entry, exit, exclude)
    ensures InBounds(pos, size) && pos !in exclude
    ensures Chebyshev(pos, entry) > 1 && Chebyshev(pos, exit) > 1
  {
    pos :| Acceptable(pos, size, entry, exit, exclude);
  }

  /**
   * On a board of size 4 or more some acceptable cell is left even when the
   * entry, the exit and two further cells are excluded.
   */
  lemma PlacementPossible(size: int, entry: Cell, exit: Cell, exclude: seq<Cell>, a: Cell, b: Cell)
    requires size >= 4 && entry == (0, 0) && exit == (size - 1, size - 1)
    requires forall c :: c in exclude ==> c == entry || c == exit || c == a || c == b
    ensures exists c :: Acceptable(c, size, entry, exit, exclude)
  {
    var c1, c2, c3 := (size - 1, 0), (0, size - 1), (size - 2, 0);
    assert !IsNearbyEntryOrExit(c1, entry, exit);
    assert !IsNearbyEntryOrExit(c2, entry, exit);
    assert !IsNearbyEntryOrExit(c3, entry, exit);
    if c1 != a && c1 != b {
      assert Acceptable(c1, size, entry, exit, exclude);
    } else if c2 != a && c2 != b {
      assert Acceptable(c2, size, entry, exit, exclude);
    } else {
      assert Acceptable(c3, size, entry, exit, exclude);
    }
  }

  /**
   * Below size 4 at most two cells pass the test, so once the monster and
   * the treasure hold them no cell is left for a pit and the retry loop of
   * `place_randomly` never ends.
   */
  lemma NoPitCellBelowFour(size: int, entry: Cell, exit: Cell, wumpus: Cell, treasure: Cell, exclude: seq<Cell>)
    requires size <= 3 && entry == (0, 0) && exit == (size - 1, size - 1)
    requires Acceptable(wumpus, size, entry, exit, [entry, exit])
    requires Acceptable(treasure, size, entry, exit, [entry, exit, wumpus])
    requires exclude == [entry, exit, wumpus, treasure]
    ensures forall c :: !Acceptable(c, size, entry, exit, exclude)
  {
    forall c | InBounds(c, size) && !IsNearbyEntryOrExit(c, entry, exit)
      ensures c == (size - 1, 0) || c == (0, size - 1)
    {
      assert Chebyshev(c, entry) > 1 && Chebyshev(c, exit) > 1;
    }
  }

  // ---------------------------------------------------------------------
  // Cue cells
  // ---------------------------------------------------------------------

  /** In-bounds side neighbours of some pit, other than the monster and treasure cells. */
  ghost predicate WindSpec(wind: set<Cell>, size: int, pits: seq<Cell>, wumpus: Cell, treasure: Cell) {
    forall c :: c in wind <==>
      InBounds(c, size) && c != wumpus && c != treasure && exists pit :: pit in pits && Adjacent(pit, c)
  }

  /** In-bounds side neighbours of the monster, other than the entry and the exit. */
  ghost predicate OdorSpec(odor: set<Cell>, size: int, wumpus: Cell, entry: Cell, exit: Cell) {
    forall c :: c in odor <==>
      InBounds(c, size) && c != entry && c != exit && Adjacent(wumpus, c)
  }

  /** The cells `pits[..n]` lie beside. */
  ghost predicate NearPit(c: Cell, pits: seq<Cell>, n: int) {
    exists j :: 0 <= j < n && 0 <= j < |pits| && Adjacent(pits[j], c)
  }

  /** The cells one of the first `n` directions leads to from `from`. */
  ghost predicate Reached(c: Cell, from: Cell, n: int) {
    exists k :: 0 <= k < n && 0 <= k < |Directions| && c == Add(from, Directions[k])
  }

  /** `generate_wind_positions`: a set filled pit by pit, direction by direction. */
  method GenerateWindPositions(size: int, pits: seq<Cell>, wumpus: Cell, treasure: Cell) returns (wind: set<Cell>)
    ensures WindSpec(wind, size, pits, wumpus, treasure)
  {
    wind := {};
    for i := 0 to |pits|
      invariant forall c :: c in wind <==>
        InBounds(c, size) && c != wumpus && c != treasure && NearPit(c, pits, i)
    {
      var (x, y) := pits[i];
      for k := 0 to |Directions|
        invariant forall c :: c in wind <==>
          InBounds(c, size) && c != wumpus && c != treasure && (NearPit(c, pits, i) || Reached(c, pits[i], k))
      {
        var (dx, dy) := Directions[k];
        var (nx, ny) := (x + dx, y + dy);
        if 0 <= nx < size && 0 <= ny < size && (nx, ny) != wumpus && (nx, ny) != treasure {
          wind := wind + {(nx, ny)};
        }
      }
      forall c
        ensures NearPit(c, pits, i + 1) <==> NearPit(c, pits, i) || Reached(c, pits[i], |Directions|)
      {
        AdjacentIffStep(pits[i], c);
      }
    }
    forall c
      ensures NearPit(c, pits, |pits|) <==> exists pit :: pit in pits && Adjacent(pit, c)
    {
      if exists pit :: pit in pits && Adjacent(pit, c) {
        var pit :| pit in pits && Adjacent(pit, c);
        var j :| 0 <= j < |pits| && pits[j] == pit;
      }
    }
  }

  /** `generate_odor_positions`: a set filled direction by direction. */
  method GenerateOdorPositions(size: int, wumpus: Cell, entry: Cell, exit: Cell) returns (odor: set<Cell>)
    ensures OdorSpec(odor, size, wumpus, entry, exit)
  {
    odor := {};
    var (x, y) := wumpus;
    for k := 0 to |Directions|
      invariant forall c :: c in odor <==>
        InBounds(c, size) && c != entry && c != exit && Reached(c, wumpus, k)
    {
      var (dx, dy) := Directions[k];
      var (nx, ny) := (x + dx, y + dy);
      if 0 <= nx < size && 0 <= ny < size && (nx, ny) != entry && (nx, ny) != exit {
        odor := odor + {(nx, ny)};
      }
    }
    forall c
      ensures Reached(c, wumpus, |Directions|) <==> Adjacent(wumpus, c)
    {
      AdjacentIffStep(wumpus, c);
    }
  }

  // ---------------------------------------------------------------------
  // World set-up
  // ---------------------------------------------------------------------

  /**
   * What `init_world` leaves: the entry and the exit fixed, the monster,
   * the treasure and two pits away from them (the treasure off the monster,
   * each pit off both but not necessarily off the other pit), and the cue
   * cells derived from them.
   */
  ghost predicate SetUp(size: int, entry: Cell, exit: Cell, wumpus: Cell, treasure: Cell,
                        pits: seq<Cell>, wind: set<Cell>, odor: set<Cell>) {
    size >= 4 && entry == (0, 0) && exit == (size - 1, size - 1) &&
    Acceptable(wumpus, size, entry, exit, [entry, exit]) &&
    Acceptable(treasure, size, entry, exit, [entry, exit, wumpus]) &&
    |pits| == 2 &&
    (forall p :: p in pits ==> Acceptable(p, size, entry, exit, [entry, exit, wumpus, treasure])) &&
    WindSpec(wind, size, pits, wumpus, treasure) &&
    OdorSpec(odor, size, wumpus, entry, exit)
  }

  /**
   * `init_world` on values: fixes the entry and the exit, places the monster, the
   * treasure and the two pits in that order, each excluding the cells
   * placed before it, then derives the wind and odor cells.
   */
  method InitLayout(size: int)
    returns (entry: Cell, exit: Cell, wumpus: Cell, treasure: Cell, pits: seq<Cell>, wind: set<Cell>, odor: set<Cell>)
    requires size >= 4
    ensures SetUp(size, entry, exit, wumpus, treasure, pits, wind, odor)
  {
    entry, exit := (0, 0), (size - 1, size - 1);
    PlacementPossible(size, entry, exit, [entry, exit], entry, exit);
    wumpus := PlaceRandomly(size, entry, exit, [entry, exit]);
    PlacementPossible(size, entry, exit, [entry, exit, wumpus], wumpus, wumpus);
    treasure := PlaceRandomly(size, entry, exit, [entry, exit, wumpus]);
    var exclude := [entry, exit, wumpus, treasure];
    PlacementPossible(size, entry, exit, exclude, wumpus, treasure);
    var pit1 := PlaceRandomly(size, entry, exit, exclude);
    var pit2 := PlaceRandomly(size, entry, exit, exclude);
    pits := [pit1, pit2];
    wind := GenerateWindPositions(size, pits, wumpus, treasure);
    odor := GenerateOdorPositions(size, wumpus, entry, exit);
  }

  // ---------------------------------------------------------------------
  // Game state
  // ---------------------------------------------------------------------

  datatype Hazard = Monster | Pit

  /** `death_info`: where the player died and of what. */
  datatype Death = Death(cell: Cell, cause: Hazard)

  /** What is fixed once the world is set up. */
  datatype Layout = Layout(size: int, entry: Cell, exit: Cell, wumpus: Cell, pits: seq<Cell>,
                           wind: set<Cell>, odor: set<Cell>, route: seq<Move>)

  /** What the steps change; `treasure` becomes None once collected. */
  datatype Play = Play(player: Cell, treasure: Option<Cell>, collected: bool, gameOver: bool,
                       death: Option<Death>, pathIndex: nat)

  /** Not within one king move of the entry or exit, and on the board. */
  predicate Placed(c: Cell, l: Layout) {
    InBounds(c, l.size) && !IsNearbyEntryOrExit(c, l.entry, l.exit)
  }

  /**
   * What holds of every reachable state: the fixed entry, exit and placements,
   * the player on the board, the treasure gone exactly when collected, a
   * recorded death at the monster or at a pit, the route cursor in range.
   */
  predicate Inv(l: Layout, s: Play) {
    l.size >= 4 && l.entry == (0, 0) && l.exit == (l.size - 1, l.size - 1) &&
    Placed(l.wumpus, l) &&
    (forall p :: p in l.pits ==> Placed(p, l) && p != l.wumpus) &&
    (s.treasure.Some? ==> Placed(s.treasure.value, l) && s.treasure.value != l.wumpus && s.treasure.value !in l.pits) &&
    (s.collected <==> s.treasure.None?) &&
    InBounds(s.player, l.size) &&
    (s.death.Some? ==>
       (s.death.value.cause == Monster && s.death.value.cell == l.wumpus) ||
       (s.death.value.cause == Pit && s.death.value.cell in l.pits)) &&
    s.pathIndex <= |l.route|
  }

  /**
   * `check_position`: the first matching case wins. Monster, then pit: the
   * death is recorded and the player sent back to the entry. Uncollected
   * treasure: collected and removed. Exit: the game ends. Wind, odor or
   * nothing: a message only, no change.
   */
  function CheckPosition(l: Layout, s: Play): Play {
    if s.player == l.wumpus then
      s.(death := Some(Death(s.player, Monster)), player := l.entry)
    else if s.player in l.pits then
      s.(death := Some(Death(s.player, Pit)), player := l.entry)
    else if Some(s.player) == s.treasure then
      if !s.collected then s.(collected := true, treasure := None) else s
    else if s.player == l.exit then
      s.(gameOver := true)
    else
      s
  }

  /**
   * `move_player(dx, dy)`: nothing once the game is over or when the move
   * leaves the board; otherwise the player moves and the new cell is checked.
   */
  function MovePlayer(l: Layout, s: Play, d: Move): Play {
    if s.gameOver then s
    else
      var next := Add(s.player, d);
      if InBounds(next, l.size) then CheckPosition(l, s.(player := next)) else s
  }

  /**
   * `move_player_automatically`: while route moves remain, make the next
   * one and advance the cursor, whether or not the move took effect.
   */
  function MoveAutomatically(l: Layout, s: Play): Play {
    if s.pathIndex < |l.route| then
      MovePlayer(l, s, l.route[s.pathIndex]).(pathIndex := s.pathIndex + 1)
    else s
  }

  /** The state the constructor leaves, with the treasure at `t`. */
  function Initial(l: Layout, t: Cell): Play {
    Play(l.entry, Some(t), false, false, None, 0)
  }

  /** The cells the route must avoid: hazards, the treasure and every cue cell. */
  function Obstacles(l: Layout, t: Cell): set<Cell> {
    {l.wumpus, t} + (set p | p in l.pits) + l.wind + l.odor
  }

  /** `n` calls of `move_player_automatically`, as the driver makes them. */
  function Run(l: Layout, s: Play, n: nat): Play
    decreases n
  {
    if n == 0 then s else MoveAutomatically(l, Run(l, s, n - 1))
  }

  // ---------------------------------------------------------------------
  // Properties of the transition
  // ---------------------------------------------------------------------

  /**
   * The case analysis of `check_position`, by outcome: which case applies
   * and what it changes; every other field is left as it was.
   */
  lemma CheckPositionCases(l: Layout, s: Play)
    requires Inv(l, s)
    ensures var r := CheckPosition(l, s);
      && r.pathIndex == s.pathIndex
      && (s.player == l.wumpus ==>
            r == s.(player := l.entry, death := Some(Death(s.player, Monster))))
      && (s.player != l.wumpus && s.player in l.pits ==>
            r == s.(player := l.entry, death := Some(Death(s.player, Pit))))
      && (s.player != l.wumpus && s.player !in l.pits && Some(s.player) == s.treasure ==>
            r == s.(collected := true, treasure := None))
      && (s.player == l.exit ==> r == s.(gameOver := true))
      && (s.player != l.wumpus && s.player !in l.pits && Some(s.player) != s.treasure && s.player != l.exit ==>
            r == s)
  {
    if s.player == l.exit {
      assert Chebyshev(l.exit, l.exit) == 0;
    }
  }

  /** Reaching the exit always ends the game: no hazard or treasure can lie there. */
  lemma ExitEndsGame(l: Layout, s: Play, d: Move)
    requires Inv(l, s) && !s.gameOver && Add(s.player, d) == l.exit
    ensures MovePlayer(l, s, d) == s.(player := l.exit, gameOver := true)
  {
    CheckPositionCases(l, s.(player := l.exit));
  }

  lemma CheckPositionKeepsInv(l: Layout, s: Play)
    requires Inv(l, s)
    ensures Inv(l, CheckPosition(l, s))
  {
  }

  /** `move_player` keeps the invariant; in particular the player stays on the board. */
  lemma MovePlayerKeepsInv(l: Layout, s: Play, d: Move)
    requires Inv(l, s)
    ensures Inv(l, MovePlayer(l, s, d))
  {
    if !s.gameOver && InBounds(Add(s.player, d), l.size) {
      CheckPositionKeepsInv(l, s.(player := Add(s.player, d)));
    }
  }

  lemma MoveAutomaticallyKeepsInv(l: Layout, s: Play)
    requires Inv(l, s)
    ensures Inv(l, MoveAutomatically(l, s))
  {
    if s.pathIndex < |l.route| {
      MovePlayerKeepsInv(l, s, l.route[s.pathIndex]);
    }
  }

  /** `game_over` and `treasure_collected` never go back from true to false. */
  lemma FlagsOnlyRise(l: Layout, s: Play, d: Move)
    ensures s.gameOver ==> CheckPosition(l, s).gameOver && MovePlayer(l, s, d).gameOver && MoveAutomatically(l, s).gameOver
    ensures s.collected ==> CheckPosition(l, s).collected && MovePlayer(l, s, d).collected && MoveAutomatically(l, s).collected
  {
  }

  /**
   * Once the game is over a move changes nothing, and an automatic step
   * only advances the route cursor.
   */
  lemma GameOverIsFinal(l: Layout, s: Play, d: Move)
    requires s.gameOver
    ensures MovePlayer(l, s, d) == s
    ensures MoveAutomatically(l, s) == if s.pathIndex < |l.route| then s.(pathIndex := s.pathIndex + 1) else s
  {
  }

  /**
   * An automatic step advances the cursor by exactly one while route moves
   * remain, even when the move is dropped; once they are used up it is a no-op.
   */
  lemma AutoStepAdvancesCursor(l: Layout, s: Play)
    ensures s.pathIndex < |l.route| ==> MoveAutomatically(l, s).pathIndex == s.pathIndex + 1
    ensures s.pathIndex >= |l.route| ==> MoveAutomatically(l, s) == s
  {
  }

  /** A freshly set-up world with the player on the entry satisfies the invariant. */
  lemma SetUpInitial(l: Layout, t: Cell)
    requires SetUp(l.size, l.entry, l.exit, l.wumpus, t, l.pits, l.wind, l.odor)
    ensures Inv(l, Initial(l, t))
  {
  }

  /**
   * Neither the entry nor the exit is ever an obstacle of the route: the hazards and the
   * treasure keep away from them, so do the wind cells beside the pits, and
   * the odor cells leave them out by construction.
   */
  lemma EntryExitNeverObstacles(l: Layout, t: Cell)
    requires Inv(l, Initial(l, t))
    requires WindSpec(l.wind, l.size, l.pits, l.wumpus, t)
    requires OdorSpec(l.odor, l.size, l.wumpus, l.entry, l.exit)
    ensures l.exit !in Obstacles(l, t) && l.entry !in Obstacles(l, t)
  {
    assert Chebyshev(l.exit, l.exit) == 0 && Chebyshev(l.entry, l.entry) == 0;
    forall pit | pit in l.pits
      ensures !Adjacent(pit, l.exit) && !Adjacent(pit, l.entry)
    {
      assert Placed(pit, l);
    }
  }

  /**
   * The shape of the state after `k` automatic steps along a route that
   * avoids every obstacle: nothing collected, nobody dead, and the player
   * either at the exit with the game over, or on the route's `k`-th cell,
   * which is not the exit.
   */
  predicate OnRoute(l: Layout, t: Cell, s: Play, k: nat)
    requires k <= |l.route|
  {
    s.pathIndex == k && s.treasure == Some(t) && !s.collected && s.death == None &&
    (s.gameOver ==> s.player == l.exit) &&
    (!s.gameOver ==> s.player == Follow(l.entry, l.route[..k]) && s.player != l.exit)
  }

  /** After `k` automatic steps along an obstacle-free route the state is OnRoute. */
  lemma {:induction false} RouteProgress(l: Layout, t: Cell, k: nat)
    requires Inv(l, Initial(l, t))
    requires IsWalk(l.entry, l.route, l.size, Obstacles(l, t))
    requires k <= |l.route|
    ensures OnRoute(l, t, Run(l, Initial(l, t), k), k)
  {
    if k == 0 {
      assert l.route[..0] == [];
    } else {
      RouteProgress(l, t, k - 1);
      var s := Run(l, Initial(l, t), k - 1);
      RouteStep(l, t, s, k - 1);
      assert Run(l, Initial(l, t), k) == MoveAutomatically(l, s);
    }
  }

  /** One automatic step along an obstacle-free route keeps the state OnRoute. */
  lemma RouteStep(l: Layout, t: Cell, s: Play, k: nat)
    requires Inv(l, Initial(l, t))
    requires IsWalk(l.entry, l.route, l.size, Obstacles(l, t))
    requires k < |l.route| && OnRoute(l, t, s, k)
    ensures OnRoute(l, t, MoveAutomatically(l, s), k + 1)
  {
    if !s.gameOver {
      WalkStep(l.entry, l.route, k, l.size, Obstacles(l, t));
    }
  }

  /**
   * The automatic agent on a route from the search (a walk from the entry to
   * the exit avoiding hazards, treasure and cues) reaches the exit with the
   * game over after exactly as many steps as the route has moves, never
   * dying and never collecting the treasure: it always escapes without it.
   */
  lemma AutoRunEscapes(l: Layout, t: Cell)
    requires Inv(l, Initial(l, t))
    requires IsWalk(l.entry, l.route, l.size, Obstacles(l, t)) && Follow(l.entry, l.route) == l.exit
    ensures Run(l, Initial(l, t), |l.route|) == Play(l.exit, Some(t), false, true, None, |l.route|)
  {
    RouteProgress(l, t, |l.route|);
    assert l.route[..|l.route|] == l.route;
  }

  /** With no route (an unreachable exit) the agent never moves. */
  lemma {:induction false} NoRouteNoMove(l: Layout, s: Play, n: nat)
    requires l.route == []
    ensures Run(l, s, n) == s
  {
    if n > 0 {
      NoRouteNoMove(l, s, n - 1);
    }
  }
}
