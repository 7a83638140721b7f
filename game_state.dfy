/**
 * The game's state as a value: the player's position, the enemies' positions in
 * list order, and the formation counters. The `Game` class is proved to follow
 * these functions step by step; the lemmas here say what the steps promise.
 */
module GameState {
  import Sprites
  import Render

  /** Key codes the keyboard handler reacts to. */
  const LeftArrow: int := 37
  const RightArrow: int := 39

  /** A grid position: `x` is the row (it grows downward), `y` the column. */
  datatype Pos = Pos(x: int, y: int)

  /**
   * `shift` is the column of the first enemy, `span` the number of enemies
   * counted at seeding, `dir` the sideways step of the next sweep.
   */
  datatype State = State(width: int, height: int, player: Pos, enemies: seq<Pos>,
                         shift: int, span: int, dir: int)

  // ---------------------------------------------------------------- seeding

  /**
   * How many enemies seeding places: one per column shift, shift+2, ... that
   * is below width-shift. The result is the least n with shift+2n >= width-shift.
   */
  function EnemyCount(width: int, shift: int): (n: nat)
    ensures n == 0 <==> width - shift <= shift
    ensures n > 0 ==> shift + 2 * (n - 1) < width - shift <= shift + 2 * n
  {
    if shift < width - shift then (width - 2 * shift + 1) / 2 else 0
  }

  /** The state right after `new Game(width, height, shift)`. */
  function Seed(width: int, height: int, shift: int): State {
    var n := EnemyCount(width, shift);
    State(width, height, Pos(height - 1, shift), seq(n, i => Pos(0, shift + 2 * i)), shift, n, 1)
  }

  /** Seeding: one row of enemies two columns apart from `shift`, the player below them. */
  lemma SeedLayout(width: int, height: int, shift: int)
    ensures var s := Seed(width, height, shift);
      s.span == |s.enemies| && s.dir == 1 && s.shift == shift &&
      s.player == Pos(height - 1, shift) &&
      (forall i :: 0 <= i < |s.enemies| ==>
         s.enemies[i] == Pos(0, shift + 2 * i) && shift + 2 * i < width - shift) &&
      shift + 2 * |s.enemies| >= width - shift
  {
  }

  /** The configuration the page starts with, `new Game(30, 10)`: 12 enemies, player at (9, 3). */
  lemma DefaultGame()
    ensures var s := Seed(30, 10, 3);
      |s.enemies| == 12 && s.span == 12 && s.player == Pos(9, 3) &&
      s.enemies[0] == Pos(0, 3) && s.enemies[11] == Pos(0, 25)
  {
  }

  // ------------------------------------------------------- formation step

  /** The sweep: every enemy, and the shared shift, move by `dir` columns. */
  function Sweep(s: State): State {
    s.(enemies := seq(|s.enemies|, i requires 0 <= i < |s.enemies| =>
                        Pos(s.enemies[i].x, s.enemies[i].y + s.dir)),
       shift := s.shift + s.dir)
  }

  /** The boundary test of `moveEnemies` in main.js, literally: a far-wall test or a shift of exactly 0. */
  predicate AtWall(s: State) {
    s.shift + (s.span * 2 - 1) >= s.width || s.shift == 0
  }

  /** Reverse the direction and drop every enemy one row. */
  function Descend(s: State): State {
    s.(dir := s.dir * -1,
       enemies := seq(|s.enemies|, i requires 0 <= i < |s.enemies| =>
                        Pos(s.enemies[i].x + 1, s.enemies[i].y)))
  }

  /** One call of `moveEnemies`: sweep, then the boundary test on the swept state. */
  function Tick(s: State): State {
    var t := Sweep(s);
    if AtWall(t) then Descend(t) else t
  }

  /** True when the tick that starts in `s` reverses and descends. */
  predicate Turns(s: State) {
    s.shift + s.dir + (s.span * 2 - 1) >= s.width || s.shift + s.dir == 0
  }

  /**
   * What one tick does: each enemy moves `dir` columns and the shift with it;
   * when the boundary test holds afterwards the direction is negated and each
   * row grows by exactly one, otherwise direction and rows are kept. Nothing
   * else changes.
   */
  lemma TickEffect(s: State)
    ensures var t := Tick(s);
      |t.enemies| == |s.enemies| && t.shift == s.shift + s.dir &&
      t.dir == (if Turns(s) then -s.dir else s.dir) &&
      (forall i :: 0 <= i < |s.enemies| ==>
         t.enemies[i].y == s.enemies[i].y + s.dir &&
         t.enemies[i].x == s.enemies[i].x + (if Turns(s) then 1 else 0)) &&
      t.width == s.width && t.height == s.height && t.player == s.player && t.span == s.span
  {
  }

  /** `Tick` iterated n times. */
  function Ticks(s: State, n: nat): State
    decreases n
  {
    if n == 0 then s else Ticks(Tick(s), n - 1)
  }

  // ------------------------------------------------------------ invariants

  /** Enemy i stands at column shift + 2i, all on one row, and span counts them. */
  ghost predicate Rigid(s: State) {
    |s.enemies| == s.span &&
    forall i :: 0 <= i < |s.enemies| ==> s.enemies[i] == Pos(s.enemies[0].x, s.shift + 2 * i)
  }

  /**
   * The band fits between the walls, and one more sweep in the current
   * direction keeps it there: heading right, its last enemy is left of the
   * last column; heading left, its first enemy is right of column 0.
   */
  ghost predicate Inside(s: State) {
    2 * s.span - 1 < s.width &&
    0 <= s.shift && s.shift + 2 * s.span - 2 <= s.width - 1 &&
    (s.dir == 1 || s.dir == -1) &&
    (s.dir == 1 ==> s.shift + 2 * s.span - 2 < s.width - 1) &&
    (s.dir == -1 ==> 0 < s.shift)
  }

  ghost predicate ColumnsInBounds(s: State) {
    forall i :: 0 <= i < |s.enemies| ==> 0 <= s.enemies[i].y < s.width
  }

  /** One tick keeps the band rigid and inside, so every column stays in [0, width-1]. */
  lemma TickKeepsBand(s: State)
    requires Rigid(s) && Inside(s)
    ensures Rigid(Tick(s)) && Inside(Tick(s)) && ColumnsInBounds(Tick(s))
  {
    var t := Sweep(s);
    assert Rigid(t);
    if AtWall(t) {
      assert Rigid(Descend(t));
    }
  }

  /**
   * Whatever the number of ticks, a band that starts rigid and inside keeps a
   * direction of 1 or -1, its span, and every column inside the walls.
   */
  lemma {:induction false} TicksKeepBand(s: State, n: nat)
    requires Rigid(s) && Inside(s)
    decreases n
    ensures var t := Ticks(s, n);
      Rigid(t) && Inside(t) && ColumnsInBounds(t) && (t.dir == 1 || t.dir == -1) && t.span == s.span
  {
    if n == 0 {
      assert ColumnsInBounds(s);
    } else {
      TickKeepsBand(s);
      TicksKeepBand(Tick(s), n - 1);
    }
  }

  /** `t` has the enemies of `s`, each on the same row or lower, in the same grid with the same player. */
  ghost predicate NoneRose(s: State, t: State) {
    |t.enemies| == |s.enemies| && t.span == s.span &&
    t.width == s.width && t.height == s.height && t.player == s.player &&
    forall i :: 0 <= i < |s.enemies| ==> s.enemies[i].x <= t.enemies[i].x
  }

  /** Rows never decrease, however many ticks, and the span never changes. */
  lemma {:induction false} TicksNeverRaise(s: State, n: nat)
    ensures NoneRose(s, Ticks(s, n))
    decreases n
  {
    if n > 0 {
      TicksNeverRaise(Tick(s), n - 1);
    }
  }

  /**
   * A seeded band is rigid and inside if its shift is not negative, it has at
   * least one enemy and 2 * count - 1 < width (the last always holds for a
   * shift of at least 1).
   */
  lemma SeedStartsBand(width: int, height: int, shift: int)
    requires 0 <= shift
    requires 1 <= EnemyCount(width, shift) && 2 * EnemyCount(width, shift) - 1 < width
    ensures Rigid(Seed(width, height, shift)) && Inside(Seed(width, height, shift))
  {
  }

  /**
   * Without that margin the band leaves the grid: with shift 0 on a width of 5,
   * the first tick moves the third enemy to column 5.
   */
  lemma ZeroShiftOddWidthLeavesGrid()
    ensures EnemyCount(5, 0) == 3
    ensures Tick(Seed(5, 4, 0)).enemies[2].y == 5
  {
  }

  /**
   * Why `Inside` carries its direction clauses: a rigid band with every column
   * on the grid and 2 * span - 1 < width, heading right with its last enemy
   * already on the last column, leaves the grid on the next tick.
   */
  lemma InBoundsIsNotEnough()
    ensures var s := State(5, 4, Pos(3, 0), [Pos(0, 2), Pos(0, 4)], 2, 2, 1);
      Rigid(s) && ColumnsInBounds(s) && 2 * s.span - 1 < s.width && !Inside(s) &&
      Tick(s).enemies[1].y == 5
  {
    var s := State(5, 4, Pos(3, 0), [Pos(0, 2), Pos(0, 4)], 2, 2, 1);
    assert s.enemies[1] == Pos(s.enemies[0].x, s.shift + 2 * 1);
  }

  /** The direction stays 1 or -1 over any number of ticks, whatever the band looks like. */
  lemma {:induction false} DirStays(s: State, n: nat)
    requires s.dir == 1 || s.dir == -1
    ensures Ticks(s, n).dir == 1 || Ticks(s, n).dir == -1
    decreases n
  {
    if n > 0 {
      DirStays(Tick(s), n - 1);
    }
  }

  // --------------------------------------------------------------- game over

  /** `gameOver`: the last enemy in the list has reached the player's row. */
  function GameOver(s: State): bool
    requires |s.enemies| > 0
  {
    s.enemies[|s.enemies| - 1].x >= s.height - 1
  }

  /**
   * In a rigid band all enemies share one row, so testing only the last enemy
   * agrees with "some enemy has reached row height-1" and with "all have".
   */
  lemma GameOverWhenBandLands(s: State)
    requires Rigid(s) && |s.enemies| > 0
    ensures GameOver(s) <==> exists i :: 0 <= i < |s.enemies| && s.enemies[i].x >= s.height - 1
    ensures GameOver(s) <==> forall i :: 0 <= i < |s.enemies| ==> s.enemies[i].x >= s.height - 1
  {
    var last := |s.enemies| - 1;
    assert s.enemies[last].x == s.enemies[0].x;
  }

  /** Outside a rigid band only the last enemy is tested: an earlier one can land unnoticed. */
  lemma OnlyLastEnemyIsTested()
    ensures !GameOver(State(5, 4, Pos(3, 0), [Pos(3, 0), Pos(0, 2)], 0, 2, 1))
  {
  }

  /**
   * A tick that starts after the game is over still sweeps (and may descend):
   * the state changes, and the game stays over.
   */
  lemma TickAfterGameOver(s: State)
    requires |s.enemies| > 0 && GameOver(s) && s.dir != 0
    ensures Tick(s) != s && Tick(s).shift == s.shift + s.dir
    ensures |Tick(s).enemies| > 0 && GameOver(Tick(s))
  {
  }

  // ---------------------------------------------------------- player moves

  /**
   * The player's column after a key: left arrow moves one column left unless
   * at column 0, right arrow one column right unless at column width-1, any
   * other key does nothing.
   */
  function KeyStep(column: int, width: int, keyCode: int): (c: int)
    ensures c < column <==> keyCode == LeftArrow && column > 0
    ensures c > column <==> keyCode == RightArrow && column < width - 1
    ensures column - 1 <= c <= column + 1
    ensures 0 <= column < width ==> 0 <= c < width
  {
    if keyCode == LeftArrow then (if column > 0 then column - 1 else column)
    else if keyCode == RightArrow then (if column < width - 1 then column + 1 else column)
    else column
  }

  /** The key switch of the keyboard handler, on the whole state. */
  function PressKey(s: State, keyCode: int): State {
    s.(player := Pos(s.player.x, KeyStep(s.player.y, s.width, keyCode)))
  }

  // ----------------------------------------------------------- event runs

  /** What reaches the game: a formation timer tick or a key press. */
  datatype Event = TimerFired | KeyDown(keyCode: int)

  function Step(s: State, e: Event): State {
    match e
    case TimerFired => Tick(s)
    case KeyDown(k) => PressKey(s, k)
  }

  function Run(s: State, events: seq<Event>): State
    decreases |events|
  {
    if events == [] then s else Run(Step(s, events[0]), events[1..])
  }

  /**
   * A state the game can be drawn from: a rigid band inside the walls on a row
   * at or below 0, and the player on the last row inside the walls.
   */
  ghost predicate Playable(s: State) {
    Rigid(s) && Inside(s) && 1 <= |s.enemies| && 0 <= s.enemies[0].x &&
    s.player.x == s.height - 1 && 0 <= s.player.y < s.width
  }

  lemma SeedIsPlayable(width: int, height: int, shift: int)
    requires 0 <= shift
    requires 1 <= EnemyCount(width, shift) && 2 * EnemyCount(width, shift) - 1 < width
    ensures Playable(Seed(width, height, shift))
  {
    SeedStartsBand(width, height, shift);
  }

  lemma StepKeepsPlayable(s: State, e: Event)
    requires Playable(s)
    ensures Playable(Step(s, e)) && |Step(s, e).enemies| == |s.enemies|
    ensures Step(s, e).width == s.width && Step(s, e).height == s.height
    ensures forall i :: 0 <= i < |s.enemies| ==> s.enemies[i].x <= Step(s, e).enemies[i].x
  {
    match e
    case TimerFired =>
      TickKeepsBand(s);
      TicksNeverRaise(s, 1);
      assert Ticks(s, 1) == Tick(s);
      assert Tick(s).enemies[0].x >= s.enemies[0].x;
    case KeyDown(k) =>
  }

  /** Any run of ticks and key presses keeps a playable state playable, and rows never rise. */
  lemma {:induction false} RunKeepsPlayable(s: State, events: seq<Event>)
    requires Playable(s)
    ensures Playable(Run(s, events))
    ensures |Run(s, events).enemies| == |s.enemies|
    ensures Run(s, events).width == s.width && Run(s, events).height == s.height
    ensures forall i :: 0 <= i < |s.enemies| ==> s.enemies[i].x <= Run(s, events).enemies[i].x
    decreases |events|
  {
    if events != [] {
      var t := Step(s, events[0]);
      StepKeepsPlayable(s, events[0]);
      RunKeepsPlayable(t, events[1..]);
    }
  }

  /**
   * Whatever events follow, the enemies and the grid size stay, and no enemy
   * rises: a key press moves only the player, a tick never lifts a row.
   */
  lemma {:induction false} RunNeverRaises(s: State, events: seq<Event>)
    ensures |Run(s, events).enemies| == |s.enemies| && Run(s, events).height == s.height
    ensures forall i :: 0 <= i < |s.enemies| ==> s.enemies[i].x <= Run(s, events).enemies[i].x
    decreases |events|
  {
    if events != [] {
      var t := Step(s, events[0]);
      if events[0].TimerFired? {
        TicksNeverRaise(s, 1);
        assert Ticks(s, 1) == Tick(s);
      }
      RunNeverRaises(t, events[1..]);
    }
  }

  /** Once the game is over it stays over, whatever events follow. */
  lemma {:induction false} OverStaysOver(s: State, events: seq<Event>)
    requires |s.enemies| > 0 && GameOver(s)
    ensures |Run(s, events).enemies| > 0 && GameOver(Run(s, events))
  {
    RunNeverRaises(s, events);
    var last := |s.enemies| - 1;
    assert s.enemies[last].x <= Run(s, events).enemies[last].x;
  }

  // ------------------------------------------------------------- the board

  /** The sprites in the order the game keeps them: the player, then the enemies. */
  function Layout(s: State): (ts: seq<Render.Tile>)
    ensures |ts| == |s.enemies| + 1
  {
    [Render.Tile(s.player.x, s.player.y, Sprites.PlayerSymbol)] +
    seq(|s.enemies|, i requires 0 <= i < |s.enemies| =>
          Render.Tile(s.enemies[i].x, s.enemies[i].y, Sprites.InvaderSymbol))
  }

  /** While the game is not over, every sprite of a playable state lies on the grid. */
  lemma PlayableFitsGrid(s: State)
    requires Playable(s) && !GameOver(s)
    ensures 1 <= s.height && 1 <= s.width
    ensures Render.InBounds(Layout(s), s.height, s.width)
  {
    GameOverWhenBandLands(s);
    assert s.enemies[|s.enemies| - 1].x == s.enemies[0].x;
  }

  /**
   * The frame `moveEnemies` draws is of the swept band, before the boundary
   * test: for a playable state whose swept band has not landed, every sprite
   * of that frame lies on the grid.
   */
  lemma SweptFitsGrid(s: State)
    requires Playable(s) && !GameOver(Sweep(s))
    ensures 1 <= s.height && 1 <= s.width
    ensures Render.InBounds(Layout(Sweep(s)), s.height, s.width)
  {
    TickKeepsBand(s);
    GameOverWhenBandLands(s);
    var t := Sweep(s);
    assert forall k :: 0 <= k < |t.enemies| ==> t.enemies[k].y == Tick(s).enemies[k].y;
    assert t.enemies[|t.enemies| - 1].x == s.enemies[0].x;
  }

  /** The frame the keyboard handler draws after a key: on the grid while the game is not over. */
  lemma KeyFrameFitsGrid(s: State, keyCode: int)
    requires Playable(s) && !GameOver(PressKey(s, keyCode))
    ensures 1 <= s.height && 1 <= s.width
    ensures Render.InBounds(Layout(PressKey(s, keyCode)), s.height, s.width)
  {
    StepKeepsPlayable(s, KeyDown(keyCode));
    PlayableFitsGrid(PressKey(s, keyCode));
  }

  /**
   * So a tick that lowers the band onto the player's row still draws the grid:
   * the game-over message only appears on the next draw.
   */
  lemma LandingTickDrawsGrid()
    ensures var s := State(5, 4, Pos(3, 1), [Pos(2, 1), Pos(2, 3)], 1, 2, 1);
      !GameOver(Sweep(s)) && GameOver(Tick(s))
  {
  }

  /** Facts about a playable, unfinished state that the board lemmas share. */
  lemma BandAbovePlayer(s: State)
    requires Playable(s) && !GameOver(s)
    ensures forall k :: 0 <= k < |s.enemies| ==> 0 <= s.enemies[k].x < s.height - 1 == s.player.x
  {
    GameOverWhenBandLands(s);
  }

  /**
   * The grid a playable, unfinished state draws shows `@` on the player's
   * cell: no enemy stands on the player's row.
   */
  lemma BoardShowsPlayer(s: State)
    requires Playable(s) && !GameOver(s)
    ensures Render.Occupant(Layout(s), s.player.x, s.player.y) == Render.Mark(Sprites.PlayerSymbol)
  {
    var ts := Layout(s);
    BandAbovePlayer(s);
    forall m | 0 < m < |ts| ensures !Render.At(ts[m], s.player.x, s.player.y) {
      assert ts[m].x == s.enemies[m - 1].x;
    }
    Render.OccupantIsLast(ts, 0, s.player.x, s.player.y);
  }

  /** ... and `X` on each enemy's cell: enemies stand in distinct columns. */
  lemma BoardShowsEnemy(s: State, k: int)
    requires Rigid(s) && 0 <= k < |s.enemies|
    ensures Render.Occupant(Layout(s), s.enemies[k].x, s.enemies[k].y) == Render.Mark(Sprites.InvaderSymbol)
  {
    var ts := Layout(s);
    var e := s.enemies[k];
    forall m | k + 1 < m < |ts| ensures !Render.At(ts[m], e.x, e.y) {
      assert ts[m].y == s.enemies[m - 1].y == s.shift + 2 * (m - 1);
    }
    Render.OccupantIsLast(ts, k + 1, e.x, e.y);
  }

  /** ... and nothing on any cell that holds no sprite. */
  lemma BoardEmptyElsewhere(s: State, i: int, j: int)
    requires Pos(i, j) != s.player && forall k :: 0 <= k < |s.enemies| ==> s.enemies[k] != Pos(i, j)
    ensures Render.Occupant(Layout(s), i, j) == Render.Empty
  {
    var ts := Layout(s);
    forall m | 0 <= m < |ts| ensures !Render.At(ts[m], i, j) {
      if m > 0 {
        assert ts[m].x == s.enemies[m - 1].x && ts[m].y == s.enemies[m - 1].y;
      }
    }
    Render.OccupantEmpty(ts, i, j);
  }
}
