/**
 * The `Game` object and the two free functions that drive it: the formation
 * timer's `moveEnemies` and the key switch of `handleKeyboardInput`. Each is
 * proved to move the object's state exactly as the matching function of
 * `GameState` moves its value.
 */
module Pewpew {
  import opened Sprites
  import GameState
  import Render

  /** What `draw` puts on the page: the game-over message, or the grid and its markup. */
  datatype Screen = GameOverMessage | Board(grid: Render.Grid, markup: string)

  /**
   * `screen` is what `draw` shows for state `s`: the message exactly when `s`
   * is over, otherwise the grid of `s`'s sprites and its markup.
   */
  ghost predicate Shows(screen: Screen, s: GameState.State)
    requires |s.enemies| > 0
  {
    (screen == GameOverMessage <==> GameState.GameOver(s)) &&
    (screen.Board? ==>
       0 <= s.height && 0 <= s.width && Render.IsShape(screen.grid, s.height, s.width) &&
       (forall i, j :: 0 <= i < s.height && 0 <= j < s.width ==>
          screen.grid[i][j] == Render.Occupant(GameState.Layout(s), i, j)) &&
       screen.markup == Render.ArrayToDOM(screen.grid))
  }

  /** The positions of a list of sprites, in order. */
  ghost function Positions(ss: seq<Sprite>): (ps: seq<GameState.Pos>)
    reads ss
    ensures |ps| == |ss|
    ensures forall i :: 0 <= i < |ss| ==> ps[i] == GameState.Pos(ss[i].x, ss[i].y)
  {
    seq(|ss|, i reads ss requires 0 <= i < |ss| => GameState.Pos(ss[i].x, ss[i].y))
  }

  lemma PositionsAre(ss: seq<Sprite>, ps: seq<GameState.Pos>)
    requires |ss| == |ps|
    requires forall k :: 0 <= k < |ss| ==> ss[k].x == ps[k].x && ss[k].y == ps[k].y
    ensures Positions(ss) == ps
  {
  }

  /** No sprite appears twice in the list. */
  ghost predicate Distinct(ss: seq<Sprite>) {
    forall i, j :: 0 <= i < j < |ss| ==> ss[i] != ss[j]
  }

  /** The sweep loop of `moveEnemies`: every sprite of the list moves `d` columns. */
  method ShiftColumns(ss: seq<Sprite>, d: int)
    requires Distinct(ss)
    modifies ss
    ensures forall k :: 0 <= k < |ss| ==> ss[k].x == old(ss[k].x) && ss[k].y == old(ss[k].y) + d
  {
    for i := 0 to |ss|
      invariant forall k :: 0 <= k < i ==> ss[k].x == old(ss[k].x) && ss[k].y == old(ss[k].y) + d
      invariant forall k :: i <= k < |ss| ==> ss[k].x == old(ss[k].x) && ss[k].y == old(ss[k].y)
    {
      ss[i].y := ss[i].y + d;
    }
  }

  /** The descent loop of `moveEnemies`: every sprite of the list drops one row. */
  method DropRows(ss: seq<Sprite>)
    requires Distinct(ss)
    modifies ss
    ensures forall k :: 0 <= k < |ss| ==> ss[k].x == old(ss[k].x) + 1 && ss[k].y == old(ss[k].y)
  {
    for i := 0 to |ss|
      invariant forall k :: 0 <= k < i ==> ss[k].x == old(ss[k].x) + 1 && ss[k].y == old(ss[k].y)
      invariant forall k :: i <= k < |ss| ==> ss[k].x == old(ss[k].x) && ss[k].y == old(ss[k].y)
    {
      ss[i].x := ss[i].x + 1;
    }
  }

  /**
   * How a game's lists hang together: `sprites` is the player followed by
   * `enemies`, no object appears twice, and the symbols tell the kinds apart.
   */
  ghost predicate Linked(sprites: seq<Sprite>, enemies: seq<Sprite>, player: Sprite) {
    sprites == [player] + enemies &&
    player.symbol == PlayerSymbol &&
    (forall i :: 0 <= i < |enemies| ==> enemies[i] != player && enemies[i].symbol == InvaderSymbol) &&
    Distinct(enemies)
  }

  /** What a list of sprites puts on the grid, in order. */
  ghost function TilesOf(ss: seq<Sprite>): (ts: seq<Render.Tile>)
    reads ss
    ensures |ts| == |ss|
    ensures forall i :: 0 <= i < |ss| ==> ts[i] == Render.Tile(ss[i].x, ss[i].y, ss[i].symbol)
  {
    seq(|ss|, i reads ss requires 0 <= i < |ss| => Render.Tile(ss[i].x, ss[i].y, ss[i].symbol))
  }

  class Game {
    const width: int
    const height: int
    /** Every sprite in drawing order: the player, then the enemies. */
    var sprites: seq<Sprite>
    /** The enemies, the same objects as `sprites` holds after the player. */
    var enemies: seq<Sprite>
    const player: Sprite
    var enemyShift: int
    var enemySpan: int
    var enemyDirection: int

    /** The object invariant: see `Linked`. */
    ghost predicate Valid()
      reads this
    {
      Linked(sprites, enemies, player)
    }

    /** The current state as a value. */
    ghost function Snapshot(): GameState.State
      reads this, player, enemies
    {
      GameState.State(width, height, GameState.Pos(player.x, player.y), Positions(enemies),
                      enemyShift, enemySpan, enemyDirection)
    }

    lemma SnapshotIs(s: GameState.State)
      requires s.width == width && s.height == height && s.player == GameState.Pos(player.x, player.y)
      requires s.enemies == Positions(enemies)
      requires s.shift == enemyShift && s.span == enemySpan && s.dir == enemyDirection
      ensures Snapshot() == s
    {
    }

    /** What the sprites currently put on the grid, in drawing order. */
    ghost function Tiles(): seq<Render.Tile>
      reads this, sprites
    {
      TilesOf(sprites)
    }

    /** For a valid game the sprites put the state's layout on the grid. */
    lemma TilesAreLayout()
      requires Valid()
      ensures Tiles() == GameState.Layout(Snapshot())
    {
      var ts, ls := Tiles(), GameState.Layout(Snapshot());
      assert |ts| == |ls|;
      forall k | 0 <= k < |ts| ensures ts[k] == ls[k] {
        if k > 0 {
          assert sprites[k] == enemies[k - 1];
        }
      }
    }

    /**
     * The player stands at (height-1, enemyShift); then one row of enemies is
     * seeded, and the direction starts at 1. Omitted arguments take the
     * defaults of the JavaScript game: 10, 4 and 3.
     */
    constructor (width: int := 10, height: int := 4, enemyShift: int := 3)
      ensures Valid()
      ensures fresh(player) && forall i :: 0 <= i < |enemies| ==> fresh(enemies[i])
      ensures Snapshot() == GameState.Seed(width, height, enemyShift)
    {
      this.width := width;
      this.height := height;
      sprites := [];
      enemies := [];
      player := new Sprite.Player(height - 1, enemyShift);
      new;
      AddPlayer();
      this.enemyShift := enemyShift;
      enemySpan := 0;  // `null` until addEnemies counts the enemies
      enemyDirection := 1;
      AddEnemies();
      PositionsAre(enemies, GameState.Seed(width, height, enemyShift).enemies);
    }

    /** Appends one row of invaders at row 0, columns enemyShift, enemyShift+2, ... below width-enemyShift. */
    method AddEnemies()
      requires Valid()
      modifies this`sprites, this`enemies, this`enemySpan
      ensures Valid()
      ensures |enemies| == |old(enemies)| + GameState.EnemyCount(width, enemyShift)
      ensures enemies[..|old(enemies)|] == old(enemies)
      ensures forall k :: |old(enemies)| <= k < |enemies| ==>
                fresh(enemies[k]) && enemies[k].x == 0 && enemies[k].y == enemyShift + 2 * (k - |old(enemies)|)
      ensures enemySpan == |enemies|
    {
      ghost var n0 := |enemies|;
      for x := 0 to 1
        invariant Valid() && n0 <= |enemies| && enemies[..n0] == old(enemies)
        invariant x == 0 ==> |enemies| == n0
        invariant x == 1 ==> |enemies| == n0 + GameState.EnemyCount(width, enemyShift)
        invariant forall k :: n0 <= k < |enemies| ==>
                    fresh(enemies[k]) && enemies[k].symbol == InvaderSymbol &&
                    enemies[k].x == 0 && enemies[k].y == enemyShift + 2 * (k - n0)
      {
        var y := enemyShift;
        while y < width - enemyShift
          invariant Valid() && n0 <= |enemies| && enemies[..n0] == old(enemies)
          invariant y == enemyShift + 2 * (|enemies| - n0)
          invariant |enemies| == n0 || enemyShift + 2 * (|enemies| - n0 - 1) < width - enemyShift
          invariant forall k :: n0 <= k < |enemies| ==>
                      fresh(enemies[k]) && enemies[k].symbol == InvaderSymbol &&
                      enemies[k].x == x && enemies[k].y == enemyShift + 2 * (k - n0)
          decreases width - enemyShift - y
        {
          var enemy := new Sprite.Invader(x, y);
          sprites := sprites + [enemy];
          enemies := enemies + [enemy];
          y := y + 2;
        }
      }
      enemySpan := |enemies|;
    }

    /** Appends the player to the drawing list. */
    method AddPlayer()
      modifies this`sprites
      ensures sprites == old(sprites) + [player]
    {
      sprites := sprites + [player];
    }

    /** `gameOver`: the last enemy in the list has reached row height-1. */
    function GameOver(): (over: bool)
      reads this, player, enemies
      requires |enemies| > 0
      ensures over == GameState.GameOver(Snapshot())
    {
      enemies[|enemies| - 1].x >= height - 1
    }

    /**
     * The grid half of `draw`: a height by width grid of empty cells on which
     * every sprite, in list order, writes its symbol, so each cell shows the
     * last sprite standing on it.
     */
    method BuildGrid() returns (grid: Render.Grid)
      requires 0 <= height && 0 <= width
      requires Render.InBounds(Tiles(), height, width)
      ensures Render.IsShape(grid, height, width)
      ensures forall i, j :: 0 <= i < height && 0 <= j < width ==> grid[i][j] == Render.Occupant(Tiles(), i, j)
    {
      grid := Render.EmptyGrid(height, width);
      ghost var ts := Tiles();
      for k := 0 to |sprites|
        invariant Render.IsShape(grid, height, width)
        invariant forall i, j :: 0 <= i < height && 0 <= j < width ==> grid[i][j] == Render.Occupant(ts[..k], i, j)
      {
        var sprite := sprites[k];
        assert Render.TileInBounds(ts[k], height, width);
        grid := grid[sprite.x := grid[sprite.x][sprite.y := Render.Mark(sprite.symbol)]];
        assert ts[..k + 1][..k] == ts[..k];
      }
      assert ts[..|sprites|] == ts;
    }

    /**
     * `draw`, with the page writes left out: the game-over message once the
     * game is over, otherwise the grid of the sprites and the markup
     * `arrayToDOM` makes of it.
     */
    method Draw() returns (screen: Screen)
      requires |enemies| > 0
      requires !GameOver() ==> 0 <= height && 0 <= width && Render.InBounds(Tiles(), height, width)
      ensures screen == GameOverMessage <==> GameOver()
      ensures screen.Board? ==>
                Render.IsShape(screen.grid, height, width) &&
                (forall i, j :: 0 <= i < height && 0 <= j < width ==>
                   screen.grid[i][j] == Render.Occupant(Tiles(), i, j)) &&
                screen.markup == Render.ArrayToDOM(screen.grid)
    {
      if GameOver() {
        screen := GameOverMessage;
      } else {
        var grid := BuildGrid();
        screen := Board(grid, Render.ArrayToDOM(grid));
      }
    }

    /** `draw` on a valid game: what it shows is what `Shows` prescribes for the game's state. */
    method Redraw() returns (screen: Screen)
      requires Valid() && |enemies| > 0
      requires !GameState.GameOver(Snapshot()) ==>
                 0 <= height && 0 <= width && Render.InBounds(GameState.Layout(Snapshot()), height, width)
      ensures Shows(screen, Snapshot())
    {
      TilesAreLayout();
      screen := Draw();
    }
  }

  /** The sweep of `moveEnemies`: every enemy, and `enemyShift`, move by the direction. */
  method SweepBand(game: Game)
    requires game.Valid()
    modifies game`enemyShift, game.enemies
    ensures game.Valid()
    ensures game.Snapshot() == GameState.Sweep(old(game.Snapshot()))
  {
    ghost var swept := GameState.Sweep(game.Snapshot());
    var enemies := game.enemies;
    ShiftColumns(enemies, game.enemyDirection);
    game.enemyShift := game.enemyShift + game.enemyDirection;
    assert game.sprites == old(game.sprites) && game.enemies == enemies;
    assert game.Valid();
    PositionsAre(enemies, swept.enemies);
    game.SnapshotIs(swept);
  }

  /** The boundary test of `moveEnemies`: at a wall the direction flips and every enemy drops a row. */
  method TurnAtWall(game: Game)
    requires game.Valid()
    modifies game`enemyDirection, game.enemies
    ensures game.Valid()
    ensures game.Snapshot() ==
              if GameState.AtWall(old(game.Snapshot())) then GameState.Descend(old(game.Snapshot()))
              else old(game.Snapshot())
  {
    var enemySpan, width, enemies := game.enemySpan, game.width, game.enemies;
    if game.enemyShift + (enemySpan * 2 - 1) >= width || game.enemyShift == 0 {
      ghost var after := GameState.Descend(game.Snapshot());
      game.enemyDirection := game.enemyDirection * -1;
      DropRows(enemies);
      assert game.sprites == old(game.sprites) && game.enemies == enemies;
      assert game.Valid();
      PositionsAre(enemies, after.enemies);
      game.SnapshotIs(after);
    }
  }

  /**
   * One firing of the formation timer. The game-over test only reports that
   * the timer is to be cancelled (`stopTimer`); the sweep and the boundary
   * test run regardless. The frame is drawn between the two, so `screen` shows
   * the swept band before it turns or descends.
   */
  method MoveEnemies(game: Game) returns (stopTimer: bool, screen: Screen)
    requires game.Valid() && |game.enemies| > 0
    requires var t := GameState.Sweep(game.Snapshot());
      !GameState.GameOver(t) ==>
        0 <= game.height && 0 <= game.width && Render.InBounds(GameState.Layout(t), game.height, game.width)
    modifies game`enemyShift, game`enemyDirection, game.enemies
    ensures game.Valid()
    ensures stopTimer == GameState.GameOver(old(game.Snapshot()))
    ensures Shows(screen, GameState.Sweep(old(game.Snapshot())))
    ensures game.Snapshot() == GameState.Tick(old(game.Snapshot()))
  {
    stopTimer := game.GameOver();
    SweepBand(game);
    screen := game.Redraw();
    TurnAtWall(game);
  }

  /** The key switch of the keyboard handler: left and right arrows move the player within the walls. */
  method MovePlayer(game: Game, keyCode: int)
    requires game.Valid()
    modifies game.player
    ensures game.Snapshot() == GameState.PressKey(old(game.Snapshot()), keyCode)
  {
    var player := game.player;
    if keyCode == GameState.LeftArrow {
      if player.y > 0 {
        player.y := player.y - 1;
      }
    } else if keyCode == GameState.RightArrow {
      if player.y < game.width - 1 {
        player.y := player.y + 1;
      }
    }
  }

  /** The keyboard handler: the key switch, then the frame of the new state. */
  method HandleKeyboardInput(game: Game, keyCode: int) returns (screen: Screen)
    requires game.Valid() && |game.enemies| > 0
    requires var t := GameState.PressKey(game.Snapshot(), keyCode);
      !GameState.GameOver(t) ==>
        0 <= game.height && 0 <= game.width && Render.InBounds(GameState.Layout(t), game.height, game.width)
    modifies game.player
    ensures game.Snapshot() == GameState.PressKey(old(game.Snapshot()), keyCode)
    ensures Shows(screen, game.Snapshot())
  {
    MovePlayer(game, keyCode);
    screen := game.Redraw();
  }
}
