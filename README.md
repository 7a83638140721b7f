# pewpewpew — a verified model of the game core

pewpewpew is a small browser shooter drawn in text. The player `@` stands on the
bottom row. A row of invaders `X` sweeps sideways, one column per timer tick. When
the formation reaches a wall it turns round and drops one row. The game is lost
once the last invader reaches the player's row. Each frame, the sprites are
written into a `height` by `width` grid. `arrayToDOM` then turns that grid into
markup: `&nbsp;` for an empty cell, the symbol otherwise, and `<br />` after each
row.

The model has four modules:

- `Sprites` (`sprites.dfy`) holds the sprite class. A sprite has a mutable row
  `x`, a mutable column `y` and a fixed symbol. It has one constructor per sprite
  kind.
- `GameState` (`game_state.dfy`) holds the game's state as a value:
  - the player's position, the enemy positions in list order, and the
    `enemyShift`, `enemySpan` and `enemyDirection` counters;
  - the value-level operations: seeding (`Seed`), one formation tick (`Tick`),
    the key switch (`KeyStep`, `PressKey`), the loss test (`GameOver`) and the
    sprite layout a frame draws (`Layout`);
  - the lemmas that say what these operations promise over any number of steps.
- `Render` (`render.dfy`) holds the grid and `arrayToDOM`:
  - `Occupant` specifies a cell as the symbol of the last sprite standing on it;
  - `ArrayToDOM` is the serialiser, written as the same left folds as main.js;
  - `ParseDOM` is a reference parser. It lets the serialiser be stated as a
    lossless round trip.
- `Pewpew` (`game.dfy`) holds the `Game` class, with the fields and methods of
  main.js, and the two handlers `MoveEnemies` and `HandleKeyboardInput`. Each
  method that changes the game is proved to change it as the matching `GameState`
  function changes its `Snapshot()`. Each handler also returns the frame it
  draws, described by `Shows`. The loops of main.js stay loops:
  - enemy seeding (`AddEnemies`);
  - the sweep and the descent (`ShiftColumns`, `DropRows`);
  - the grid fill of `draw` (`BuildGrid`).

`Game.Valid()` is the object invariant. It says that `sprites` is the player
followed by the enemies, that no enemy object is listed twice or doubles as the
player, and that the symbols tell the kinds apart.

Points of main.js that the model keeps as written:

- `moveEnemies` does not return early once `gameOver()` holds (main.js:113-122).
  It cancels its timer, and the sweep and the boundary test still run in that
  call. `TickAfterGameOver` states this.
- There is no win rule. `gameOver` tests only the last enemy in the list
  (main.js:56), and it throws on an empty enemy list. `GameOverWhenBandLands`
  proves the test agrees with "some enemy" and "every enemy" while the band is
  rigid. `OnlyLastEnemyIsTested` shows a state outside that invariant where they
  differ.
- The boundary test is kept as written: `enemyShift + (enemySpan*2-1) >= width`
  or `enemyShift == 0` (`AtWall`). It keeps the band on the grid only from seeds
  with some margin. `ZeroShiftOddWidthLeavesGrid` shows a band leaving the grid
  from a seed without it. `InBoundsIsNotEnough` shows why the band invariant
  `Inside` must say which way the band is heading.
- `moveEnemies` draws between the sweep and the boundary test (main.js:124). The
  frame of a tick is therefore the swept band before it turns or descends.
  `MoveEnemies` returns that frame. `LandingTickDrawsGrid` shows a tick that
  lowers the band onto the player's row but still draws the grid: the game-over
  message only appears on the next draw.

## Model

| member | source | states |
|---|---|---|
| Sprites.Sprite.constructor | main.js:2-6 | a plain sprite stands at the given row and column with symbol `O` |
| Sprites.Sprite.Player | main.js:9-14 | the player sprite stands at the given row and column with symbol `@` |
| Sprites.Sprite.Invader | main.js:16-21 | an invader stands at the given row and column with symbol `X` |
| Pewpew.Game.constructor | main.js:24-38 | a new game is valid, its player and enemies are fresh objects, and its state is `Seed(width, height, enemyShift)`; omitted arguments default to 10, 4 and 3 |
| Pewpew.Game.AddEnemies | main.js:40-49 | appends `EnemyCount(width, enemyShift)` fresh invaders on row 0 at columns enemyShift, enemyShift+2, …, keeps the earlier enemies, keeps the game valid, and sets `enemySpan` to the number of enemies |
| Pewpew.Game.AddPlayer | main.js:51-53 | appends the player to the drawing list |
| Pewpew.Game.GameOver | main.js:55-60 | the object's loss test agrees with `GameState.GameOver` on its snapshot |
| Pewpew.Game.BuildGrid | main.js:67-71 | the grid is height by width, and every cell holds the symbol of the last sprite in list order standing on it, or is empty |
| Pewpew.Game.Draw | main.js:62-75 | shows the game-over message exactly when the game is over; otherwise it shows the grid of `BuildGrid` and the markup `ArrayToDOM` makes of it |
| Pewpew.Game.Redraw | main.js:62-75 | on a valid game, `draw` shows exactly what `Shows` prescribes for the game's state: the message when it is over, otherwise the grid of its layout and that grid's markup |
| Pewpew.Game.TilesAreLayout | main.js:28-53 | for a valid game, the sprites put on the grid exactly `Layout(Snapshot())`: the player, then each enemy |
| Pewpew.ShiftColumns | main.js:119-121 | every enemy moves by the direction in columns and keeps its row |
| Pewpew.DropRows | main.js:128-130 | every enemy drops exactly one row and keeps its column |
| Pewpew.SweepBand | main.js:119-122 | the game stays valid and its state becomes `Sweep` of the old one |
| Pewpew.TurnAtWall | main.js:126-131 | the game stays valid; at a wall its state becomes `Descend` of the old one, otherwise nothing changes |
| Pewpew.MoveEnemies | main.js:112-132 | reports that the timer is to stop exactly when the game was over before the tick; the frame shown is of the swept state; the new state is `Tick` of the old one, and the game stays valid |
| Pewpew.MovePlayer | main.js:91-102 | the new state is `PressKey` of the old one; only the player can change |
| Pewpew.HandleKeyboardInput | main.js:90-104 | the new state is `PressKey` of the old one, and the frame shown is of that new state |
| GameState.Seed | main.js:24-49 | the state right after construction: the player at (height-1, shift), one enemy per column shift, shift+2, … below width-shift, span set to the enemy count, direction 1; its properties are stated by `SeedLayout` |
| GameState.Sweep | main.js:119-122 | every enemy and the shift move by the direction; stated by `TickEffect` |
| GameState.AtWall | main.js:126 | the boundary test, literally |
| GameState.Descend | main.js:127-130 | the direction is negated and every enemy drops one row; stated by `TickEffect` |
| GameState.Tick | main.js:119-131 | a sweep, then the boundary test on the swept state; its properties are stated by `TickEffect`, `TickKeepsBand`, `TicksKeepBand`, `DirStays` and `TicksNeverRaise` |
| GameState.GameOver | main.js:56 | the last enemy in the list is on row height-1 or below; stated by `GameOverWhenBandLands` and `OverStaysOver` |
| GameState.PressKey | main.js:93-102 | only the player's column changes, as `KeyStep` decides |
| GameState.EnemyCount | main.js:41-47 | seeding places no enemy exactly when width-shift ≤ shift; otherwise it places the least n for which shift+2n reaches width-shift, so the last enemy is left of width-shift |
| GameState.SeedLayout | main.js:24-49 | after construction, enemy i stands at (0, shift+2i) left of width-shift, no further column fits, the player is at (height-1, shift), the direction is 1 and the span is the enemy count |
| GameState.DefaultGame | main.js:81 | `new Game(30, 10)` seeds 12 enemies from (0, 3) to (0, 25), with the player at (9, 3) |
| GameState.TickEffect | main.js:119-131 | a tick moves every enemy and the shift by the direction; when the boundary test holds afterwards, the direction is negated and every enemy drops exactly one row; nothing else changes |
| GameState.TickKeepsBand | main.js:119-131 | a tick keeps the band rigid and between the walls, so that every enemy column stays in [0, width-1] |
| GameState.TicksKeepBand | main.js:110-132 | after any number of ticks the direction is still 1 or -1, the span is unchanged and every column is inside the walls |
| GameState.DirStays | main.js:122-127 | from any state whose direction is 1 or -1, any number of ticks leaves it 1 or -1 |
| GameState.TicksNeverRaise | main.js:126-131 | after any number of ticks no enemy is on a higher row, and the enemy count, span, grid size and player are unchanged |
| GameState.SeedStartsBand | main.js:40-49 | a seeding with a non-negative shift, at least one enemy and 2·count-1 < width starts a rigid band inside the walls |
| GameState.ZeroShiftOddWidthLeavesGrid | main.js:126 | without that margin the boundary test comes one step late: shift 0 on width 5 moves an enemy to column 5 on the first tick |
| GameState.InBoundsIsNotEnough | main.js:126 | a rigid band on the grid with 2·span-1 < width, heading right with its last enemy on the last column, has an enemy at column 5 of a width-5 grid after one tick |
| GameState.GameOverWhenBandLands | main.js:56 | in a rigid band, testing the last enemy is the same as testing whether some enemy, or every enemy, has reached row height-1 |
| GameState.OnlyLastEnemyIsTested | main.js:56 | outside a rigid band an earlier enemy on the last row does not end the game |
| GameState.TickAfterGameOver | main.js:113-122 | a tick that starts after the game is over still changes the state, moves the shift by the direction, and leaves the game over |
| GameState.KeyStep | main.js:93-102 | the column decreases exactly on the left arrow (37) away from column 0; it increases exactly on the right arrow (39) away from column width-1; it moves by at most one and stays in the grid |
| GameState.SeedIsPlayable | main.js:24-49 | a seeding with that margin gives a playable state: a band inside the walls and the player on the last row |
| GameState.StepKeepsPlayable | main.js:90-132 | a tick or a key press keeps a playable state playable, with the same enemy count and grid size, and no enemy rises |
| GameState.RunKeepsPlayable | main.js:106-132 | any sequence of ticks and key presses keeps a playable state playable, with the same enemy count and grid size, and no enemy rises |
| GameState.RunNeverRaises | main.js:93-131 | whatever ticks and key presses follow, the enemy count and the height stay, and no enemy rises |
| GameState.OverStaysOver | main.js:55-60 | once a game with enemies is over, it stays over whatever events follow |
| GameState.PlayableFitsGrid | main.js:67-71 | while a playable game is not over, every sprite lies on the grid, so the grid fill of `draw` stays in bounds |
| GameState.SweptFitsGrid | main.js:119-124 | for a playable state whose swept band has not landed, every sprite of the frame `moveEnemies` draws lies on the grid |
| GameState.KeyFrameFitsGrid | main.js:93-103 | for a playable state, the frame drawn after a key press lies on the grid while the game is not over |
| GameState.LandingTickDrawsGrid | main.js:119-131 | for a concrete state, the swept band has not landed but the tick leaves the game over |
| GameState.BandAbovePlayer | main.js:55-60 | while a playable game is not over, every enemy is on a row from 0 to above the player's row |
| GameState.BoardShowsPlayer | main.js:69-71 | while a playable game is not over, the player's cell shows `@` |
| GameState.BoardShowsEnemy | main.js:69-71 | in a rigid band, every enemy's cell shows `X` |
| GameState.BoardEmptyElsewhere | main.js:67-71 | a cell that holds neither the player nor any enemy stays empty |
| Render.Occupant | main.js:69-71 | the symbol of the last tile standing on a cell, or empty; stated by `OccupantEmpty` and `OccupantIsLast` |
| Render.EmptyGrid | main.js:67 | the fresh grid is height by width and every cell is empty |
| Render.OccupantEmpty | main.js:67-71 | a cell is empty exactly when no sprite stands on it |
| Render.OccupantIsLast | main.js:69-71 | a cell shows the symbol of the sprite at index k when no later sprite stands on it |
| Render.CellToDOM | main.js:152 | `&nbsp;` for an empty cell, the symbol otherwise |
| Render.RowToDOM | main.js:151-153 | the inner left fold over a row's cells; read from the front by `RowToDOMFront` |
| Render.ArrayToDOM | main.js:149-155 | the outer left fold, each row followed by `<br />`; its round trip is `ArrayToDOMRoundTrip` |
| Render.ArrayToDOMExample | main.js:149-155 | the row [empty, X] becomes `&nbsp;X<br />` |
| Render.RowToDOMFront | main.js:151-153 | read from the front, a row's markup is its first cell's markup followed by the markup of the rest |
| Render.ArrayToDOMFront | main.js:150-154 | read from the front, the markup is the first row's cells, `<br />`, then the markup of the remaining rows |
| Render.ParseCell | main.js:152 | a cell's markup, with anything after it, parses as that cell followed by the rest |
| Render.ParseRow | main.js:151-153 | a row's markup, with anything after it, parses as that row's cells followed by the rest |
| Render.ParseBreak | main.js:153 | `<br />` closes the current row |
| Render.ParseLine | main.js:150-153 | a row's line parses as that row, closed, with parsing going on from a fresh row |
| Render.ArrayToDOMRoundTrip | main.js:149-155 | the markup of any grid whose symbols are neither `&` nor `<` parses back to exactly that grid: `arrayToDOM` loses nothing |

## Left out

- Page writes are left out. `Draw` returns what `draw` would write: the message `game over ):`, or the grid and its markup. The first draw on `DOMContentLoaded` (main.js:85-87) is a call of `Draw` on the new game.
- Event wiring is left out: the `keydown` listener and `setInterval`/`clearInterval` (main.js:106-110, 114). `MoveEnemies` returns `stopTimer` where main.js cancels its timer. `GameState.Run` takes the events as an explicit sequence.
- `throttle` (main.js:137-147) depends on the clock. A throttled key press is the same as one that does not occur in the event sequence given to `Run`.
- The global `game` object is left out. `MoveEnemies` and `HandleKeyboardInput` take the game as a parameter.
- Pewpew.Game.BuildGrid: requires every sprite to lie on the grid. main.js fails on a sprite below the last row. It silently extends a row for a column past its end. Neither is modelled. `PlayableFitsGrid` and `TilesAreLayout` show that a playable game not yet over meets the requirement.
- Pewpew.Game.Draw: requires the same bounds when the game is not over, for the same reason.
- Pewpew.Game.GameOver: requires a non-empty enemy list. main.js would throw on `enemies[-1].x`.
- Pewpew.MoveEnemies: requires a non-empty enemy list, for the same reason. It also requires the swept frame to lie on the grid while it is not over, as `Draw` does. `SweptFitsGrid` shows a playable game meets this.
- Pewpew.HandleKeyboardInput: requires a non-empty enemy list and the new frame on the grid while it is not over, because its closing `draw` needs both. `KeyFrameFitsGrid` shows a playable game meets this.
- Pewpew.Game.constructor: `enemySpan` starts as 0 where main.js has `null`. `addEnemies` sets it before anything reads it.
- Symbols are single characters (`char`) rather than JavaScript strings. Integers are unbounded: the numbers of main.js never leave the safe-integer range here.
- `ParseDOM` and the lemmas about it are a reference inverse used only to state what `arrayToDOM` emits. They are not part of main.js.
