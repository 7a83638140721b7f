/** Positioned actors of the game: a sprite is a mutable position plus a fixed symbol. */
module Sprites {

  /** Symbol of a plain sprite. */
  const SpriteSymbol: char := 'O'
  /** Symbol of the player. */
  const PlayerSymbol: char := '@'
  /** Symbol of an invader. */
  const InvaderSymbol: char := 'X'

  /**
   * One class for the three sprite kinds: the player and the invaders differ
   * from a plain sprite only in their symbol, so each kind is a named constructor.
   * `x` is the row (it grows downward) and `y` the column.
   */
  class Sprite {
    var x: int
    var y: int
    const symbol: char

    constructor (x: int, y: int)
      ensures this.x == x && this.y == y && symbol == SpriteSymbol
    {
      this.x, this.y := x, y;
      symbol := SpriteSymbol;
    }

    constructor Player(x: int, y: int)
      ensures this.x == x && this.y == y && symbol == PlayerSymbol
    {
      this.x, this.y := x, y;
      symbol := PlayerSymbol;
    }

    constructor Invader(x: int, y: int)
      ensures this.x == x && this.y == y && symbol == InvaderSymbol
    {
      this.x, this.y := x, y;
      symbol := InvaderSymbol;
    }
  }
}
