/** Game constants. The window size is fixed by snek/constants.hpp; the tile, speed, length and
    sprite sizes are used by the game but their values are not part of this model, so they are
    constants known only to be positive. */
module Constants {

  type UInt32 = n: int | 0 <= n < 0x1_0000_0000
  type Int32 = n: int | -0x8000_0000 <= n < 0x8000_0000

  type PositiveReal = r: real | r > 0.0 witness 1.0
  type PositiveUInt32 = n: int | 0 < n < 0x1_0000_0000 witness 1
  type PositiveInt32 = n: int | 0 < n < 0x8000_0000 witness 1

  const WindowWidth: nat := 800
  const WindowHeight: nat := 600

  /** TILE_SIZE: side of one board tile and of every snake segment and fruit, in world units. */
  const TileSize: PositiveReal
  /** SNAKE_INITIAL_LENGTH: number of segments of a new snake. */
  const SnakeInitialLength: PositiveUInt32
  /** SNAKE_INITIAL_SPEED: distance a new snake travels per tick. */
  const SnakeInitialSpeed: PositiveReal
  /** SNAKE_SPEED_INCREMENT: speed gained per segment grown. */
  const SnakeSpeedIncrement: PositiveReal
  /** TEXTURE_TILE_SIZE: pixel side of one sprite on a sprite sheet. */
  const TextureTileSize: PositiveInt32
}
