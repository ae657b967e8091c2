/** Plain game data (snek/Entity.hpp) and the per-frame input action (snek/Input.hpp). */
module Entities {
  import opened Constants
  import opened Geometry

  predicate InInt32(n: int) { -0x8000_0000 <= n < 0x8000_0000 }

  /** Facing of an entity. The ordinals 0..3 go clockwise, a quarter-turn apart. */
  datatype Direction = Up | Right | Down | Left

  function Ordinal(d: Direction): int
  {
    match d
    case Up => 0
    case Right => 1
    case Down => 2
    case Left => 3
  }

  /** static_cast<Direction> of an ordinal. */
  function FromOrdinal(n: int): Direction
    requires 0 <= n < 4
  {
    if n == 0 then Up else if n == 1 then Right else if n == 2 then Down else Left
  }

  /** The direction `turnRight` requests, the next one clockwise (the cast of ordinal + 1 mod 4,
      see ClockwiseIsOrdinalArithmetic). */
  function Clockwise(d: Direction): Direction
  {
    match d
    case Up => Right
    case Right => Down
    case Down => Left
    case Left => Up
  }

  /** The direction `turnLeft` requests, the next one counter-clockwise (the cast of
      ordinal + 3 mod 4). */
  function CounterClockwise(d: Direction): Direction
  {
    match d
    case Up => Left
    case Right => Up
    case Down => Right
    case Left => Down
  }

  /** The unit step of a direction on screen (y grows downwards). */
  function UnitVector(d: Direction): Vec2
  {
    match d
    case Up => Vec2(0.0, -1.0)
    case Right => Vec2(1.0, 0.0)
    case Down => Vec2(0.0, 1.0)
    case Left => Vec2(-1.0, 0.0)
  }

  /** The enum's ordinals are exactly 0..3 and cast back to the same direction. */
  lemma OrdinalRoundTrip(d: Direction, n: int)
    requires 0 <= n < 4
    ensures 0 <= Ordinal(d) < 4 && FromOrdinal(Ordinal(d)) == d
    ensures Ordinal(FromOrdinal(n)) == n
  {
  }

  /** turnRight and turnLeft compute the requested direction as the cast of (ordinal + 1) % 4
      and (ordinal + 3) % 4. */
  lemma ClockwiseIsOrdinalArithmetic(d: Direction)
    ensures Clockwise(d) == FromOrdinal((Ordinal(d) + 1) % 4)
    ensures CounterClockwise(d) == FromOrdinal((Ordinal(d) + 3) % 4)
  {
    match d {
      case Up => assert (0 + 1) % 4 == 1 && (0 + 3) % 4 == 3;
      case Right => assert (1 + 1) % 4 == 2 && (1 + 3) % 4 == 0;
      case Down => assert (2 + 1) % 4 == 3 && (2 + 3) % 4 == 1;
      case Left => assert (3 + 1) % 4 == 0 && (3 + 3) % 4 == 2;
    }
  }

  /** A left turn undoes a right turn and vice versa, and neither keeps the direction. */
  lemma TurnsAreInverse(d: Direction)
    ensures CounterClockwise(Clockwise(d)) == d && Clockwise(CounterClockwise(d)) == d
    ensures Clockwise(d) != d && CounterClockwise(d) != d
  {
  }

  /** +1 mod 4 is a clockwise quarter-turn on screen: it maps the unit step (x, y) to (-y, x),
      and four of them come back to the start. */
  lemma ClockwiseIsQuarterTurn(d: Direction)
    ensures UnitVector(Clockwise(d)) == Vec2(-UnitVector(d).y, UnitVector(d).x)
    ensures Clockwise(Clockwise(Clockwise(Clockwise(d)))) == d
  {
  }

  /** The texture handle an entity draws with, looked up once by path: the snake's sprite sheet
      ("res/assets/snake_sprites.png") or the fruit's image (RESPATH_TEST_BMP). */
  datatype Texture = SnakeSprites | TestBitmap

  /** A drawable game object. */
  datatype Entity = Entity(
    position: Vec2,
    size: Vec2,
    direction: Direction,
    textureIndex: UInt32,
    rotationOffsetDegrees: real,
    texture: Texture)
  {
    /** The collision box `{position, size}` used at every call of checkCollision. */
    function Box(): Rect { Rect(position, size) }
  }

  /** An entity whose sprite index and rotation offset keep their default initialisers (0). */
  function DefaultEntity(position: Vec2, size: Vec2, direction: Direction, texture: Texture): (e: Entity)
    ensures e.textureIndex == 0 && e.rotationOffsetDegrees == 0.0
    ensures e.position == position && e.size == size && e.direction == direction && e.texture == texture
  {
    Entity(position, size, direction, 0, 0.0, texture)
  }

  /** An integer rectangle on the sprite sheet (sf::IntRect). */
  datatype IntRect = IntRect(left: int, top: int, width: int, height: int)

  /** static_cast<int32_t> of an unsigned value: wraps modulo 2^32. */
  function AsInt32(n: UInt32): Int32
  {
    if n < 0x8000_0000 then n else n - 0x1_0000_0000
  }

  /** getTextureRect: the `tileIndex`-th square of a one-row sprite sheet. The signed
      multiplication must not overflow. */
  function GetTextureRect(tileIndex: UInt32): (r: IntRect)
    requires InInt32(AsInt32(tileIndex) * TextureTileSize)
    ensures tileIndex < 0x8000_0000 ==> r.left == tileIndex * TextureTileSize
    ensures tileIndex >= 0x8000_0000 ==> r.left == (tileIndex - 0x1_0000_0000) * TextureTileSize
    ensures r.top == 0 && r.width == TextureTileSize && r.height == TextureTileSize
  {
    IntRect(AsInt32(tileIndex) * TextureTileSize, 0, TextureTileSize, TextureTileSize)
  }

  /** Consecutive sprite indices give horizontally adjacent squares. */
  lemma TextureRectsAdjacent(i: UInt32)
    requires i + 1 < 0x8000_0000
    requires InInt32(AsInt32(i + 1) * TextureTileSize)
    ensures InInt32(AsInt32(i) * TextureTileSize)
    ensures GetTextureRect(i + 1).left == GetTextureRect(i).left + GetTextureRect(i).width
  {
  }

  /** Different sprite indices (below 2^31) give squares that do not overlap. */
  lemma {:induction false} TextureRectsDisjoint(i: UInt32, j: UInt32)
    requires i < j < 0x8000_0000
    requires InInt32(AsInt32(j) * TextureTileSize)
    ensures InInt32(AsInt32(i) * TextureTileSize)
    ensures GetTextureRect(i).left + GetTextureRect(i).width <= GetTextureRect(j).left
  {
    assert (j - i) * TextureTileSize >= TextureTileSize by {
      MulMonotone(j - i, TextureTileSize);
    }
    assert j * TextureTileSize == i * TextureTileSize + (j - i) * TextureTileSize;
    MulMonotone(i, TextureTileSize);
  }

  lemma MulMonotone(k: int, t: int)
    requires k >= 0 && t > 0
    ensures k * t >= 0 && (k >= 1 ==> k * t >= t)
  {
  }

  /** One per-frame input (snek/Input.hpp). */
  datatype InputAction = Forward | Backward | TurnLeft | TurnRight | Exit | None
}
