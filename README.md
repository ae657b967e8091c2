# snek core in Dafny

This project models the simulation core of snek, a small real-time Snake game written in C++.
The model covers five parts of the game:

- the rectangle-overlap test the game relies on (`checkCollision`);
- the entity and direction types, and the sprite-sheet lookup (`getTextureRect`);
- the snake: a head and body segments. Turns leave pivots behind, and the body follows them. The snake can grow and moves one tick at a time;
- the board: it holds the snake and the fruits. It spawns fruits on free tiles by rejection sampling. Each update turns and moves the snake, lets the head eat fruits, and ends the game when the head bites the body;
- the menu: a cursor over a list of items.

The model takes the source's form:

- `checkCollision`, the entity and direction types and `getTextureRect` are pure. They become datatypes, functions and lemmas (modules `Geometry` and `Entities`).
- `Snake`, `Board` and `Menu` change their fields in place. They become classes whose methods carry `modifies` clauses:
  - `Snake` keeps `segments`, `speed`, `distanceSinceLastTurn` and a ghost footprint `pivots`;
  - pivots are heap objects, because a pivot's `next` is written through shared references;
  - `Board` keeps `state`, `snake`, `fruits` and the random draws;
  - `Menu` keeps `items` and `selectedIndex`.
- Each method is proved against specification functions:
  - `StepSegment` gives one segment's step in `move`;
  - `GrownTail` and `GrownBy` give `grow`;
  - `Uneaten` gives the fruits that survive the pickup loop;
  - `BitesItself` gives the self-collision test;
  - `Navigate` and `SelectionFor` give the menu's `update`.
- Lemmas state the properties of those functions.

Modules:

- `Constants` (constants.dfy): the window size, and the other game constants as positive values.
- `Geometry` (geometry.dfy): vectors, rectangles and `CheckCollision`.
- `Entities` (entities.dfy): `Direction` and its turns, `Entity`, `GetTextureRect` and `InputAction`.
- `SnakeModel` (snake.dfy): `Pivot`, `Segment` and the `Snake` class.
- `Tiles` (tiles.dfy): a helper of `spawnFruit` (`inc/snek/Board.hpp:101-133`). It holds the fruit grid, the entity scan of the `collidesWithEntity` lambda, and the pigeonhole argument that a free tile exists.
- `BoardModel` (board.dfy): the `Board` class.
- `MenuModel` (menu.dfy): the `Menu` class.

The random generator of `spawnFruit` is a parameter of the board, `rng: nat -> nat`: the stream of tile indices it draws, with a cursor `draws`. A valid stream draws only board tiles, and from any point on it draws every tile again. A uniform distribution does this with probability 1. Under that assumption, and with the board less than a quarter full, the rejection loop is proved to end.

Notes on the code, which the model follows:

- The self-collision shrink factor is 0.2 (`inc/snek/Board.hpp:152`).
- `m_rocks` is declared but never filled, read or returned. So there is no rock collision, and `getEntities` returns only the snake and the fruits.
- Nothing checks the board's border. A snake that leaves the board keeps playing.
- Nothing ever sets the state to `Paused`.
- A fruit is clear of every entity when it is spawned. Nothing re-checks it as the snake moves afterwards.

## Model

| member | source | states |
|---|---|---|
| Geometry.CheckCollision | inc/snek/utils.hpp:14-27 | the rectangles overlap unless one of the four non-strict separations holds; its meaning is stated by the lemmas below |
| Geometry.CollisionIffCommonInteriorPoint | inc/snek/utils.hpp:23-26 | for rectangles with an area, the test holds exactly when their interiors share a point |
| Geometry.CollisionSymmetric | inc/snek/utils.hpp:23-26 | the test gives the same answer with the arguments swapped |
| Geometry.EdgeContactIsNoCollision | inc/snek/utils.hpp:23-24 | rectangles that only share an edge do not collide |
| Geometry.CollisionReflexive | inc/snek/utils.hpp:23-26 | a rectangle with positive width and height collides with itself |
| Geometry.CollisionTranslationInvariant | inc/snek/utils.hpp:18-26 | moving both rectangles by the same vector does not change the answer |
| Entities.Clockwise | inc/snek/Snake.hpp:71-80 | the direction `turnRight` requests; `ClockwiseIsOrdinalArithmetic` ties it to (ordinal + 1) % 4 |
| Entities.CounterClockwise | inc/snek/Snake.hpp:59-69 | the direction `turnLeft` requests; `ClockwiseIsOrdinalArithmetic` ties it to (ordinal + 3) % 4 |
| Entities.OrdinalRoundTrip | inc/snek/Entity.hpp:18-23 | the direction ordinals are exactly 0..3, and casting an ordinal back gives the same direction |
| Entities.ClockwiseIsOrdinalArithmetic | inc/snek/Snake.hpp:59-80 | the clockwise and counter-clockwise neighbours are the casts of (ordinal + 1) % 4 and (ordinal + 3) % 4 |
| Entities.TurnsAreInverse | inc/snek/Snake.hpp:59-80 | a left turn undoes a right turn and vice versa; neither keeps the direction |
| Entities.ClockwiseIsQuarterTurn | inc/snek/Entity.hpp:18-23 | the next ordinal turns the on-screen unit step (x, y) into (-y, x); four such turns come back to the start |
| Entities.DefaultEntity | inc/snek/Entity.hpp:35-43 | an entity built with defaults has sprite index 0 and rotation offset 0, and the given position, size, direction and texture |
| Entities.GetTextureRect | inc/snek/Entity.hpp:25-33 | the square's left edge is index times the sprite size for an index below 2^31; an index of 2^31 or more wraps through `int32_t`, so the left edge is (index - 2^32) times the sprite size; top is 0; width and height are the sprite size |
| Entities.TextureRectsAdjacent | inc/snek/Entity.hpp:26-32 | consecutive indices below 2^31 give horizontally adjacent squares |
| Entities.TextureRectsDisjoint | inc/snek/Entity.hpp:26-32 | different indices below 2^31 give squares that do not overlap |
| SnakeModel.Pivot.constructor | inc/snek/Snake.hpp:23-28 | a new pivot has the given position and direction and no successor |
| SnakeModel.Advance | inc/snek/Snake.hpp:207-222 | move(Segment&, float): the entity is shifted along its own direction; `AdvanceIsUnitStep` and `AdvanceComposes` state what that means |
| SnakeModel.DistanceToNextPivot | inc/snek/Snake.hpp:189-205 | the signed distance a segment still has to travel to its pivot; `AdvanceApproachesTarget` states that a move reduces it by the amount moved |
| SnakeModel.StepSegment | inc/snek/Snake.hpp:169-186 | one segment's step in `move`; `StepTravelsSpeed` states that it covers exactly the speed, with the direction and pivot handover |
| SnakeModel.GrownTail | inc/snek/Snake.hpp:85-119 | the segment `grow` appends; `GrownTailTrailsByOneTile` states that it is one tile of travel behind the old tail |
| SnakeModel.AdvanceIsUnitStep | inc/snek/Snake.hpp:207-222 | moving a segment adds the amount times its direction's unit step; nothing but the position changes |
| SnakeModel.AdvanceComposes | inc/snek/Snake.hpp:207-222 | moving by a and then by b is moving by a + b; moving back by a undoes a move by a |
| SnakeModel.AdvanceApproachesTarget | inc/snek/Snake.hpp:189-222 | moving by a brings the signed distance to a pivot down by exactly a; a segment on the pivot's line lands on it after moving the whole distance |
| SnakeModel.StepTravelsSpeed | inc/snek/Snake.hpp:169-186 | for a segment on its pivot's line and not past the pivot, one tick moves it exactly `speed` along its path: straight, keeping its direction and pivot, while the pivot is farther than the speed; otherwise to the pivot, taking its direction, and on with the rest, now waiting for the pivot's successor |
| SnakeModel.GrownTailTrailsByOneTile | inc/snek/Snake.hpp:82-122 | the new tail faces like the old tail and shares its pivot; it is one tile of travel behind it and one tile farther from that pivot; it has sprite index 1 |
| SnakeModel.FirstPending | inc/snek/Snake.hpp:154-161 | the first body segment from the given index on that already waits for a pivot; every segment before it has none |
| SnakeModel.GrownBy | inc/snek/Snake.hpp:82-122 | after n grows, the old segments are unchanged and n segments were appended |
| SnakeModel.SpeedAfterGrowth | inc/snek/Snake.hpp:121 | after n grows, the speed has risen by n increments |
| SnakeModel.Snake.constructor | inc/snek/Snake.hpp:36-57 | `initialLength` segments facing up, segment i at (x, y + i tiles); the head has sprite 0 and rotation 90, the others sprite 1; no pending pivots; distance 0 |
| SnakeModel.Snake.Turn | inc/snek/Snake.hpp:136-164 | refused, with nothing changed, below one tile of travel or when the head already faces that way; otherwise the head turns and the distance resets; a fresh pivot at the head goes to the leading body segments with none; the first segment that had one gets the pivot linked after its own; nothing else changes |
| SnakeModel.Snake.TurnLeft | inc/snek/Snake.hpp:59-69 | refused on an empty snake, changing nothing (no pivot's successor either); otherwise a turn to the counter-clockwise neighbour of the head's direction |
| SnakeModel.Snake.TurnRight | inc/snek/Snake.hpp:71-80 | refused on an empty snake, changing nothing (no pivot's successor either); otherwise a turn to the clockwise neighbour of the head's direction |
| SnakeModel.Snake.Grow | inc/snek/Snake.hpp:82-122 | exactly one segment, the grown tail, is appended; the speed rises by one increment; pivots and the distance are unchanged |
| SnakeModel.Snake.Move | inc/snek/Snake.hpp:166-187 | the distance grows by the speed; the segment count is kept; every segment takes its one-tick step |
| SnakeModel.Snake.GetEntities | inc/snek/Snake.hpp:124-134 | one entity per segment, in segment order, head first |
| Tiles.FruitAt | inc/snek/Board.hpp:119-130 | the fruit of tile idx: centred on the tile, one tile square, facing up, default sprite; `TileFruitsOverlapOnlyOnSameTile` states that fruits of different tiles never overlap |
| Tiles.CollidesWithEntity | inc/snek/Board.hpp:108-116 | the scan reports a hit exactly when the box overlaps one of the entities |
| Tiles.TileFruitsOverlapOnlyOnSameTile | inc/snek/Board.hpp:119-125 | fruits spawned on two tiles overlap exactly when the tiles are the same |
| Tiles.OverlapIsNear | inc/snek/Board.hpp:119-125 | a one-tile entity overlaps only the fruits of the four tiles nearest to it |
| Tiles.CoverSize | inc/snek/Board.hpp:108-126 | the entities together block at most four tiles each |
| Tiles.FreeTileExists | inc/snek/Board.hpp:101-126 | on a board with more than four tiles per entity, some tile's fruit overlaps no entity, so the rejection loop can succeed |
| BoardModel.Uneaten | inc/snek/Board.hpp:138-148 | the fruits the pickup loop keeps, in order; `UneatenIsFilter` states that they are exactly those the head box misses |
| BoardModel.UneatenIsFilter | inc/snek/Board.hpp:138-148 | the fruits left by the pickup loop are exactly those the head box does not overlap |
| BoardModel.ShrunkBox | inc/snek/Board.hpp:152-156 | the head box moved in by a tenth of its size and shrunk by a fifth; `ShrunkBoxInsideHead` states that it lies inside the head box |
| BoardModel.Requested | inc/snek/Board.hpp:36-45 | TurnLeft asks for the counter-clockwise neighbour of the head's direction, TurnRight for the clockwise one, any other action for no turn |
| BoardModel.TurnAccepted | inc/snek/Snake.hpp:136-145 | the turn update asks for is taken when the action requests one, the snake has travelled at least one tile since its last turn, and the requested direction is not the head's |
| BoardModel.MovedHead | inc/snek/Snake.hpp:146-171 | the head after update's turn and move: turned when the turn is taken, then one step along its direction; `TurnAndMove` and `Update` state it as their head |
| BoardModel.ReplacementClear | inc/snek/Board.hpp:141-144 | a replacement spawned while a fruit is eaten overlaps no segment of the snake the pickup began with and no original fruit the head misses |
| BoardModel.ClearOfStartAndKept | inc/snek/Board.hpp:138-148 | such a replacement, a tile fruit not under the head, is a `ClearReplacement`: it overlaps none of the starting snake's entities and none of the kept fruits |
| BoardModel.PickedUpWhenDone | inc/snek/Board.hpp:138-148 | when the loop has visited every original fruit, the kept fruits followed by the replacements are the pickup outcome `PickedUp`: the kept fruits in order at the front, then one `ClearReplacement` per eaten fruit |
| BoardModel.PickupShapeDone | inc/snek/Board.hpp:138-148 | when the loop has visited every original fruit, the list holds the kept fruits and then the replacements, nothing else |
| BoardModel.ShrunkBoxInsideHead | inc/snek/Board.hpp:150-158 | the shrunk box lies strictly inside the head's box, so a bite it detects is also an overlap of the full boxes |
| BoardModel.StraightSnakeDoesNotBite | inc/snek/Snake.hpp:40-56 | the straight snake the constructor lays out does not bite itself |
| BoardModel.Board.constructor | inc/snek/Board.hpp:20-23 | a Playing board with the default snake: no pivots, speed and distance as initialised, and segment i facing Up at (400, 300 + i tiles), with no pending pivot, sprite 0 and rotation 90 for the head and sprite 1 otherwise; that snake does not bite itself. The board has exactly one fruit; that fruit sits on a tile and overlaps no segment |
| BoardModel.Board.GetState | inc/snek/Board.hpp:67-69 | reports the state and changes nothing |
| BoardModel.Board.GetEntities | inc/snek/Board.hpp:71-88 | the snake's entities, head first, then the fruits, and nothing else; the length is the sum of the two counts |
| BoardModel.Board.DrawFreeTile | inc/snek/Board.hpp:118-126 | draws until a tile whose fruit overlaps none of the entities comes up; every earlier draw was occupied |
| BoardModel.Board.SpawnFruit | inc/snek/Board.hpp:101-133 | appends exactly one fruit, the one of the first free tile drawn; it overlaps no entity `getEntities` returned before |
| BoardModel.Board.EatFruit | inc/snek/Board.hpp:141-144 | the snake grows by one; the fruit is removed, others keep their order; one replacement is appended, so the count is unchanged; the replacement is not under the head and overlaps no segment of the grown snake and no other fruit |
| BoardModel.Board.SelfCollision | inc/snek/Board.hpp:150-163 | the scan reports a hit exactly when the shrunk head box overlaps a segment from the third on |
| BoardModel.Board.PickUpFruits | inc/snek/Board.hpp:136-148 | one grow and one replacement per fruit under the head; the snake grows by the number eaten, with matching speed; uneaten fruits stay in order at the front; the fruit count is unchanged; each replacement is a tile fruit that overlaps neither the head, nor any segment the snake had before the pickup, nor a kept fruit |
| BoardModel.Board.HandleCollision | inc/snek/Board.hpp:135-164 | the pickup outcome, with replacements clear of the snake and of the kept fruits; then GameOver exactly when the grown snake bites itself, otherwise the state is kept |
| BoardModel.Board.TurnFor | inc/snek/Board.hpp:36-45 | TurnLeft and TurnRight make the matching snake turn; any other action changes nothing |
| BoardModel.Board.TurnAndMove | inc/snek/Board.hpp:36-47 | the requested turn is tried, then the snake moves once. The head takes one step in its (possibly new) direction. Every body segment takes its step, the leading ones towards the pivot an accepted turn handed them. The new pivot sits at the head and becomes the successor of the first pending pivot; other pivots are untouched |
| BoardModel.Board.CollideAfterMove | inc/snek/Board.hpp:47-49 | handle_collision right after the move: the pickup outcome and the bite test as in `HandleCollision`, and the moved head, the stepped body (`BodyStepped`) and every pivot's successor are left in place |
| BoardModel.Board.Update | inc/snek/Board.hpp:31-50 | nothing changes unless Playing. Otherwise: the turn and move as above. The fruits under the moved head are eaten, and the snake grows by that number with matching speed. The uneaten fruits stay in order at the front. Each replacement is a tile fruit clear of the moved snake and of the kept fruits. The state becomes GameOver exactly on a bite |
| MenuModel.Navigate | inc/snek/Menu.hpp:18-37 | the index moves by at most one: up only on Forward, down only on Backward and only onto an existing item; an index on an item stays on an item |
| MenuModel.NavigateAll | inc/snek/Menu.hpp:18-37 | any run of actions keeps a valid cursor valid |
| MenuModel.StepsAreInverse | inc/snek/Menu.hpp:20-29 | Forward undoes a Backward that moved, and Backward undoes a Forward that moved |
| MenuModel.BackwardWalksDown | inc/snek/Menu.hpp:25-29 | n presses of Backward move down n items, stopping at the last |
| MenuModel.ForwardWalksUp | inc/snek/Menu.hpp:20-24 | n presses of Forward move up n items, stopping at the first; the index never underflows |
| MenuModel.SelectionFor | inc/snek/Menu.hpp:30-34 | TurnRight selects the item under the cursor, exactly when there is one; no other action selects |
| MenuModel.Menu.constructor | inc/snek/Menu.hpp:64-65 | no items, cursor at 0 |
| MenuModel.Menu.Update | inc/snek/Menu.hpp:18-38 | the items never change; the cursor moves as `Navigate` says; at most one selection is reported, as `SelectionFor` says; on a non-empty menu the cursor stays on an item |
| MenuModel.Menu.AddItem | inc/snek/Menu.hpp:55-57 | appends one item at the end; the earlier items and the cursor are unchanged; the cursor is then on an item |

## Left out

- Rendering is left out. It is SFML I/O. This covers `Board::render`, `Menu::render`, `Renderer`, `ILayer`, `createMainMenu` and `createOptionsMenu`.
- Texture and sound loading are left out. `TextureManager` and `SoundSystem` are caches over file loading; a texture is an opaque value in `Entity`.
- Input polling, the event bus and `main.cpp` (including its 3D experiment) are left out. They are I/O and glue. Only the `InputAction` enumeration is modelled.
- The game constants other than the window size are left out. `TILE_SIZE`, `SNAKE_INITIAL_LENGTH`, `SNAKE_INITIAL_SPEED`, `SNAKE_SPEED_INCREMENT` and `TEXTURE_TILE_SIZE` come from a header that is not part of this model. They are positive constants of unknown value.
- Floating-point rounding is left out. Positions, sizes, speeds and the shrink factor are reals.
- The `mt19937` generator is left out. It becomes the draw stream `rng` of the board. Its assumption is that every tile is drawn again eventually.
- `onSelect` callbacks are left out. `Menu.Update` reports which item's callback runs, instead of running it.
- Rocks are left out. The board never fills, reads or returns `m_rocks`.
- The lifetime hazards of `handle_collision` are not modelled:
  - The `head` reference may dangle after `grow` reallocates the segments. The model snapshots the head, because `grow` does not move it.
  - The fruit iterator may be invalidated by `spawnFruit`'s `push_back`. The model removes the fruit and then spawns the replacement, and the visiting index stays on the next fruit.
- Multi-tick trailing is not proved: that a body segment ends up exactly on the head's path after many ticks. The single-tick facts are proved (`StepTravelsSpeed`, `GrownTailTrailsByOneTile`, `AdvanceApproachesTarget`). The multi-tick fact would need an invariant on tile spacing along the pivot chain.
- Pivot cleanup is left out. The source frees a pivot through reference counting; the model keeps every pivot in the ghost `pivots` set.
- BoardModel.Board.Update: requires 4 * (segments + 2 * fruits) <= 40 * 30. The source demands nothing. The precondition guarantees a free tile for each replacement fruit; without it, `spawnFruit` may loop forever on a crowded board.
- BoardModel.Board.constructor: requires 4 * SNAKE_INITIAL_LENGTH < 40 * 30, for the same reason.
- BoardModel.Board.SpawnFruit: requires the board to be less than a quarter full. The source loops until a free tile comes up.
- BoardModel.Board.EatFruit: requires 4 * (segments + fruits) < 40 * 30. The source demands nothing. After the grow and the removal, the board is then less than a quarter full, so the replacement's spawn has a free tile.
- BoardModel.Board.PickUpFruits: requires 4 * (segments + 2 * fruits) <= 40 * 30, so that every replacement's spawn has a free tile however many fruits are eaten.
- BoardModel.Board.HandleCollision: requires 4 * (segments + 2 * fruits) <= 40 * 30, for the same reason.
- BoardModel.Board.CollideAfterMove: requires 4 * (segments + 2 * fruits) <= 40 * 30, as HandleCollision, which it calls.
- Entities.TextureRectsAdjacent: covers indices below 2^31 only. Across the `int32_t` wrap the left edge jumps from (2^31 - 1) times the sprite size to -2^31 times it, so the squares are not adjacent there.
- Entities.TextureRectsDisjoint: covers indices below 2^31 only. Past the wrap, the left edges are the wrapped products that `GetTextureRect` states.
- SnakeModel.StepTravelsSpeed: requires the segment to lie on its pivot's line and not past the pivot. Off that line, the snap to the pivot covers more than `speed`. The model does not prove that `move` keeps every segment on its pivot's line; this is the multi-tick trailing fact left out above.
- BoardModel.Board.PickUpFruits: does not state that the replacements avoid each other or the segments grown during the pickup. Each replacement is clear of both when it is spawned, but the contract states only the snake from before the pickup and the kept fruits.
- SnakeModel.Snake.Turn: requires a non-empty snake whenever the travel check passes. The source reads the front segment there, and callers reach it only through `turnLeft`/`turnRight`, which refuse an empty snake.
- SnakeModel.Snake.Grow: requires a non-empty snake, as `m_segments.back()` does.
- Entities.GetTextureRect: requires the signed product to fit in 32 bits. An overflowing `int32_t` multiplication is undefined behaviour in C++.
