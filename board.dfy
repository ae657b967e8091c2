/** The game board (snek/Board.hpp): a 40 x 30 tile field holding the snake and the fruits, with
    a Playing / Paused / GameOver state. Each update turns the snake on request, moves it one
    tick, lets the head eat the fruits it overlaps (each eaten fruit grows the snake and is
    replaced by a fruit on a free tile), and ends the game when the head bites the body. */
module BoardModel {
  import opened Constants
  import opened Geometry
  import opened Entities
  import opened SnakeModel
  import opened Tiles

  /** m_width and m_height, fixed at their initialisers. */
  const BoardWidth: nat := 40
  const BoardHeight: nat := 30
  const BoardArea: nat := BoardWidth * BoardHeight

  /** COLLISION_SHRINK_FACTOR of the self-collision test. */
  const CollisionShrinkFactor: real := 0.2

  datatype State = Playing | Paused | GameOver

  /** The tile draws of the random generator: `rng(k)` is the k-th index the uniform distribution
      over [0, width * height) yields. A valid stream yields only board tiles and, from any point
      on, yields every tile again (what a uniform distribution does with probability 1). */
  ghost predicate RngValid(rng: nat -> nat, area: nat)
  {
    && (forall k: nat :: rng(k) < area)
    && (forall t: nat, from: nat :: t < area ==> Recurs(rng, t, from))
  }

  ghost predicate Recurs(rng: nat -> nat, t: nat, from: nat)
  {
    exists k: nat :: from <= k && rng(k) == t
  }

  /** `e` is the fruit of some tile of the board. */
  ghost predicate IsTileFruit(e: Entity)
  {
    exists idx: nat :: idx < BoardArea && e == FruitAt(idx, BoardWidth)
  }

  /** The fruit of tile `idx` would overlap one of `entities`. */
  ghost predicate Occupied(idx: nat, entities: seq<Entity>)
  {
    OverlapsAny(FruitAt(idx, BoardWidth).Box(), entities)
  }

  /** The fruits of `fruits` that the head box `head` does not overlap, in order. */
  function Uneaten(head: Rect, fruits: seq<Entity>): (r: seq<Entity>)
    ensures |r| <= |fruits|
  {
    if fruits == [] then []
    else
      var last := fruits[|fruits| - 1];
      Uneaten(head, fruits[..|fruits| - 1]) + (if CheckCollision(head, last.Box()) then [] else [last])
  }

  /** Uneaten keeps exactly the fruits the head box does not overlap. */
  lemma {:induction false} UneatenIsFilter(head: Rect, fruits: seq<Entity>)
    ensures forall e :: e in Uneaten(head, fruits) <==> e in fruits && !CheckCollision(head, e.Box())
  {
    if fruits != [] {
      var init := fruits[..|fruits| - 1];
      UneatenIsFilter(head, init);
      assert fruits == init + [fruits[|fruits| - 1]];
    }
  }

  /** The fruit list during handle_collision's pickup loop, after the first `j` original fruits
      `f0` were visited: the uneaten ones among them, the unvisited ones, then the replacements. */
  ghost predicate PickupShape(fruits: seq<Entity>, box: Rect, f0: seq<Entity>, j: nat, spawned: seq<Entity>)
  {
    j <= |f0| && fruits == Uneaten(box, f0[..j]) + f0[j..] + spawned
  }

  /** Once every original fruit was visited, the list is the kept fruits, then the replacements. */
  lemma PickupShapeDone(fruits: seq<Entity>, box: Rect, f0: seq<Entity>, spawned: seq<Entity>)
    requires PickupShape(fruits, box, f0, |f0|, spawned)
    ensures fruits == Uneaten(box, f0) + spawned
  {
    assert f0[..|f0|] == f0 && f0[|f0|..] == [];
  }

  lemma PickupShapeLength(fruits: seq<Entity>, box: Rect, f0: seq<Entity>, j: nat, spawned: seq<Entity>)
    requires PickupShape(fruits, box, f0, j, spawned)
    ensures |fruits| == |Uneaten(box, f0[..j])| + |f0| - j + |spawned|
  {
  }

  /** The fruit under the loop's index is the next original fruit, or a replacement. */
  lemma PickupShapeAt(fruits: seq<Entity>, box: Rect, f0: seq<Entity>, j: nat, spawned: seq<Entity>, i: nat)
    requires PickupShape(fruits, box, f0, j, spawned)
    requires |Uneaten(box, f0[..j])| <= i < |fruits|
    requires j < |f0| ==> i == |Uneaten(box, f0[..j])|
    ensures j < |f0| ==> fruits[i] == f0[j]
    ensures j == |f0| ==> fruits[i] == spawned[i - |Uneaten(box, f0[..j])|]
  {
  }

  /** Visiting an original fruit the head does not overlap keeps it. */
  lemma PickupSkip(fruits: seq<Entity>, box: Rect, f0: seq<Entity>, j: nat, spawned: seq<Entity>)
    requires PickupShape(fruits, box, f0, j, spawned) && j < |f0| && !CheckCollision(box, f0[j].Box())
    ensures PickupShape(fruits, box, f0, j + 1, spawned)
    ensures |Uneaten(box, f0[..j + 1])| == |Uneaten(box, f0[..j])| + 1
  {
    assert f0[..j + 1][..j] == f0[..j];
    assert f0[j..] == [f0[j]] + f0[j + 1..];
  }

  /** Erasing an original fruit the head overlaps and appending a replacement. */
  lemma PickupEat(fruits: seq<Entity>, after: seq<Entity>, box: Rect, f0: seq<Entity>, j: nat, spawned: seq<Entity>)
    requires PickupShape(fruits, box, f0, j, spawned) && j < |f0| && CheckCollision(box, f0[j].Box())
    requires |after| == |fruits|
    requires var u := |Uneaten(box, f0[..j])|; after[..|after| - 1] == fruits[..u] + fruits[u + 1..]
    ensures PickupShape(after, box, f0, j + 1, spawned + [after[|after| - 1]])
    ensures |Uneaten(box, f0[..j + 1])| == |Uneaten(box, f0[..j])|
  {
    assert f0[..j + 1][..j] == f0[..j];
    var kept := Uneaten(box, f0[..j]);
    assert fruits[..|kept|] == kept;
    assert fruits[|kept| + 1..] == f0[j + 1..] + spawned;
    assert after == after[..|after| - 1] + [after[|after| - 1]];
  }

  /** A replacement fruit `e` spawned during the pickup for head box `box` overlaps no segment of
      the snake `s0` as it was when the pickup began, and no original fruit of `f0` that the head
      does not overlap (those are still on the board whenever a replacement is spawned). */
  ghost predicate SpawnedClear(e: Entity, box: Rect, s0: seq<Segment>, f0: seq<Entity>)
  {
    && (forall i :: 0 <= i < |s0| ==> !CheckCollision(e.Box(), s0[i].entity.Box()))
    && (forall f :: f in f0 && !CheckCollision(box, f.Box()) ==> !CheckCollision(e.Box(), f.Box()))
  }

  /** The fruit spawnFruit places while the `j`-th original fruit is eaten is clear of every entity
      on the board then (the grown snake and the fruits left after the erase), hence of the snake
      at the start of the pickup and of every original fruit the head misses. */
  lemma {:induction false} ReplacementClear(e: Entity, box: Rect, s0: seq<Segment>, segs: seq<Segment>,
                                            f0: seq<Entity>, j: nat, spawned: seq<Entity>,
                                            before: seq<Entity>, rest: seq<Entity>)
    requires PickupShape(before, box, f0, j, spawned) && j < |f0| && CheckCollision(box, f0[j].Box())
    requires |s0| <= |segs| && segs[..|s0|] == s0
    requires var u := |Uneaten(box, f0[..j])|; u < |before| && rest == before[..u] + before[u + 1..]
    requires !OverlapsAny(e.Box(), EntitiesOf(segs) + rest)
    ensures SpawnedClear(e, box, s0, f0)
  {
    var kept := Uneaten(box, f0[..j]);
    assert rest == kept + f0[j + 1..] + spawned by {
      assert before[..|kept|] == kept;
      assert before[|kept| + 1..] == f0[j + 1..] + spawned;
    }
    var all := EntitiesOf(segs) + rest;
    forall i | 0 <= i < |s0|
      ensures !CheckCollision(e.Box(), s0[i].entity.Box())
    {
      assert all[i] == segs[i].entity && segs[i] == s0[i];
    }
    forall f | f in f0 && !CheckCollision(box, f.Box())
      ensures !CheckCollision(e.Box(), f.Box())
    {
      var t :| 0 <= t < |f0| && f0[t] == f;
      if t < j {
        UneatenIsFilter(box, f0[..j]);
        assert f0[..j][t] == f;
        assert f in kept;
      } else {
        assert f0[j + 1..][t - j - 1] == f;
      }
      assert f in rest;
      var x :| 0 <= x < |rest| && rest[x] == f;
      assert all[|segs| + x] == f;
    }
  }

  /** A replacement left by the pickup loop of head box `head`, with `segs` the snake the loop
      began with and `kept` the fruits it kept: a fruit on a tile, clear of the head, of every
      segment of `segs` and of every kept fruit. */
  ghost predicate ClearReplacement(e: Entity, head: Rect, segs: seq<Segment>, kept: seq<Entity>)
  {
    IsTileFruit(e) && !CheckCollision(head, e.Box()) && !OverlapsAny(e.Box(), EntitiesOf(segs) + kept)
  }

  /** A cleared replacement overlaps neither the snake the pickup began with nor a kept fruit. */
  lemma ClearOfStartAndKept(e: Entity, box: Rect, s0: seq<Segment>, f0: seq<Entity>)
    requires IsTileFruit(e) && !CheckCollision(box, e.Box()) && SpawnedClear(e, box, s0, f0)
    ensures ClearReplacement(e, box, s0, Uneaten(box, f0))
  {
    UneatenIsFilter(box, f0);
    var all := EntitiesOf(s0) + Uneaten(box, f0);
    forall i | 0 <= i < |all|
      ensures !CheckCollision(e.Box(), all[i].Box())
    {
      if i >= |s0| {
        assert all[i] in Uneaten(box, f0);
      }
    }
  }

  /** The fruits after the pickup loop of a head box `head` over `f0`, with `segs` the snake the
      loop began with: the fruits the head misses stay in order at the front, and each fruit
      after them is a replacement on a tile, clear of the head, of `segs` and of the kept fruits. */
  ghost predicate PickedUp(head: Rect, f0: seq<Entity>, segs: seq<Segment>, fruits: seq<Entity>)
  {
    var kept := Uneaten(head, f0);
    && |fruits| == |f0|
    && fruits[..|kept|] == kept
    && forall k :: |kept| <= k < |fruits| ==> ClearReplacement(fruits[k], head, segs, kept)
  }

  /** Once every original fruit was visited, the pickup loop's fruit list, the kept fruits
      followed by the replacements, is its outcome. */
  lemma PickedUpWhenDone(box: Rect, f0: seq<Entity>, s0: seq<Segment>, spawned: seq<Entity>)
    requires |spawned| == |f0| - |Uneaten(box, f0)|
    requires forall e :: e in spawned ==> IsTileFruit(e) && !CheckCollision(box, e.Box()) && SpawnedClear(e, box, s0, f0)
    ensures PickedUp(box, f0, s0, Uneaten(box, f0) + spawned)
  {
    var kept := Uneaten(box, f0);
    var fruits := kept + spawned;
    forall k | |kept| <= k < |fruits|
      ensures ClearReplacement(fruits[k], box, s0, kept)
    {
      var e := spawned[k - |kept|];
      assert e in spawned;
      ClearOfStartAndKept(e, box, s0, f0);
      assert fruits[k] == e;
    }
    assert fruits[..|kept|] == kept;
  }

  /** The head's self-collision box: shrunk by the factor, with the same centre. */
  function ShrunkBox(head: Entity): Rect
  {
    Rect(head.position.Plus(head.size.Scale(CollisionShrinkFactor / 2.0)),
         head.size.Scale(1.0 - CollisionShrinkFactor))
  }

  /** The shrunk box lies inside the head's box, so a bite the shrunk box detects is an overlap
      of the full boxes too. */
  lemma ShrunkBoxInsideHead(head: Entity, other: Rect)
    requires head.size.x > 0.0 && head.size.y > 0.0
    ensures head.Box().Left() < ShrunkBox(head).Left() && ShrunkBox(head).Right() < head.Box().Right()
    ensures head.Box().Top() < ShrunkBox(head).Top() && ShrunkBox(head).Bottom() < head.Box().Bottom()
    ensures CheckCollision(ShrunkBox(head), other) ==> CheckCollision(head.Box(), other)
  {
  }

  /** The shrunk head box overlaps a segment from the third on. */
  predicate BitesItself(segs: seq<Segment>)
  {
    exists k :: 2 <= k < |segs| && CheckCollision(ShrunkBox(segs[0].entity), segs[k].entity.Box())
  }

  /** The straight snake the constructor builds does not bite itself: from the third segment on,
      every segment lies at least two tiles below the head. */
  lemma StraightSnakeDoesNotBite(segs: seq<Segment>, start: Vec2)
    requires forall i :: 0 <= i < |segs| ==>
      segs[i].entity.position == Vec2(start.x, start.y + Scaled(i)) && segs[i].entity.size == Vec2(TileSize, TileSize)
    ensures !BitesItself(segs)
  {
    if 2 < |segs| {
      forall k | 2 <= k < |segs|
        ensures !CheckCollision(ShrunkBox(segs[0].entity), segs[k].entity.Box())
      {
        ScaledGap(1, k);
        assert Scaled(1) == TileSize;
        assert ShrunkBox(segs[0].entity).Bottom() <= segs[k].entity.Box().Top();
      }
    }
  }

  /** The turn an input action asks the snake for. */
  datatype TurnRequest = NoTurn | TurnTo(direction: Direction)

  /** update's dispatch: TurnLeft asks for the counter-clockwise neighbour of the head's direction,
      TurnRight for the clockwise one, every other action for no turn. */
  function Requested(action: InputAction, head: Direction): TurnRequest
  {
    match action
    case TurnLeft => TurnTo(CounterClockwise(head))
    case TurnRight => TurnTo(Clockwise(head))
    case _ => NoTurn
  }

  /** Whether update's turn is accepted: the action requests a turn, the snake has travelled at
      least one tile since its last turn, and the requested direction is not the head's. */
  predicate TurnAccepted(action: InputAction, head: Direction, distance: real)
  {
    var request := Requested(action, head);
    request.TurnTo? && distance >= TileSize && request.direction != head
  }

  /** The head after update's turn and move: turned when the turn is accepted, then moved by
      `speed` along its direction. */
  function MovedHead(head: Entity, action: InputAction, distance: real, speed: real): Entity
  {
    if TurnAccepted(action, head.direction, distance) then
      Advance(head.(direction := Requested(action, head.direction).direction), speed)
    else
      Advance(head, speed)
  }

  /** The body after one move: each body segment of `segs` took its step at `speed`, those before
      `handed` towards `pivot`, which a turn handed them just before the move. */
  ghost predicate BodyStepped(segs: seq<Segment>, body: seq<Segment>, handed: nat, pivot: Pivot?, speed: real)
    reads set i | 0 <= i < |segs| :: segs[i].nextPivot
    reads pivot
  {
    && |segs| <= |body|
    && forall i :: 1 <= i < |segs| ==>
         body[i] == StepSegment(if i < handed then Segment(segs[i].entity, pivot) else segs[i], speed)
  }

  class Board {
    var state: State
    var snake: Snake
    var fruits: seq<Entity>
    /** The generator's stream of tile draws and how many have been taken. */
    const rng: nat -> nat
    var draws: nat

    ghost predicate Valid()
      reads this, snake, snake.pivots
    {
      && snake.Valid()
      && |snake.segments| > 0
      && TileSized(fruits)
      && RngValid(rng, BoardArea)
    }

    /** What getEntities returns: the snake's entities, head first, then the fruits. */
    function AllEntities(): seq<Entity>
      reads this`snake, this`fruits, snake`segments
    {
      EntitiesOf(snake.segments) + fruits
    }

    /** A board with the default snake (its head at the window centre) and one fruit. */
    constructor (rng: nat -> nat)
      requires RngValid(rng, BoardArea)
      requires 4 * SnakeInitialLength < BoardArea
      ensures Valid() && fresh(snake) && snake.pivots == {}
      ensures state == Playing && this.rng == rng
      ensures |snake.segments| == SnakeInitialLength && snake.speed == SnakeInitialSpeed
      ensures snake.distanceSinceLastTurn == 0.0
      ensures |fruits| == 1 && IsTileFruit(fruits[0])
      ensures !OverlapsAny(fruits[0].Box(), EntitiesOf(snake.segments))
      ensures !BitesItself(snake.segments)
      ensures forall i :: 0 <= i < |snake.segments| ==>
        var e := snake.segments[i].entity;
        && snake.segments[i].nextPivot == null
        && e.position == Vec2(WindowWidth as real / 2.0, WindowHeight as real / 2.0 + (i as real) * TileSize)
        && e.size == Vec2(TileSize, TileSize) && e.direction == Up && e.texture == SnakeSprites
        && e.textureIndex == (if i == 0 then 0 else 1)
        && e.rotationOffsetDegrees == (if i == 0 then 90.0 else 0.0)
    {
      state := Playing;
      snake := new Snake(SnakeInitialLength, Vec2(WindowWidth as real / 2.0, WindowHeight as real / 2.0));
      fruits := [];
      this.rng := rng;
      draws := 0;
      new;
      assert AllEntities() == EntitiesOf(snake.segments);
      StraightSnakeDoesNotBite(snake.segments, Vec2(WindowWidth as real / 2.0, WindowHeight as real / 2.0));
      SpawnFruit();
    }

    /** getState: reports the state and changes nothing. */
    method GetState() returns (s: State)
      ensures s == state
    {
      s := state;
    }

    /** getEntities: the snake's entities, head first, then the fruits; nothing else. */
    method GetEntities() returns (entities: seq<Entity>)
      ensures entities == AllEntities()
      ensures |entities| == |snake.segments| + |fruits|
      ensures forall i :: 0 <= i < |snake.segments| ==> entities[i] == snake.segments[i].entity
      ensures entities[|snake.segments|..] == fruits
    {
      entities := snake.GetEntities();
      var i := 0;
      while i < |fruits|
        invariant 0 <= i <= |fruits|
        invariant entities == EntitiesOf(snake.segments) + fruits[..i]
      {
        entities := entities + [fruits[i]];
        i := i + 1;
      }
      assert fruits[..i] == fruits;
    }

    /** The do-while of spawnFruit: draws tiles until one whose fruit overlaps none of `entities`
        (the collidesWithEntity lambda, over what getEntities returns, which the loop does not
        change). It ends because a free tile is drawn at some point from here on. */
    method DrawFreeTile(entities: seq<Entity>) returns (idx: nat)
      requires forall k: nat :: rng(k) < BoardArea
      requires exists t: nat :: draws <= t && !Occupied(rng(t), entities)
      modifies this`draws
      ensures old(draws) < draws && idx == rng(draws - 1) && idx < BoardArea
      ensures !Occupied(idx, entities)
      ensures forall k :: old(draws) <= k < draws - 1 ==> Occupied(rng(k), entities)
    {
      ghost var target: nat :| draws <= target && !Occupied(rng(target), entities);
      var n := draws;
      idx := rng(n);
      n := n + 1;
      var hit := CollidesWithEntity(FruitAt(idx, BoardWidth).Box(), entities);
      while hit
        invariant draws == old(draws) < n <= target + 1 && idx == rng(n - 1)
        invariant hit <==> Occupied(idx, entities)
        invariant forall k :: draws <= k < n - 1 ==> Occupied(rng(k), entities)
        decreases target + 1 - n
      {
        idx := rng(n);
        n := n + 1;
        hit := CollidesWithEntity(FruitAt(idx, BoardWidth).Box(), entities);
      }
      draws := n;
    }

    /** spawnFruit: appends the fruit of the first drawn tile that overlaps no entity of the board.
        A free tile exists because the board is less than a quarter full. */
    method SpawnFruit()
      requires Valid()
      requires 4 * (|snake.segments| + |fruits|) < BoardArea
      modifies this
      ensures Valid() && state == old(state) && snake == old(snake)
      ensures old(draws) < draws
      ensures var idx := rng(draws - 1);
        && idx < BoardArea
        && fruits == old(fruits) + [FruitAt(idx, BoardWidth)]
        && !OverlapsAny(FruitAt(idx, BoardWidth).Box(), old(AllEntities()))
      ensures forall k :: old(draws) <= k < draws - 1 ==>
        OverlapsAny(FruitAt(rng(k), BoardWidth).Box(), old(AllEntities()))
    {
      var entities := GetEntities();
      FreeTileExists(entities, BoardWidth, BoardHeight);
      ghost var free: nat :| free < BoardArea && !OverlapsAny(FruitAt(free, BoardWidth).Box(), entities);
      assert !Occupied(free, entities) && Recurs(rng, free, draws);
      var idx := DrawFreeTile(entities);
      fruits := fruits + [FruitAt(idx, BoardWidth)];
    }

    /** One pickup of handle_collision: the snake grows, fruit `i` is erased, and a replacement
        is spawned at the end of the list; the replacement does not lie under the head. */
    method EatFruit(i: nat)
      requires Valid() && i < |fruits|
      requires 4 * (|snake.segments| + |fruits|) < BoardArea
      modifies this, snake
      ensures Valid() && snake == old(snake) && snake.pivots == old(snake.pivots) && state == old(state)
      ensures snake.segments == old(snake.segments) + [GrownTail(old(snake.segments)[|old(snake.segments)| - 1])]
      ensures snake.speed == old(snake.speed) + SnakeSpeedIncrement
      ensures snake.distanceSinceLastTurn == old(snake.distanceSinceLastTurn)
      ensures |fruits| == |old(fruits)|
      ensures fruits[..|fruits| - 1] == old(fruits)[..i] + old(fruits)[i + 1..]
      ensures IsTileFruit(fruits[|fruits| - 1])
      ensures !CheckCollision(old(snake.segments)[0].entity.Box(), fruits[|fruits| - 1].Box())
      ensures !OverlapsAny(fruits[|fruits| - 1].Box(), EntitiesOf(snake.segments) + fruits[..|fruits| - 1])
    {
      ghost var head := snake.segments[0].entity;
      snake.Grow();
      fruits := fruits[..i] + fruits[i + 1..];
      ghost var before := AllEntities();
      assert before[0] == head;
      SpawnFruit();
      CollisionSymmetric(head.Box(), fruits[|fruits| - 1].Box());
    }

    /** The self-collision scan of handle_collision: whether the shrunk box of the head overlaps
        a snake entity from the third on; the scan stops at the first hit. */
    method SelfCollision(head: Entity) returns (hit: bool)
      requires |snake.segments| > 0 && head == snake.segments[0].entity
      ensures hit == BitesItself(snake.segments)
    {
      var entities := snake.GetEntities();
      var shrunk := ShrunkBox(head);
      var k := 2;
      while k < |entities|
        invariant 2 <= k
        invariant forall m :: 2 <= m < k && m < |entities| ==> !CheckCollision(shrunk, entities[m].Box())
      {
        if CheckCollision(shrunk, entities[k].Box()) {
          return true;
        }
        k := k + 1;
      }
      return false;
    }

    /** Where the pickup loop of handle_collision stands after visiting the first `j` of the
        original fruits `f0`: the fruit list has the pickup shape, one replacement was spawned
        and one segment grown per fruit eaten, and no replacement lies under the head box. */
    ghost predicate PickupProgress(box: Rect, f0: seq<Entity>, s0: seq<Segment>, speed0: real, dist0: real,
                                   j: nat, spawned: seq<Entity>)
      reads this, snake, snake.pivots
    {
      && Valid() && |s0| > 0
      && PickupShape(fruits, box, f0, j, spawned)
      && |spawned| == j - |Uneaten(box, f0[..j])|
      && snake.segments == GrownBy(s0, |spawned|)
      && snake.speed == SpeedAfterGrowth(speed0, |spawned|)
      && snake.distanceSinceLastTurn == dist0
      && snake.segments[0].entity.Box() == box
      && (forall e :: e in spawned ==> IsTileFruit(e) && !CheckCollision(box, e.Box()) && SpawnedClear(e, box, s0, f0))
    }

    /** The eating branch of a pickup step: the fruit at `i`, the next original fruit, is under
        the head; it is eaten and its replacement recorded. */
    method PickupEatStep(i: nat, box: Rect, ghost f0: seq<Entity>, ghost s0: seq<Segment>, ghost speed0: real,
                         ghost dist0: real, ghost j: nat, ghost spawned: seq<Entity>)
      returns (ghost spawned': seq<Entity>)
      requires PickupProgress(box, f0, s0, speed0, dist0, j, spawned)
      requires j < |f0| && i == |Uneaten(box, f0[..j])| < |fruits| && fruits[i] == f0[j]
      requires CheckCollision(box, fruits[i].Box())
      requires 4 * (|s0| + 2 * |f0|) <= BoardArea
      modifies this, snake
      ensures PickupProgress(box, f0, s0, speed0, dist0, j + 1, spawned')
      ensures snake == old(snake) && snake.pivots == old(snake.pivots) && state == old(state)
      ensures |fruits| == old(|fruits|) && |Uneaten(box, f0[..j + 1])| == i
    {
      PickupShapeLength(fruits, box, f0, j, spawned);
      ghost var before := fruits;
      EatFruit(i);
      PickupEat(before, fruits, box, f0, j, spawned);
      ReplacementClear(fruits[|fruits| - 1], box, s0, snake.segments, f0, j, spawned, before, fruits[..|fruits| - 1]);
      spawned' := spawned + [fruits[|fruits| - 1]];
    }

    /** One turn of the pickup loop at index `i`: eat the fruit there (the index stays, the list
        shifts) or step past it. */
    method PickupStep(i: nat, box: Rect, ghost f0: seq<Entity>, ghost s0: seq<Segment>, ghost speed0: real,
                      ghost dist0: real, ghost j: nat, ghost spawned: seq<Entity>)
      returns (next: nat, ghost j': nat, ghost spawned': seq<Entity>)
      requires PickupProgress(box, f0, s0, speed0, dist0, j, spawned)
      requires |Uneaten(box, f0[..j])| <= i < |fruits| && (j < |f0| ==> i == |Uneaten(box, f0[..j])|)
      requires 4 * (|s0| + 2 * |f0|) <= BoardArea
      modifies this, snake
      ensures PickupProgress(box, f0, s0, speed0, dist0, j', spawned')
      ensures snake == old(snake) && snake.pivots == old(snake.pivots) && state == old(state)
      ensures |Uneaten(box, f0[..j'])| <= next <= |fruits| && (j' < |f0| ==> next == |Uneaten(box, f0[..j'])|)
      ensures j < j' || (j' == j && |fruits| == old(|fruits|) && i < next)
    {
      PickupShapeAt(fruits, box, f0, j, spawned, i);
      PickupShapeLength(fruits, box, f0, j, spawned);
      if CheckCollision(box, fruits[i].Box()) {
        spawned' := PickupEatStep(i, box, f0, s0, speed0, dist0, j, spawned);
        next, j' := i, j + 1;
      } else {
        next, j', spawned' := i + 1, j, spawned;
        if j < |f0| {
          PickupSkip(fruits, box, f0, j, spawned);
          j' := j + 1;
        }
      }
    }

    /** The pickup loop of handle_collision: every fruit the head box overlaps is eaten (the
        snake grows, the fruit is removed and a replacement is spawned). A replacement never lies
        under the head, so only fruits present at the start are eaten and the fruit count is
        unchanged. The head is read once: grow() does not move it. */
    method PickUpFruits()
      requires Valid()
      requires 4 * (|snake.segments| + 2 * |fruits|) <= BoardArea
      modifies this, snake
      ensures Valid() && snake == old(snake) && snake.pivots == old(snake.pivots) && state == old(state)
      ensures var head := old(snake.segments[0].entity.Box());
        var kept := Uneaten(head, old(fruits));
        var eaten := |old(fruits)| - |kept|;
        && snake.segments == GrownBy(old(snake.segments), eaten)
        && snake.speed == SpeedAfterGrowth(old(snake.speed), eaten)
        && snake.distanceSinceLastTurn == old(snake.distanceSinceLastTurn)
        && PickedUp(head, old(fruits), old(snake.segments), fruits)
    {
      var box := snake.segments[0].entity.Box();
      ghost var f0, s0 := fruits, snake.segments;
      ghost var j: nat, spawned: seq<Entity> := 0, [];
      var i := 0;
      while i < |fruits|
        invariant PickupProgress(box, f0, s0, old(snake.speed), old(snake.distanceSinceLastTurn), j, spawned)
        invariant snake == old(snake) && snake.pivots == old(snake.pivots) && state == old(state)
        invariant |Uneaten(box, f0[..j])| <= i <= |fruits| && (j < |f0| ==> i == |Uneaten(box, f0[..j])|)
        decreases |f0| - j, |fruits| - i
      {
        i, j, spawned := PickupStep(i, box, f0, s0, old(snake.speed), old(snake.distanceSinceLastTurn), j, spawned);
      }
      assert j == |f0| && f0[..j] == f0;
      PickupShapeDone(fruits, box, f0, spawned);
      PickedUpWhenDone(box, f0, s0, spawned);
    }

    /** handle_collision: the pickup loop, then the game ends if the shrunk head box overlaps a
        segment from the third on. */
    method HandleCollision()
      requires Valid()
      requires 4 * (|snake.segments| + 2 * |fruits|) <= BoardArea
      modifies this, snake
      ensures Valid() && snake == old(snake) && snake.pivots == old(snake.pivots)
      ensures var head := old(snake.segments[0].entity.Box());
        var kept := Uneaten(head, old(fruits));
        var eaten := |old(fruits)| - |kept|;
        && snake.segments == GrownBy(old(snake.segments), eaten)
        && snake.speed == SpeedAfterGrowth(old(snake.speed), eaten)
        && snake.distanceSinceLastTurn == old(snake.distanceSinceLastTurn)
        && PickedUp(head, old(fruits), old(snake.segments), fruits)
      ensures state == if BitesItself(snake.segments) then GameOver else old(state)
    {
      var head := snake.segments[0].entity;
      PickUpFruits();
      var bites := SelfCollision(head);
      if bites {
        state := GameOver;
      }
    }

    /** handle_collision right after a move: the pickup and bite outcome, and the moved head
        and body that the pickup leaves in place. */
    method CollideAfterMove(ghost segs: seq<Segment>, ghost handed: nat, ghost pivot: Pivot?, ghost speed: real)
      requires Valid()
      requires 4 * (|snake.segments| + 2 * |fruits|) <= BoardArea
      requires |snake.segments| == |segs| && BodyStepped(segs, snake.segments, handed, pivot, speed)
      modifies this, snake
      ensures Valid() && snake == old(snake) && snake.pivots == old(snake.pivots)
      ensures forall p :: p in snake.pivots ==> p.next == old(p.next)
      ensures var head := old(snake.segments[0].entity.Box());
        var kept := Uneaten(head, old(fruits));
        var eaten := |old(fruits)| - |kept|;
        && |snake.segments| == |segs| + eaten
        && snake.segments[0] == old(snake.segments[0])
        && BodyStepped(segs, snake.segments[..|segs|], handed, pivot, speed)
        && snake.segments == GrownBy(snake.segments[..|segs|], eaten)
        && snake.speed == SpeedAfterGrowth(old(snake.speed), eaten)
        && snake.distanceSinceLastTurn == old(snake.distanceSinceLastTurn)
        && PickedUp(head, old(fruits), snake.segments[..|segs|], fruits)
        && state == if BitesItself(snake.segments) then GameOver else old(state)
    {
      HandleCollision();
      assert snake.segments[..|segs|] == old(snake.segments);
    }

    /** The dispatch of update: TurnLeft and TurnRight try the matching snake turn, every other
        action leaves the snake alone. */
    method TurnFor(action: InputAction) returns (accepted: bool, ghost pivot: Pivot?)
      requires Valid()
      modifies snake, snake.pivots
      ensures Valid()
      ensures var request := Requested(action, old(snake.segments)[0].entity.direction);
        && (request.NoTurn? ==>
              && !accepted && unchanged(snake) && snake.pivots == old(snake.pivots)
              && forall p :: p in old(snake.pivots) ==> p.next == old(p.next))
        && (request.TurnTo? ==> snake.Turned(request.direction, accepted, pivot))
    {
      accepted, pivot := false, null;
      match action {
        case TurnLeft =>
          accepted, pivot := snake.TurnLeft();
        case TurnRight =>
          accepted, pivot := snake.TurnRight();
        case _ =>
      }
    }

    /** The first half of a Playing update: the requested turn is tried, then the snake moves
        once. The head ends up one step along its (possibly new) direction; every body segment
        takes its step, the leading ones towards the pivot an accepted turn handed them. */
    method TurnAndMove(action: InputAction) returns (accepted: bool, ghost pivot: Pivot?)
      requires Valid()
      modifies snake, snake.pivots
      ensures Valid()
      ensures var segs := old(snake.segments);
        var head := segs[0].entity;
        var request := Requested(action, head.direction);
        var handed := if accepted then FirstPending(segs, 1) else 1;
        && accepted == TurnAccepted(action, head.direction, old(snake.distanceSinceLastTurn))
        && |snake.segments| == |segs|
        && snake.segments[0] == Segment(MovedHead(head, action, old(snake.distanceSinceLastTurn), old(snake.speed)), null)
        && BodyStepped(segs, snake.segments, handed, pivot, old(snake.speed))
        && snake.speed == old(snake.speed)
        && snake.distanceSinceLastTurn == (if accepted then 0.0 else old(snake.distanceSinceLastTurn)) + old(snake.speed)
        && (accepted ==>
              && pivot != null && fresh(pivot) && snake.pivots == old(snake.pivots) + {pivot}
              && pivot.position == head.position && pivot.direction == request.direction && pivot.next == null
              && (handed < |segs| ==> segs[handed].nextPivot.next == pivot)
              && forall p :: p in old(snake.pivots) && (handed == |segs| || p != segs[handed].nextPivot) ==>
                   p.next == old(p.next))
        && (!accepted ==>
              snake.pivots == old(snake.pivots) && forall p :: p in old(snake.pivots) ==> p.next == old(p.next))
    {
      accepted, pivot := TurnFor(action);
      snake.Move();
    }

    /** update: nothing happens unless the game is Playing. Otherwise the requested turn is
        tried, the snake moves once, and collisions are handled. The ghost result is the pivot an
        accepted turn creates. */
    method Update(action: InputAction) returns (ghost pivot: Pivot?)
      requires Valid()
      requires 4 * (|snake.segments| + 2 * |fruits|) <= BoardArea
      modifies this, snake, snake.pivots
      ensures Valid() && snake == old(snake)
      ensures old(state) != Playing ==> unchanged(this, snake) && unchanged(snake.pivots)
      ensures old(state) == Playing ==>
        var segs := old(snake.segments);
        var head := segs[0].entity;
        var request := Requested(action, head.direction);
        var accepted := TurnAccepted(action, head.direction, old(snake.distanceSinceLastTurn));
        var moved := MovedHead(head, action, old(snake.distanceSinceLastTurn), old(snake.speed));
        var kept := Uneaten(moved.Box(), old(fruits));
        var eaten := |old(fruits)| - |kept|;
        var handed := if accepted then FirstPending(segs, 1) else 1;
        && |snake.segments| == |segs| + eaten
        && snake.segments[0] == Segment(moved, null)
        && BodyStepped(segs, snake.segments[..|segs|], handed, pivot, old(snake.speed))
        && snake.segments == GrownBy(snake.segments[..|segs|], eaten)
        && snake.speed == SpeedAfterGrowth(old(snake.speed), eaten)
        && snake.distanceSinceLastTurn == (if accepted then 0.0 else old(snake.distanceSinceLastTurn)) + old(snake.speed)
        && (accepted ==>
              && pivot != null && fresh(pivot) && snake.pivots == old(snake.pivots) + {pivot}
              && pivot.position == head.position && pivot.direction == request.direction && pivot.next == null
              && (handed < |segs| ==> segs[handed].nextPivot.next == pivot)
              && forall p :: p in old(snake.pivots) && (handed == |segs| || p != segs[handed].nextPivot) ==>
                   p.next == old(p.next))
        && (!accepted ==>
              snake.pivots == old(snake.pivots) && forall p :: p in old(snake.pivots) ==> p.next == old(p.next))
        && PickedUp(moved.Box(), old(fruits), snake.segments[..|segs|], fruits)
        && state == if BitesItself(snake.segments) then GameOver else Playing
    {
      pivot := null;
      if state != Playing {
        return;
      }
      var accepted;
      accepted, pivot := TurnAndMove(action);
      CollideAfterMove(old(snake.segments), if accepted then FirstPending(old(snake.segments), 1) else 1, pivot, old(snake.speed));
    }
  }
}
