/** The player's snake (snek/Snake.hpp): a head followed by body segments. Every accepted turn
    records a pivot at the head's position; each trailing segment travels to the pivots in the
    order they were made and takes each one's direction there, so the body retraces the head's path. */
module SnakeModel {
  import opened Constants
  import opened Geometry
  import opened Entities

  /** A turn recorded at a fixed world position. Its position and direction never change after
      it is made; `next` is set when the following turn is recorded. Several segments, and
      several pivots' `next`, may refer to the same pivot. */
  class Pivot {
    const position: Vec2
    const direction: Direction
    var next: Pivot?

    constructor (position: Vec2, direction: Direction)
      ensures this.position == position && this.direction == direction && next == null
    {
      this.position := position;
      this.direction := direction;
      next := null;
    }
  }

  /** One body unit: its drawable entity and the pivot it is travelling towards, if any. */
  datatype Segment = Segment(entity: Entity, nextPivot: Pivot?)

  /** move(Segment&, float): shifts an entity `amount` along its own direction. */
  function Advance(e: Entity, amount: real): Entity
  {
    match e.direction
    case Up => e.(position := Vec2(e.position.x, e.position.y - amount))
    case Right => e.(position := Vec2(e.position.x + amount, e.position.y))
    case Down => e.(position := Vec2(e.position.x, e.position.y + amount))
    case Left => e.(position := Vec2(e.position.x - amount, e.position.y))
  }

  /** The signed distance `e` still has to travel along its direction to reach `target`'s
      coordinate on that axis; positive while approaching. */
  function DistanceTo(e: Entity, target: Vec2): real
  {
    match e.direction
    case Up => e.position.y - target.y
    case Right => target.x - e.position.x
    case Down => target.y - e.position.y
    case Left => e.position.x - target.x
  }

  /** distanceToNextPivot. */
  function DistanceToNextPivot(s: Segment): real
    requires s.nextPivot != null
  {
    DistanceTo(s.entity, s.nextPivot.position)
  }

  /** `e` travels on the line through `target` (same x when moving vertically, same y when
      moving horizontally). */
  predicate OnLineTo(e: Entity, target: Vec2)
  {
    if e.direction == Up || e.direction == Down then e.position.x == target.x else e.position.y == target.y
  }

  function Abs(r: real): real { if r < 0.0 then -r else r }

  /** Length of the axis-aligned path between two points. */
  function Manhattan(a: Vec2, b: Vec2): real { Abs(a.x - b.x) + Abs(a.y - b.y) }

  /** What move() does to one segment at speed `speed`: go straight, or, when the pending pivot
      is no farther than `speed`, snap to it, take its direction, spend the rest of the step in
      that direction and wait for the pivot after it. */
  function StepSegment(s: Segment, speed: real): Segment
    reads s.nextPivot
  {
    if s.nextPivot == null then
      Segment(Advance(s.entity, speed), null)
    else
      var dist := DistanceToNextPivot(s);
      if dist > speed then
        Segment(Advance(s.entity, speed), s.nextPivot)
      else
        var p := s.nextPivot;
        Segment(Advance(s.entity.(position := p.position, direction := p.direction), speed - dist), p.next)
  }

  /** The four cases of move(Segment&, float) are one rule: add `amount` times the direction's
      unit step; nothing but the position changes. */
  lemma AdvanceIsUnitStep(e: Entity, amount: real)
    ensures Advance(e, amount) == e.(position := e.position.Plus(UnitVector(e.direction).Scale(amount)))
  {
  }

  /** Moving `a` then `b` is moving `a + b`; moving back by `a` undoes a move by `a`. */
  lemma AdvanceComposes(e: Entity, a: real, b: real)
    ensures Advance(Advance(e, a), b) == Advance(e, a + b)
    ensures Advance(Advance(e, a), -a) == e
  {
  }

  /** Moving `a` along the direction brings a target exactly `a` closer, and an entity on the line
      to its target lands on it after moving the whole distance. */
  lemma AdvanceApproachesTarget(e: Entity, target: Vec2, a: real)
    ensures DistanceTo(Advance(e, a), target) == DistanceTo(e, target) - a
    ensures OnLineTo(Advance(e, a), target) == OnLineTo(e, target)
    ensures OnLineTo(e, target) ==> Advance(e, DistanceTo(e, target)).position == target
  {
  }

  /** A segment step covers exactly `speed` of path: in a straight line, or as the leg to the
      pivot plus the leg after it. Its size and sprite never change. */
  lemma StepTravelsSpeed(s: Segment, speed: real)
    requires speed >= 0.0
    requires s.nextPivot != null ==> OnLineTo(s.entity, s.nextPivot.position) && DistanceToNextPivot(s) >= 0.0
    ensures var r := StepSegment(s, speed);
      && r.entity.size == s.entity.size && r.entity.texture == s.entity.texture
      && r.entity.textureIndex == s.entity.textureIndex
      && r.entity.rotationOffsetDegrees == s.entity.rotationOffsetDegrees
      && (s.nextPivot == null || DistanceToNextPivot(s) > speed ==>
            Manhattan(s.entity.position, r.entity.position) == speed
            && r.entity.direction == s.entity.direction && r.nextPivot == s.nextPivot)
      && (s.nextPivot != null && DistanceToNextPivot(s) <= speed ==>
            Manhattan(s.entity.position, s.nextPivot.position)
              + Manhattan(s.nextPivot.position, r.entity.position) == speed
            && r.entity.direction == s.nextPivot.direction && r.nextPivot == s.nextPivot.next)
  {
  }

  /** The segment grow() appends behind `tail`: one tile back against the tail's direction,
      facing the same way and waiting for the same pivot. */
  function GrownTail(tail: Segment): Segment
  {
    var t := tail.entity;
    var position :=
      match t.direction
      case Up => Vec2(t.position.x, t.position.y + TileSize)
      case Right => Vec2(t.position.x - TileSize, t.position.y)
      case Down => Vec2(t.position.x, t.position.y - TileSize)
      case Left => Vec2(t.position.x + TileSize, t.position.y);
    var e := DefaultEntity(position, Vec2(TileSize, TileSize), t.direction, SnakeSprites);
    Segment(e.(textureIndex := 1), tail.nextPivot)
  }

  /** The new tail is exactly one tile of travel behind the old one: one tile of movement brings
      it onto the old tail, and it is one tile farther from their shared pivot. */
  lemma GrownTailTrailsByOneTile(tail: Segment)
    ensures var n := GrownTail(tail);
      && n.entity.direction == tail.entity.direction && n.nextPivot == tail.nextPivot
      && n.entity.size == Vec2(TileSize, TileSize) && n.entity.textureIndex == 1
      && Advance(n.entity, TileSize).position == tail.entity.position
      && Manhattan(n.entity.position, tail.entity.position) == TileSize
      && (tail.nextPivot != null ==> DistanceToNextPivot(n) == DistanceToNextPivot(tail) + TileSize)
  {
  }

  /** The first index from `from` on whose segment has a pending pivot, or |segs| if none has. */
  function FirstPending(segs: seq<Segment>, from: nat): (k: nat)
    requires from <= |segs|
    ensures from <= k <= |segs|
    ensures forall j :: from <= j < k ==> segs[j].nextPivot == null
    ensures k < |segs| ==> segs[k].nextPivot != null
    decreases |segs| - from
  {
    if from == |segs| || segs[from].nextPivot != null then from else FirstPending(segs, from + 1)
  }

  /** The entities of the segments, in order, head first. */
  function EntitiesOf(segs: seq<Segment>): (es: seq<Entity>)
  {
    seq(|segs|, i requires 0 <= i < |segs| => segs[i].entity)
  }

  /** `segs` after `n` calls of grow(): the segments are kept and `n` tails are appended, each
      behind the one before. */
  function GrownBy(segs: seq<Segment>, n: nat): (r: seq<Segment>)
    requires |segs| > 0
    ensures |r| == |segs| + n && r[..|segs|] == segs
  {
    if n == 0 then segs
    else
      var g := GrownBy(segs, n - 1);
      g + [GrownTail(g[|g| - 1])]
  }

  /** The speed after `n` calls of grow() from speed `speed`. */
  function SpeedAfterGrowth(speed: real, n: nat): (r: real)
    ensures r == speed + n as real * SnakeSpeedIncrement
  {
    if n == 0 then speed else SpeedAfterGrowth(speed, n - 1) + SnakeSpeedIncrement
  }

  class Snake {
    var segments: seq<Segment>
    var speed: real
    var distanceSinceLastTurn: real
    /** Every pivot the segments can reach. */
    ghost var pivots: set<Pivot>

    ghost predicate Valid()
      reads this, pivots
    {
      && speed > 0.0
      && (forall i :: 0 <= i < |segments| ==> segments[i].nextPivot == null || segments[i].nextPivot in pivots)
      && (forall p {:trigger p.next} :: p in pivots ==> p.next == null || p.next in pivots)
      && (|segments| > 0 ==> segments[0].nextPivot == null)
      && (forall i :: 0 <= i < |segments| ==> segments[i].entity.size == Vec2(TileSize, TileSize))
    }

    /** A straight snake of `initialLength` segments facing up, the head at `startPosition` and
        each further segment one tile below the previous one. */
    constructor (initialLength: UInt32, startPosition: Vec2)
      ensures Valid() && pivots == {}
      ensures speed == SnakeInitialSpeed && distanceSinceLastTurn == 0.0
      ensures |segments| == initialLength
      ensures forall i :: 0 <= i < |segments| ==>
        var e := segments[i].entity;
        && segments[i].nextPivot == null
        && e.position == Vec2(startPosition.x, startPosition.y + (i as real) * TileSize)
        && e.size == Vec2(TileSize, TileSize) && e.direction == Up && e.texture == SnakeSprites
        && e.textureIndex == (if i == 0 then 0 else 1)
        && e.rotationOffsetDegrees == (if i == 0 then 90.0 else 0.0)
    {
      var segs: seq<Segment> := [];
      var i := 0;
      while i < initialLength
        invariant 0 <= i <= initialLength && |segs| == i
        invariant forall j :: 0 <= j < i ==>
          var e := segs[j].entity;
          && segs[j].nextPivot == null
          && e.position == Vec2(startPosition.x, startPosition.y + (j as real) * TileSize)
          && e.size == Vec2(TileSize, TileSize) && e.direction == Up && e.texture == SnakeSprites
          && e.textureIndex == (if j == 0 then 0 else 1)
          && e.rotationOffsetDegrees == (if j == 0 then 90.0 else 0.0)
      {
        var entity := DefaultEntity(Vec2(startPosition.x, startPosition.y + (i as real) * TileSize),
                                    Vec2(TileSize, TileSize), Up, SnakeSprites);
        entity := entity.(textureIndex := if i == 0 then 0 else 1);
        if i == 0 {
          entity := entity.(rotationOffsetDegrees := 90.0);
        }
        segs := segs + [Segment(entity, null)];
        i := i + 1;
      }
      segments := segs;
      speed := SnakeInitialSpeed;
      distanceSinceLastTurn := 0.0;
      pivots := {};
    }

    /** The outcome of turn(newDirection): refused (nothing changes) while the snake has travelled
        less than a tile since the last turn or when the head already faces that way; otherwise
        the head faces the new way, the travel count restarts, and a new pivot at the head is
        handed to the leading run of body segments that had none and is linked after the pivot
        of the first body segment that had one. Nothing else changes. */
    twostate predicate Turned(newDirection: Direction, accepted: bool, new pivot: Pivot?)
      reads this, pivots
    {
      var segs := old(segments);
      && accepted == (old(distanceSinceLastTurn) >= TileSize && |segs| > 0
                      && segs[0].entity.direction != newDirection)
      && speed == old(speed)
      && (!accepted ==>
            && segments == segs && distanceSinceLastTurn == old(distanceSinceLastTurn)
            && pivots == old(pivots) && forall p :: p in old(pivots) ==> p.next == old(p.next))
      && (accepted ==>
            && pivot != null && fresh(pivot) && pivots == old(pivots) + {pivot}
            && pivot.position == segs[0].entity.position && pivot.direction == newDirection
            && pivot.next == null
            && distanceSinceLastTurn == 0.0
            && |segments| == |segs|
            && segments[0] == Segment(segs[0].entity.(direction := newDirection), segs[0].nextPivot)
            && var k := FirstPending(segs, 1);
               && (forall j :: 1 <= j < |segs| ==>
                     segments[j] == if j < k then Segment(segs[j].entity, pivot) else segs[j])
               && (k < |segs| ==> segs[k].nextPivot in pivots && segs[k].nextPivot.next == pivot)
               && (forall p :: p in old(pivots) && (k == |segs| || p != segs[k].nextPivot) ==>
                     p.next == old(p.next)))
    }

    /** turn(newDirection). The source reads the head only once the travel check has passed. */
    method Turn(newDirection: Direction) returns (accepted: bool, ghost pivot: Pivot?)
      requires Valid()
      requires distanceSinceLastTurn >= TileSize ==> |segments| > 0
      modifies this, pivots
      ensures Valid()
      ensures Turned(newDirection, accepted, pivot)
    {
      pivot := null;
      if distanceSinceLastTurn < TileSize {
        return false, null;
      }
      if segments[0].entity.direction == newDirection {
        return false, null;
      }
      ghost var segs := segments;
      ghost var k := FirstPending(segs, 1);
      distanceSinceLastTurn := 0.0;
      var updated := segments[0 := Segment(segments[0].entity.(direction := newDirection), segments[0].nextPivot)];
      var pv := new Pivot(updated[0].entity.position, updated[0].entity.direction);
      var i := 1;
      while i < |updated| && updated[i].nextPivot == null
        invariant 1 <= i <= k && |updated| == |segs|
        invariant updated[0] == Segment(segs[0].entity.(direction := newDirection), segs[0].nextPivot)
        invariant forall j :: 1 <= j < |segs| ==> updated[j] == if j < i then Segment(segs[j].entity, pv) else segs[j]
      {
        updated := updated[i := Segment(updated[i].entity, pv)];
        i := i + 1;
      }
      if i < |updated| {
        updated[i].nextPivot.next := pv;
      }
      segments := updated;
      pivot := pv;
      pivots := pivots + {pv};
      accepted := true;
    }

    /** turnLeft: a turn towards the direction a quarter-turn counter-clockwise of the head's;
        refused on an empty snake. */
    method TurnLeft() returns (accepted: bool, ghost pivot: Pivot?)
      requires Valid()
      modifies this, pivots
      ensures Valid()
      ensures old(segments) == [] ==>
        && !accepted && unchanged(this)
        && forall p :: p in old(pivots) ==> p.next == old(p.next)
      ensures old(segments) != [] ==> Turned(CounterClockwise(old(segments)[0].entity.direction), accepted, pivot)
    {
      if segments == [] {
        return false, null;
      }
      accepted, pivot := Turn(CounterClockwise(segments[0].entity.direction));
    }

    /** turnRight: a turn towards the direction a quarter-turn clockwise of the head's;
        refused on an empty snake. */
    method TurnRight() returns (accepted: bool, ghost pivot: Pivot?)
      requires Valid()
      modifies this, pivots
      ensures Valid()
      ensures old(segments) == [] ==>
        && !accepted && unchanged(this)
        && forall p :: p in old(pivots) ==> p.next == old(p.next)
      ensures old(segments) != [] ==> Turned(Clockwise(old(segments)[0].entity.direction), accepted, pivot)
    {
      if segments == [] {
        return false, null;
      }
      accepted, pivot := Turn(Clockwise(segments[0].entity.direction));
    }

    /** grow: appends a tail segment behind the current tail and speeds the snake up. */
    method Grow()
      requires Valid() && |segments| > 0
      modifies this
      ensures Valid() && pivots == old(pivots)
      ensures segments == old(segments) + [GrownTail(old(segments)[|old(segments)| - 1])]
      ensures speed == old(speed) + SnakeSpeedIncrement
      ensures distanceSinceLastTurn == old(distanceSinceLastTurn)
    {
      segments := segments + [GrownTail(segments[|segments| - 1])];
      speed := speed + SnakeSpeedIncrement;
    }

    /** move: one tick. The travel since the last turn grows by the speed and every segment takes
        its step. */
    method Move()
      requires Valid()
      modifies this
      ensures Valid() && pivots == old(pivots)
      ensures speed == old(speed)
      ensures distanceSinceLastTurn == old(distanceSinceLastTurn) + speed
      ensures |segments| == |old(segments)|
      ensures forall i :: 0 <= i < |segments| ==> segments[i] == StepSegment(old(segments)[i], speed)
    {
      distanceSinceLastTurn := distanceSinceLastTurn + speed;
      var i := 0;
      while i < |segments|
        invariant 0 <= i <= |segments| == |old(segments)|
        invariant forall j :: 0 <= j < i ==> segments[j] == StepSegment(old(segments)[j], speed)
        invariant forall j :: i <= j < |segments| ==> segments[j] == old(segments)[j]
        invariant speed == old(speed) && pivots == old(pivots)
        invariant distanceSinceLastTurn == old(distanceSinceLastTurn) + speed
      {
        var segment := segments[i];
        if segment.nextPivot == null {
          segment := segment.(entity := Advance(segment.entity, speed));
        } else {
          var dist := DistanceToNextPivot(segment);
          if dist > speed {
            segment := segment.(entity := Advance(segment.entity, speed));
          } else {
            var p := segment.nextPivot;
            segment := segment.(entity := segment.entity.(position := p.position, direction := p.direction));
            segment := segment.(entity := Advance(segment.entity, speed - dist));
            segment := segment.(nextPivot := p.next);
          }
        }
        segments := segments[i := segment];
        i := i + 1;
      }
    }

    /** getEntities: the segments' entities in order, head first. */
    method GetEntities() returns (entities: seq<Entity>)
      ensures entities == EntitiesOf(segments)
      ensures |entities| == |segments|
      ensures forall i :: 0 <= i < |segments| ==> entities[i] == segments[i].entity
    {
      entities := [];
      var i := 0;
      while i < |segments|
        invariant 0 <= i <= |segments| && |entities| == i
        invariant forall j :: 0 <= j < i ==> entities[j] == segments[j].entity
      {
        entities := entities + [segments[i].entity];
        i := i + 1;
      }
    }
  }
}
