/** Axis-aligned rectangles and the overlap test shared by the snake and the board
    (snek/utils.hpp). Coordinates are the game's `float` world units, modelled as `real`. */
module Geometry {

  /** A 2D vector or point (sf::Vector2f). */
  datatype Vec2 = Vec2(x: real, y: real)
  {
    function Plus(v: Vec2): Vec2 { Vec2(x + v.x, y + v.y) }
    function Scale(k: real): Vec2 { Vec2(k * x, k * y) }
  }

  /** An axis-aligned rectangle given by its top-left corner and its extent (sf::FloatRect).
      The y axis points down, as on screen. */
  datatype Rect = Rect(position: Vec2, size: Vec2)
  {
    function Left(): real { position.x }
    function Right(): real { position.x + size.x }
    function Top(): real { position.y }
    function Bottom(): real { position.y + size.y }
    predicate HasArea() { size.x > 0.0 && size.y > 0.0 }
    function Translate(v: Vec2): Rect { Rect(position.Plus(v), size) }
  }

  /** checkCollision: the rectangles overlap unless one of the four separations holds.
      All four comparisons are non-strict, so rectangles that only touch do not collide. */
  predicate CheckCollision(a: Rect, b: Rect)
  {
    !(a.Left() + a.size.x <= b.Left() ||
      a.Left() >= b.Left() + b.size.x ||
      a.Top() + a.size.y <= b.Top() ||
      a.Top() >= b.Top() + b.size.y)
  }

  /** Independent reading of the test: `p` lies strictly inside `r`. */
  predicate Inside(p: Vec2, r: Rect)
  {
    r.Left() < p.x < r.Right() && r.Top() < p.y < r.Bottom()
  }

  function Max(a: real, b: real): real { if a < b then b else a }
  function Min(a: real, b: real): real { if a < b then a else b }

  /** For rectangles with an area, the test holds exactly when their interiors share a point. */
  lemma CollisionIffCommonInteriorPoint(a: Rect, b: Rect)
    requires a.HasArea() && b.HasArea()
    ensures CheckCollision(a, b) <==> exists p :: Inside(p, a) && Inside(p, b)
  {
    if CheckCollision(a, b) {
      var p := Vec2((Max(a.Left(), b.Left()) + Min(a.Right(), b.Right())) / 2.0,
                    (Max(a.Top(), b.Top()) + Min(a.Bottom(), b.Bottom())) / 2.0);
      assert Inside(p, a) && Inside(p, b);
    }
  }

  /** The test does not depend on the order of its arguments. */
  lemma CollisionSymmetric(a: Rect, b: Rect)
    ensures CheckCollision(a, b) == CheckCollision(b, a)
  {
  }

  /** Rectangles that share only a vertical edge, or only a horizontal edge, do not collide. */
  lemma EdgeContactIsNoCollision(a: Rect, b: Rect)
    requires a.Right() == b.Left() || b.Right() == a.Left() || a.Bottom() == b.Top() || b.Bottom() == a.Top()
    ensures !CheckCollision(a, b)
  {
  }

  /** A rectangle with an area collides with itself. */
  lemma CollisionReflexive(a: Rect)
    requires a.HasArea()
    ensures CheckCollision(a, a)
  {
  }

  /** Moving both rectangles by the same vector does not change the result. */
  lemma CollisionTranslationInvariant(a: Rect, b: Rect, v: Vec2)
    ensures CheckCollision(a.Translate(v), b.Translate(v)) == CheckCollision(a, b)
  {
  }
}
