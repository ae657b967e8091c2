/** The fruit grid of the board (snek/Board.hpp, spawnFruit): tile-centred fruit positions and
    why the rejection sampling always has a free tile to find on a board that is not crowded. */
module Tiles {
  import opened Constants
  import opened Geometry
  import opened Entities

  /** The world coordinate of the corner of tile column or row `k`. */
  function Scaled(k: int): real
  {
    k as real * TileSize
  }

  /** The position spawnFruit gives tile `idx` of a board `width` tiles wide (row-major):
      the tile's corner plus half a tile on each axis. */
  function TileCentre(idx: nat, width: nat): Vec2
    requires width > 0
  {
    Vec2(Scaled(idx % width) + TileSize / 2.0, Scaled(idx / width) + TileSize / 2.0)
  }

  /** The fruit spawnFruit places on tile `idx`. */
  function FruitAt(idx: nat, width: nat): Entity
    requires width > 0
  {
    DefaultEntity(TileCentre(idx, width), Vec2(TileSize, TileSize), Up, TestBitmap)
  }

  /** collidesWithEntity's condition: `box` overlaps one of `entities`. */
  predicate OverlapsAny(box: Rect, entities: seq<Entity>)
  {
    exists i :: 0 <= i < |entities| && CheckCollision(box, entities[i].Box())
  }

  /** Every entity of the board is one tile square. */
  predicate TileSized(entities: seq<Entity>)
  {
    forall i :: 0 <= i < |entities| ==> entities[i].size == Vec2(TileSize, TileSize)
  }

  /** The collidesWithEntity lambda of spawnFruit: scans the entities and stops at the first one
      the candidate box overlaps. */
  method CollidesWithEntity(box: Rect, entities: seq<Entity>) returns (hit: bool)
    ensures hit <==> OverlapsAny(box, entities)
  {
    var i := 0;
    while i < |entities|
      invariant 0 <= i <= |entities|
      invariant forall j :: 0 <= j < i ==> !CheckCollision(box, entities[j].Box())
    {
      if CheckCollision(box, entities[i].Box()) {
        return true;
      }
      i := i + 1;
    }
    return false;
  }

  lemma ScaledGap(a: int, b: int)
    requires a < b
    ensures Scaled(a) + TileSize <= Scaled(b)
  {
    var d := (b - a) as real;
    assert d >= 1.0;
    assert d * TileSize >= TileSize;
    assert b as real * TileSize == a as real * TileSize + d * TileSize;
  }

  /** The fruit box of the tile in column `c`, row `r`. */
  function CellBox(c: int, r: int): Rect
  {
    Rect(Vec2(Scaled(c) + TileSize / 2.0, Scaled(r) + TileSize / 2.0),
         Vec2(TileSize, TileSize))
  }

  lemma CellBoxesApart(ci: int, ri: int, cj: int, rj: int)
    requires ci != cj || ri != rj
    ensures !CheckCollision(CellBox(ci, ri), CellBox(cj, rj))
  {
    CollisionSymmetric(CellBox(ci, ri), CellBox(cj, rj));
    if ci < cj {
      ColumnsApart(ci, ri, cj, rj);
    } else if cj < ci {
      ColumnsApart(cj, rj, ci, ri);
    } else if ri < rj {
      RowsApart(ci, ri, cj, rj);
    } else {
      RowsApart(cj, rj, ci, ri);
    }
  }

  lemma ColumnsApart(ci: int, ri: int, cj: int, rj: int)
    requires ci < cj
    ensures !CheckCollision(CellBox(ci, ri), CellBox(cj, rj))
  {
    ScaledGap(ci, cj);
    assert CellBox(ci, ri).Left() + TileSize <= CellBox(cj, rj).Left();
  }

  lemma RowsApart(ci: int, ri: int, cj: int, rj: int)
    requires ri < rj
    ensures !CheckCollision(CellBox(ci, ri), CellBox(cj, rj))
  {
    ScaledGap(ri, rj);
    assert CellBox(ci, ri).Top() + TileSize <= CellBox(cj, rj).Top();
  }

  /** Fruits on different tiles never overlap, and a fruit overlaps the fruit of its own tile. */
  lemma TileFruitsOverlapOnlyOnSameTile(i: nat, j: nat, width: nat)
    requires width > 0
    ensures CheckCollision(FruitAt(i, width).Box(), FruitAt(j, width).Box()) <==> i == j
  {
    assert FruitAt(i, width).Box() == CellBox(i % width, i / width);
    assert FruitAt(j, width).Box() == CellBox(j % width, j / width);
    if i != j {
      assert i == (i / width) * width + i % width && j == (j / width) * width + j % width;
      CellBoxesApart(i % width, i / width, j % width, j / width);
    }
  }

  /** The at most four tiles whose fruit a one-tile box at `p` can overlap. */
  function NearTiles(p: Vec2, width: nat): set<int>
    requires width > 0
  {
    FourTiles(FirstNear(p.x), FirstNear(p.y), width)
  }

  /** The lower of the two columns (or rows) whose fruit a one-tile interval from `v` can meet. */
  function FirstNear(v: real): int
  {
    ((v - 1.5 * TileSize) / TileSize).Floor + 1
  }

  /** The tiles in columns c, c+1 and rows r, r+1. */
  function FourTiles(c: int, r: int, width: nat): set<int>
  {
    {r * width + c, r * width + c + 1, (r + 1) * width + c, (r + 1) * width + c + 1}
  }

  lemma PositiveFactor(p: real, t: real)
    requires t > 0.0 && p * t > 0.0
    ensures p > 0.0
  {
  }

  /** An integer `c` whose fruit interval (c*T + T/2, c*T + 3T/2) meets (v, v + T) is one of two. */
  lemma CoordinateNear(c: int, v: real)
    requires v < c as real * TileSize + 1.5 * TileSize
    requires c as real * TileSize + 0.5 * TileSize < v + TileSize
    ensures FirstNear(v) <= c <= FirstNear(v) + 1
  {
    var t := TileSize;
    var a := (v - 1.5 * t) / t;
    var x := c as real * t;
    assert a * t == v - 1.5 * t;
    assert (c as real - a) * t == x - a * t;
    assert (a + 2.0 - c as real) * t == a * t + 2.0 * t - x;
    PositiveFactor(c as real - a, t);
    PositiveFactor(a + 2.0 - c as real, t);
  }

  lemma OverlapIsNear(idx: nat, e: Entity, width: nat)
    requires width > 0 && e.size == Vec2(TileSize, TileSize)
    requires CheckCollision(FruitAt(idx, width).Box(), e.Box())
    ensures idx in NearTiles(e.position, width)
  {
    var c, r := idx % width, idx / width;
    CoordinateNear(c, e.position.x);
    CoordinateNear(r, e.position.y);
    GridNear(idx, width, FirstNear(e.position.x), FirstNear(e.position.y));
  }

  /** A tile within one column and one row of (c0, r0) is one of the four tiles from there. */
  lemma GridNear(idx: nat, width: nat, c0: int, r0: int)
    requires width > 0 && c0 <= idx % width <= c0 + 1 && r0 <= idx / width <= r0 + 1
    ensures idx in FourTiles(c0, r0, width)
  {
    var c, r := idx % width, idx / width;
    assert idx == r * width + c;
    if r == r0 {
      assert idx == r0 * width + c0 || idx == r0 * width + c0 + 1;
    } else {
      assert idx == (r0 + 1) * width + c0 || idx == (r0 + 1) * width + c0 + 1;
    }
  }

  /** The union of the near tiles of all entities. */
  function Cover(entities: seq<Entity>, width: nat): set<int>
    requires width > 0
  {
    if entities == [] then {} else NearTiles(entities[0].position, width) + Cover(entities[1..], width)
  }

  lemma {:induction false} CoverSize(entities: seq<Entity>, width: nat)
    requires width > 0
    ensures |Cover(entities, width)| <= 4 * |entities|
  {
    if entities != [] {
      CoverSize(entities[1..], width);
      var n := NearTiles(entities[0].position, width);
      assert |n| <= 4;
      assert |n + Cover(entities[1..], width)| <= |n| + |Cover(entities[1..], width)|;
    }
  }

  lemma {:induction false} CoverContains(entities: seq<Entity>, width: nat, i: nat)
    requires width > 0 && i < |entities|
    ensures NearTiles(entities[i].position, width) <= Cover(entities, width)
  {
    if i > 0 {
      CoverContains(entities[1..], width, i - 1);
    }
  }

  /** The tile indices 0 .. n-1. */
  function Range(n: nat): (r: set<int>)
    ensures |r| == n
    ensures forall k :: k in r <==> 0 <= k < n
  {
    if n == 0 then {} else Range(n - 1) + {n - 1}
  }

  lemma SubsetSize(a: set<int>, b: set<int>)
    requires a <= b
    ensures |a| <= |b|
  {
    assert b == a + (b - a);
  }

  /** Pigeonhole: each one-tile entity overlaps the fruits of at most four tiles, so on a board of
      more than four tiles per entity some tile is free, and rejection sampling can succeed. */
  lemma {:induction false} FreeTileExists(entities: seq<Entity>, width: nat, height: nat)
    requires width > 0 && TileSized(entities)
    requires 4 * |entities| < width * height
    ensures exists idx :: 0 <= idx < width * height && !OverlapsAny(FruitAt(idx, width).Box(), entities)
  {
    if forall idx :: 0 <= idx < width * height ==> OverlapsAny(FruitAt(idx, width).Box(), entities) {
      forall idx | idx in Range(width * height)
        ensures idx in Cover(entities, width)
      {
        var i :| 0 <= i < |entities| && CheckCollision(FruitAt(idx, width).Box(), entities[i].Box());
        OverlapIsNear(idx, entities[i], width);
        CoverContains(entities, width, i);
      }
      CoverSize(entities, width);
      SubsetSize(Range(width * height), Cover(entities, width));
      assert false;
    }
  }
}
