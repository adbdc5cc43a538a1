/** The state of the arena: a `w` x `h` tile grid with per-tile walkability,
    sprite id and food amount, stored row-major and indexed `y * w + x`, plus
    the wire messages that describe it to clients.

    C `int` arithmetic is modelled with unbounded integers; the one C operator
    whose meaning differs from Dafny's, the truncating division used for the
    client-visible food level, is written out in `CDiv`. */
module WorldState {

  /** The compile-time constants the engine takes from its headers
      (`MAX_TILE_FOOD` and the `SPRITE_*` ranges). Their values are not part
      of this model, so every operation takes them as a parameter. */
  datatype Consts = Consts(
    maxTileFood: int,
    spritePlain: int, numPlain: int,
    spriteBorder: int, numBorder: int,
    spriteSolid: int, numSolid: int,
    spriteKoth: int)
  {
    /** What the source relies on: a non-negative food cap and non-empty
        sprite ranges (each is used as the right operand of `rand() % n`). */
    predicate Valid() {
      && maxTileFood >= 0
      && numPlain > 0
      && numBorder > 0
      && numSolid > 0
    }
  }

  /** The grid. `walkable`, `sprite` and `food` hold one entry per tile. */
  datatype World = World(
    w: int, h: int,
    kothX: int, kothY: int,
    walkable: seq<bool>,
    sprite: seq<int>,
    food: seq<int>)

  /** The two wire messages of the world protocol: `WORLD_INFO` and `WORLD_UPDATE`. */
  datatype Msg =
    | Info(w: int, h: int)
    | Update(x: int, y: int, sprite: int, food: int)

  /** What a mutating operation yields: the new world, its C return value and
      the messages it broadcast, in order. */
  datatype Step = Step(world: World, result: int, out: seq<Msg>)

  /** Smallest and largest accepted grid dimension. */
  const MIN_DIM := 10
  const MAX_DIM := 255

  /** Client-visible food level of an empty tile. */
  const EMPTY_FOOD := 0xFF

  /** Server food units per client-visible food level. */
  const FOOD_UNIT := 1000

  predicate OnMap(w: int, h: int, x: int, y: int) {
    0 <= x < w && 0 <= y < h
  }

  /** Strictly inside the border ring: the only tiles that can be dug. */
  predicate Interior(w: int, h: int, x: int, y: int) {
    1 <= x < w - 1 && 1 <= y < h - 1
  }

  predicate IsBorder(w: int, h: int, x: int, y: int) {
    x == 0 || x == w - 1 || y == 0 || y == h - 1
  }

  /** Shape of an allocated grid: validated dimensions and one entry per tile. */
  predicate Wf(world: World) {
    && MIN_DIM <= world.w <= MAX_DIM
    && MIN_DIM <= world.h <= MAX_DIM
    && |world.walkable| == world.w * world.h
    && |world.sprite| == world.w * world.h
    && |world.food| == world.w * world.h
  }

  lemma MulMonotone(a: int, b: int, c: int)
    requires 0 <= a <= b && 0 <= c
    ensures a * c <= b * c
  {
  }

  /** Row-major storage position of tile `(x, y)`, always inside the storage. */
  function Idx(w: int, h: int, x: int, y: int): (i: int)
    requires OnMap(w, h, x, y)
    ensures 0 <= i < w * h
  {
    MulMonotone(y, h - 1, w);
    assert (h - 1) * w == h * w - w;
    y * w + x
  }

  /** Distinct tiles never share a storage position. */
  lemma IdxDistinct(w: int, h: int, x1: int, y1: int, x2: int, y2: int)
    requires OnMap(w, h, x1, y1) && OnMap(w, h, x2, y2)
    requires x1 != x2 || y1 != y2
    ensures Idx(w, h, x1, y1) != Idx(w, h, x2, y2)
  {
    if y1 < y2 {
      MulMonotone(y1 + 1, y2, w);
      assert (y1 + 1) * w == y1 * w + w;
    } else if y2 < y1 {
      MulMonotone(y2 + 1, y1, w);
      assert (y2 + 1) * w == y2 * w + w;
    }
  }

  /** The order in which every whole-grid pass visits the tiles: column by
      column, each column top to bottom. `(x1, y1)` comes before `(x2, y2)`. */
  predicate Before(x1: int, y1: int, x2: int, y2: int) {
    x1 < x2 || (x1 == x2 && y1 < y2)
  }

  /** How many tiles a whole-grid pass visits before `(x, y)`. */
  function VisitPos(h: int, x: int, y: int): (p: int)
    requires 0 <= h && 0 <= x && 0 <= y
    ensures p >= y
  {
    MulMonotone(0, x, h);
    x * h + y
  }

  /** Whether tile `(x, y)` can be walked on; never for off-map coordinates. */
  predicate Walkable(world: World, x: int, y: int)
    requires Wf(world)
    ensures Walkable(world, x, y) ==> OnMap(world.w, world.h, x, y)
  {
    OnMap(world.w, world.h, x, y) && world.walkable[Idx(world.w, world.h, x, y)]
  }

  function SpriteAt(world: World, x: int, y: int): int
    requires Wf(world) && OnMap(world.w, world.h, x, y)
  {
    world.sprite[Idx(world.w, world.h, x, y)]
  }

  function FoodAt(world: World, x: int, y: int): int
    requires Wf(world) && OnMap(world.w, world.h, x, y)
  {
    world.food[Idx(world.w, world.h, x, y)]
  }

  /** `b` agrees with `a` on the dimensions, the KOTH position and every tile
      except possibly `(x, y)`. */
  ghost predicate SameElsewhere(a: World, b: World, x: int, y: int)
    requires Wf(a) && Wf(b)
  {
    && a.w == b.w && a.h == b.h
    && a.kothX == b.kothX && a.kothY == b.kothY
    && forall x', y' | OnMap(a.w, a.h, x', y') && (x' != x || y' != y) ::
         && (Walkable(b, x', y') <==> Walkable(a, x', y'))
         && SpriteAt(b, x', y') == SpriteAt(a, x', y')
         && FoodAt(b, x', y') == FoodAt(a, x', y')
  }

  /** A store into the one storage position of `(x, y)` leaves every other tile as it was. */
  lemma StoreAtOneTile(a: World, b: World, x: int, y: int)
    requires Wf(a) && Wf(b) && OnMap(a.w, a.h, x, y)
    requires a.w == b.w && a.h == b.h && a.kothX == b.kothX && a.kothY == b.kothY
    requires forall i | 0 <= i < a.w * a.h && i != Idx(a.w, a.h, x, y) ::
               b.walkable[i] == a.walkable[i] && b.sprite[i] == a.sprite[i] && b.food[i] == a.food[i]
    ensures SameElsewhere(a, b, x, y)
  {
    forall x', y' | OnMap(a.w, a.h, x', y') && (x' != x || y' != y)
      ensures (Walkable(b, x', y') <==> Walkable(a, x', y'))
      ensures SpriteAt(b, x', y') == SpriteAt(a, x', y') && FoodAt(b, x', y') == FoodAt(a, x', y')
    {
      IdxDistinct(a.w, a.h, x', y', x, y);
    }
  }

  /** The invariants the grid keeps from initialisation on: the KOTH tile is
      interior and dug, border tiles are solid and carry a border sprite, and
      every tile's food lies in `[0, maxTileFood]`. */
  ghost predicate Inv(k: Consts, world: World) {
    && Wf(world)
    && Interior(world.w, world.h, world.kothX, world.kothY)
    && Walkable(world, world.kothX, world.kothY)
    && (forall x, y | OnMap(world.w, world.h, x, y) && IsBorder(world.w, world.h, x, y) ::
          && !Walkable(world, x, y)
          && k.spriteBorder <= SpriteAt(world, x, y) < k.spriteBorder + k.numBorder)
    && (forall x, y | OnMap(world.w, world.h, x, y) :: 0 <= FoodAt(world, x, y) <= k.maxTileFood)
  }

  /** Walkability only grows from `a` to `b`: no dug tile is solid again. */
  ghost predicate DugStaysDug(a: World, b: World)
    requires Wf(a) && Wf(b)
  {
    forall x, y | OnMap(a.w, a.h, x, y) :: Walkable(a, x, y) ==> Walkable(b, x, y)
  }

  /** C's `a / b` for a positive divisor: the quotient truncated toward zero. */
  function CDiv(a: int, b: int): (q: int)
    requires b > 0
    ensures a >= 0 ==> q * b <= a < q * b + b
    ensures a < 0 ==> q * b - b < a <= q * b
  {
    if a >= 0 then a / b else -((-a) / b)
  }

  /** The client-visible food level of a tile holding `food` units:
      the empty sentinel for no food, otherwise the whole thousands. */
  function NetworkFood(food: int): (q: int)
    ensures food == 0 ==> q == EMPTY_FOOD
    ensures food > 0 ==> q >= 0 && q * FOOD_UNIT <= food < (q + 1) * FOOD_UNIT
  {
    if food == 0 then EMPTY_FOOD else CDiv(food, FOOD_UNIT)
  }

  /** The `WORLD_UPDATE` message describing tile `(x, y)`. The food byte is
      computed inline here, separately from `NetworkFood`, as the source does. */
  function ToNetwork(world: World, x: int, y: int): (m: Msg)
    requires Wf(world) && OnMap(world.w, world.h, x, y)
    ensures m.Update? && m.x == x && m.y == y
    ensures m.sprite == SpriteAt(world, x, y)
    ensures m.food == NetworkFood(FoodAt(world, x, y))
  {
    var i := x + world.w * y;
    assert i == Idx(world.w, world.h, x, y);
    Update(x, y, world.sprite[i],
           if world.food[i] == 0 then EMPTY_FOOD else CDiv(world.food[i], FOOD_UNIT))
  }

  /** The empty sentinel is unambiguous exactly while no tile can hold a
      thousand-multiple that reads as 255: with a food cap below 255000 a tile
      reads as empty iff it holds no food, and every level fits a byte. */
  lemma SentinelMeansEmpty(maxTileFood: int, food: int)
    requires maxTileFood < 255 * FOOD_UNIT
    requires 0 <= food <= maxTileFood
    ensures NetworkFood(food) == EMPTY_FOOD <==> food == 0
    ensures 0 <= NetworkFood(food) <= 0xFF
  {
  }

  /** Past that cap the sentinel collides: exactly no food and every amount
      in `[255000, 256000)` read as an empty tile. */
  lemma SentinelCollision(food: int)
    requires food >= 0
    ensures NetworkFood(food) == EMPTY_FOOD <==> food == 0 || 255 * FOOD_UNIT <= food < 256 * FOOD_UNIT
  {
  }

  /** More food never shows as a lower level, unless it is zero (the sentinel). */
  lemma NetworkFoodMonotone(a: int, b: int)
    requires 0 < a <= b
    ensures NetworkFood(a) <= NetworkFood(b)
  {
  }
}
