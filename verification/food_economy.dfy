/** The food economy: exact server-side food per tile, clamped to
    `[0, maxTileFood]` when added, with a broadcast whenever the
    client-visible level (`NetworkFood`) of the tile changes. */
module FoodEconomy {
  import opened WorldState

  /** `v` limited to the range `[lo, hi]`. */
  function Clamp(v: int, lo: int, hi: int): int
    requires lo <= hi
  {
    if v < lo then lo else if v > hi then hi else v
  }

  /** The exact food on tile `(x, y)`, and 0 for off-map coordinates. */
  function GetFood(world: World, x: int, y: int): (f: int)
    requires Wf(world)
    ensures !OnMap(world.w, world.h, x, y) ==> f == 0
    ensures OnMap(world.w, world.h, x, y) ==> f == FoodAt(world, x, y)
  {
    if !OnMap(world.w, world.h, x, y) then 0
    else
      world.food[Idx(world.w, world.h, x, y)]
  }

  /** The broadcast a food change on tile `(x, y)` of `world` (already holding
      the new amount) causes: one update iff the visible level changed. */
  function FoodNotice(world: World, x: int, y: int, before: int, after: int): (r: seq<Msg>)
    requires Wf(world) && OnMap(world.w, world.h, x, y)
    ensures |r| <= 1
    ensures r != [] <==> NetworkFood(after) != NetworkFood(before)
    ensures r != [] ==> r == [ToNetwork(world, x, y)]
  {
    if NetworkFood(after) != NetworkFood(before) then [ToNetwork(world, x, y)] else []
  }

  /** Add `amount` (possibly negative) food to a walkable tile. A solid or
      off-map tile is refused with 0 and no change. Otherwise the tile's food
      becomes `clamp(old + amount, 0, maxTileFood)`, nothing else changes, the
      result is the change actually applied, and an update is broadcast iff the
      client-visible level changed. */
  function AddFood(k: Consts, world: World, x: int, y: int, amount: int): (r: Step)
    requires Wf(world)
    ensures Wf(r.world) && r.world.w == world.w && r.world.h == world.h
    ensures !Walkable(world, x, y) ==> r == Step(world, 0, [])
    ensures Walkable(world, x, y) ==> r.result == FoodAt(r.world, x, y) - FoodAt(world, x, y)
    ensures Walkable(world, x, y) && k.maxTileFood >= 0 ==>
              FoodAt(r.world, x, y) == Clamp(FoodAt(world, x, y) + amount, 0, k.maxTileFood)
    ensures Walkable(world, x, y) ==>
              (r.out != [] <==> NetworkFood(FoodAt(r.world, x, y)) != NetworkFood(FoodAt(world, x, y)))
    ensures Walkable(world, x, y) && r.out != [] ==> r.out == [ToNetwork(r.world, x, y)]
    ensures Walkable(world, x, y) ==>
              && Walkable(r.world, x, y)
              && SpriteAt(r.world, x, y) == SpriteAt(world, x, y)
              && SameElsewhere(world, r.world, x, y)
  {
    if !Walkable(world, x, y) then
      Step(world, 0, [])
    else
      var i := Idx(world.w, world.h, x, y);
      var before := world.food[i];
      var capped := if before + amount > k.maxTileFood then k.maxTileFood else before + amount;
      var after := if capped < 0 then 0 else capped;
      var fed := world.(food := world.food[i := after]);
      StoreAtOneTile(world, fed, x, y);
      Step(fed, after - before, FoodNotice(fed, x, y, before, after))
  }

  /** On a tile within the food bounds, the applied change has the sign of
      `amount` and never exceeds it; it equals `amount` exactly when no
      clamping was needed. */
  lemma AddFoodDelta(k: Consts, world: World, x: int, y: int, amount: int)
    requires Inv(k, world) && Walkable(world, x, y)
    ensures var r := AddFood(k, world, x, y, amount);
            && (amount >= 0 ==> 0 <= r.result <= amount)
            && (amount <= 0 ==> amount <= r.result <= 0)
            && (r.result == amount <==> 0 <= FoodAt(world, x, y) + amount <= k.maxTileFood)
  {
  }

  /** Reading a tile right after adding food to it shows the clamped sum on a
      walkable tile, and the unchanged amount anywhere else. */
  lemma AddFoodThenGetFood(k: Consts, world: World, x: int, y: int, amount: int)
    requires Wf(world) && k.maxTileFood >= 0
    ensures GetFood(AddFood(k, world, x, y, amount).world, x, y) ==
            if Walkable(world, x, y) then Clamp(GetFood(world, x, y) + amount, 0, k.maxTileFood)
            else GetFood(world, x, y)
  {
  }

  /** Adding food keeps every grid invariant, for any amount. */
  lemma AddFoodPreservesInv(k: Consts, world: World, x: int, y: int, amount: int)
    requires Inv(k, world)
    ensures Inv(k, AddFood(k, world, x, y, amount).world)
  {
  }

  /** Eat up to `amount` food from tile `(x, y)`, walkable or not. Off-map
      coordinates yield 0 and no change. Otherwise the result is the smaller of
      `amount` and the food present, the tile loses exactly that much, nothing
      else changes, and an update is broadcast iff the visible level changed.
      A negative `amount` is not guarded: the result is `amount` itself and the
      tile gains food without any clamp. */
  function FoodEat(world: World, x: int, y: int, amount: int): (r: Step)
    requires Wf(world)
    ensures Wf(r.world)
    ensures !OnMap(world.w, world.h, x, y) ==> r == Step(world, 0, [])
    ensures OnMap(world.w, world.h, x, y) ==>
              && SameElsewhere(world, r.world, x, y)
              && (Walkable(r.world, x, y) <==> Walkable(world, x, y))
              && SpriteAt(r.world, x, y) == SpriteAt(world, x, y)
              && r.result <= amount && r.result <= FoodAt(world, x, y)
              && (r.result == amount || r.result == FoodAt(world, x, y))
              && FoodAt(r.world, x, y) == FoodAt(world, x, y) - r.result
              && (r.out != [] <==> NetworkFood(FoodAt(r.world, x, y)) != NetworkFood(FoodAt(world, x, y)))
              && (r.out != [] ==> r.out == [ToNetwork(r.world, x, y)])
  {
    if !OnMap(world.w, world.h, x, y) then
      Step(world, 0, [])
    else
      var i := Idx(world.w, world.h, x, y);
      var ontile := world.food[i];
      var eaten := if amount > ontile then ontile else amount;
      var before := world.food[i];
      var after := before - eaten;
      var fed := world.(food := world.food[i := after]);
      StoreAtOneTile(world, fed, x, y);
      Step(fed, eaten, FoodNotice(fed, x, y, before, after))
  }

  /** With a non-negative `amount` on a tile holding non-negative food, eating
      takes between 0 and `amount`, and leaves the tile non-negative. A negative
      `amount` instead adds `-amount` food to the tile. */
  lemma FoodEatBounds(world: World, x: int, y: int, amount: int)
    requires Wf(world) && OnMap(world.w, world.h, x, y) && FoodAt(world, x, y) >= 0
    ensures var r := FoodEat(world, x, y, amount);
            && (amount >= 0 ==> 0 <= r.result <= amount && FoodAt(r.world, x, y) >= 0)
            && (amount < 0 ==> r.result == amount && FoodAt(r.world, x, y) > FoodAt(world, x, y))
  {
  }

  /** Eating a non-negative amount keeps every grid invariant. */
  lemma FoodEatPreservesInv(k: Consts, world: World, x: int, y: int, amount: int)
    requires Inv(k, world) && amount >= 0
    ensures Inv(k, FoodEat(world, x, y, amount).world)
  {
  }
}
