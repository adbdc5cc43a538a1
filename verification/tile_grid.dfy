/** Digging and walkability queries on the grid, and the random search for a
    dug tile. `rand()` is not modelled: its values are parameters. */
module TileGrid {
  import opened WorldState

  /** The plain sprite a freshly dug tile gets from the `rand()` value `roll`. */
  function PlainSprite(k: Consts, roll: nat): (s: int)
    requires k.numPlain > 0
    ensures k.spritePlain <= s < k.spritePlain + k.numPlain
  {
    k.spritePlain + roll % k.numPlain
  }

  /** Dig tile `(x, y)`, re-rolling its sprite from `roll`. Border and off-map
      tiles are refused with 0; an already dug tile is accepted with 1 and
      nothing else happens; a solid interior tile becomes walkable, gets a plain
      sprite and is broadcast. */
  function Dig(k: Consts, world: World, x: int, y: int, roll: nat): (r: Step)
    requires Wf(world) && k.numPlain > 0
    ensures Wf(r.world)
    ensures r.result == (if Interior(world.w, world.h, x, y) then 1 else 0)
    ensures !Interior(world.w, world.h, x, y) ==> r.world == world && r.out == []
    ensures Interior(world.w, world.h, x, y) && Walkable(world, x, y) ==> r.world == world && r.out == []
    ensures Interior(world.w, world.h, x, y) && !Walkable(world, x, y) ==>
              && Walkable(r.world, x, y)
              && k.spritePlain <= SpriteAt(r.world, x, y) < k.spritePlain + k.numPlain
              && FoodAt(r.world, x, y) == FoodAt(world, x, y)
              && SameElsewhere(world, r.world, x, y)
              && r.out == [ToNetwork(r.world, x, y)]
  {
    if !Interior(world.w, world.h, x, y) then
      Step(world, 0, [])
    else if Walkable(world, x, y) then
      Step(world, 1, [])
    else
      var i := Idx(world.w, world.h, x, y);
      var dug := world.(walkable := world.walkable[i := true],
                        sprite := world.sprite[i := PlainSprite(k, roll)]);
      StoreAtOneTile(world, dug, x, y);
      Step(dug, 1, [ToNetwork(dug, x, y)])
  }

  /** Digging the same tile twice: the second dig returns what the first did,
      changes nothing and broadcasts nothing, whatever sprite roll it gets. */
  lemma DigIdempotent(k: Consts, world: World, x: int, y: int, roll1: nat, roll2: nat)
    requires Wf(world) && k.numPlain > 0
    ensures var first := Dig(k, world, x, y, roll1);
            var second := Dig(k, first.world, x, y, roll2);
            second.world == first.world && second.out == [] && second.result == first.result
  {
  }

  /** A dig never makes a walkable tile solid, and never touches the border. */
  lemma DigKeepsDug(k: Consts, world: World, x: int, y: int, roll: nat)
    requires Wf(world) && k.numPlain > 0
    ensures DugStaysDug(world, Dig(k, world, x, y, roll).world)
    ensures forall u, v | OnMap(world.w, world.h, u, v) && IsBorder(world.w, world.h, u, v) ::
              Walkable(Dig(k, world, x, y, roll).world, u, v) == Walkable(world, u, v)
  {
  }

  /** A dig keeps every grid invariant. */
  lemma DigPreservesInv(k: Consts, world: World, x: int, y: int, roll: nat)
    requires Inv(k, world) && k.numPlain > 0
    ensures Inv(k, Dig(k, world, x, y, roll).world)
  {
  }

  /** A pair of `rand()` values, as the random tile search draws them. */
  datatype Draw = Draw(rx: nat, ry: nat)

  /** The tile a draw lands on: `(rx % w, ry % h)`, always on the map. */
  function DrawnX(world: World, d: Draw): (x: int)
    requires Wf(world)
    ensures 0 <= x < world.w
  {
    d.rx % world.w
  }

  function DrawnY(world: World, d: Draw): (y: int)
    requires Wf(world)
    ensures 0 <= y < world.h
  {
    d.ry % world.h
  }

  /** The search stops at a draw exactly when it lands on a walkable tile. */
  predicate Accepts(world: World, d: Draw)
    requires Wf(world)
  {
    Walkable(world, DrawnX(world, d), DrawnY(world, d))
  }

  /** Rejection sampling for a walkable tile over the finite stream of draws
      `draws`. When it finds one, `n` is the first accepting draw and `(x, y)`
      its tile; it comes back empty-handed only when no draw in the stream
      is accepted. */
  method FindDigged(world: World, draws: seq<Draw>) returns (found: bool, n: nat, x: int, y: int)
    requires Wf(world)
    ensures found ==> Walkable(world, x, y)
    ensures found ==> n < |draws| && x == DrawnX(world, draws[n]) && y == DrawnY(world, draws[n])
    ensures found ==> forall j | 0 <= j < n :: !Accepts(world, draws[j])
    ensures !found ==> forall j | 0 <= j < |draws| :: !Accepts(world, draws[j])
    ensures found <==> exists j | 0 <= j < |draws| :: Accepts(world, draws[j])
  {
    n := 0;
    while n < |draws|
      invariant 0 <= n <= |draws|
      invariant forall j | 0 <= j < n :: !Accepts(world, draws[j])
    {
      var xx := DrawnX(world, draws[n]);
      var yy := DrawnY(world, draws[n]);
      if Walkable(world, xx, yy) {
        return true, n, xx, yy;
      }
      n := n + 1;
    }
    return false, n, 0, 0;
  }

  lemma ModSmall(a: int, n: int)
    requires 0 <= a < n
    ensures a % n == a
  {
  }

  /** Why the search ends: on every grid the invariants allow, the draw that
      lands on the KOTH tile is accepted, because that tile stays dug. */
  lemma KothDrawAccepted(k: Consts, world: World)
    requires Inv(k, world)
    ensures Accepts(world, Draw(world.kothX, world.kothY))
  {
    ModSmall(world.kothX, world.w);
    ModSmall(world.kothY, world.h);
  }

  /** So a stream of draws that ever lands on the KOTH tile (whatever the raw
      values, as long as `rx % w == kothX` and `ry % h == kothY`) makes the
      search succeed, at that draw or at an earlier one. */
  lemma KothDrawEndsSearch(k: Consts, world: World, draws: seq<Draw>, j: nat)
    requires Inv(k, world)
    requires j < |draws| && DrawnX(world, draws[j]) == world.kothX && DrawnY(world, draws[j]) == world.kothY
    ensures exists n | 0 <= n <= j :: Accepts(world, draws[n])
  {
    assert Accepts(world, draws[j]);
  }
}
