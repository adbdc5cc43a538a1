/** World start-up and runs of the mutating calls into the world, whoever
    makes them. The logic host itself (a Lua script) is not modelled: the four
    values it yields at start-up are parameters of `Init`, and a tick, like
    any other caller, issues some sequence of `Call`s. */
module WorldService {
  import opened WorldState
  import TileGrid
  import FoodEconomy
  import SyncProtocol

  /** Why start-up aborts the process. */
  datatype InitError = SizeInvalid | KothInvalid

  /** A started world with the messages start-up broadcast, or the abort. */
  datatype InitOutcome =
    | Started(world: World, out: seq<Msg>)
    | Died(reason: InitError)

  /** The sprite ranges a freshly set-up grid respects: border variants on the
      border, the KOTH sprite on the KOTH tile, solid variants elsewhere. */
  ghost predicate SpriteFits(k: Consts, world: World, x: int, y: int, s: int) {
    && (IsBorder(world.w, world.h, x, y) ==> k.spriteBorder <= s < k.spriteBorder + k.numBorder)
    && (!IsBorder(world.w, world.h, x, y) && x == world.kothX && y == world.kothY ==> s == k.spriteKoth)
    && (!IsBorder(world.w, world.h, x, y) && (x != world.kothX || y != world.kothY) ==>
          k.spriteSolid <= s < k.spriteSolid + k.numSolid)
  }

  /** The sprite the set-up pass gives tile `(x, y)` from the `rand()` value
      `roll`: a border variant on the border, `SPRITE_KOTH` on the KOTH tile
      and a solid variant everywhere else, whatever the roll. */
  function SetupSprite(k: Consts, world: World, x: int, y: int, roll: nat): (s: int)
    requires k.Valid()
    ensures SpriteFits(k, world, x, y, s)
  {
    if IsBorder(world.w, world.h, x, y) then k.spriteBorder + roll % k.numBorder
    else if x == world.kothX && y == world.kothY then k.spriteKoth
    else k.spriteSolid + roll % k.numSolid
  }

  /** Which `rand()` value the set-up pass uses for tile `(x, y)`: one per tile,
      in visiting order, after the one the KOTH dig used. */
  function SetupDraw(world: World, draws: nat -> nat, x: int, y: int): nat
    requires Wf(world) && OnMap(world.w, world.h, x, y)
  {
    draws(1 + VisitPos(world.h, x, y))
  }

  /** Every tile visited before `(x, y)` holds its set-up sprite in `sprites`. */
  ghost predicate SetUpBefore(k: Consts, world: World, draws: nat -> nat, sprites: seq<int>, x: int, y: int)
    requires k.Valid() && Wf(world) && |sprites| == world.w * world.h
  {
    forall x', y' | OnMap(world.w, world.h, x', y') && Before(x', y', x, y) ::
      sprites[Idx(world.w, world.h, x', y')] == SetupSprite(k, world, x', y', SetupDraw(world, draws, x', y'))
  }

  lemma SetUpTileStep(k: Consts, world: World, draws: nat -> nat, sprites: seq<int>, x: int, y: int)
    requires k.Valid() && Wf(world) && |sprites| == world.w * world.h && OnMap(world.w, world.h, x, y)
    requires SetUpBefore(k, world, draws, sprites, x, y)
    ensures SetUpBefore(k, world, draws,
                        sprites[Idx(world.w, world.h, x, y) := SetupSprite(k, world, x, y, SetupDraw(world, draws, x, y))],
                        x, y + 1)
  {
    var s := SetupSprite(k, world, x, y, SetupDraw(world, draws, x, y));
    var sprites' := sprites[Idx(world.w, world.h, x, y) := s];
    forall x', y' | OnMap(world.w, world.h, x', y') && Before(x', y', x, y + 1)
      ensures sprites'[Idx(world.w, world.h, x', y')] == SetupSprite(k, world, x', y', SetupDraw(world, draws, x', y'))
    {
      if x' != x || y' != y {
        IdxDistinct(world.w, world.h, x', y', x, y);
      }
    }
  }

  lemma SetUpNextColumn(k: Consts, world: World, draws: nat -> nat, sprites: seq<int>, x: int)
    requires k.Valid() && Wf(world) && |sprites| == world.w * world.h
    requires SetUpBefore(k, world, draws, sprites, x, world.h)
    ensures SetUpBefore(k, world, draws, sprites, x + 1, 0)
  {
  }

  /** The set-up pass over column `x`. */
  method SetUpColumn(k: Consts, world: World, draws: nat -> nat, sprites: seq<int>, x: int)
    returns (sprites': seq<int>)
    requires k.Valid() && Wf(world) && 0 <= x < world.w && |sprites| == world.w * world.h
    requires SetUpBefore(k, world, draws, sprites, x, 0)
    ensures |sprites'| == world.w * world.h
    ensures SetUpBefore(k, world, draws, sprites', x + 1, 0)
  {
    sprites' := sprites;
    var y := 0;
    while y < world.h
      invariant 0 <= y <= world.h
      invariant |sprites'| == world.w * world.h
      invariant SetUpBefore(k, world, draws, sprites', x, y)
    {
      SetUpTileStep(k, world, draws, sprites', x, y);
      sprites' := sprites'[Idx(world.w, world.h, x, y) := SetupSprite(k, world, x, y, SetupDraw(world, draws, x, y))];
      y := y + 1;
    }
    SetUpNextColumn(k, world, draws, sprites', x);
  }

  /** The set-up pass: every tile, x outer and y inner, gets its set-up sprite. */
  method SetUpSprites(k: Consts, world: World, draws: nat -> nat) returns (sprites: seq<int>)
    requires k.Valid() && Wf(world)
    ensures |sprites| == world.w * world.h
    ensures SetUpBefore(k, world, draws, sprites, world.w, 0)
  {
    sprites := world.sprite;
    var x := 0;
    while x < world.w
      invariant 0 <= x <= world.w
      invariant |sprites| == world.w * world.h
      invariant SetUpBefore(k, world, draws, sprites, x, 0)
    {
      sprites := SetUpColumn(k, world, draws, sprites, x);
      x := x + 1;
    }
  }

  /** The freshly allocated grid: every tile solid and without food. The
      sprite storage is uninitialised in the source; every entry is written by
      the set-up pass before anything reads it, so its content here is 0. */
  function Allocate(w: int, h: int, kothX: int, kothY: int): (world: World)
    requires MIN_DIM <= w <= MAX_DIM && MIN_DIM <= h <= MAX_DIM
    ensures Wf(world) && world.w == w && world.h == h && world.kothX == kothX && world.kothY == kothY
    ensures forall x, y | OnMap(w, h, x, y) :: !Walkable(world, x, y) && FoodAt(world, x, y) == 0
  {
    World(w, h, kothX, kothY, seq(w * h, _ => false), seq(w * h, _ => 0), seq(w * h, _ => 0))
  }

  /** Start the world from the logic host's `w`, `h`, `kothX`, `kothY` and the
      `rand()` values `draws`. Aborts unless both dimensions lie in
      `[10, 255]` (checked first) and the KOTH tile is strictly interior.
      Otherwise: the invariants hold, no tile has food, only the KOTH tile is
      walkable, every sprite lies in its range, and the one broadcast is the
      KOTH dig's update, sent while its sprite was still a plain one. */
  method Init(k: Consts, w: int, h: int, kothX: int, kothY: int, draws: nat -> nat) returns (r: InitOutcome)
    requires k.Valid()
    ensures r == Died(SizeInvalid) <==> !(MIN_DIM <= w <= MAX_DIM && MIN_DIM <= h <= MAX_DIM)
    ensures r == Died(KothInvalid) <==>
              MIN_DIM <= w <= MAX_DIM && MIN_DIM <= h <= MAX_DIM && !Interior(w, h, kothX, kothY)
    ensures r.Started? ==>
              && Inv(k, r.world)
              && r.world.w == w && r.world.h == h && r.world.kothX == kothX && r.world.kothY == kothY
              && (forall x, y | OnMap(w, h, x, y) :: FoodAt(r.world, x, y) == 0)
              && (forall x, y | OnMap(w, h, x, y) :: Walkable(r.world, x, y) <==> x == kothX && y == kothY)
              && (forall x, y | OnMap(w, h, x, y) :: SpriteFits(k, r.world, x, y, SpriteAt(r.world, x, y)))
              && r.out == [Update(kothX, kothY, TileGrid.PlainSprite(k, draws(0)), EMPTY_FOOD)]
  {
    if w < MIN_DIM || w > MAX_DIM || h < MIN_DIM || h > MAX_DIM {
      return Died(SizeInvalid);
    }
    if kothX <= 0 || kothX >= w - 1 || kothY <= 0 || kothY >= h - 1 {
      return Died(KothInvalid);
    }
    var blank := Allocate(w, h, kothX, kothY);
    var dug := TileGrid.Dig(k, blank, kothX, kothY, draws(0));
    var sprites := SetUpSprites(k, dug.world, draws);
    var world := dug.world.(sprite := sprites);
    StartedWorldFacts(k, blank, dug.world, world, draws);
    return Started(world, dug.out);
  }

  /** What the set-up pass leaves behind, from the facts about the allocation,
      the KOTH dig and the sprites. */
  lemma StartedWorldFacts(k: Consts, blank: World, dug: World, world: World, draws: nat -> nat)
    requires k.Valid() && Wf(blank) && Wf(dug) && Wf(world)
    requires Interior(blank.w, blank.h, blank.kothX, blank.kothY)
    requires forall x, y | OnMap(blank.w, blank.h, x, y) :: !Walkable(blank, x, y) && FoodAt(blank, x, y) == 0
    requires Walkable(dug, blank.kothX, blank.kothY)
    requires FoodAt(dug, blank.kothX, blank.kothY) == FoodAt(blank, blank.kothX, blank.kothY)
    requires SameElsewhere(blank, dug, blank.kothX, blank.kothY)
    requires world == dug.(sprite := world.sprite)
    requires SetUpBefore(k, dug, draws, world.sprite, dug.w, 0)
    ensures Inv(k, world)
    ensures forall x, y | OnMap(world.w, world.h, x, y) :: FoodAt(world, x, y) == 0
    ensures forall x, y | OnMap(world.w, world.h, x, y) ::
              Walkable(world, x, y) <==> x == world.kothX && y == world.kothY
    ensures forall x, y | OnMap(world.w, world.h, x, y) :: SpriteFits(k, world, x, y, SpriteAt(world, x, y))
  {
    forall x, y | OnMap(world.w, world.h, x, y)
      ensures FoodAt(world, x, y) == 0
      ensures Walkable(world, x, y) <==> x == world.kothX && y == world.kothY
      ensures SpriteFits(k, world, x, y, SpriteAt(world, x, y))
    {
      assert Before(x, y, dug.w, 0);
      if x != world.kothX || y != world.kothY {
        assert FoodAt(dug, x, y) == FoodAt(blank, x, y);
        assert Walkable(dug, x, y) == Walkable(blank, x, y);
      }
    }
  }

  /** One call the game logic makes into the world. */
  datatype Call =
    | DigCall(x: int, y: int, roll: nat)
    | AddFoodCall(x: int, y: int, amount: int)
    | EatCall(x: int, y: int, amount: int)

  function Exec(k: Consts, world: World, c: Call): (r: Step)
    requires Wf(world) && k.numPlain > 0
    ensures Wf(r.world) && r.world.w == world.w && r.world.h == world.h
  {
    match c
    case DigCall(x, y, roll) => TileGrid.Dig(k, world, x, y, roll)
    case AddFoodCall(x, y, amount) => FoodEconomy.AddFood(k, world, x, y, amount)
    case EatCall(x, y, amount) => FoodEconomy.FoodEat(world, x, y, amount)
  }

  /** The world after a run of calls, with everything they broadcast, in order. */
  datatype Outcome = Outcome(world: World, out: seq<Msg>)

  function Run(k: Consts, world: World, calls: seq<Call>): (r: Outcome)
    requires Wf(world) && k.numPlain > 0
    ensures Wf(r.world) && r.world.w == world.w && r.world.h == world.h
    decreases |calls|
  {
    if calls == [] then Outcome(world, [])
    else
      var s := Exec(k, world, calls[0]);
      var rest := Run(k, s.world, calls[1..]);
      Outcome(rest.world, s.out + rest.out)
  }

  /** No call in the run eats a negative amount. */
  predicate EatsNonNegative(calls: seq<Call>) {
    forall i | 0 <= i < |calls| :: calls[i].EatCall? ==> calls[i].amount >= 0
  }

  lemma ExecPreservesInv(k: Consts, world: World, c: Call)
    requires Inv(k, world) && k.numPlain > 0
    requires c.EatCall? ==> c.amount >= 0
    ensures Inv(k, Exec(k, world, c).world)
  {
  }

  /** Every run of calls that eats no negative amount keeps all grid
      invariants: border solid, KOTH dug, food within bounds. */
  lemma {:induction false} RunPreservesInv(k: Consts, world: World, calls: seq<Call>)
    requires Inv(k, world) && k.numPlain > 0 && EatsNonNegative(calls)
    ensures Inv(k, Run(k, world, calls).world)
    decreases |calls|
  {
    if calls != [] {
      ExecPreservesInv(k, world, calls[0]);
      assert EatsNonNegative(calls[1..]) by {
        forall i | 0 <= i < |calls[1..]| ensures calls[1..][i].EatCall? ==> calls[1..][i].amount >= 0 {
          assert calls[1..][i] == calls[i + 1];
        }
      }
      RunPreservesInv(k, Exec(k, world, calls[0]).world, calls[1..]);
    }
  }

  lemma ExecKeepsDug(k: Consts, world: World, c: Call)
    requires Wf(world) && k.numPlain > 0
    ensures DugStaysDug(world, Exec(k, world, c).world)
  {
  }

  /** No run of calls ever makes a dug tile solid again. */
  lemma {:induction false} RunKeepsDug(k: Consts, world: World, calls: seq<Call>)
    requires Wf(world) && k.numPlain > 0
    ensures DugStaysDug(world, Run(k, world, calls).world)
    decreases |calls|
  {
    if calls != [] {
      var mid := Exec(k, world, calls[0]).world;
      ExecKeepsDug(k, world, calls[0]);
      RunKeepsDug(k, mid, calls[1..]);
    }
  }

  lemma ExecKeepsClientsInStep(k: Consts, v: SyncProtocol.View, world: World, c: Call)
    requires Wf(world) && k.numPlain > 0 && SyncProtocol.Shows(v, world)
    ensures var s := Exec(k, world, c);
            SyncProtocol.Shows(SyncProtocol.ApplyAll(v, s.out), s.world)
  {
    match c
    case DigCall(x, y, roll) => SyncProtocol.DigKeepsClientsInStep(k, v, world, x, y, roll);
    case AddFoodCall(x, y, amount) => SyncProtocol.AddFoodKeepsClientsInStep(k, v, world, x, y, amount);
    case EatCall(x, y, amount) => SyncProtocol.FoodEatKeepsClientsInStep(v, world, x, y, amount);
  }

  /** A client that shows the grid and takes in everything a run of calls
      broadcasts shows the grid after the run. With the snapshot this is the
      protocol's promise: snapshot on connect, then broadcasts, keep every
      client's view equal to the live grid. */
  lemma {:induction false} RunKeepsClientsInStep(k: Consts, v: SyncProtocol.View, world: World, calls: seq<Call>)
    requires Wf(world) && k.numPlain > 0 && SyncProtocol.Shows(v, world)
    ensures var r := Run(k, world, calls);
            SyncProtocol.Shows(SyncProtocol.ApplyAll(v, r.out), r.world)
    decreases |calls|
  {
    if calls != [] {
      var s := Exec(k, world, calls[0]);
      var rest := Run(k, s.world, calls[1..]);
      ExecKeepsClientsInStep(k, v, world, calls[0]);
      RunKeepsClientsInStep(k, SyncProtocol.ApplyAll(v, s.out), s.world, calls[1..]);
      SyncProtocol.ApplyAllConcat(v, s.out, rest.out);
    }
  }
}
