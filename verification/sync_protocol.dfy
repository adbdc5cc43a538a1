/** The client synchronisation protocol: the full snapshot a newly connected
    client receives, and the view a client builds from the messages it is sent.
    A client that applied a snapshot and then every broadcast shows the live
    grid: the snapshot makes its view match, and every mutating operation's
    broadcasts keep it matching. */
module SyncProtocol {
  import opened WorldState
  import TileGrid
  import FoodEconomy

  /** What a client knows of the grid from the messages it received: the
      announced dimensions and, per tile, the last sprite and food level seen. */
  datatype View = View(w: int, h: int, tiles: map<(int, int), (int, int)>)

  /** A client that has received nothing yet. */
  const Blank := View(0, 0, map[])

  /** How a client takes in one message: `WORLD_INFO` starts a fresh grid of the
      announced size, `WORLD_UPDATE` overwrites one tile. */
  function Apply(v: View, m: Msg): View {
    match m
    case Info(w, h) => View(w, h, map[])
    case Update(x, y, s, f) => v.(tiles := v.tiles[(x, y) := (s, f)])
  }

  /** A client taking in `ms` in order. */
  function ApplyAll(v: View, ms: seq<Msg>): View
    decreases |ms|
  {
    if ms == [] then v else Apply(ApplyAll(v, ms[..|ms| - 1]), ms[|ms| - 1])
  }

  lemma ApplyAllSnoc(v: View, ms: seq<Msg>, m: Msg)
    ensures ApplyAll(v, ms + [m]) == Apply(ApplyAll(v, ms), m)
  {
  }

  /** Receiving `a` then `b` is receiving `a + b`. */
  lemma {:induction false} ApplyAllConcat(v: View, a: seq<Msg>, b: seq<Msg>)
    ensures ApplyAll(v, a + b) == ApplyAll(ApplyAll(v, a), b)
    decreases |b|
  {
    if b == [] {
      assert a + b == a;
    } else {
      var b' := b[..|b| - 1];
      var m := b[|b| - 1];
      assert b == b' + [m];
      assert a + b == (a + b') + [m];
      ApplyAllSnoc(v, a + b', m);
      ApplyAllConcat(v, a, b');
      ApplyAllSnoc(ApplyAll(v, a), b', m);
    }
  }

  /** A stream that starts with `WORLD_INFO` leaves the same view whatever the
      client held before. */
  lemma {:induction false} ApplyAllFromInfo(v1: View, v2: View, ms: seq<Msg>)
    requires ms != [] && ms[0].Info?
    ensures ApplyAll(v1, ms) == ApplyAll(v2, ms)
    decreases |ms|
  {
    if |ms| > 1 {
      ApplyAllFromInfo(v1, v2, ms[..|ms| - 1]);
    } else {
      assert ms[..0] == [];
    }
  }

  /** The view shows `world` exactly: its dimensions, and for each tile of the
      grid (and no other) the tile's sprite and client-visible food level. */
  ghost predicate Shows(v: View, world: World)
    requires Wf(world)
  {
    && v.w == world.w && v.h == world.h
    && (forall p | p in v.tiles :: OnMap(world.w, world.h, p.0, p.1))
    && forall x, y | OnMap(world.w, world.h, x, y) ::
         (x, y) in v.tiles && v.tiles[(x, y)] == (SpriteAt(world, x, y), NetworkFood(FoodAt(world, x, y)))
  }

  /** `Shows`, restricted to the tiles a snapshot sends before `(x, y)`. */
  ghost predicate ShowsBefore(v: View, world: World, x: int, y: int)
    requires Wf(world)
  {
    && v.w == world.w && v.h == world.h
    && (forall p | p in v.tiles :: OnMap(world.w, world.h, p.0, p.1) && Before(p.0, p.1, x, y))
    && forall x', y' | OnMap(world.w, world.h, x', y') && Before(x', y', x, y) ::
         (x', y') in v.tiles && v.tiles[(x', y')] == (SpriteAt(world, x', y'), NetworkFood(FoodAt(world, x', y')))
  }

  /** Where tile `(x, y)`'s update sits in a snapshot: right after the
      `WORLD_INFO`, in visiting order. */
  function SnapshotPos(h: int, x: int, y: int): (p: int)
    requires 0 <= h && 0 <= x && 0 <= y
    ensures p >= 1 + y
  {
    1 + VisitPos(h, x, y)
  }

  lemma SnapshotPosBefore(w: int, h: int, x1: int, y1: int, x2: int, y2: int)
    requires OnMap(w, h, x1, y1) && 0 <= x2 && 0 <= y2 <= h && Before(x1, y1, x2, y2)
    ensures 1 <= SnapshotPos(h, x1, y1) < SnapshotPos(h, x2, y2)
  {
    if x1 < x2 {
      MulMonotone(x1 + 1, x2, h);
      assert (x1 + 1) * h == x1 * h + h;
    }
    MulMonotone(0, x1, h);
  }

  /** `out` holds the snapshot's messages for every tile sent before `(x, y)`,
      each at its snapshot position. */
  ghost predicate SentBefore(world: World, out: seq<Msg>, x: int, y: int)
    requires Wf(world)
  {
    forall x', y' | OnMap(world.w, world.h, x', y') && Before(x', y', x, y) ::
      SnapshotPos(world.h, x', y') < |out| && out[SnapshotPos(world.h, x', y')] == ToNetwork(world, x', y')
  }

  /** Sending tile `(x, y)` puts its update at its snapshot position. */
  lemma SendTilePositions(world: World, out: seq<Msg>, x: int, y: int)
    requires Wf(world) && OnMap(world.w, world.h, x, y)
    requires |out| == SnapshotPos(world.h, x, y) && SentBefore(world, out, x, y)
    ensures SentBefore(world, out + [ToNetwork(world, x, y)], x, y + 1)
  {
  }

  /** Taking in tile `(x, y)`'s update extends the client's view by that tile. */
  lemma SendTileShows(world: World, v: View, x: int, y: int)
    requires Wf(world) && OnMap(world.w, world.h, x, y) && ShowsBefore(v, world, x, y)
    ensures ShowsBefore(Apply(v, ToNetwork(world, x, y)), world, x, y + 1)
  {
  }

  /** Within a column, snapshot positions are consecutive, and the next
      column starts right after the last tile of this one. */
  lemma ColumnPos(h: int, x: int, y: int)
    requires 0 <= h && 0 <= x && 0 <= y
    ensures SnapshotPos(h, x, y) == SnapshotPos(h, x, 0) + y
    ensures SnapshotPos(h, x + 1, 0) == SnapshotPos(h, x, 0) + h
  {
  }

  /** Having sent a whole column `x` is having sent everything before column `x + 1`. */
  lemma NextColumn(world: World, out: seq<Msg>, v: View, x: int)
    requires Wf(world)
    requires SentBefore(world, out, x, world.h) && ShowsBefore(v, world, x, world.h)
    ensures SentBefore(world, out, x + 1, 0) && ShowsBefore(v, world, x + 1, 0)
  {
  }

  /** Having sent every column is showing the whole grid. */
  lemma AllColumnsShow(world: World, v: View)
    requires Wf(world) && ShowsBefore(v, world, world.w, 0)
    ensures Shows(v, world)
  {
  }

  /** Send tile `(x, y)` after every tile before it, keeping the output so
      far, `start`, as a prefix followed only by updates. */
  method SendTile(world: World, start: seq<Msg>, out: seq<Msg>, x: int, y: int) returns (out': seq<Msg>)
    requires Wf(world) && OnMap(world.w, world.h, x, y)
    requires |out| == SnapshotPos(world.h, x, y)
    requires |start| <= |out| && out[..|start|] == start
    requires forall i | |start| <= i < |out| :: out[i].Update?
    requires SentBefore(world, out, x, y) && ShowsBefore(ApplyAll(Blank, out), world, x, y)
    ensures |out'| == |out| + 1
    ensures out'[..|start|] == start
    ensures forall i | |start| <= i < |out'| :: out'[i].Update?
    ensures SentBefore(world, out', x, y + 1) && ShowsBefore(ApplyAll(Blank, out'), world, x, y + 1)
  {
    var m := ToNetwork(world, x, y);
    SendTilePositions(world, out, x, y);
    SendTileShows(world, ApplyAll(Blank, out), x, y);
    ApplyAllSnoc(Blank, out, m);
    out' := out + [m];
    assert out'[..|start|] == out[..|start|];
  }

  /** Send column `x`, top to bottom, after the tiles already in `out`. */
  method SendColumn(world: World, out: seq<Msg>, x: int) returns (out': seq<Msg>)
    requires Wf(world) && 0 <= x < world.w
    requires |out| == SnapshotPos(world.h, x, 0)
    requires SentBefore(world, out, x, 0) && ShowsBefore(ApplyAll(Blank, out), world, x, 0)
    ensures |out'| == |out| + world.h == SnapshotPos(world.h, x + 1, 0)
    ensures out'[..|out|] == out
    ensures forall i | |out| <= i < |out'| :: out'[i].Update?
    ensures SentBefore(world, out', x + 1, 0) && ShowsBefore(ApplyAll(Blank, out'), world, x + 1, 0)
  {
    out' := out;
    var y := 0;
    while y < world.h
      invariant 0 <= y <= world.h
      invariant |out'| == |out| + y
      invariant out'[..|out|] == out
      invariant forall i | |out| <= i < |out'| :: out'[i].Update?
      invariant SentBefore(world, out', x, y) && ShowsBefore(ApplyAll(Blank, out'), world, x, y)
    {
      ColumnPos(world.h, x, y);
      out' := SendTile(world, out, out', x, y);
      y := y + 1;
    }
    NextColumn(world, out', ApplyAll(Blank, out'), x);
    ColumnPos(world.h, x, 0);
  }

  /** The snapshot sent to a newly connected client: one `WORLD_INFO` with the
      dimensions, then one `WORLD_UPDATE` per tile, x outer and y inner. Taking
      it in leaves any client showing the grid exactly. */
  method SendInitialUpdate(world: World) returns (out: seq<Msg>)
    requires Wf(world)
    ensures |out| == 1 + world.w * world.h
    ensures out[0] == Info(world.w, world.h)
    ensures forall i | 1 <= i < |out| :: out[i].Update?
    ensures forall x, y | OnMap(world.w, world.h, x, y) ::
              SnapshotPos(world.h, x, y) < |out| && out[SnapshotPos(world.h, x, y)] == ToNetwork(world, x, y)
    ensures forall v :: Shows(ApplyAll(v, out), world)
  {
    out := [Info(world.w, world.h)];
    assert out == [] + [Info(world.w, world.h)];
    ApplyAllSnoc(Blank, [], Info(world.w, world.h));
    var x := 0;
    while x < world.w
      invariant 0 <= x <= world.w
      invariant |out| == SnapshotPos(world.h, x, 0)
      invariant out[0] == Info(world.w, world.h)
      invariant forall i | 1 <= i < |out| :: out[i].Update?
      invariant SentBefore(world, out, x, 0) && ShowsBefore(ApplyAll(Blank, out), world, x, 0)
    {
      var out' := SendColumn(world, out, x);
      forall i | 1 <= i < |out'|
        ensures out'[i].Update?
      {
        if i < |out| {
          assert out'[i] == out'[..|out|][i];
        }
      }
      out := out';
      x := x + 1;
    }
    assert |out| == 1 + world.w * world.h;
    forall x, y | OnMap(world.w, world.h, x, y)
      ensures SnapshotPos(world.h, x, y) < |out| && out[SnapshotPos(world.h, x, y)] == ToNetwork(world, x, y)
    {
      assert Before(x, y, world.w, 0);
    }
    AllColumnsShow(world, ApplyAll(Blank, out));
    forall v
      ensures Shows(ApplyAll(v, out), world)
    {
      ApplyAllFromInfo(v, Blank, out);
    }
  }

  /** A client showing `a` still shows `b` after taking in `out`, when `b`
      differs from `a` only at tile `(x, y)` and `out` is either that tile's
      update or nothing, the latter only when the tile looks the same. */
  lemma OneTileKeepsShows(v: View, a: World, b: World, x: int, y: int, out: seq<Msg>)
    requires Wf(a) && Wf(b) && OnMap(a.w, a.h, x, y)
    requires Shows(v, a) && SameElsewhere(a, b, x, y)
    requires out == [ToNetwork(b, x, y)] ||
             (out == [] && SpriteAt(b, x, y) == SpriteAt(a, x, y) &&
              NetworkFood(FoodAt(b, x, y)) == NetworkFood(FoodAt(a, x, y)))
    ensures Shows(ApplyAll(v, out), b)
  {
  }

  /** Digging broadcasts exactly what keeps every client in step. */
  lemma DigKeepsClientsInStep(k: Consts, v: View, world: World, x: int, y: int, roll: nat)
    requires Wf(world) && k.numPlain > 0 && Shows(v, world)
    ensures var r := TileGrid.Dig(k, world, x, y, roll);
            Shows(ApplyAll(v, r.out), r.world)
  {
  }

  /** Adding food broadcasts exactly what keeps every client in step: when no
      update is sent, the tile's visible level did not change. */
  lemma AddFoodKeepsClientsInStep(k: Consts, v: View, world: World, x: int, y: int, amount: int)
    requires Wf(world) && Shows(v, world)
    ensures var r := FoodEconomy.AddFood(k, world, x, y, amount);
            Shows(ApplyAll(v, r.out), r.world)
  {
  }

  /** Eating food broadcasts exactly what keeps every client in step. */
  lemma FoodEatKeepsClientsInStep(v: View, world: World, x: int, y: int, amount: int)
    requires Wf(world) && Shows(v, world)
    ensures var r := FoodEconomy.FoodEat(world, x, y, amount);
            Shows(ApplyAll(v, r.out), r.world)
  {
  }
}
