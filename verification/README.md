# World-state engine of the infon arena, in Dafny

This project models the world-state engine of the infon contest server (`world.c`).
The world is a `w × h` tile grid. Each tile has a walkability flag, a sprite id and a food amount.
One fixed tile is the "king of the hill" (KOTH).
The model covers the rules that change the grid and the `WORLD_INFO` / `WORLD_UPDATE` messages they emit.

The world is an immutable `World` record: `w`, `h`, `kothX`, `kothY`, and the row-major
sequences `walkable`, `sprite` and `food`. All three are indexed `y * w + x` (`Idx`).
Each mutating operation is a pure function returning a `Step`.
A `Step` holds the new world, the C return value and the messages broadcast, in order.
Messages are abstract values: `Info(w, h)` and `Update(x, y, sprite, food)`.

Modules follow the components of the engine:

- `WorldState` (`world_state.dfy`): the record, the messages, tile indexing and the grid invariants (`Inv`).
  It also holds the client-visible food level (`NetworkFood`) and the update message for one tile (`ToNetwork`).
- `TileGrid` (`tile_grid.dfy`): `Dig` and the rejection-sampling search for a dug tile (`FindDigged`).
- `FoodEconomy` (`food_economy.dfy`): `GetFood`, `AddFood` and `FoodEat`.
- `SyncProtocol` (`sync_protocol.dfy`): the snapshot sent on connect (`SendInitialUpdate`).
  It also models a client's view of the grid, built only from received messages (`View`, `ApplyAll`).
  The main result: a snapshot makes a view equal to the grid (`Shows`), and every operation's broadcasts keep it equal.
- `WorldService` (`world_service.dfy`): start-up (`Init`) and runs of the calls the game logic makes (`Run`).

Modelling decisions:

- The header constants `MAX_TILE_FOOD`, `SPRITE_PLAIN`, `SPRITE_NUM_PLAIN`, `SPRITE_BORDER`,
  `SPRITE_NUM_BORDER`, `SPRITE_SOLID`, `SPRITE_NUM_SOLID` and `SPRITE_KOTH` are not visible.
  They are the fields of a `Consts` parameter.
  `Consts.Valid` asks only that `MAX_TILE_FOOD >= 0` and that the three sprite counts are positive, since each is used as a modulus.
- `rand()` values are parameters. `Dig` takes one value `roll`. `Init` takes a function `draws` that gives the value of each draw.
  `FindDigged` takes a finite sequence of draws.
- C `int` is modelled as an unbounded integer. C's truncating `/` is written out in `CDiv`.
  For example, `old + amount` in `world_add_food` (world.c:85) can overflow in C. In the model it is exact.
- `MAP_IS_ON_MAP`, `map_walkable`, `map_dig` and `map_init` belong to `path.h`, which is not part of this model.
  The model takes them to be: a bounds check against the same `w` and `h`, a per-tile flag, setting that flag, and an all-solid start.
  The model keeps this flag in `walkable`.
- `world_to_network` (world.c:163-167) computes the food byte inline instead of calling `food_to_network_food`.
  `ToNetwork` keeps that inline form. Its contract proves the two agree.

Observations that are not defects:

- At start-up, the KOTH dig (world.c:246) broadcasts the KOTH tile with its freshly rolled plain sprite.
  The set-up pass then overwrites that sprite with `SPRITE_KOTH`. `Init` states this exact message.
  This is harmless only if `world_init` runs before the event loop accepts any client; the files modelled here do not establish that ordering.
  Under that assumption every client gets `SPRITE_KOTH` from the snapshot. If a client were connected, it would show the plain sprite on the KOTH tile until that tile's food level next changed.
- The empty sentinel `0xFF` is unambiguous only while `MAX_TILE_FOOD < 255000`.
  `SentinelMeansEmpty` proves this under that bound. `SentinelCollision` names every amount that reads as "empty": none, and every amount in `[255000, 256000)`.
  The real value of `MAX_TILE_FOOD` is not visible, so this is not claimed as a defect.
- `world_food_eat` does not guard a negative `amount`. Such a call adds food with no clamp, so the food cap can be broken.
  `FoodEat` models this. `FoodEatBounds` states it, and `FoodEatPreservesInv` requires `amount >= 0`.

## Model

| member | source | states |
|---|---|---|
| `WorldState.Idx` | world.c:60 | A tile's storage position `y * w + x` (`x + w * y` at line 162 is the same position) always lies inside the `w * h` storage |
| `WorldState.IdxDistinct` | world.c:156-169 | Two different tiles never share a storage position, so writing one tile leaves every other tile intact |
| `WorldState.Walkable` | world.c:45-48 | An off-map coordinate is never walkable; on the map the tile's own flag decides |
| `WorldState.CDiv` | world.c:77 | C division by a positive divisor truncates toward zero: the quotient times the divisor is within one divisor of the dividend, on the dividend's side of zero |
| `WorldState.NetworkFood` | world.c:76-78 | The client-visible food level is the sentinel `0xFF` for no food, and the number of whole thousands for positive food |
| `WorldState.ToNetwork` | world.c:156-169 | The update for tile `(x, y)` carries its coordinates, its sprite, and a food byte equal to `food_to_network_food` of the tile's food |
| `WorldState.SentinelMeansEmpty` | world.c:76-78 | With a food cap below 255000, a tile reads as empty exactly when it has no food, and every level fits in a byte |
| `WorldState.SentinelCollision` | world.c:77 | A non-negative amount reads as the empty sentinel iff it is 0 or lies in `[255000, 256000)` |
| `WorldState.NetworkFoodMonotone` | world.c:77 | More (positive) food never shows as a lower level |
| `WorldState.StoreAtOneTile` | world.c:88 | A store into one tile's storage position leaves all other tiles' walkability, sprite and food unchanged |
| `TileGrid.PlainSprite` | world.c:60 | A dug tile's new sprite lies in `[SPRITE_PLAIN, SPRITE_PLAIN + SPRITE_NUM_PLAIN)` for every `rand()` value |
| `TileGrid.Dig` | world.c:50-64 | Off-interior tiles give 0 and change nothing. An already dug interior tile gives 1 and changes and sends nothing. A solid interior tile gives 1, becomes walkable, gets a plain sprite, keeps its food; no other tile changes and exactly its update is broadcast |
| `TileGrid.DigIdempotent` | world.c:55-56 | A second dig of the same tile returns the same result, changes nothing and broadcasts nothing, whatever its roll |
| `TileGrid.DigKeepsDug` | world.c:50-63 | A dig never makes a walkable tile solid and never changes a border tile's walkability |
| `TileGrid.DigPreservesInv` | world.c:50-63 | A dig keeps the grid invariants: KOTH dug, border solid with border sprites, food in bounds |
| `TileGrid.FindDigged` | world.c:129-140 | Over a stream of draws, the search returns the tile of the first draw landing on a walkable tile. It finds one iff some draw does, so every returned tile is walkable |
| `TileGrid.KothDrawAccepted` | world.c:130-133 | On every grid satisfying `Inv`, the draw `(koth_x, koth_y)` lands on the KOTH tile and is accepted, because that tile stays dug; this is the comment's reason why the search ends |
| `TileGrid.KothDrawEndsSearch` | world.c:130-136 | A stream of draws of which one lands on the KOTH tile (`rx % w == koth_x` and `ry % h == koth_y`, any raw values) holds an accepted draw at or before it, so by `FindDigged`'s contract the search succeeds |
| `FoodEconomy.GetFood` | world.c:70-74 | Off-map coordinates read 0 food; on the map the tile's exact amount |
| `FoodEconomy.FoodNotice` | world.c:90-91 | At most one message: the tile's update, sent iff the visible level of the new amount differs from that of the old (also world.c:107-108) |
| `FoodEconomy.AddFood` | world.c:80-94 | A solid or off-map tile gives 0 and changes nothing. Otherwise the tile's food becomes `clamp(old + amount, 0, MAX_TILE_FOOD)`, the result is the change applied, no other tile changes, and its update is broadcast iff the visible level changed |
| `FoodEconomy.AddFoodDelta` | world.c:84-93 | On a tile within bounds, the applied change has the sign of `amount`, is no larger in size, and equals `amount` iff no clamping happened |
| `FoodEconomy.AddFoodThenGetFood` | world.c:70-93 | Reading a tile after adding food to it gives the clamped sum on a walkable tile and the old amount otherwise |
| `FoodEconomy.AddFoodPreservesInv` | world.c:80-93 | Adding any amount keeps the grid invariants, in particular `0 <= food <= MAX_TILE_FOOD` |
| `FoodEconomy.FoodEat` | world.c:96-111 | Off-map gives 0 and changes nothing. On the map (walkable or not) the result is `min(amount, food)`, the tile loses exactly that, no other tile changes, and its update is broadcast iff the visible level changed |
| `FoodEconomy.FoodEatBounds` | world.c:100-105 | With `amount >= 0` the amount eaten is between 0 and `amount` and the tile stays non-negative; a negative `amount` is returned as is and raises the tile's food |
| `FoodEconomy.FoodEatPreservesInv` | world.c:96-110 | Eating a non-negative amount keeps the grid invariants |
| `SyncProtocol.ApplyAllConcat` | world.c:142-154 | A client taking in two message runs one after the other ends with the same view as taking in their concatenation |
| `SyncProtocol.ApplyAllFromInfo` | world.c:144-147 | A message run that starts with `WORLD_INFO` leaves the same view whatever the client held before |
| `SyncProtocol.SendColumn` | world.c:150-152 | One pass of the inner loop appends only updates, keeps what was sent, and sends column `x` top to bottom, each update at its snapshot position |
| `SyncProtocol.SendTile` | world.c:151 | Sending one tile puts its update right after every tile sent before it, keeps the earlier output as a prefix followed only by updates, and extends the client's view by that tile |
| `SyncProtocol.SendInitialUpdate` | world.c:142-154 | The snapshot is one `WORLD_INFO(w, h)` then exactly `w * h` updates, tile `(x, y)` at position `1 + x * h + y` (x outer, y inner); any client taking it in shows the grid exactly |
| `SyncProtocol.OneTileKeepsShows` | world.c:156-169 | A client showing the grid still shows it after a one-tile change when it receives that tile's update, or nothing if the tile looks the same |
| `SyncProtocol.DigKeepsClientsInStep` | world.c:58-62 | The broadcasts of a dig keep every in-step client's view equal to the grid |
| `SyncProtocol.AddFoodKeepsClientsInStep` | world.c:88-91 | The broadcasts of adding food keep every in-step client's view equal to the grid: a silent change never alters the visible level |
| `SyncProtocol.FoodEatKeepsClientsInStep` | world.c:104-108 | The broadcasts of eating food keep every in-step client's view equal to the grid |
| `WorldService.SetupSprite` | world.c:251-257 | Whatever the roll, the set-up sprite of a tile lies in the border range on the border, is `SPRITE_KOTH` on the KOTH tile, and lies in the solid range elsewhere |
| `WorldService.SetUpColumn` | world.c:250-258 | One pass of the inner set-up loop gives every tile of column `x` its set-up sprite and keeps earlier columns |
| `WorldService.SetUpSprites` | world.c:249-259 | The set-up pass gives every tile its set-up sprite; it runs after the KOTH dig, so its assignment is final |
| `WorldService.Allocate` | world.c:237-243 | The fresh grid has the validated dimensions; no tile is walkable and every tile holds 0 food |
| `WorldService.StartedWorldFacts` | world.c:243-259 | After allocation, the KOTH dig and the set-up pass, all invariants hold, all food is 0, only KOTH is walkable, and every sprite is in its range |
| `WorldService.Init` | world.c:229-259 | Start-up dies with a size error iff a dimension is outside `[10, 255]`, and with a KOTH error iff sizes are fine but KOTH is not strictly interior. Otherwise the invariants hold, all food is 0, only the KOTH tile is walkable, sprites are in range, and the only broadcast is the KOTH dig's update |
| `WorldService.Exec` | world.c:50-111 | One call of dig, add-food or eat keeps the grid's shape and dimensions |
| `WorldService.Run` | world.c:50-111 | A run of calls keeps the grid's shape and dimensions |
| `WorldService.ExecPreservesInv` | world.c:50-111 | One call (eating a non-negative amount) keeps the grid invariants |
| `WorldService.RunPreservesInv` | world.c:50-111 | Every run of calls eating no negative amount keeps all grid invariants: border solid, KOTH dug, food within bounds |
| `WorldService.ExecKeepsDug` | world.c:50-111 | No single call makes a dug tile solid |
| `WorldService.RunKeepsDug` | world.c:50-111 | No run of calls ever makes a dug tile solid again |
| `WorldService.ExecKeepsClientsInStep` | world.c:50-111 | One call's broadcasts keep an in-step client in step |
| `WorldService.RunKeepsClientsInStep` | world.c:50-111 | A client that shows the grid and takes in everything a run of calls broadcasts shows the grid after the run |

## Left out

- `listener.c`: socket creation, accept loop and socket options are transport plumbing outside the world engine.
- `client.rb`: a debug client made of socket reads and printing. A client is modelled only as the abstract `View`.
- The Lua side is a foreign runtime. This covers `world_tick`, the `luaWorld*` wrappers, and the script loading and stack handling in `world_init` (world.c:171-227).
  `Init` takes the four values the script yields as parameters. world.c:208-211 registers `world_dig`, `world_add_food`, `world_is_walkable` and `world_find_digged` with the script; `world_food_eat` is called from files not shown. The model covers any sequence of the three mutating calls, whoever makes them, as a `Run` of `Call`s.
- `world_findpath` and the `finder_*` and `map_*` internals come from `path.h`, which is not part of this model. The grid's own `walkable` sequence stands in for the pathfinding map.
- `server_send_packet` and `packet_*` byte encoding: messages are abstract values. The byte truncation of `packet_write08` is not modelled.
- `world_width`, `world_height`, `world_koth_x` and `world_koth_y` are plain reads of the `World` record's fields.
- `malloc`, `free`, `world_shutdown`, `die` and stderr logging: memory management and process exit. An abort is the `Died` outcome.
- C `int` overflow, for example `old + amount` in `world_add_food`: integers are unbounded.
- FindDigged: the loop's termination and the distribution of `rand()` are not modelled. The search runs over a finite stream of draws, and "not found" means the stream ran out. `KothDrawAccepted` and `KothDrawEndsSearch` state why the source's loop ends once a draw hits the KOTH tile.
- Init: `rand()` values are indexed by each tile's visiting position, not by the exact order of calls in the source. The source skips the call for the KOTH tile. Draw values are arbitrary either way, so the same grids are reachable.
