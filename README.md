# Rogalik: a verified model of the game engine

Rogalik is a browser dungeon crawler. Its whole engine is one JavaScript class,
`Game`, in `Rogalik/index.js`. This project models in Dafny what that class
does to the game state, and proves what it keeps and what it computes:

- **The dungeon generator.** `initMap` fills a 40 x 24 map with walls.
  `generateMap` tries to place 5 to 10 rooms, with up to 50 attempts each, and
  carves every room it keeps. `connectRooms` joins consecutive rooms with
  L-shaped corridors and adds random extra connections.
  `generateAdditionalCorridors` carves 2 to 4 straight corridors.
- **Entity placement.** `getRandomEmptyPosition` makes up to 1000 random
  attempts at a vacant floor tile. `placeItems`, `placePlayer` and
  `placeEnemies` put the items, the player and the enemies there, with stats
  that grow with the level.
- **The turn engine.** This covers `movePlayer` with `isValidMove`, the item
  pickup, `playerAttack` on the eight surrounding tiles, and the enemy phase
  `moveEnemies`. In that phase an adjacent enemy hits the player, the first
  fatal hit ends the game, and any other enemy seeks the player or wanders.
  The keydown handler that `bindEvents` attaches is modelled too.
- **Level progression.** `checkGameState` awards points for a finished level.
  `nextLevel` levels the player up, scales the counts and rebuilds the level.
  `restartGame` and `init` reset and rebuild the game.

Modules, one per file:

| file | module | contents |
|---|---|---|
| `chance.dfy` | `Chance` | `Math.random()` as a draw from an injected stream, and `random(min, max)` |
| `layout.dfy` | `Layout` | the grid's size, rooms, the overlap test, corridor segments |
| `floor.dfy` | `Floor` | what a generated map holds, and walks over floor tiles |
| `entities.dfy` | `Entities` | the player, enemies and items, their stats and counts, and the pickup, the attack and levelling up as functions |
| `moves.dfy` | `Moves` | where the player and enemies may step, how an enemy moves, and the enemy phase as the function `Sweep` |
| `game.dfy` | `Rogalik` | the class `Game`, whose methods update the map, the lists and the counters in place, as the source does |

Randomness is injected.
- The `Game` object holds a stream `stream: nat -> Draw` and a counter `tick`.
- The t-th call of `Math.random()` returns `stream(t) / 2^53`.
- `random(min, max)` is computed on that fraction exactly.

This makes every operation deterministic, so each method is specified by
functions of the draws it consumes. Examples:
- `Sweep` specifies `moveEnemies`.
- `Search` specifies `getRandomEmptyPosition`.
- `Struck` and `Kills` specify the attack loop.
- `Collect` and `Remaining` specify the pickup loop.

The properties of the game are proved about those functions.

Where the code does something other than a plain reading of the game's rules
suggests, the model follows the code:
- Enemies may step onto items, because `isValidEnemyMove` does not look at
  items. So distinct cells for every entity hold right after placement (see
  `Rogalik.Game.Populated`). During play they hold only among the enemies,
  among the items, and between the player and everything else (see
  `Rogalik.SweepSane`).
- The additional corridors clip their end to column `Width - 1` or row
  `Height - 1`, which is the outer border. Rooms and the corridors between
  rooms never reach the border (`Layout.WellPlacedIsInner`,
  `Layout.CorridorJoins`), but an additional corridor can
  (`Layout.ExtraCorridorReachesBorder`).
- `nextLevel` places the new items and enemies while the levelled-up player
  still stands on its old tile, so that tile stays free of them.
  - If `placePlayer` finds no tile, the player keeps its old position, which
    may be a wall of the new map.
  - `Rogalik.Game.NextLevel` states that the player is on a floor tile only
    when it has moved.
- `bindEvents` runs on every `init`, so each `restartGame` attaches another
  keydown handler and one key press then runs the turn once per handler.
  - The model counts the handlers in `handlers`.
  - `Rogalik.Game.KeyDown` runs all of them.
  - Each handler that completes the level scores the completion and schedules
    its own `nextLevel`, so `KeyDown` returns how many did.
- `movePlayer` and `playerAttack` do not check `gameRunning` themselves. Only
  the keydown handler does, and it is modelled in `Rogalik.Game.HandleKey`.
- In `connectRooms`, two drawn rooms are "the same room" by object identity.
  The rooms are distinct objects, so the model compares their indices, which
  is equivalent.
- JavaScript numbers are doubles. Every value the engine computes (at most
  health plus a few hundred per level, scores, and coordinates under 40) is an
  exact integer, so the model uses unbounded integers.
  - The halvings `Math.floor(x + width / 2)` in `createCorridor` and
    `Math.floor(level / 2)`, `Math.floor(level / 4)` in `nextLevel` act on
    small non-negative integers, so they equal integer division, which the
    model uses.
  - `random(min, max)` multiplies the draw by `max - min + 1` in floating
    point. The model computes that product on exact fractions, so the two can
    differ; see "## Left out".

## Model

| member | source | states |
|---|---|---|
| Chance.Random | Rogalik/index.js:671-673 | random(min, max) lies in [min, max] whenever min <= max |
| Chance.RandomReaches | Rogalik/index.js:671-673 | every value of [min, max] is the result of some draw, so the injected stream loses no outcome |
| Chance.Heads | Rogalik/index.js:171 | Math.random() < 0.5 for the draw: the coin of createCorridor and generateAdditionalCorridors |
| Chance.Below30 | Rogalik/index.js:475 | Math.random() < 0.3 for the draw: whether an enemy on level 4 or deeper seeks the player |
| Chance.FloorScaled | Rogalik/index.js:672 | Math.floor(f * n) for a fraction f in [0, 1) lies in [0, n) |
| Layout.RoomFromDraws | Rogalik/index.js:224-231 | a generated room has sides 3..8 and lies inside [1, Width - 2] x [1, Height - 2] |
| Layout.WellPlacedIsInner | Rogalik/index.js:224-231 | no tile of a generated room is on the outer border |
| Layout.RoomOverlaps | Rogalik/index.js:233-243 | roomOverlaps is true iff some accepted room passes the overlap test |
| Layout.OverlapsIffGrownMeet | Rogalik/index.js:235-238 | the overlap test holds iff the two rooms, each grown by one tile on its right and bottom edges, share a tile |
| Layout.SeparatedByWall | Rogalik/index.js:233-243 | tiles of two rooms that do not overlap are never equal and never neighbours (8-neighbourhood): a wall lies between them |
| Layout.Center | Rogalik/index.js:162-169 | a room's centre: x + floor(width / 2), y + floor(height / 2) |
| Layout.Corridor | Rogalik/index.js:171-177 | the L-corridor: the row at the first centre then the column at the second when the coin is heads, else the column at the first centre then the row at the second |
| Layout.CorridorJoins | Rogalik/index.js:161-178 | the L-corridor starts at the first centre, ends at the second, its two segments share a corner, and between generated rooms both stay off the border |
| Layout.ExtraSegment | Rogalik/index.js:205-220 | an additional corridor is a row when the coin is below 0.5, otherwise a column; it starts at 1 or more, is 5 to 15 long, and ends at Width - 1 (Height - 1) at most |
| Layout.ExtraCorridorReachesBorder | Rogalik/index.js:207-212 | some draws give an additional corridor that ends on the border column |
| Floor.SpacedAppend | Rogalik/index.js:129-131 | keeping a generated room that overlaps no kept room keeps the rooms generated and pairwise non-overlapping |
| Floor.LinksExtended | Rogalik/index.js:145-149 | the corridor for rooms i and i + 1, appended, extends the consecutive corridors by one pair |
| Floor.LinksInside | Rogalik/index.js:145-149 | the corridors between consecutive generated rooms stay off the border |
| Floor.JoinedExtended | Rogalik/index.js:138-139 | corridors carved after the consecutive ones leave the rooms joined |
| Floor.InsideExtended | Rogalik/index.js:152-158 | segments off the border, followed by more of them, are all off the border |
| Floor.BridgedAppend | Rogalik/index.js:152-158 | one more corridor between two different rooms, or none, keeps a list of such corridors |
| Floor.BridgedExtended | Rogalik/index.js:152-158 | the extra connections after the consecutive ones stay corridors between two different rooms when one more pair is added |
| Floor.ReachableSymmetric | Rogalik/index.js:119-140 | a walk over floor tiles can be taken backwards |
| Floor.ReachableTransitive | Rogalik/index.js:119-140 | two walks over floor tiles that meet make one walk |
| Floor.SegmentWalk | Rogalik/index.js:180-200 | any two tiles of a fully cleared corridor segment are joined by a walk along it |
| Floor.CarvedSegmentIsFloor | Rogalik/index.js:180-200 | in a carved map every tile of a carved segment off the border is floor |
| Floor.NeighbourRoomsReachable | Rogalik/index.js:145-149 | the centres of consecutive rooms are joined by a walk over floor tiles |
| Floor.ReachableFromFirst | Rogalik/index.js:145-149 | the centre of every room can be reached from the centre of the first room |
| Floor.RoomsConnected | Rogalik/index.js:142-159 | every room's centre can be reached from every other room's centre, whatever the extra corridors do |
| Floor.DungeonConnected | Rogalik/index.js:119-140 | a generated map has a floor tile (the first room's centre), and all its rooms are mutually reachable |
| Entities.StatsGrowWithLevel | Rogalik/index.js:271-284 | enemy health and damage, sword damage and potion healing are positive from level 1 on and never shrink with the level |
| Entities.FreshPlayer | Rogalik/index.js:298-304 | placePlayer's player on the tile found: 100 health of 100 and damage 20 |
| Entities.EnemyHealth | Rogalik/index.js:313-317 | an enemy's health: 50 + 15 (level - 1) |
| Entities.EnemyDamage | Rogalik/index.js:314-318 | an enemy's damage: 15 + 8 (level - 1) |
| Entities.SwordDamage | Rogalik/index.js:271 | a sword's bonus: 15 + 3 level |
| Entities.PotionHealing | Rogalik/index.js:284 | a potion's healing: 35 + 10 level |
| Entities.EnemyCount | Rogalik/index.js:632 | enemyCount is at most 25 and at least 10 |
| Entities.PotionCount | Rogalik/index.js:633 | healthPotionCount is at least 4 and at most 12 |
| Entities.SwordCount | Rogalik/index.js:634 | swordCount is at most 4 and at least 2 |
| Entities.CountsFollowLevel | Rogalik/index.js:632-634 | deeper levels have at least as many enemies and swords and at most as many potions |
| Entities.EnemyAt | Rogalik/index.js:357-359 | the enemy loop finds a hit iff some enemy stands on the tile |
| Entities.ItemAt | Rogalik/index.js:361-363 | the item loop finds a hit iff some item lies on the tile |
| Entities.IsAdjacent | Rogalik/index.js:523-527 | isAdjacent: the two tiles differ and are at most one apart on each axis |
| Entities.StockedSword | Rogalik/index.js:268-279 | a sword of this level's damage, pushed while only swords are placed, keeps every sword before every potion |
| Entities.StockedPotion | Rogalik/index.js:281-292 | a potion of this level's healing, pushed after the swords, keeps the stock |
| Entities.PotionPlaced | Rogalik/index.js:281-292 | one search of the potion loop appends the potion found, if any, keeping the stock and every item placed before |
| Entities.SwordsOnly | Rogalik/index.js:268-279 | when all items are counted as swords, each one is a sword |
| Entities.AroundIsAdjacent | Rogalik/index.js:434-443 | the attack's eight positions are exactly the tiles isAdjacent accepts |
| Entities.Around | Rogalik/index.js:434-443 | the attack's eight positions, in the source's order: left, right, up, down, then the four diagonals |
| Entities.InReach | Rogalik/index.js:447-448 | an enemy is in reach iff it stands on one of the eight positions |
| Entities.Hit | Rogalik/index.js:449 | an enemy in reach loses the player's damage |
| Entities.Survives | Rogalik/index.js:449-452 | an enemy survives the attack iff it is out of reach or its health after the hit is above 0 |
| Entities.Kills | Rogalik/index.js:445-458 | the attack removes at most as many enemies as there are |
| Entities.Struck | Rogalik/index.js:445-458 | the enemies left plus those removed make up the enemies before |
| Entities.StruckMembers | Rogalik/index.js:445-458 | the enemies left are exactly the surviving ones, each hit for exactly the player's damage when in reach |
| Entities.StruckStep | Rogalik/index.js:445-458 | the attack from enemy i on: enemy i's outcome, then the outcome of the rest |
| Entities.StrikeSplice | Rogalik/index.js:445-458 | one step of the backward attack loop: removing or keeping enemy i of the partly processed list yields the struck list from index i on |
| Entities.NothingInReach | Rogalik/index.js:445-458 | with no enemy in reach, the attack changes no enemy and scores nothing |
| Entities.StruckApart | Rogalik/index.js:445-458 | the attack moves no enemy, so enemies stay on distinct tiles |
| Entities.StruckStaysLaid | Rogalik/index.js:445-458 | after the attack the survivors stand on floor tiles, one to a tile, only where enemies stood, all alive |
| Entities.Collect | Rogalik/index.js:419-431 | picking up never moves the player and never changes maxHealth |
| Entities.CollectStep | Rogalik/index.js:420-430 | the pickup from item i on: the later items first, then item i, which is used and removed only when it lies on the player's tile |
| Entities.PickupSplice | Rogalik/index.js:420-430 | one step of the backward pickup loop: removing or keeping item i of the partly processed list yields the items left from index i on |
| Entities.Remaining | Rogalik/index.js:419-431 | no item left lies on the player's tile |
| Entities.RemainingMembers | Rogalik/index.js:419-431 | the items left are exactly the items off the player's tile |
| Entities.RemainingSplits | Rogalik/index.js:419-431 | the items left keep their order |
| Entities.RemainingLaid | Rogalik/index.js:419-431 | the items left still lie on floor tiles, one to a tile |
| Entities.LaidCons | Rogalik/index.js:419-431 | an item on a floor tile of its own, in front of items laid out, keeps them laid out |
| Entities.CollectCapped | Rogalik/index.js:424-426 | a potion heals up to maxHealth and never above it; nothing lowers health or damage |
| Entities.CollectOne | Rogalik/index.js:419-431 | with items on distinct tiles, the pickup uses exactly the item on the player's tile, or none |
| Entities.Use | Rogalik/index.js:423-427 | a potion raises health to at most maxHealth; a sword adds its damage |
| Entities.LevelUp | Rogalik/index.js:622-630 | nextLevel's heal of 20 + 5 level up to maxHealth, and on every third level 25 more maxHealth and full health |
| Entities.LevelUpHeals | Rogalik/index.js:622-630 | levelling up heals, keeps health within maxHealth, raises maxHealth by 25 exactly on every third level and then heals fully; position and damage unchanged |
| Moves.EnterableIsFloor | Rogalik/index.js:408-417 | a tile isValidMove or isValidEnemyMove accepts is a floor tile, and one isValidEnemyMove accepts is accepted by isValidMove too |
| Moves.PlayerMayEnter | Rogalik/index.js:408-417 | isValidMove: on the map, not a wall, no enemy there |
| Moves.EnemyMayEnter | Rogalik/index.js:529-540 | isValidEnemyMove: on the map, not a wall, not the player's tile, no enemy there |
| Moves.SeekStep | Rogalik/index.js:487-496 | the seeking step: along x when Abs(dx) > Abs(dy), otherwise along y, towards the player |
| Moves.SeekStepCloses | Rogalik/index.js:486-496 | the seeking step is one orthogonal step that brings the enemy one closer (Manhattan distance) to the player; a tie moves vertically |
| Moves.Direction | Rogalik/index.js:510-513 | the direction floor(4u / 2^53) picks: up, down, left, right |
| Moves.EveryDirectionDrawn | Rogalik/index.js:510-513 | each of the four directions is chosen by some draw |
| Moves.Wander | Rogalik/index.js:509-521 | moveEnemyRandomly: one draw picks a direction; the enemy steps there iff isValidEnemyMove accepts it |
| Moves.WanderSteps | Rogalik/index.js:509-521 | a random move takes the drawn step iff isValidEnemyMove accepts it, and otherwise leaves the enemy where it is |
| Moves.Pursue | Rogalik/index.js:486-507 | moveEnemyTowardsPlayer: the seeking step when allowed, with no draw; otherwise moveEnemyRandomly |
| Moves.PursueSteps | Rogalik/index.js:486-507 | a seeking enemy takes the seeking step iff it is allowed, without a draw; otherwise it moves randomly with one draw |
| Moves.Advance | Rogalik/index.js:474-481 | a non-adjacent enemy: on level 4 or deeper one draw decides to seek (below 0.3), else it moves randomly; below level 4 no seek draw is taken |
| Moves.AdvanceSteps | Rogalik/index.js:474-481 | a non-adjacent enemy keeps its stats and moves at most one step onto a tile isValidEnemyMove accepts; below level 4 it always moves randomly with one draw |
| Moves.Act | Rogalik/index.js:467-481 | one iteration of moveEnemies: an adjacent enemy hits and a hit to 0 or below slays the player; any other enemy advances |
| Moves.SweepFrom | Rogalik/index.js:466-483 | the loop of moveEnemies from enemy i on, stopping at the first fatal hit |
| Moves.Sweep | Rogalik/index.js:465-484 | moveEnemies as a whole: the loop from the first enemy |
| Moves.SweepStep | Rogalik/index.js:466-483 | the phase from enemy i on is enemy i's action, then, unless that slew the player, the phase from enemy i + 1 on |
| Moves.ActKeeps | Rogalik/index.js:467-481 | an adjacent enemy only lowers the player's health by its damage, slaying it at 0 or below; any other enemy changes only its own tile, keeps its stats, and takes draws |
| Moves.ActSteps | Rogalik/index.js:474-481 | an enemy out of reach keeps its stats and either stays or takes one orthogonal step onto a tile isValidEnemyMove accepts |
| Moves.ActKeepsSpread | Rogalik/index.js:474-481 | one enemy's action keeps the enemies on floor, one to a tile, off the player's tile |
| Moves.SweepLength | Rogalik/index.js:465-484 | the enemy phase keeps the number of enemies and only moves the draw counter forward |
| Moves.SweepKeepsPrefix | Rogalik/index.js:466 | the enemy phase from enemy i on leaves the enemies before i alone |
| Moves.SweepSteps | Rogalik/index.js:465-484 | every enemy keeps its stats and moves at most one orthogonal step |
| Moves.SweepPlayer | Rogalik/index.js:465-473 | the enemy phase changes nothing of the player but its health, and only lowers that |
| Moves.StepKeepsSpread | Rogalik/index.js:529-540 | one enemy's move keeps the enemies on floor, one to a tile, off the player's tile |
| Moves.SweepKeepsSpread | Rogalik/index.js:465-540 | the whole enemy phase keeps the enemies on floor, one to a tile, off the player's tile |
| Moves.FirstFatal | Rogalik/index.js:467-473 | the first enemy whose hit leaves the player at 0 health or below, or none |
| Moves.FatalStep | Rogalik/index.js:468-470 | one hit subtracts the enemy's damage and is the first fatal hit iff it leaves health at 0 or below |
| Moves.MissStep | Rogalik/index.js:467 | an enemy out of reach adds no damage |
| Moves.SweepDamage | Rogalik/index.js:465-484 | the enemies' moves never change who hits the player: the damage follows from the tiles at the start of the phase |
| Moves.DamageHits | Rogalik/index.js:465-473 | the player is slain iff a fatal enemy exists, and the health left is the health less the damage of every adjacent enemy up to the first fatal one |
| Moves.SweepSparesFrom | Rogalik/index.js:470-472 | the enemies after the first fatal one neither hit nor move |
| Moves.SweepHits | Rogalik/index.js:465-484 | the player is slain iff some enemy's hit is fatal; the health left and the untouched enemies after the first fatal hit |
| Moves.SweepAlive | Rogalik/index.js:465-473 | after the phase a living player is slain iff its health is 0 or below |
| Rogalik.SweepSane | Rogalik/index.js:465-484 | the enemy phase keeps the state sane, the game running only while the player is not slain; it only lowers the player's health, and a slain player leaves an enemy standing |
| Rogalik.PickupSane | Rogalik/index.js:397-401 | a step isValidMove accepts followed by the pickup keeps the state sane |
| Rogalik.StrikeSane | Rogalik/index.js:445-458 | the attack keeps the state sane |
| Rogalik.Game.constructor | Rogalik/index.js:2-24 | level 1, score 0, running, nothing placed, a 40 x 24 map of walls |
| Rogalik.Game.NextDraw | Rogalik/index.js:672 | one call of Math.random() takes the next draw |
| Rogalik.Game.RandomInt | Rogalik/index.js:671-673 | random(min, max) takes one draw and lies in [min, max] |
| Rogalik.Game.InitMap | Rogalik/index.js:109-117 | every tile becomes a wall |
| Rogalik.Game.GenerateRoom | Rogalik/index.js:224-231 | four draws give a room of sides 3..8 off the border |
| Rogalik.Game.CarveRoom | Rogalik/index.js:245-251 | exactly the room's tiles become floor; every other tile is unchanged |
| Rogalik.Game.CarveHorizontalCorridor | Rogalik/index.js:180-189 | exactly the on-map tiles of the row between x1 and x2 (either order) become floor; nothing else changes |
| Rogalik.Game.CarveVerticalCorridor | Rogalik/index.js:191-200 | exactly the on-map tiles of the column between y1 and y2 (either order) become floor; nothing else changes |
| Rogalik.Game.CreateCorridor | Rogalik/index.js:161-178 | one draw chooses the L-shape; exactly its two segments' tiles become floor |
| Rogalik.Game.ConnectConsecutive | Rogalik/index.js:145-149 | an L-corridor for every pair of consecutive rooms, one draw each, off the border between generated rooms |
| Rogalik.Game.ConnectRooms | Rogalik/index.js:142-159 | the consecutive rooms are joined; the extra connections are random(1, floor(n / 2)) attempts, each carving a corridor between two different rooms or nothing; the draws used follow; nothing but corridor tiles change, and nothing happens with fewer than two rooms |
| Rogalik.Game.Connections | Rogalik/index.js:142-159 | the corridors of connectRooms from draw t: the consecutive pairs, then at most random(1, floor(n / 2)) pairs, each between two different rooms, and the draws that uses |
| Rogalik.Game.ConnectPair | Rogalik/index.js:152-158 | two draws pick rooms a and b; when a != b a third draw carves the L-corridor between them, otherwise nothing is carved |
| Rogalik.Game.CarveExtraCorridor | Rogalik/index.js:205-221 | four draws give one straight corridor, whose tiles become floor |
| Rogalik.Game.GenerateAdditionalCorridors | Rogalik/index.js:202-222 | random(2, 4) corridors, four draws each, exactly their tiles cleared |
| Rogalik.Game.Extras | Rogalik/index.js:202-222 | the additional corridors from draw t: random(2, 4) of them, each from its own four draws |
| Rogalik.Game.GenerateMap | Rogalik/index.js:119-140 | the map is walls except exactly 1 to 10 carved rooms, generated and pairwise separated, and the carved corridors: connectRooms's corridors (consecutive rooms joined, extra pairs between different rooms) followed by the additional corridors, with the draws each takes |
| Rogalik.Game.PlaceRoom | Rogalik/index.js:126-135 | the rooms are unchanged or grow by one generated room that overlaps no kept room; the first room is always kept; at most 50 attempts of four draws each |
| Rogalik.Game.Candidate | Rogalik/index.js:341-342 | the tile an attempt tries is on the map |
| Rogalik.Game.Search | Rogalik/index.js:338-350 | a search with n attempts uses at most 2n draws |
| Rogalik.Game.SearchMisses | Rogalik/index.js:338-350 | the search returns null iff every one of its attempts is refused, and it has then used all of its draws |
| Rogalik.Game.SearchFindsFirst | Rogalik/index.js:338-350 | a tile the search returns is vacant and is some attempt j within the budget; the search has then used exactly j + 1 attempts, and every earlier attempt was refused |
| Rogalik.Game.SearchStep | Rogalik/index.js:340-347 | one attempt of the search |
| Rogalik.Game.RejectedAll | Rogalik/index.js:340-347 | n attempts from draw t are rejected exactly when every attempt j < n, drawn from draws t + 2j and t + 2j + 1, lands on a tile that is not vacant |
| Rogalik.Game.IsPositionEmpty | Rogalik/index.js:352-366 | true iff the tile is floor with no player, enemy or item on it |
| Rogalik.Game.Vacant | Rogalik/index.js:352-366 | isPositionEmpty as a predicate: a floor tile with no player, enemy or item on it; it also asks for a tile on the map, which every tile the search tries is (Candidate) |
| Rogalik.Game.TryTile | Rogalik/index.js:341-346 | two draws give a tile, kept iff vacant |
| Rogalik.Game.GetRandomEmptyPosition | Rogalik/index.js:338-350 | the result and the draws used are those of Search; a tile found is vacant |
| Rogalik.Game.PlaceItems | Rogalik/index.js:265-293 | the items, on vacant floor tiles one to a tile, are at most swordCount swords of this level's damage followed by at most healthPotionCount potions of this level's healing |
| Rogalik.Game.PlaceSwords | Rogalik/index.js:268-279 | up to swordCount swords, placed apart |
| Rogalik.Game.PlacePotions | Rogalik/index.js:281-292 | up to healthPotionCount potions appended after the swords, which stay as they were, placed apart |
| Rogalik.Game.PlaceLoot | Rogalik/index.js:269-278 | one search; the loot is appended on the tile Search finds, or nothing changes when it finds none; the draws are Search's |
| Rogalik.Game.AddItem | Rogalik/index.js:272-277 | an item on a vacant tile is appended and the items stay apart |
| Rogalik.Game.PlacePlayer | Rogalik/index.js:295-306 | a fresh player (100/100 health, damage 20) on the tile Search finds, vacant floor; unchanged when none is found |
| Rogalik.Game.PlaceEnemies | Rogalik/index.js:308-329 | at most enemyCount enemies, with this level's stats, on floor one to a tile, on no item and not on the player |
| Rogalik.Game.PlaceEnemy | Rogalik/index.js:311-327 | one search; an enemy with this level's health and damage is appended on the tile Search finds, or nothing changes when it finds none; the draws are Search's |
| Rogalik.Game.EnemyOn | Rogalik/index.js:412-414 | true iff some enemy stands on the tile |
| Rogalik.Game.IsValidMove | Rogalik/index.js:408-417 | true iff the tile is on the map, not a wall and free of enemies |
| Rogalik.Game.IsValidEnemyMove | Rogalik/index.js:529-540 | true iff the tile is on the map, not a wall, not the player's and free of enemies |
| Rogalik.Game.MoveEnemyRandomly | Rogalik/index.js:509-521 | enemy i becomes Wander's result for the next draw; one draw used |
| Rogalik.Game.MoveEnemyTowardsPlayer | Rogalik/index.js:486-507 | enemy i becomes Pursue's result, with its draws |
| Rogalik.Game.MoveEnemies | Rogalik/index.js:465-484 | the player, enemies and draws become those of Sweep; the game stops iff the player is slain |
| Rogalik.Game.MoveEnemy | Rogalik/index.js:475-481 | enemy i becomes Advance's result, with its draws |
| Rogalik.Game.GameOver | Rogalik/index.js:666-669 | the game stops |
| Rogalik.Game.CheckItemPickup | Rogalik/index.js:419-431 | the items become Remaining and the player Collect of the items on its tile |
| Rogalik.Game.PickItem | Rogalik/index.js:421-429 | item i, when on the player's tile, is used and spliced out; otherwise nothing changes |
| Rogalik.Game.StrikeEnemies | Rogalik/index.js:445-458 | the enemies become Struck and the score grows by 10 * level per kill |
| Rogalik.Game.StrikeEnemy | Rogalik/index.js:446-457 | enemy i, when in reach, loses the player's damage and is spliced out for 10 * level at 0 health or below |
| Rogalik.Game.CheckGameState | Rogalik/index.js:610-619 | the level is complete iff no enemy is left, and then scores 100 * level |
| Rogalik.Game.MovePlayer | Rogalik/index.js:393-406 | a move isValidMove refuses changes nothing; otherwise step, pickup, enemy phase and completion check, keeping the state sane; a slain player never completes the level |
| Rogalik.Game.StepTo | Rogalik/index.js:397-405 | the step, the pickup, the enemy phase and the completion check, keeping the state sane |
| Rogalik.Game.EnemyTurn | Rogalik/index.js:402-404 | moveEnemies then checkGameState, keeping the state sane; a slain player never completes the level |
| Rogalik.Game.PlayerAttack | Rogalik/index.js:433-463 | the strike, the enemy phase and the completion check, with the score for kills and completion, keeping the state sane |
| Rogalik.Game.HandleKey | Rogalik/index.js:369-390 | nothing once the game has stopped or for another key; w, a, s, d move, space attacks |
| Rogalik.Game.KeyDown | Rogalik/index.js:368-391 | every attached handler runs; the state stays sane; nothing changes once the game has stopped |
| Rogalik.Game.Init | Rogalik/index.js:26-37 | a new generated map, stocked with 10 potions, 2 swords and 10 enemies and a fresh player on floor (or the old one); one more handler |
| Rogalik.Game.Rebuild | Rogalik/index.js:27-30 | a generated map, then the items, the player and the enemies placed on it |
| Rogalik.Game.Stock | Rogalik/index.js:28-30 | items, player and enemies placed apart on floor with this level's stats and counts |
| Rogalik.Game.RestartGame | Rogalik/index.js:99-107 | level 1, score 0, running, and a newly stocked map with a fresh player |
| Rogalik.Game.NextLevel | Rogalik/index.js:621-664 | the level goes up, the player levels up and keeps its health, maxHealth and damage, and a new map is stocked with this level's counts |

## Left out

- `render`, `updateUI`, `createButtons` and `showRules` are left out. They build
  the page with jQuery and compute no game state.
- The `alert` calls in `checkGameState`, `nextLevel` and `gameOver` are left
  out, and so is `preventDefault` in the key handler. They are display only.
- The `setTimeout` in `checkGameState` is left out: a timer belongs to the
  page. `CheckGameState` and the turn methods return whether the level is
  complete, and the caller then calls `NextLevel`. Keys pressed during the
  one-second delay are still handled. A restart during the delay does not
  cancel the pending `nextLevel`.
- `floodFill` is never called, so it is not modelled. `Floor.DungeonConnected`
  proves every room centre reachable from every other. That is less than
  `floodFill` would check: floor carved by an additional corridor need not
  touch a room or a connecting corridor, and nothing proves it reachable from
  the rooms.
- `Math.random()` is replaced by the injected stream of draws, and its
  floating-point arithmetic by exact fractions with denominator 2^53. The
  double product in `random(min, max)` is rounded, so for a draw within about
  2^-53 of a boundary between two results the source can return the other
  neighbouring value. For example, the draw 5404319552844595 / 2^53 with
  `random(0, 4)` gives 3 in JavaScript and 2 in the model. Each result of the
  model is still in range, and each range value is still reachable.
- `TILE_TYPES` PLAYER, ENEMY, HEALTH_POTION and SWORD are never stored in the
  map, so a tile is `Empty` or `Wall` only.
- `initMap` allocates a new array in the source. The model refills the same
  array in place, since no other reference to the map exists.
- `buttonsCreated` is left out, as it is UI state.
- The turn methods, `nextLevel` and `updateUI` dereference `this.player`,
  which throws when no player could be placed. The model makes the turn
  methods and `NextLevel` require a player. It does not model the exception.
  - In `init`, `render` ends by calling `updateUI`, which throws before
    `bindEvents` runs, so with no player the source attaches no handler.
    `Rogalik.Game.Init` and `Rogalik.Game.RestartGame` count the handler in
    every case.
- Rogalik.Game.GenerateMap: it states the kind of map produced (a `Dungeon`),
  and the connections and additional corridors as functions of their draws.
  It does not state which rooms particular draws produce, and it gives the
  draw where the connections start only as a point after the room rounds.
- Rogalik.Game.ConnectRooms: it states each extra connection as a corridor
  between two different rooms, or none, and counts the draws. It does not
  state which rooms particular draws pick; `Rogalik.Game.ConnectPair` states
  that exactly for one attempt.
- Rogalik.Game.PlaceRoom: it states the room kept as a generated room that
  overlaps none before it, not as the room particular draws give; the draws
  used are stated only as at most 200.
- Rogalik.Game.PlaceItems: it states the kind of stock and that it is apart,
  not the tiles particular draws give; each search is stated exactly by
  `Rogalik.Game.PlaceLoot`.
- Rogalik.Game.PlaceSwords: it states that the items are at most swordCount
  swords of this level's damage, placed apart, not the tiles particular draws
  give; the draws are stated only as a forward move of the counter.
- Rogalik.Game.PlacePotions: it states that potions of this level's healing
  are appended after the items already placed, at most healthPotionCount of
  them and placed apart, not the tiles particular draws give; the draws are
  stated only as a forward move of the counter.
- Rogalik.Game.PlaceEnemies: it states bounds and stats, not the tiles
  particular draws give; each search it makes is stated exactly by
  `Rogalik.Game.PlaceEnemy`.
- Rogalik.Game.Stock: like the placement methods it builds on, it states the
  result's properties (the counts, stats and separation of `Populated`, and a
  fresh player on floor or the old one), not the tiles the draws give.
- Rogalik.Game.Rebuild: it states a generated `Dungeon` stocked as by
  `Rogalik.Game.Stock`, not the rooms and tiles the draws give; the draws are
  stated only as a forward move of the counter.
- Rogalik.Game.Init: it states a generated `Dungeon` with 10 potions, 2 swords
  and 10 enemies placed as `Populated` says, a fresh player on floor or the
  old one, and one more handler; not the rooms and tiles the draws give.
- Rogalik.Game.RestartGame: it states level 1, score 0, a running game, a
  generated `Dungeon` stocked as for `init`, and any player a fresh one on
  floor; not the rooms and tiles the draws give.
- Rogalik.Game.NextLevel: it states the next level, the player levelled up by
  `Entities.LevelUp`, the counts of `Populated` for the new level, and floor
  under a player that moved; not the rooms and tiles the draws give.
- Rogalik.Game.KeyDown: each handler's effect is stated by
  `Rogalik.Game.HandleKey`. `KeyDown` states only soundness, the count of
  completions and that nothing changes once the game has stopped.
