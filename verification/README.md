# A verified model of the dungeon-generation core of tcod_tutorial_v2

tcod_tutorial_v2 is a roguelike built on python-tcod. Its core has six parts:

- depth-keyed difficulty curves: linear interpolation (`lerp.py`) and a piecewise-linear `SimpleCurve` (`simplecurve.py`);
- a procedural dungeon generator (`procgen.py`). It cuts rectangular rooms into a wall-filled map and joins them with L-shaped tunnels. It fills each room with monsters and items drawn from floor-dependent spawn tables, and puts the down stairs in the latest room;
- the firearm component (`components/firearm.py`): ammunition, bursts and a reload cooldown;
- entity arithmetic and the shooting loop of an actor (`entity.py`);
- the engine's target selection and explored-area bookkeeping (`engine.py`).

The model is written in Dafny, one module per concern:

| file | module | what it holds |
|---|---|---|
| `results.dfy` | `Results` | the error cases of the code (`EmptyCurve`, `DivisionByZero`, `EmptyPopulation`, `EmptyRange`, `NotInList`) and `Result`/`Option`/`Outcome` |
| `lerp.dfy` | `Lerp` | `clamp_01`, `lerp_01`, `lerp_xy` over exact reals |
| `simplecurve.dfy` | `Curves` | the sorted point list, curve evaluation as a function, and the `SimpleCurve` class whose `AddPoint` and `Call` methods are proved against it |
| `randomness.dfy` | `Randomness` | `random.randint` and `random.random` as functions of an explicit draw |
| `spawning.dfy` | `Spawning` | the spawn-curve constants, `get_max_value_for_floor`, and `get_entities_at_random` including the weighted choice of `random.choices` |
| `rooms.dfy` | `Rooms` | `RectangularRoom` geometry and `tunnel_between` |
| `dungeon.dfy` | `Dungeon`, `Generation` | the map as a class over a 2-D tile array, `place_entities`, and the `generate_dungeon` loop with its invariants |
| `firearm.dfy` | `Firearms` | `Cooldown`, `Firearm` and the three weapons |
| `entity.dfy` | `Entities` | `Entity`, `Actor.shoot` and the volley it fires |
| `engine.dfy` | `Engines` | `Engine.nextTarget`, `previousTarget` and the tail of `update_fov` |

Randomness is lifted out of the program. Every call of `random.randint`, `random.random` or `random.choices` reads a natural-number draw supplied by the caller:

- `randint(lo, hi)` is `lo + d % (hi - lo + 1)`, and an empty range raises;
- `random()` is `(d mod 2^53) / 2^53`;
- `choices` is CPython's bisection over cumulative weights.

So every property below holds for every outcome of the random generator.

Python floats become Dafny `real`s. `int()` becomes truncation toward zero. Exceptions the code can raise become `Err` results. These are:

- the empty-curve `Exception`;
- the `ZeroDivisionError` that `lerp_xy` raises inside curve evaluation, when the bracketing points share an x (reported by `Curves.Evaluate`);
- `ValueError` from `randint` on an empty range, and from `list.index`;
- `IndexError` from `choices` on an empty population.

## Model

| member | source | states |
|---|---|---|
| Lerp.Clamp01 | lerp.py:25-35 | the result lies in [0, 1], equals n inside [0, 1], is 0 below and 1 above |
| Lerp.Clamp01Idempotent | lerp.py:25-35 | clamping a clamped value changes nothing |
| Lerp.Lerp01 | lerp.py:10-22 | y1 for n <= 0, y2 for n >= 1, y1 + (y2 - y1) * n in between |
| Lerp.Lerp01Between | lerp.py:10-22 | the result lies between y1 and y2 whichever is larger |
| Lerp.LerpXY | lerp.py:38-54 | for x1 != x2 the result is on the line through (x1, y1) and (x2, y2): y1 at x1, y2 at x2 |
| Lerp.LerpXYUnique | lerp.py:53-54 | any value on that line at n is the result, so the line equation characterises lerp_xy |
| Lerp.LerpXYBetween | lerp.py:53-54 | for x1 < x2 and n in [x1, x2] the result lies between y1 and y2 (the orientation of every curve bracket) |
| Lerp.Lerp01IsLerpXY | lerp.py:10-22 | lerp_01(y1, y2, n) is lerp_xy(0, 1, y1, y2, clamp_01(n)) |
| Lerp.LerpXYExtrapolates | lerp.py:53-54 | outside [x1, x2] the code extrapolates: x1 - 35 gives -6904, not y1, and x2 + 91273 does not give y2 |
| Lerp.LerpXYClamped | test_lerp.py:31-39 | the clamped interpolation the tests expect: y1 at or beyond x1's side, y2 at or beyond x2's side |
| Lerp.LerpXYClampedAgrees | lerp.py:53-54 | between x1 and x2 the clamped and unclamped interpolations agree |
| Lerp.Clamp01TestVector | test_lerp.py:8-13 | the five clamp_01 test values |
| Lerp.Lerp01TestVectorLow | test_lerp.py:16-20 | lerp_01 at -129 and 0 gives y1 |
| Lerp.Lerp01TestVectorHigh | test_lerp.py:22-23 | lerp_01 at 1 and 18324.178 gives y2 |
| Lerp.Lerp01TestVectorInside | test_lerp.py:21 | lerp_01 at 0.25 is a quarter of the way |
| Lerp.LerpXYTestVector | test_lerp.py:26-39 | lerp_xy at x1, 22.3 and x2, and the clamped version at both out-of-range test inputs |
| Curves.InsertPoint | simplecurve.py:19-27 | add_point's append-then-stable-sort adds exactly the new point: one longer, multiset old + {p} |
| Curves.InsertPointAt | simplecurve.py:26-27 | the stable sort puts the new point after every point with x <= its x and before every larger one |
| Curves.InsertPointSorted | simplecurve.py:26-27 | inserting into a sorted list keeps it sorted by x, with equal x in insertion order |
| Curves.SortByX | simplecurve.py:27 | sorting by x gives a list sorted by x with the same multiset of points |
| Curves.SortByXSorted | simplecurve.py:27 | sorting an already sorted list changes nothing |
| Curves.InsertionOrderIrrelevant | simplecurve.py:26-27 | with distinct x-values the sorted points do not depend on the order the points were added |
| Curves.FirstAtLeast | simplecurve.py:56-58 | the bracketing scan stops at the first i >= 1 with n <= x_i, staying in bounds |
| Curves.EvaluateFails | simplecurve.py:44-63 | evaluation fails exactly on an empty curve, or with n equal to the first two x-values (division by zero) |
| Curves.EvaluateOutsideRange | simplecurve.py:47-53 | a single point gives its y everywhere; below the first x the first y, above the last x the last y |
| Curves.EvaluateBracket | simplecurve.py:55-63 | inside the range the result is lerp_xy over the bracketing points x_{i-1} <= n <= x_i and lies between their y-values |
| Curves.EvaluateAtControlPoint | simplecurve.py:56-63 | with increasing x-values the curve passes through every control point |
| Curves.EvaluateWithin | simplecurve.py:44-63 | the result lies within any bounds that hold all y-values |
| Curves.CurveTestVectorFirstTwo | test_simplecurve.py:22 | two added points in order stay in order |
| Curves.CurveTestVectorFirstThree | test_simplecurve.py:24 | adding (5, 10) puts it between the others |
| Curves.CurveTestVectorOrder | test_simplecurve.py:25-28 | the four test points end up ordered by x |
| Curves.CurveTestVectorEnds | test_simplecurve.py:30-38 | the test curve's values at -9999, 0, 5, 10, 100 and 9999 |
| Curves.CurveTestVectorBetween | test_simplecurve.py:32-36 | the test curve gives 5 at 2.5, 55 at 7.5 and 60 at 55 |
| Curves.CurveTestVectorSinglePoint | test_simplecurve.py:17-20 | a one-point curve gives 0 at -1, 0 and 1 |
| Curves.SimpleCurve.constructor | simplecurve.py:17 | a new curve has no points |
| Curves.SimpleCurve.AddPoint | simplecurve.py:19-27 | the points become the sorted insertion of p; they stay sorted, and the multiset gains exactly p |
| Curves.SimpleCurve.Call | simplecurve.py:29-63 | the loop-based evaluation returns exactly the curve's value, and the points are unchanged |
| Randomness.RandInt | procgen.py:146-147 | randint succeeds exactly when lo <= hi, with a value in [lo, hi]; otherwise it raises the empty-range error |
| Randomness.RandIntCovers | procgen.py:146-147 | every value in [lo, hi] is produced by some draw |
| Randomness.RandomReal | procgen.py:159 | random() lies in [0, 1) |
| Spawning.SortedAsAdded | procgen.py:18-75 | points added with increasing x are already in sorted order |
| Spawning.CurvesIncreasing | procgen.py:18-75 | every spawn curve constant has strictly increasing x-values |
| Spawning.CountCurvesAsAdded | procgen.py:18-25 | the item and monster count curves hold their points as added |
| Spawning.EnemyCurvesAsAdded | procgen.py:63-70 | the orc and troll curves hold their points as added |
| Spawning.ItemCurvesAsAdded | procgen.py:27-61 | each item curve holds its points as added |
| Spawning.TruncToInt | procgen.py:79 | int() truncates toward zero: floor for non-negative values, ceiling for negative ones |
| Spawning.MaxValueBounds | procgen.py:78-79 | the truncated curve value lies within any integer bounds that hold all y-values |
| Spawning.MaxMonstersBounds | procgen.py:131-133 | the monster maximum on any floor is between 2 and 5 |
| Spawning.MaxItemsBounds | procgen.py:134-136 | the item maximum on any floor is between 1 and 2 |
| Spawning.Eligible | procgen.py:85-92 | at most one entry per table entry, each with a positive chance |
| Spawning.EligibleAppend | procgen.py:88-92 | filtering a concatenated table filters each part in order |
| Spawning.EligibleSnoc | procgen.py:88-92 | one more table entry is appended exactly when its chance is positive |
| Spawning.EligibleMembers | procgen.py:88-92 | an (entity, weight) pair is kept exactly when some entry's curve gives that positive weight at the floor |
| Spawning.BisectRight | procgen.py:96 | the bisection returns the first index whose cumulative weight exceeds the value |
| Spawning.ChoiceIndex | procgen.py:96 | a weighted choice picks an index of the population |
| Spawning.BisectWindow | procgen.py:96 | the bisection picks j exactly when the value lies in j's window of the cumulative weights |
| Spawning.ChoiceIndexWindow | procgen.py:96 | random.choices picks j exactly when u * total lies in [sum of weights before j, that sum + w_j) |
| Spawning.Choices | procgen.py:96 | an empty population raises; otherwise k picks from the population |
| Spawning.EntitiesAtRandomSpec | procgen.py:82-98 | exactly count picks, each an entity whose chance is positive; an error exactly when a curve fails or nothing is eligible |
| Spawning.GetEntitiesAtRandom | procgen.py:82-98 | the loop that gathers entities and chances computes the specification |
| Spawning.EnemiesEligible | procgen.py:72-75 | the enemy table filters to orc and then troll, each present exactly when its weight is positive |
| Spawning.OrcWeight | procgen.py:63-64 | the orc weight is 80 on every floor |
| Spawning.EligibleOk | procgen.py:88-92 | a table whose every curve evaluates at the floor filters without raising |
| Spawning.EnemiesAlwaysEligible | procgen.py:63-75 | on every floor the enemy table filters without raising, and the orc, weighted 80, is eligible first |
| Spawning.ItemsAlwaysEligible | procgen.py:27-61 | on every floor the item table filters without raising, and the health potion, weighted 35, is eligible first |
| Spawning.EnemiesOnFloorOne | test_procgen.py:23-25 | on floor 1 only orcs are eligible, so every pick is an orc |
| Spawning.EnemiesOnFloorThree | test_procgen.py:27-31 | on floor 3 the weights are orc 80 and troll 15 |
| Spawning.EnemiesOnFloorFive | test_procgen.py:32-35 | on floor 5 the weights are orc 80 and troll 30 |
| Spawning.EnemiesOnFloorSeven | test_procgen.py:36-39 | on floor 7 the weights are orc 80 and troll 60 |
| Spawning.OrcOrTroll | test_procgen.py:27-39 | with weights 80 and w an orc is picked exactly when u * (80 + w) < 80, so in proportion 80 / (80 + w) |
| Rooms.NewRoom | procgen.py:101-106 | x2 = x + width and y2 = y + height; non-negative sizes give ordered corners |
| Rooms.HalfTowardZero | procgen.py:110-111 | int(s / 2) truncates toward zero |
| Rooms.Center | procgen.py:108-113 | the centre lies inside the room's rectangle |
| Rooms.CenterNonNegative | procgen.py:108-113 | for non-negative coordinates the centre is the floor of the midpoint |
| Rooms.InnerCells | procgen.py:115-118 | the inner slices cover exactly x1+1..x2-1 by y1+1..y2-1, off every wall |
| Rooms.IntersectsSymmetricReflexive | procgen.py:120-127 | intersects is symmetric, and every well-formed room intersects itself |
| Rooms.IntersectsIffCommonCell | procgen.py:120-127 | two rooms intersect exactly when their closed rectangles share a cell |
| Rooms.EdgeTouchingIntersects | procgen.py:120-127 | rooms that only share an edge intersect |
| Rooms.DisjointRooms | procgen.py:120-127 | rooms that do not intersect share no cell |
| Rooms.Run | procgen.py:167-170 | an axis-aligned line runs from a to b in unit steps inside their box, Manhattan + 1 cells long |
| Rooms.TunnelShape | procgen.py:153-170 | the tunnel starts and ends at its ends and passes the corner the coin picks, twice. All other steps are unit axis steps, and it stays in the ends' bounding box |
| Dungeon.SpawnFirstStep | procgen.py:145-150 | one spawn round draws x, then y, and spawns only on a cell free of the player and of every entity's cell (`CellsOf`, one cell per entity) |
| Dungeon.SpawnFirstSafe | procgen.py:145-150 | spawning keeps earlier entities, places each new one in the inner area and keeps cells distinct. It raises exactly when there is something to place and the inner area is empty on an axis |
| Dungeon.SpawnFirstFailSticks | procgen.py:145-150 | once a spawn round raises, the loop has raised |
| Dungeon.SpawnFirstOk | procgen.py:145-147 | when the inner area has a cell on both axes, the spawn loop never raises, whatever the draws |
| Dungeon.PlacementOfPicks | procgen.py:130-150 | placement is the spawn loop over monsters then items, or the error that picking them raised |
| Dungeon.PicksSpec | procgen.py:131-143 | picking never raises: on every floor at most 5 monsters, each eligible in the enemy table, and at most 2 items, each eligible in the item table |
| Dungeon.DrawPicks | procgen.py:131-143 | the method computes the picks that PicksSpec bounds: never an error, at most 5 eligible monsters and 2 eligible items |
| Dungeon.PlacementOk | procgen.py:128-150 | in a room at least 2 by 2, place_entities never raises on any floor, whatever the draws |
| Dungeon.PlacementSafe | procgen.py:130-150 | place_entities keeps existing entities, keeps cells distinct and places new ones in the inner area |
| Dungeon.GameMap.constructor | procgen.py:183 | a new map is all wall, holding only the player, with the stairs location (0, 0) |
| Dungeon.GameMap.CarveInner | procgen.py:205 | exactly the inner area becomes floor |
| Dungeon.GameMap.CarvePath | procgen.py:212-213 | exactly the tunnel's cells become floor |
| Dungeon.GameMap.SetStairs | procgen.py:219-220 | exactly the given cell becomes stairs, and it is recorded as the stairs location |
| Dungeon.GameMap.SpawnOne | procgen.py:145-150 | one round of the spawn loop is the round the placement describes: it raises exactly when the inner area is empty on an axis, and then no entity is added |
| Dungeon.GameMap.PlaceEntities | procgen.py:130-150 | the entities become the placement's result, or the error is reported and no entity was added. The player and stairs are untouched |
| Generation.InBoxInMap | procgen.py:212-213 | a tunnel between two cells of the map stays in the map |
| Generation.RoomsExtend | procgen.py:200-223 | accepting a room that meets no accepted room keeps the rooms pairwise disjoint and in the map |
| Generation.Candidate | procgen.py:190-197 | the candidate room has width and height in [room_min_size, room_max_size] and lies inside the map, or a draw from an empty range raised |
| Generation.CandidateOk | procgen.py:190-194 | with 2 <= room_min_size <= room_max_size < map width and height, no draw of an attempt raises |
| Generation.DrawCandidate | procgen.py:190-197 | the four draws of one attempt give the room Candidate describes, or its error |
| Generation.Accepted | procgen.py:199-223 | the greedy acceptance of the loop: never more rooms than candidates |
| Generation.AcceptedFirst | procgen.py:199-223 | the first candidate is always accepted and stays the first room |
| Generation.AcceptedGreedy | procgen.py:199-223 | accepted rooms are candidates and pairwise disjoint, and every candidate left out meets an accepted room |
| Generation.CenterOffCorner | procgen.py:108-118 | a room at least 2 by 2 with non-negative corners has its centre in its inner area, so never at (0, 0) |
| Generation.TunnelWalk | procgen.py:153-170 | a tunnel is a walk from one centre to the other |
| Generation.DigInner | procgen.py:204-209 | the new room's inner area is dug, nothing dug is filled, and the player stands at the first room's centre; the inner area of a room in the map never holds (0, 0), so that tile is left alone |
| Generation.DigTunnel | procgen.py:210-215 | the tunnel from the previous centre to the new one is dug, and nothing dug is filled; between centres off column 0 the tile at (0, 0) is left alone |
| Generation.DigRoom | procgen.py:204-215 | digging the room and its tunnel keeps every accepted room and tunnel dug, puts the player at the first room's centre and gives the stairs location the loop will write; between rooms at least 2 by 2 the tile at (0, 0) is left alone |
| Generation.DugOkGrows | procgen.py:204-215 | after digging, every accepted room and tunnel is dug out and each tunnel joins consecutive centres |
| Generation.Furnish | procgen.py:217 | new entities stand on dug ground, apart from each other and the player; on an error no entity was added |
| Generation.PlaceStairs | procgen.py:219-220 | the stairs tile is at the stairs location, and all dug ground stays dug; a location other than (0, 0) leaves that tile alone |
| Generation.AcceptRoom | procgen.py:204-223 | one accepted room keeps every invariant of the loop; it fails exactly when place_entities raises for that room, which never happens for a room at least 2 by 2; the stairs tile written at (0, 0) for the first room survives a later room |
| Generation.Admit | procgen.py:199-223 | accepting a room that is in the map and meets no accepted room keeps the accepted rooms pairwise disjoint and every invariant of the loop, and a room at least 2 by 2 is accepted without an error |
| Generation.Round | procgen.py:189-223 | one iteration draws the next candidate, skips it or accepts it, and keeps the rooms equal to Accepted of the candidates so far; with sizes that fit the map it never raises |
| Generation.GenerateDungeon | procgen.py:173-225 | with 2 <= room_min_size <= room_max_size < map width and height, generation succeeds for every draw; on success: the rooms are exactly Accepted of the max_rooms candidates drawn, so at least one room when max_rooms > 0 and the first candidate first; at most max_rooms rooms, each in the map and pairwise disjoint; all rooms and tunnels dug; the player at the first room's centre; entities apart and on floor; the stairs location (0, 0) until a second room, then the latest centre, holding the stairs tile; with rooms at least 2 by 2 that location is never (0, 0) and the tile at (0, 0) also holds stairs |
| Firearms.Cooldown.constructor | components/firearm.py:16-20 | a cooldown holds the given length, remaining turns and messages |
| Firearms.Cooldown.WithMessages | components/firearm.py:16-20 | the defaults: length 1, nothing remaining |
| Firearms.Firearm.constructor | components/firearm.py:26-39 | the magazine starts full at max_ammo; the ammo argument is ignored |
| Firearms.Firearm.CanShootIff | components/firearm.py:41-44 | a gun can shoot exactly when it has ammo and no cooldown is running |
| Firearms.Firearm.SkipTurn | components/firearm.py:46-57 | a running cooldown counts down by one and never below 0, otherwise nothing changes. The message for the remaining count is shown exactly when fewer turns remain than there are messages and the carrier is the player |
| Firearms.Shotgun | components/firearm.py:60-66 | damage 24, 16 shells, burst 1, with a pump cooldown |
| Firearms.Chaingun | components/firearm.py:69-71 | damage 16, 60 rounds, burst 3, no cooldown |
| Firearms.RocketLauncher | components/firearm.py:74-81 | damage 24, 8 rockets, radius 2, with a reload cooldown |
| Entities.Chebyshev | entity.py:78-82 | the distance is the larger of the two coordinate differences |
| Entities.ChebyshevMetric | entity.py:78-82 | the distance is 0 exactly at the same cell, symmetric, and obeys the triangle inequality |
| Entities.Entity.constructor | entity.py:31-48 | a new entity stands at the given coordinates |
| Entities.Entity.Distance | entity.py:78-82 | distance is non-negative, 0 exactly at the entity's own cell, and the larger coordinate difference |
| Entities.Entity.Move | entity.py:84-87 | the coordinates shift by (dx, dy) and nothing else changes |
| Entities.Entity.Place | entity.py:67-70 | the coordinates become (x, y) |
| Entities.Entity.Spawn | entity.py:58-65 | a fresh copy stands at (x, y); the original is unchanged |
| Entities.Actor.Shoot | entity.py:136-167 | without a firearm nothing happens; without a target or a ready gun only skip_turn runs. Otherwise min(burst, ammo) rounds are fired, ammo drops by that count and never below 0, and the cooldown restarts. The target loses the total damage only when it is positive, and the log reads "shoots" or "misses". Damage, burst, max_ammo, radius and the cooldown's length and messages are unchanged |
| Entities.Shots | entity.py:150 | the volley fires burst rounds unless the magazine runs out first |
| Entities.VolleyFailSticks | entity.py:152-154 | once a damage roll raises, the volley has raised |
| Entities.VolleyBounds | entity.py:152-154 | with non-negative damage the total lies in [0, rounds * damage]; it is at least damage // 2 once a round hits, and 0 when none does |
| Entities.VolleyTotal | entity.py:154 | with damage of -1 or more the damage roll never raises |
| Engines.IndexOf | engine.py:65 | list.index finds the first occurrence, and raises exactly when the target is absent |
| Engines.IndexOfDistinct | engine.py:65 | in a list without repeats the index of the i-th element is i |
| Engines.NextOf | engine.py:63-67 | without a target or with fewer than two targets nothing changes; otherwise the new target is listed and, with distinct targets, different |
| Engines.PreviousOf | engine.py:69-72 | without a target or with fewer than two targets nothing changes; otherwise the new target is listed, the first target stepping back to the last through Python's index -1 (`PyIndex`) |
| Engines.PreviousAfterNext | engine.py:63-72 | with distinct targets, previousTarget after nextTarget restores the target |
| Engines.NextAfterPrevious | engine.py:63-72 | with distinct targets, nextTarget after previousTarget restores the target |
| Engines.Retarget | engine.py:53-61 | the target is None or listed, None exactly when nothing is listed. A listed hostile target is kept; otherwise the first listed target is taken |
| Engines.Engine.constructor | engine.py:30-31 | a new engine has no target and no targets |
| Engines.Engine.NextTarget | engine.py:63-67 | the target moves to the next one, wrapping, or the index error is reported |
| Engines.Engine.PreviousTarget | engine.py:69-72 | the target moves to the previous one, wrapping from the first to the last, or the index error is reported |
| Engines.Engine.UpdateFov | engine.py:41-61 | explored becomes old explored OR visible, tile by tile; the targets become the visible targets; the target is re-selected |

Generation leaves a second stairs tile behind. For the first room `center_of_last_room` is still (0, 0), so procgen.py:219-220 writes stairs at (0, 0) (`Generation.AcceptRoom`). Later rooms move the stairs location to their own centre, but nothing ever turns (0, 0) back into wall or floor. With room_min_size >= 2 every room's centre lies in its inner area, so no later room or tunnel digs over (0, 0). `Generation.GenerateDungeon` states that the finished map keeps stairs at (0, 0) beside the recorded stairs location.

## Left out

- `tcod.map.compute_fov` is a foreign call. The visible array is an input of `Engines.Engine.UpdateFov`.
- `tcod.los.bresenham` is modelled only for the axis-aligned lines that tunnels use (`Rooms.Run`).
- Randomness is an input. The model assumes that each randint or random call reads its own draw; the order in which CPython consumes its state is not modelled. The statistical ratios of the spawn tests are stated as exact weight windows (`Spawning.OrcOrTroll`), not as frequencies.
- IEEE floating point: reals are exact. CPython's 53-bit `random()` is modelled as `(d mod 2^53) / 2^53`.
- Message-log rendering, `render`, `save_as` (lzma and pickle), and the AI dispatch in `handle_enemy_turns` are I/O or live in files outside this model.
- game_map.py is not part of this model. The map is reduced to what generation touches: a tile array of wall, floor and stairs, the entities, the player cell and the stairs location. The player is a separate cell rather than a member of the entity set; the occupancy check of `place_entities` tests both.
- Entities on the generated map are a sequence in spawn order rather than a set.
- `deepcopy` in `spawn`, and the parent re-linking in `place`, are not modelled: the clone is a new entity with the same name.
- The component object graph is not modelled. `Actor` holds its firearm directly, and "the weapon is carried by the player" is a boolean input of `SkipTurn` and `Shoot`.
- fighter.py is not part of this model. `hp` is a plain field, so the clamping and death handling of its setter are not modelled.
- entity_curves.py duplicates the spawn curves of procgen.py and is covered by them. point2d.py becomes the `Point` datatype.
- Generation.GenerateDungeon: requires a non-negative minimum room size. Negative widths would make Python slices with negative indices wrap around the map, which is not modelled.
- Generation.GenerateDungeon: which rooms are accepted is stated exactly (`Generation.Accepted`), but the tiles and entities of the generated map are stated through the loop invariants, not as a full function of the draws.
- Lerp.LerpXY: requires x1 != x2; the `ZeroDivisionError` is modelled at its only caller, `Curves.Evaluate`, which returns `Err(DivisionByZero)` before calling it.
- Entities.Actor.Shoot: when a damage roll raises part-way through a volley, the state left by the earlier rounds is not stated.
- Curves.InsertionOrderIrrelevant: proved for curves with distinct x-values; with repeated x the stable sort keeps insertion order and the order does matter.

## Findings

| source | as written | input that shows it | evidently intended | confidence | as-written member | corrected member |
|---|---|---|---|---|---|---|
| lerp.py:53-54 | lerp_xy extrapolates along the line for n outside [x1, x2] | x1 = 10, x2 = 35, y1 = 40, y2 = 5000, n = -25 gives -6904 where test_lerp.py:31 expects 40; n = 91308 does not give 5000, which test_lerp.py:39 expects | clamp to y1 before x1 and to y2 beyond x2, as the tests state | not executed | Lerp.LerpXYExtrapolates | Lerp.LerpXYClamped |

The curve evaluation calls `lerp_xy` only with n between the bracketing x-values. There the two definitions agree (`Lerp.LerpXYClampedAgrees`), so curves behave the same under either.
