/** The dungeon generator: the game map it fills, entity placement, and the
    room-by-room generation loop (procgen.py). */
module Dungeon {
  import opened Results
  import opened Rooms
  import opened Randomness
  import opened Spawning

  /** The tile kinds the generator writes. */
  datatype Tile = Wall | Floor | DownStairs

  /** An entity spawned on the map: the template it was copied from and its
      cell. */
  datatype Placed = Placed(template: Template, cell: Cell)

  /** The draws one call of place_entities reads: the two counts, the picks of
      each random.choices call, and an (x, y) pair per entity placed. */
  datatype PlacementDraws = PlacementDraws(
    monsterCount: nat, itemCount: nat,
    monsterPicks: seq<nat>, itemPicks: seq<nat>,
    cells: seq<(nat, nat)>)

  /** The draws one iteration of generate_dungeon reads. */
  datatype Attempt = Attempt(
    width: nat, height: nat, x: nat, y: nat, coin: nat, placement: PlacementDraws)

  /** The attempt of iteration i, or all-zero draws when the supplied ones run
      out. */
  function AttemptAt(attempts: seq<Attempt>, i: nat): Attempt {
    if i < |attempts| then attempts[i]
    else Attempt(0, 0, 0, 0, 0, PlacementDraws(0, 0, [], [], []))
  }

  function CellDraw(cells: seq<(nat, nat)>, i: nat): (nat, nat) {
    if i < |cells| then cells[i] else (0, 0)
  }

  function CellsOf(es: seq<Placed>): (cs: seq<Cell>)
    ensures |cs| == |es|
    ensures forall i :: 0 <= i < |es| ==> cs[i] == es[i].cell
  {
    seq(|es|, i requires 0 <= i < |es| => es[i].cell)
  }

  /** No two entities, the player included, share a cell. */
  predicate Separated(player: Cell, es: seq<Placed>) {
    && (forall i :: 0 <= i < |es| ==> es[i].cell != player)
    && (forall i, j :: 0 <= i < j < |es| ==> es[i].cell != es[j].cell)
  }

  /** The entities on the map after the spawn loop of place_entities has
      handled the first n templates of ts: each draws a cell of the room's
      inner area and is spawned there unless an entity (or the player) is
      already on it. */
  function SpawnFirst(room: Room, player: Cell, es: seq<Placed>, ts: seq<Template>, cells: seq<(nat, nat)>, n: nat): Result<seq<Placed>>
    requires n <= |ts|
  {
    if n == 0 then Ok(es)
    else
      var prev :- SpawnFirst(room, player, es, ts, cells, n - 1);
      var x :- RandInt(room.x1 + 1, room.x2 - 1, CellDraw(cells, n - 1).0);
      var y :- RandInt(room.y1 + 1, room.y2 - 1, CellDraw(cells, n - 1).1);
      var c := Cell(x, y);
      if c == player || c in CellsOf(prev) then Ok(prev) else Ok(prev + [Placed(ts[n - 1], c)])
  }

  /** One more round of the spawn loop, given the entities so far. */
  lemma SpawnFirstStep(room: Room, player: Cell, es: seq<Placed>, ts: seq<Template>, cells: seq<(nat, nat)>, n: nat, prev: seq<Placed>)
    requires n < |ts| && SpawnFirst(room, player, es, ts, cells, n) == Ok(prev)
    ensures var x := RandInt(room.x1 + 1, room.x2 - 1, CellDraw(cells, n).0);
      var y := RandInt(room.y1 + 1, room.y2 - 1, CellDraw(cells, n).1);
      SpawnFirst(room, player, es, ts, cells, n + 1) ==
        if x.Err? then Err(x.error)
        else if y.Err? then Err(y.error)
        else if Cell(x.value, y.value) == player || Cell(x.value, y.value) in CellsOf(prev) then Ok(prev)
        else Ok(prev + [Placed(ts[n], Cell(x.value, y.value))])
  {
  }

  /** Spawning keeps every earlier entity, adds at most one per template, puts
      each new one in the room's inner area, and keeps all cells distinct; it
      fails exactly when there is something to place and the inner area is
      empty along an axis. */
  lemma {:induction false} SpawnFirstSafe(room: Room, player: Cell, es: seq<Placed>, ts: seq<Template>, cells: seq<(nat, nat)>, n: nat)
    requires n <= |ts|
    requires Separated(player, es)
    ensures var r := SpawnFirst(room, player, es, ts, cells, n);
      && (r.Err? <==> 0 < n && (room.x2 - 1 < room.x1 + 1 || room.y2 - 1 < room.y1 + 1))
      && (r.Ok? ==> |es| <= |r.value| <= |es| + n && r.value[..|es|] == es)
      && (r.Ok? ==> Separated(player, r.value))
      && (r.Ok? ==> forall i :: |es| <= i < |r.value| ==> InInner(room, r.value[i].cell))
  {
    if n > 0 {
      SpawnFirstSafe(room, player, es, ts, cells, n - 1);
      var prev := SpawnFirst(room, player, es, ts, cells, n - 1);
      if prev.Ok? {
        var x := RandInt(room.x1 + 1, room.x2 - 1, CellDraw(cells, n - 1).0);
        var y := RandInt(room.y1 + 1, room.y2 - 1, CellDraw(cells, n - 1).1);
        if x.Ok? && y.Ok? {
          var c := Cell(x.value, y.value);
          InnerCells(room, c);
          if !(c == player || c in CellsOf(prev.value)) {
            var next := prev.value + [Placed(ts[n - 1], c)];
            assert next[..|es|] == prev.value[..|es|];
            forall i | 0 <= i < |prev.value| ensures next[i].cell != c {
              assert CellsOf(prev.value)[i] == prev.value[i].cell;
            }
          }
        }
      }
    }
  }

  /** The monsters and the items place_entities spawns: the two counts are
      drawn up to the floor's maxima, then each list is picked from its spawn
      table. */
  function Picks(floor: int, d: PlacementDraws): Result<(seq<Template>, seq<Template>)> {
    var maxMonsters :- GetMaxValueForFloor(MaxMonstersByFloor, floor);
    var numberOfMonsters :- RandInt(0, maxMonsters, d.monsterCount);
    var maxItems :- GetMaxValueForFloor(MaxItemsByFloor, floor);
    var numberOfItems :- RandInt(0, maxItems, d.itemCount);
    var monsters :- EntitiesAtRandom(EnemyChances, numberOfMonsters, floor, d.monsterPicks);
    var items :- EntitiesAtRandom(ItemCurvesByFloor, numberOfItems, floor, d.itemPicks);
    Ok((monsters, items))
  }

  /** Picking never raises: on every floor at most five monsters, each an
      enemy eligible there, and at most two items, each an item eligible
      there, are picked. */
  lemma PicksSpec(floor: int, d: PlacementDraws)
    ensures Eligible(EnemyChances, floor).Ok? && Eligible(ItemCurvesByFloor, floor).Ok?
    ensures var r := Picks(floor, d);
      && r.Ok?
      && |r.value.0| <= 5 && |r.value.1| <= 2
      && (forall j :: 0 <= j < |r.value.0| ==> r.value.0[j] in Names(Eligible(EnemyChances, floor).value))
      && (forall j :: 0 <= j < |r.value.1| ==> r.value.1[j] in Names(Eligible(ItemCurvesByFloor, floor).value))
  {
    MaxMonstersBounds(floor);
    MaxItemsBounds(floor);
    EnemiesAlwaysEligible(floor);
    ItemsAlwaysEligible(floor);
    var maxMonsters := GetMaxValueForFloor(MaxMonstersByFloor, floor).value;
    var maxItems := GetMaxValueForFloor(MaxItemsByFloor, floor).value;
    var numberOfMonsters := RandInt(0, maxMonsters, d.monsterCount).value;
    var numberOfItems := RandInt(0, maxItems, d.itemCount).value;
    EntitiesAtRandomSpec(EnemyChances, numberOfMonsters, floor, d.monsterPicks);
    EntitiesAtRandomSpec(ItemCurvesByFloor, numberOfItems, floor, d.itemPicks);
  }

  /** The templates in spawn order: monsters first, then items. */
  function Spawned(p: (seq<Template>, seq<Template>)): seq<Template> {
    p.0 + p.1
  }

  /** place_entities as a value: the picks, then the spawn loop over them. */
  function Placement(room: Room, floor: int, player: Cell, es: seq<Placed>, d: PlacementDraws): Result<seq<Placed>> {
    var p :- Picks(floor, d);
    SpawnFirst(room, player, es, Spawned(p), d.cells, |Spawned(p)|)
  }

  /** Placement in terms of its picks. */
  lemma PlacementOfPicks(room: Room, floor: int, player: Cell, es: seq<Placed>, d: PlacementDraws)
    ensures Picks(floor, d).Err? ==> Placement(room, floor, player, es, d) == Err(Picks(floor, d).error)
    ensures Picks(floor, d).Ok? ==>
      var ts := Spawned(Picks(floor, d).value);
      Placement(room, floor, player, es, d) == SpawnFirst(room, player, es, ts, d.cells, |ts|)
  {
  }

  /** The first half of place_entities: the counts and the weighted picks. */
  method DrawPicks(floor: int, d: PlacementDraws) returns (r: Result<(seq<Template>, seq<Template>)>)
    ensures r == Picks(floor, d)
  {
    var maxMonsters := GetMaxValueForFloor(MaxMonstersByFloor, floor);
    if maxMonsters.Err? { return Err(maxMonsters.error); }
    var numberOfMonsters := RandInt(0, maxMonsters.value, d.monsterCount);
    if numberOfMonsters.Err? { return Err(numberOfMonsters.error); }
    var maxItems := GetMaxValueForFloor(MaxItemsByFloor, floor);
    if maxItems.Err? { return Err(maxItems.error); }
    var numberOfItems := RandInt(0, maxItems.value, d.itemCount);
    if numberOfItems.Err? { return Err(numberOfItems.error); }
    var monsters := GetEntitiesAtRandom(EnemyChances, numberOfMonsters.value, floor, d.monsterPicks);
    if monsters.Err? { return Err(monsters.error); }
    var items := GetEntitiesAtRandom(ItemCurvesByFloor, numberOfItems.value, floor, d.itemPicks);
    if items.Err? { return Err(items.error); }
    r := Ok((monsters.value, items.value));
  }

  /** place_entities keeps the entities already there, keeps all cells
      distinct, and puts every new entity in the room's inner area. */
  lemma PlacementSafe(room: Room, floor: int, player: Cell, es: seq<Placed>, d: PlacementDraws)
    requires Separated(player, es)
    ensures var r := Placement(room, floor, player, es, d);
      && (r.Ok? ==> |es| <= |r.value| && r.value[..|es|] == es)
      && (r.Ok? ==> Separated(player, r.value))
      && (r.Ok? ==> forall i :: |es| <= i < |r.value| ==> InInner(room, r.value[i].cell))
  {
    PlacementOfPicks(room, floor, player, es, d);
    var picks := Picks(floor, d);
    if picks.Ok? {
      SpawnFirstSafe(room, player, es, Spawned(picks.value), d.cells, |Spawned(picks.value)|);
    }
  }

  /** The spawn loop raises nothing when the room's inner area has a cell
      on both axes. */
  lemma {:induction false} SpawnFirstOk(room: Room, player: Cell, es: seq<Placed>, ts: seq<Template>, cells: seq<(nat, nat)>, n: nat)
    requires n <= |ts|
    requires room.x1 + 1 <= room.x2 - 1 && room.y1 + 1 <= room.y2 - 1
    ensures SpawnFirst(room, player, es, ts, cells, n).Ok?
  {
    if 0 < n {
      SpawnFirstOk(room, player, es, ts, cells, n - 1);
    }
  }

  /** place_entities raises nothing in a room at least two cells wide and
      two high: picking never raises, and every spawn draw has a range. */
  lemma PlacementOk(room: Room, floor: int, player: Cell, es: seq<Placed>, d: PlacementDraws)
    requires 2 <= room.x2 - room.x1 && 2 <= room.y2 - room.y1
    ensures Placement(room, floor, player, es, d).Ok?
  {
    PicksSpec(floor, d);
    PlacementOfPicks(room, floor, player, es, d);
    var ts := Spawned(Picks(floor, d).value);
    SpawnFirstOk(room, player, es, ts, d.cells, |ts|);
  }

  /** The generator's map: a width by height grid of tiles, the spawned
      entities, the player's cell and the stairs location. */
  class GameMap {
    const width: int
    const height: int
    const tiles: array2<Tile>
    var entities: seq<Placed>
    var player: Cell
    var downstairsLocation: Cell

    ghost predicate Valid() {
      0 <= width && 0 <= height && tiles.Length0 == width && tiles.Length1 == height
    }

    predicate InMap(c: Cell) {
      0 <= c.x < width && 0 <= c.y < height
    }

    /** The tile at c has been dug out: floor or stairs. */
    ghost predicate Dug(c: Cell) reads tiles
      requires Valid()
    {
      InMap(c) && tiles[c.x, c.y] != Wall
    }

    /** A map of solid wall holding only the player; the stairs location
        starts at (0, 0). */
    constructor (width: nat, height: nat, player: Cell)
      ensures Valid() && fresh(tiles)
      ensures this.width == width && this.height == height
      ensures entities == [] && this.player == player && downstairsLocation == Cell(0, 0)
      ensures forall x, y :: 0 <= x < width && 0 <= y < height ==> tiles[x, y] == Wall
    {
      this.width := width;
      this.height := height;
      tiles := new Tile[width, height]((x, y) => Wall);
      entities := [];
      this.player := player;
      downstairsLocation := Cell(0, 0);
    }

    /** tiles[room.inner] = floor: every cell of the inner area becomes floor
        and every other tile keeps its kind. */
    method CarveInner(room: Room)
      requires Valid()
      requires 0 <= room.x1 && room.x2 <= width && 0 <= room.y1 && room.y2 <= height
      modifies tiles
      ensures forall x, y :: 0 <= x < width && 0 <= y < height ==>
        tiles[x, y] == if InInner(room, Cell(x, y)) then Floor else old(tiles[x, y])
    {
      var x := room.x1 + 1;
      while x < room.x2
        invariant room.x1 + 1 <= x || room.x2 <= x
        invariant x <= room.x2 || x == room.x1 + 1
        invariant forall a, b :: 0 <= a < width && 0 <= b < height ==>
          tiles[a, b] == if room.x1 + 1 <= a < x && InInner(room, Cell(a, b)) then Floor else old(tiles[a, b])
      {
        var y := room.y1 + 1;
        while y < room.y2
          invariant room.y1 + 1 <= y || room.y2 <= y
          invariant y <= room.y2 || y == room.y1 + 1
          invariant forall a, b :: 0 <= a < width && 0 <= b < height ==>
            tiles[a, b] == if (room.x1 + 1 <= a < x || (a == x && room.y1 + 1 <= b < y)) && InInner(room, Cell(a, b)) then Floor else old(tiles[a, b])
        {
          tiles[x, y] := Floor;
          y := y + 1;
        }
        x := x + 1;
      }
    }

    /** Digs every cell of a path out as floor; every other tile keeps its
        kind. */
    method CarvePath(path: seq<Cell>)
      requires Valid()
      requires forall i :: 0 <= i < |path| ==> InMap(path[i])
      modifies tiles
      ensures forall x, y :: 0 <= x < width && 0 <= y < height ==>
        tiles[x, y] == if Cell(x, y) in path then Floor else old(tiles[x, y])
    {
      var i := 0;
      while i < |path|
        invariant i <= |path|
        invariant forall x, y :: 0 <= x < width && 0 <= y < height ==>
          tiles[x, y] == if Cell(x, y) in path[..i] then Floor else old(tiles[x, y])
      {
        tiles[path[i].x, path[i].y] := Floor;
        assert path[..i + 1] == path[..i] + [path[i]];
        i := i + 1;
      }
      assert path[..i] == path;
    }

    /** Writes the stairs tile at c and records c as the stairs location. */
    method SetStairs(c: Cell)
      requires Valid() && InMap(c)
      modifies this, tiles
      ensures entities == old(entities) && player == old(player) && downstairsLocation == c
      ensures forall x, y :: 0 <= x < width && 0 <= y < height ==>
        tiles[x, y] == if Cell(x, y) == c then DownStairs else old(tiles[x, y])
    {
      tiles[c.x, c.y] := DownStairs;
      downstairsLocation := c;
    }

    /** place_entities: draws how many monsters and items to place, picks
        them from the spawn tables, and spawns each on a free cell of the
        room's inner area. */
    method PlaceEntities(room: Room, floor: int, d: PlacementDraws) returns (outcome: Outcome)
      modifies this
      ensures player == old(player) && downstairsLocation == old(downstairsLocation)
      ensures outcome.Pass? <==> Placement(room, floor, player, old(entities), d).Ok?
      ensures outcome.Pass? ==> entities == Placement(room, floor, player, old(entities), d).value
      ensures outcome.Fail? ==> Placement(room, floor, player, old(entities), d) == Err(outcome.error)
      ensures outcome.Fail? ==> entities == old(entities)
    {
      var picks := DrawPicks(floor, d);
      PlacementOfPicks(room, floor, player, entities, d);
      if picks.Err? { return Fail(picks.error); }
      var ts := Spawned(picks.value);
      ghost var before := entities;
      var i := 0;
      while i < |ts|
        invariant i <= |ts|
        invariant SpawnFirst(room, player, before, ts, d.cells, i) == Ok(entities)
        invariant player == old(player) && downstairsLocation == old(downstairsLocation)
        invariant 0 < i ==> room.x1 + 1 <= room.x2 - 1 && room.y1 + 1 <= room.y2 - 1
      {
        var step := SpawnOne(room, before, ts, d.cells, i);
        if step.Fail? {
          SpawnFirstFailSticks(room, player, before, ts, d.cells, i + 1, |ts|);
          return step;
        }
        i := i + 1;
      }
      outcome := Pass;
    }

    /** One round of the spawn loop: draws a cell of the room's inner area
        and spawns the next template there unless the cell is taken; it
        raises, leaving the entities as they were, when the inner area is
        empty along an axis. */
    method SpawnOne(room: Room, ghost es: seq<Placed>, ts: seq<Template>, cells: seq<(nat, nat)>, i: nat) returns (outcome: Outcome)
      requires i < |ts| && SpawnFirst(room, player, es, ts, cells, i) == Ok(entities)
      modifies this
      ensures player == old(player) && downstairsLocation == old(downstairsLocation)
      ensures outcome.Pass? <==> room.x1 + 1 <= room.x2 - 1 && room.y1 + 1 <= room.y2 - 1
      ensures outcome.Pass? ==> SpawnFirst(room, player, es, ts, cells, i + 1) == Ok(entities)
      ensures outcome.Fail? ==> SpawnFirst(room, player, es, ts, cells, i + 1) == Err(outcome.error) && entities == old(entities)
    {
      SpawnFirstStep(room, player, es, ts, cells, i, entities);
      var x := RandInt(room.x1 + 1, room.x2 - 1, CellDraw(cells, i).0);
      if x.Err? { return Fail(x.error); }
      var y := RandInt(room.y1 + 1, room.y2 - 1, CellDraw(cells, i).1);
      if y.Err? { return Fail(y.error); }
      var c := Cell(x.value, y.value);
      if !(c == player || c in CellsOf(entities)) {
        entities := entities + [Placed(ts[i], c)];
      }
      outcome := Pass;
    }
  }

  /** Once the spawn loop has raised, it has raised for good. */
  lemma {:induction false} SpawnFirstFailSticks(room: Room, player: Cell, es: seq<Placed>, ts: seq<Template>, cells: seq<(nat, nat)>, n: nat, m: nat)
    requires n <= m <= |ts|
    requires SpawnFirst(room, player, es, ts, cells, n).Err?
    ensures SpawnFirst(room, player, es, ts, cells, m) == SpawnFirst(room, player, es, ts, cells, n)
    decreases m - n
  {
    if n < m {
      SpawnFirstFailSticks(room, player, es, ts, cells, n, m - 1);
    }
  }
}

/** The room-by-room generation loop. */
module Generation {
  import opened Results
  import opened Rooms
  import opened Randomness
  import opened Dungeon

  /** The room lies inside the map, corners in order. */
  predicate RoomInMap(r: Room, width: int, height: int) {
    0 <= r.x1 <= r.x2 <= width - 1 && 0 <= r.y1 <= r.y2 <= height - 1
  }

  /** No two accepted rooms intersect. */
  predicate PairwiseDisjoint(rooms: seq<Room>) {
    forall a, b :: 0 <= a < b < |rooms| ==> !Intersects(rooms[a], rooms[b])
  }

  /** The stairs location after these rooms were accepted: (0, 0) until a
      second room is, then the centre of the latest one. */
  function StairsAfter(rooms: seq<Room>): Cell {
    if |rooms| <= 1 then Cell(0, 0) else Center(rooms[|rooms| - 1])
  }

  /** A walk along which each step moves to an adjacent cell or stays put. */
  predicate Walk(t: seq<Cell>) {
    forall i :: 0 < i < |t| ==> t[i - 1] == t[i] || UnitStep(t[i - 1], t[i])
  }

  /** The room is at least two cells wide and two high, so its inner area
      has a cell on both axes. */
  predicate Roomy(r: Room) {
    2 <= r.x2 - r.x1 && 2 <= r.y2 - r.y1
  }

  /** The centre of such a room lies strictly inside it, so off the map's
      first row and column. */
  lemma CenterOffCorner(r: Room)
    requires Roomy(r) && 0 <= r.x1 && 0 <= r.y1
    ensures r.x1 + 1 <= Center(r).x <= r.x2 - 1 && r.y1 + 1 <= Center(r).y <= r.y2 - 1
  {
  }

  /** The room facts generate_dungeon keeps: inside the map, pairwise
      disjoint, and no more than the attempts made. */
  predicate RoomsOk(rooms: seq<Room>, width: int, height: int) {
    && (forall k :: 0 <= k < |rooms| ==> RoomInMap(rooms[k], width, height))
    && PairwiseDisjoint(rooms)
  }

  /** The dug-out facts: every accepted room's inner area and every tunnel
      is dug out, and each tunnel is a walk from the centre of one room to
      the centre of the next. */
  ghost predicate DugOk(m: GameMap, rooms: seq<Room>, tunnels: seq<seq<Cell>>)
    reads m.tiles
    requires m.Valid()
  {
    && (forall k, c :: 0 <= k < |rooms| && InInner(rooms[k], c) ==> m.Dug(c))
    && |tunnels| == (if |rooms| == 0 then 0 else |rooms| - 1)
    && (forall k :: 0 <= k < |tunnels| ==>
          && 0 < |tunnels[k]|
          && tunnels[k][0] == Center(rooms[k])
          && tunnels[k][|tunnels[k]| - 1] == Center(rooms[k + 1])
          && Walk(tunnels[k]))
    && (forall k, i :: 0 <= k < |tunnels| && 0 <= i < |tunnels[k]| ==> m.Dug(tunnels[k][i]))
  }

  /** The stairs location holds the stairs tile once a room has been
      accepted. */
  ghost predicate StairsOk(m: GameMap, rooms: seq<Room>)
    reads m, m.tiles
    requires m.Valid()
  {
    0 < |rooms| ==> m.InMap(m.downstairsLocation) && m.tiles[m.downstairsLocation.x, m.downstairsLocation.y] == DownStairs
  }

  /** The tile facts generate_dungeon keeps. */
  ghost predicate TilesOk(m: GameMap, rooms: seq<Room>, tunnels: seq<seq<Cell>>)
    reads m, m.tiles
    requires m.Valid()
  {
    DugOk(m, rooms, tunnels) && StairsOk(m, rooms)
  }

  /** The placement facts: the player stands at the first room's centre, no
      two entities share a cell, and every entity stands on dug-out ground. */
  ghost predicate EntitiesOk(m: GameMap, rooms: seq<Room>, playerStart: Cell)
    reads m, m.tiles
    requires m.Valid()
  {
    && m.player == (if |rooms| == 0 then playerStart else Center(rooms[0]))
    && m.downstairsLocation == StairsAfter(rooms)
    && Separated(m.player, m.entities)
    && (forall j :: 0 <= j < |m.entities| ==> m.Dug(m.entities[j].cell))
  }

  /** A cell between two cells of the map is in the map. */
  lemma InBoxInMap(m: GameMap, c: Cell, a: Cell, b: Cell)
    requires m.InMap(a) && m.InMap(b) && InBox(c, a, b)
    ensures m.InMap(c)
  {
  }

  /** Accepting a room that lies in the map and meets none of the accepted
      rooms keeps the rooms in the map and pairwise disjoint. */
  lemma RoomsExtend(rooms: seq<Room>, newRoom: Room, width: int, height: int)
    requires RoomsOk(rooms, width, height) && RoomInMap(newRoom, width, height)
    requires forall k :: 0 <= k < |rooms| ==> !Intersects(newRoom, rooms[k])
    ensures RoomsOk(rooms + [newRoom], width, height)
  {
    var rs := rooms + [newRoom];
    forall a, b | 0 <= a < b < |rs| ensures !Intersects(rs[a], rs[b]) {
      if b == |rooms| {
        IntersectsSymmetricReflexive(newRoom, rooms[a]);
      }
    }
  }

  /** The candidate room an attempt's draws describe: a width and a height
      in [roomMinSize, roomMaxSize], then a corner that keeps the room inside
      the map; a draw from an empty range raises. */
  function Candidate(a: Attempt, roomMinSize: int, roomMaxSize: int, mapWidth: int, mapHeight: int): (r: Result<Room>)
    ensures r.Ok? ==> roomMinSize <= r.value.x2 - r.value.x1 <= roomMaxSize
    ensures r.Ok? ==> roomMinSize <= r.value.y2 - r.value.y1 <= roomMaxSize
    ensures r.Ok? ==> 0 <= r.value.x1 && r.value.x2 <= mapWidth - 1 && 0 <= r.value.y1 && r.value.y2 <= mapHeight - 1
  {
    var roomWidth := RandInt(roomMinSize, roomMaxSize, a.width);
    if roomWidth.Err? then Err(roomWidth.error)
    else
      // The height is drawn from the same range, so it cannot raise here.
      var roomHeight := RandInt(roomMinSize, roomMaxSize, a.height).value;
      var x := RandInt(0, mapWidth - roomWidth.value - 1, a.x);
      var y := RandInt(0, mapHeight - roomHeight - 1, a.y);
      if x.Err? then Err(x.error)
      else if y.Err? then Err(y.error)
      else Ok(NewRoom(x.value, y.value, roomWidth.value, roomHeight))
  }

  /** With 2 <= room_min_size <= room_max_size and the largest room
      narrower and lower than the map, every candidate draw has a range. */
  lemma CandidateOk(a: Attempt, roomMinSize: int, roomMaxSize: int, mapWidth: int, mapHeight: int)
    requires 2 <= roomMinSize <= roomMaxSize && roomMaxSize < mapWidth && roomMaxSize < mapHeight
    ensures Candidate(a, roomMinSize, roomMaxSize, mapWidth, mapHeight).Ok?
  {
  }

  /** The four draws of one attempt, in the order the loop makes them. */
  method DrawCandidate(a: Attempt, roomMinSize: int, roomMaxSize: int, mapWidth: int, mapHeight: int) returns (r: Result<Room>)
    ensures r == Candidate(a, roomMinSize, roomMaxSize, mapWidth, mapHeight)
  {
    var roomWidth := RandInt(roomMinSize, roomMaxSize, a.width);
    if roomWidth.Err? { return Err(roomWidth.error); }
    var roomHeight := RandInt(roomMinSize, roomMaxSize, a.height).value;
    var x := RandInt(0, mapWidth - roomWidth.value - 1, a.x);
    if x.Err? { return Err(x.error); }
    var y := RandInt(0, mapHeight - roomHeight - 1, a.y);
    if y.Err? { return Err(y.error); }
    r := Ok(NewRoom(x.value, y.value, roomWidth.value, roomHeight));
  }

  /** Recording one more candidate keeps the record of the draws. */
  lemma CandidatesExtend(attempts: seq<Attempt>, candidates: seq<Room>, c: Room,
                         roomMinSize: int, roomMaxSize: int, mapWidth: int, mapHeight: int)
    requires forall j :: 0 <= j < |candidates| ==>
      Candidate(AttemptAt(attempts, j), roomMinSize, roomMaxSize, mapWidth, mapHeight) == Ok(candidates[j])
    requires Candidate(AttemptAt(attempts, |candidates|), roomMinSize, roomMaxSize, mapWidth, mapHeight) == Ok(c)
    ensures forall j :: 0 <= j < |candidates| + 1 ==>
      Candidate(AttemptAt(attempts, j), roomMinSize, roomMaxSize, mapWidth, mapHeight) == Ok((candidates + [c])[j])
  {
  }

  /** The candidate meets at least one of the rooms. */
  predicate MeetsAny(r: Room, rooms: seq<Room>) {
    exists k :: 0 <= k < |rooms| && Intersects(r, rooms[k])
  }

  /** The rooms the generation loop accepts from a run of candidates, in
      order: each candidate that meets no room accepted before it. */
  function Accepted(candidates: seq<Room>): (rooms: seq<Room>)
    ensures |rooms| <= |candidates|
    decreases |candidates|
  {
    if |candidates| == 0 then []
    else
      var prev := Accepted(candidates[..|candidates| - 1]);
      var last := candidates[|candidates| - 1];
      if MeetsAny(last, prev) then prev else prev + [last]
  }

  /** The first candidate is always accepted, and stays the first room. */
  lemma {:induction false} AcceptedFirst(candidates: seq<Room>)
    requires 0 < |candidates|
    ensures 0 < |Accepted(candidates)| && Accepted(candidates)[0] == candidates[0]
    decreases |candidates|
  {
    if 1 < |candidates| {
      var init := candidates[..|candidates| - 1];
      AcceptedFirst(init);
      assert init[0] == candidates[0];
    }
  }

  /** Every accepted room is a candidate, no two accepted rooms intersect,
      and every candidate left out meets an accepted room. */
  lemma {:induction false} AcceptedGreedy(candidates: seq<Room>)
    ensures forall k :: 0 <= k < |Accepted(candidates)| ==> Accepted(candidates)[k] in candidates
    ensures PairwiseDisjoint(Accepted(candidates))
    ensures forall j :: 0 <= j < |candidates| ==>
      candidates[j] in Accepted(candidates) || MeetsAny(candidates[j], Accepted(candidates))
    decreases |candidates|
  {
    if 0 < |candidates| {
      var init := candidates[..|candidates| - 1];
      var last := candidates[|candidates| - 1];
      var prev := Accepted(init);
      AcceptedGreedy(init);
      var rs := Accepted(candidates);
      assert prev <= rs;
      forall k | 0 <= k < |rs| ensures rs[k] in candidates {
        if k < |prev| {
          assert rs[k] == prev[k] && prev[k] in init;
        }
      }
      forall a, b | 0 <= a < b < |rs| ensures !Intersects(rs[a], rs[b]) {
        if b == |prev| {
          IntersectsSymmetricReflexive(last, prev[a]);
        } else {
          assert rs[a] == prev[a] && rs[b] == prev[b];
        }
      }
      forall j | 0 <= j < |candidates| ensures candidates[j] in rs || MeetsAny(candidates[j], rs) {
        if j < |init| {
          assert candidates[j] == init[j];
          if candidates[j] !in prev {
            var k :| 0 <= k < |prev| && Intersects(candidates[j], prev[k]);
            assert rs[k] == prev[k];
          }
        }
      }
    }
  }

  /** The tunnel between two room centres is a walk between them. */
  lemma TunnelWalk(start: Cell, end: Cell, horizontalFirst: bool)
    ensures var t := TunnelBetween(start, end, horizontalFirst);
      0 < |t| && t[0] == start && t[|t| - 1] == end && Walk(t)
      && forall i :: 0 <= i < |t| ==> InBox(t[i], start, end)
  {
    TunnelShape(start, end, horizontalFirst);
  }

  /** Digs out a newly accepted room's inner area and places the player
      there when it is the first room. */
  method DigInner(m: GameMap, rooms: seq<Room>, ghost tunnels: seq<seq<Cell>>, newRoom: Room, playerStart: Cell)
    requires m.Valid() && RoomInMap(newRoom, m.width, m.height)
    requires DugOk(m, rooms, tunnels)
    requires m.player == (if |rooms| == 0 then playerStart else Center(rooms[0]))
    modifies m, m.tiles
    ensures m.Valid()
    ensures m.entities == old(m.entities) && m.downstairsLocation == old(m.downstairsLocation)
    ensures m.player == Center((rooms + [newRoom])[0])
    ensures forall c :: InInner(newRoom, c) ==> m.Dug(c)
    ensures forall c :: old(m.Dug(c)) ==> m.Dug(c)
    ensures m.tiles[0, 0] == old(m.tiles[0, 0])
  {
    m.CarveInner(newRoom);
    forall c | InInner(newRoom, c) ensures m.Dug(c) {
      InnerCells(newRoom, c);
    }
    if |rooms| == 0 {
      m.player := Center(newRoom);
    }
  }

  /** Digs out the tunnel from the centre of the latest room to that of the
      new one, the bend picked by the coin draw. */
  method DigTunnel(m: GameMap, from: Room, newRoom: Room, coin: nat) returns (ghost path: seq<Cell>)
    requires m.Valid() && RoomInMap(from, m.width, m.height) && RoomInMap(newRoom, m.width, m.height)
    modifies m.tiles
    ensures 0 < |path| && path[0] == Center(from) && path[|path| - 1] == Center(newRoom) && Walk(path)
    ensures forall i :: 0 <= i < |path| ==> m.Dug(path[i])
    ensures forall c :: old(m.Dug(c)) ==> m.Dug(c)
    ensures 1 <= Center(from).x && 1 <= Center(newRoom).x ==> m.tiles[0, 0] == old(m.tiles[0, 0])
  {
    var start, end := Center(from), Center(newRoom);
    var horizontalFirst := RandomReal(coin) < 0.5;
    var t := TunnelBetween(start, end, horizontalFirst);
    TunnelWalk(start, end, horizontalFirst);
    forall k | 0 <= k < |t| ensures m.InMap(t[k]) {
      InBoxInMap(m, t[k], start, end);
    }
    m.CarvePath(t);
    path := t;
    if 1 <= start.x && 1 <= end.x {
      assert Cell(0, 0) !in t;
    }
  }

  /** The dug-out facts survive digging that only adds floor. */
  lemma DugOkGrows(m: GameMap, rooms: seq<Room>, tunnels: seq<seq<Cell>>, newRoom: Room, newTunnels: seq<seq<Cell>>)
    requires m.Valid()
    requires forall k, c :: 0 <= k < |rooms| && InInner(rooms[k], c) ==> m.Dug(c)
    requires forall k, i :: 0 <= k < |tunnels| && 0 <= i < |tunnels[k]| ==> m.Dug(tunnels[k][i])
    requires |tunnels| == (if |rooms| == 0 then 0 else |rooms| - 1)
    requires forall k :: 0 <= k < |tunnels| ==>
          && 0 < |tunnels[k]|
          && tunnels[k][0] == Center(rooms[k])
          && tunnels[k][|tunnels[k]| - 1] == Center(rooms[k + 1])
          && Walk(tunnels[k])
    requires forall c :: InInner(newRoom, c) ==> m.Dug(c)
    requires |rooms| == 0 ==> newTunnels == tunnels
    requires 0 < |rooms| ==> |newTunnels| == |tunnels| + 1 && newTunnels[..|tunnels|] == tunnels
    requires 0 < |rooms| ==> var p := newTunnels[|tunnels|];
      && 0 < |p| && p[0] == Center(rooms[|rooms| - 1]) && p[|p| - 1] == Center(newRoom) && Walk(p)
      && forall i :: 0 <= i < |p| ==> m.Dug(p[i])
    ensures DugOk(m, rooms + [newRoom], newTunnels)
  {
    var rs := rooms + [newRoom];
    forall k, c | 0 <= k < |rs| && InInner(rs[k], c) ensures m.Dug(c) {
      if k < |rooms| { assert rs[k] == rooms[k]; }
    }
    forall k | 0 <= k < |newTunnels|
      ensures && 0 < |newTunnels[k]|
              && newTunnels[k][0] == Center(rs[k])
              && newTunnels[k][|newTunnels[k]| - 1] == Center(rs[k + 1])
              && Walk(newTunnels[k])
    {
      if k < |tunnels| { assert newTunnels[k] == tunnels[k]; }
    }
    forall k, i | 0 <= k < |newTunnels| && 0 <= i < |newTunnels[k]| ensures m.Dug(newTunnels[k][i]) {
      if k < |tunnels| { assert newTunnels[k] == tunnels[k]; }
    }
  }

  /** Fills a newly dug room with entities; every entity stays on dug-out
      ground and off the player and every other entity. */
  method Furnish(m: GameMap, newRoom: Room, floor: int, d: PlacementDraws) returns (outcome: Outcome)
    requires m.Valid()
    requires Separated(m.player, m.entities)
    requires forall j :: 0 <= j < |m.entities| ==> m.Dug(m.entities[j].cell)
    requires forall c :: InInner(newRoom, c) ==> m.Dug(c)
    modifies m
    ensures m.player == old(m.player) && m.downstairsLocation == old(m.downstairsLocation)
    ensures outcome.Fail? ==> Placement(newRoom, floor, m.player, old(m.entities), d) == Err(outcome.error)
    ensures outcome.Fail? ==> m.entities == old(m.entities)
    ensures outcome.Pass? <==> Placement(newRoom, floor, m.player, old(m.entities), d).Ok?
    ensures outcome.Pass? ==> m.entities == Placement(newRoom, floor, m.player, old(m.entities), d).value
    ensures outcome.Pass? ==> Separated(m.player, m.entities)
    ensures outcome.Pass? ==> forall j :: 0 <= j < |m.entities| ==> m.Dug(m.entities[j].cell)
  {
    ghost var before := m.entities;
    PlacementSafe(newRoom, floor, m.player, before, d);
    outcome := m.PlaceEntities(newRoom, floor, d);
    if outcome.Pass? {
      forall j | 0 <= j < |m.entities| ensures m.Dug(m.entities[j].cell) {
        if j < |before| {
          assert m.entities[j] == before[j];
        }
      }
    }
  }

  /** Writes the stairs tile at the latest centre; writing stairs only
      replaces a tile by a dug-out one. */
  method PlaceStairs(m: GameMap, c: Cell, ghost rooms: seq<Room>, ghost tunnels: seq<seq<Cell>>)
    requires m.Valid() && m.InMap(c) && 0 < |rooms|
    requires DugOk(m, rooms, tunnels)
    requires forall j :: 0 <= j < |m.entities| ==> m.Dug(m.entities[j].cell)
    modifies m, m.tiles
    ensures m.entities == old(m.entities) && m.player == old(m.player) && m.downstairsLocation == c
    ensures TilesOk(m, rooms, tunnels)
    ensures forall j :: 0 <= j < |m.entities| ==> m.Dug(m.entities[j].cell)
    ensures c != Cell(0, 0) ==> m.tiles[0, 0] == old(m.tiles[0, 0])
  {
    m.SetStairs(c);
    assert forall e :: old(m.Dug(e)) ==> m.Dug(e);
  }

  /** Digs out an accepted room: its inner area, the player's place when it
      is the first room, or else the tunnel from the previous room. */
  method DigRoom(dungeon: GameMap, rooms: seq<Room>, ghost tunnels: seq<seq<Cell>>, newRoom: Room,
                 playerStart: Cell, coin: nat, center: Cell)
    returns (ghost newTunnels: seq<seq<Cell>>, centerOfLastRoom: Cell)
    requires dungeon.Valid() && RoomsOk(rooms, dungeon.width, dungeon.height)
    requires RoomInMap(newRoom, dungeon.width, dungeon.height)
    requires DugOk(dungeon, rooms, tunnels)
    requires dungeon.player == (if |rooms| == 0 then playerStart else Center(rooms[0]))
    requires center == StairsAfter(rooms)
    modifies dungeon, dungeon.tiles
    ensures dungeon.Valid()
    ensures dungeon.entities == old(dungeon.entities) && dungeon.downstairsLocation == old(dungeon.downstairsLocation)
    ensures dungeon.player == Center((rooms + [newRoom])[0])
    ensures DugOk(dungeon, rooms + [newRoom], newTunnels)
    ensures forall c :: old(dungeon.Dug(c)) ==> dungeon.Dug(c)
    ensures centerOfLastRoom == StairsAfter(rooms + [newRoom])
    ensures 0 < |rooms| && Roomy(newRoom) && Roomy(rooms[|rooms| - 1]) ==> dungeon.tiles[0, 0] == old(dungeon.tiles[0, 0])
  {
    centerOfLastRoom := center;
    DigInner(dungeon, rooms, tunnels, newRoom, playerStart);
    newTunnels := tunnels;
    if 0 < |rooms| {
      if Roomy(newRoom) && Roomy(rooms[|rooms| - 1]) {
        CenterOffCorner(newRoom);
        CenterOffCorner(rooms[|rooms| - 1]);
      }
      ghost var path := DigTunnel(dungeon, rooms[|rooms| - 1], newRoom, coin);
      newTunnels := tunnels + [path];
      assert newTunnels[..|tunnels|] == tunnels;
      centerOfLastRoom := Center(newRoom);
    }
    DugOkGrows(dungeon, rooms, tunnels, newRoom, newTunnels);
  }

  /** The steps taken for an accepted room: dig out its inner area, place
      the player in the first room or tunnel from the previous one, fill it
      with entities, and write the stairs at the latest centre. */
  method AcceptRoom(dungeon: GameMap, rooms: seq<Room>, ghost tunnels: seq<seq<Cell>>, newRoom: Room,
                    floor: int, playerStart: Cell, a: Attempt, center: Cell)
    returns (placed: Outcome, ghost newTunnels: seq<seq<Cell>>, centerOfLastRoom: Cell)
    requires dungeon.Valid() && RoomsOk(rooms, dungeon.width, dungeon.height)
    requires RoomInMap(newRoom, dungeon.width, dungeon.height)
    requires TilesOk(dungeon, rooms, tunnels) && EntitiesOk(dungeon, rooms, playerStart)
    requires center == StairsAfter(rooms)
    requires |rooms| == 0 ==> dungeon.entities == []
    modifies dungeon, dungeon.tiles
    ensures placed.Pass? <==> Placement(newRoom, floor, dungeon.player, old(dungeon.entities), a.placement).Ok?
    ensures Roomy(newRoom) ==> placed.Pass?
    ensures placed.Pass? ==> TilesOk(dungeon, rooms + [newRoom], newTunnels)
    ensures placed.Pass? ==> EntitiesOk(dungeon, rooms + [newRoom], playerStart)
    ensures placed.Pass? ==> centerOfLastRoom == StairsAfter(rooms + [newRoom])
    // The stairs written at (0, 0) for the first room stay there.
    ensures placed.Pass? && Roomy(newRoom) && (0 < |rooms| ==> Roomy(rooms[|rooms| - 1]) && old(dungeon.tiles[0, 0]) == DownStairs) ==>
      dungeon.tiles[0, 0] == DownStairs
  {
    newTunnels, centerOfLastRoom := DigRoom(dungeon, rooms, tunnels, newRoom, playerStart, a.coin, center);
    placed := Furnish(dungeon, newRoom, floor, a.placement);
    if Roomy(newRoom) {
      PlacementOk(newRoom, floor, dungeon.player, old(dungeon.entities), a.placement);
    }
    if placed.Fail? { return; }
    assert dungeon.InMap(centerOfLastRoom) by {
      assert dungeon.InMap(Center(newRoom));
      assert 0 < dungeon.width && 0 < dungeon.height;
    }
    if Roomy(newRoom) && 0 < |rooms| {
      CenterOffCorner(newRoom);
    }
    PlaceStairs(dungeon, centerOfLastRoom, rooms + [newRoom], newTunnels);
  }

  /** Everything the generation loop keeps about the map and the accepted
      rooms; with roomy set, every room is at least 2 by 2 and the first
      room's stairs tile at (0, 0) is still there. */
  ghost predicate Built(m: GameMap, rooms: seq<Room>, tunnels: seq<seq<Cell>>, playerStart: Cell, center: Cell, roomy: bool)
    reads m, m.tiles
  {
    && m.Valid()
    && RoomsOk(rooms, m.width, m.height)
    && TilesOk(m, rooms, tunnels)
    && EntitiesOk(m, rooms, playerStart)
    && center == StairsAfter(rooms)
    && (|rooms| == 0 ==> m.entities == [])
    && (roomy ==> forall k :: 0 <= k < |rooms| ==> Roomy(rooms[k]))
    && (roomy && 0 < |rooms| ==> 0 < m.width && 0 < m.height && m.tiles[0, 0] == DownStairs)
  }

  /** Accepting a room that lies in the map and meets no accepted room keeps
      everything the loop keeps; a room at least 2 by 2 is always accepted
      without an error. */
  method Admit(dungeon: GameMap, rooms: seq<Room>, ghost tunnels: seq<seq<Cell>>, newRoom: Room,
               floor: int, playerStart: Cell, a: Attempt, center: Cell, ghost roomy: bool)
    returns (placed: Outcome, ghost newTunnels: seq<seq<Cell>>, centerOfLastRoom: Cell)
    requires Built(dungeon, rooms, tunnels, playerStart, center, roomy)
    requires RoomInMap(newRoom, dungeon.width, dungeon.height) && !MeetsAny(newRoom, rooms)
    requires roomy ==> Roomy(newRoom)
    modifies dungeon, dungeon.tiles
    ensures placed.Pass? ==> Built(dungeon, rooms + [newRoom], newTunnels, playerStart, centerOfLastRoom, roomy)
    ensures roomy ==> placed.Pass?
  {
    RoomsExtend(rooms, newRoom, dungeon.width, dungeon.height);
    placed, newTunnels, centerOfLastRoom := AcceptRoom(dungeon, rooms, tunnels, newRoom, floor, playerStart, a, center);
    if placed.Pass? && roomy {
      assert forall k :: 0 <= k < |rooms| + 1 ==> Roomy((rooms + [newRoom])[k]);
    }
  }

  /** Each candidate is the room its own attempt's draws give. */
  predicate Drawn(attempts: seq<Attempt>, candidates: seq<Room>, roomMinSize: int, roomMaxSize: int, mapWidth: int, mapHeight: int) {
    forall j :: 0 <= j < |candidates| ==>
      Candidate(AttemptAt(attempts, j), roomMinSize, roomMaxSize, mapWidth, mapHeight) == Ok(candidates[j])
  }

  /** One round of the generation loop: draws the next candidate, skips it
      when it meets an accepted room, and otherwise digs and furnishes it.
      With sizes that fit the map the round never raises. */
  method Round(dungeon: GameMap, rooms: seq<Room>, ghost tunnels: seq<seq<Cell>>, ghost candidates: seq<Room>,
               attempts: seq<Attempt>, i: nat, roomMinSize: int, roomMaxSize: int, floor: int, playerStart: Cell, center: Cell)
    returns (step: Outcome, rooms': seq<Room>, ghost tunnels': seq<seq<Cell>>, ghost candidates': seq<Room>, center': Cell)
    requires 0 <= roomMinSize
    requires Built(dungeon, rooms, tunnels, playerStart, center, 2 <= roomMinSize)
    requires |candidates| == i && rooms == Accepted(candidates)
    requires Drawn(attempts, candidates, roomMinSize, roomMaxSize, dungeon.width, dungeon.height)
    modifies dungeon, dungeon.tiles
    ensures 2 <= roomMinSize <= roomMaxSize && roomMaxSize < dungeon.width && roomMaxSize < dungeon.height ==> step.Pass?
    ensures step.Pass? ==> Built(dungeon, rooms', tunnels', playerStart, center', 2 <= roomMinSize)
    ensures step.Pass? ==> |candidates'| == |candidates| + 1 && rooms' == Accepted(candidates')
    ensures step.Pass? ==> Drawn(attempts, candidates', roomMinSize, roomMaxSize, dungeon.width, dungeon.height)
  {
    var a := AttemptAt(attempts, i);
    var candidate := DrawCandidate(a, roomMinSize, roomMaxSize, dungeon.width, dungeon.height);
    if 2 <= roomMinSize <= roomMaxSize && roomMaxSize < dungeon.width && roomMaxSize < dungeon.height {
      CandidateOk(a, roomMinSize, roomMaxSize, dungeon.width, dungeon.height);
    }
    if candidate.Err? { return Fail(candidate.error), rooms, tunnels, candidates, center; }
    var newRoom := candidate.value;
    CandidatesExtend(attempts, candidates, newRoom, roomMinSize, roomMaxSize, dungeon.width, dungeon.height);
    candidates' := candidates + [newRoom];
    assert candidates'[..|candidates'| - 1] == candidates;
    if MeetsAny(newRoom, rooms) {
      return Pass, rooms, tunnels, candidates', center;
    }
    step, tunnels', center' := Admit(dungeon, rooms, tunnels, newRoom, floor, playerStart, a, center, 2 <= roomMinSize);
    rooms' := rooms + [newRoom];
  }

  /** generate_dungeon: tries maxRooms candidate rooms, the draws of
      iteration i being attempts[i]; a candidate that intersects an accepted
      room is skipped, an accepted one is dug out, joined to the previous one
      by a tunnel, filled with entities and given the stairs. A draw from an
      empty range raises, as random.randint does. */
  method GenerateDungeon(maxRooms: int, roomMinSize: int, roomMaxSize: int, mapWidth: nat, mapHeight: nat,
                         floor: int, playerStart: Cell, attempts: seq<Attempt>)
    returns (r: Result<GameMap>, rooms: seq<Room>, ghost tunnels: seq<seq<Cell>>, ghost candidates: seq<Room>)
    requires 0 <= roomMinSize
    ensures r.Ok? ==> |candidates| == (if maxRooms < 0 then 0 else maxRooms)
    ensures r.Ok? ==> forall j :: 0 <= j < |candidates| ==>
      Candidate(AttemptAt(attempts, j), roomMinSize, roomMaxSize, mapWidth, mapHeight) == Ok(candidates[j])
    ensures r.Ok? ==> rooms == Accepted(candidates)
    ensures r.Ok? && 0 < maxRooms ==> 0 < |rooms| && rooms[0] == candidates[0]
    ensures 2 <= roomMinSize <= roomMaxSize && roomMaxSize < mapWidth && roomMaxSize < mapHeight ==> r.Ok?
    ensures r.Ok? ==> fresh(r.value) && fresh(r.value.tiles) && r.value.Valid()
    ensures r.Ok? ==> r.value.width == mapWidth && r.value.height == mapHeight
    ensures r.Ok? ==> |rooms| <= (if maxRooms < 0 then 0 else maxRooms)
    ensures r.Ok? ==> RoomsOk(rooms, mapWidth, mapHeight)
    ensures r.Ok? ==> TilesOk(r.value, rooms, tunnels)
    ensures r.Ok? ==> EntitiesOk(r.value, rooms, playerStart)
    // With rooms at least 2 by 2, the first room's stairs tile at (0, 0) is
    // never dug over, so from the second room on the map holds two stairs.
    ensures r.Ok? && 2 <= roomMinSize && 0 < |rooms| ==> 0 < mapWidth && 0 < mapHeight && r.value.tiles[0, 0] == DownStairs
    ensures r.Ok? && 2 <= roomMinSize && 2 <= |rooms| ==> r.value.downstairsLocation != Cell(0, 0)
  {
    var dungeon := new GameMap(mapWidth, mapHeight, playerStart);
    rooms := [];
    tunnels := [];
    candidates := [];
    var centerOfLastRoom := Cell(0, 0);
    var i := 0;
    while i < maxRooms
      invariant 0 <= i <= (if maxRooms < 0 then 0 else maxRooms)
      invariant fresh(dungeon) && fresh(dungeon.tiles)
      invariant dungeon.width == mapWidth && dungeon.height == mapHeight
      invariant Built(dungeon, rooms, tunnels, playerStart, centerOfLastRoom, 2 <= roomMinSize)
      invariant |candidates| == i && rooms == Accepted(candidates)
      invariant Drawn(attempts, candidates, roomMinSize, roomMaxSize, mapWidth, mapHeight)
    {
      var step;
      step, rooms, tunnels, candidates, centerOfLastRoom :=
        Round(dungeon, rooms, tunnels, candidates, attempts, i, roomMinSize, roomMaxSize, floor, playerStart, centerOfLastRoom);
      if step.Fail? { return Err(step.error), rooms, tunnels, candidates; }
      i := i + 1;
    }
    r := Ok(dungeon);
    if 0 < maxRooms {
      AcceptedFirst(candidates);
    }
    if 2 <= roomMinSize && 2 <= |rooms| {
      CenterOffCorner(rooms[|rooms| - 1]);
    }
  }
}
