/** Room and tunnel geometry of the dungeon generator (procgen.py). */
module Rooms {

  /** A grid cell (x, y). */
  datatype Cell = Cell(x: int, y: int)

  /** RectangularRoom: the corners (x1, y1) and (x2, y2), both on the wall. */
  datatype Room = Room(x1: int, y1: int, x2: int, y2: int)

  /** A Python slice: the indices start .. stop - 1. */
  datatype Slice = Slice(start: int, stop: int)

  /** RectangularRoom(x, y, width, height). */
  function NewRoom(x: int, y: int, width: int, height: int): (r: Room)
    ensures r.x1 == x && r.y1 == y && r.x2 - r.x1 == width && r.y2 - r.y1 == height
    ensures 0 <= width && 0 <= height ==> WellFormed(r)
  {
    Room(x, y, x + width, y + height)
  }

  /** Rooms whose corners are in order, as every room of non-negative size is. */
  predicate WellFormed(r: Room) {
    r.x1 <= r.x2 && r.y1 <= r.y2
  }

  /** int(s / 2): true division, then truncation toward zero. */
  function HalfTowardZero(s: int): (h: int)
    ensures 0 <= s ==> 0 <= s - 2 * h <= 1
    ensures s < 0 ==> 0 <= 2 * h - s <= 1
  {
    if 0 <= s then s / 2 else -((-s) / 2)
  }

  /** The centre of a room, each coordinate its corners' midpoint truncated. */
  function Center(r: Room): (c: Cell)
    ensures r.x1 <= r.x2 ==> r.x1 <= c.x <= r.x2
    ensures r.y1 <= r.y2 ==> r.y1 <= c.y <= r.y2
  {
    Cell(HalfTowardZero(r.x1 + r.x2), HalfTowardZero(r.y1 + r.y2))
  }

  /** For a room at non-negative coordinates the centre is the floor of the
      midpoint. */
  lemma CenterNonNegative(r: Room)
    requires 0 <= r.x1 + r.x2 && 0 <= r.y1 + r.y2
    ensures Center(r) == Cell((r.x1 + r.x2) / 2, (r.y1 + r.y2) / 2)
  {
  }

  /** The inner area as the pair of slices the code uses to index the tiles. */
  function Inner(r: Room): (Slice, Slice) {
    (Slice(r.x1 + 1, r.x2), Slice(r.y1 + 1, r.y2))
  }

  predicate InSlice(i: int, s: Slice) {
    s.start <= i < s.stop
  }

  /** The cell lies in the area the inner slices select. */
  predicate InInner(r: Room, c: Cell) {
    InSlice(c.x, Inner(r).0) && InSlice(c.y, Inner(r).1)
  }

  /** The cell lies in the closed rectangle, walls included. */
  predicate InRect(r: Room, c: Cell) {
    r.x1 <= c.x <= r.x2 && r.y1 <= c.y <= r.y2
  }

  /** The inner area is exactly the inclusive range x1+1 .. x2-1 by
      y1+1 .. y2-1 that place_entities draws spawn cells from, and it keeps a
      one-cell wall on every side. */
  lemma InnerCells(r: Room, c: Cell)
    ensures InInner(r, c) <==> r.x1 + 1 <= c.x <= r.x2 - 1 && r.y1 + 1 <= c.y <= r.y2 - 1
    ensures InInner(r, c) ==> InRect(r, c) && c.x != r.x1 && c.x != r.x2 && c.y != r.y1 && c.y != r.y2
  {
  }

  /** intersects: the closed rectangles overlap. */
  predicate Intersects(a: Room, b: Room) {
    a.x1 <= b.x2 && a.x2 >= b.x1 && a.y1 <= b.y2 && a.y2 >= b.y1
  }

  /** Intersection is symmetric, and every well-formed room meets itself. */
  lemma IntersectsSymmetricReflexive(a: Room, b: Room)
    ensures Intersects(a, b) <==> Intersects(b, a)
    ensures WellFormed(a) ==> Intersects(a, a)
  {
  }

  /** Two well-formed rooms intersect exactly when some cell lies in both
      closed rectangles; so rooms that only share a wall intersect. */
  lemma IntersectsIffCommonCell(a: Room, b: Room)
    requires WellFormed(a) && WellFormed(b)
    ensures Intersects(a, b) <==> exists c :: InRect(a, c) && InRect(b, c)
  {
    if Intersects(a, b) {
      var c := Cell(if a.x1 < b.x1 then b.x1 else a.x1, if a.y1 < b.y1 then b.y1 else a.y1);
      assert InRect(a, c) && InRect(b, c);
    }
  }

  /** Rooms that only touch along an edge count as intersecting. */
  lemma EdgeTouchingIntersects()
    ensures Intersects(NewRoom(0, 0, 5, 5), NewRoom(5, 0, 5, 5))
  {
  }

  /** Rooms that do not intersect have no cell of their inner areas in
      common, and no inner cell of one is on the other's wall. */
  lemma DisjointRooms(a: Room, b: Room, c: Cell)
    requires !Intersects(a, b)
    ensures !(InRect(a, c) && InRect(b, c))
    ensures InInner(a, c) ==> !InRect(b, c)
  {
  }

  function Abs(i: int): nat { if i < 0 then -i else i }

  /** The number of unit steps between two cells along the axes. */
  function Manhattan(a: Cell, b: Cell): nat {
    Abs(a.x - b.x) + Abs(a.y - b.y)
  }

  /** Neighbours along an axis: exactly one coordinate differs, by one. */
  predicate UnitStep(a: Cell, b: Cell) {
    Manhattan(a, b) == 1
  }

  function Sign(i: int): int {
    if i < 0 then -1 else if i == 0 then 0 else 1
  }

  /** The cell lies in the bounding box of a and b. */
  predicate InBox(c: Cell, a: Cell, b: Cell) {
    (a.x <= c.x <= b.x || b.x <= c.x <= a.x) && (a.y <= c.y <= b.y || b.y <= c.y <= a.y)
  }

  /** A straight Bresenham line from a to b along one axis: every cell of the
      run, both ends included. */
  function Run(a: Cell, b: Cell): (path: seq<Cell>)
    requires a.x == b.x || a.y == b.y
    ensures |path| == Manhattan(a, b) + 1
    ensures path[0] == a && path[|path| - 1] == b
    ensures forall i :: 0 <= i < |path| ==> InBox(path[i], a, b)
    ensures forall i :: 0 < i < |path| ==> UnitStep(path[i - 1], path[i])
    decreases Manhattan(a, b)
  {
    if a == b then [a]
    else
      var next := Cell(a.x + Sign(b.x - a.x), a.y + Sign(b.y - a.y));
      [a] + Run(next, b)
  }

  /** The corner of the L: horizontal first goes to (end.x, start.y). */
  function Corner(start: Cell, end: Cell, horizontalFirst: bool): Cell {
    if horizontalFirst then Cell(end.x, start.y) else Cell(start.x, end.y)
  }

  /** tunnel_between: the line to the corner, then the line from the corner;
      the coin flip of the code is the parameter horizontalFirst. */
  function TunnelBetween(start: Cell, end: Cell, horizontalFirst: bool): seq<Cell> {
    var corner := Corner(start, end, horizontalFirst);
    Run(start, corner) + Run(corner, end)
  }

  /** The tunnel starts at start, ends at end, passes through the corner
      (which appears twice, once as the end of each leg), moves by unit axis
      steps everywhere else, and never leaves the bounding box of its ends. */
  lemma TunnelShape(start: Cell, end: Cell, horizontalFirst: bool)
    ensures var t := TunnelBetween(start, end, horizontalFirst);
      var m := Manhattan(start, Corner(start, end, horizontalFirst)) + 1;
      && |t| == Manhattan(start, end) + 2
      && t[0] == start && t[|t| - 1] == end
      && 0 < m < |t| && t[m - 1] == Corner(start, end, horizontalFirst) && t[m] == t[m - 1]
      && (forall i :: 0 < i < |t| && i != m ==> UnitStep(t[i - 1], t[i]))
      && (forall i :: 0 <= i < |t| ==> InBox(t[i], start, end))
  {
    var corner := Corner(start, end, horizontalFirst);
    var r1, r2 := Run(start, corner), Run(corner, end);
    var t := r1 + r2;
    var m := |r1|;
    forall i | 0 < i < |t| && i != m ensures UnitStep(t[i - 1], t[i]) {
      if i < m {
        assert t[i - 1] == r1[i - 1] && t[i] == r1[i];
      } else {
        assert t[i - 1] == r2[i - 1 - m] && t[i] == r2[i - m];
      }
    }
    forall i | 0 <= i < |t| ensures InBox(t[i], start, end) {
      if i < m {
        assert InBox(r1[i], start, corner);
      } else {
        assert InBox(r2[i - m], corner, end);
      }
    }
  }
}
