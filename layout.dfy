/** The dungeon's geometry: the fixed 40 x 24 tile grid, the rectangular rooms
    that the generator places and the straight corridor segments it carves. */
module Layout {
  import opened Chance

  const Width: int := 40
  const Height: int := 24

  /** The only two tile codes ever stored in the map (EMPTY = 0, WALL = 1). */
  datatype Tile = Empty | Wall

  datatype Pos = Pos(x: int, y: int)

  datatype Option<T> = None | Some(value: T)

  function Min(a: int, b: int): int { if a <= b then a else b }
  function Max(a: int, b: int): int { if a <= b then b else a }
  function Abs(a: int): int { if a < 0 then -a else a }

  predicate InBounds(x: int, y: int) {
    0 <= x < Width && 0 <= y < Height
  }

  /** Off the outer border: inside [1, Width - 2] x [1, Height - 2]. */
  predicate Inner(x: int, y: int) {
    1 <= x <= Width - 2 && 1 <= y <= Height - 2
  }

  // ---------------------------------------------------------------- rooms

  datatype Room = Room(x: int, y: int, width: int, height: int)

  predicate InRoom(r: Room, cx: int, cy: int) {
    r.x <= cx < r.x + r.width && r.y <= cy < r.y + r.height
  }

  /** What generateRoom can produce: both sides in 3..8, the rectangle kept
      off the border. */
  predicate WellPlaced(r: Room) {
    && 3 <= r.width <= 8 && 3 <= r.height <= 8
    && 1 <= r.x && r.x + r.width <= Width - 1
    && 1 <= r.y && r.y + r.height <= Height - 1
  }

  /** generateRoom: width, height, x and y from four successive draws. */
  function RoomFromDraws(uw: Draw, uh: Draw, ux: Draw, uy: Draw): (r: Room)
    ensures WellPlaced(r)
  {
    var w := Random(3, 8, uw);
    var h := Random(3, 8, uh);
    Room(Random(1, Width - w - 1, ux), Random(1, Height - h - 1, uy), w, h)
  }

  /** Carving a generated room never touches the outer border. */
  lemma WellPlacedIsInner(r: Room, cx: int, cy: int)
    requires WellPlaced(r) && InRoom(r, cx, cy)
    ensures Inner(cx, cy)
  {}

  /** The test in roomOverlaps's loop. */
  predicate Overlaps(a: Room, b: Room) {
    && a.x < b.x + b.width + 1 && a.x + a.width + 1 > b.x
    && a.y < b.y + b.height + 1 && a.y + a.height + 1 > b.y
  }

  /** The room's rectangle grown by one tile on its right and bottom edges. */
  predicate InGrown(r: Room, cx: int, cy: int) {
    r.x <= cx <= r.x + r.width && r.y <= cy <= r.y + r.height
  }

  /** The overlap test is exactly "the grown rectangles share a tile". */
  lemma OverlapsIffGrownMeet(a: Room, b: Room)
    requires 0 <= a.width && 0 <= a.height && 0 <= b.width && 0 <= b.height
    ensures Overlaps(a, b) <==> exists cx, cy :: InGrown(a, cx, cy) && InGrown(b, cx, cy)
  {
    if Overlaps(a, b) {
      var cx, cy := Max(a.x, b.x), Max(a.y, b.y);
      assert InGrown(a, cx, cy) && InGrown(b, cx, cy);
    }
  }

  /** Rooms that do not overlap are at least one wall tile apart: no tile of
      one is a tile or one of the 8 neighbours of a tile of the other. */
  lemma SeparatedByWall(a: Room, b: Room, px: int, py: int, qx: int, qy: int)
    requires !Overlaps(a, b) && InRoom(a, px, py) && InRoom(b, qx, qy)
    ensures Abs(px - qx) >= 2 || Abs(py - qy) >= 2
  {}

  /** roomOverlaps(room, rooms): some accepted room overlaps the candidate. */
  function RoomOverlaps(room: Room, rooms: seq<Room>): (b: bool)
    ensures b <==> exists k :: 0 <= k < |rooms| && Overlaps(room, rooms[k])
  {
    if rooms == [] then false
    else Overlaps(room, rooms[0]) || RoomOverlaps(room, rooms[1..])
  }

  /** Math.floor(room.x + room.width / 2), Math.floor(room.y + room.height / 2) */
  function Center(r: Room): Pos {
    Pos(r.x + r.width / 2, r.y + r.height / 2)
  }

  // ------------------------------------------------------------ corridors

  /** The cells carveHorizontalCorridor(x1, x2, y) or
      carveVerticalCorridor(y1, y2, x) would clear, before clipping. */
  datatype Segment = Row(x1: int, x2: int, y: int) | Column(y1: int, y2: int, x: int)

  predicate OnSegment(s: Segment, cx: int, cy: int) {
    match s
    case Row(x1, x2, y) => cy == y && Min(x1, x2) <= cx <= Max(x1, x2)
    case Column(y1, y2, x) => cx == x && Min(y1, y2) <= cy <= Max(y1, y2)
  }

  /** Both ends off the border, hence the whole segment. */
  predicate Inside(s: Segment) {
    match s
    case Row(x1, x2, y) => Inner(x1, y) && Inner(x2, y)
    case Column(y1, y2, x) => Inner(x, y1) && Inner(x, y2)
  }

  /** createCorridor(a, b): the L-shaped pair of segments between the two
      centres; `rowFirst` is the outcome of its Math.random() < 0.5. */
  function Corridor(a: Room, b: Room, rowFirst: bool): seq<Segment> {
    var ca, cb := Center(a), Center(b);
    if rowFirst then [Row(ca.x, cb.x, ca.y), Column(ca.y, cb.y, cb.x)]
    else [Column(ca.y, cb.y, ca.x), Row(ca.x, cb.x, cb.y)]
  }

  /** `s` and `t` are the L-corridor createCorridor carves between a and b. */
  predicate Linked(s: Segment, t: Segment, a: Room, b: Room) {
    [s, t] == Corridor(a, b, true) || [s, t] == Corridor(a, b, false)
  }

  /** The L-corridor starts at a's centre, turns at a corner shared by both of
      its segments, and ends at b's centre; between two generated rooms it
      stays off the border. */
  lemma CorridorJoins(a: Room, b: Room, s: Segment, t: Segment)
    requires Linked(s, t, a, b)
    ensures OnSegment(s, Center(a).x, Center(a).y) && OnSegment(t, Center(b).x, Center(b).y)
    ensures exists cx, cy :: OnSegment(s, cx, cy) && OnSegment(t, cx, cy)
    ensures WellPlaced(a) && WellPlaced(b) ==> Inside(s) && Inside(t)
  {
    var ca, cb := Center(a), Center(b);
    if [s, t] == Corridor(a, b, true) {
      assert OnSegment(s, cb.x, ca.y) && OnSegment(t, cb.x, ca.y);
    } else {
      assert OnSegment(s, ca.x, cb.y) && OnSegment(t, ca.x, cb.y);
    }
  }

  /** One of generateAdditionalCorridors's segments, from its four draws: the
      coin, the row (column), the start and the length. */
  function ExtraSegment(coin: Draw, u1: Draw, u2: Draw, u3: Draw): (s: Segment)
    ensures s.Row? <==> Heads(coin)
    ensures s.Row? ==> 1 <= s.y <= Height - 2 && 1 <= s.x1 && s.x1 + 5 <= s.x2 <= Width - 1 && s.x2 - s.x1 <= 15
    ensures s.Column? ==> 1 <= s.x <= Width - 2 && 1 <= s.y1 && s.y1 + 5 <= s.y2 <= Height - 1 && s.y2 - s.y1 <= 15
  {
    if Heads(coin) then
      var y := Random(1, Height - 2, u1);
      var startX := Random(1, Width - 10, u2);
      var length := Random(5, 15, u3);
      Row(startX, Min(startX + length, Width - 1), y)
    else
      var x := Random(1, Width - 2, u1);
      var startY := Random(1, Height - 10, u2);
      var length := Random(5, 15, u3);
      Column(startY, Min(startY + length, Height - 1), x)
  }

  /** Unlike rooms and room connections, an additional corridor can clear a
      tile of the outer border: its end is clipped to Width - 1, the last
      column, not to Width - 2. */
  lemma ExtraCorridorReachesBorder()
    ensures ExtraSegment(0, 0, Scale - 1, Scale - 1) == Row(30, Width - 1, 1)
    ensures !Inside(ExtraSegment(0, 0, Scale - 1, Scale - 1))
  {}
}
