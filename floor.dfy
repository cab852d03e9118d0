/** The map as the generator leaves it: which tiles are floor, what a carved
    map holds, and walks over floor tiles. */
module Floor {
  import opened Layout

  /** map[y][x] with Height rows of Width tiles. */
  predicate Shaped(grid: array2<Tile>) {
    grid.Length0 == Height && grid.Length1 == Width
  }

  predicate OnFloor(grid: array2<Tile>, x: int, y: int)
    reads grid
  {
    Shaped(grid) && InBounds(x, y) && grid[y, x] == Empty
  }

  ghost predicate InAnyRoom(rooms: seq<Room>, x: int, y: int) {
    exists k :: 0 <= k < |rooms| && InRoom(rooms[k], x, y)
  }

  ghost predicate OnAnySegment(segs: seq<Segment>, x: int, y: int) {
    exists k :: 0 <= k < |segs| && OnSegment(segs[k], x, y)
  }

  /** The grid is a wall-filled grid with exactly these rooms and segments
      cleared (segments clipped to the grid). */
  ghost predicate Carved(grid: array2<Tile>, rooms: seq<Room>, segs: seq<Segment>)
    reads grid
  {
    && Shaped(grid)
    && forall y, x :: 0 <= y < Height && 0 <= x < Width ==>
         grid[y, x] == (if InAnyRoom(rooms, x, y) || OnAnySegment(segs, x, y) then Empty else Wall)
  }

  /** Segments off the border, followed by more such segments. */
  lemma InsideExtended(links: seq<Segment>, more: seq<Segment>)
    requires forall k :: 0 <= k < |links| ==> Inside(links[k])
    requires forall k :: 0 <= k < |more| ==> Inside(more[k])
    ensures forall k :: 0 <= k < |links + more| ==> Inside((links + more)[k])
  {
    forall k | 0 <= k < |links + more|
      ensures Inside((links + more)[k])
    {
      if k >= |links| {
        assert (links + more)[k] == more[k - |links|];
      }
    }
  }

  /** connectRooms's first loop: segments 2j and 2j + 1 are the L-corridor
      between rooms j and j + 1. */
  ghost predicate Joined(rooms: seq<Room>, links: seq<Segment>) {
    && 2 * (|rooms| - 1) <= |links|
    && forall j :: 0 <= j < |rooms| - 1 ==> Linked(links[2 * j], links[2 * j + 1], rooms[j], rooms[j + 1])
  }

  lemma InAnyRoomAppend(rooms: seq<Room>, r: Room, x: int, y: int)
    ensures InAnyRoom(rooms + [r], x, y) <==> InAnyRoom(rooms, x, y) || InRoom(r, x, y)
  {
    if InAnyRoom(rooms + [r], x, y) {
      var k :| 0 <= k < |rooms + [r]| && InRoom((rooms + [r])[k], x, y);
      if k < |rooms| { assert InRoom(rooms[k], x, y); }
    }
    if InAnyRoom(rooms, x, y) {
      var k :| 0 <= k < |rooms| && InRoom(rooms[k], x, y);
      assert (rooms + [r])[k] == rooms[k];
    }
    if InRoom(r, x, y) {
      assert (rooms + [r])[|rooms|] == r;
    }
  }

  lemma OnAnySegmentAppend(segs: seq<Segment>, more: seq<Segment>, x: int, y: int)
    ensures OnAnySegment(segs + more, x, y) <==> OnAnySegment(segs, x, y) || OnAnySegment(more, x, y)
  {
    if OnAnySegment(segs + more, x, y) {
      var k :| 0 <= k < |segs + more| && OnSegment((segs + more)[k], x, y);
      if k < |segs| { assert OnSegment(segs[k], x, y); }
      else { assert OnSegment(more[k - |segs|], x, y); }
    }
    if OnAnySegment(segs, x, y) {
      var k :| 0 <= k < |segs| && OnSegment(segs[k], x, y);
      assert (segs + more)[k] == segs[k];
    }
    if OnAnySegment(more, x, y) {
      var k :| 0 <= k < |more| && OnSegment(more[k], x, y);
      assert (segs + more)[|segs| + k] == more[k];
    }
  }

  lemma OnPair(s: Segment, t: Segment, x: int, y: int)
    ensures OnAnySegment([s, t], x, y) <==> OnSegment(s, x, y) || OnSegment(t, x, y)
  {
    if OnSegment(s, x, y) { assert [s, t][0] == s; }
    if OnSegment(t, x, y) { assert [s, t][1] == t; }
  }

  /** The corridor between rooms i and i + 1, appended to the corridors of
      the earlier pairs. */
  lemma LinksExtended(rooms: seq<Room>, links: seq<Segment>, segs: seq<Segment>, i: nat, rowFirst: bool)
    requires i < |rooms| - 1 && |links| == 2 * i
    requires forall j :: 0 <= j < i ==> Linked(links[2 * j], links[2 * j + 1], rooms[j], rooms[j + 1])
    requires segs == Corridor(rooms[i], rooms[i + 1], rowFirst)
    ensures forall j :: 0 <= j < i + 1 ==>
      Linked((links + segs)[2 * j], (links + segs)[2 * j + 1], rooms[j], rooms[j + 1])
  {
    var r := links + segs;
    forall j | 0 <= j < i + 1
      ensures Linked(r[2 * j], r[2 * j + 1], rooms[j], rooms[j + 1])
    {
      if j < i {
        assert r[2 * j] == links[2 * j] && r[2 * j + 1] == links[2 * j + 1];
      } else {
        assert [r[2 * j], r[2 * j + 1]] == segs;
      }
    }
  }

  /** The corridors between consecutive generated rooms stay off the border. */
  lemma LinksInside(rooms: seq<Room>, links: seq<Segment>)
    requires |links| == 2 * (|rooms| - 1)
    requires forall j :: 0 <= j < |rooms| - 1 ==> Linked(links[2 * j], links[2 * j + 1], rooms[j], rooms[j + 1])
    requires forall k :: 0 <= k < |rooms| ==> WellPlaced(rooms[k])
    ensures forall k :: 0 <= k < |links| ==> Inside(links[k])
  {
    forall k | 0 <= k < |links|
      ensures Inside(links[k])
    {
      var j := k / 2;
      CorridorJoins(rooms[j], rooms[j + 1], links[2 * j], links[2 * j + 1]);
    }
  }

  /** More segments after the room connections keep the rooms joined. */
  lemma JoinedExtended(rooms: seq<Room>, links: seq<Segment>, more: seq<Segment>)
    requires Joined(rooms, links)
    ensures Joined(rooms, links + more)
  {
    forall j | 0 <= j < |rooms| - 1
      ensures Linked((links + more)[2 * j], (links + more)[2 * j + 1], rooms[j], rooms[j + 1])
    {
      assert (links + more)[2 * j] == links[2 * j] && (links + more)[2 * j + 1] == links[2 * j + 1];
    }
  }

  /** s and t form an L-corridor between two different rooms of the list. */
  ghost predicate Bridge(rooms: seq<Room>, s: Segment, t: Segment) {
    exists a, b :: 0 <= a < |rooms| && 0 <= b < |rooms| && a != b && Linked(s, t, rooms[a], rooms[b])
  }

  /** The segments of connectRooms's second loop: pairs of segments, each
      pair an L-corridor between two different rooms. */
  ghost predicate Bridged(rooms: seq<Room>, segs: seq<Segment>)
    decreases |segs|
  {
    segs == [] || (2 <= |segs| && Bridge(rooms, segs[0], segs[1]) && Bridged(rooms, segs[2..]))
  }

  /** A further pair of segments, empty or an L-corridor between two
      different rooms, keeps the list bridged. */
  lemma {:induction false} BridgedAppend(rooms: seq<Room>, segs: seq<Segment>, more: seq<Segment>)
    requires Bridged(rooms, segs)
    requires more == [] || (|more| == 2 && Bridge(rooms, more[0], more[1]))
    ensures Bridged(rooms, segs + more)
    decreases |segs|
  {
    if segs == [] {
      assert segs + more == more;
      if more != [] {
        assert more[2..] == [];
      }
    } else if more == [] {
      assert segs + more == segs;
    } else {
      BridgedAppend(rooms, segs[2..], more);
      assert (segs + more)[2..] == segs[2..] + more;
      assert (segs + more)[0] == segs[0] && (segs + more)[1] == segs[1];
    }
  }

  /** The same, for the segments after the first n of a longer list. */
  lemma BridgedExtended(rooms: seq<Room>, links: seq<Segment>, more: seq<Segment>, n: nat)
    requires n <= |links| && Bridged(rooms, links[n..])
    requires more == [] || (|more| == 2 && Bridge(rooms, more[0], more[1]))
    ensures Bridged(rooms, (links + more)[n..])
  {
    BridgedAppend(rooms, links[n..], more);
    assert (links + more)[n..] == links[n..] + more;
  }

  /** Rooms generateRoom could produce, no two overlapping. */
  ghost predicate Spaced(rooms: seq<Room>) {
    && (forall k :: 0 <= k < |rooms| ==> WellPlaced(rooms[k]))
    && (forall j, k :: 0 <= j < |rooms| && 0 <= k < |rooms| && j != k ==> !Overlaps(rooms[j], rooms[k]))
  }

  /** A generated room that overlaps none of the kept rooms can be kept. */
  lemma SpacedAppend(rooms: seq<Room>, room: Room)
    requires Spaced(rooms) && WellPlaced(room) && !RoomOverlaps(room, rooms)
    ensures Spaced(rooms + [room])
  {
    var r := rooms + [room];
    forall j, k | 0 <= j < |r| && 0 <= k < |r| && j != k
      ensures !Overlaps(r[j], r[k])
    {
      if j == |rooms| {
        assert !Overlaps(room, rooms[k]);
      } else if k == |rooms| {
        assert !Overlaps(room, rooms[j]);
      } else {
        assert r[j] == rooms[j] && r[k] == rooms[k];
      }
    }
  }

  /** What generateMap leaves: one to ten rooms of legal size, no two
      overlapping, each carved; the L-corridors between consecutive rooms
      first among the carved segments; nothing else cleared. */
  ghost predicate Dungeon(grid: array2<Tile>, rooms: seq<Room>, segs: seq<Segment>)
    reads grid
  {
    && 1 <= |rooms| <= 10
    && Spaced(rooms)
    && Carved(grid, rooms, segs)
    && Joined(rooms, segs)
  }

  // ---------------------------------------------------------------- walks

  /** A walk over floor tiles, each tile at most one orthogonal step from the
      one before it. */
  ghost predicate FloorPath(grid: array2<Tile>, path: seq<Pos>)
    reads grid
  {
    && |path| >= 1
    && (forall k :: 0 <= k < |path| ==> OnFloor(grid, path[k].x, path[k].y))
    && (forall k :: 0 < k < |path| ==> Abs(path[k - 1].x - path[k].x) + Abs(path[k - 1].y - path[k].y) <= 1)
  }

  ghost predicate Reachable(grid: array2<Tile>, a: Pos, b: Pos)
    reads grid
  {
    exists path :: FloorPath(grid, path) && path[0] == a && path[|path| - 1] == b
  }

  lemma ReachableSymmetric(grid: array2<Tile>, a: Pos, b: Pos)
    requires Reachable(grid, a, b)
    ensures Reachable(grid, b, a)
  {
    var path :| FloorPath(grid, path) && path[0] == a && path[|path| - 1] == b;
    var n := |path|;
    var back: seq<Pos> := seq(n, k requires 0 <= k < n => path[n - 1 - k]);
    forall k | 0 <= k < n ensures OnFloor(grid, back[k].x, back[k].y) {
      assert back[k] == path[n - 1 - k];
    }
    forall k | 0 < k < n
      ensures Abs(back[k - 1].x - back[k].x) + Abs(back[k - 1].y - back[k].y) <= 1
    {
      var m := n - k;
      assert back[k - 1] == path[m] && back[k] == path[m - 1];
    }
    assert FloorPath(grid, back);
  }

  lemma ReachableTransitive(grid: array2<Tile>, a: Pos, b: Pos, c: Pos)
    requires Reachable(grid, a, b) && Reachable(grid, b, c)
    ensures Reachable(grid, a, c)
  {
    var p: seq<Pos> :| FloorPath(grid, p) && p[0] == a && p[|p| - 1] == b;
    var q: seq<Pos> :| FloorPath(grid, q) && q[0] == b && q[|q| - 1] == c;
    var pq: seq<Pos> := p + q;
    forall k | 0 <= k < |pq|
      ensures OnFloor(grid, pq[k].x, pq[k].y)
    {
      if k < |p| {
        assert pq[k] == p[k];
      } else {
        assert pq[k] == q[k - |p|];
      }
    }
    forall k | 0 < k < |pq|
      ensures Abs(pq[k - 1].x - pq[k].x) + Abs(pq[k - 1].y - pq[k].y) <= 1
    {
      if k < |p| {
        assert pq[k - 1] == p[k - 1] && pq[k] == p[k];
      } else if k > |p| {
        assert pq[k - 1] == q[k - 1 - |p|] && pq[k] == q[k - |p|];
      }
    }
  }

  /** Along a row whose tiles from lo to hi are floor. */
  lemma RowWalk(grid: array2<Tile>, y: int, lo: int, hi: int)
    requires lo <= hi
    requires forall x :: lo <= x <= hi ==> OnFloor(grid, x, y)
    ensures Reachable(grid, Pos(lo, y), Pos(hi, y))
  {
    var path := seq(hi - lo + 1, k => Pos(lo + k, y));
    assert forall k :: 0 <= k < |path| ==> path[k] == Pos(lo + k, y);
    assert FloorPath(grid, path);
  }

  /** Along a column whose tiles from lo to hi are floor. */
  lemma ColumnWalk(grid: array2<Tile>, x: int, lo: int, hi: int)
    requires lo <= hi
    requires forall y :: lo <= y <= hi ==> OnFloor(grid, x, y)
    ensures Reachable(grid, Pos(x, lo), Pos(x, hi))
  {
    var path := seq(hi - lo + 1, k => Pos(x, lo + k));
    assert forall k :: 0 <= k < |path| ==> path[k] == Pos(x, lo + k);
    assert FloorPath(grid, path);
  }

  /** Any two tiles of a segment whose tiles are all floor are joined by a
      walk along it. */
  lemma SegmentWalk(grid: array2<Tile>, s: Segment, a: Pos, b: Pos)
    requires forall x, y :: OnSegment(s, x, y) ==> OnFloor(grid, x, y)
    requires OnSegment(s, a.x, a.y) && OnSegment(s, b.x, b.y)
    ensures Reachable(grid, a, b)
  {
    match s
    case Row(x1, x2, y) =>
      var lo, hi := Min(a.x, b.x), Max(a.x, b.x);
      assert forall x :: lo <= x <= hi ==> OnSegment(s, x, y);
      RowWalk(grid, y, lo, hi);
      if a.x > b.x { ReachableSymmetric(grid, Pos(lo, y), Pos(hi, y)); }
    case Column(y1, y2, x) =>
      var lo, hi := Min(a.y, b.y), Max(a.y, b.y);
      assert forall y :: lo <= y <= hi ==> OnSegment(s, x, y);
      ColumnWalk(grid, x, lo, hi);
      if a.y > b.y { ReachableSymmetric(grid, Pos(x, lo), Pos(x, hi)); }
  }

  /** In a carved map every tile of a carved segment that stays off the border
      is floor. */
  lemma CarvedSegmentIsFloor(grid: array2<Tile>, rooms: seq<Room>, segs: seq<Segment>, k: int)
    requires Carved(grid, rooms, segs) && 0 <= k < |segs| && Inside(segs[k])
    ensures forall x, y :: OnSegment(segs[k], x, y) ==> OnFloor(grid, x, y)
  {
    forall x, y | OnSegment(segs[k], x, y) ensures OnFloor(grid, x, y) {
      assert Inner(x, y);
      assert OnAnySegment(segs, x, y);
    }
  }

  /** The L-corridor between rooms j and j + 1 is a walk between their
      centres. */
  lemma NeighbourRoomsReachable(grid: array2<Tile>, rooms: seq<Room>, segs: seq<Segment>, j: int)
    requires Carved(grid, rooms, segs) && Joined(rooms, segs)
    requires forall k :: 0 <= k < |rooms| ==> WellPlaced(rooms[k])
    requires 0 <= j < |rooms| - 1
    ensures Reachable(grid, Center(rooms[j]), Center(rooms[j + 1]))
  {
    var s, t := segs[2 * j], segs[2 * j + 1];
    CorridorJoins(rooms[j], rooms[j + 1], s, t);
    var cx, cy :| OnSegment(s, cx, cy) && OnSegment(t, cx, cy);
    CarvedSegmentIsFloor(grid, rooms, segs, 2 * j);
    CarvedSegmentIsFloor(grid, rooms, segs, 2 * j + 1);
    SegmentWalk(grid, s, Center(rooms[j]), Pos(cx, cy));
    SegmentWalk(grid, t, Pos(cx, cy), Center(rooms[j + 1]));
    ReachableTransitive(grid, Center(rooms[j]), Pos(cx, cy), Center(rooms[j + 1]));
  }

  lemma {:induction false} ReachableFromFirst(grid: array2<Tile>, rooms: seq<Room>, segs: seq<Segment>, j: int)
    requires Carved(grid, rooms, segs) && Joined(rooms, segs)
    requires forall k :: 0 <= k < |rooms| ==> WellPlaced(rooms[k])
    requires 0 <= j < |rooms|
    ensures Reachable(grid, Center(rooms[0]), Center(rooms[j]))
    decreases j
  {
    if j == 0 {
      var c := Center(rooms[0]);
      assert InRoom(rooms[0], c.x, c.y) && InAnyRoom(rooms, c.x, c.y);
      assert FloorPath(grid, [c]);
    } else {
      ReachableFromFirst(grid, rooms, segs, j - 1);
      NeighbourRoomsReachable(grid, rooms, segs, j - 1);
      ReachableTransitive(grid, Center(rooms[0]), Center(rooms[j - 1]), Center(rooms[j]));
    }
  }

  /** Every accepted room can be walked to from every other over floor tiles:
      the corridors between consecutive rooms connect them all, whatever the
      additional corridors do. */
  lemma RoomsConnected(grid: array2<Tile>, rooms: seq<Room>, segs: seq<Segment>)
    requires Carved(grid, rooms, segs) && Joined(rooms, segs)
    requires forall k :: 0 <= k < |rooms| ==> WellPlaced(rooms[k])
    ensures forall i, j :: 0 <= i < |rooms| && 0 <= j < |rooms| ==>
      Reachable(grid, Center(rooms[i]), Center(rooms[j]))
  {
    forall i, j | 0 <= i < |rooms| && 0 <= j < |rooms|
      ensures Reachable(grid, Center(rooms[i]), Center(rooms[j]))
    {
      ReachableFromFirst(grid, rooms, segs, i);
      ReachableFromFirst(grid, rooms, segs, j);
      ReachableSymmetric(grid, Center(rooms[0]), Center(rooms[i]));
      ReachableTransitive(grid, Center(rooms[i]), Center(rooms[0]), Center(rooms[j]));
    }
  }

  /** A generated dungeon has floor (the centre of its first room) and every
      room can be walked to from every other. */
  lemma DungeonConnected(grid: array2<Tile>, rooms: seq<Room>, segs: seq<Segment>)
    requires Dungeon(grid, rooms, segs)
    ensures OnFloor(grid, Center(rooms[0]).x, Center(rooms[0]).y)
    ensures forall i, j :: 0 <= i < |rooms| && 0 <= j < |rooms| ==>
      Reachable(grid, Center(rooms[i]), Center(rooms[j]))
  {
    var c := Center(rooms[0]);
    assert InRoom(rooms[0], c.x, c.y) && InAnyRoom(rooms, c.x, c.y);
    RoomsConnected(grid, rooms, segs);
  }
}
