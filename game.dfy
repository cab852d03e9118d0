/** The Game class: the map of the current level, the player, the enemies,
    the items, the level number, the score and whether the game is running;
    map generation, placement, the turn engine and level progression. */
module Rogalik {
  import opened Chance
  import opened Layout
  import opened Floor
  import opened Entities
  import opened Moves

  /** getRandomEmptyPosition gives up after this many attempts. */
  const Tries: nat := 1000

  /** The keys the keydown handler acts on (w, a, s, d, space); Other is any
      other key. */
  datatype Key = Up | Left | Down | Right | Space | Other

  /** What every turn keeps: enemies and items on floor tiles, one to a
      tile; enemies alive with damage that is not negative; items with
      magnitudes that are not negative; the player on no enemy and no item,
      with health at most maxHealth and positive while the game runs. An
      enemy may stand on an item: isValidEnemyMove does not look at items. */
  ghost predicate Sane(grid: array2<Tile>, player: Option<Player>, es: seq<Enemy>, items: seq<Item>, running: bool)
    reads grid
  {
    && EnemiesLaid(grid, es)
    && ItemsLaid(grid, items)
    && (forall k :: 0 <= k < |es| ==> es[k].health > 0 && es[k].damage >= 0)
    && (forall k :: 0 <= k < |items| ==>
          (items[k].loot.Potion? ==> items[k].loot.healing >= 0) && (items[k].loot.Sword? ==> items[k].loot.damage >= 0))
    && (player.Some? ==>
          && !EnemyAt(es, player.value.x, player.value.y)
          && !ItemAt(items, player.value.x, player.value.y)
          && player.value.health <= player.value.maxHealth
          && (running ==> player.value.health > 0))
  }

  /** Arithmetic helper for the attack's score: one more kill is worth
      another 10 points a level. */
  lemma Bounty(level: int, kills: int)
    ensures 10 * level * (kills + 1) == 10 * level * kills + 10 * level
    ensures 0 <= level && 0 <= kills ==> 0 <= 10 * level * kills
  {}

  /** moveEnemies keeps the state sane; the player only loses health, the
      game stops exactly when the player is slain, and a slain player always
      leaves an enemy standing. */
  lemma SweepSane(grid: array2<Tile>, level: int, stream: nat -> Draw, p: Player, es: seq<Enemy>,
                  items: seq<Item>, t: nat, running: bool)
    requires Sane(grid, Some(p), es, items, running)
    ensures var r := Sweep(grid, level, stream, p, es, t);
      && Sane(grid, Some(r.player), r.enemies, items, running && !r.slain)
      && r.player == p.(health := r.player.health)
      && r.player.health <= p.health
      && |r.enemies| == |es| && t <= r.tick
      && (r.slain ==> r.enemies != [])
  {
    var s := Turn(p, es, t, false);
    var r := Sweep(grid, level, stream, p, es, t);
    SweepKeepsSpread(grid, level, stream, s, 0);
    SweepSteps(grid, level, stream, s, 0);
    SweepPlayer(grid, level, stream, s, 0);
    SweepLength(grid, level, stream, s, 0);
    if running {
      SweepAlive(grid, level, stream, s, 0);
    }
    forall k | 0 <= k < |r.enemies|
      ensures r.enemies[k].health > 0 && r.enemies[k].damage >= 0
    {
      assert StepOrStay(es[k], r.enemies[k]);
    }
    if es == [] {
      assert r == s;
    }
  }

  /** checkItemPickup after a step onto a tile isValidMove accepts keeps the
      state sane: the items on that tile are used up and removed. */
  lemma PickupSane(grid: array2<Tile>, p: Player, es: seq<Enemy>, items: seq<Item>, running: bool, x: int, y: int)
    requires Sane(grid, Some(p), es, items, running) && PlayerMayEnter(grid, es, x, y)
    ensures Sane(grid, Some(Collect(items, p.(x := x, y := y))), es, Remaining(items, x, y), running)
  {
    var left := Remaining(items, x, y);
    RemainingLaid(grid, items, x, y);
    RemainingMembers(items, x, y);
    CollectCapped(items, p.(x := x, y := y));
    forall k | 0 <= k < |left|
      ensures (left[k].loot.Potion? ==> left[k].loot.healing >= 0) && (left[k].loot.Sword? ==> left[k].loot.damage >= 0)
    {
      assert left[k] in items;
    }
  }

  /** playerAttack's strike keeps the state sane. */
  lemma StrikeSane(grid: array2<Tile>, p: Player, es: seq<Enemy>, items: seq<Item>, running: bool)
    requires Sane(grid, Some(p), es, items, running)
    ensures Sane(grid, Some(p), Struck(es, p), items, running)
  {
    StruckStaysLaid(grid, es, p);
  }

  class Game {
    /** this.map, indexed [y, x]: Height rows of Width tiles. */
    const grid: array2<Tile>
    /** Math.random(): its t-th call returns stream(t) / Scale. */
    const stream: nat -> Draw
    /** The number of calls of Math.random() so far. */
    var tick: nat
    var player: Option<Player>
    var enemies: seq<Enemy>
    var items: seq<Item>
    var gameRunning: bool
    var level: int
    var score: int
    /** The number of keydown handlers bindEvents has attached so far. */
    var handlers: nat

    ghost predicate Valid()
      reads this`level, this`score
    {
      Shaped(grid) && 1 <= level && 0 <= score
    }

    /** What every turn keeps (see Sane), with a level of at least 1. */
    ghost predicate Sound()
      reads this`level, this`score, this`player, this`enemies, this`items, this`gameRunning, grid
    {
      Valid() && Sane(grid, player, enemies, items, gameRunning)
    }

    /** The state placement leaves for placeItems(potions, swords) and
        placeEnemies(count): Sound, no enemy on an item, the stock of items,
        at most `count` enemies, each with this level's stats. */
    ghost predicate Populated(potions: int, swords: int, count: int)
      reads this`level, this`score, this`player, this`enemies, this`items, this`gameRunning, grid
    {
      && Sound()
      && Apart(enemies, items)
      && Stocked(items, level, swords, potions)
      && |enemies| <= Max(count, 0)
      && forall k :: 0 <= k < |enemies| ==> Recruit(enemies[k], level)
    }

    constructor (stream: nat -> Draw)
      ensures Valid() && Sound()
      ensures this.stream == stream && tick == 0
      ensures player == None && enemies == [] && items == []
      ensures gameRunning && level == 1 && score == 0 && handlers == 0
      ensures Carved(grid, [], [])
      ensures fresh(grid)
    {
      this.stream := stream;
      grid := new Tile[Height, Width];
      tick := 0;
      player := None;
      enemies := [];
      items := [];
      gameRunning := true;
      level := 1;
      score := 0;
      handlers := 0;
      new;
      InitMap();
    }

    // ------------------------------------------------------------ randomness

    /** One call of Math.random(). */
    method NextDraw() returns (u: Draw)
      modifies this`tick
      ensures u == stream(old(tick)) && tick == old(tick) + 1
    {
      u := stream(tick);
      tick := tick + 1;
    }

    /** random(min, max) */
    method RandomInt(min: int, max: int) returns (r: int)
      modifies this`tick
      ensures r == Random(min, max, stream(old(tick))) && tick == old(tick) + 1
      ensures min <= max ==> min <= r <= max
    {
      var u := NextDraw();
      r := Random(min, max, u);
    }

    // ------------------------------------------------------------ generation

    /** initMap: every tile a wall. */
    method InitMap()
      requires Shaped(grid)
      modifies grid
      ensures Carved(grid, [], [])
    {
      var y := 0;
      while y < Height
        invariant 0 <= y <= Height
        invariant forall j, i :: 0 <= j < y && 0 <= i < Width ==> grid[j, i] == Wall
      {
        var x := 0;
        while x < Width
          invariant 0 <= x <= Width
          invariant forall j, i :: 0 <= j < y && 0 <= i < Width ==> grid[j, i] == Wall
          invariant forall i :: 0 <= i < x ==> grid[y, i] == Wall
        {
          grid[y, x] := Wall;
          x := x + 1;
        }
        y := y + 1;
      }
    }

    /** generateRoom: four draws give width, height, x and y. */
    method GenerateRoom() returns (room: Room)
      modifies this`tick
      ensures tick == old(tick) + 4
      ensures room == RoomFromDraws(stream(old(tick)), stream(old(tick) + 1), stream(old(tick) + 2), stream(old(tick) + 3))
      ensures WellPlaced(room)
    {
      var width := RandomInt(3, 8);
      var height := RandomInt(3, 8);
      var x := RandomInt(1, Width - width - 1);
      var y := RandomInt(1, Height - height - 1);
      room := Room(x, y, width, height);
    }

    /** carveRoom: clears exactly the room's tiles. */
    method CarveRoom(room: Room)
      requires Shaped(grid)
      requires 0 <= room.x && room.x + room.width <= Width && 0 <= room.y && room.y + room.height <= Height
      modifies grid
      ensures forall y, x :: 0 <= y < Height && 0 <= x < Width ==>
        grid[y, x] == if InRoom(room, x, y) then Empty else old(grid[y, x])
    {
      var y := room.y;
      while y < room.y + room.height
        invariant room.y <= y <= Max(room.y, room.y + room.height)
        invariant forall j, i :: 0 <= j < Height && 0 <= i < Width ==>
          grid[j, i] == if room.y <= j < y && room.x <= i < room.x + room.width then Empty else old(grid[j, i])
      {
        var x := room.x;
        while x < room.x + room.width
          invariant room.x <= x <= Max(room.x, room.x + room.width)
          invariant forall j, i :: 0 <= j < Height && 0 <= i < Width ==>
            grid[j, i] == if (room.y <= j < y && room.x <= i < room.x + room.width) || (j == y && room.x <= i < x)
                          then Empty else old(grid[j, i])
        {
          grid[y, x] := Empty;
          x := x + 1;
        }
        y := y + 1;
      }
    }

    /** carveHorizontalCorridor(x1, x2, y): clears the row's tiles between x1
        and x2 that lie on the map. */
    method CarveHorizontalCorridor(x1: int, x2: int, y: int)
      requires Shaped(grid)
      modifies grid
      ensures forall j, i :: 0 <= j < Height && 0 <= i < Width ==>
        grid[j, i] == if OnSegment(Row(x1, x2, y), i, j) then Empty else old(grid[j, i])
    {
      var startX, endX := Min(x1, x2), Max(x1, x2);
      var x := startX;
      while x <= endX
        invariant startX <= x <= endX + 1
        invariant forall j, i :: 0 <= j < Height && 0 <= i < Width ==>
          grid[j, i] == if j == y && startX <= i < x then Empty else old(grid[j, i])
      {
        if 0 <= x < Width && 0 <= y < Height {
          grid[y, x] := Empty;
        }
        x := x + 1;
      }
    }

    /** carveVerticalCorridor(y1, y2, x): clears the column's tiles between y1
        and y2 that lie on the map. */
    method CarveVerticalCorridor(y1: int, y2: int, x: int)
      requires Shaped(grid)
      modifies grid
      ensures forall j, i :: 0 <= j < Height && 0 <= i < Width ==>
        grid[j, i] == if OnSegment(Column(y1, y2, x), i, j) then Empty else old(grid[j, i])
    {
      var startY, endY := Min(y1, y2), Max(y1, y2);
      var y := startY;
      while y <= endY
        invariant startY <= y <= endY + 1
        invariant forall j, i :: 0 <= j < Height && 0 <= i < Width ==>
          grid[j, i] == if i == x && startY <= j < y then Empty else old(grid[j, i])
      {
        if 0 <= x < Width && 0 <= y < Height {
          grid[y, x] := Empty;
        }
        y := y + 1;
      }
    }

    /** createCorridor(a, b): one draw picks which of the two L-shapes joins
        the centres; returns the two segments carved. */
    method CreateCorridor(a: Room, b: Room) returns (ghost segs: seq<Segment>)
      requires Shaped(grid)
      modifies grid, this`tick
      ensures tick == old(tick) + 1
      ensures segs == Corridor(a, b, Heads(stream(old(tick))))
      ensures forall y, x :: 0 <= y < Height && 0 <= x < Width ==>
        grid[y, x] == if OnAnySegment(segs, x, y) then Empty else old(grid[y, x])
    {
      var centerA, centerB := Center(a), Center(b);
      var u := NextDraw();
      if Heads(u) {
        CarveHorizontalCorridor(centerA.x, centerB.x, centerA.y);
        CarveVerticalCorridor(centerA.y, centerB.y, centerB.x);
      } else {
        CarveVerticalCorridor(centerA.y, centerB.y, centerA.x);
        CarveHorizontalCorridor(centerA.x, centerB.x, centerB.y);
      }
      segs := Corridor(a, b, Heads(u));
      forall y, x | 0 <= y < Height && 0 <= x < Width
        ensures grid[y, x] == if OnAnySegment(segs, x, y) then Empty else old(grid[y, x])
      {
        OnPair(segs[0], segs[1], x, y);
        assert segs == [segs[0], segs[1]];
      }
    }

    /** The first loop of connectRooms: an L-corridor between each pair of
        consecutive rooms; returns the segments carved, two per pair. */
    method ConnectConsecutive(rooms: seq<Room>) returns (ghost links: seq<Segment>)
      requires Shaped(grid) && 2 <= |rooms|
      modifies grid, this`tick
      ensures |links| == 2 * (|rooms| - 1)
      ensures forall j :: 0 <= j < |rooms| - 1 ==> Linked(links[2 * j], links[2 * j + 1], rooms[j], rooms[j + 1])
      ensures forall y, x :: 0 <= y < Height && 0 <= x < Width ==>
        grid[y, x] == if OnAnySegment(links, x, y) then Empty else old(grid[y, x])
      ensures tick == old(tick) + |rooms| - 1
      ensures (forall k :: 0 <= k < |rooms| ==> WellPlaced(rooms[k])) ==>
        forall k :: 0 <= k < |links| ==> Inside(links[k])
    {
      links := [];
      var i := 0;
      while i < |rooms| - 1
        invariant 0 <= i <= |rooms| - 1
        invariant |links| == 2 * i
        invariant forall j :: 0 <= j < i ==> Linked(links[2 * j], links[2 * j + 1], rooms[j], rooms[j + 1])
        invariant forall y, x :: 0 <= y < Height && 0 <= x < Width ==>
          grid[y, x] == if OnAnySegment(links, x, y) then Empty else old(grid[y, x])
        invariant tick == old(tick) + i
      {
        ghost var before := links;
        var segs := CreateCorridor(rooms[i], rooms[i + 1]);
        LinksExtended(rooms, before, segs, i, Heads(stream(old(tick) + i)));
        links := links + segs;
        forall y, x | 0 <= y < Height && 0 <= x < Width
          ensures grid[y, x] == if OnAnySegment(links, x, y) then Empty else old(grid[y, x])
        {
          OnAnySegmentAppend(before, segs, x, y);
        }
        i := i + 1;
      }
      if forall k :: 0 <= k < |rooms| ==> WellPlaced(rooms[k]) {
        LinksInside(rooms, links);
      }
    }

    /** What connectRooms does from draw t until draw u: with fewer than two
        rooms, nothing; otherwise the L-corridors between consecutive rooms
        (one draw each) come first, then random(1, floor(n / 2)) attempts
        (one draw for the count, two per attempt and one more for each
        corridor carved), each corridor carved joining two different rooms. */
    ghost predicate Connections(rooms: seq<Room>, links: seq<Segment>, t: nat, u: nat) {
      if |rooms| < 2 then links == [] && u == t
      else
        var n := 2 * (|rooms| - 1);
        var attempts := Random(1, |rooms| / 2, stream(t + |rooms| - 1));
        && Joined(rooms, links)
        && n <= |links| <= n + 2 * attempts
        && Bridged(rooms, links[n..])
        && u == t + |rooms| + 2 * attempts + (|links| - n) / 2
    }

    /** connectRooms(rooms): an L-corridor between each pair of consecutive
        rooms, then random(1, floor(n / 2)) attempts at a corridor between two
        randomly chosen rooms, skipped when both choices are the same room.
        Returns every segment carved, consecutive-room corridors first. */
    method ConnectRooms(rooms: seq<Room>) returns (ghost links: seq<Segment>)
      requires Shaped(grid)
      modifies grid, this`tick
      ensures Joined(rooms, links)
      ensures Connections(rooms, links, old(tick), tick)
      ensures (forall k :: 0 <= k < |rooms| ==> WellPlaced(rooms[k])) ==>
        forall k :: 0 <= k < |links| ==> Inside(links[k])
      ensures forall y, x :: 0 <= y < Height && 0 <= x < Width ==>
        grid[y, x] == if OnAnySegment(links, x, y) then Empty else old(grid[y, x])
    {
      links := [];
      if |rooms| < 2 {
        return;
      }
      ghost var placed := forall k :: 0 <= k < |rooms| ==> WellPlaced(rooms[k]);
      ghost var n := 2 * (|rooms| - 1);
      links := ConnectConsecutive(rooms);
      var additional := RandomInt(1, |rooms| / 2);
      assert additional == Random(1, |rooms| / 2, stream(old(tick) + |rooms| - 1));
      var k := 0;
      while k < additional
        invariant 0 <= k <= additional
        invariant Joined(rooms, links)
        invariant n <= |links| <= n + 2 * k && Bridged(rooms, links[n..])
        invariant tick == old(tick) + |rooms| + 2 * k + (|links| - n) / 2
        invariant placed ==> forall j :: 0 <= j < |links| ==> Inside(links[j])
        invariant forall y, x :: 0 <= y < Height && 0 <= x < Width ==>
          grid[y, x] == if OnAnySegment(links, x, y) then Empty else old(grid[y, x])
      {
        ghost var before := links;
        var segs := ConnectPair(rooms);
        links := links + segs;
        JoinedExtended(rooms, before, segs);
        BridgedExtended(rooms, before, segs, n);
        if placed {
          InsideExtended(before, segs);
        }
        forall y, x | 0 <= y < Height && 0 <= x < Width
          ensures grid[y, x] == if OnAnySegment(links, x, y) then Empty else old(grid[y, x])
        {
          OnAnySegmentAppend(before, segs, x, y);
        }
        k := k + 1;
      }
    }

    /** One attempt of connectRooms's second loop: two draws pick rooms a and
        b; unless a is b, a third draw shapes the L-corridor between them.
        Returns the segments carved. */
    method ConnectPair(rooms: seq<Room>) returns (ghost segs: seq<Segment>)
      requires Shaped(grid) && 1 <= |rooms|
      modifies grid, this`tick
      ensures var a, b := Random(0, |rooms| - 1, stream(old(tick))), Random(0, |rooms| - 1, stream(old(tick) + 1));
        && (a == b ==> segs == [] && tick == old(tick) + 2)
        && (a != b ==> segs == Corridor(rooms[a], rooms[b], Heads(stream(old(tick) + 2))) && tick == old(tick) + 3)
      ensures segs == [] || (|segs| == 2 && Bridge(rooms, segs[0], segs[1]))
      ensures tick == old(tick) + 2 + |segs| / 2
      ensures (forall k :: 0 <= k < |rooms| ==> WellPlaced(rooms[k])) ==>
        forall k :: 0 <= k < |segs| ==> Inside(segs[k])
      ensures forall y, x :: 0 <= y < Height && 0 <= x < Width ==>
        grid[y, x] == if OnAnySegment(segs, x, y) then Empty else old(grid[y, x])
    {
      segs := [];
      var a := RandomInt(0, |rooms| - 1);
      var b := RandomInt(0, |rooms| - 1);
      if a != b {
        segs := CreateCorridor(rooms[a], rooms[b]);
        assert Linked(segs[0], segs[1], rooms[a], rooms[b]) by {
          assert segs == [segs[0], segs[1]];
        }
        CorridorJoins(rooms[a], rooms[b], segs[0], segs[1]);
      } else {
        assert !OnAnySegment(segs, 0, 0);
      }
    }

    /** One round of generateAdditionalCorridors's loop: a coin, then a row
        (column), a start and a length; the straight corridor is carved. */
    method CarveExtraCorridor() returns (ghost seg: Segment)
      requires Shaped(grid)
      modifies grid, this`tick
      ensures tick == old(tick) + 4
      ensures seg == ExtraSegment(stream(old(tick)), stream(old(tick) + 1), stream(old(tick) + 2), stream(old(tick) + 3))
      ensures forall y, x :: 0 <= y < Height && 0 <= x < Width ==>
        grid[y, x] == if OnSegment(seg, x, y) then Empty else old(grid[y, x])
    {
      var coin := NextDraw();
      if Heads(coin) {
        var y := RandomInt(1, Height - 2);
        var startX := RandomInt(1, Width - 10);
        var length := RandomInt(5, 15);
        var endX := Min(startX + length, Width - 1);
        CarveHorizontalCorridor(startX, endX, y);
        seg := Row(startX, endX, y);
      } else {
        var x := RandomInt(1, Width - 2);
        var startY := RandomInt(1, Height - 10);
        var length := RandomInt(5, 15);
        var endY := Min(startY + length, Height - 1);
        CarveVerticalCorridor(startY, endY, x);
        seg := Column(startY, endY, x);
      }
    }

    /** generateAdditionalCorridors: random(2, 4) straight corridors, each
        from four draws (see ExtraSegment). */
    method GenerateAdditionalCorridors() returns (ghost extras: seq<Segment>)
      requires Shaped(grid)
      modifies grid, this`tick
      ensures |extras| == Random(2, 4, stream(old(tick)))
      ensures forall k :: 0 <= k < |extras| ==>
        extras[k] == ExtraSegment(stream(old(tick) + 1 + 4 * k), stream(old(tick) + 2 + 4 * k),
                                  stream(old(tick) + 3 + 4 * k), stream(old(tick) + 4 + 4 * k))
      ensures tick == old(tick) + 1 + 4 * |extras|
      ensures forall y, x :: 0 <= y < Height && 0 <= x < Width ==>
        grid[y, x] == if OnAnySegment(extras, x, y) then Empty else old(grid[y, x])
    {
      var count := RandomInt(2, 4);
      extras := [];
      var i := 0;
      while i < count
        invariant 0 <= i <= count && |extras| == i
        invariant tick == old(tick) + 1 + 4 * i
        invariant forall k :: 0 <= k < i ==>
          extras[k] == ExtraSegment(stream(old(tick) + 1 + 4 * k), stream(old(tick) + 2 + 4 * k),
                                    stream(old(tick) + 3 + 4 * k), stream(old(tick) + 4 + 4 * k))
        invariant forall y, x :: 0 <= y < Height && 0 <= x < Width ==>
          grid[y, x] == if OnAnySegment(extras, x, y) then Empty else old(grid[y, x])
      {
        ghost var before := extras;
        var seg := CarveExtraCorridor();
        extras := extras + [seg];
        forall y, x | 0 <= y < Height && 0 <= x < Width
          ensures grid[y, x] == if OnAnySegment(extras, x, y) then Empty else old(grid[y, x])
        {
          OnAnySegmentAppend(before, [seg], x, y);
          assert OnAnySegment([seg], x, y) <==> OnSegment(seg, x, y) by {
            assert [seg][0] == seg;
          }
        }
        i := i + 1;
      }
    }

    /** generateAdditionalCorridors's corridors from draw t: random(2, 4) of
        them, each the ExtraSegment of its own four draws. */
    ghost predicate Extras(extras: seq<Segment>, t: nat) {
      && |extras| == Random(2, 4, stream(t))
      && forall k :: 0 <= k < |extras| ==>
           extras[k] == ExtraSegment(stream(t + 1 + 4 * k), stream(t + 2 + 4 * k),
                                     stream(t + 3 + 4 * k), stream(t + 4 + 4 * k))
    }

    /** generateMap: a wall-filled map; random(5, 10) rounds, each trying up
        to 50 generated rooms and keeping the first that overlaps no kept
        room; then the room connections and the additional corridors. The
        first round always keeps its first room. The segments carved are
        connectRooms's `links` followed by the additional corridors `extras`,
        which take the draws right after the connections. */
    method GenerateMap() returns (ghost rooms: seq<Room>, ghost segs: seq<Segment>,
                                  ghost links: seq<Segment>, ghost extras: seq<Segment>)
      requires Shaped(grid)
      modifies grid, this`tick
      ensures Dungeon(grid, rooms, segs)
      ensures segs == links + extras
      ensures exists t: nat, u: nat :: old(tick) <= t && Connections(rooms, links, t, u) && Extras(extras, u)
                                      && tick == u + 1 + 4 * |extras|
    {
      InitMap();
      var accepted: seq<Room> := [];
      var roomCount := RandomInt(5, 10);
      var i := 0;
      while i < roomCount
        invariant 0 <= i <= roomCount && |accepted| <= i
        invariant 0 < i ==> 1 <= |accepted|
        invariant Spaced(accepted) && Carved(grid, accepted, [])
        invariant old(tick) <= tick
      {
        accepted := PlaceRoom(accepted);
        i := i + 1;
      }
      ghost var t := tick;
      links := ConnectRooms(accepted);
      ghost var u := tick;
      extras := GenerateAdditionalCorridors();
      assert Connections(accepted, links, t, u) && Extras(extras, u);
      rooms, segs := accepted, links + extras;
      forall y, x | 0 <= y < Height && 0 <= x < Width
        ensures grid[y, x] == if InAnyRoom(rooms, x, y) || OnAnySegment(segs, x, y) then Empty else Wall
      {
        OnAnySegmentAppend(links, extras, x, y);
      }
      JoinedExtended(rooms, links, extras);
    }

    /** One round of generateMap's loop: up to 50 generated rooms, the first
        that overlaps no kept room carved and kept. With no room kept yet,
        the first one is kept. */
    method PlaceRoom(accepted: seq<Room>) returns (grown: seq<Room>)
      requires Spaced(accepted) && Carved(grid, accepted, [])
      modifies grid, this`tick
      ensures Spaced(grown) && Carved(grid, grown, [])
      ensures |accepted| <= |grown| <= |accepted| + 1
      ensures accepted == [] ==> |grown| == 1
      ensures grown == accepted || (grown[..|accepted|] == accepted && |grown| == |accepted| + 1
                                    && WellPlaced(grown[|accepted|]) && !RoomOverlaps(grown[|accepted|], accepted))
      ensures old(tick) <= tick <= old(tick) + 200
    {
      var attempts := 0;
      while attempts < 50
        invariant 0 <= attempts <= 50
        invariant accepted == [] ==> attempts == 0
        invariant Carved(grid, accepted, [])
        invariant tick == old(tick) + 4 * attempts
      {
        var room := GenerateRoom();
        if !RoomOverlaps(room, accepted) {
          CarveRoom(room);
          grown := accepted + [room];
          forall y, x | 0 <= y < Height && 0 <= x < Width
            ensures grid[y, x] == if InAnyRoom(grown, x, y) || OnAnySegment([], x, y) then Empty else Wall
          {
            InAnyRoomAppend(accepted, room, x, y);
          }
          SpacedAppend(accepted, room);
          return;
        }
        attempts := attempts + 1;
      }
      grown := accepted;
    }

    // ------------------------------------------------------------ placement

    /** isPositionEmpty(x, y): a floor tile with no player, enemy or item on it. */
    predicate Vacant(x: int, y: int)
      reads this`player, this`enemies, this`items, grid
    {
      && Shaped(grid) && InBounds(x, y) && grid[y, x] == Empty
      && !(player.Some? && player.value.x == x && player.value.y == y)
      && !EnemyAt(enemies, x, y)
      && !ItemAt(items, x, y)
    }

    /** The tile getRandomEmptyPosition tries with draws t and t + 1. */
    function Candidate(t: nat): (c: Pos)
      ensures InBounds(c.x, c.y)
    {
      Pos(Random(0, Width - 1, stream(t)), Random(0, Height - 1, stream(t + 1)))
    }

    /** The tile of attempt j of a search that starts at draw t. */
    function Attempt(t: nat, j: nat): Pos {
      Candidate(t + 2 * j)
    }

    /** None of the first n attempts from draw t finds a vacant tile: the
        first is refused, and so are the n - 1 after it. */
    predicate Rejected(t: nat, n: nat)
      reads this`player, this`enemies, this`items, grid
      decreases n
    {
      n == 0 || (!Vacant(Candidate(t).x, Candidate(t).y) && Rejected(t + 2, n - 1))
    }

    /** getRandomEmptyPosition with `left` attempts to go, from draw t: the
        tile found, if any, and the number of the next draw. */
    function Search(t: nat, left: nat): (r: (Option<Pos>, nat))
      reads this`player, this`enemies, this`items, grid
      ensures t <= r.1 <= t + 2 * left
      decreases left
    {
      if left == 0 then (None, t)
      else if Vacant(Candidate(t).x, Candidate(t).y) then (Some(Candidate(t)), t + 2)
      else Search(t + 2, left - 1)
    }

    /** The search finds nothing exactly when every attempt is refused, and
        it has then used all of its draws. */
    lemma {:induction false} SearchMisses(t: nat, left: nat)
      ensures var r := Search(t, left);
        && (r.0.None? <==> Rejected(t, left))
        && (r.0.None? ==> r.1 == t + 2 * left)
      decreases left
    {
      if left > 0 {
        SearchStep(t, left);
        SearchMisses(t + 2, left - 1);
      }
    }

    /** A tile the search finds is vacant, and it is the first vacant
        attempt: it is attempt j, the search stops after j's two draws, and
        every attempt before j was refused. */
    lemma {:induction false} SearchFindsFirst(t: nat, left: nat) returns (j: nat)
      ensures var r := Search(t, left);
        r.0.Some? ==> && Vacant(r.0.value.x, r.0.value.y)
                      && j < left && r.0.value == Attempt(t, j) && r.1 == t + 2 * j + 2 && Rejected(t, j)
      decreases left
    {
      j := 0;
      if left > 0 {
        SearchStep(t, left);
        if Vacant(Candidate(t).x, Candidate(t).y) {
          assert Attempt(t, 0) == Candidate(t);
        } else {
          var k := SearchFindsFirst(t + 2, left - 1);
          if Search(t + 2, left - 1).0.Some? {
            AttemptShift(t, k);
            j := k + 1;
          }
        }
      }
    }

    /** One attempt of the search. */
    lemma SearchStep(t: nat, left: nat)
      requires 0 < left
      ensures Search(t, left) ==
        if Vacant(Candidate(t).x, Candidate(t).y) then (Some(Candidate(t)), t + 2) else Search(t + 2, left - 1)
    {}

    lemma AttemptShift(t: nat, j: nat)
      ensures Attempt(t + 2, j) == Attempt(t, j + 1)
    {}

    /** Rejected says what its name promises: the first n attempts from
        draw t are refused exactly when every attempt j < n is. */
    lemma {:induction false} RejectedAll(t: nat, n: nat)
      ensures Rejected(t, n) <==> forall j :: 0 <= j < n ==> !Vacant(Attempt(t, j).x, Attempt(t, j).y)
      decreases n
    {
      if n > 0 {
        var s := t + 2;
        RejectedAll(s, n - 1);
        assert Attempt(t, 0) == Candidate(t);
        forall j | 0 <= j < n - 1 ensures Attempt(s, j) == Attempt(t, j + 1) {
          AttemptShift(t, j);
        }
        if Rejected(t, n) {
          forall j | 0 <= j < n ensures !Vacant(Attempt(t, j).x, Attempt(t, j).y) {
            if j > 0 {
              assert Attempt(t, j) == Attempt(s, j - 1);
            }
          }
        }
      }
    }

    /** isPositionEmpty(x, y) */
    method IsPositionEmpty(x: int, y: int) returns (empty: bool)
      requires Shaped(grid) && InBounds(x, y)
      ensures empty == Vacant(x, y)
    {
      if grid[y, x] != Empty {
        return false;
      }
      if player.Some? && player.value.x == x && player.value.y == y {
        return false;
      }
      var k := 0;
      while k < |enemies|
        invariant 0 <= k <= |enemies|
        invariant forall j :: 0 <= j < k ==> enemies[j].x != x || enemies[j].y != y
      {
        if enemies[k].x == x && enemies[k].y == y {
          return false;
        }
        k := k + 1;
      }
      k := 0;
      while k < |items|
        invariant 0 <= k <= |items|
        invariant forall j :: 0 <= j < k ==> items[j].x != x || items[j].y != y
      {
        if items[k].x == x && items[k].y == y {
          return false;
        }
        k := k + 1;
      }
      return true;
    }

    /** One attempt of getRandomEmptyPosition: two draws give the tile, kept
        when it is vacant. */
    method TryTile() returns (found: Option<Pos>)
      requires Shaped(grid)
      modifies this`tick
      ensures tick == old(tick) + 2
      ensures found == if Vacant(Candidate(old(tick)).x, Candidate(old(tick)).y) then Some(Candidate(old(tick))) else None
    {
      var x := RandomInt(0, Width - 1);
      var y := RandomInt(0, Height - 1);
      var empty := IsPositionEmpty(x, y);
      found := if empty then Some(Pos(x, y)) else None;
    }

    /** getRandomEmptyPosition: up to Tries attempts, two draws each. */
    method GetRandomEmptyPosition() returns (pos: Option<Pos>)
      requires Shaped(grid)
      modifies this`tick
      ensures (pos, tick) == Search(old(tick), Tries)
      ensures pos.Some? ==> Vacant(pos.value.x, pos.value.y)
    {
      var attempts := 0;
      while attempts < Tries
        invariant 0 <= attempts <= Tries
        invariant Search(tick, Tries - attempts) == Search(old(tick), Tries)
      {
        SearchStep(tick, Tries - attempts);
        var found := TryTile();
        if found.Some? {
          return found;
        }
        attempts := attempts + 1;
      }
      return None;
    }

    /** placeItems(potions, swords): `swords` searches, each placing a sword
        of this level's damage on the tile found, then `potions` searches for
        potions of this level's healing. A search that finds nothing places
        nothing. */
    method PlaceItems(potions: int, swords: int)
      requires Valid()
      modifies this`items, this`tick
      ensures Strewn()
      ensures Stocked(items, level, swords, potions)
      ensures old(tick) <= tick
    {
      items := [];
      PlaceSwords(swords);
      PlacePotions(potions, swords);
    }

    /** placeItems's first loop: `swords` searches for swords. */
    method PlaceSwords(swords: int)
      requires Valid() && Strewn() && items == []
      modifies this`items, this`tick
      ensures Strewn() && Stocked(items, level, swords, 0)
      ensures old(tick) <= tick
    {
      var i := 0;
      while i < swords
        invariant 0 <= i <= Max(swords, 0)
        invariant Strewn() && Stocked(items, level, i, 0)
        invariant old(tick) <= tick
      {
        ghost var before := items;
        var swordDamage := 15 + level * 3;
        var placed := PlaceLoot(Sword(swordDamage));
        if placed.Some? {
          StockedSword(before, placed.value, level, i);
        } else {
          assert items == before;
        }
        i := i + 1;
      }
    }

    /** placeItems's second loop: `potions` searches for potions, after the
        swords. */
    method PlacePotions(potions: int, swords: int)
      requires Valid() && Strewn() && Stocked(items, level, swords, 0)
      modifies this`items, this`tick
      ensures Strewn() && Stocked(items, level, swords, potions)
      ensures |old(items)| <= |items| && items[..|old(items)|] == old(items)
      ensures old(tick) <= tick
    {
      var i := 0;
      while i < potions
        invariant 0 <= i <= Max(potions, 0)
        invariant Strewn() && Stocked(items, level, swords, i)
        invariant |old(items)| <= |items| && items[..|old(items)|] == old(items)
        invariant old(tick) <= tick
      {
        ghost var before := items;
        var healingAmount := 35 + level * 10;
        var placed := PlaceLoot(Potion(healingAmount));
        PotionPlaced(old(items), before, placed, level, swords, i);
        i := i + 1;
      }
    }

    /** The items one to a floor tile, none under an enemy or the player. */
    ghost predicate Strewn()
      reads this`player, this`enemies, this`items, grid
    {
      && ItemsLaid(grid, items)
      && Apart(enemies, items)
      && (player.Some? ==> !ItemAt(items, player.value.x, player.value.y))
    }

    /** One search of placeItems: the loot goes on the tile found, if any. */
    method PlaceLoot(loot: Loot) returns (placed: Option<Item>)
      requires Shaped(grid) && Strewn()
      modifies this`items, this`tick
      ensures items == old(items) + (if placed.Some? then [placed.value] else [])
      ensures var (found, u) := old(Search(tick, Tries));
                tick == u && placed == if found.Some? then Some(Item(found.value.x, found.value.y, loot)) else None
      ensures Strewn() && old(tick) <= tick
    {
      var pos := GetRandomEmptyPosition();
      placed := None;
      if pos.Some? {
        placed := Some(Item(pos.value.x, pos.value.y, loot));
        AddItem(placed.value);
      }
    }

    /** this.items.push(it) for an item on a tile getRandomEmptyPosition
        found. */
    method AddItem(it: Item)
      requires Vacant(it.x, it.y) && Strewn()
      modifies this`items
      ensures items == old(items) + [it]
      ensures Strewn()
    {
      if player.Some? {
        ItemAtAppend(items, it, player.value.x, player.value.y);
      }
      items := items + [it];
    }

    /** placePlayer: a fresh player (100 of 100 health, damage 20) on the
        tile the search finds; no change when it finds none. */
    method PlacePlayer()
      requires Shaped(grid)
      modifies this`player, this`tick
      ensures tick == old(Search(tick, Tries)).1
      ensures old(Search(tick, Tries)).0.None? ==> player == old(player)
      ensures old(Search(tick, Tries)).0.Some? ==>
        player == Some(FreshPlayer(old(Search(tick, Tries)).0.value.x, old(Search(tick, Tries)).0.value.y))
      ensures player != old(player) ==>
        && player.Some? && OnFloor(grid, player.value.x, player.value.y)
        && !EnemyAt(enemies, player.value.x, player.value.y)
        && !ItemAt(items, player.value.x, player.value.y)
        && (old(player).Some? ==> player.value.x != old(player).value.x || player.value.y != old(player).value.y)
    {
      var pos := GetRandomEmptyPosition();
      if pos.Some? {
        player := Some(FreshPlayer(pos.value.x, pos.value.y));
      }
    }

    /** placeEnemies(count): `count` searches, each placing an enemy with this
        level's health and damage on the tile found. */
    method PlaceEnemies(count: int)
      requires Valid()
      modifies this`enemies, this`tick
      ensures Mustered()
      ensures |enemies| <= Max(count, 0)
      ensures old(tick) <= tick
    {
      enemies := [];
      var i := 0;
      while i < count
        invariant 0 <= i && |enemies| <= i <= Max(count, 0)
        invariant Mustered()
        invariant old(tick) <= tick
      {
        PlaceEnemy();
        i := i + 1;
      }
    }

    /** The enemies one to a floor tile, none on an item or the player, each
        with this level's stats. */
    ghost predicate Mustered()
      reads this`level, this`player, this`enemies, this`items, grid
    {
      && EnemiesLaid(grid, enemies)
      && (forall k :: 0 <= k < |enemies| ==> Recruit(enemies[k], level))
      && Apart(enemies, items)
      && (player.Some? ==> !EnemyAt(enemies, player.value.x, player.value.y))
    }

    /** One search of placeEnemies: an enemy of 50 + 15 (level - 1) health
        and 15 + 8 (level - 1) damage goes on the tile found, if any. */
    method PlaceEnemy()
      requires Valid() && Mustered()
      modifies this`enemies, this`tick
      ensures Mustered()
      ensures var (found, u) := old(Search(tick, Tries));
                && tick == u
                && enemies == old(enemies) + if found.Some? then [Enemy(found.value.x, found.value.y, EnemyHealth(level), EnemyHealth(level), EnemyDamage(level))] else []
      ensures old(tick) <= tick
    {
      var pos := GetRandomEmptyPosition();
      if pos.Some? {
        var baseHealth := 50;
        var baseDamage := 15;
        var levelMultiplier := level - 1;
        var health := baseHealth + levelMultiplier * 15;
        var damage := baseDamage + levelMultiplier * 8;
        var e := Enemy(pos.value.x, pos.value.y, health, health, damage);
        assert e == Enemy(pos.value.x, pos.value.y, EnemyHealth(level), EnemyHealth(level), EnemyDamage(level));
        ghost var before := enemies;
        enemies := enemies + [e];
        forall x, y ensures EnemyAt(enemies, x, y) <==> EnemyAt(before, x, y) || (e.x == x && e.y == y) {
          EnemyAtAppend(before, e, x, y);
        }
      }
    }

    // ------------------------------------------------------------- the turn

    /** The loop over the enemies shared by isPositionEmpty, isValidMove and
        isValidEnemyMove. */
    method EnemyOn(x: int, y: int) returns (found: bool)
      ensures found == EnemyAt(enemies, x, y)
    {
      var k := 0;
      while k < |enemies|
        invariant 0 <= k <= |enemies|
        invariant forall j :: 0 <= j < k ==> enemies[j].x != x || enemies[j].y != y
      {
        if enemies[k].x == x && enemies[k].y == y {
          return true;
        }
        k := k + 1;
      }
      return false;
    }

    /** isValidMove(x, y) */
    method IsValidMove(x: int, y: int) returns (ok: bool)
      requires Shaped(grid)
      ensures ok == PlayerMayEnter(grid, enemies, x, y)
    {
      if x < 0 || x >= Width || y < 0 || y >= Height {
        return false;
      }
      if grid[y, x] == Wall {
        return false;
      }
      var taken := EnemyOn(x, y);
      return !taken;
    }

    /** isValidEnemyMove(x, y) */
    method IsValidEnemyMove(x: int, y: int) returns (ok: bool)
      requires Shaped(grid) && player.Some?
      ensures ok == EnemyMayEnter(grid, player.value, enemies, x, y)
    {
      if x < 0 || x >= Width || y < 0 || y >= Height {
        return false;
      }
      if grid[y, x] == Wall {
        return false;
      }
      if player.value.x == x && player.value.y == y {
        return false;
      }
      var taken := EnemyOn(x, y);
      return !taken;
    }

    /** moveEnemyRandomly(enemy i): one draw picks a direction; the enemy
        steps that way when isValidEnemyMove allows it. */
    method MoveEnemyRandomly(i: nat)
      requires Shaped(grid) && player.Some? && i < |enemies|
      modifies this`enemies, this`tick
      ensures enemies == old(enemies)[i := Wander(grid, player.value, old(enemies), i, stream(old(tick)))]
      ensures tick == old(tick) + 1
    {
      var k := RandomInt(0, |Directions| - 1);
      var direction := Directions[k];
      var newX, newY := enemies[i].x + direction.x, enemies[i].y + direction.y;
      var ok := IsValidEnemyMove(newX, newY);
      if ok {
        enemies := enemies[i := enemies[i].(x := newX, y := newY)];
      }
    }

    /** moveEnemyTowardsPlayer(enemy i): the seeking step when
        isValidEnemyMove allows it, a random move otherwise. */
    method MoveEnemyTowardsPlayer(i: nat)
      requires Shaped(grid) && player.Some? && i < |enemies|
      modifies this`enemies, this`tick
      ensures var r := Pursue(grid, player.value, old(enemies), i, stream, old(tick));
        enemies == old(enemies)[i := r.0] && tick == r.1
    {
      var dx := player.value.x - enemies[i].x;
      var dy := player.value.y - enemies[i].y;
      var moveX, moveY := 0, 0;
      if Abs(dx) > Abs(dy) {
        moveX := if dx > 0 then 1 else -1;
      } else {
        moveY := if dy > 0 then 1 else -1;
      }
      var newX, newY := enemies[i].x + moveX, enemies[i].y + moveY;
      var ok := IsValidEnemyMove(newX, newY);
      if ok {
        enemies := enemies[i := enemies[i].(x := newX, y := newY)];
      } else {
        MoveEnemyRandomly(i);
      }
    }

    /** moveEnemies: the enemy phase, as Sweep computes it from the player,
        the enemies and the draws; a fatal hit ends the game. */
    method MoveEnemies()
      requires Shaped(grid) && player.Some?
      modifies this`player, this`enemies, this`tick, this`gameRunning
      ensures var r := Sweep(grid, level, stream, old(player).value, old(enemies), old(tick));
        && player == Some(r.player) && enemies == r.enemies && tick == r.tick
        && gameRunning == (old(gameRunning) && !r.slain)
    {
      ghost var target := Sweep(grid, level, stream, player.value, enemies, tick);
      var i := 0;
      while i < |enemies|
        invariant player.Some? && 0 <= i <= |enemies|
        invariant SweepFrom(grid, level, stream, Turn(player.value, enemies, tick, false), i) == target
        invariant gameRunning == old(gameRunning)
      {
        var enemy := enemies[i];
        ghost var now := Turn(player.value, enemies, tick, false);
        ghost var next := Act(grid, level, stream, now, i);
        SweepStep(grid, level, stream, now, i);
        if IsAdjacent(enemy.x, enemy.y, player.value.x, player.value.y) {
          player := Some(player.value.(health := player.value.health - enemy.damage));
          assert next == Turn(player.value, enemies, tick, player.value.health <= 0);
          if player.value.health <= 0 {
            GameOver();
            return;
          }
        } else {
          MoveEnemy(i);
          assert next == Turn(player.value, enemies, tick, false);
        }
        i := i + 1;
      }
    }

    /** The else-branch of moveEnemies's loop for enemy i: from level 4 on
        one draw decides whether the enemy seeks the player (below 0.3);
        otherwise, or below level 4 without that draw, it moves randomly. */
    method MoveEnemy(i: nat)
      requires Shaped(grid) && player.Some? && i < |enemies|
      modifies this`enemies, this`tick
      ensures var r := Advance(grid, level, player.value, old(enemies), i, stream, old(tick));
        enemies == old(enemies)[i := r.0] && tick == r.1
    {
      var shouldSeekPlayer := false;
      if level > 3 {
        var u := NextDraw();
        shouldSeekPlayer := Below30(u);
      }
      if shouldSeekPlayer {
        MoveEnemyTowardsPlayer(i);
      } else {
        MoveEnemyRandomly(i);
      }
    }

    /** gameOver: the game stops. */
    method GameOver()
      modifies this`gameRunning
      ensures !gameRunning
    {
      gameRunning := false;
    }

    /** checkItemPickup: from the last item to the first, every item on the
        player's tile is used and removed. */
    method CheckItemPickup()
      requires player.Some?
      modifies this`items, this`player
      ensures items == Remaining(old(items), old(player).value.x, old(player).value.y)
      ensures player == Some(Collect(old(items), old(player).value))
    {
      ghost var all := items;
      ghost var p0 := player.value;
      var i := |items| - 1;
      while i >= 0
        invariant -1 <= i < |all| && player.Some?
        invariant items == all[..i + 1] + Remaining(all[i + 1..], p0.x, p0.y)
        invariant player == Some(Collect(all[i + 1..], p0))
      {
        CollectStep(all, i, p0);
        PickupSplice(all, i, p0.x, p0.y, items);
        PickItem(i);
        i := i - 1;
      }
      assert all[0..] == all;
    }

    /** One round of checkItemPickup's loop: item i, when it lies on the
        player's tile, is used and spliced out. */
    method PickItem(i: nat)
      requires player.Some? && i < |items|
      modifies this`items, this`player
      ensures var it, p := old(items)[i], old(player).value;
        var on := it.x == p.x && it.y == p.y;
        && items == old(items)[..i] + (if on then [] else [it]) + old(items)[i + 1..]
        && player == Some(if on then Use(it, p) else p)
    {
      var item := items[i];
      if item.x == player.value.x && item.y == player.value.y {
        if item.loot.Potion? {
          player := Some(player.value.(health := Min(player.value.maxHealth, player.value.health + item.loot.healing)));
        } else {
          player := Some(player.value.(damage := player.value.damage + item.loot.damage));
        }
        items := items[..i] + items[i + 1..];
      }
    }

    /** playerAttack's loop: from the last enemy to the first, an enemy on
        one of the eight tiles around the player loses the player's damage
        and, at 0 health or below, is removed for 10 points a level. */
    method StrikeEnemies()
      requires player.Some?
      modifies this`enemies, this`score
      ensures enemies == Struck(old(enemies), player.value)
      ensures score == old(score) + 10 * level * Kills(old(enemies), player.value)
    {
      ghost var all := enemies;
      ghost var p := player.value;
      var i := |enemies| - 1;
      while i >= 0
        invariant -1 <= i < |all|
        invariant enemies == all[..i + 1] + Struck(all[i + 1..], p)
        invariant score == old(score) + 10 * level * Kills(all[i + 1..], p)
      {
        ghost var kills := Kills(all[i + 1..], p);
        StruckStep(all, i, p);
        StrikeSplice(all, i, p, enemies);
        StrikeEnemy(i);
        if Survives(all[i], p) {
          assert Kills(all[i..], p) == kills;
        } else {
          assert Kills(all[i..], p) == kills + 1;
          Bounty(level, kills);
        }
        i := i - 1;
      }
      assert all[0..] == all;
    }

    /** One round of playerAttack's loop: enemy i, when it stands on one of
        adjacentPositions, loses the player's damage, and is spliced out for
        10 points a level when that leaves it at 0 health or below. */
    method StrikeEnemy(i: nat)
      requires player.Some? && i < |enemies|
      modifies this`enemies, this`score
      ensures var e, p := old(enemies)[i], player.value;
        && enemies == old(enemies)[..i] + (if Survives(e, p) then [Hit(e, p)] else []) + old(enemies)[i + 1..]
        && score == old(score) + (if Survives(e, p) then 0 else 10 * level)
    {
      var adjacentPositions := Around(player.value);
      var enemy := enemies[i];
      var j := 0;
      while j < |adjacentPositions|
        invariant 0 <= j <= |adjacentPositions|
        invariant forall m :: 0 <= m < j ==> adjacentPositions[m] != Pos(enemy.x, enemy.y)
      {
        if enemy.x == adjacentPositions[j].x && enemy.y == adjacentPositions[j].y {
          break;
        }
        j := j + 1;
      }
      if j < |adjacentPositions| {
        assert InReach(enemy, player.value);
        enemy := enemy.(health := enemy.health - player.value.damage);
        if enemy.health <= 0 {
          enemies := enemies[..i] + enemies[i + 1..];
          score := score + 10 * level;
        } else {
          enemies := enemies[i := enemy];
        }
      } else {
        assert !InReach(enemy, player.value);
      }
    }

    /** checkGameState: with no enemy left the level is complete and scores
        100 points a level; nextLevel is then due. */
    method CheckGameState() returns (complete: bool)
      modifies this`score
      ensures complete <==> enemies == []
      ensures score == old(score) + (if complete then 100 * level else 0)
    {
      complete := |enemies| == 0;
      if complete {
        score := score + 100 * level;
      }
    }

    /** movePlayer(dx, dy) as a relation between the states before and after:
        a step isValidMove refuses changes nothing; otherwise the player
        steps (see Stepped). */
    twostate predicate Walked(dx: int, dy: int, complete: bool)
      reads this, grid
    {
      && old(player).Some?
      && var x, y := old(player).value.x + dx, old(player).value.y + dy;
         if PlayerMayEnter(grid, old(enemies), x, y) then Stepped(x, y, complete)
         else
           && player == old(player) && enemies == old(enemies) && items == old(items) && level == old(level)
           && tick == old(tick) && gameRunning == old(gameRunning) && score == old(score) && !complete
    }

    /** The player steps onto (x, y), picks up what lies there, the enemies
        take their turn, and the level is complete when no enemy is left. */
    twostate predicate Stepped(x: int, y: int, complete: bool)
      reads this, grid
    {
      && old(player).Some? && level == old(level)
      && var r := Sweep(grid, level, stream, Collect(old(items), old(player).value.(x := x, y := y)), old(enemies), old(tick));
         && items == Remaining(old(items), x, y)
         && player == Some(r.player) && enemies == r.enemies && tick == r.tick
         && gameRunning == (old(gameRunning) && !r.slain)
         && (complete <==> r.enemies == [])
         && score == old(score) + (if complete then 100 * level else 0)
    }

    /** playerAttack as a relation between the states before and after: the
        strike, then the enemies' turn, then the check for a complete level. */
    twostate predicate Attacked(complete: bool)
      reads this, grid
    {
      && old(player).Some? && level == old(level)
      && var p := old(player).value;
         var r := Sweep(grid, level, stream, p, Struck(old(enemies), p), old(tick));
         && items == old(items)
         && player == Some(r.player) && enemies == r.enemies && tick == r.tick
         && gameRunning == (old(gameRunning) && !r.slain)
         && (complete <==> r.enemies == [])
         && score == old(score) + 10 * level * Kills(old(enemies), p) + (if complete then 100 * level else 0)
    }

    /** movePlayer(dx, dy). The page only calls it while the game runs, but
        it does not check that itself. A slain player never completes the
        level. */
    method MovePlayer(dx: int, dy: int) returns (complete: bool)
      requires Sound() && player.Some?
      modifies this`player, this`enemies, this`items, this`tick, this`gameRunning, this`score
      ensures Walked(dx, dy, complete)
      ensures Sound() && player.Some?
      ensures old(gameRunning) && !gameRunning ==> !complete
    {
      var newX := player.value.x + dx;
      var newY := player.value.y + dy;
      complete := false;
      var ok := IsValidMove(newX, newY);
      if ok {
        complete := StepTo(newX, newY);
      }
    }

    /** The body of movePlayer once isValidMove has accepted (x, y). */
    method StepTo(x: int, y: int) returns (complete: bool)
      requires Sound() && player.Some? && PlayerMayEnter(grid, enemies, x, y)
      modifies this`player, this`enemies, this`items, this`tick, this`gameRunning, this`score
      ensures Stepped(x, y, complete)
      ensures Sound() && player.Some?
      ensures old(gameRunning) && !gameRunning ==> !complete
    {
      PickupSane(grid, player.value, enemies, items, gameRunning, x, y);
      player := Some(player.value.(x := x, y := y));
      CheckItemPickup();
      complete := EnemyTurn();
    }

    /** The tail shared by movePlayer and playerAttack: moveEnemies, then
        checkGameState. A slain player never completes the level. */
    method EnemyTurn() returns (complete: bool)
      requires Sound() && player.Some?
      modifies this`player, this`enemies, this`tick, this`gameRunning, this`score
      ensures var r := Sweep(grid, level, stream, old(player).value, old(enemies), old(tick));
        && player == Some(r.player) && enemies == r.enemies && tick == r.tick
        && gameRunning == (old(gameRunning) && !r.slain)
        && (complete <==> r.enemies == [])
        && score == old(score) + (if complete then 100 * level else 0)
      ensures Sound() && player.Some?
      ensures old(gameRunning) && !gameRunning ==> !complete
    {
      SweepSane(grid, level, stream, player.value, enemies, items, tick, gameRunning);
      MoveEnemies();
      assert Sane(grid, player, enemies, items, gameRunning);
      complete := CheckGameState();
    }

    /** playerAttack. A slain player never completes the level. */
    method PlayerAttack() returns (complete: bool)
      requires Sound() && player.Some?
      modifies this`player, this`enemies, this`tick, this`gameRunning, this`score
      ensures Attacked(complete)
      ensures Sound() && player.Some?
      ensures old(gameRunning) && !gameRunning ==> !complete
    {
      StrikeSane(grid, player.value, enemies, items, gameRunning);
      Bounty(level, Kills(enemies, player.value));
      StrikeEnemies();
      complete := EnemyTurn();
    }

    /** One keydown handler of bindEvents: nothing once the game has
        stopped; w, a, s, d (either case) move up, left, down and right;
        space attacks; any other key does nothing. Returns whether the level
        was completed, after which nextLevel is due. */
    method HandleKey(key: Key) returns (complete: bool)
      requires Sound() && (gameRunning ==> player.Some?)
      modifies this`player, this`enemies, this`items, this`tick, this`gameRunning, this`score
      ensures Sound() && (gameRunning ==> player.Some?)
      ensures !old(gameRunning) || key == Other ==>
        && player == old(player) && enemies == old(enemies) && items == old(items)
        && tick == old(tick) && gameRunning == old(gameRunning) && score == old(score) && !complete
      ensures old(gameRunning) ==> match key
        case Up => Walked(0, -1, complete)
        case Left => Walked(-1, 0, complete)
        case Down => Walked(0, 1, complete)
        case Right => Walked(1, 0, complete)
        case Space => Attacked(complete)
        case Other => true
    {
      complete := false;
      if !gameRunning {
        return;
      }
      match key
      case Up => complete := MovePlayer(0, -1);
      case Left => complete := MovePlayer(-1, 0);
      case Down => complete := MovePlayer(0, 1);
      case Right => complete := MovePlayer(1, 0);
      case Space => complete := PlayerAttack();
      case Other =>
    }

    /** A key press: every handler bindEvents has attached runs in turn,
        each checking gameRunning itself. Returns how many of them completed
        the level; each such one has scheduled a call of nextLevel. */
    method KeyDown(key: Key) returns (completions: nat)
      requires Sound() && (gameRunning ==> player.Some?)
      modifies this`player, this`enemies, this`items, this`tick, this`gameRunning, this`score
      ensures Sound() && (gameRunning ==> player.Some?)
      ensures completions <= handlers
      ensures !old(gameRunning) ==>
        && player == old(player) && enemies == old(enemies) && items == old(items)
        && tick == old(tick) && gameRunning == old(gameRunning) && score == old(score) && completions == 0
    {
      completions := 0;
      var i := 0;
      while i < handlers
        invariant 0 <= i <= handlers && completions <= i
        invariant Sound() && (gameRunning ==> player.Some?)
        invariant !old(gameRunning) ==>
          && player == old(player) && enemies == old(enemies) && items == old(items)
          && tick == old(tick) && gameRunning == old(gameRunning) && score == old(score) && completions == 0
      {
        var complete := HandleKey(key);
        if complete {
          completions := completions + 1;
        }
        i := i + 1;
      }
    }

    // ------------------------------------------------------------- levels

    /** init: a new map, then 10 potions and 2 swords, the player and 10
        enemies at this level; bindEvents attaches one more keydown handler.
        A player that could not be placed is left as it was. */
    method Init()
      requires Sound()
      modifies grid, this`tick, this`items, this`player, this`enemies, this`handlers
      ensures Populated(10, 2, 10)
      ensures exists rooms, segs :: Dungeon(grid, rooms, segs)
      ensures player == old(player) ||
        (player.Some? && player.value == FreshPlayer(player.value.x, player.value.y)
         && OnFloor(grid, player.value.x, player.value.y))
      ensures handlers == old(handlers) + 1
      ensures old(tick) <= tick
    {
      ghost var rooms, segs := Rebuild(10, 2, 10);
      handlers := handlers + 1;
      assert Dungeon(grid, rooms, segs);
    }

    /** generateMap, then Stock: the part init and nextLevel share. */
    method Rebuild(potions: int, swords: int, count: int) returns (ghost rooms: seq<Room>, ghost segs: seq<Segment>)
      requires Valid()
      requires player.Some? ==> player.value.health <= player.value.maxHealth && (gameRunning ==> player.value.health > 0)
      modifies grid, this`items, this`player, this`enemies, this`tick
      ensures Populated(potions, swords, count)
      ensures Dungeon(grid, rooms, segs)
      ensures player == old(player) ||
        (player.Some? && player.value == FreshPlayer(player.value.x, player.value.y)
         && OnFloor(grid, player.value.x, player.value.y)
         && (old(player).Some? ==> player.value.x != old(player).value.x || player.value.y != old(player).value.y))
      ensures old(tick) <= tick
    {
      ghost var links, extras;
      rooms, segs, links, extras := GenerateMap();
      Stock(potions, swords, count);
    }

    /** placeItems(potions, swords), placePlayer and placeEnemies(count), in
        that order, on a new map. A player that could not be placed is left
        as it was, wherever it stood. */
    method Stock(potions: int, swords: int, count: int)
      requires Valid()
      requires player.Some? ==> player.value.health <= player.value.maxHealth && (gameRunning ==> player.value.health > 0)
      modifies this`items, this`player, this`enemies, this`tick
      ensures Populated(potions, swords, count)
      ensures player == old(player) ||
        (player.Some? && player.value == FreshPlayer(player.value.x, player.value.y)
         && OnFloor(grid, player.value.x, player.value.y)
         && (old(player).Some? ==> player.value.x != old(player).value.x || player.value.y != old(player).value.y))
      ensures old(tick) <= tick
    {
      PlaceItems(potions, swords);
      PlacePlayer();
      assert Strewn();
      PlaceEnemies(count);
      StatsGrowWithLevel(level, level);
      forall k | 0 <= k < |items|
        ensures (items[k].loot.Potion? ==> items[k].loot.healing >= 0) && (items[k].loot.Sword? ==> items[k].loot.damage >= 0)
      {
        assert items[k].loot == Sword(SwordDamage(level)) || items[k].loot == Potion(PotionHealing(level));
      }
      assert Sane(grid, player, enemies, items, gameRunning);
    }

    /** restartGame: level 1, score 0, running, nothing placed, then init. */
    method RestartGame()
      requires Sound()
      modifies grid, this`tick, this`items, this`player, this`enemies, this`handlers,
        this`level, this`score, this`gameRunning
      ensures level == 1 && score == 0 && gameRunning
      ensures Populated(10, 2, 10)
      ensures exists rooms, segs :: Dungeon(grid, rooms, segs)
      ensures player.Some? ==>
        player.value == FreshPlayer(player.value.x, player.value.y) && OnFloor(grid, player.value.x, player.value.y)
      ensures handlers == old(handlers) + 1
    {
      level := 1;
      score := 0;
      gameRunning := true;
      enemies := [];
      items := [];
      player := None;
      Init();
    }

    /** nextLevel: the level goes up; the player levels up (see LevelUp);
        a new map is stocked with this level's counts of potions, swords and
        enemies; the player moves to a vacant tile of it, keeping health,
        maxHealth and damage, or stays where it stood when no tile is found.
        The placement runs while the player still stands on its old tile. */
    method NextLevel()
      requires Sound() && player.Some?
      modifies grid, this`tick, this`items, this`player, this`enemies, this`level
      ensures level == old(level) + 1
      ensures player.Some?
      ensures var up := LevelUp(old(player).value, level);
        player.value == up.(x := player.value.x, y := player.value.y)
      ensures player.value.x != old(player).value.x || player.value.y != old(player).value.y ==>
        OnFloor(grid, player.value.x, player.value.y)
      ensures Populated(PotionCount(level), SwordCount(level), EnemyCount(level))
      ensures exists rooms, segs :: Dungeon(grid, rooms, segs)
    {
      level := level + 1;
      var p := player.value;
      var healAmount := 20 + level * 5;
      p := p.(health := Min(p.maxHealth, p.health + healAmount));
      if level % 3 == 0 {
        p := p.(maxHealth := p.maxHealth + 25);
        p := p.(health := p.maxHealth);
      }
      LevelUpHeals(old(player).value, level);
      player := Some(p);
      var enemyCount := EnemyCount(level);
      var healthPotionCount := PotionCount(level);
      var swordCount := SwordCount(level);
      var playerData := p;
      enemies := [];
      items := [];
      ghost var rooms, segs := Rebuild(healthPotionCount, swordCount, enemyCount);
      player := Some(player.value.(health := playerData.health, maxHealth := playerData.maxHealth,
                                   damage := playerData.damage));
      assert Sane(grid, player, enemies, items, gameRunning);
      assert Dungeon(grid, rooms, segs);
    }
  }
}
