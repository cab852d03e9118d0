/** The rules of movement: where the player and the enemies may step, how an
    enemy chooses its step, and the whole enemy phase of a turn (moveEnemies)
    as a function of the map, the level, the draws and the positions. */
module Moves {
  import opened Chance
  import opened Layout
  import opened Floor
  import opened Entities

  /** isValidMove(x, y): in bounds, not a wall, no enemy there. */
  predicate PlayerMayEnter(grid: array2<Tile>, es: seq<Enemy>, x: int, y: int)
    reads grid
  {
    Shaped(grid) && InBounds(x, y) && grid[y, x] != Wall && !EnemyAt(es, x, y)
  }

  /** isValidEnemyMove(x, y): in bounds, not a wall, not the player's tile,
      no enemy there. Items do not block an enemy. */
  predicate EnemyMayEnter(grid: array2<Tile>, p: Player, es: seq<Enemy>, x: int, y: int)
    reads grid
  {
    Shaped(grid) && InBounds(x, y) && grid[y, x] != Wall && !(p.x == x && p.y == y) && !EnemyAt(es, x, y)
  }

  /** A tile either move may enter is a floor tile. */
  lemma EnterableIsFloor(grid: array2<Tile>, p: Player, es: seq<Enemy>, x: int, y: int)
    ensures PlayerMayEnter(grid, es, x, y) ==> OnFloor(grid, x, y)
    ensures EnemyMayEnter(grid, p, es, x, y) ==> OnFloor(grid, x, y) && PlayerMayEnter(grid, es, x, y)
  {}

  // ------------------------------------------------------- one enemy's step

  /** moveEnemyTowardsPlayer's step: along x when the horizontal distance is
      strictly the larger, along y otherwise. */
  function SeekStep(e: Enemy, p: Player): Pos {
    var dx, dy := p.x - e.x, p.y - e.y;
    if Abs(dx) > Abs(dy) then Pos(if dx > 0 then 1 else -1, 0)
    else Pos(0, if dy > 0 then 1 else -1)
  }

  /** The seeking step is one orthogonal step that shortens the Manhattan
      distance to the player by one; a tie moves vertically. */
  lemma SeekStepCloses(e: Enemy, p: Player)
    requires e.x != p.x || e.y != p.y
    ensures var s := SeekStep(e, p);
      && Abs(s.x) + Abs(s.y) == 1
      && Abs(p.x - (e.x + s.x)) + Abs(p.y - (e.y + s.y)) == Abs(p.x - e.x) + Abs(p.y - e.y) - 1
      && (Abs(p.x - e.x) == Abs(p.y - e.y) ==> s.x == 0)
  {}

  /** moveEnemyRandomly's directions: up, down, left, right. */
  const Directions: seq<Pos> := [Pos(0, -1), Pos(0, 1), Pos(-1, 0), Pos(1, 0)]

  /** directions[Math.floor(Math.random() * directions.length)] */
  function Direction(u: Draw): Pos {
    Directions[Random(0, |Directions| - 1, u)]
  }

  /** Each of the four directions is chosen by some draw. */
  lemma EveryDirectionDrawn(d: Pos)
    requires d in Directions
    ensures exists u: Draw :: Direction(u) == d
  {
    var k :| 0 <= k < 4 && Directions[k] == d;
    RandomReaches(0, 3, k);
    var u: Draw :| Random(0, 3, u) == k;
    assert Direction(u) == d;
  }

  /** e2 is e, or e moved one orthogonal step onto a tile isValidEnemyMove
      accepts against the player p and the enemies es; its stats unchanged. */
  ghost predicate StepsOrStays(grid: array2<Tile>, p: Player, es: seq<Enemy>, e: Enemy, e2: Enemy)
    reads grid
  {
    && e2.health == e.health && e2.maxHealth == e.maxHealth && e2.damage == e.damage
    && (e2 == e || (Abs(e2.x - e.x) + Abs(e2.y - e.y) == 1 && EnemyMayEnter(grid, p, es, e2.x, e2.y)))
  }

  /** moveEnemyRandomly for enemy i, with the draw u for its direction. */
  function Wander(grid: array2<Tile>, p: Player, es: seq<Enemy>, i: nat, u: Draw): Enemy
    reads grid
    requires i < |es|
  {
    var d := Direction(u);
    var nx, ny := es[i].x + d.x, es[i].y + d.y;
    if EnemyMayEnter(grid, p, es, nx, ny) then es[i].(x := nx, y := ny) else es[i]
  }

  /** A wandering enemy takes the drawn step when isValidEnemyMove accepts
      it, and stays otherwise. */
  lemma WanderSteps(grid: array2<Tile>, p: Player, es: seq<Enemy>, i: nat, u: Draw)
    requires i < |es|
    ensures var e := Wander(grid, p, es, i, u);
      var d := Direction(u);
      && StepsOrStays(grid, p, es, es[i], e)
      && (e != es[i] <==> EnemyMayEnter(grid, p, es, es[i].x + d.x, es[i].y + d.y))
      && (e != es[i] ==> e == es[i].(x := es[i].x + d.x, y := es[i].y + d.y))
  {
    var d := Direction(u);
    assert d in Directions;
  }

  /** moveEnemyTowardsPlayer for enemy i from draw number t: the seeking step
      when it is allowed (no draw), a random step otherwise (one draw).
      Returns the enemy and the number of the next draw. */
  function Pursue(grid: array2<Tile>, p: Player, es: seq<Enemy>, i: nat, stream: nat -> Draw, t: nat): (Enemy, nat)
    reads grid
    requires i < |es|
  {
    var s := SeekStep(es[i], p);
    var nx, ny := es[i].x + s.x, es[i].y + s.y;
    if EnemyMayEnter(grid, p, es, nx, ny) then (es[i].(x := nx, y := ny), t)
    else (Wander(grid, p, es, i, stream(t)), t + 1)
  }

  /** A pursuing enemy takes the seeking step exactly when it is allowed,
      without a draw; otherwise it wanders with one draw. */
  lemma PursueSteps(grid: array2<Tile>, p: Player, es: seq<Enemy>, i: nat, stream: nat -> Draw, t: nat)
    requires i < |es|
    ensures var r := Pursue(grid, p, es, i, stream, t);
      var s := SeekStep(es[i], p);
      && StepsOrStays(grid, p, es, es[i], r.0)
      && (EnemyMayEnter(grid, p, es, es[i].x + s.x, es[i].y + s.y) <==> r.1 == t)
      && (r.1 == t ==> r.0 == es[i].(x := es[i].x + s.x, y := es[i].y + s.y))
      && t <= r.1 <= t + 1
  {
    WanderSteps(grid, p, es, i, stream(t));
  }

  /** The move of a non-adjacent enemy i: from level 4 on one draw decides
      whether it seeks the player (probability 0.3); below level 4 no such
      draw is taken and the enemy always wanders. */
  function Advance(grid: array2<Tile>, level: int, p: Player, es: seq<Enemy>, i: nat, stream: nat -> Draw, t: nat): (Enemy, nat)
    reads grid
    requires i < |es|
  {
    if level > 3 && Below30(stream(t)) then Pursue(grid, p, es, i, stream, t + 1)
    else if level > 3 then (Wander(grid, p, es, i, stream(t + 1)), t + 2)
    else (Wander(grid, p, es, i, stream(t)), t + 1)
  }

  /** Any move keeps the enemy's stats and takes it at most one step onto a
      tile isValidEnemyMove accepts; it uses one to three draws, exactly one
      below level 4. */
  lemma AdvanceSteps(grid: array2<Tile>, level: int, p: Player, es: seq<Enemy>, i: nat, stream: nat -> Draw, t: nat)
    requires i < |es|
    ensures var r := Advance(grid, level, p, es, i, stream, t);
      && StepsOrStays(grid, p, es, es[i], r.0)
      && t < r.1 <= t + 3
      && (level <= 3 ==> r == (Wander(grid, p, es, i, stream(t)), t + 1))
  {
    if level > 3 && Below30(stream(t)) {
      PursueSteps(grid, p, es, i, stream, t + 1);
    } else if level > 3 {
      WanderSteps(grid, p, es, i, stream(t + 1));
    } else {
      WanderSteps(grid, p, es, i, stream(t));
    }
  }

  // ------------------------------------------------------- the enemy phase

  /** The state moveEnemies works on: the player, the enemies, the number of
      the next draw, and whether the player has been slain. */
  datatype Turn = Turn(player: Player, enemies: seq<Enemy>, tick: nat, slain: bool)

  /** What moveEnemies does with enemy i: an adjacent enemy hits the player
      for its damage, slaying it when that leaves health at 0 or below; any
      other enemy makes its move. */
  function Act(grid: array2<Tile>, level: int, stream: nat -> Draw, s: Turn, i: nat): Turn
    reads grid
    requires i < |s.enemies|
  {
    var e := s.enemies[i];
    if IsAdjacent(e.x, e.y, s.player.x, s.player.y) then
      var hurt := s.player.(health := s.player.health - e.damage);
      s.(player := hurt, slain := hurt.health <= 0)
    else
      var moved := Advance(grid, level, s.player, s.enemies, i, stream, s.tick);
      s.(enemies := s.enemies[i := moved.0], tick := moved.1)
  }

  /** moveEnemies from enemy i on: each enemy acts in turn, and the first
      hit that slays the player ends the phase. */
  function SweepFrom(grid: array2<Tile>, level: int, stream: nat -> Draw, s: Turn, i: nat): Turn
    reads grid
    decreases |s.enemies| - i
  {
    if i >= |s.enemies| then s
    else
      var n := Act(grid, level, stream, s, i);
      if n.slain then n else SweepFrom(grid, level, stream, n, i + 1)
  }

  /** The whole enemy phase, from draw number t. */
  function Sweep(grid: array2<Tile>, level: int, stream: nat -> Draw, p: Player, es: seq<Enemy>, t: nat): Turn
    reads grid
  {
    SweepFrom(grid, level, stream, Turn(p, es, t, false), 0)
  }

  /** One step of the enemy phase. */
  lemma SweepStep(grid: array2<Tile>, level: int, stream: nat -> Draw, s: Turn, i: nat)
    requires i < |s.enemies|
    ensures var n := Act(grid, level, stream, s, i);
      SweepFrom(grid, level, stream, s, i) == if n.slain then n else SweepFrom(grid, level, stream, n, i + 1)
  {}

  /** e2 keeps e's stats and is at most one orthogonal step from it. */
  predicate StepOrStay(e: Enemy, e2: Enemy) {
    && e2.health == e.health && e2.maxHealth == e.maxHealth && e2.damage == e.damage
    && Abs(e2.x - e.x) + Abs(e2.y - e.y) <= 1
  }

  /** What one enemy's action changes: an adjacent enemy only lowers the
      player's health by its damage; any other enemy only changes its own
      tile, keeping its stats, and takes draws. */
  lemma ActKeeps(grid: array2<Tile>, level: int, stream: nat -> Draw, s: Turn, i: nat)
    requires i < |s.enemies|
    ensures var n := Act(grid, level, stream, s, i);
      var e := s.enemies[i];
      && |n.enemies| == |s.enemies| && s.tick <= n.tick
      && n.player == s.player.(health := n.player.health)
      && (forall k :: 0 <= k < |s.enemies| && k != i ==> n.enemies[k] == s.enemies[k])
      && n.enemies[i] == e.(x := n.enemies[i].x, y := n.enemies[i].y)
      && (IsAdjacent(e.x, e.y, s.player.x, s.player.y) ==>
            && n.enemies == s.enemies && n.tick == s.tick
            && n.player.health == s.player.health - e.damage && (n.slain <==> n.player.health <= 0))
      && (!IsAdjacent(e.x, e.y, s.player.x, s.player.y) ==> n.player == s.player && n.slain == s.slain)
  {
    AdvanceSteps(grid, level, s.player, s.enemies, i, stream, s.tick);
  }

  /** The acting enemy moves at most one step, onto a tile an enemy may
      enter, or stays. */
  lemma ActSteps(grid: array2<Tile>, level: int, stream: nat -> Draw, s: Turn, i: nat)
    requires i < |s.enemies|
    ensures var n := Act(grid, level, stream, s, i);
      |n.enemies| == |s.enemies| && StepsOrStays(grid, s.player, s.enemies, s.enemies[i], n.enemies[i])
  {
    AdvanceSteps(grid, level, s.player, s.enemies, i, stream, s.tick);
  }

  /** The phase keeps the number of enemies and only moves the draw counter
      forward. */
  lemma {:induction false} SweepLength(grid: array2<Tile>, level: int, stream: nat -> Draw, s: Turn, i: nat)
    requires i <= |s.enemies|
    ensures var r := SweepFrom(grid, level, stream, s, i);
      |r.enemies| == |s.enemies| && s.tick <= r.tick
    decreases |s.enemies| - i
  {
    if i < |s.enemies| {
      var n := Act(grid, level, stream, s, i);
      ActKeeps(grid, level, stream, s, i);
      if !n.slain {
        SweepLength(grid, level, stream, n, i + 1);
      }
    }
  }

  /** The phase leaves the enemies before i as they are. */
  lemma {:induction false} SweepKeepsPrefix(grid: array2<Tile>, level: int, stream: nat -> Draw, s: Turn, i: nat)
    requires i <= |s.enemies|
    ensures var r := SweepFrom(grid, level, stream, s, i);
      |r.enemies| == |s.enemies| && forall k :: 0 <= k < i ==> r.enemies[k] == s.enemies[k]
    decreases |s.enemies| - i
  {
    if i < |s.enemies| {
      var n := Act(grid, level, stream, s, i);
      ActKeeps(grid, level, stream, s, i);
      if !n.slain {
        SweepKeepsPrefix(grid, level, stream, n, i + 1);
      }
    }
  }

  /** The phase keeps every enemy's stats and moves each at most one
      orthogonal step. */
  lemma {:induction false} SweepSteps(grid: array2<Tile>, level: int, stream: nat -> Draw, s: Turn, i: nat)
    requires i <= |s.enemies|
    ensures var r := SweepFrom(grid, level, stream, s, i);
      && |r.enemies| == |s.enemies|
      && forall k :: 0 <= k < |s.enemies| ==> StepOrStay(s.enemies[k], r.enemies[k])
    decreases |s.enemies| - i
  {
    if i < |s.enemies| {
      var n := Act(grid, level, stream, s, i);
      ActKeeps(grid, level, stream, s, i);
      ActSteps(grid, level, stream, s, i);
      if !n.slain {
        SweepSteps(grid, level, stream, n, i + 1);
        SweepKeepsPrefix(grid, level, stream, n, i + 1);
        StepsCompose(s.enemies, n.enemies, SweepFrom(grid, level, stream, n, i + 1).enemies, i);
      } else {
        StepsCompose(s.enemies, n.enemies, n.enemies, i);
      }
    }
  }

  /** Enemy i's step followed by a phase that leaves enemies up to i in place
      and moves each at most one step is, for every enemy, at most one step. */
  lemma StepsCompose(es: seq<Enemy>, mid: seq<Enemy>, es2: seq<Enemy>, i: nat)
    requires i < |es| == |mid| == |es2|
    requires StepOrStay(es[i], mid[i]) && forall k :: 0 <= k < |es| && k != i ==> mid[k] == es[k]
    requires forall k :: 0 <= k <= i ==> es2[k] == mid[k]
    requires forall k :: 0 <= k < |es| && k > i ==> StepOrStay(mid[k], es2[k])
    ensures forall k :: 0 <= k < |es| ==> StepOrStay(es[k], es2[k])
  {
    forall k | 0 <= k < |es| ensures StepOrStay(es[k], es2[k]) {
      if k != i {
        assert mid[k] == es[k];
      }
    }
  }

  /** The phase changes nothing of the player but its health, and lowers that
      only, when no enemy has negative damage. */
  lemma {:induction false} SweepPlayer(grid: array2<Tile>, level: int, stream: nat -> Draw, s: Turn, i: nat)
    requires i <= |s.enemies|
    ensures var r := SweepFrom(grid, level, stream, s, i);
      && r.player == s.player.(health := r.player.health)
      && ((forall k :: 0 <= k < |s.enemies| ==> s.enemies[k].damage >= 0) ==> r.player.health <= s.player.health)
    decreases |s.enemies| - i
  {
    if i < |s.enemies| {
      var n := Act(grid, level, stream, s, i);
      ActKeeps(grid, level, stream, s, i);
      if !n.slain {
        SweepPlayer(grid, level, stream, n, i + 1);
        assert forall k :: 0 <= k < |n.enemies| ==> n.enemies[k].damage == s.enemies[k].damage;
      }
    }
  }

  /** Enemies on floor tiles, one to a tile, none on the player's tile. */
  ghost predicate Spread(grid: array2<Tile>, p: Player, es: seq<Enemy>)
    reads grid
  {
    EnemiesLaid(grid, es) && !EnemyAt(es, p.x, p.y)
  }

  /** One enemy's move keeps the enemies spread. */
  lemma StepKeepsSpread(grid: array2<Tile>, p: Player, es: seq<Enemy>, i: nat, e: Enemy)
    requires Spread(grid, p, es) && i < |es| && StepsOrStays(grid, p, es, es[i], e)
    ensures Spread(grid, p, es[i := e])
  {
    var es2 := es[i := e];
    if e != es[i] {
      assert !EnemyAt(es, e.x, e.y);
      forall j, k | 0 <= j < k < |es2| ensures es2[j].x != es2[k].x || es2[j].y != es2[k].y {
        if j == i {
          assert es2[k] == es[k];
        } else if k == i {
          assert es2[j] == es[j];
        }
      }
      assert forall k :: 0 <= k < |es2| && k != i ==> es2[k] == es[k];
    }
  }

  /** One enemy's action keeps the enemies spread. */
  lemma ActKeepsSpread(grid: array2<Tile>, level: int, stream: nat -> Draw, s: Turn, i: nat)
    requires i < |s.enemies| && Spread(grid, s.player, s.enemies)
    ensures var n := Act(grid, level, stream, s, i); Spread(grid, n.player, n.enemies)
  {
    var n := Act(grid, level, stream, s, i);
    ActKeeps(grid, level, stream, s, i);
    ActSteps(grid, level, stream, s, i);
    StepKeepsSpread(grid, s.player, s.enemies, i, n.enemies[i]);
    assert n.enemies == s.enemies[i := n.enemies[i]];
  }

  /** The enemy phase keeps the enemies spread: a moving enemy only enters a
      free floor tile, never the player's, and the player does not move. */
  lemma {:induction false} SweepKeepsSpread(grid: array2<Tile>, level: int, stream: nat -> Draw, s: Turn, i: nat)
    requires i <= |s.enemies| && Spread(grid, s.player, s.enemies)
    ensures var r := SweepFrom(grid, level, stream, s, i); Spread(grid, r.player, r.enemies)
    decreases |s.enemies| - i
  {
    if i < |s.enemies| {
      var n := Act(grid, level, stream, s, i);
      ActKeepsSpread(grid, level, stream, s, i);
      if !n.slain {
        SweepKeepsSpread(grid, level, stream, n, i + 1);
      }
    }
  }

  // ---------------------------------------------------- damage to the player

  /** The total damage of the enemies among the first k that stand next to p. */
  function Hits(es: seq<Enemy>, p: Player, k: nat): int
    requires k <= |es|
  {
    if k == 0 then 0
    else Hits(es, p, k - 1) + (if IsAdjacent(es[k - 1].x, es[k - 1].y, p.x, p.y) then es[k - 1].damage else 0)
  }

  /** Enemy k is next to p and its hit brings p's health to 0 or below. */
  predicate Fatal(es: seq<Enemy>, p: Player, k: nat)
    requires k < |es|
  {
    IsAdjacent(es[k].x, es[k].y, p.x, p.y) && p.health - Hits(es, p, k + 1) <= 0
  }

  /** The first fatal enemy from i on, or |es| when there is none. */
  function FirstFatal(es: seq<Enemy>, p: Player, i: nat): (f: nat)
    requires i <= |es|
    ensures i <= f <= |es|
    ensures f < |es| ==> Fatal(es, p, f)
    ensures forall j :: i <= j < f ==> !Fatal(es, p, j)
    decreases |es| - i
  {
    if i == |es| then |es| else if Fatal(es, p, i) then i else FirstFatal(es, p, i + 1)
  }

  /** The accounting of one hit: enemy i's damage is the next term of Hits,
      and the hit is fatal exactly when it leaves health at 0 or below. */
  lemma FatalStep(es: seq<Enemy>, p: Player, i: nat, h: int)
    requires i < |es| && IsAdjacent(es[i].x, es[i].y, p.x, p.y)
    requires h == p.health - Hits(es, p, i)
    ensures h - es[i].damage == p.health - Hits(es, p, i + 1)
    ensures h - es[i].damage <= 0 ==> FirstFatal(es, p, i) == i
    ensures h - es[i].damage > 0 ==> FirstFatal(es, p, i) == FirstFatal(es, p, i + 1)
  {}

  /** A step by an enemy out of reach adds nothing to Hits. */
  lemma MissStep(es: seq<Enemy>, p: Player, i: nat)
    requires i < |es| && !IsAdjacent(es[i].x, es[i].y, p.x, p.y)
    ensures Hits(es, p, i + 1) == Hits(es, p, i)
    ensures FirstFatal(es, p, i) == FirstFatal(es, p, i + 1)
  {}

  /** The player's fate in the phase from enemy i on, starting with health h,
      worked out from the enemies' tiles at the start of the phase: whether
      a hit is fatal, and the health left. */
  function Damage(es: seq<Enemy>, p: Player, i: nat, h: int): (bool, int)
    requires i <= |es|
    decreases |es| - i
  {
    if i == |es| then (false, h)
    else if IsAdjacent(es[i].x, es[i].y, p.x, p.y) then
      if h - es[i].damage <= 0 then (true, h - es[i].damage) else Damage(es, p, i + 1, h - es[i].damage)
    else Damage(es, p, i + 1, h)
  }

  /** The moves of the enemies do not change who hits the player: the phase
      from enemy i on deals exactly the damage the starting tiles give. */
  lemma {:induction false} SweepDamage(grid: array2<Tile>, level: int, stream: nat -> Draw, es: seq<Enemy>, p: Player, s: Turn, i: nat)
    requires i <= |es| == |s.enemies|
    requires forall j :: i <= j < |es| ==> s.enemies[j] == es[j]
    requires s.player.x == p.x && s.player.y == p.y && !s.slain
    ensures var r := SweepFrom(grid, level, stream, s, i);
      (r.slain, r.player.health) == Damage(es, p, i, s.player.health)
    decreases |es| - i
  {
    if i < |es| {
      var n := Act(grid, level, stream, s, i);
      ActKeeps(grid, level, stream, s, i);
      assert s.enemies[i] == es[i];
      if !n.slain {
        SweepDamage(grid, level, stream, es, p, n, i + 1);
      }
    }
  }

  /** The damage in terms of Hits: fatal exactly when a fatal enemy follows
      i, and the health left is the health less the damage of every
      adjacent enemy up to the first fatal one. */
  lemma {:induction false} DamageHits(es: seq<Enemy>, p: Player, i: nat)
    requires i <= |es|
    ensures var d := Damage(es, p, i, p.health - Hits(es, p, i));
      var f := FirstFatal(es, p, i);
      && (d.0 <==> f < |es|)
      && (f < |es| ==> d.1 == p.health - Hits(es, p, f + 1))
      && (f == |es| ==> d.1 == p.health - Hits(es, p, |es|))
    decreases |es| - i
  {
    if i < |es| {
      var h := p.health - Hits(es, p, i);
      if IsAdjacent(es[i].x, es[i].y, p.x, p.y) {
        FatalStep(es, p, i, h);
        if h - es[i].damage > 0 {
          DamageHits(es, p, i + 1);
        }
      } else {
        MissStep(es, p, i);
        DamageHits(es, p, i + 1);
      }
    }
  }

  /** The enemies after the first fatal one neither hit nor move. */
  lemma {:induction false} SweepSparesFrom(grid: array2<Tile>, level: int, stream: nat -> Draw, es: seq<Enemy>, p: Player, s: Turn, i: nat)
    requires i <= |es| == |s.enemies|
    requires forall j :: i <= j < |es| ==> s.enemies[j] == es[j]
    requires s.player.x == p.x && s.player.y == p.y && !s.slain
    requires s.player.health == p.health - Hits(es, p, i)
    ensures var r := SweepFrom(grid, level, stream, s, i);
      && |r.enemies| == |es|
      && forall j :: FirstFatal(es, p, i) < j < |es| ==> r.enemies[j] == es[j]
    decreases |es| - i
  {
    if i < |es| {
      var n := Act(grid, level, stream, s, i);
      ActKeeps(grid, level, stream, s, i);
      assert s.enemies[i] == es[i];
      if IsAdjacent(es[i].x, es[i].y, p.x, p.y) {
        FatalStep(es, p, i, s.player.health);
      } else {
        MissStep(es, p, i);
      }
      if n.slain {
        assert FirstFatal(es, p, i) == i && n.enemies == s.enemies;
      } else {
        assert FirstFatal(es, p, i) == FirstFatal(es, p, i + 1);
        SweepSparesFrom(grid, level, stream, es, p, n, i + 1);
      }
    }
  }

  /** The player is slain exactly when some enemy's hit is fatal; the health
      left is the starting health less the damage of every adjacent enemy up
      to and including the first fatal one, and the enemies after that one
      neither hit nor move. */
  lemma SweepHits(grid: array2<Tile>, level: int, stream: nat -> Draw, p: Player, es: seq<Enemy>, t: nat)
    ensures var r := Sweep(grid, level, stream, p, es, t);
      var f := FirstFatal(es, p, 0);
      && |r.enemies| == |es|
      && (r.slain <==> exists k :: 0 <= k < |es| && Fatal(es, p, k))
      && (f < |es| ==> r.player.health == p.health - Hits(es, p, f + 1))
      && (f == |es| ==> r.player.health == p.health - Hits(es, p, |es|))
      && forall j :: f < j < |es| ==> r.enemies[j] == es[j]
  {
    SweepDamage(grid, level, stream, es, p, Turn(p, es, t, false), 0);
    DamageHits(es, p, 0);
    SweepSparesFrom(grid, level, stream, es, p, Turn(p, es, t, false), 0);
  }

  /** A player alive before the phase is alive after it unless slain, and a
      slain player's health is 0 or below. */
  lemma {:induction false} SweepAlive(grid: array2<Tile>, level: int, stream: nat -> Draw, s: Turn, i: nat)
    requires i <= |s.enemies| && !s.slain && s.player.health > 0
    ensures var r := SweepFrom(grid, level, stream, s, i); r.slain <==> r.player.health <= 0
    decreases |s.enemies| - i
  {
    if i < |s.enemies| {
      var n := Act(grid, level, stream, s, i);
      ActKeeps(grid, level, stream, s, i);
      if !n.slain {
        SweepAlive(grid, level, stream, n, i + 1);
      }
    }
  }
}
