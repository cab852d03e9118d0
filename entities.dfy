/** The player, enemies and items; their stats at placement and their scaling
    with the level; and the pure rules of a turn that do not depend on the
    map: item pickup, the player's attack and levelling up. */
module Entities {
  import opened Layout
  import opened Floor

  datatype Player = Player(x: int, y: int, health: int, maxHealth: int, damage: int)

  datatype Enemy = Enemy(x: int, y: int, health: int, maxHealth: int, damage: int)

  /** An item's type ('health' or 'sword') with its magnitude. */
  datatype Loot = Potion(healing: int) | Sword(damage: int)

  datatype Item = Item(x: int, y: int, loot: Loot)

  // ------------------------------------------------------ stats and counts

  /** placePlayer's new player. */
  function FreshPlayer(x: int, y: int): Player {
    Player(x, y, 100, 100, 20)
  }

  /** placeEnemies: 50 health and 15 damage, growing by 15 and 8 a level. */
  function EnemyHealth(level: int): int { 50 + (level - 1) * 15 }
  function EnemyDamage(level: int): int { 15 + (level - 1) * 8 }

  /** placeItems: a sword's bonus and a potion's healing. */
  function SwordDamage(level: int): int { 15 + level * 3 }
  function PotionHealing(level: int): int { 35 + level * 10 }

  /** Every placed stat is positive and none shrinks as the level grows. */
  lemma StatsGrowWithLevel(a: int, b: int)
    requires 1 <= a <= b
    ensures 0 < EnemyHealth(a) <= EnemyHealth(b) && 0 < EnemyDamage(a) <= EnemyDamage(b)
    ensures 0 < SwordDamage(a) <= SwordDamage(b) && 0 < PotionHealing(a) <= PotionHealing(b)
  {}

  /** nextLevel's enemyCount = min(10 + floor(level / 2) * 3, 25). */
  function EnemyCount(level: int): (n: int)
    ensures n <= 25 && (0 <= level ==> 10 <= n)
  {
    Min(10 + (level / 2) * 3, 25)
  }

  /** nextLevel's healthPotionCount = max(12 - floor(level / 2), 4). */
  function PotionCount(level: int): (n: int)
    ensures 4 <= n && (0 <= level ==> n <= 12)
  {
    Max(12 - level / 2, 4)
  }

  /** nextLevel's swordCount = min(2 + floor(level / 4), 4). */
  function SwordCount(level: int): (n: int)
    ensures n <= 4 && (0 <= level ==> 2 <= n)
  {
    Min(2 + level / 4, 4)
  }

  /** Deeper levels have at least as many enemies and swords and at most as
      many potions. */
  lemma CountsFollowLevel(a: int, b: int)
    requires 0 <= a <= b
    ensures EnemyCount(a) <= EnemyCount(b)
    ensures PotionCount(a) >= PotionCount(b)
    ensures SwordCount(a) <= SwordCount(b)
  {
    assert a / 2 <= b / 2 && a / 4 <= b / 4;
  }

  // ------------------------------------------------------- who stands where

  /** The loop over enemies in isPositionEmpty, isValidMove and
      isValidEnemyMove: some enemy stands on (x, y). */
  function EnemyAt(es: seq<Enemy>, x: int, y: int): (b: bool)
    ensures b <==> exists k :: 0 <= k < |es| && es[k].x == x && es[k].y == y
  {
    if es == [] then false
    else (es[0].x == x && es[0].y == y) || EnemyAt(es[1..], x, y)
  }

  /** The loop over items in isPositionEmpty: some item lies on (x, y). */
  function ItemAt(items: seq<Item>, x: int, y: int): (b: bool)
    ensures b <==> exists k :: 0 <= k < |items| && items[k].x == x && items[k].y == y
  {
    if items == [] then false
    else (items[0].x == x && items[0].y == y) || ItemAt(items[1..], x, y)
  }

  lemma EnemyAtAppend(es: seq<Enemy>, e: Enemy, x: int, y: int)
    ensures EnemyAt(es + [e], x, y) <==> EnemyAt(es, x, y) || (e.x == x && e.y == y)
  {
    if EnemyAt(es, x, y) {
      var k :| 0 <= k < |es| && es[k].x == x && es[k].y == y;
      assert (es + [e])[k] == es[k];
    }
    if EnemyAt(es + [e], x, y) {
      var k :| 0 <= k < |es| + 1 && (es + [e])[k].x == x && (es + [e])[k].y == y;
      if k < |es| { assert (es + [e])[k] == es[k]; }
    }
    assert (es + [e])[|es|] == e;
  }

  lemma ItemAtAppend(items: seq<Item>, it: Item, x: int, y: int)
    ensures ItemAt(items + [it], x, y) <==> ItemAt(items, x, y) || (it.x == x && it.y == y)
  {
    if ItemAt(items, x, y) {
      var k :| 0 <= k < |items| && items[k].x == x && items[k].y == y;
      assert (items + [it])[k] == items[k];
    }
    if ItemAt(items + [it], x, y) {
      var k :| 0 <= k < |items| + 1 && (items + [it])[k].x == x && (items + [it])[k].y == y;
      if k < |items| { assert (items + [it])[k] == items[k]; }
    }
    assert (items + [it])[|items|] == it;
  }

  /** An enemy as placeEnemies creates it at `level`. */
  predicate Recruit(e: Enemy, level: int) {
    e.health == EnemyHealth(level) && e.maxHealth == EnemyHealth(level) && e.damage == EnemyDamage(level)
  }

  /** Every enemy on a floor tile, no two on one tile. */
  ghost predicate EnemiesLaid(grid: array2<Tile>, es: seq<Enemy>)
    reads grid
  {
    && (forall k :: 0 <= k < |es| ==> OnFloor(grid, es[k].x, es[k].y))
    && EnemiesApart(es)
  }

  ghost predicate EnemiesApart(es: seq<Enemy>) {
    forall j, k :: 0 <= j < k < |es| ==> es[j].x != es[k].x || es[j].y != es[k].y
  }

  /** Every item on a floor tile, no two on one tile. */
  ghost predicate ItemsLaid(grid: array2<Tile>, items: seq<Item>)
    reads grid
  {
    && (forall k :: 0 <= k < |items| ==> OnFloor(grid, items[k].x, items[k].y))
    && (forall j, k :: 0 <= j < k < |items| ==> items[j].x != items[k].x || items[j].y != items[k].y)
  }

  /** No enemy stands on an item. */
  ghost predicate Apart(es: seq<Enemy>, items: seq<Item>) {
    forall k :: 0 <= k < |items| ==> !EnemyAt(es, items[k].x, items[k].y)
  }

  /** The number of swords among the items. */
  function SwordsIn(items: seq<Item>): (n: nat)
    ensures n <= |items|
  {
    if items == [] then 0
    else SwordsIn(items[..|items| - 1]) + (if items[|items| - 1].loot.Sword? then 1 else 0)
  }

  lemma SwordsInAppend(items: seq<Item>, it: Item)
    ensures SwordsIn(items + [it]) == SwordsIn(items) + (if it.loot.Sword? then 1 else 0)
  {
    assert (items + [it])[..|items|] == items;
  }

  /** What placeItems(potions, swords) leaves at `level`: every sword before
      every potion, each with this level's magnitude, at most `swords` swords
      and at most `potions` potions. */
  ghost predicate Stocked(items: seq<Item>, level: int, swords: int, potions: int) {
    && (forall k :: 0 <= k < |items| ==>
          items[k].loot == Sword(SwordDamage(level)) || items[k].loot == Potion(PotionHealing(level)))
    && (forall j, k :: 0 <= j < k < |items| && items[k].loot.Sword? ==> items[j].loot.Sword?)
    && SwordsIn(items) <= Max(swords, 0)
    && |items| - SwordsIn(items) <= Max(potions, 0)
  }

  /** isAdjacent(a, b): one of the 8 tiles around b (Chebyshev distance 1). */
  predicate IsAdjacent(ax: int, ay: int, bx: int, by_: int) {
    var dx, dy := Abs(ax - bx), Abs(ay - by_);
    dx <= 1 && dy <= 1 && dx + dy > 0
  }

  /** A sword of this level's damage, added while only swords are placed,
      keeps the stock. */
  lemma StockedSword(items: seq<Item>, it: Item, level: int, swords: int)
    requires 0 <= swords && Stocked(items, level, swords, 0) && it.loot == Sword(SwordDamage(level))
    ensures Stocked(items + [it], level, swords + 1, 0)
  {
    SwordsInAppend(items, it);
    assert SwordsIn(items) == |items|;
    forall j | 0 <= j < |items|
      ensures items[j].loot.Sword?
    {
      SwordsOnly(items, j);
    }
    var r := items + [it];
    assert forall k :: 0 <= k < |r| ==> r[k] == (if k < |items| then items[k] else it);
  }

  /** When every item counts as a sword, each one is a sword. */
  lemma {:induction false} SwordsOnly(items: seq<Item>, j: nat)
    requires SwordsIn(items) == |items| && j < |items|
    ensures items[j].loot.Sword?
    decreases |items|
  {
    var init := items[..|items| - 1];
    if j < |items| - 1 {
      assert init[j] == items[j];
      if !items[|items| - 1].loot.Sword? {
        assert SwordsIn(init) <= |init|;
      }
      SwordsOnly(init, j);
    }
  }

  /** A potion of this level's healing, added after the swords, keeps the
      stock. */
  lemma StockedPotion(items: seq<Item>, it: Item, level: int, swords: int, potions: int)
    requires 0 <= potions && Stocked(items, level, swords, potions) && it.loot == Potion(PotionHealing(level))
    ensures Stocked(items + [it], level, swords, potions + 1)
  {
    SwordsInAppend(items, it);
    var r := items + [it];
    assert forall k :: 0 <= k < |items| ==> r[k] == items[k];
  }
  /** One search of placeItems's potion loop: the potion found, if any, is
      appended, which keeps the stock and every item placed before. */
  lemma PotionPlaced(base: seq<Item>, items: seq<Item>, placed: Option<Item>, level: int, swords: int, potions: int)
    requires 0 <= potions && Stocked(items, level, swords, potions)
    requires |base| <= |items| && items[..|base|] == base
    requires placed.Some? ==> placed.value.loot == Potion(PotionHealing(level))
    ensures var grown := items + (if placed.Some? then [placed.value] else []);
      && Stocked(grown, level, swords, potions + 1)
      && |base| <= |grown| && grown[..|base|] == base
  {
    if placed.Some? {
      StockedPotion(items, placed.value, level, swords, potions);
      assert (items + [placed.value])[..|base|] == items[..|base|];
    } else {
      assert items + [] == items;
    }
  }


  // ----------------------------------------------------------- the attack

  /** playerAttack's adjacentPositions. */
  function Around(p: Player): seq<Pos> {
    [ Pos(p.x - 1, p.y), Pos(p.x + 1, p.y), Pos(p.x, p.y - 1), Pos(p.x, p.y + 1),
      Pos(p.x - 1, p.y - 1), Pos(p.x + 1, p.y - 1), Pos(p.x - 1, p.y + 1), Pos(p.x + 1, p.y + 1) ]
  }

  /** The attack's eight positions are exactly the tiles isAdjacent accepts. */
  lemma AroundIsAdjacent(p: Player, x: int, y: int)
    ensures Pos(x, y) in Around(p) <==> IsAdjacent(x, y, p.x, p.y)
  {
    if IsAdjacent(x, y, p.x, p.y) {
      var dx, dy := x - p.x, y - p.y;
      assert -1 <= dx <= 1 && -1 <= dy <= 1 && (dx, dy) != (0, 0);
      if dy == 0 {
        assert Pos(x, y) == (if dx < 0 then Around(p)[0] else Around(p)[1]);
      } else if dx == 0 {
        assert Pos(x, y) == (if dy < 0 then Around(p)[2] else Around(p)[3]);
      } else if dy < 0 {
        assert Pos(x, y) == (if dx < 0 then Around(p)[4] else Around(p)[5]);
      } else {
        assert Pos(x, y) == (if dx < 0 then Around(p)[6] else Around(p)[7]);
      }
    }
  }

  predicate InReach(e: Enemy, p: Player) {
    Pos(e.x, e.y) in Around(p)
  }

  /** An enemy after the attack: hit for exactly the player's damage when in
      reach, untouched otherwise. */
  function Hit(e: Enemy, p: Player): Enemy {
    if InReach(e, p) then e.(health := e.health - p.damage) else e
  }

  predicate Survives(e: Enemy, p: Player) {
    !InReach(e, p) || e.health - p.damage > 0
  }

  /** The number of enemies the attack removes. */
  function Kills(es: seq<Enemy>, p: Player): (n: nat)
    ensures n <= |es|
  {
    if es == [] then 0 else (if Survives(es[0], p) then 0 else 1) + Kills(es[1..], p)
  }

  /** The enemies after playerAttack's loop: each one hit, the defeated ones
      removed, the others in their order. */
  function Struck(es: seq<Enemy>, p: Player): (r: seq<Enemy>)
    ensures |r| + Kills(es, p) == |es|
  {
    if es == [] then []
    else (if Survives(es[0], p) then [Hit(es[0], p)] else []) + Struck(es[1..], p)
  }

  /** The survivors are exactly the enemies that survive, each hit. */
  lemma {:induction false} StruckMembers(es: seq<Enemy>, p: Player)
    ensures forall e :: e in Struck(es, p) ==> exists k :: 0 <= k < |es| && e == Hit(es[k], p) && Survives(es[k], p)
    ensures forall k :: 0 <= k < |es| && Survives(es[k], p) ==> Hit(es[k], p) in Struck(es, p)
  {
    if es != [] {
      StruckMembers(es[1..], p);
      assert forall k :: 1 <= k < |es| ==> es[k] == es[1..][k - 1];
    }
  }

  /** Struck and Kills from enemy i on: enemy i's outcome, then the rest. */
  lemma StruckStep(es: seq<Enemy>, i: nat, p: Player)
    requires i < |es|
    ensures Struck(es[i..], p) == (if Survives(es[i], p) then [Hit(es[i], p)] else []) + Struck(es[i + 1..], p)
    ensures Kills(es[i..], p) == (if Survives(es[i], p) then 0 else 1) + Kills(es[i + 1..], p)
  {
    assert es[i..][1..] == es[i + 1..];
  }

  /** Replacing enemy i of the list playerAttack is working on by its outcome
      extends the attacked suffix by one enemy. */
  lemma StrikeSplice(all: seq<Enemy>, i: nat, p: Player, cur: seq<Enemy>)
    requires i < |all| && cur == all[..i + 1] + Struck(all[i + 1..], p)
    ensures i < |cur| && cur[i] == all[i]
    ensures cur[..i] + (if Survives(cur[i], p) then [Hit(cur[i], p)] else []) + cur[i + 1..]
      == all[..i] + Struck(all[i..], p)
  {
    assert all[..i + 1] == all[..i] + [all[i]];
    assert all[i..][1..] == all[i + 1..];
    assert cur[..i] == all[..i];
    assert cur[i + 1..] == Struck(all[i + 1..], p);
  }

  /** An attack with no enemy in reach changes no enemy and scores nothing. */
  lemma {:induction false} NothingInReach(es: seq<Enemy>, p: Player)
    requires forall k :: 0 <= k < |es| ==> !InReach(es[k], p)
    ensures Struck(es, p) == es && Kills(es, p) == 0
  {
    if es != [] {
      NothingInReach(es[1..], p);
    }
  }

  /** The attack moves no enemy, so enemies on distinct tiles stay on
      distinct tiles. */
  lemma {:induction false} StruckApart(es: seq<Enemy>, p: Player)
    requires EnemiesApart(es)
    ensures EnemiesApart(Struck(es, p))
  {
    if es != [] {
      var rest := es[1..];
      assert forall k :: 0 <= k < |rest| ==> rest[k] == es[k + 1];
      StruckApart(rest, p);
      StruckMembers(rest, p);
      var tail := Struck(rest, p);
      if Survives(es[0], p) {
        var r := [Hit(es[0], p)] + tail;
        assert r == Struck(es, p);
        forall k | 0 < k < |r| ensures r[0].x != r[k].x || r[0].y != r[k].y {
          assert r[k] == tail[k - 1] && r[k] in tail;
        }
        assert forall j, k :: 0 < j < k < |r| ==> r[j] == tail[j - 1] && r[k] == tail[k - 1];
      }
    }
  }

  /** After the attack the survivors still stand on floor tiles, one to a
      tile, only where an enemy stood before, and all still alive. */
  lemma StruckStaysLaid(grid: array2<Tile>, es: seq<Enemy>, p: Player)
    requires EnemiesLaid(grid, es)
    requires forall k :: 0 <= k < |es| ==> es[k].health > 0
    ensures EnemiesLaid(grid, Struck(es, p))
    ensures forall k :: 0 <= k < |Struck(es, p)| ==> Struck(es, p)[k].health > 0
    ensures forall x, y :: EnemyAt(Struck(es, p), x, y) ==> EnemyAt(es, x, y)
    ensures (forall k :: 0 <= k < |es| ==> es[k].damage >= 0) ==>
      forall k :: 0 <= k < |Struck(es, p)| ==> Struck(es, p)[k].damage >= 0
  {
    StruckApart(es, p);
    StruckMembers(es, p);
    var r := Struck(es, p);
    forall k | 0 <= k < |r| ensures OnFloor(grid, r[k].x, r[k].y) && r[k].health > 0
      && ((forall j :: 0 <= j < |es| ==> es[j].damage >= 0) ==> r[k].damage >= 0)
    {
      assert r[k] in r;
    }
    forall x, y | EnemyAt(r, x, y) ensures EnemyAt(es, x, y) {
      var k :| 0 <= k < |r| && r[k].x == x && r[k].y == y;
      assert r[k] in r;
    }
  }

  // ------------------------------------------------------------ the pickup

  /** The effect of picking up one item: a potion heals by its amount up to
      maxHealth, a sword adds its damage. */
  function Use(it: Item, p: Player): Player {
    match it.loot
    case Potion(healing) => p.(health := Min(p.maxHealth, p.health + healing))
    case Sword(damage) => p.(damage := p.damage + damage)
  }

  /** The player after checkItemPickup's loop, which runs from the last item
      to the first and uses every item on the player's tile. */
  function Collect(items: seq<Item>, p: Player): (q: Player)
    ensures q.x == p.x && q.y == p.y && q.maxHealth == p.maxHealth
  {
    if items == [] then p
    else
      var q := Collect(items[1..], p);
      if items[0].x == q.x && items[0].y == q.y then Use(items[0], q) else q
  }

  /** Collect and Remaining from item i on: the items after i first, then
      item i. */
  lemma CollectStep(items: seq<Item>, i: nat, p: Player)
    requires i < |items|
    ensures var q := Collect(items[i + 1..], p);
      Collect(items[i..], p) == if items[i].x == q.x && items[i].y == q.y then Use(items[i], q) else q
    ensures Remaining(items[i..], p.x, p.y) ==
      (if items[i].x == p.x && items[i].y == p.y then [] else [items[i]]) + Remaining(items[i + 1..], p.x, p.y)
  {
    assert items[i..][1..] == items[i + 1..];
  }

  /** Splicing item i out of the list checkItemPickup is working on, when it
      lies on (x, y), extends the filtered suffix by one item. */
  lemma PickupSplice(all: seq<Item>, i: nat, x: int, y: int, cur: seq<Item>)
    requires i < |all| && cur == all[..i + 1] + Remaining(all[i + 1..], x, y)
    ensures i < |cur| && cur[i] == all[i]
    ensures cur[..i] + (if cur[i].x == x && cur[i].y == y then [] else [cur[i]]) + cur[i + 1..]
      == all[..i] + Remaining(all[i..], x, y)
  {
    assert all[..i + 1] == all[..i] + [all[i]];
    assert all[i..][1..] == all[i + 1..];
    assert cur[..i] == all[..i];
    assert cur[i + 1..] == Remaining(all[i + 1..], x, y);
  }

  /** The items checkItemPickup leaves: those off (x, y), in their order. */
  function Remaining(items: seq<Item>, x: int, y: int): (r: seq<Item>)
    ensures forall k :: 0 <= k < |r| ==> r[k].x != x || r[k].y != y
  {
    if items == [] then []
    else
      var rest := Remaining(items[1..], x, y);
      if items[0].x == x && items[0].y == y then rest else [items[0]] + rest
  }

  /** The items left are exactly the items off (x, y). */
  lemma {:induction false} RemainingMembers(items: seq<Item>, x: int, y: int)
    ensures forall it :: it in Remaining(items, x, y) ==> it in items
    ensures forall it :: it in items && (it.x != x || it.y != y) ==> it in Remaining(items, x, y)
  {
    if items != [] {
      RemainingMembers(items[1..], x, y);
      assert forall it :: it in items && it != items[0] ==> it in items[1..];
    }
  }

  /** Remaining keeps the order: it filters each part of a list separately. */
  lemma {:induction false} RemainingSplits(a: seq<Item>, b: seq<Item>, x: int, y: int)
    ensures Remaining(a + b, x, y) == Remaining(a, x, y) + Remaining(b, x, y)
  {
    if a == [] {
      assert a + b == b;
    } else {
      assert (a + b)[1..] == a[1..] + b;
      RemainingSplits(a[1..], b, x, y);
    }
  }

  /** The items left after a pickup still lie on floor tiles, one to a tile. */
  lemma {:induction false} RemainingLaid(grid: array2<Tile>, items: seq<Item>, x: int, y: int)
    requires ItemsLaid(grid, items)
    ensures ItemsLaid(grid, Remaining(items, x, y))
  {
    if items != [] {
      var rest := items[1..];
      assert ItemsLaid(grid, rest) by {
        forall j, k | 0 <= j < k < |rest|
          ensures rest[j].x != rest[k].x || rest[j].y != rest[k].y
        {
          assert rest[j] == items[j + 1] && rest[k] == items[k + 1];
        }
      }
      RemainingLaid(grid, rest, x, y);
      RemainingMembers(rest, x, y);
      var tail := Remaining(rest, x, y);
      if items[0].x != x || items[0].y != y {
        forall k | 0 <= k < |tail|
          ensures items[0].x != tail[k].x || items[0].y != tail[k].y
        {
          assert tail[k] in rest;
          var m :| 0 <= m < |rest| && rest[m] == tail[k];
          assert rest[m] == items[m + 1];
        }
        LaidCons(grid, items[0], tail);
      }
    }
  }

  /** An item on a floor tile of its own, in front of items laid out. */
  lemma LaidCons(grid: array2<Tile>, it: Item, tail: seq<Item>)
    requires OnFloor(grid, it.x, it.y) && ItemsLaid(grid, tail)
    requires forall k :: 0 <= k < |tail| ==> it.x != tail[k].x || it.y != tail[k].y
    ensures ItemsLaid(grid, [it] + tail)
  {
    var r := [it] + tail;
    forall k | 0 <= k < |r|
      ensures OnFloor(grid, r[k].x, r[k].y)
    {
      if k > 0 {
        assert r[k] == tail[k - 1];
      }
    }
    forall j, k | 0 <= j < k < |r|
      ensures r[j].x != r[k].x || r[j].y != r[k].y
    {
      assert r[k] == tail[k - 1];
      if j > 0 {
        assert r[j] == tail[j - 1];
      }
    }
  }

  /** Picking up never lifts health above maxHealth, never lowers health or
      damage when the magnitudes are not negative. */
  lemma {:induction false} CollectCapped(items: seq<Item>, p: Player)
    requires p.health <= p.maxHealth
    requires forall k :: 0 <= k < |items| ==> (items[k].loot.Potion? ==> items[k].loot.healing >= 0)
    requires forall k :: 0 <= k < |items| ==> (items[k].loot.Sword? ==> items[k].loot.damage >= 0)
    ensures p.health <= Collect(items, p).health <= Collect(items, p).maxHealth
    ensures p.damage <= Collect(items, p).damage
  {
    if items != [] {
      assert forall k :: 1 <= k < |items| ==> items[1..][k - 1] == items[k];
      CollectCapped(items[1..], p);
    }
  }

  /** With items on distinct tiles the pickup uses just the item on the
      player's tile, if there is one. */
  lemma {:induction false} CollectOne(items: seq<Item>, p: Player)
    requires forall j, k :: 0 <= j < k < |items| ==> items[j].x != items[k].x || items[j].y != items[k].y
    ensures !ItemAt(items, p.x, p.y) ==> Collect(items, p) == p
    ensures forall k :: 0 <= k < |items| && items[k].x == p.x && items[k].y == p.y ==>
      Collect(items, p) == Use(items[k], p)
  {
    if items != [] {
      var rest := items[1..];
      assert forall j, k :: 0 <= j < k < |rest| ==> rest[j] == items[j + 1] && rest[k] == items[k + 1];
      CollectOne(rest, p);
      if items[0].x == p.x && items[0].y == p.y {
        assert forall k :: 0 <= k < |rest| ==> rest[k] == items[k + 1];
        assert !ItemAt(rest, p.x, p.y);
      } else {
        forall k | 1 <= k < |items| && items[k].x == p.x && items[k].y == p.y
          ensures Collect(items, p) == Use(items[k], p)
        {
          assert rest[k - 1] == items[k];
        }
        assert ItemAt(items, p.x, p.y) ==> ItemAt(rest, p.x, p.y);
      }
    }
  }

  // -------------------------------------------------------- levelling up

  /** nextLevel's change to the player on entering `level`: heal by
      20 + 5 * level up to maxHealth; on every third level raise maxHealth
      by 25 and heal fully. */
  function LevelUp(p: Player, level: int): Player {
    var healed := p.(health := Min(p.maxHealth, p.health + 20 + level * 5));
    if level % 3 == 0 then healed.(maxHealth := p.maxHealth + 25, health := p.maxHealth + 25)
    else healed
  }

  /** Levelling up never hurts, keeps health within maxHealth, and raises
      maxHealth by 25 exactly on every third level. */
  lemma LevelUpHeals(p: Player, level: int)
    requires p.health <= p.maxHealth && 1 <= level
    ensures var q := LevelUp(p, level);
      && p.health <= q.health <= q.maxHealth
      && q.maxHealth == p.maxHealth + (if level % 3 == 0 then 25 else 0)
      && (level % 3 == 0 ==> q.health == q.maxHealth)
      && q.x == p.x && q.y == p.y && q.damage == p.damage
  {}
}
