/** The plain records of the shooter (projectiles, enemies, their rectangles) and
    the per-level formulas of the enemy spawner. Sizes, speeds and damage are the
    fixed values game.js assigns and never changes. */
module Entities {

  const PlayerWidth: real := 50.0
  const PlayerHeight: real := 50.0
  const PlayerSpeed: real := 5.0
  const BulletWidth: real := 5.0
  const BulletHeight: real := 10.0
  const BulletSpeed: real := 10.0
  const EnemyWidth: real := 40.0
  const EnemyHeight: real := 40.0
  /** Health an enemy loses per bullet hit, and the player per enemy contact. */
  const Damage: int := 10
  /** Score awarded each time a hit leaves the struck enemy at or below zero health. */
  const KillReward: int := 10

  /** An axis-aligned rectangle given by its top-left corner and its size. */
  datatype Rect = Rect(x: real, y: real, w: real, h: real)

  /** The strict AABB test game.js writes out for bullet/enemy and player/enemy. */
  predicate Overlaps(a: Rect, b: Rect)
  {
    a.x < b.x + b.w && a.x + a.w > b.x && a.y < b.y + b.h && a.y + a.h > b.y
  }

  /** Overlap is strict: rectangles that share only an edge do not collide,
      whichever of them comes first. */
  lemma OverlapsStrict(a: Rect, b: Rect)
    requires a.x + a.w == b.x || a.y + a.h == b.y
    ensures !Overlaps(a, b) && !Overlaps(b, a)
  {
  }

  /** The test does not depend on which rectangle comes first. */
  lemma OverlapsSymmetric(a: Rect, b: Rect)
    ensures Overlaps(a, b) == Overlaps(b, a)
  {
  }

  datatype Bullet = Bullet(x: real, y: real)
  {
    function Box(): Rect
    {
      Rect(x, y, BulletWidth, BulletHeight)
    }
  }

  /** `Bullet.update`: one tick upwards. */
  function AdvanceBullet(b: Bullet): (r: Bullet)
    ensures r.x == b.x && r.y == b.y - 10.0
  {
    b.(y := b.y - BulletSpeed)
  }

  /** A bullet that has left the top of the screen. */
  predicate OffTop(b: Bullet)
  {
    b.y < 0.0
  }

  datatype Enemy = Enemy(x: real, y: real, speed: real, health: int)
  {
    function Box(): Rect
    {
      Rect(x, y, EnemyWidth, EnemyHeight)
    }
  }

  /** `Enemy.update`: one tick downwards at the enemy's own speed. */
  function AdvanceEnemy(e: Enemy): (r: Enemy)
    ensures r.x == e.x && r.speed == e.speed && r.health == e.health
    ensures r.y - e.y == e.speed
  {
    e.(y := e.y + e.speed)
  }

  /** An enemy that has left the bottom of a screen of the given height. */
  function OffBottom(screenHeight: real): Enemy -> bool
  {
    (e: Enemy) => e.y > screenHeight
  }

  /** `e2` is `e1` after some bullet hits: same place and speed, no more health. */
  predicate Worn(e2: Enemy, e1: Enemy)
  {
    e2.x == e1.x && e2.y == e1.y && e2.speed == e1.speed && e2.health <= e1.health
  }

  /** Milliseconds between spawns at a level; the formula has no floor. */
  function SpawnRate(level: int): int
  {
    1000 - (level - 1) * 100
  }

  function EnemySpeed(level: int): real
  {
    1.0 + level as real * 0.5
  }

  function EnemyHealth(level: int): int
  {
    10 + level * 5
  }

  /** The enemy `Level.spawnEnemy` creates, for a random draw `r` in [0, 1). */
  function Spawned(level: int, screenWidth: real, r: real): (e: Enemy)
    requires 0.0 <= r < 1.0
    ensures e.y == -EnemyHeight && e.speed == EnemySpeed(level) && e.health == EnemyHealth(level)
  {
    Enemy(r * (screenWidth - EnemyWidth), -40.0, EnemySpeed(level), EnemyHealth(level))
  }

  /** A spawned enemy starts fully inside the screen horizontally. */
  lemma SpawnedOnScreen(level: int, screenWidth: real, r: real)
    requires 0.0 <= r < 1.0 && screenWidth > EnemyWidth
    ensures 0.0 <= Spawned(level, screenWidth, r).x
    ensures Spawned(level, screenWidth, r).x < screenWidth - EnemyWidth
  {
    var room := screenWidth - EnemyWidth;
    assert Spawned(level, screenWidth, r).x == r * room;
    if r > 0.0 {
      ProductOfPositives(r, room);
    }
    ProductOfPositives(1.0 - r, room);
    assert r * room == room - (1.0 - r) * room;
    assert Spawned(level, screenWidth, r).x < screenWidth - EnemyWidth;
  }

  lemma ProductOfPositives(a: real, b: real)
    requires a > 0.0 && b > 0.0
    ensures a * b > 0.0
  {
  }

  /** Each level spawns more often, and its enemies are faster and tougher. */
  lemma LevelsHarden(a: int, b: int)
    requires a < b
    ensures SpawnRate(b) < SpawnRate(a)
    ensures EnemySpeed(a) < EnemySpeed(b) && EnemyHealth(a) < EnemyHealth(b)
  {
  }

  /** From level 11 on the spawn interval is zero or negative. */
  lemma SpawnRateHasNoFloor(level: int)
    requires level >= 11
    ensures SpawnRate(level) <= 0
  {
  }
}
