/** The per-level enemy spawner: a time-based spawn policy and the list of
    enemies on screen. One `Level` exists per game level and is replaced
    wholesale on level-up. */
module Waves {
  import opened Entities
  import opened Sweeping

  class Level {
    const level: int
    var enemies: seq<Enemy>
    const spawnRate: int
    /** Timestamp in milliseconds of the last spawn (or of construction). */
    var lastSpawn: int

    constructor (level: int, now: int)
      ensures this.level == level && enemies == []
      ensures spawnRate == SpawnRate(level) && lastSpawn == now
    {
      this.level := level;
      enemies := [];
      spawnRate := 1000 - (level - 1) * 100;
      lastSpawn := now;
    }

    /** Whether more than `spawnRate` milliseconds have passed since the last spawn. */
    predicate Due(now: int)
      reads this
    {
      now - lastSpawn > spawnRate
    }

    /** Appends one enemy for this level at a random column, just above the top. */
    method SpawnEnemy(screenWidth: real, r: real)
      requires 0.0 <= r < 1.0
      modifies this`enemies
      ensures enemies == old(enemies) + [Spawned(level, screenWidth, r)]
    {
      var x := r * (screenWidth - 40.0);
      var y := -40.0;
      var speed := 1.0 + level as real * 0.5;
      var health := 10 + level * 5;
      enemies := enemies + [Enemy(x, y, speed, health)];
    }

    /** Spawns at most one enemy when due, then moves every visited enemy down
        and splices out those below the screen, skipping the enemy after each
        removal. */
    method Update(now: int, screenWidth: real, screenHeight: real, r: real)
      requires 0.0 <= r < 1.0
      modifies this`enemies, this`lastSpawn
      ensures lastSpawn == if old(Due(now)) then now else old(lastSpawn)
      ensures enemies == Sweep(if old(Due(now)) then old(enemies) + [Spawned(level, screenWidth, r)]
                               else old(enemies), AdvanceEnemy, OffBottom(screenHeight))
      ensures |enemies| <= |old(enemies)| + (if old(Due(now)) then 1 else 0)
    {
      if now - lastSpawn > spawnRate {
        SpawnEnemy(screenWidth, r);
        lastSpawn := now;
      }
      enemies := ForEachSplice(enemies, AdvanceEnemy, OffBottom(screenHeight));
    }
  }

  /** The advance pass only removes: the enemies left are, in order, a selection
      of those present before it, each moved down by its speed or skipped, and an
      enemy moved down is kept only while it is not below the screen. */
  lemma EnemySweepOnlyRemoves(enemies: seq<Enemy>, screenHeight: real)
    ensures Embeds(Sweep(enemies, AdvanceEnemy, OffBottom(screenHeight)), enemies,
                   Kept(AdvanceEnemy, OffBottom(screenHeight)))
    ensures |Sweep(enemies, AdvanceEnemy, OffBottom(screenHeight))| <= |enemies|
  {
    SweepEmbeds(enemies, AdvanceEnemy, OffBottom(screenHeight));
  }

  /** Whether an enemy's next update takes it below a screen of height `screenHeight`. */
  function Sinking(screenHeight: real): Enemy -> bool
  {
    (e: Enemy) => e.y + e.speed > screenHeight
  }

  /** The advance pass deletes only enemies whose own update took them below the
      screen; every other enemy stays in order, moved down or skipped. */
  lemma EnemySweepDropsOnlySinking(enemies: seq<Enemy>, screenHeight: real)
    ensures Thins(Sweep(enemies, AdvanceEnemy, OffBottom(screenHeight)), enemies,
                  Kept(AdvanceEnemy, OffBottom(screenHeight)), Sinking(screenHeight))
  {
    SweepThins(enemies, AdvanceEnemy, OffBottom(screenHeight), Sinking(screenHeight));
  }

  /** An enemy is removed only when its own update took it below the screen: if
      no update would, every enemy moves down by its speed and stays. */
  lemma EnemySweepKeepsOnScreen(enemies: seq<Enemy>, screenHeight: real)
    requires forall i :: 0 <= i < |enemies| ==> enemies[i].y + enemies[i].speed <= screenHeight
    ensures |Sweep(enemies, AdvanceEnemy, OffBottom(screenHeight))| == |enemies|
    ensures forall i :: 0 <= i < |enemies| ==>
              Sweep(enemies, AdvanceEnemy, OffBottom(screenHeight))[i]
              == enemies[i].(y := enemies[i].y + enemies[i].speed)
  {
    SweepKeepsAll(enemies, AdvanceEnemy, OffBottom(screenHeight));
  }
}
