/** The game state and the per-frame simulation step of `gameLoop`: player and
    bullet update, spawner update, the nested collision pass, scoring, damage,
    game over and level advance. Drawing is not part of this model. */
module Arcade {
  import opened Entities
  import opened Sweeping
  import opened Ship
  import opened Waves

  /** The `gameState` record. `playerHealth` and `playerArmor` are kept but no
      rule reads or writes them; the ship's own health is what counts. */
  class GameState {
    var score: int
    var level: int
    var playerHealth: int
    var playerArmor: int
    var gameOver: bool
    var paused: bool

    constructor ()
      ensures score == 0 && level == 1 && playerHealth == 100 && playerArmor == 100
      ensures !gameOver && !paused
    {
      score, level := 0, 1;
      playerHealth, playerArmor := 100, 100;
      gameOver, paused := false, false;
    }
  }

  /** The bullet/enemy test of the collision pass: their boxes overlap. */
  predicate Collides(b: Bullet, e: Enemy)
  {
    Overlaps(b.Box(), e.Box())
  }

  /** No bullet of `bullets` collides with `e`. */
  predicate Clear(bullets: seq<Bullet>, e: Enemy)
    decreases |bullets|
  {
    bullets == [] || (!Collides(bullets[0], e) && Clear(bullets[1..], e))
  }

  /** No bullet collides with any enemy and the ship box overlaps no enemy. */
  predicate Untouched(bullets: seq<Bullet>, enemies: seq<Enemy>, ship: Rect)
    decreases |enemies|
  {
    enemies == [] ||
    (Clear(bullets, enemies[0]) && !Overlaps(ship, enemies[0].Box()) && Untouched(bullets, enemies[1..], ship))
  }

  lemma {:induction false} ClearNoneCollide(bullets: seq<Bullet>, e: Enemy)
    requires Clear(bullets, e)
    ensures forall b :: b in bullets ==> !Collides(b, e)
    decreases |bullets|
  {
    if bullets != [] {
      ClearNoneCollide(bullets[1..], e);
      assert forall b :: b in bullets ==> b == bullets[0] || b in bullets[1..];
    }
  }

  /** Scoring events among `n` successive 10-point hits on an enemy that started
      with health `h`: one for every hit after which its health is at or below 0. */
  function KillCount(h: int, n: nat): (k: nat)
    ensures k <= n
  {
    if n == 0 then 0 else KillCount(h, n - 1) + (if h - Damage * n <= 0 then 1 else 0)
  }

  /** Hits before the one that brings health to 0 or below score nothing; that
      hit and every later one score once each. For `h > 0` the first scoring hit
      is hit number `(h + 9) / 10`, health divided by 10 rounded up. */
  lemma {:induction false} KillCountClosed(h: int, n: nat)
    ensures h <= 0 ==> KillCount(h, n) == n
    ensures h > 0 && n < (h + 9) / 10 ==> KillCount(h, n) == 0
    ensures h > 0 && n >= (h + 9) / 10 ==> KillCount(h, n) == n - (h + 9) / 10 + 1
  {
    if n > 0 {
      KillCountClosed(h, n - 1);
      assert h > 0 ==> (h - Damage * n <= 0 <==> n >= (h + 9) / 10);
    }
  }

  // The next five lemmas instantiate the generic `Embeds` lemmas of `Sweeping`
  // at one element type and relation; calling them instead of the generic ones
  // keeps the proofs of the collision pass within the solver's budget.

  /** A splice of a bullet list is an in-order selection of it. */
  lemma BulletsSplice(s: seq<Bullet>, i: nat)
    ensures Embeds(Splice(s, i), s, Same)
    ensures i < |s| ==> |Splice(s, i)| == |s| - 1
  {
    EmbedsSplice(s, i, Same);
  }

  /** An in-order selection of an in-order selection of `c` is one of `c`. */
  lemma BulletsSelectTransitive(a: seq<Bullet>, b: seq<Bullet>, c: seq<Bullet>)
    requires Embeds(a, b, Same) && Embeds(b, c, Same)
    ensures Embeds(a, c, Same)
  {
    EmbedsTransitive(a, b, c, Same);
  }

  /** Worn-down survivors of worn-down survivors of `c` are worn-down survivors of `c`. */
  lemma EnemiesWearTransitive(a: seq<Enemy>, b: seq<Enemy>, c: seq<Enemy>)
    requires Embeds(a, b, Worn) && Embeds(b, c, Worn)
    ensures Embeds(a, c, Worn)
  {
    EmbedsTransitive(a, b, c, Worn);
  }

  /** Splicing an enemy list keeps its enemies worn-down survivors of `base`. */
  lemma EnemiesSpliceWithin(s: seq<Enemy>, i: nat, base: seq<Enemy>)
    requires Embeds(s, base, Worn)
    ensures Embeds(Splice(s, i), base, Worn)
    ensures i < |s| ==> |Splice(s, i)| == |s| - 1
    ensures i >= |s| ==> Splice(s, i) == s
  {
    EmbedsSplice(s, i, Worn);
    EmbedsTransitive(Splice(s, i), s, base, Worn);
  }

  /** Wearing down one enemy keeps the list's enemies worn-down survivors of `base`. */
  lemma EnemiesWearWithin(s: seq<Enemy>, i: nat, v: Enemy, base: seq<Enemy>)
    requires i < |s| && Worn(v, s[i]) && Embeds(s, base, Worn)
    ensures Embeds(s[i := v], base, Worn)
  {
    EmbedsUpdate(s, i, v, Worn);
    EmbedsTransitive(s[i := v], s, base, Worn);
  }

  /** Shifting the count by one hit: the first hit scores iff it leaves health at
      or below 0, and the rest count from the lowered health. */
  lemma {:induction false} KillCountShift(h: int, n: nat)
    ensures KillCount(h, n + 1) == (if h - Damage <= 0 then 1 else 0) + KillCount(h - Damage, n)
  {
    if n > 0 {
      KillCountShift(h, n - 1);
    }
  }

  /** What the inner `forEach` of the collision pass leaves: the bullets, the
      enemies, the enemy in hand, and how many hits and scoring events there were. */
  datatype Strike = Strike(bullets: seq<Bullet>, enemies: seq<Enemy>, enemy: Enemy, hits: nat, kills: nat)

  /** The inner walk from bullet index `i` on, for the enemy in hand `enemy`
      handed out at outer index `index`; `listed` tells whether that enemy still
      sits in the list at `index`. A bullet overlapping the enemy costs it 10
      health (written back to its slot while listed) and is spliced out; at or
      below zero health the slot at `index` is spliced, whichever enemy holds it,
      and one scoring event counts. The index advances past every bullet, so
      after a splice the next bullet is not tested. */
  function StrikeFrom(bullets: seq<Bullet>, i: nat, enemies: seq<Enemy>, index: nat, enemy: Enemy, listed: bool, hit: (Bullet, Enemy) -> bool): (r: Strike)
    requires listed ==> index < |enemies|
    ensures r.kills <= r.hits <= |bullets| && |r.enemies| <= |enemies|
    decreases |bullets| - i
  {
    if i >= |bullets| then Strike(bullets, enemies, enemy, 0, 0)
    else if !hit(bullets[i], enemy) then StrikeFrom(bullets, i + 1, enemies, index, enemy, listed, hit)
    else
      var e := enemy.(health := enemy.health - Damage);
      var worn := if listed then enemies[index := e] else enemies;
      var killed := e.health <= 0;
      var r := StrikeFrom(Splice(bullets, i), i + 1, if killed then Splice(worn, index) else worn, index, e, listed && !killed, hit);
      r.(hits := r.hits + 1, kills := r.kills + if killed then 1 else 0)
  }

  /** The enemy in hand only loses health, exactly 10 per hit, and a scoring
      event happens only once its health is at or below 0. */
  lemma {:induction false} StrikeWears(bullets: seq<Bullet>, i: nat, enemies: seq<Enemy>, index: nat, enemy: Enemy, listed: bool, hit: (Bullet, Enemy) -> bool)
    requires listed ==> index < |enemies|
    ensures var r := StrikeFrom(bullets, i, enemies, index, enemy, listed, hit);
            Worn(r.enemy, enemy) && r.enemy.health == enemy.health - Damage * r.hits
            && (r.kills > 0 ==> r.enemy.health <= 0)
    decreases |bullets| - i
  {
    if i < |bullets| {
      if !hit(bullets[i], enemy) {
        StrikeWears(bullets, i + 1, enemies, index, enemy, listed, hit);
      } else {
        var e := enemy.(health := enemy.health - Damage);
        var worn := if listed then enemies[index := e] else enemies;
        var killed := e.health <= 0;
        var next := if killed then Splice(worn, index) else worn;
        StrikeWears(Splice(bullets, i), i + 1, next, index, e, listed && !killed, hit);
      }
    }
  }

  /** Scoring events are exactly those `KillCount` counts for the hits taken. */
  lemma {:induction false} StrikeScores(bullets: seq<Bullet>, i: nat, enemies: seq<Enemy>, index: nat, enemy: Enemy, listed: bool, hit: (Bullet, Enemy) -> bool)
    requires listed ==> index < |enemies|
    ensures var r := StrikeFrom(bullets, i, enemies, index, enemy, listed, hit);
            r.kills == KillCount(enemy.health, r.hits)
    decreases |bullets| - i
  {
    if i < |bullets| {
      if !hit(bullets[i], enemy) {
        StrikeScores(bullets, i + 1, enemies, index, enemy, listed, hit);
      } else {
        var e := enemy.(health := enemy.health - Damage);
        var worn := if listed then enemies[index := e] else enemies;
        var killed := e.health <= 0;
        var next := if killed then Splice(worn, index) else worn;
        StrikeScores(Splice(bullets, i), i + 1, next, index, e, listed && !killed, hit);
        var r := StrikeFrom(Splice(bullets, i), i + 1, next, index, e, listed && !killed, hit);
        KillCountShift(enemy.health, r.hits);
      }
    }
  }

  /** The walk only deletes bullets, exactly one per hit, and keeps the rest in
      order. */
  lemma {:induction false} StrikeSplicesBullets(bullets: seq<Bullet>, i: nat, enemies: seq<Enemy>, index: nat, enemy: Enemy, listed: bool, hit: (Bullet, Enemy) -> bool)
    requires listed ==> index < |enemies|
    ensures var r := StrikeFrom(bullets, i, enemies, index, enemy, listed, hit);
            Embeds(r.bullets, bullets, Same) && |r.bullets| == |bullets| - r.hits
    decreases |bullets| - i
  {
    if i >= |bullets| {
      EmbedsReflexive(bullets, Same);
    } else if !hit(bullets[i], enemy) {
      StrikeSplicesBullets(bullets, i + 1, enemies, index, enemy, listed, hit);
    } else {
      var e := enemy.(health := enemy.health - Damage);
      var worn := if listed then enemies[index := e] else enemies;
      var killed := e.health <= 0;
      var next := if killed then Splice(worn, index) else worn;
      StrikeSplicesBullets(Splice(bullets, i), i + 1, next, index, e, listed && !killed, hit);
      var r := StrikeFrom(Splice(bullets, i), i + 1, next, index, e, listed && !killed, hit);
      BulletsSplice(bullets, i);
      BulletsSelectTransitive(r.bullets, Splice(bullets, i), bullets);
    }
  }

  /** The walk only deletes or wears down enemies. Without a scoring event the
      enemy list differs from the input at most in the slot at `index`, which
      then holds the worn enemy in hand; a scoring event while that enemy is
      listed shortens the list. */
  lemma {:induction false} StrikeThinsEnemies(bullets: seq<Bullet>, i: nat, enemies: seq<Enemy>, index: nat, enemy: Enemy, listed: bool, hit: (Bullet, Enemy) -> bool)
    requires listed ==> index < |enemies| && enemies[index] == enemy
    ensures var r := StrikeFrom(bullets, i, enemies, index, enemy, listed, hit);
            Embeds(r.enemies, enemies, Worn) && |r.enemies| <= |enemies|
            && (r.kills == 0 ==> r.enemies == if listed then enemies[index := r.enemy] else enemies)
            && (listed && r.kills > 0 ==> |r.enemies| < |enemies|)
    decreases |bullets| - i
  {
    if i >= |bullets| {
      EmbedsReflexive(enemies, Worn);
      if listed {
        assert enemies[index := enemy] == enemies;
      }
    } else if !hit(bullets[i], enemy) {
      StrikeThinsEnemies(bullets, i + 1, enemies, index, enemy, listed, hit);
    } else {
      var e := enemy.(health := enemy.health - Damage);
      var worn := if listed then enemies[index := e] else enemies;
      var killed := e.health <= 0;
      var next := if killed then Splice(worn, index) else worn;
      StrikeThinsEnemies(Splice(bullets, i), i + 1, next, index, e, listed && !killed, hit);
      var r := StrikeFrom(Splice(bullets, i), i + 1, next, index, e, listed && !killed, hit);
      EmbedsReflexive(enemies, Worn);
      if listed {
        EnemiesWearWithin(enemies, index, e, enemies);
      }
      if killed {
        EnemiesSpliceWithin(worn, index, enemies);
      }
      EmbedsTransitive(r.enemies, next, enemies, Worn);
      EmbedsShorter(r.enemies, enemies, Worn);
      if r.kills == 0 && listed {
        assert enemies[index := e][index := r.enemy] == enemies[index := r.enemy];
      }
    }
  }

  /** The walk hits at least once exactly when some bullet from `i` on overlaps
      the enemy in hand; without a hit nothing changes. */
  lemma {:induction false} StrikeHits(bullets: seq<Bullet>, i: nat, enemies: seq<Enemy>, index: nat, enemy: Enemy, listed: bool, hit: (Bullet, Enemy) -> bool)
    requires listed ==> index < |enemies|
    ensures var r := StrikeFrom(bullets, i, enemies, index, enemy, listed, hit);
            (r.hits > 0 <==> exists j :: i <= j < |bullets| && hit(bullets[j], enemy))
            && (r.hits == 0 ==> r.bullets == bullets && r.enemies == enemies && r.enemy == enemy)
    decreases |bullets| - i
  {
    if i < |bullets| && !hit(bullets[i], enemy) {
      StrikeHits(bullets, i + 1, enemies, index, enemy, listed, hit);
    }
  }

  /** One bullet on an enemy with 10 health: the bullet is spliced, the enemy is
      spliced at health 0, and one scoring event counts. */
  lemma StrikeOneHitKills()
    ensures var a := Enemy(0.0, 0.0, 1.0, 10);
            StrikeFrom([Bullet(10.0, 10.0)], 0, [a], 0, a, true, Collides)
            == Strike([], [], a.(health := 0), 1, 1)
  {
    var a := Enemy(0.0, 0.0, 1.0, 10);
    assert Collides(Bullet(10.0, 10.0), a);
  }

  /** The enemy in hand stays in use after it is spliced out: three bullets on
      an enemy with 10 health next to a second enemy. The first kills it and
      scores; the second slides into the freed bullet slot and is skipped; the
      third hits the removed enemy again, which splices the second enemy, now
      at the same index, and scores a second time. */
  lemma StrikeSplicesBystander()
    ensures var a, b := Enemy(0.0, 0.0, 1.0, 10), Enemy(100.0, 0.0, 1.0, 10);
            var shot := Bullet(10.0, 10.0);
            StrikeFrom([shot, shot, shot], 0, [a, b], 0, a, true, Collides)
            == Strike([shot], [], a.(health := -10), 2, 2)
  {
    var a, b := Enemy(0.0, 0.0, 1.0, 10), Enemy(100.0, 0.0, 1.0, 10);
    var shot := Bullet(10.0, 10.0);
    var a1, a2 := a.(health := 0), a.(health := -10);
    assert Collides(shot, a) && Collides(shot, a1);
    assert Splice([shot, shot, shot], 0) == [shot, shot] && Splice([a1, b], 0) == [b];
    assert Splice([shot, shot], 1) == [shot] && Splice([b], 0) == [];
    assert StrikeFrom([shot], 2, [], 0, a2, false, Collides) == Strike([shot], [], a2, 0, 0);
    assert StrikeFrom([shot, shot], 1, [b], 0, a1, false, Collides) == Strike([shot], [], a2, 1, 1);
  }

  /** A score raised by whole kill rewards stays a multiple of the reward. */
  lemma RewardsAreWhole(kills: nat)
    ensures KillReward * kills >= 0 && (KillReward * kills) % KillReward == 0
  {
  }

  /** What the outer `forEach` of the collision pass leaves: the bullets, the
      enemies, the ship's health, whether the game is over, and how many bullet
      hits, scoring events and ship contacts there were. */
  datatype Pass = Pass(bullets: seq<Bullet>, enemies: seq<Enemy>, health: int, over: bool,
                       hits: nat, kills: nat, contacts: nat)

  /** The outer walk from enemy index `index` on. The enemy at `index` is struck
      by the bullets (`StrikeFrom`); then, if the enemy in hand touches the ship,
      the ship loses 10 health, the slot at `index` is spliced whichever enemy
      holds it (none when a kill already emptied it), and the game ends once the
      health is at or below zero. The index advances past every enemy, so after
      a splice the next enemy is not visited. */
  function CollideFrom(bullets: seq<Bullet>, enemies: seq<Enemy>, index: nat, health: int, over: bool,
                       hit: (Bullet, Enemy) -> bool, ship: Rect): (r: Pass)
    ensures r.kills <= r.hits && |r.enemies| <= |enemies|
    decreases |enemies| - index
  {
    if index >= |enemies| then Pass(bullets, enemies, health, over, 0, 0, 0)
    else
      var s := StrikeFrom(bullets, 0, enemies, index, enemies[index], true, hit);
      var contact := Overlaps(ship, s.enemy.Box());
      var hurt := if contact then health - Damage else health;
      var r := CollideFrom(s.bullets, if contact then Splice(s.enemies, index) else s.enemies, index + 1,
                           hurt, over || (contact && hurt <= 0), hit, ship);
      r.(hits := r.hits + s.hits, kills := r.kills + s.kills, contacts := r.contacts + if contact then 1 else 0)
  }

  /** One turn of the outer walk, unfolded: the pass from `index` is the turn
      at `index` followed by the pass from `index + 1`. */
  lemma CollideStep(bullets: seq<Bullet>, enemies: seq<Enemy>, index: nat, health: int, over: bool,
                    hit: (Bullet, Enemy) -> bool, ship: Rect, s: Strike)
    requires index < |enemies|
    requires s == StrikeFrom(bullets, 0, enemies, index, enemies[index], true, hit)
    ensures var contact := Overlaps(ship, s.enemy.Box());
            var hurt := if contact then health - Damage else health;
            var p := CollideFrom(bullets, enemies, index, health, over, hit, ship);
            var q := CollideFrom(s.bullets, if contact then Splice(s.enemies, index) else s.enemies, index + 1,
                                 hurt, over || (contact && hurt <= 0), hit, ship);
            p.bullets == q.bullets && p.enemies == q.enemies && p.health == q.health && p.over == q.over
            && p.hits == s.hits + q.hits && p.kills == s.kills + q.kills
            && p.contacts == q.contacts + (if contact then 1 else 0)
  {
  }

  /** Each contact costs exactly 10 health, there is at most one per visited
      slot, and the game is over after the pass exactly when it was before or a
      contact left the health at or below 0. */
  lemma {:induction false} CollideCounts(bullets: seq<Bullet>, enemies: seq<Enemy>, index: nat, health: int, over: bool,
                                         hit: (Bullet, Enemy) -> bool, ship: Rect)
    ensures var p := CollideFrom(bullets, enemies, index, health, over, hit, ship);
            p.health == health - Damage * p.contacts
            && p.over == (over || (p.contacts > 0 && p.health <= 0))
            && (index <= |enemies| ==> p.contacts <= |enemies| - index)
    decreases |enemies| - index
  {
    if index < |enemies| {
      var s := StrikeFrom(bullets, 0, enemies, index, enemies[index], true, hit);
      var contact := Overlaps(ship, s.enemy.Box());
      var hurt := if contact then health - Damage else health;
      var next := if contact then Splice(s.enemies, index) else s.enemies;
      CollideCounts(s.bullets, next, index + 1, hurt, over || (contact && hurt <= 0), hit, ship);
    }
  }

  /** The pass only deletes bullets, exactly one per hit, and keeps the rest in
      order. */
  lemma {:induction false} CollideSplicesBullets(bullets: seq<Bullet>, enemies: seq<Enemy>, index: nat, health: int, over: bool,
                                                 hit: (Bullet, Enemy) -> bool, ship: Rect)
    ensures var p := CollideFrom(bullets, enemies, index, health, over, hit, ship);
            Embeds(p.bullets, bullets, Same) && |p.bullets| == |bullets| - p.hits
    decreases |enemies| - index
  {
    if index >= |enemies| {
      EmbedsReflexive(bullets, Same);
    } else {
      var s := StrikeFrom(bullets, 0, enemies, index, enemies[index], true, hit);
      var contact := Overlaps(ship, s.enemy.Box());
      var hurt := if contact then health - Damage else health;
      var next := if contact then Splice(s.enemies, index) else s.enemies;
      CollideSplicesBullets(s.bullets, next, index + 1, hurt, over || (contact && hurt <= 0), hit, ship);
      StrikeSplicesBullets(bullets, 0, enemies, index, enemies[index], true, hit);
      var p := CollideFrom(s.bullets, next, index + 1, hurt, over || (contact && hurt <= 0), hit, ship);
      BulletsSelectTransitive(p.bullets, s.bullets, bullets);
    }
  }

  /** The pass only deletes or wears down enemies, keeping the rest in order. */
  lemma {:induction false} CollideThinsEnemies(bullets: seq<Bullet>, enemies: seq<Enemy>, index: nat, health: int, over: bool,
                                               hit: (Bullet, Enemy) -> bool, ship: Rect)
    ensures var p := CollideFrom(bullets, enemies, index, health, over, hit, ship);
            Embeds(p.enemies, enemies, Worn)
    decreases |enemies| - index
  {
    if index >= |enemies| {
      EmbedsReflexive(enemies, Worn);
    } else {
      var s := StrikeFrom(bullets, 0, enemies, index, enemies[index], true, hit);
      var contact := Overlaps(ship, s.enemy.Box());
      var hurt := if contact then health - Damage else health;
      var next := if contact then Splice(s.enemies, index) else s.enemies;
      CollideThinsEnemies(s.bullets, next, index + 1, hurt, over || (contact && hurt <= 0), hit, ship);
      StrikeThinsEnemies(bullets, 0, enemies, index, enemies[index], true, hit);
      if contact {
        EnemiesSpliceWithin(s.enemies, index, enemies);
      }
      var p := CollideFrom(s.bullets, next, index + 1, hurt, over || (contact && hurt <= 0), hit, ship);
      EnemiesWearTransitive(p.enemies, next, enemies);
    }
  }

  /** The slot at `index` is always visited: a bullet overlapping the enemy
      there means at least one hit, and the enemy there touching the ship means
      at least one contact (hits do not move an enemy). */
  lemma CollideVisitsSlot(bullets: seq<Bullet>, enemies: seq<Enemy>, index: nat, health: int, over: bool,
                          hit: (Bullet, Enemy) -> bool, ship: Rect)
    requires index < |enemies|
    ensures var p := CollideFrom(bullets, enemies, index, health, over, hit, ship);
            ((exists j :: 0 <= j < |bullets| && hit(bullets[j], enemies[index])) ==> p.hits > 0)
            && (Overlaps(ship, enemies[index].Box()) ==> p.contacts > 0)
  {
    StrikeHits(bullets, 0, enemies, index, enemies[index], true, hit);
    StrikeWears(bullets, 0, enemies, index, enemies[index], true, hit);
  }

  /** When no bullet overlaps any enemy from `index` on and none of those
      enemies touches the ship, the pass changes nothing. */
  lemma {:induction false} CollideCalm(bullets: seq<Bullet>, enemies: seq<Enemy>, index: nat, health: int, over: bool, ship: Rect)
    requires index <= |enemies| && Untouched(bullets, enemies[index..], ship)
    ensures CollideFrom(bullets, enemies, index, health, over, Collides, ship)
            == Pass(bullets, enemies, health, over, 0, 0, 0)
    decreases |enemies| - index
  {
    if index < |enemies| {
      var e := enemies[index];
      assert enemies[index..][0] == e && enemies[index..][1..] == enemies[index + 1..];
      ClearNoneCollide(bullets, e);
      StrikeHits(bullets, 0, enemies, index, e, true, Collides);
      CollideCalm(bullets, enemies, index + 1, health, over, ship);
    }
  }

  /** The whole pass from the first slot: bullets only spliced, one per hit;
      enemies only spliced or worn; exactly 10 health per contact, at most one
      contact per enemy; the game over exactly when a contact left the health at
      or below 0; the first enemy always visited; and nothing changes when no
      bullet overlaps an enemy and no enemy touches the ship. */
  lemma CollideSummary(bullets: seq<Bullet>, enemies: seq<Enemy>, health: int, over: bool, ship: Rect)
    ensures var p := CollideFrom(bullets, enemies, 0, health, over, Collides, ship);
            Embeds(p.bullets, bullets, Same) && |p.bullets| == |bullets| - p.hits
            && Embeds(p.enemies, enemies, Worn)
            && p.health == health - Damage * p.contacts && p.contacts <= |enemies|
            && p.over == (over || (p.contacts > 0 && p.health <= 0))
            && (|enemies| > 0 && Overlaps(ship, enemies[0].Box()) ==> p.contacts > 0)
            && (|enemies| > 0 && (exists b :: b in bullets && Collides(b, enemies[0])) ==> p.hits > 0)
            && (Untouched(bullets, enemies, ship) ==> p == Pass(bullets, enemies, health, over, 0, 0, 0))
  {
    CollideCounts(bullets, enemies, 0, health, over, Collides, ship);
    CollideSplicesBullets(bullets, enemies, 0, health, over, Collides, ship);
    CollideThinsEnemies(bullets, enemies, 0, health, over, Collides, ship);
    if |enemies| > 0 {
      CollideVisitsSlot(bullets, enemies, 0, health, over, Collides, ship);
      assert (exists b :: b in bullets && Collides(b, enemies[0]))
             ==> exists j :: 0 <= j < |bullets| && Collides(bullets[j], enemies[0]);
    }
    if Untouched(bullets, enemies, ship) {
      assert enemies[0..] == enemies;
      CollideCalm(bullets, enemies, 0, health, over, ship);
    }
  }

  /** A contact at 10 health splices the enemy and ends the game. */
  lemma ContactEndsGame()
    ensures var a := Enemy(0.0, 0.0, 1.0, 10);
            CollideFrom([], [a], 0, 10, false, Collides, Rect(10.0, 10.0, PlayerWidth, PlayerHeight))
            == Pass([], [], 0, true, 0, 0, 1)
  {
    var a := Enemy(0.0, 0.0, 1.0, 10);
    assert Overlaps(Rect(10.0, 10.0, PlayerWidth, PlayerHeight), a.Box());
    assert Splice([a], 0) == [];
  }

  /** The enemy in hand still touches the ship after a bullet destroyed it: the
      ship loses 10 health although no enemy is left to splice. */
  lemma ContactAfterKill()
    ensures var a := Enemy(0.0, 0.0, 1.0, 10);
            CollideFrom([Bullet(10.0, 10.0)], [a], 0, 100, false, Collides, Rect(10.0, 10.0, PlayerWidth, PlayerHeight))
            == Pass([], [], 90, false, 1, 1, 1)
  {
    var a := Enemy(0.0, 0.0, 1.0, 10);
    StrikeOneHitKills();
    assert Overlaps(Rect(10.0, 10.0, PlayerWidth, PlayerHeight), a.(health := 0).Box());
  }

  /** The three module-level objects of game.js on a screen of fixed size. */
  class Game {
    const screenWidth: real
    const screenHeight: real
    const state: GameState
    const player: Player
    var currentLevel: Level

    /** The spawner always belongs to the current level. */
    ghost predicate Valid()
      reads this, state
    {
      currentLevel.level == state.level && currentLevel.spawnRate == SpawnRate(currentLevel.level)
    }

    constructor (screenWidth: real, screenHeight: real, now: int)
      ensures Valid() && fresh(state) && fresh(player) && fresh(currentLevel)
      ensures state.score == 0 && state.level == 1 && !state.gameOver && !state.paused
      ensures this.screenWidth == screenWidth && this.screenHeight == screenHeight
      ensures state.playerHealth == 100 && state.playerArmor == 100
      ensures player.x == screenWidth / 2.0 && player.y == screenHeight - 100.0
      ensures player.bullets == [] && player.health == 100 && player.armor == 100 && player.moving == "stop"
      ensures currentLevel.enemies == [] && currentLevel.lastSpawn == now
    {
      this.screenWidth := screenWidth;
      this.screenHeight := screenHeight;
      var gameState := new GameState();
      state := gameState;
      player := new Player(screenWidth, screenHeight);
      currentLevel := new Level(gameState.level, now);
    }

    /** The Escape key. */
    method TogglePause()
      modifies state`paused
      ensures state.paused == !old(state.paused)
    {
      state.paused := !state.paused;
    }

    /** The inner `forEach` of the collision pass for the enemy at `index`, as
        an index loop over the bullet list it shrinks; see `StrikeFrom`. `hits`
        counts bullet hits and `kills` scoring events. */
    method StrikeEnemy(index: nat, target: Enemy) returns (enemy: Enemy, ghost hits: nat, ghost kills: nat)
      requires index < |currentLevel.enemies| && currentLevel.enemies[index] == target
      modifies state`score, player`bullets, currentLevel`enemies
      ensures var r := StrikeFrom(old(player.bullets), 0, old(currentLevel.enemies), index, target, true, Collides);
              player.bullets == r.bullets && currentLevel.enemies == r.enemies
              && enemy == r.enemy && hits == r.hits && kills == r.kills
      ensures state.score == old(state.score) + KillReward * kills
      ensures Worn(enemy, target) && enemy.health == target.health - Damage * hits
      ensures kills == KillCount(target.health, hits) && kills <= hits
      ensures kills > 0 ==> enemy.health <= 0
      ensures Embeds(player.bullets, old(player.bullets), Same)
      ensures |player.bullets| == |old(player.bullets)| - hits
      ensures Embeds(currentLevel.enemies, old(currentLevel.enemies), Worn)
      ensures |currentLevel.enemies| <= |old(currentLevel.enemies)|
      ensures kills == 0 ==> currentLevel.enemies == old(currentLevel.enemies)[index := enemy]
      ensures kills > 0 ==> |currentLevel.enemies| < |old(currentLevel.enemies)|
      ensures hits > 0 <==> exists b :: b in old(player.bullets) && Collides(b, target)
      ensures hits == 0 ==> player.bullets == old(player.bullets)
                            && currentLevel.enemies == old(currentLevel.enemies)
    {
      ghost var bullets0, enemies0 := player.bullets, currentLevel.enemies;
      ghost var final := StrikeFrom(bullets0, 0, enemies0, index, target, true, Collides);
      enemy, hits, kills := target, 0, 0;
      // whether the enemy in hand still sits at `index` (the list holds that very object)
      var listed := true;
      var bulletIndex := 0;
      while bulletIndex < |player.bullets|
        invariant listed ==> index < |currentLevel.enemies|
        invariant var r := StrikeFrom(player.bullets, bulletIndex, currentLevel.enemies, index, enemy, listed, Collides);
                  r.bullets == final.bullets && r.enemies == final.enemies && r.enemy == final.enemy
                  && hits + r.hits == final.hits && kills + r.kills == final.kills
        invariant state.score == old(state.score) + KillReward * kills
        decreases |player.bullets| - bulletIndex
      {
        var bullet := player.bullets[bulletIndex];
        if Collides(bullet, enemy) {
          enemy := enemy.(health := enemy.health - Damage);
          if listed {
            currentLevel.enemies := currentLevel.enemies[index := enemy];
          }
          player.bullets := Splice(player.bullets, bulletIndex);
          hits := hits + 1;
          if enemy.health <= 0 {
            currentLevel.enemies := Splice(currentLevel.enemies, index);
            listed := false;
            state.score := state.score + KillReward;
            kills := kills + 1;
          }
        }
        bulletIndex := bulletIndex + 1;
      }
      StrikeWears(bullets0, 0, enemies0, index, target, true, Collides);
      StrikeScores(bullets0, 0, enemies0, index, target, true, Collides);
      StrikeSplicesBullets(bullets0, 0, enemies0, index, target, true, Collides);
      StrikeThinsEnemies(bullets0, 0, enemies0, index, target, true, Collides);
      StrikeHits(bullets0, 0, enemies0, index, target, true, Collides);
      assert (exists b :: b in bullets0 && Collides(b, target))
             <==> exists j :: 0 <= j < |bullets0| && Collides(bullets0[j], target);
    }

    /** The ship test of the collision pass for the enemy in hand, handed out
        at outer index `index`: a contact costs the ship 10 health, splices the
        slot at `index` whichever enemy holds it, and ends the game once the
        ship's health is at or below zero. */
    method ContactEnemy(index: nat, ship: Rect, enemy: Enemy) returns (contact: bool)
      modifies state`gameOver, player`health, currentLevel`enemies
      ensures contact == Overlaps(ship, enemy.Box())
      ensures player.health == old(player.health) - (if contact then Damage else 0)
      ensures currentLevel.enemies == if contact then Splice(old(currentLevel.enemies), index)
                                      else old(currentLevel.enemies)
      ensures state.gameOver == (old(state.gameOver) || (contact && player.health <= 0))
    {
      contact := Overlaps(ship, enemy.Box());
      if contact {
        player.health := player.health - Damage;
        currentLevel.enemies := Splice(currentLevel.enemies, index);
        if player.health <= 0 {
          state.gameOver := true;
        }
      }
    }

    /** One turn of the outer `forEach` of the collision pass: the enemy at
        `index` is struck by the bullets, then the enemy in hand is tested
        against the ship. What is left of the pass from `index` on is this turn
        followed by the rest of the pass from `index + 1`. */
    method VisitEnemy(index: nat, ship: Rect) returns (ghost hits: nat, ghost kills: nat, ghost contacts: nat)
      requires index < |currentLevel.enemies|
      modifies state`score, state`gameOver, player`bullets, player`health, currentLevel`enemies
      ensures var s := StrikeFrom(old(player.bullets), 0, old(currentLevel.enemies), index,
                                  old(currentLevel.enemies)[index], true, Collides);
              player.bullets == s.bullets && hits == s.hits && kills == s.kills
              && (contacts == 1 <==> Overlaps(ship, s.enemy.Box())) && contacts <= 1
              && currentLevel.enemies == (if contacts == 1 then Splice(s.enemies, index) else s.enemies)
      ensures |currentLevel.enemies| <= |old(currentLevel.enemies)|
      ensures player.health == old(player.health) - Damage * contacts
      ensures state.gameOver == (old(state.gameOver) || (contacts == 1 && player.health <= 0))
      ensures state.score == old(state.score) + KillReward * kills
      ensures var p := CollideFrom(old(player.bullets), old(currentLevel.enemies), index, old(player.health),
                                   old(state.gameOver), Collides, ship);
              var q := CollideFrom(player.bullets, currentLevel.enemies, index + 1, player.health, state.gameOver,
                                   Collides, ship);
              p.bullets == q.bullets && p.enemies == q.enemies && p.health == q.health && p.over == q.over
              && p.hits == hits + q.hits && p.kills == kills + q.kills && p.contacts == contacts + q.contacts
    {
      var enemy := currentLevel.enemies[index];
      CollideStep(player.bullets, currentLevel.enemies, index, player.health, state.gameOver, Collides, ship,
                  StrikeFrom(player.bullets, 0, currentLevel.enemies, index, enemy, true, Collides));
      enemy, hits, kills := StrikeEnemy(index, enemy);
      var contact := ContactEnemy(index, ship, enemy);
      contacts := if contact then 1 else 0;
    }

    /** The collision pass: each enemy slot in turn (outer `forEach`) is struck
        by the bullets, then tested against the ship; see `CollideFrom`. `hits`,
        `kills` and `contacts` count bullet hits, scoring events and ship
        contacts. */
    method ResolveCollisions() returns (ghost hits: nat, ghost kills: nat, ghost contacts: nat)
      modifies state`score, state`gameOver, player`bullets, player`health, currentLevel`enemies
      ensures var p := CollideFrom(old(player.bullets), old(currentLevel.enemies), 0, old(player.health),
                                   old(state.gameOver), Collides, player.Box());
              player.bullets == p.bullets && currentLevel.enemies == p.enemies
              && player.health == p.health && state.gameOver == p.over
              && hits == p.hits && kills == p.kills && contacts == p.contacts
      ensures state.score == old(state.score) + KillReward * kills && kills <= hits
      ensures Embeds(player.bullets, old(player.bullets), Same)
      ensures |player.bullets| == |old(player.bullets)| - hits
      ensures Embeds(currentLevel.enemies, old(currentLevel.enemies), Worn)
      ensures player.health == old(player.health) - Damage * contacts
      ensures contacts <= |old(currentLevel.enemies)|
      ensures state.gameOver == (old(state.gameOver) || (contacts > 0 && player.health <= 0))
      ensures |old(currentLevel.enemies)| > 0 && Overlaps(player.Box(), old(currentLevel.enemies)[0].Box()) ==>
                contacts > 0
      ensures |old(currentLevel.enemies)| > 0
              && (exists b :: b in old(player.bullets) && Collides(b, old(currentLevel.enemies)[0])) ==>
                hits > 0
      ensures Untouched(old(player.bullets), old(currentLevel.enemies), player.Box()) ==>
                hits == 0 && contacts == 0 && player.bullets == old(player.bullets)
                && currentLevel.enemies == old(currentLevel.enemies)
    {
      ghost var bullets0, enemies0 := player.bullets, currentLevel.enemies;
      // the ship does not move during the pass
      var ship := player.Box();
      ghost var final := CollideFrom(bullets0, enemies0, 0, player.health, state.gameOver, Collides, ship);
      hits, kills, contacts := 0, 0, 0;
      var index := 0;
      while index < |currentLevel.enemies|
        invariant var p := CollideFrom(player.bullets, currentLevel.enemies, index, player.health, state.gameOver,
                                       Collides, ship);
                  p.bullets == final.bullets && p.enemies == final.enemies
                  && p.health == final.health && p.over == final.over
                  && hits + p.hits == final.hits && kills + p.kills == final.kills
                  && contacts + p.contacts == final.contacts
        invariant state.score == old(state.score) + KillReward * kills
        decreases |currentLevel.enemies| - index
      {
        ghost var struck, scored, touched := VisitEnemy(index, ship);
        hits, kills, contacts := hits + struck, kills + scored, contacts + touched;
        index := index + 1;
      }
      CollideSummary(bullets0, enemies0, old(player.health), old(state.gameOver), ship);
    }

    /** Whether a tick does anything at all. */
    ghost predicate Running()
      reads state
    {
      !state.gameOver && !state.paused
    }

    /** The movement part of a frame: the ship steps, the bullet pass runs, and
        the spawner spawns when due and runs the enemy pass. */
    method Advance(now: int, r: real)
      requires 0.0 <= r < 1.0
      modifies player`x, player`bullets, currentLevel`enemies, currentLevel`lastSpawn
      ensures player.x == Stepped(old(player.x), player.moving, screenWidth)
      ensures player.bullets == Sweep(old(player.bullets), AdvanceBullet, OffTop)
      ensures currentLevel.lastSpawn == if old(currentLevel.Due(now)) then now else old(currentLevel.lastSpawn)
      ensures currentLevel.enemies
              == Sweep(if old(currentLevel.Due(now))
                       then old(currentLevel.enemies) + [Spawned(currentLevel.level, screenWidth, r)]
                       else old(currentLevel.enemies), AdvanceEnemy, OffBottom(screenHeight))
      ensures |player.bullets| <= |old(player.bullets)|
      ensures |currentLevel.enemies| <= |old(currentLevel.enemies)| + 1
    {
      player.Update(screenWidth);
      player.UpdateBullets();
      currentLevel.Update(now, screenWidth, screenHeight, r);
    }

    /** The collision pass of a running frame, summed up for `Tick`: bullets
        and enemies are only removed, the ship only loses health, the score
        rises by whole kill rewards, and the game ends exactly when a contact
        took the health to or below 0. */
    method Play()
      requires !state.gameOver
      modifies player`bullets, player`health, currentLevel`enemies, state`score, state`gameOver
      ensures |player.bullets| <= |old(player.bullets)|
      ensures player.health <= old(player.health)
      ensures old(state.score) <= state.score && (state.score - old(state.score)) % KillReward == 0
      ensures state.gameOver == (player.health < old(player.health) && player.health <= 0)
      ensures |currentLevel.enemies| <= |old(currentLevel.enemies)|
    {
      ghost var enemies0 := currentLevel.enemies;
      ghost var hits, kills, contacts := ResolveCollisions();
      EmbedsShorter(currentLevel.enemies, enemies0, Worn);
      assert state.score - old(state.score) == KillReward * kills;
      RewardsAreWhole(kills);
      assert Damage * contacts == 10 * contacts;
    }

    /** Level advance: once the score reaches `level * 100`, the level rises by
        one and a fresh spawner for it replaces the current one. */
    method LevelUp(now: int)
      requires Valid()
      modifies this`currentLevel, state`level
      ensures Valid()
      ensures state.level == if state.score >= old(state.level) * 100 then old(state.level) + 1
                             else old(state.level)
      ensures state.level != old(state.level) ==>
                fresh(currentLevel) && currentLevel.enemies == [] && currentLevel.lastSpawn == now
      ensures state.level == old(state.level) ==> currentLevel == old(currentLevel)
    {
      if state.score >= state.level * 100 {
        state.level := state.level + 1;
        currentLevel := new Level(state.level, now);
      }
    }

    /** One frame of `gameLoop`, without its drawing. `now` is the clock reading
        and `r` the random draw the spawner may use. `scheduled` tells whether
        the frame requests the next one: a paused or finished game returns
        before doing so. */
    method Tick(now: int, r: real) returns (scheduled: bool)
      requires Valid()
      requires 0.0 <= r < 1.0
      modifies this`currentLevel, state, player, currentLevel
      ensures Valid()
      ensures scheduled == old(Running())
      ensures !old(Running()) ==>
                unchanged(this) && unchanged(state) && unchanged(player) && unchanged(currentLevel)
      ensures old(Running()) ==>
                player.x == Stepped(old(player.x), player.moving, screenWidth)
                && player.y == old(player.y) && player.moving == old(player.moving)
                && player.armor == old(player.armor)
                && |player.bullets| <= |old(player.bullets)|
                && player.health <= old(player.health)
                && old(state.score) <= state.score
                && (state.score - old(state.score)) % KillReward == 0
                && state.paused == old(state.paused)
                && state.playerHealth == old(state.playerHealth)
                && state.playerArmor == old(state.playerArmor)
                && state.gameOver == (player.health < old(player.health) && player.health <= 0)
      ensures old(Running()) ==>
                state.level == if state.score >= old(state.level) * 100 then old(state.level) + 1
                               else old(state.level)
      ensures old(Running()) && state.level != old(state.level) ==>
                fresh(currentLevel) && currentLevel.enemies == [] && currentLevel.lastSpawn == now
      ensures old(Running()) && state.level == old(state.level) ==>
                currentLevel == old(currentLevel) && |currentLevel.enemies| <= |old(currentLevel.enemies)| + 1
    {
      if state.gameOver || state.paused {
        return false;
      }
      Advance(now, r);
      Play();
      LevelUp(now);
      return true;
    }
  }
}
