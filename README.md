# Arcade shooter game state, modelled in Dafny

This project models the game-state logic of a small single-file browser arcade
shooter (`game.js`). The player's ship moves left and right along the bottom of
the screen and fires bullets upward. Enemies spawn above the screen and fall.
Each frame, `gameLoop` does the following in order:
- moves the ship;
- advances the bullets and drops those above the screen;
- lets the current `Level` spawn an enemy and advances the enemies;
- runs a nested collision pass (bullet against enemy, ship against enemy) that changes health, score and the game-over flag;
- replaces the `Level` with a fresh one when the score reaches `level * 100`.

The Escape key toggles pause. A frame that finds the game paused or over returns before asking for the next frame.

The model follows the source's own form:

- `Ship.Player`, `Waves.Level`, `Arcade.GameState` and `Arcade.Game` are classes. Their methods update fields in place under `modifies` frames. `Arcade.Game` holds the three module-level objects `gameState`, `player` and `currentLevel`.
- Bullets and enemies are datatype values in `seq` fields. `bullet.update()`, `enemy.update()` and `enemy.health -= 10` replace the element in its slot.
- Every list walk is an index loop that removes with `splice(i, 1)` and then still advances the index, exactly as `forEach` does. After a removal, the element that slides into the freed slot is skipped on that pass. `Sweeping.ForEachSplice` is the walk, and it is proved equal to the structural function `Sweeping.Sweep`. `Sweeping.Embeds(r, s, rel)` says that `r` is `s` with deletions only, each kept element related to its original by `rel`.
- In the collision pass, the callback keeps using the enemy it was handed after that enemy has been spliced out. The model holds that enemy in a local variable plus a flag saying whether the object is still in the list at the outer index. While it is, every health change is written back to that slot, which reproduces the sharing of the one object. Once it is gone, a further hit again splices the slot at the outer index, which now holds a different enemy (or nothing, when the killed enemy was the last one), and scores another 10. A ship contact also splices that slot.
- `Arcade.StrikeFrom` states that inner walk as a function, and `Arcade.Game.StrikeEnemy` is proved to end exactly where it does. The walk takes the bullet/enemy test as a parameter; the game passes `Arcade.Collides`, the box overlap. The lemmas about the walk therefore hold for any test.
- `Arcade.CollideFrom` states the whole outer pass (inner walk, then the ship contact) as a function, and `Arcade.Game.ResolveCollisions` is proved to end exactly where it does: same bullets, enemies, health, game-over flag and counts of hits, scoring events and contacts.

The model keeps these behaviours of the code, which a reader might expect to be otherwise:
- Ship movement has edge guards, not clamps. The ship stays in the open band (-5, W - 45), not in [0, W - 50] (`Ship.DriftStaysInBand`, `Ship.SteppedPassesLeftEdge`).
- Removal during iteration skips the next element (`Ship.SweepSkipsSecondBullet`).
- A contact with an enemy already killed still costs the ship 10 health and splices whatever sits at the outer index, possibly nothing (`Arcade.ContactAfterKill`).
- An enemy already killed keeps absorbing bullets, and each such hit removes whichever enemy sits at its old index and scores again (`Arcade.StrikeSplicesBystander`).
- The spawn interval has no floor (`Entities.SpawnRateHasNoFloor`).
- `move` stores any string without validating it.

Positions and enemy speeds are exact rationals (`real`). Health, score, level and timestamps are unbounded integers. The screen size is `Game.screenWidth` / `Game.screenHeight`. The clock reading (`Date.now()`) is the `now` parameter of `Tick`, and the random draw (`Math.random()`) is the `r` parameter, with `0 <= r < 1`.

## Model

| member | source | states |
|---|---|---|
| `Sweeping.Sweep` | game.js:64-70 | the list a `forEach` with in-loop `splice` leaves is never longer than the input |
| `Sweeping.ForEachSplice` | game.js:65-70 | the index loop (update the element in place, splice it out if gone, advance the index) ends with exactly `Sweep` of its input, skipped elements included |
| `Sweeping.ResumeStep` | game.js:65-69 | one iteration of that loop, removal or not, leaves unchanged the list the walk ends with |
| `Sweeping.SweepEmbeds` | game.js:64-70 | a sweep only removes: the result is an in-order selection of the input, each kept element either skipped and unchanged or updated and not gone |
| `Sweeping.SweepThins` | game.js:64-70 | a sweep removes only elements that their own update made gone; every other element stays, in order, updated or skipped |
| `Sweeping.SweepKeepsAll` | game.js:66-68 | the special case where no update would make an element gone: nothing is removed and every element is updated in place |
| `Sweeping.EmbedsSplice` | game.js:68 | `splice(i, 1)` only deletes: exactly one element when `i` is inside the list, and nothing, leaving the list as it was, when `i` is past the end |
| `Entities.AdvanceBullet` | game.js:93-95 | `Bullet.update` keeps `x` and lowers `y` by exactly 10 |
| `Entities.AdvanceEnemy` | game.js:114-116 | `Enemy.update` keeps `x`, speed and health and raises `y` by exactly the enemy's speed |
| `Entities.OverlapsStrict` | game.js:181-184 | the AABB test is strict: rectangles sharing only an edge do not collide, in either order |
| `Entities.OverlapsSymmetric` | game.js:181-184 | the AABB test gives the same answer with the two rectangles swapped |
| `Entities.Spawned` | game.js:128-133 | a spawned enemy starts at `y = -40` with speed `1 + 0.5 * level` and health `10 + 5 * level` |
| `Entities.SpawnedOnScreen` | game.js:129 | `x = r * (W - 40)` with `0 <= r < 1` puts the enemy at `0 <= x < W - 40` |
| `Entities.LevelsHarden` | game.js:121-134 | a higher level has a strictly shorter spawn interval `1000 - (level - 1) * 100` and strictly faster, tougher enemies |
| `Entities.SpawnRateHasNoFloor` | game.js:124 | from level 11 on the spawn interval is zero or negative |
| `Ship.SteppedMoves` | game.js:51-58 | one tick moves `x` by exactly -5 iff the intent is "left" and `x > 0`, by exactly +5 iff it is "right" and `x < W - 50`, and leaves it unchanged otherwise |
| `Ship.DriftStaysInBand` | game.js:51-58 | from inside (-5, W - 45), any number of ticks with any intents stays inside it |
| `Ship.SteppedPassesLeftEdge` | game.js:52-54 | the guard is not a clamp: at `x = 2` a left step gives `-3` |
| `Ship.SweepSkipsSecondBullet` | game.js:65-69 | of two different bullets that both leave the top on one tick, the first is removed and the second is skipped: it stays where it was |
| `Ship.BulletSweepDropsOnlyLeaving` | game.js:64-70 | `updateBullets` removes only bullets with `y < 10`, whose update takes them above the top; every other bullet stays, in order, moved up by 10 or skipped |
| `Ship.BulletSweepKeepsOnScreen` | game.js:66-68 | when every bullet has `y >= 10`, `updateBullets` removes none and moves each up by exactly 10 |
| `Ship.Player.constructor` | game.js:30-40 | the ship starts at `(W / 2, H - 100)` with no bullets, health and armor 100 and intent "stop" |
| `Ship.Player.Move` | game.js:47-49 | stores the given intent unvalidated; nothing else changes |
| `Ship.Player.Update` | game.js:51-58 | `x` becomes `Stepped(x, moving, W)`; `y`, bullets, health, armor and intent are untouched |
| `Ship.Player.Shoot` | game.js:60-62 | appends exactly one bullet at `(x + 25, y)`; earlier bullets keep their values and order |
| `Ship.Player.UpdateBullets` | game.js:64-70 | bullets become the sweep of the old list with `Bullet.update` and "above the top"; the result embeds in the old list |
| `Waves.Level.constructor` | game.js:121-126 | a new level has no enemies, spawn interval `1000 - (level - 1) * 100` and last spawn `now` |
| `Waves.Level.SpawnEnemy` | game.js:128-134 | appends exactly one `Spawned` enemy for this level and leaves the others as they were |
| `Waves.Level.Update` | game.js:136-147 | spawns exactly one enemy and sets the last spawn to `now` iff `now - lastSpawn > spawnRate`, otherwise leaves the last spawn unchanged; then the enemies become the sweep with `Enemy.update` and "below the screen"; the list grows by at most one |
| `Waves.EnemySweepOnlyRemoves` | game.js:142-147 | the advance pass never adds an enemy: survivors are an in-order selection, each skipped or moved down and not below the screen |
| `Waves.EnemySweepDropsOnlySinking` | game.js:142-147 | the advance pass removes only enemies with `y + speed > H`, whose update takes them below the screen; every other enemy stays, in order, moved down or skipped |
| `Waves.EnemySweepKeepsOnScreen` | game.js:143-145 | when no enemy's update would take it below the screen, all stay and each moves down by exactly its speed, keeping its `x`, speed and health |
| `Arcade.GameState.constructor` | game.js:19-26 | the game starts with score 0, level 1, not over, not paused |
| `Arcade.KillCount` | game.js:185-190 | there is at most one scoring event per hit |
| `Arcade.KillCountShift` | game.js:185-190 | the first hit scores iff it leaves health at or below 0, and the later hits count from the lowered health |
| `Arcade.KillCountClosed` | game.js:185-190 | with starting health `h > 0`, hits before hit number `ceil(h / 10)` score nothing, and that hit and every later one score once each; with `h <= 0` every hit scores |
| `Arcade.StrikeFrom` | game.js:180-192 | the inner walk never has more scoring events than hits, nor more hits than bullets |
| `Arcade.StrikeWears` | game.js:185-187 | the enemy in hand keeps its position and speed and loses exactly 10 health per hit; a scoring event happens only once its health is at or below 0 |
| `Arcade.StrikeScores` | game.js:185-190 | the scoring events are exactly `KillCount(health, hits)` |
| `Arcade.StrikeSplicesBullets` | game.js:186 | bullets are only deleted, exactly one per hit; the rest keep their order |
| `Arcade.StrikeThinsEnemies` | game.js:185-188 | enemies are only deleted or worn down; without a scoring event only the slot at the outer index changes, and it holds the worn enemy in hand; a scoring event while that enemy is listed shortens the list |
| `Arcade.StrikeHits` | game.js:180-186 | there is at least one hit iff some bullet from the start index on overlaps the enemy in hand; without a hit nothing changes |
| `Arcade.StrikeOneHitKills` | game.js:180-190 | one bullet on an enemy with 10 health removes both and scores once |
| `Arcade.StrikeSplicesBystander` | game.js:179-190 | after its kill, the enemy in hand is hit again by a later bullet, which splices the other enemy now at its index and scores a second time |
| `Arcade.CollideFrom` | game.js:179-204 | the outer pass never has more scoring events than hits, and never leaves more enemies than it started with |
| `Arcade.CollideCounts` | game.js:194-202 | health drops by exactly 10 per contact, there is at most one contact per remaining slot, and the pass ends over exactly when it started over or some contact left health at or below 0 |
| `Arcade.CollideSplicesBullets` | game.js:179-192 | the outer pass only deletes bullets, exactly one per hit, keeping the others in order |
| `Arcade.CollideThinsEnemies` | game.js:179-204 | the outer pass only deletes enemies or wears them down, keeping the others in order |
| `Arcade.CollideVisitsSlot` | game.js:180-197 | a bullet overlapping the enemy at the visited slot guarantees a hit, and a ship overlapping it guarantees a contact |
| `Arcade.CollideCalm` | game.js:179-204 | when no bullet and not the ship overlap any enemy from the start index on, the pass changes nothing and counts nothing |
| `Arcade.CollideSummary` | game.js:179-204 | the pass from the first enemy: the selection, count and health facts above, at most `|enemies|` contacts, the first-slot lower bounds, and no change without overlaps |
| `Arcade.ContactEndsGame` | game.js:194-202 | one enemy on the ship at 10 health removes the enemy, leaves health 0 and ends the game |
| `Arcade.ContactAfterKill` | game.js:180-199 | a bullet kills the only enemy and the ship then touches that same enemy: the ship still loses 10 health, although no enemy is left to splice |
| `Arcade.Game.constructor` | game.js:155-157 | the game keeps the given screen size; it starts with score 0, level 1, not over, not paused, `playerHealth` and `playerArmor` 100; the ship starts at `(W / 2, H - 100)` with no bullets, health and armor 100 and intent "stop"; the first spawner belongs to level 1, starts empty and last spawned `now` |
| `Arcade.Game.TogglePause` | game.js:228 | Escape flips `paused`, so two toggles restore it; nothing else changes, and no frame is started |
| `Arcade.Game.StrikeEnemy` | game.js:180-192 | ends exactly where `StrikeFrom` ends from the old lists; the score rises by exactly 10 per scoring event; so there is at least one hit iff some bullet overlapped the enemy, the scoring events number `KillCount(health, hits)`, and without a scoring event the enemy list changes only in the slot at `index` |
| `Arcade.Game.ContactEnemy` | game.js:194-202 | there is a contact iff the ship's box overlaps the enemy in hand; a contact costs exactly 10 health and splices the slot at the outer index, and `gameOver` becomes set exactly when a contact left health at or below 0; without a contact nothing changes |
| `Arcade.Game.VisitEnemy` | game.js:179-203 | one turn of the outer `forEach`: ends exactly where `StrikeFrom` and then the contact test end, scores 10 per scoring event, counts at most one contact, and leaves the rest of the pass (`CollideFrom` from the next index) with the same outcome as the pass from this index |
| `Arcade.Game.ResolveCollisions` | game.js:179-204 | ends exactly where `CollideFrom` ends from the old state; so bullets are only removed (one per hit) and enemies only removed or worn down; score rises by 10 per scoring event, at most one per hit; ship health drops by exactly 10 per contact, at most `|old(enemies)|` contacts; `gameOver` becomes set exactly when a contact left health at or below 0; a bullet overlapping the first enemy gives at least one hit and a ship overlapping it at least one contact; with no overlaps nothing changes |
| `Arcade.Game.Advance` | game.js:166-175 | the movement part of a frame: the ship makes one step, bullets become the sweep of `Bullet.update` and "above the top", and the enemies become the sweep of `Enemy.update` and "below the screen" over the old list plus one `Spawned` enemy exactly when the spawn is due |
| `Arcade.Game.Play` | game.js:179-204 | the collision pass of a running frame: bullets and enemies never grow, health never rises, score never drops and rises in tens, and `gameOver` is set exactly when health fell and is at or below 0 |
| `Arcade.Game.LevelUp` | game.js:215-218 | `level` rises by exactly 1 iff `score >= level * 100`; then a fresh empty `Level` for the new level replaces the old one, otherwise the same `Level` stays |
| `Arcade.Game.Tick` | game.js:160-221 | a frame asks for the next one exactly when the game is neither paused nor over; if it is, nothing changes. Otherwise (through `Advance`, `Play` and `LevelUp`) the ship makes one step, bullets never grow, score never drops and rises in tens, health never rises, `gameOver` only when health fell to or below 0, and `level` rises by exactly 1 iff `score >= level * 100`. That level-up installs a fresh empty `Level` for the new level; without it the same `Level` gains at most one enemy |

## Left out

- Drawing: the canvas context, every `draw`/`drawBullets` method, screen clearing and the score/level/health/armor text. These are rendering only.
- DOM and event wiring: keyboard and touch listeners and canvas sizing. Only their effects are kept: `Player.Move`, `Player.Shoot` and `Game.TogglePause`.
- `requestAnimationFrame` scheduling: one frame is one call of `Game.Tick`, and its result says whether that frame asks for the next one. The frame driver itself is not modelled. In the source, a paused frame returns at game.js:161 before the request at game.js:220, and the Escape handler at game.js:228 only flips the flag. So the first paused frame ends the loop for good, and a second Escape does not resume play. The model lets `Tick` be called again after two toggles, which the source never does.
- `Date.now()` and `Math.random()` are foreign and non-deterministic, so they are parameters. `Level.update` reads the clock twice; the model uses one reading for both. The `Level` built on level-up uses that same reading.
- `window.innerWidth` / `innerHeight` are the constant fields `screenWidth` / `screenHeight`.
- Floating point: positions and speeds are exact rationals, so rounding of JavaScript numbers is not modelled.
- Armor and `gameState.playerHealth` / `playerArmor` are carried but no rule uses them. `Tick` states only that they stay unchanged.
- Object identity of bullets and enemies: they are values, so aliasing is reproduced only where the source relies on it (the enemy in hand during the collision pass).
- `Arcade.Game.Play`: its contract sums up the collision pass (for example "bullets never grow") instead of repeating the exact `CollideFrom` equation, which `ResolveCollisions` states.
- `Arcade.Game.Tick`: its contract sums up `Advance`, `Play` and `LevelUp` instead of composing their exact `Sweep` and `CollideFrom` equations.
