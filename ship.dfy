/** The player's ship: its position, movement intent, health, armor and the
    bullets it has fired. */
module Ship {
  import opened Entities
  import opened Sweeping

  /** Where `Player.update` leaves `x` for a movement intent: one step left while
      `x > 0`, one step right while `x < screenWidth - 50`, otherwise no move. The
      edges are guards, not clamps. */
  function Stepped(x: real, moving: string, screenWidth: real): real
  {
    if moving == "left" && x > 0.0 then x - PlayerSpeed
    else if moving == "right" && x < screenWidth - PlayerWidth then x + PlayerSpeed
    else x
  }

  /** `x` after one tick per intent in `intents`, whatever commands set them. */
  function Drift(x: real, intents: seq<string>, screenWidth: real): real
    decreases |intents|
  {
    if intents == [] then x
    else Drift(Stepped(x, intents[0], screenWidth), intents[1..], screenWidth)
  }

  /** One tick moves by exactly one step in the intended direction or not at all,
      and only an in-bounds guard allows a move. */
  lemma SteppedMoves(x: real, moving: string, screenWidth: real)
    ensures Stepped(x, moving, screenWidth) == x - PlayerSpeed <==> moving == "left" && x > 0.0
    ensures Stepped(x, moving, screenWidth) == x + PlayerSpeed
            <==> moving == "right" && x < screenWidth - PlayerWidth
    ensures Stepped(x, moving, screenWidth) == x
            <==> !(moving == "left" && x > 0.0) && !(moving == "right" && x < screenWidth - PlayerWidth)
  {
  }

  /** The guards keep `x` in the open band (-5, screenWidth - 45) for any number
      of ticks and any intents, starting from inside it. */
  lemma {:induction false} DriftStaysInBand(x: real, intents: seq<string>, screenWidth: real)
    requires -PlayerSpeed < x < screenWidth - PlayerWidth + PlayerSpeed
    ensures -PlayerSpeed < Drift(x, intents, screenWidth) < screenWidth - PlayerWidth + PlayerSpeed
    decreases |intents|
  {
    if intents != [] {
      DriftStaysInBand(Stepped(x, intents[0], screenWidth), intents[1..], screenWidth);
    }
  }

  /** The band is not [0, screenWidth - 50]: a ship just right of the left edge
      steps past it. */
  lemma SteppedPassesLeftEdge(screenWidth: real)
    ensures Stepped(2.0, "left", screenWidth) == -3.0
  {
  }

  /** After a removal the next bullet is skipped: of two bullets that both leave
      the top on this tick, the first is removed and the second stays, neither
      moved nor removed. */
  lemma SweepSkipsSecondBullet()
    ensures Sweep([Bullet(0.0, 5.0), Bullet(1.0, 5.0)], AdvanceBullet, OffTop) == [Bullet(1.0, 5.0)]
  {
    assert OffTop(AdvanceBullet(Bullet(0.0, 5.0)));
  }

  /** Whether a bullet's next update takes it above the top edge. */
  predicate LeavingTop(b: Bullet)
  {
    b.y < BulletSpeed
  }

  /** `updateBullets` deletes only bullets whose own update took them above the
      top; every other bullet stays in order, moved up by 10 or skipped. */
  lemma BulletSweepDropsOnlyLeaving(bullets: seq<Bullet>)
    ensures Thins(Sweep(bullets, AdvanceBullet, OffTop), bullets, Kept(AdvanceBullet, OffTop), LeavingTop)
  {
    SweepThins(bullets, AdvanceBullet, OffTop, LeavingTop);
  }

  /** A bullet is removed only when its own update took it above the screen: if
      no update would, every bullet moves up by 10 and stays. */
  lemma BulletSweepKeepsOnScreen(bullets: seq<Bullet>)
    requires forall i :: 0 <= i < |bullets| ==> bullets[i].y >= 10.0
    ensures |Sweep(bullets, AdvanceBullet, OffTop)| == |bullets|
    ensures forall i :: 0 <= i < |bullets| ==>
              Sweep(bullets, AdvanceBullet, OffTop)[i] == bullets[i].(y := bullets[i].y - 10.0)
  {
    SweepKeepsAll(bullets, AdvanceBullet, OffTop);
  }

  class Player {
    var x: real
    var y: real
    var bullets: seq<Bullet>
    var health: int
    var armor: int
    var moving: string

    constructor (screenWidth: real, screenHeight: real)
      ensures x == screenWidth / 2.0 && y == screenHeight - 100.0
      ensures bullets == [] && health == 100 && armor == 100 && moving == "stop"
    {
      x := screenWidth / 2.0;
      y := screenHeight - 100.0;
      bullets := [];
      health := 100;
      armor := 100;
      moving := "stop";
    }

    function Box(): Rect
      reads this
    {
      Rect(x, y, PlayerWidth, PlayerHeight)
    }

    /** Stores any intent; there is no validation. */
    method Move(direction: string)
      modifies this`moving
      ensures moving == direction
    {
      moving := direction;
    }

    method Update(screenWidth: real)
      modifies this`x
      ensures x == Stepped(old(x), moving, screenWidth)
    {
      if moving == "left" && x > 0.0 {
        x := x - PlayerSpeed;
      }
      if moving == "right" && x < screenWidth - PlayerWidth {
        x := x + PlayerSpeed;
      }
    }

    /** Fires from the middle of the ship's top edge; no cooldown. */
    method Shoot()
      modifies this`bullets
      ensures bullets == old(bullets) + [Bullet(x + PlayerWidth / 2.0, y)]
    {
      bullets := bullets + [Bullet(x + PlayerWidth / 2.0, y)];
    }

    /** Moves every visited bullet up and splices out those above the top edge,
        skipping the bullet after each removal. */
    method UpdateBullets()
      modifies this`bullets
      ensures bullets == Sweep(old(bullets), AdvanceBullet, OffTop)
      ensures Embeds(bullets, old(bullets), Kept(AdvanceBullet, OffTop))
    {
      SweepEmbeds(bullets, AdvanceBullet, OffTop);
      bullets := ForEachSplice(bullets, AdvanceBullet, OffTop);
    }
  }
}
