/** The fixed-capacity pools: player missiles (`fire_missiles`), invader
    bombs (`fire_bombs`), and the ring of explosion strips that a kill
    spawns and `anim_explosion` advances. */
module Pools {
  import opened Sprites
  import opened Session

  const MissileCooldown := 4
  const BombCooldown := 30
  const BombMargin: real := 0.3
  const ShotScore := 1

  /** Index of the first disabled slot, or the pool size when every slot is busy. */
  function FirstFree(pool: seq<Sprite>): (k: nat)
    ensures k <= |pool|
    ensures forall i :: 0 <= i < k ==> pool[i].enabled
    ensures k < |pool| ==> !pool[k].enabled
  {
    if |pool| == 0 || !pool[0].enabled then 0 else 1 + FirstFree(pool[1..])
  }

  /** `fire_missiles`: only while space is held. A running cooldown just counts
      down. Otherwise the first free missile is placed 0.5 above the ship and
      enabled, the cooldown restarts, the score gains a point and a cue is
      requested; with no free missile nothing happens. */
  function FireMissiles(s: Session, space: bool): (r: Session)
    ensures Invariant(s) ==> Invariant(r)
    ensures r.stage == s.stage && r.invaders == s.invaders
    ensures !space ==> r == s
    ensures space && s.missileCooldown != 0 ==> r == s.(missileCooldown := s.missileCooldown - 1)
    ensures space && s.missileCooldown == 0 && FirstFree(s.missiles) == |s.missiles| ==> r == s
    ensures space && s.missileCooldown == 0 && FirstFree(s.missiles) < |s.missiles| ==>
      var k := FirstFree(s.missiles);
      && |r.missiles| == |s.missiles|
      && r.missiles[k].enabled && r.missiles[k].x == s.ship.x && r.missiles[k].y == s.ship.y + 0.5
      && (forall i :: 0 <= i < |s.missiles| && i != k ==> r.missiles[i] == s.missiles[i])
      && r.missileCooldown == MissileCooldown && r.score == s.score + ShotScore && r.cues == s.cues + [Whoosh]
      && r == s.(missiles := r.missiles, missileCooldown := MissileCooldown, score := r.score, cues := r.cues)
  {
    if !space then s
    else if s.missileCooldown != 0 then s.(missileCooldown := s.missileCooldown - 1)
    else
      var k := FirstFree(s.missiles);
      if k == |s.missiles| then s
      else
        var m := SetRelative(s.missiles[k], s.ship, 0.0, 0.5).(enabled := true);
        s.(missiles := s.missiles[k := m], missileCooldown := MissileCooldown,
           score := s.score + ShotScore, cues := s.cues + [Whoosh])
  }

  /** A shot occupies exactly one more slot; otherwise the occupancy is
      unchanged. Either way the pool never holds more than its capacity. */
  lemma FireMissilesOccupancy(s: Session, space: bool)
    ensures var r := FireMissiles(s, space);
      && |r.missiles| == |s.missiles|
      && EnabledCount(r.missiles) == EnabledCount(s.missiles) + (if r.score != s.score then 1 else 0)
      && EnabledCount(r.missiles) <= |r.missiles|
  {
    var r := FireMissiles(s, space);
    if space && s.missileCooldown == 0 && FirstFree(s.missiles) < |s.missiles| {
      var k := FirstFree(s.missiles);
      assert r.missiles == s.missiles[k := r.missiles[k]];
      EnabledCountUpdate(s.missiles, k, r.missiles[k]);
    }
  }

  /** `is_above` with the bomb margin: the invader is roughly over the ship. */
  predicate Bomber(inv: Sprite, ship: Sprite)
  {
    inv.enabled && IsAbove(inv, ship, BombMargin)
  }

  /** The first invader at or after `j` that may drop a bomb; the scan runs to
      the end of the list and does not wrap around. A result at or past the
      end of the list means none was found. */
  function FirstBomber(inv: seq<Sprite>, ship: Sprite, j: nat): (r: nat)
    ensures j <= r
    ensures r < |inv| ==> Bomber(inv[r], ship)
    ensures forall k :: j <= k < r && k < |inv| ==> !Bomber(inv[k], ship)
    ensures r >= |inv| ==> forall k :: j <= k < |inv| ==> !Bomber(inv[k], ship)
    decreases |inv| - j
  {
    if j >= |inv| then j
    else if Bomber(inv[j], ship) then j
    else FirstBomber(inv, ship, j + 1)
  }

  /** `fire_bombs`: a running cooldown just counts down. Otherwise, scanning
      from the random index `start`, the first invader above the ship drops a
      bomb 0.25 below itself into the first free bomb slot, the cooldown
      restarts and a cue is requested. The first candidate ends the scan even
      when no bomb slot is free. */
  function FireBombs(s: Session, start: nat): (r: Session)
    ensures Invariant(s) ==> Invariant(r)
    ensures r.stage == s.stage && r.invaders == s.invaders
    ensures s.bombCooldown != 0 ==> r == s.(bombCooldown := s.bombCooldown - 1)
    ensures s.bombCooldown == 0 && (FirstBomber(s.invaders, s.ship, start) >= |s.invaders| || FirstFree(s.bombs) == |s.bombs|) ==> r == s
    ensures s.bombCooldown == 0 && FirstBomber(s.invaders, s.ship, start) < |s.invaders| && FirstFree(s.bombs) < |s.bombs| ==>
      var j := FirstBomber(s.invaders, s.ship, start);
      var k := FirstFree(s.bombs);
      && |r.bombs| == |s.bombs|
      && r.bombs[k].enabled && r.bombs[k].x == s.invaders[j].x && r.bombs[k].y == s.invaders[j].y - 0.25
      && (forall i :: 0 <= i < |s.bombs| && i != k ==> r.bombs[i] == s.bombs[i])
      && r == s.(bombs := r.bombs, bombCooldown := BombCooldown, cues := s.cues + [Biing])
  {
    if s.bombCooldown != 0 then s.(bombCooldown := s.bombCooldown - 1)
    else
      var j := FirstBomber(s.invaders, s.ship, start);
      if j >= |s.invaders| then s
      else
        var k := FirstFree(s.bombs);
        if k == |s.bombs| then s
        else
          var b := SetRelative(s.bombs[k], s.invaders[j], 0.0, -0.25).(enabled := true);
          s.(bombs := s.bombs[k := b], bombCooldown := BombCooldown, cues := s.cues + [Biing])
  }

  /** No wrap-around: when every invader above the ship lies before the random
      start index, no bomb is dropped this frame. */
  lemma FireBombsNoWrapAround(s: Session, start: nat)
    requires s.bombCooldown == 0
    requires forall k :: start <= k < |s.invaders| ==> !Bomber(s.invaders[k], s.ship)
    ensures FireBombs(s, start) == s
  {
  }

  // ---------------------------------------------------------------------
  // Explosions: strip c occupies slots c * 8 .. c * 8 + 7.
  // ---------------------------------------------------------------------

  predicate InStrip(k: int, c: int)
  {
    c * FramesPerExplosion <= k < c * FramesPerExplosion + FramesPerExplosion
  }

  /** The ring index actually used: it wraps to 0 once it reaches 8. */
  function StripToUse(current: int): int
  {
    if current >= NumExplosions then 0 else current
  }

  /** The explosion spawned by a kill (inside `move_missiles`): every frame of
      every strip is disabled, then the eight frames of the current strip are
      placed on the killed invader and enabled, and the ring index advances. */
  function SpawnExplosion(s: Session): (r: Session)
    ensures Invariant(s) ==> Invariant(r)
    ensures |r.explosions| == |s.explosions|
    ensures forall k :: 0 <= k < |r.explosions| ==>
      (r.explosions[k].enabled <==> InStrip(k, StripToUse(s.currentExplosion)))
    ensures forall k :: 0 <= k < |r.explosions| && InStrip(k, StripToUse(s.currentExplosion)) ==>
      r.explosions[k].x == s.killed.x && r.explosions[k].y == s.killed.y
    ensures forall k :: 0 <= k < |r.explosions| && !InStrip(k, StripToUse(s.currentExplosion)) ==>
      r.explosions[k] == s.explosions[k].(enabled := false)
    ensures r.currentExplosion == StripToUse(s.currentExplosion) + 1
    ensures 0 <= s.currentExplosion ==> 1 <= r.currentExplosion <= NumExplosions
    ensures r == s.(explosions := r.explosions, currentExplosion := r.currentExplosion)
  {
    var c := StripToUse(s.currentExplosion);
    var ex := seq(|s.explosions|, k requires 0 <= k < |s.explosions| =>
      if InStrip(k, c) then SetRelative(s.explosions[k], s.killed, 0.0, 0.0).(enabled := true)
      else s.explosions[k].(enabled := false));
    s.(explosions := ex, currentExplosion := c + 1)
  }

  /** How many of the first n slots belong to strip c. */
  lemma {:induction false} StripCount(ex: seq<Sprite>, c: int)
    requires 0 <= c < NumExplosions && |ex| <= ExplosionSlots
    requires forall k :: 0 <= k < |ex| ==> (ex[k].enabled <==> InStrip(k, c))
    ensures EnabledCount(ex) == if |ex| <= c * FramesPerExplosion then 0
                               else if |ex| >= c * FramesPerExplosion + FramesPerExplosion then FramesPerExplosion
                               else |ex| - c * FramesPerExplosion
    decreases |ex|
  {
    if |ex| > 0 {
      StripCount(ex[..|ex| - 1], c);
    }
  }

  /** After a kill exactly one strip, eight frames, is showing, wherever the
      previous explosions were. */
  lemma SpawnShowsOneStrip(s: Session)
    requires |s.explosions| == ExplosionSlots && 0 <= s.currentExplosion
    ensures EnabledCount(SpawnExplosion(s).explosions) == FramesPerExplosion
  {
    var r := SpawnExplosion(s);
    StripCount(r.explosions, StripToUse(s.currentExplosion));
  }

  /** `anim_explosion`: after the start delay has run out, every frame the
      current frame column of all eight strips is moved 20 to the right (off
      screen) and the column index advances, wrapping to 0 once it reaches 8.
      No frame is enabled or disabled. */
  function AnimExplosion(s: Session): (r: Session)
    ensures Invariant(s) ==> Invariant(r)
    ensures r.stage == s.stage && r.invaders == s.invaders && r.score == s.score
    ensures s.explosionDelay != 0 ==> r == s.(explosionDelay := s.explosionDelay - 1)
    ensures s.explosionDelay == 0 ==>
      var c := StripToUse(s.animFrame);
      && r.animFrame == c + 1 && r.explosionDelay == 0
      && |r.explosions| == |s.explosions|
      && (forall k :: 0 <= k < |s.explosions| ==> r.explosions[k].enabled == s.explosions[k].enabled)
      && (forall k :: 0 <= k < |s.explosions| && k < ExplosionSlots && k % FramesPerExplosion == c ==>
            r.explosions[k] == Translate(s.explosions[k], ParkOffset, 0.0))
      && (forall k :: 0 <= k < |s.explosions| && !(k < ExplosionSlots && k % FramesPerExplosion == c) ==>
            r.explosions[k] == s.explosions[k])
      && r == s.(explosions := r.explosions, animFrame := c + 1)
  {
    if s.explosionDelay != 0 then s.(explosionDelay := s.explosionDelay - 1)
    else
      var c := StripToUse(s.animFrame);
      var ex := seq(|s.explosions|, k requires 0 <= k < |s.explosions| =>
        if k < ExplosionSlots && k % FramesPerExplosion == c then Translate(s.explosions[k], ParkOffset, 0.0)
        else s.explosions[k]);
      s.(explosions := ex, animFrame := c + 1, explosionDelay := 0)
  }
}
