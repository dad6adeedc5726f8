/** Combat resolution: the two hit handlers, the ship's movement and
    post-hit drift, and the per-frame flight of missiles and bombs. */
module Combat {
  import opened Sprites
  import opened Session
  import opened Pools

  const KillScore := 20
  const AutoMoveFrames := 32
  const DriftSpeed: real := 0.05
  const ShipSpeed: real := 0.07
  const MissileSpeed: real := 0.3
  const BombSpeed: real := 0.2
  const BombHitCooldown := 50

  /** `on_hit_invaderer`: one fewer live invader and 20 points. When none is
      left, play stops: the game is complete on the last stage or later,
      otherwise the stage is cleared. */
  function OnHitInvader(s: Session): (r: Session)
    ensures r.liveInvaders == s.liveInvaders - 1 && r.score == s.score + KillScore
    ensures r.play == (s.play && r.liveInvaders != 0)
    ensures r.complete == (s.complete || (r.liveInvaders == 0 && s.stage >= MaxLevel))
    ensures r.clear == (s.clear || (r.liveInvaders == 0 && s.stage < MaxLevel))
    ensures r.cues == s.cues + [Bang] + (if r.liveInvaders != 0 then [] else if s.stage >= MaxLevel then [End] else [Clapping])
    ensures r == s.(liveInvaders := r.liveInvaders, score := r.score, play := r.play,
                    complete := r.complete, clear := r.clear, cues := r.cues)
  {
    var t := s.(liveInvaders := s.liveInvaders - 1, score := s.score + KillScore, cues := s.cues + [Bang]);
    if t.liveInvaders == 0 then
      if t.stage >= MaxLevel then t.(play := false, complete := true, cues := t.cues + [End])
      else t.(play := false, clear := true, cues := t.cues + [Clapping])
    else t
  }

  /** `on_hit_ship`: the ship is put on the bottom border's anchor, a life is
      lost (game over when none is left) and the drift window restarts. */
  function OnHitShip(s: Session): (r: Session)
    ensures r.ship.x == BottomBorder.x && r.ship.y == BottomBorder.y
    ensures r.ship == s.ship.(x := BottomBorder.x, y := BottomBorder.y)
    ensures r.lives == s.lives - 1 && r.autoMove == AutoMoveFrames
    ensures r.over == (s.over || r.lives == 0) && r.play == (s.play && r.lives != 0)
    ensures r.cues == s.cues + [Pon] + (if r.lives == 0 then [End] else [])
    ensures Invariant(s) ==> Invariant(r)
    ensures r.invaders == s.invaders && r.missiles == s.missiles && r.bombs == s.bombs
    ensures r.score == s.score && r.stage == s.stage && r.liveInvaders == s.liveInvaders
  {
    var t := s.(ship := SetRelative(s.ship, BottomBorder, 0.0, 0.0), lives := s.lives - 1, cues := s.cues + [Pon]);
    var u := if t.lives == 0 then t.(play := false, over := true, cues := t.cues + [End]) else t;
    u.(autoMove := AutoMoveFrames)
  }

  /** `auto_move_ship`: while the drift window lasts the ship rises a little
      and the window shrinks by one frame. */
  function AutoMoveShip(s: Session): (r: Session)
    ensures s.autoMove == 0 ==> r == s
    ensures s.autoMove != 0 ==> r == s.(ship := Translate(s.ship, 0.0, DriftSpeed), autoMove := s.autoMove - 1)
    ensures Invariant(s) ==> Invariant(r)
  {
    if s.autoMove != 0 then s.(ship := Translate(s.ship, 0.0, DriftSpeed), autoMove := s.autoMove - 1)
    else s
  }

  /** n consecutive frames of drift. */
  function Drift(s: Session, n: nat): Session
    decreases n
  {
    if n == 0 then s else Drift(AutoMoveShip(s), n - 1)
  }

  /** Within the window the ship rises 0.05 per frame, sideways not at all. */
  lemma {:induction false} DriftRises(s: Session, n: nat)
    requires n <= s.autoMove
    ensures Drift(s, n).ship == s.ship.(y := s.ship.y + DriftSpeed * (n as real))
    ensures Drift(s, n).autoMove == s.autoMove - n
    decreases n
  {
    if n > 0 {
      DriftRises(AutoMoveShip(s), n - 1);
    }
  }

  /** Once the window is over the ship stops drifting. */
  lemma {:induction false} DriftStops(s: Session, n: nat)
    requires s.autoMove == 0
    ensures Drift(s, n) == s
    decreases n
  {
    if n > 0 {
      DriftStops(AutoMoveShip(s), n - 1);
    }
  }

  /** A hit's 32-frame window lifts the ship 1.6 above the anchor and then ends. */
  lemma DriftWindowAfterHit(s: Session, extra: nat)
    ensures var h := OnHitShip(s);
      && Drift(h, AutoMoveFrames).ship.y == BottomBorder.y + 1.6
      && Drift(h, AutoMoveFrames).autoMove == 0
      && Drift(Drift(h, AutoMoveFrames), extra) == Drift(h, AutoMoveFrames)
  {
    var h := OnHitShip(s);
    DriftRises(h, AutoMoveFrames);
    DriftStops(Drift(h, AutoMoveFrames), extra);
  }

  /** Attempt-then-revert: move, and move back if that hit the border. */
  function ShipStep(ship: Sprite, dx: real, dy: real, border: Sprite): (r: Sprite)
    ensures CollidesWith(Translate(ship, dx, dy), border) ==> r == ship
    ensures !CollidesWith(Translate(ship, dx, dy), border) ==> r == Translate(ship, dx, dy)
    ensures r == ship || !CollidesWith(r, border)
  {
    var moved := Translate(ship, dx, dy);
    if CollidesWith(moved, border) then Translate(moved, -dx, -dy) else moved
  }

  /** The keyboard half of `move_ship`: left, right, up and down are tried in
      that order and only the first key held counts. */
  function KeyedShip(ship: Sprite, keys: Keys): (r: Sprite)
    ensures keys.left ==> r == ShipStep(ship, -ShipSpeed, 0.0, LeftBorder)
    ensures !keys.left && keys.right ==> r == ShipStep(ship, ShipSpeed, 0.0, RightBorder)
    ensures !keys.left && !keys.right && keys.up ==> r == ShipStep(ship, 0.0, ShipSpeed, TopBorder)
    ensures !keys.left && !keys.right && !keys.up && keys.down ==> r == ShipStep(ship, 0.0, -ShipSpeed, BottomBorder)
    ensures r == ship
         || (r.y == ship.y && (r.x == ship.x - ShipSpeed || r.x == ship.x + ShipSpeed) && r == ship.(x := r.x))
         || (r.x == ship.x && (r.y == ship.y - ShipSpeed || r.y == ship.y + ShipSpeed) && r == ship.(y := r.y))
  {
    if keys.left then ShipStep(ship, -ShipSpeed, 0.0, LeftBorder)
    else if keys.right then ShipStep(ship, ShipSpeed, 0.0, RightBorder)
    else if keys.up then ShipStep(ship, 0.0, ShipSpeed, TopBorder)
    else if keys.down then ShipStep(ship, 0.0, -ShipSpeed, BottomBorder)
    else ship
  }

  /** Key priority: a held key masks every key after it in the order left,
      right, up, down. */
  lemma KeyPriority(ship: Sprite, keys: Keys)
    ensures keys.left ==> KeyedShip(ship, keys) == KeyedShip(ship, Keys(true, false, false, false, false, false))
    ensures !keys.left && keys.right ==> KeyedShip(ship, keys) == KeyedShip(ship, Keys(false, true, false, false, false, false))
    ensures !keys.left && !keys.right && keys.up ==> KeyedShip(ship, keys) == KeyedShip(ship, Keys(false, false, true, false, false, false))
    ensures !keys.left && !keys.right && !keys.up && !keys.down ==> KeyedShip(ship, keys) == ship
  {
  }

  /** An enabled invader touching the ship. */
  predicate Rams(inv: Sprite, ship: Sprite)
  {
    inv.enabled && CollidesWith(ship, inv)
  }

  /** The collision half of `move_ship`: each invader from index j on that
      touches the ship (where the ship is at that moment) hits it. No invader
      touching means no change; any invader touching costs at least a life. */
  function ShipMeetsInvaders(s: Session, j: nat): (r: Session)
    ensures r.invaders == s.invaders && r.missiles == s.missiles && r.bombs == s.bombs
    ensures r.score == s.score && r.stage == s.stage && r.liveInvaders == s.liveInvaders
    ensures r.lives <= s.lives
    ensures (forall k :: j <= k < |s.invaders| ==> !Rams(s.invaders[k], s.ship)) ==> r == s
    ensures (exists k :: j <= k < |s.invaders| && Rams(s.invaders[k], s.ship)) ==>
      r.lives < s.lives && r.autoMove == AutoMoveFrames
    ensures Invariant(s) ==> Invariant(r)
    decreases |s.invaders| - j
  {
    if j >= |s.invaders| then s
    else
      var t := if Rams(s.invaders[j], s.ship) then OnHitShip(s) else s;
      ShipMeetsInvaders(t, j + 1)
  }

  /** `move_ship`. */
  function MoveShip(s: Session, keys: Keys): (r: Session)
    ensures r.invaders == s.invaders && r.missiles == s.missiles && r.bombs == s.bombs
    ensures r.score == s.score && r.stage == s.stage && r.liveInvaders == s.liveInvaders
    ensures Invariant(s) ==> Invariant(r)
  {
    ShipMeetsInvaders(s.(ship := KeyedShip(s.ship, keys)), 0)
  }

  /** The first enabled invader at or after j that the missile overlaps; a
      result at or past the end of the list means none. */
  function FirstHit(m: Sprite, inv: seq<Sprite>, j: nat): (r: nat)
    ensures j <= r
    ensures r < |inv| ==> inv[r].enabled && CollidesWith(m, inv[r])
    ensures forall k :: j <= k < r && k < |inv| ==> !(inv[k].enabled && CollidesWith(m, inv[k]))
    ensures r >= |inv| ==> forall k :: j <= k < |inv| ==> !(inv[k].enabled && CollidesWith(m, inv[k]))
    decreases |inv| - j
  {
    if j >= |inv| then j
    else if inv[j].enabled && CollidesWith(m, inv[j]) then j
    else FirstHit(m, inv, j + 1)
  }

  /** The kill: the invader is remembered, both sprites are recycled, the hit
      is scored and an explosion is spawned on the invader. */
  function Kill(s: Session, i: nat, m: Sprite, j: nat): (r: Session)
    requires i < |s.missiles| && j < |s.invaders| && s.invaders[j].enabled
    ensures |r.invaders| == |s.invaders| && |r.missiles| == |s.missiles|
    ensures r.killed == s.invaders[j] && !r.invaders[j].enabled && !r.missiles[i].enabled
    ensures forall k :: 0 <= k < |s.invaders| && k != j ==> r.invaders[k] == s.invaders[k]
    ensures forall k :: 0 <= k < |s.missiles| && k != i ==> r.missiles[k] == s.missiles[k]
    ensures EnabledCount(r.invaders) == EnabledCount(s.invaders) - 1
    ensures r.liveInvaders == s.liveInvaders - 1 && r.score == s.score + KillScore && r.explosionTrigger
    ensures r.currentExplosion == StripToUse(s.currentExplosion) + 1
    ensures forall k :: 0 <= k < |r.explosions| ==>
      (r.explosions[k].enabled <==> InStrip(k, StripToUse(s.currentExplosion)))
    ensures forall k :: 0 <= k < |r.explosions| && InStrip(k, StripToUse(s.currentExplosion)) ==>
      r.explosions[k].x == s.invaders[j].x && r.explosions[k].y == s.invaders[j].y
    ensures Invariant(s) ==> Invariant(r)
  {
    var inv := s.invaders[j := Park(s.invaders[j])];
    EnabledCountUpdate(s.invaders, j, Park(s.invaders[j]));
    var s1 := s.(killed := s.invaders[j], invaders := inv,
                 missiles := s.missiles[i := Park(m)], explosionTrigger := true);
    SpawnExplosion(OnHitInvader(s1))
  }

  /** One missile of `move_missiles`: an enabled missile flies up; the first
      enabled invader it then overlaps is killed (first hit wins); otherwise a
      missile that reached the top border is recycled. */
  function MoveMissile(s: Session, i: nat): (r: Session)
    requires i < |s.missiles|
    ensures |r.missiles| == |s.missiles| && |r.invaders| == |s.invaders| && r.stage == s.stage
    ensures !s.missiles[i].enabled ==> r == s
    ensures s.missiles[i].enabled ==>
      var m := Translate(s.missiles[i], 0.0, MissileSpeed);
      var j := FirstHit(m, s.invaders, 0);
      && (j < |s.invaders| ==> r == Kill(s, i, m, j))
      && (j >= |s.invaders| ==>
            r == s.(missiles := s.missiles[i := if CollidesWith(m, TopBorder) then Park(m) else m]))
    ensures s.liveInvaders - r.liveInvaders == EnabledCount(s.invaders) - EnabledCount(r.invaders)
    ensures r.score - s.score == KillScore * (EnabledCount(s.invaders) - EnabledCount(r.invaders))
    ensures EnabledCount(r.invaders) <= EnabledCount(s.invaders)
    ensures Invariant(s) ==> Invariant(r)
  {
    if !s.missiles[i].enabled then s
    else
      var m := Translate(s.missiles[i], 0.0, MissileSpeed);
      var j := FirstHit(m, s.invaders, 0);
      if j < |s.invaders| then Kill(s, i, m, j)
      else if CollidesWith(m, TopBorder) then s.(missiles := s.missiles[i := Park(m)])
      else s.(missiles := s.missiles[i := m])
  }

  /** `move_missiles` from slot i on. Each kill costs exactly one live
      invader and one enabled invader and earns 20 points. */
  function MoveMissiles(s: Session, i: nat): (r: Session)
    requires i <= |s.missiles|
    ensures |r.missiles| == |s.missiles| && |r.invaders| == |s.invaders| && r.stage == s.stage
    ensures s.liveInvaders - r.liveInvaders == EnabledCount(s.invaders) - EnabledCount(r.invaders)
    ensures r.score - s.score == KillScore * (EnabledCount(s.invaders) - EnabledCount(r.invaders))
    ensures EnabledCount(r.invaders) <= EnabledCount(s.invaders)
    ensures Invariant(s) ==> Invariant(r)
    decreases |s.missiles| - i
  {
    if i == |s.missiles| then s else MoveMissiles(MoveMissile(s, i), i + 1)
  }

  /** One bomb of `move_bombs`: an enabled bomb falls; hitting the ship
      recycles it, restarts the bomb cooldown at 50 and hits the ship;
      otherwise a bomb that reached the bottom border is recycled. */
  function MoveBomb(s: Session, i: nat): (r: Session)
    requires i < |s.bombs|
    ensures |r.bombs| == |s.bombs| && r.invaders == s.invaders && r.missiles == s.missiles
    ensures r.score == s.score && r.liveInvaders == s.liveInvaders && r.stage == s.stage
    ensures !s.bombs[i].enabled ==> r == s
    ensures s.bombs[i].enabled ==>
      var b := Translate(s.bombs[i], 0.0, -BombSpeed);
      && (CollidesWith(b, s.ship) ==>
            r == OnHitShip(s.(bombs := s.bombs[i := Park(b)], bombCooldown := BombHitCooldown)))
      && (!CollidesWith(b, s.ship) ==>
            r == s.(bombs := s.bombs[i := if CollidesWith(b, BottomBorder) then Park(b) else b]))
    ensures Invariant(s) ==> Invariant(r)
  {
    if !s.bombs[i].enabled then s
    else
      var b := Translate(s.bombs[i], 0.0, -BombSpeed);
      if CollidesWith(b, s.ship) then OnHitShip(s.(bombs := s.bombs[i := Park(b)], bombCooldown := BombHitCooldown))
      else if CollidesWith(b, BottomBorder) then s.(bombs := s.bombs[i := Park(b)])
      else s.(bombs := s.bombs[i := b])
  }

  /** `move_bombs` from slot i on. */
  function MoveBombs(s: Session, i: nat): (r: Session)
    requires i <= |s.bombs|
    ensures |r.bombs| == |s.bombs| && r.invaders == s.invaders && r.missiles == s.missiles
    ensures r.score == s.score && r.liveInvaders == s.liveInvaders && r.lives <= s.lives && r.stage == s.stage
    ensures Invariant(s) ==> Invariant(r)
    decreases |s.bombs| - i
  {
    if i == |s.bombs| then s else MoveBombs(MoveBomb(s, i), i + 1)
  }
}
