/** The game's session state (the fields of `invaderers_app` that gameplay
    reads and writes), the level loader `load_next_level`, and the state part
    of `app_init`. */
module Session {
  import opened Sprites
  import opened Formation

  const NumMissiles := 12
  const NumBombs := 2
  /** Explosion strips (`num_explosions`) and frames per strip (`num_explosionsAnim`). */
  const NumExplosions := 8
  const FramesPerExplosion := 8
  const ExplosionSlots := NumExplosions * FramesPerExplosion
  /** `MAX_NR_LVL` */
  const MaxLevel := 3
  /** `startDisabled` runs through 0 .. DebouncePeriod - 1. */
  const DebouncePeriod := 10
  /** Recycled sprites are moved this far along x, off screen. */
  const ParkOffset: real := 20.0
  const StartLives := 3
  const StartVelocity: real := 0.01
  const StartBombCooldown := 50
  const StartExplosionDelay := 5

  /** The four fixed border sprites: bottom, top, left, right. Their textures
      only matter for drawing. */
  const BottomBorder := Init(0, 0.0, -3.0, 6.0, 0.2)
  const TopBorder := Init(0, 0.0, 3.0, 6.0, 0.2)
  const LeftBorder := Init(0, -3.0, 0.0, 0.2, 6.0)
  const RightBorder := Init(0, 3.0, 0.0, 0.2, 6.0)

  /** A sound the game asked the audio layer to play. */
  datatype Cue = Whoosh | Bang | Biing | Pon | Begin | End | Clapping

  /** The eight explosion frame textures. */
  type FrameTextures = t: seq<int> | |t| == FramesPerExplosion witness [0, 0, 0, 0, 0, 0, 0, 0]

  /** Opaque texture handles obtained from the asset layer. */
  datatype Assets = Assets(ship: int, invader: int, missile: int, bomb: int, explosion: FrameTextures)

  /** The keys the game polls each frame: arrows, space (fire) and F5 (start). */
  datatype Keys = Keys(left: bool, right: bool, up: bool, down: bool, space: bool, f5: bool)

  /** The lines of the level descriptor for each stage number, as `getline`
      delivers them from a file that opens and whose lines are shorter than
      the 2048-byte buffer. On a missing file or an over-long line the source
      never leaves its read loop; the model has no such case. */
  type LevelFiles = int -> seq<string>

  datatype Session = Session(
    ship: Sprite,
    invaders: seq<Sprite>,          // inv_sprites
    formation: seq<GridPos>,        // inv_formation
    missiles: seq<Sprite>,
    bombs: seq<Sprite>,
    explosions: seq<Sprite>,        // strip c, frame f at index c * 8 + f
    killed: Sprite,                 // killed_invaderer_sprite
    missileCooldown: int,           // missiles_disabled
    bombCooldown: int,              // bombs_disabled
    explosionDelay: int,            // explosion_change
    animFrame: int,                 // counter
    currentExplosion: int,
    autoMove: int,                  // autoMove_abled
    startDisabled: int,
    startTimeCatcher: int,
    stage: int,
    explosionTrigger: bool,
    liveInvaders: int,              // live_invaderers
    lives: int,                     // num_lives
    over: bool,
    clear: bool,
    title: bool,
    play: bool,
    complete: bool,
    score: int,
    velocity: real,                 // invader_velocity
    cues: seq<Cue>)

  /** Recycle a sprite: disable it and move it off screen. */
  function Park(s: Sprite): (r: Sprite)
    ensures !r.enabled && r.x == s.x + ParkOffset && r.y == s.y
    ensures r.halfWidth == s.halfWidth && r.halfHeight == s.halfHeight && r.texture == s.texture
  {
    Translate(s, ParkOffset, 0.0).(enabled := false)
  }

  /** World position of grid cell (column x, row y). */
  function CellX(p: GridPos): real { -1.5 + 0.66 * (p.x as real) }
  function CellY(p: GridPos): real { 2.0 - 0.5 * (p.y as real) }

  /** One enabled invader sprite per formation cell, in formation order. */
  function PlaceInvaders(f: seq<GridPos>, texture: int): (inv: seq<Sprite>)
    ensures |inv| == |f|
    ensures forall k :: 0 <= k < |f| ==>
      inv[k].enabled && inv[k].x == CellX(f[k]) && inv[k].y == CellY(f[k])
      && inv[k].halfWidth == 0.125 && inv[k].halfHeight == 0.125 && inv[k].texture == texture
  {
    seq(|f|, k requires 0 <= k < |f| => Init(texture, CellX(f[k]), CellY(f[k]), 0.25, 0.25))
  }

  /** `load_next_level`: advance the stage; past the last stage nothing else
      happens; otherwise read that stage's descriptor and rebuild the invader
      list from it. `live_invaderers` is left alone. */
  function LoadNextLevel(s: Session, files: LevelFiles, texture: int): (r: Session)
    ensures r.stage == s.stage + 1
    ensures r.ship == s.ship && r.cues == s.cues && r.killed == s.killed
    ensures r.stage > MaxLevel ==> r.invaders == s.invaders && r.formation == s.formation
    ensures r.stage <= MaxLevel ==> |r.invaders| == |r.formation| && forall k :: 0 <= k < |r.invaders| ==> r.invaders[k].enabled
  {
    var stage := s.stage + 1;
    if stage > MaxLevel then s.(stage := stage)
    else
      var f := ParseFormation(files(stage));
      s.(stage := stage, formation := f, invaders := PlaceInvaders(f, texture))
  }

  /** Loading changes the stage, the formation and the invader list and
      nothing else; past the last stage it changes only the stage. */
  lemma LoadNextLevelFrame(s: Session, files: LevelFiles, texture: int)
    ensures var r := LoadNextLevel(s, files, texture);
      && (r.stage > MaxLevel ==> r == s.(stage := r.stage))
      && r == s.(stage := r.stage, formation := r.formation, invaders := r.invaders)
  {
  }

  /** A successful load discards the old formation: the new one lists exactly
      the marked cells of the new stage's descriptor in row-major order, and
      invader k stands, enabled and 0.25 wide and high, on cell k. */
  lemma LoadNextLevelPlacesFormation(s: Session, files: LevelFiles, texture: int)
    requires s.stage + 1 <= MaxLevel
    ensures var r := LoadNextLevel(s, files, texture);
      && (forall q :: q in r.formation <==> Marked(files(s.stage + 1), q))
      && (forall a, b :: 0 <= a < b < |r.formation| ==> RowMajorBefore(r.formation[a], r.formation[b]))
      && |r.invaders| == |r.formation|
      && (forall k :: 0 <= k < |r.invaders| ==>
            && r.invaders[k].enabled && r.invaders[k].texture == texture
            && r.invaders[k].x == CellX(r.formation[k]) && r.invaders[k].y == CellY(r.formation[k])
            && r.invaders[k].halfWidth == 0.125 && r.invaders[k].halfHeight == 0.125)
  {
    var lines := files(s.stage + 1);
    var f := ParseFormation(lines);
    ParseFormationMembers(lines);
    ParseFormationOrdered(lines);
    var r := LoadNextLevel(s, files, texture);
    assert r.formation == f && r.invaders == PlaceInvaders(f, texture);
  }

  /** Missiles and bombs are created off screen and disabled. */
  function IdlePool(n: nat, texture: int): (pool: seq<Sprite>)
    ensures |pool| == n
    ensures forall k :: 0 <= k < n ==> !pool[k].enabled && pool[k].x == ParkOffset && pool[k].y == 0.0
  {
    seq(n, k => Init(texture, ParkOffset, 0.0, 0.0625, 0.25).(enabled := false))
  }

  /** Explosion frame f of strip c is created disabled at (20 f, 20 c) with frame texture f. */
  function IdleExplosions(textures: FrameTextures): (ex: seq<Sprite>)
    ensures |ex| == ExplosionSlots
    ensures forall k :: 0 <= k < ExplosionSlots ==> !ex[k].enabled && ex[k].texture == textures[k % FramesPerExplosion]
  {
    seq(ExplosionSlots, k requires 0 <= k < ExplosionSlots =>
      Init(textures[k % FramesPerExplosion], 20.0 * ((k % FramesPerExplosion) as real),
           20.0 * ((k / FramesPerExplosion) as real), 0.25, 0.25).(enabled := false))
  }

  /** The first half of `app_init`: an out-of-range stage is set to 0, the
      ship is recreated at its start point and the next level is loaded. */
  function ReloadForStart(s: Session, files: LevelFiles, a: Assets): (r: Session)
    ensures r.stage == (if 1 <= s.stage <= MaxLevel then s.stage + 1 else 1)
    ensures r.stage <= MaxLevel ==> forall k :: 0 <= k < |r.invaders| ==> r.invaders[k].enabled
    ensures r.stage > MaxLevel ==> r.invaders == s.invaders && r.formation == s.formation
    ensures r.ship.x == 0.0 && r.ship.y == -1.75 && r.ship.enabled
    ensures r.cues == s.cues && r.killed == s.killed
  {
    var start := if s.stage < 1 || s.stage > MaxLevel then 0 else s.stage;
    var t := s.(stage := start, ship := Init(a.ship, 0.0, -1.75, 0.25, 0.25));
    var r := LoadNextLevel(t, files, a.invader);
    assert r.ship == t.ship && r.cues == s.cues && r.killed == s.killed;
    r
  }

  /** The gameplay state `app_init` establishes: the level is reloaded as
      above, the pools are recreated empty, and every counter and flag takes
      its starting value (title screen). The sound log and the last killed
      invader are kept. */
  function ResetSession(s: Session, files: LevelFiles, a: Assets): (r: Session)
    ensures r.stage == (if 1 <= s.stage <= MaxLevel then s.stage + 1 else 1)
    ensures r.stage <= MaxLevel ==> forall k :: 0 <= k < |r.invaders| ==> r.invaders[k].enabled
    ensures r.stage > MaxLevel ==> r.invaders == s.invaders && r.formation == s.formation
    ensures r.liveInvaders == |r.invaders|
    ensures r.ship.x == 0.0 && r.ship.y == -1.75 && r.ship.enabled
    ensures |r.missiles| == NumMissiles && forall k :: 0 <= k < NumMissiles ==> !r.missiles[k].enabled
    ensures |r.bombs| == NumBombs && forall k :: 0 <= k < NumBombs ==> !r.bombs[k].enabled
    ensures |r.explosions| == ExplosionSlots && forall k :: 0 <= k < ExplosionSlots ==> !r.explosions[k].enabled
    ensures r.title && !r.play && !r.over && !r.clear && !r.complete
    ensures r.score == 0 && r.lives == StartLives && r.velocity == StartVelocity
    ensures r.missileCooldown == 0 && r.bombCooldown == StartBombCooldown && r.autoMove == 0
    ensures r.explosionDelay == StartExplosionDelay && r.animFrame == 0 && r.currentExplosion == 0
    ensures r.startDisabled == 0 && r.startTimeCatcher == 0 && !r.explosionTrigger
    ensures r.cues == s.cues && r.killed == s.killed
  {
    var s1 := ReloadForStart(s, files, a);
    s1.(missiles := IdlePool(NumMissiles, a.missile), bombs := IdlePool(NumBombs, a.bomb),
        explosions := IdleExplosions(a.explosion),
        missileCooldown := 0, bombCooldown := StartBombCooldown, autoMove := 0,
        explosionDelay := StartExplosionDelay, explosionTrigger := false,
        velocity := StartVelocity, liveInvaders := |s1.invaders|, lives := StartLives,
        over := false, clear := false, play := false, title := true, complete := false,
        score := 0, animFrame := 0, currentExplosion := 0,
        startTimeCatcher := 0, startDisabled := 0)
  }

  // ---------------------------------------------------------------------
  // What stays true of a session between frames.
  // ---------------------------------------------------------------------

  /** The fixed sprite arrays have their declared sizes. */
  predicate PoolsShaped(s: Session)
  {
    |s.missiles| == NumMissiles && |s.bombs| == NumBombs && |s.explosions| == ExplosionSlots
  }

  /** Every counter stays within the range its wrap-around or countdown keeps it in. */
  predicate CountersInRange(s: Session)
  {
    && 0 <= s.startDisabled < DebouncePeriod
    && 0 <= s.currentExplosion <= NumExplosions
    && 0 <= s.animFrame <= FramesPerExplosion
    && s.missileCooldown >= 0 && s.bombCooldown >= 0
    && s.explosionDelay >= 0 && s.autoMove >= 0
  }

  /** Some phase flag is always set, playing excludes every other phase, a
      stage ends either cleared or complete but not both, the stage is one of
      the three levels and a cleared stage is never the last one. */
  predicate PhaseConsistent(s: Session)
  {
    && (s.play || s.over || s.clear || s.title || s.complete)
    && (s.play ==> !s.over && !s.clear && !s.title && !s.complete)
    && !(s.clear && s.complete)
    && 1 <= s.stage <= MaxLevel
    && (s.clear ==> s.stage < MaxLevel)
  }

  /** `live_invaderers` counts exactly the enabled invaders, and none is left
      once the stage is cleared or the game complete. */
  predicate LiveCountAccurate(s: Session)
  {
    s.liveInvaders == EnabledCount(s.invaders) && (s.clear || s.complete ==> s.liveInvaders == 0)
  }

  predicate Invariant(s: Session)
  {
    PoolsShaped(s) && CountersInRange(s) && PhaseConsistent(s) && LiveCountAccurate(s)
  }

  /** `app_init` establishes the invariant whenever it actually reloads a level. */
  lemma ResetEstablishesInvariant(s: Session, files: LevelFiles, a: Assets)
    requires s.stage != MaxLevel
    ensures Invariant(ResetSession(s, files, a))
  {
    var r := ResetSession(s, files, a);
    EnabledCountExtremes(r.invaders);
    EnabledCountExtremes(r.missiles);
    EnabledCountExtremes(r.bombs);
    EnabledCountExtremes(r.explosions);
  }

  /** A full reset (stage forced to 0 first, as on game over or completion)
      forgets every gameplay value of the previous session. */
  lemma FullResetForgetsHistory(s: Session, t: Session, files: LevelFiles, a: Assets)
    ensures ResetSession(s.(stage := 0), files, a).(cues := [], killed := t.killed)
         == ResetSession(t.(stage := 0), files, a).(cues := [])
  {
  }

  /** Loading a level never touches the live count, so a reload during play
      leaves `live_invaderers` describing the previous formation. */
  lemma LoadKeepsLiveCount(s: Session, files: LevelFiles, texture: int)
    ensures LoadNextLevel(s, files, texture).liveInvaders == s.liveInvaders
  {
    LoadNextLevelFrame(s, files, texture);
  }
}
