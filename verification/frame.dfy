/** `simulate`: one frame. The phase check runs first; unless the session is
    then on the title, cleared or game-over screen, every gameplay step runs
    in the source's order, ending with the wave's bounce. */
module Frame {
  import opened Sprites
  import opened Session
  import opened Pools
  import opened Wave
  import opened Combat
  import opened Phase

  /** What the world supplies to one frame: the keys held and the random
      start index `fire_bombs` draws. */
  datatype Input = Input(keys: Keys, bombStart: nat)

  /** Whether `simulate` stops right after `game_start`. The completed game is
      not among these screens. */
  predicate Suspended(s: Session)
  {
    s.over || s.clear || s.title
  }

  /** The ship's two steps: keys and collisions, then the drift. */
  function Steer(s: Session, keys: Keys): Session
  {
    AutoMoveShip(MoveShip(s, keys))
  }

  /** The two firing steps. */
  function Fire(s: Session, input: Input): Session
  {
    FireBombs(FireMissiles(s, input.keys.space), input.bombStart)
  }

  function Arm(s: Session, input: Input): Session
  {
    Fire(Steer(s, input.keys), input)
  }

  lemma SteerKeepsInvariant(s: Session, keys: Keys)
    ensures Invariant(s) ==> Invariant(Steer(s, keys))
    ensures Steer(s, keys).stage == s.stage && Steer(s, keys).invaders == s.invaders
  {
    var s1 := MoveShip(s, keys);
    assert s1.stage == s.stage && s1.invaders == s.invaders;
  }

  lemma FireKeepsInvariant(s: Session, input: Input)
    ensures Invariant(s) ==> Invariant(Fire(s, input))
    ensures Fire(s, input).stage == s.stage && Fire(s, input).invaders == s.invaders
  {
    var s1 := FireMissiles(s, input.keys.space);
    assert s1.stage == s.stage && s1.invaders == s.invaders;
  }

  /** Moving and firing keep the invariant, the stage and the invaders. */
  lemma ArmKeepsInvariant(s: Session, input: Input)
    ensures Invariant(s) ==> Invariant(Arm(s, input))
    ensures Arm(s, input).stage == s.stage && Arm(s, input).invaders == s.invaders
  {
    SteerKeepsInvariant(s, input.keys);
    FireKeepsInvariant(Steer(s, input.keys), input);
  }

  /** The flight of every missile, then of every bomb. */
  function Fly(s: Session): (r: Session)
    ensures Invariant(s) ==> Invariant(r)
    ensures r.stage == s.stage && |r.invaders| == |s.invaders|
    ensures r.score == s.score + KillScore * (EnabledCount(s.invaders) - EnabledCount(r.invaders))
    ensures EnabledCount(r.invaders) <= EnabledCount(s.invaders)
  {
    MoveBombs(MoveMissiles(s, 0), 0)
  }

  /** The sweep, the explosion animation and the bounce. */
  function Sweep(s: Session): Session
  {
    Bounce(AnimExplosion(Sidestep(s)))
  }

  /** `move_invaders(invader_velocity, 0)`. */
  function Sidestep(s: Session): Session
  {
    s.(invaders := MoveInvaders(s.invaders, s.velocity, 0.0))
  }

  /** The sideways move keeps the invariant: no invader changes its flag. */
  lemma SidestepKeepsInvariant(s: Session)
    ensures Invariant(s) ==> Invariant(Sidestep(s))
  {
    MoveKeepsLiveCount(s.invaders, s.velocity, 0.0);
  }

  /** The sweep keeps the invariant, the stage, the score and the number of invaders. */
  lemma SweepKeepsInvariant(s: Session)
    ensures Invariant(s) ==> Invariant(Sweep(s))
    ensures Sweep(s).stage == s.stage && |Sweep(s).invaders| == |s.invaders| && Sweep(s).score == s.score
  {
    SidestepKeepsInvariant(s);
  }

  /** The gameplay half of `simulate`, in the source's order. */
  function Advance(s: Session, input: Input): Session
  {
    Sweep(Fly(Arm(s, input)))
  }

  /** The gameplay steps keep the invariant, and the stage: it changes only
      in the phase transition. */
  lemma AdvanceKeepsInvariant(s: Session, input: Input)
    ensures Invariant(s) ==> Invariant(Advance(s, input))
    ensures Advance(s, input).stage == s.stage && |Advance(s, input).invaders| == |s.invaders|
  {
    ArmKeepsInvariant(s, input);
    SweepKeepsInvariant(Fly(Arm(s, input)));
  }

  /** `simulate`. The stage and the length of the invader list change only
      when the transition fires out of the game-over, cleared or completed
      screen: gameplay never loads a level, and leaving the title screen keeps
      the level already loaded. */
  function Simulate(s: Session, input: Input, files: LevelFiles, a: Assets): (r: Session)
    ensures !StartFires(s, input.keys.f5) || (!s.over && !s.clear && !s.complete) ==>
      r.stage == s.stage && |r.invaders| == |s.invaders|
  {
    var g := GameStart(s, input.keys.f5, files, a);
    AdvanceKeepsInvariant(g, input);
    if Suspended(g) then g else Advance(g, input)
  }

  /** Every frame keeps the invariant. */
  lemma SimulatePreservesInvariant(s: Session, input: Input, files: LevelFiles, a: Assets)
    requires Invariant(s)
    ensures Invariant(Simulate(s, input, files, a))
  {
    GameStartPreservesInvariant(s, input.keys.f5, files, a);
    var g := GameStart(s, input.keys.f5, files, a);
    if !Suspended(g) {
      AdvanceKeepsInvariant(g, input);
    }
  }

  /** Off play, a frame that does not fire the transition touches nothing of
      the game except on the completed-game screen: only the debounce counter,
      its latch and the Begin cue change. */
  lemma SuspendedFrameOnlyTicks(s: Session, input: Input, files: LevelFiles, a: Assets)
    requires Invariant(s) && !s.play && !s.complete && !StartFires(s, input.keys.f5)
    ensures Simulate(s, input, files, a) == Tick(s, input.keys.f5)
  {
  }

  /** A started frame plays: the transition's frame goes on to the gameplay
      steps in the same frame. */
  lemma TransitionFramePlays(s: Session, input: Input, files: LevelFiles, a: Assets)
    requires StartFires(s, input.keys.f5)
    ensures var g := GameStart(s, input.keys.f5, files, a);
      g.play && Simulate(s, input, files, a) == Advance(g, input)
  {
  }

  /** The completed game is not suspended: the ship still moves and a held
      space bar still fires a missile worth a point. */
  lemma CompletedGameKeepsRunning(s: Session, input: Input, files: LevelFiles, a: Assets)
    requires Invariant(s) && s.complete && !s.over && !s.title && !StartFires(s, input.keys.f5)
    ensures Simulate(s, input, files, a) == Advance(Tick(s, input.keys.f5), input)
  {
    assert !s.clear;
  }

  /** With no direction key, no drift and no invader left, the ship's steps
      change nothing. */
  lemma SteerIdle(s: Session, keys: Keys)
    requires !keys.left && !keys.right && !keys.up && !keys.down && s.autoMove == 0
    requires forall k :: 0 <= k < |s.invaders| ==> !s.invaders[k].enabled
    ensures Steer(s, keys) == s
  {
    assert s.(ship := KeyedShip(s.ship, keys)) == s;
  }

  /** With no missile cooldown, missile slot 0 free and the bomb cooldown
      running, firing scores exactly the shot. */
  lemma FireScoresShot(s: Session, input: Input)
    requires input.keys.space && s.missileCooldown == 0 && s.bombCooldown > 0
    requires |s.missiles| > 0 && !s.missiles[0].enabled
    ensures Fire(s, input).score == s.score + ShotScore && Fire(s, input).invaders == s.invaders
  {
    assert FirstFree(s.missiles) == 0;
  }

  /** A frame on the completed screen with space held, missile slot 0 free,
      no missile cooldown, the bomb cooldown running, no drift and no invader
      left still scores the shot. */
  lemma CompletedGameStillScores(s: Session, input: Input, files: LevelFiles, a: Assets)
    requires Invariant(s) && s.complete && !s.over && !s.title && !StartFires(s, input.keys.f5)
    requires input.keys == Keys(false, false, false, false, true, false)
    requires s.autoMove == 0 && s.missileCooldown == 0 && s.bombCooldown > 0
    requires forall k :: 0 <= k < |s.invaders| ==> !s.invaders[k].enabled
    requires !s.missiles[0].enabled
    ensures Simulate(s, input, files, a).score == s.score + ShotScore
  {
    var t := Tick(s, input.keys.f5);
    SteerIdle(t, input.keys);
    FireScoresShot(t, input);
    var armed := Arm(t, input);
    assert armed.score == s.score + ShotScore && armed.invaders == s.invaders;
    EnabledCountExtremes(armed.invaders);
    SweepKeepsInvariant(Fly(armed));
    CompletedGameKeepsRunning(s, input, files, a);
  }
}
