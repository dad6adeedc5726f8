/** `game_start`: the F5 debounce counter and the phase transition it
    triggers out of the title, cleared, game-over and complete screens. */
module Phase {
  import opened Sprites
  import opened Session

  const ClearBonus := 500
  const VelocityStep: real := 0.01

  // ---------------------------------------------------------------------
  // The debounce counter (`startDisabled`) and its latch (`startTimeCatcher`).
  // ---------------------------------------------------------------------

  /** One step of the counter: it counts up and wraps to 0 when it reaches 10. */
  function NextCount(c: int): (n: int)
    ensures 0 <= c < DebouncePeriod ==> n == (c + 1) % DebouncePeriod
    ensures 0 <= c < DebouncePeriod ==> 0 <= n < DebouncePeriod
  {
    if c + 1 == DebouncePeriod then 0 else c + 1
  }

  /** The latch after a frame: F5 held stores the counter just reached. */
  function Latch(latch: int, count: int, f5: bool): int
  {
    if f5 then count else latch
  }

  /** The transition fires when the counter is one past the latch. */
  predicate Fires(count: int, latch: int)
  {
    latch - 1 == count
  }

  /** The counter after m frames. */
  function CountAfter(c: int, m: nat): int
    decreases m
  {
    if m == 0 then c else CountAfter(NextCount(c), m - 1)
  }

  /** m frames advance the counter by m, modulo 10. */
  lemma {:induction false} CountAfterClosedForm(c: int, m: nat)
    requires 0 <= c < DebouncePeriod
    ensures CountAfter(c, m) == (c + m) % DebouncePeriod
    decreases m
  {
    if m > 0 {
      CountAfterClosedForm(NextCount(c), m - 1);
    }
  }

  /** Latched on a counter value k from 1 to 9, the transition fires exactly on
      the 9th, 19th, 29th, ... frame after the press. */
  lemma FiresNineFramesAfterLatch(k: int, m: nat)
    requires 1 <= k < DebouncePeriod
    ensures Fires(CountAfter(k, m), k) <==> m % DebouncePeriod == DebouncePeriod - 1
  {
    CountAfterClosedForm(k, m);
    var q, r := m / DebouncePeriod, m % DebouncePeriod;
    assert m == DebouncePeriod * q + r;
    assert (k + m) % DebouncePeriod == (k + r) % DebouncePeriod;
    if k + r < DebouncePeriod {
      assert (k + r) % DebouncePeriod == k + r;
    } else {
      assert (k + r) % DebouncePeriod == k + r - DebouncePeriod;
    }
  }

  /** Latched on a counter value of 0, the transition never fires. */
  lemma LatchZeroNeverFires(c: int, m: nat)
    requires 0 <= c < DebouncePeriod
    ensures !Fires(CountAfter(c, m), 0)
  {
    CountAfterClosedForm(c, m);
  }

  // ---------------------------------------------------------------------
  // The transition.
  // ---------------------------------------------------------------------

  /** The counter, the latch and the Begin cue of a frame spent off play. */
  function Tick(s: Session, f5: bool): (r: Session)
    ensures r == s.(startDisabled := r.startDisabled, startTimeCatcher := r.startTimeCatcher, cues := r.cues)
    ensures 0 <= s.startDisabled < DebouncePeriod ==>
      r.startDisabled == (s.startDisabled + 1) % DebouncePeriod
    ensures r.startTimeCatcher == (if f5 then r.startDisabled else s.startTimeCatcher)
    ensures r.cues == s.cues + (if f5 then [Begin] else [])
    ensures Invariant(s) ==> Invariant(r)
  {
    var count := NextCount(s.startDisabled);
    s.(startDisabled := count, startTimeCatcher := Latch(s.startTimeCatcher, count, f5),
       cues := if f5 then s.cues + [Begin] else s.cues)
  }

  /** The clear branch: a fresh `app_init` on the next stage that keeps the
      speed magnitude plus 0.01, the lives, and the score plus 500 times the
      square of the stage just loaded. */
  function CarryOver(s: Session, files: LevelFiles, a: Assets): (r: Session)
    ensures r.stage == (if 1 <= s.stage <= MaxLevel then s.stage + 1 else 1)
    ensures r.velocity == Abs(s.velocity) + VelocityStep
    ensures r.score == s.score + ClearBonus * r.stage * r.stage
    ensures r.lives == s.lives
    ensures r.cues == s.cues + [Begin]
    ensures r.title && !r.play && !r.over && !r.clear && !r.complete
  {
    var u := ResetSession(s, files, a);
    u.(velocity := Abs(s.velocity) + VelocityStep, score := s.score + u.stage * ClearBonus * u.stage,
       lives := s.lives, cues := u.cues + [Begin])
  }

  /** The three branches in the order the source tests them, then play. */
  function Transition(s: Session, files: LevelFiles, a: Assets): (r: Session)
    ensures r.play && !r.title && !r.clear && !r.over
    ensures r.startDisabled == 0 && r.startTimeCatcher == 0
    ensures !s.over && !s.clear && !s.complete ==>
      r == s.(title := false, play := true, startDisabled := 0, startTimeCatcher := 0)
  {
    var t1 := if s.over then ResetSession(s.(stage := 0), files, a) else s;
    var t2 := if t1.clear then CarryOver(t1, files, a) else t1;
    var t3 := if t2.complete then ResetSession(t2.(stage := 0), files, a) else t2;
    t3.(title := false, clear := false, over := false, play := true, startTimeCatcher := 0, startDisabled := 0)
  }

  /** Whether this frame's `game_start` fires the transition. */
  predicate StartFires(s: Session, f5: bool)
  {
    var count := NextCount(s.startDisabled);
    !s.play && Fires(count, Latch(s.startTimeCatcher, count, f5))
  }

  /** `game_start`. During play nothing changes; otherwise the counter ticks
      and the transition runs when it reaches the latch. */
  function GameStart(s: Session, f5: bool, files: LevelFiles, a: Assets): (r: Session)
    ensures s.play ==> r == s
    ensures !s.play && !StartFires(s, f5) ==> r == Tick(s, f5)
    ensures StartFires(s, f5) ==> r == Transition(Tick(s, f5), files, a)
    ensures r.play <==> s.play || StartFires(s, f5)
  {
    if s.play then s
    else
      var t := Tick(s, f5);
      if Fires(t.startDisabled, t.startTimeCatcher) then Transition(t, files, a) else t
  }

  /** F5 held never fires: the latch is the counter itself. */
  lemma HeldKeyNeverFires(s: Session)
    ensures !StartFires(s, true)
  {
  }

  /** Every outcome of the transition satisfies the invariant. */
  lemma TransitionEstablishesInvariant(s: Session, files: LevelFiles, a: Assets)
    requires Invariant(s) && !s.play
    ensures Invariant(Transition(s, files, a))
  {
    var t1 := if s.over then ResetSession(s.(stage := 0), files, a) else s;
    if s.over {
      ResetEstablishesInvariant(s.(stage := 0), files, a);
    }
    assert Invariant(t1) && (t1.clear ==> t1.stage < MaxLevel);
    var t2 := if t1.clear then CarryOver(t1, files, a) else t1;
    if t1.clear {
      ResetEstablishesInvariant(t1, files, a);
      assert t2 == ResetSession(t1, files, a).(velocity := t2.velocity, score := t2.score,
                                               lives := t2.lives, cues := t2.cues);
    }
    assert Invariant(t2);
    var t3 := if t2.complete then ResetSession(t2.(stage := 0), files, a) else t2;
    if t2.complete {
      ResetEstablishesInvariant(t2.(stage := 0), files, a);
    }
    assert Invariant(t3) && !t3.complete;
  }

  /** `game_start` keeps the invariant. */
  lemma GameStartPreservesInvariant(s: Session, f5: bool, files: LevelFiles, a: Assets)
    requires Invariant(s)
    ensures Invariant(GameStart(s, f5, files, a))
  {
    if StartFires(s, f5) {
      TransitionEstablishesInvariant(Tick(s, f5), files, a);
    }
  }

  /** Leaving a cleared stage: the next stage's formation, full and alive, at
      the inherited speed plus 0.01, with the stage bonus and the lives kept. */
  lemma ClearCarriesOver(s: Session, f5: bool, files: LevelFiles, a: Assets)
    requires Invariant(s) && s.clear && !s.over && StartFires(s, f5)
    ensures var r := GameStart(s, f5, files, a);
      && r.play && r.stage == s.stage + 1
      && r.velocity == Abs(s.velocity) + VelocityStep
      && r.score == s.score + ClearBonus * (s.stage + 1) * (s.stage + 1)
      && r.lives == s.lives
      && r.liveInvaders == |r.invaders| && forall k :: 0 <= k < |r.invaders| ==> r.invaders[k].enabled
  {
    var t := Tick(s, f5);
    assert t.clear && !t.over && t.stage == s.stage;
    var c := CarryOver(t, files, a);
    assert c.stage == s.stage + 1 && !c.complete;
    assert c == ResetSession(t, files, a).(velocity := c.velocity, score := c.score,
                                          lives := c.lives, cues := c.cues);
  }

  /** Leaving game over or the completed game: a full restart on stage 1. */
  lemma OverRestarts(s: Session, f5: bool, files: LevelFiles, a: Assets)
    requires Invariant(s) && (s.over || s.complete) && StartFires(s, f5)
    ensures var r := GameStart(s, f5, files, a);
      && r.play && r.stage == 1 && r.score == 0 && r.lives == StartLives
      && r.velocity == StartVelocity && r.liveInvaders == |r.invaders|
      && forall k :: 0 <= k < |r.invaders| ==> r.invaders[k].enabled
  {
    var t := Tick(s, f5);
    var t1 := if t.over then ResetSession(t.(stage := 0), files, a) else t;
    assert !t1.clear;
    var t3 := if t1.complete then ResetSession(t1.(stage := 0), files, a) else t1;
    assert t3.stage == 1 && t3.score == 0;
  }

  /** Leaving stage 2 with 100 points, 2 lives and speed 0.03 (or -0.03) gives
      stage 3 at speed 0.04 with 100 + 500 * 3 * 3 = 4600 points and 2 lives. */
  lemma ClearExample(s: Session, f5: bool, files: LevelFiles, a: Assets)
    requires Invariant(s) && s.clear && !s.over && StartFires(s, f5)
    requires s.stage == 2 && s.score == 100 && s.lives == 2 && (s.velocity == 0.03 || s.velocity == -0.03)
    ensures var r := GameStart(s, f5, files, a);
      r.stage == 3 && r.velocity == 0.04 && r.score == 4600 && r.lives == 2
  {
    ClearCarriesOver(s, f5, files, a);
  }
}
