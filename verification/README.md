# Invaderers gameplay core in Dafny

This project models the gameplay logic of the octet "invaderers" example
(`invaderers_app` and its `sprite` helper) as immutable records and pure
per-frame functions, and proves properties of that logic. Rendering, audio and
asset loading are not modelled.

The modules follow the program's structure:

- `Sprites` (`sprite.dfy`): the `sprite` class. It holds a centre position,
  half-extents fixed by `init`, an opaque texture handle and the enabled flag.
  It provides `translate`, `set_relative`, the strict overlap test
  `collides_with` and the x-only `is_above`. `EnabledCount` counts the enabled
  sprites of a collection.
- `Formation` (`formation.dfy`): `read_file`'s scanner. A line splits into
  fields at ',' and ends at NUL. Each field is read with C's `atoi`. Every
  field that reads as 1 contributes its (column, row) pair.
- `Session` (`session.dfy`): the game state of `invaderers_app` as one
  `Session` record, plus `load_next_level` and the state part of `app_init`
  (`ResetSession`). It also defines the invariant `Invariant` that every frame
  keeps:
  - the pool sizes (12 missiles, 2 bombs, 8 × 8 explosion frames);
  - the counter ranges;
  - the phase flags are consistent;
  - `live_invaderers` equals the number of enabled invaders.
- `Pools` (`pools.dfy`): `fire_missiles`, `fire_bombs`, the explosion ring
  spawned by a kill and `anim_explosion`.
- `Wave` (`wave.dfy`): `move_invaders`, `invaders_collide` and the
  bounce-and-descend step at the end of `simulate`.
- `Combat` (`combat.dfy`):
  - `on_hit_invaderer`, `on_hit_ship` and `auto_move_ship`;
  - `move_ship` (key handling, then the invader contact loop);
  - `move_missiles` (first hit wins) and `move_bombs`.
- `Phase` (`phase.dfy`): `game_start`. It contains the free-running debounce
  counter `startDisabled`, its latch `startTimeCatcher`, and the transition out
  of the title, cleared, game-over and complete screens.
- `Frame` (`frame.dfy`): `simulate`. The phase check runs first. Then there is
  an early return on the game-over, cleared and title screens. Otherwise every
  gameplay step runs in the source's order.

Sound effects are recorded as a log of cues (`Whoosh`, `Bang`, `Biing`, `Pon`,
`Begin`, `End`, `Clapping`) in the session. The level descriptor for each stage
is a parameter `files: int -> seq<string>`, one string per line. The random
start index of `fire_bombs` is part of the frame's input. Texture handles are
plain integers.

Where the code differs from its own comments or from the usual reading of the
game, the model follows the code:

- **The start transition's delay.** It fires on the 9th frame after the F5
  press latched a counter value from 1 to 9. A latch of 0 never fires.
- **The stage-clear bonus.** It is 500 · s², where s is the stage after
  `app_init` has already loaded the next level (line 355).
- **The bounce.** It moves the formation by the new velocity and down by 0.1.
- **Bomb selection.** `fire_bombs` scans from the random index to the end of
  the list and does not wrap around.
- **The live count.** `load_next_level` leaves `live_invaderers` alone; only
  `app_init` resets it.
- **The completed game.** `simulate` does not return early on the completed
  screen, so ship, missiles and bombs keep running there.

## Model

All source paths are `octet/src/examples/example_invaderers/invaderers_app.h`.

| member | source | states |
|---|---|---|
| Sprites.Init | octet/src/examples/example_invaderers/invaderers_app.h:42-49 | `init` centres the sprite at the given point, enabled, with half of the given width and height as half-extents and the given texture |
| Sprites.TranslateInverse | octet/src/examples/example_invaderers/invaderers_app.h:133-136 | translating back by the opposite offset restores the sprite; two translations compose into one by the summed offset |
| Sprites.MovesKeepExtents | octet/src/examples/example_invaderers/invaderers_app.h:133-142 | `translate` and `set_relative` change only the position: half-extents, texture and enabled flag stay; `set_relative` with zero offset puts the sprite exactly on the other's centre |
| Sprites.CollisionSymmetric | octet/src/examples/example_invaderers/invaderers_app.h:145-155 | a collides with b exactly when b collides with a |
| Sprites.TouchingIsNotCollision | octet/src/examples/example_invaderers/invaderers_app.h:145-155 | boxes whose centre distance on either axis equals the summed half-extents do not collide (the test is strict) |
| Sprites.CollisionTranslationInvariant | octet/src/examples/example_invaderers/invaderers_app.h:145-155 | moving both sprites by the same offset never changes whether they collide |
| Sprites.IsAboveIgnoresY | octet/src/examples/example_invaderers/invaderers_app.h:157-163 | `is_above` ignores both sprites' y; with the other sprite's half-width as margin it is implied by a collision and equals one on a shared row |
| Formation.AtoiIsOneIff | octet/src/examples/example_invaderers/invaderers_app.h:1019 | `Atoi`, C's `atoi` over unbounded integers: a field reads as 1 exactly when, after white space and an optional '+', its leading digits are zeros followed by a single '1' |
| Formation.AtoiStopsAtSeparator | octet/src/examples/example_invaderers/invaderers_app.h:1014-1019 | `atoi` applied to the rest of the line gives the value of the current field alone, whatever follows its ',' or NUL |
| Formation.JoinFields | octet/src/examples/example_invaderers/invaderers_app.h:1012-1034 | the fields the scanner visits, joined with ',', are exactly the line up to its first NUL |
| Formation.FieldsJoin | octet/src/examples/example_invaderers/invaderers_app.h:1012-1034 | separator-free fields joined with ',' split back into the same fields |
| Formation.Fields | octet/src/examples/example_invaderers/invaderers_app.h:1012-1034 | the scanner visits at least one field per line, and no field contains a ',' or NUL |
| Formation.ParseFormation | octet/src/examples/example_invaderers/invaderers_app.h:1005-1036 | `read_file`'s formation refers only to rows of the file; the full membership and order are stated by the two lemmas below |
| Formation.ParseFormationMembers | octet/src/examples/example_invaderers/invaderers_app.h:1005-1036 | the formation contains (j, i) exactly when line i has a field j reading as 1; nothing of the previous formation survives |
| Formation.ParseFormationOrdered | octet/src/examples/example_invaderers/invaderers_app.h:1009-1036 | formation cells come in strict row-major order, so none appears twice |
| Session.LoadNextLevel | octet/src/examples/example_invaderers/invaderers_app.h:1040-1057 | the stage always goes up by one; past stage 3 invaders and formation are untouched; otherwise there is one enabled invader per formation cell |
| Session.LoadNextLevelFrame | octet/src/examples/example_invaderers/invaderers_app.h:1040-1057 | loading changes only the stage, the formation and the invader list, and past stage 3 only the stage |
| Session.LoadNextLevelPlacesFormation | octet/src/examples/example_invaderers/invaderers_app.h:1040-1057 | a successful load holds exactly the marked cells of the new stage's file in row-major order, and invader k stands enabled at (-1.5 + 0.66·x, 2 - 0.5·y) of cell k with half-extents 0.125 |
| Session.LoadKeepsLiveCount | octet/src/examples/example_invaderers/invaderers_app.h:1040-1057 | `load_next_level` never changes `live_invaderers` |
| Session.IdlePool | octet/src/examples/example_invaderers/invaderers_app.h:798-811 | every missile or bomb slot starts disabled, parked at (20, 0) |
| Session.IdleExplosions | octet/src/examples/example_invaderers/invaderers_app.h:845-853 | all 64 explosion frames start disabled, and frame k uses animation texture k mod 8 |
| Session.ReloadForStart | octet/src/examples/example_invaderers/invaderers_app.h:760-772 | the ship is re-created at (0, -1.75); a stage outside 1..3 restarts at 1, otherwise the next stage loads, with every invader enabled when it exists |
| Session.ResetSession | octet/src/examples/example_invaderers/invaderers_app.h:863-885 | after `app_init`, all pools are idle and all counters are at their starting values, as are score 0, 3 lives and speed 0.01; only the title flag is set; `live_invaderers` counts the new invader list |
| Session.ResetEstablishesInvariant | octet/src/examples/example_invaderers/invaderers_app.h:742-885 | `app_init` from any stage but the last establishes the session invariant |
| Session.FullResetForgetsHistory | octet/src/examples/example_invaderers/invaderers_app.h:342-344 | resetting with the stage forced to 0 gives the same session whatever was played before, apart from the cue log and the remembered killed invader |
| Pools.FirstFree | octet/src/examples/example_invaderers/invaderers_app.h:538-539 | the slot chosen is the lowest-index disabled one, or none when all are busy |
| Pools.FireMissiles | octet/src/examples/example_invaderers/invaderers_app.h:529-554 | nothing without space; a running cooldown only counts down; otherwise the lowest free missile is enabled 0.5 above the ship, with cooldown 4, one point and a cue; with no free slot nothing changes |
| Pools.FireMissilesOccupancy | octet/src/examples/example_invaderers/invaderers_app.h:529-554 | one shot occupies exactly one more slot, exactly when the score moved, and occupancy never exceeds the 12 slots |
| Pools.FirstBomber | octet/src/examples/example_invaderers/invaderers_app.h:565-567 | the bomber is the first enabled invader over the ship at or after the start index |
| Pools.FireBombs | octet/src/examples/example_invaderers/invaderers_app.h:558-584 | a running cooldown only counts down; otherwise the first bomber drops a bomb 0.25 below itself into the lowest free slot, with cooldown 30 and a cue; no bomber or no free slot means no change |
| Pools.FireBombsNoWrapAround | octet/src/examples/example_invaderers/invaderers_app.h:565 | when every invader over the ship lies before the start index, no bomb is dropped |
| Pools.SpawnExplosion | octet/src/examples/example_invaderers/invaderers_app.h:610-623 | after a kill exactly the 8 frames of the current strip are enabled and placed on the killed invader, the strip index wrapping to 0 at 8 first; all other frames are disabled; the index ends in 1..8 |
| Pools.SpawnShowsOneStrip | octet/src/examples/example_invaderers/invaderers_app.h:610-623 | after a kill exactly 8 explosion frames are showing |
| Pools.AnimExplosion | octet/src/examples/example_invaderers/invaderers_app.h:670-688 | during the start delay only the delay counts down; then column c (wrapped to 0 at 8) of every strip moves 20 to the right and c advances; no frame changes its flag |
| Wave.MoveInvaders | octet/src/examples/example_invaderers/invaderers_app.h:661-668 | enabled invaders move by (dx, dy); disabled ones keep their place |
| Wave.MoveKeepsLiveCount | octet/src/examples/example_invaderers/invaderers_app.h:661-668 | moving the formation never changes the number of enabled invaders |
| Wave.InvadersCollide | octet/src/examples/example_invaderers/invaderers_app.h:691-699 | true exactly when some enabled invader overlaps the border |
| Wave.Bounce | octet/src/examples/example_invaderers/invaderers_app.h:917-921 | with no enabled invader on the border ahead, nothing changes; otherwise the velocity flips and every enabled invader moves by the new velocity and down 0.1; the invariant is kept |
| Wave.BounceFrameDescendsStraight | octet/src/examples/example_invaderers/invaderers_app.h:913-921 | on a bounce frame the sideways move and the bounce cancel out, and the enabled invaders only descend by 0.1 |
| Combat.OnHitInvader | octet/src/examples/example_invaderers/invaderers_app.h:384-416 | one fewer live invader and 20 points; reaching 0 stops play and sets complete on stage 3 or later, else clear, with the matching cue |
| Combat.OnHitShip | octet/src/examples/example_invaderers/invaderers_app.h:419-441 | the ship goes to the bottom border's centre, one life is lost, and reaching 0 stops play and sets game over; the 32-frame drift window starts |
| Combat.AutoMoveShip | octet/src/examples/example_invaderers/invaderers_app.h:443-449 | while the drift window lasts the ship rises 0.05 and the window shrinks by one; otherwise nothing changes |
| Combat.DriftRises | octet/src/examples/example_invaderers/invaderers_app.h:443-449 | n frames within the window lift the ship by 0.05·n and shorten the window by n |
| Combat.DriftWindowAfterHit | octet/src/examples/example_invaderers/invaderers_app.h:419-449 | after a hit the ship drifts for 32 frames to 1.6 above the bottom border and then stays |
| Combat.ShipStep | octet/src/examples/example_invaderers/invaderers_app.h:493-498 | a move that would overlap the border is undone; otherwise it stands |
| Combat.KeyPriority | octet/src/examples/example_invaderers/invaderers_app.h:490-516 | left masks right, up and down; right masks up and down; up masks down; no arrow key leaves the ship in place |
| Combat.KeyedShip | octet/src/examples/example_invaderers/invaderers_app.h:490-516 | a frame moves the ship by at most one step of 0.07 along one axis |
| Combat.ShipMeetsInvaders | octet/src/examples/example_invaderers/invaderers_app.h:518-525 | no enabled invader touching the ship means no change; any touching invader costs at least one life and restarts the drift window |
| Combat.MoveShip | octet/src/examples/example_invaderers/invaderers_app.h:490-526 | `move_ship` leaves invaders, missiles, bombs, score and stage alone and keeps the invariant |
| Combat.FirstHit | octet/src/examples/example_invaderers/invaderers_app.h:593-597 | the invader hit is the first enabled one the moved missile overlaps |
| Combat.Kill | octet/src/examples/example_invaderers/invaderers_app.h:597-625 | a kill disables exactly that invader and that missile, remembers the invader, scores 20, lowers the live count and the enabled count by one, and shows one strip on the invader |
| Combat.MoveMissile | octet/src/examples/example_invaderers/invaderers_app.h:587-635 | an enabled missile moves up 0.3; the first invader it overlaps is killed; otherwise it is recycled at the top border; live count and score follow the kills |
| Combat.MoveMissiles | octet/src/examples/example_invaderers/invaderers_app.h:587-635 | over all missiles, every invader that stops being enabled costs one live invader and earns 20 points, and the invariant is kept |
| Combat.MoveBomb | octet/src/examples/example_invaderers/invaderers_app.h:638-658 | an enabled bomb falls 0.2; hitting the ship recycles it, sets the bomb cooldown to 50 and hits the ship; otherwise it is recycled at the bottom border |
| Combat.MoveBombs | octet/src/examples/example_invaderers/invaderers_app.h:638-658 | bombs never change score, invaders or stage, never add lives, and keep the invariant |
| Phase.NextCount | octet/src/examples/example_invaderers/invaderers_app.h:324-328 | the debounce counter is the previous value plus one modulo 10, so it stays in 0..9 |
| Phase.CountAfterClosedForm | octet/src/examples/example_invaderers/invaderers_app.h:324-328 | m frames advance the counter by m modulo 10 |
| Phase.FiresNineFramesAfterLatch | octet/src/examples/example_invaderers/invaderers_app.h:324-337 | latched on 1..9, the transition condition holds exactly on frames 9, 19, 29, ... after the press |
| Phase.LatchZeroNeverFires | octet/src/examples/example_invaderers/invaderers_app.h:337 | a latch of 0 never fires |
| Phase.HeldKeyNeverFires | octet/src/examples/example_invaderers/invaderers_app.h:329-337 | no transition happens on a frame with F5 held |
| Phase.Tick | octet/src/examples/example_invaderers/invaderers_app.h:324-336 | a frame off play advances the counter modulo 10, latches it while F5 is held with a Begin cue, and changes nothing else |
| Phase.CarryOver | octet/src/examples/example_invaderers/invaderers_app.h:349-361 | leaving a cleared stage: next stage, speed |v| + 0.01, lives kept, score plus 500 times the square of the new stage, Begin cue |
| Phase.Transition | octet/src/examples/example_invaderers/invaderers_app.h:337-380 | after the transition play is on, title, clear and over are off, both counters are 0; from the title screen nothing else changes |
| Phase.GameStart | octet/src/examples/example_invaderers/invaderers_app.h:315-381 | during play nothing changes; otherwise the counter ticks and the transition runs exactly when the condition holds; play is on afterwards exactly in those cases |
| Phase.TransitionEstablishesInvariant | octet/src/examples/example_invaderers/invaderers_app.h:337-380 | every branch of the transition leaves a session satisfying the invariant |
| Phase.GameStartPreservesInvariant | octet/src/examples/example_invaderers/invaderers_app.h:315-381 | `game_start` keeps the invariant |
| Phase.ClearCarriesOver | octet/src/examples/example_invaderers/invaderers_app.h:349-380 | leaving stage s cleared gives play on stage s + 1 with all invaders alive, speed |v| + 0.01, lives kept and score plus 500·(s + 1)² |
| Phase.OverRestarts | octet/src/examples/example_invaderers/invaderers_app.h:342-380 | leaving game over or the completed game restarts play on stage 1 with score 0, 3 lives, speed 0.01 and all invaders alive |
| Phase.ClearExample | octet/src/examples/example_invaderers/invaderers_app.h:349-356 | leaving stage 2 with 100 points, 2 lives and speed ±0.03 gives stage 3, speed 0.04, 4600 points and 2 lives |
| Frame.Fly | octet/src/examples/example_invaderers/invaderers_app.h:909-911 | a frame's missile and bomb flight scores exactly 20 per invader it disables and keeps the invariant |
| Frame.AdvanceKeepsInvariant | octet/src/examples/example_invaderers/invaderers_app.h:899-921 | `Advance`, the gameplay steps in the source's order, keeps the invariant, the stage and the number of invaders |
| Frame.Simulate | octet/src/examples/example_invaderers/invaderers_app.h:890-922 | a frame changes the stage and the size of the invader list only when it fires the transition out of the game-over, cleared or completed screen; leaving the title screen and every gameplay step keep them |
| Frame.SimulatePreservesInvariant | octet/src/examples/example_invaderers/invaderers_app.h:890-922 | every frame keeps the session invariant |
| Frame.SuspendedFrameOnlyTicks | octet/src/examples/example_invaderers/invaderers_app.h:893-897 | off play and off the completed screen, a frame without a transition only ticks the debounce counter |
| Frame.TransitionFramePlays | octet/src/examples/example_invaderers/invaderers_app.h:893-897 | the frame on which the transition fires already runs the gameplay steps |
| Frame.CompletedGameKeepsRunning | octet/src/examples/example_invaderers/invaderers_app.h:895-897 | the completed screen is not suspended: its frames run the gameplay steps |
| Frame.CompletedGameStillScores | octet/src/examples/example_invaderers/invaderers_app.h:895-905 | on the completed screen a held space bar still fires a missile worth one point |

## Left out

- Rendering: `sprite::render`, `draw_text` and `draw_world`'s drawing. These are OpenGL calls over an unseen framework.
- Audio: `get_sound_source` and the OpenAL calls. A request is kept as a cue in the session's log; sources, buffers and the background music flag are not modelled.
- Asset loading in `app_init`: textures become opaque integers passed in as `Assets`; shaders, the camera and the font are not modelled.
- Overlay sprites: the title, black, game-over, game-clear and complete sprites are only translated on or off screen for display, so they are not modelled. The border sprites are constants.
- File I/O in `read_file`: the `ifstream` and the file name built from the stage are not modelled. The stage's file is given as its sequence of lines.
- The `eof` loop in `read_file`: after the last line, `getline` fails and leaves an empty buffer. The loop then visits one extra empty line, which adds no cell and is not modelled.
- Hangs in `read_file`: when the level file does not open, or a line is 2048 bytes or longer, `getline` sets only the fail bit. `eof` then never becomes true and the program loops forever. The model instead takes each stage's lines as given and always returns.
- Background stars: `auto_move_stars` and the star placement use `randomizer` and are cosmetic. `fire_bombs`' random start index is an input of the frame.
- Floating point: positions and the speed are reals. Float rounding (for example of 0.66·x, or of the 0.05 drift steps) is not modelled.
- Integer widths: `atoi` is modelled over unbounded integers (its overflow behaviour is undefined in C), and the score is unbounded.
- Locales: `atoi`'s white space is the six characters of the "C" locale.
- Phase.CarryOver: assumes `abs(invader_velocity)` resolves to the floating-point overload. The integer overload would truncate the speed to 0 first.
- Phase.CarryOver: does not model the conversion of the `long` score to `int` (line 351).
- The right-mouse debug reload in `draw_world` only calls `load_next_level`, which is modelled.
- Session.ResetEstablishesInvariant: requires a stage other than 3. On stage 3 `app_init` keeps the old invader list (stage 4 loads nothing) but resets `live_invaderers` to its length, so the live count can disagree with the enabled invaders. The transition never calls it there: a cleared stage is below 3 by the invariant, and the other branches force stage 0.
