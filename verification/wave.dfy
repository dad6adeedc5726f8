/** The wave controller: `move_invaders`, `invaders_collide`, and the
    bounce-and-descend step at the end of `simulate`. */
module Wave {
  import opened Sprites
  import opened Session

  const DescendStep: real := 0.1

  /** `move_invaders`: every enabled invader moves by (dx, dy); disabled
      invaders stay where they were parked. */
  function MoveInvaders(inv: seq<Sprite>, dx: real, dy: real): (r: seq<Sprite>)
    ensures |r| == |inv|
    ensures forall k :: 0 <= k < |inv| ==> r[k].enabled == inv[k].enabled
    ensures forall k :: 0 <= k < |inv| && !inv[k].enabled ==> r[k] == inv[k]
    ensures forall k :: 0 <= k < |inv| && inv[k].enabled ==> r[k] == Translate(inv[k], dx, dy)
  {
    seq(|inv|, k requires 0 <= k < |inv| => if inv[k].enabled then Translate(inv[k], dx, dy) else inv[k])
  }

  /** `invaders_collide`: some enabled invader overlaps the border. */
  function InvadersCollide(inv: seq<Sprite>, border: Sprite): (hit: bool)
    ensures hit <==> exists k :: 0 <= k < |inv| && inv[k].enabled && CollidesWith(inv[k], border)
  {
    if |inv| == 0 then false
    else (inv[0].enabled && CollidesWith(inv[0], border)) || InvadersCollide(inv[1..], border)
  }

  /** The border on the side the formation is heading to: left while the
      velocity is negative, right otherwise. */
  function SweepBorder(v: real): Sprite
  {
    if v < 0.0 then LeftBorder else RightBorder
  }

  /** The end of `simulate`: when an enabled invader touches the border ahead,
      the velocity flips and the formation moves by the new velocity and down
      one step. Nothing but the velocity and the invaders changes. */
  function Bounce(s: Session): (r: Session)
    ensures Invariant(s) ==> Invariant(r)
    ensures r.stage == s.stage && r.score == s.score && |r.invaders| == |s.invaders|
    ensures !InvadersCollide(s.invaders, SweepBorder(s.velocity)) ==> r == s
    ensures InvadersCollide(s.invaders, SweepBorder(s.velocity)) ==>
      && r.velocity == -s.velocity
      && |r.invaders| == |s.invaders|
      && (forall k :: 0 <= k < |s.invaders| && s.invaders[k].enabled ==>
            r.invaders[k].x == s.invaders[k].x - s.velocity && r.invaders[k].y == s.invaders[k].y - DescendStep)
      && (forall k :: 0 <= k < |s.invaders| && !s.invaders[k].enabled ==> r.invaders[k] == s.invaders[k])
      && r == s.(velocity := r.velocity, invaders := r.invaders)
  {
    if InvadersCollide(s.invaders, SweepBorder(s.velocity)) then
      var v := -s.velocity;
      var inv := MoveInvaders(s.invaders, v, -DescendStep);
      EnabledCountSameFlags(inv, s.invaders);
      s.(velocity := v, invaders := inv)
    else s
  }

  /** Moving the formation never changes which invaders are alive. */
  lemma MoveKeepsLiveCount(inv: seq<Sprite>, dx: real, dy: real)
    ensures EnabledCount(MoveInvaders(inv, dx, dy)) == EnabledCount(inv)
  {
    EnabledCountSameFlags(MoveInvaders(inv, dx, dy), inv);
  }

  /** The living formation keeps its shape: distances between enabled
      invaders are unchanged by a move. */
  lemma MoveKeepsShape(inv: seq<Sprite>, dx: real, dy: real)
    ensures var r := MoveInvaders(inv, dx, dy);
      forall a, b :: 0 <= a < |inv| && 0 <= b < |inv| && inv[a].enabled && inv[b].enabled ==>
        r[a].x - r[b].x == inv[a].x - inv[b].x && r[a].y - r[b].y == inv[a].y - inv[b].y
  {
  }

  /** On a bounce frame the sideways sweep and the bounce cancel out: each
      living invader ends where it started, one step lower. */
  lemma BounceFrameDescendsStraight(inv: seq<Sprite>, v: real)
    ensures var r := MoveInvaders(MoveInvaders(inv, v, 0.0), -v, -DescendStep);
      && |r| == |inv|
      && (forall k :: 0 <= k < |inv| && inv[k].enabled ==> r[k].x == inv[k].x && r[k].y == inv[k].y - DescendStep)
      && (forall k :: 0 <= k < |inv| && !inv[k].enabled ==> r[k] == inv[k])
  {
  }
}
