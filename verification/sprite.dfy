/** Geometry of one game object: a centre position, half-extents fixed when the
    sprite is initialised, an opaque texture handle and an enabled flag.
    Positions are reals; the source's float rounding is not modelled. */
module Sprites {

  datatype Sprite = Sprite(x: real, y: real, halfWidth: real, halfHeight: real, texture: int, enabled: bool)

  function Abs(r: real): (a: real)
    ensures a >= 0.0
    ensures a == r || a == -r
  {
    if r < 0.0 then -r else r
  }

  /** `init`: a sprite of width w and height h centred at (x, y), enabled. */
  function Init(texture: int, x: real, y: real, w: real, h: real): (s: Sprite)
    ensures s.x == x && s.y == y
    ensures 2.0 * s.halfWidth == w && 2.0 * s.halfHeight == h
    ensures s.texture == texture && s.enabled
  {
    Sprite(x, y, w * 0.5, h * 0.5, texture, true)
  }

  /** `translate`: additive move, no bounds checking. */
  function Translate(s: Sprite, dx: real, dy: real): Sprite
  {
    s.(x := s.x + dx, y := s.y + dy)
  }

  /** `set_relative`: take the other sprite's position, then offset it. */
  function SetRelative(s: Sprite, other: Sprite, dx: real, dy: real): Sprite
  {
    s.(x := other.x + dx, y := other.y + dy)
  }

  /** `collides_with`: strict axis-aligned overlap of the two boxes. */
  predicate CollidesWith(a: Sprite, b: Sprite)
  {
    Abs(b.x - a.x) < a.halfWidth + b.halfWidth && Abs(b.y - a.y) < a.halfHeight + b.halfHeight
  }

  /** `is_above`: the x-distance test only, with `margin` standing in for the
      other sprite's half-width. */
  predicate IsAbove(a: Sprite, b: Sprite, margin: real)
  {
    Abs(b.x - a.x) < a.halfWidth + margin
  }

  /** Moving and moving back restores the sprite; moves compose additively. */
  lemma TranslateInverse(s: Sprite, dx: real, dy: real)
    ensures Translate(Translate(s, dx, dy), -dx, -dy) == s
    ensures forall ex: real, ey: real ::
      Translate(Translate(s, dx, dy), ex, ey) == Translate(s, dx + ex, dy + ey)
  {
  }

  /** Only the position and the enabled flag ever change: both moves keep the
      half-extents and the texture. */
  lemma MovesKeepExtents(s: Sprite, other: Sprite, dx: real, dy: real)
    ensures Translate(s, dx, dy).halfWidth == s.halfWidth && Translate(s, dx, dy).halfHeight == s.halfHeight
    ensures Translate(s, dx, dy).texture == s.texture && Translate(s, dx, dy).enabled == s.enabled
    ensures SetRelative(s, other, dx, dy).halfWidth == s.halfWidth
    ensures SetRelative(s, other, dx, dy).halfHeight == s.halfHeight
    ensures SetRelative(s, other, dx, dy).texture == s.texture
    ensures SetRelative(s, other, dx, dy).enabled == s.enabled
    ensures SetRelative(s, other, 0.0, 0.0).x == other.x && SetRelative(s, other, 0.0, 0.0).y == other.y
  {
  }

  lemma CollisionSymmetric(a: Sprite, b: Sprite)
    ensures CollidesWith(a, b) <==> CollidesWith(b, a)
  {
  }

  /** Boxes whose centres are exactly the summed half-extents apart on either
      axis only touch, and touching is not a collision. */
  lemma TouchingIsNotCollision(a: Sprite, b: Sprite)
    requires Abs(b.x - a.x) == a.halfWidth + b.halfWidth || Abs(b.y - a.y) == a.halfHeight + b.halfHeight
    ensures !CollidesWith(a, b)
  {
  }

  /** Moving both sprites by the same offset does not change whether they collide. */
  lemma CollisionTranslationInvariant(a: Sprite, b: Sprite, dx: real, dy: real)
    ensures CollidesWith(Translate(a, dx, dy), Translate(b, dx, dy)) <==> CollidesWith(a, b)
  {
  }

  /** `is_above` looks at x only: neither sprite's y matters. With the other
      sprite's half-width as margin it is exactly the x half of `collides_with`. */
  lemma IsAboveIgnoresY(a: Sprite, b: Sprite, margin: real, ya: real, yb: real)
    ensures IsAbove(a.(y := ya), b.(y := yb), margin) <==> IsAbove(a, b, margin)
    ensures CollidesWith(a, b) ==> IsAbove(a, b, b.halfWidth)
    ensures IsAbove(a, b, b.halfWidth) && a.y == b.y && a.halfHeight + b.halfHeight > 0.0 ==> CollidesWith(a, b)
  {
  }

  /** Number of enabled sprites in a collection. */
  function EnabledCount(ss: seq<Sprite>): (n: nat)
    ensures n <= |ss|
  {
    if |ss| == 0 then 0 else EnabledCount(ss[..|ss| - 1]) + (if ss[|ss| - 1].enabled then 1 else 0)
  }

  /** Replacing one sprite changes the count by the change of that sprite's flag. */
  lemma {:induction false} EnabledCountUpdate(ss: seq<Sprite>, k: nat, v: Sprite)
    requires k < |ss|
    ensures EnabledCount(ss[k := v]) + (if ss[k].enabled then 1 else 0)
         == EnabledCount(ss) + (if v.enabled then 1 else 0)
    decreases |ss|
  {
    var n := |ss| - 1;
    var t := ss[k := v];
    assert t[..n] == if k == n then ss[..n] else ss[..n][k := v];
    if k < n {
      EnabledCountUpdate(ss[..n], k, v);
    }
  }

  /** Two collections with the same flags, index by index, have the same count. */
  lemma {:induction false} EnabledCountSameFlags(a: seq<Sprite>, b: seq<Sprite>)
    requires |a| == |b|
    requires forall k :: 0 <= k < |a| ==> a[k].enabled == b[k].enabled
    ensures EnabledCount(a) == EnabledCount(b)
    decreases |a|
  {
    if |a| > 0 {
      EnabledCountSameFlags(a[..|a| - 1], b[..|b| - 1]);
    }
  }

  /** A collection with every sprite enabled counts its full length; with none, zero. */
  lemma {:induction false} EnabledCountExtremes(ss: seq<Sprite>)
    ensures (forall k :: 0 <= k < |ss| ==> ss[k].enabled) ==> EnabledCount(ss) == |ss|
    ensures (forall k :: 0 <= k < |ss| ==> !ss[k].enabled) ==> EnabledCount(ss) == 0
    decreases |ss|
  {
    if |ss| > 0 {
      EnabledCountExtremes(ss[..|ss| - 1]);
    }
  }
}
