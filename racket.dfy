/** The racket control step run once per frame: the frame time taken from
    the low 32 bits of SDL's millisecond tick count, and the guarded horizontal move
    of the paddle. Positions are in metres (the physics engine's unit) and
    are compared against the arena in pixels. Single-precision floats are
    modelled as reals. */
module Racket {
  import opened Input

  /** Scale between the physics world and the screen. */
  const PixelsPerMeter: real := 30.0
  /** Paddle speed in metres per second. */
  const RacketSpeed: real := 5.0
  /** The paddle centre must stay strictly right of this pixel column ... */
  const LeftLimit: real := 50.0
  /** ... and strictly left of this one. */
  const RightLimit: real := 350.0

  /** SDL's millisecond tick count is 64 bits wide, but the frame callback
      stores it in a 32-bit unsigned variable, which keeps its low 32 bits:
      the readings the game works with wrap modulo 2^32. */
  const TickModulus: nat := 0x1_0000_0000
  type Tick = t: nat | t < TickModulus

  /** Where the paddle starts, in pixels (x, y). */
  const StartPixelX: real := 200.0
  const StartPixelY: real := 265.0

  /** Pixel position of a length or coordinate in metres. */
  function ToPixels(m: real): (p: real)
  {
    m * PixelsPerMeter
  }

  /** Metres of a length or coordinate in pixels. */
  function ToMeters(p: real): (m: real)
  {
    p / PixelsPerMeter
  }

  /** The paddle centre, at x metres, is strictly between the two limits. */
  predicate InsideArena(x: real)
  {
    LeftLimit < ToPixels(x) < RightLimit
  }

  /** Ticks elapsed from last to current, as the unsigned 32-bit subtraction
      gives them: never negative, and exact across a wrap of the counter. */
  function DeltaTicks(current: Tick, last: Tick): (d: Tick)
    ensures (last + d) % TickModulus == current
    ensures last <= current ==> d == current - last
  {
    (current - last) % TickModulus
  }

  /** The frame time in seconds. */
  function DeltaSeconds(current: Tick, last: Tick): (dt: real)
    ensures dt >= 0.0
    ensures dt * 1000.0 == DeltaTicks(current, last) as real
  {
    DeltaTicks(current, last) as real / 1000.0
  }

  /** The paddle's x after one frame of dt seconds with the given keys held.
      Left is checked first; a candidate position is taken only when its
      pixel x is strictly inside the limit on its side, and otherwise the
      paddle does not move at all (it is never clamped to the limit). */
  function RacketStep(keys: Keys, x: real, dt: real): (r: real)
    ensures !keys.left && !keys.right ==> r == x
    ensures keys.left ==>
              (ToPixels(x - RacketSpeed * dt) > LeftLimit && r == x - RacketSpeed * dt) ||
              (ToPixels(x - RacketSpeed * dt) <= LeftLimit && r == x)
    ensures !keys.left && keys.right ==>
              (ToPixels(x + RacketSpeed * dt) < RightLimit && r == x + RacketSpeed * dt) ||
              (ToPixels(x + RacketSpeed * dt) >= RightLimit && r == x)
    ensures dt >= 0.0 && keys.left ==> r <= x
    ensures dt >= 0.0 && !keys.left && keys.right ==> r >= x
    ensures dt >= 0.0 && InsideArena(x) ==> InsideArena(r)
  {
    if keys.left then
      var candidate := x - RacketSpeed * dt;
      if ToPixels(candidate) > LeftLimit then candidate else x
    else if keys.right then
      var candidate := x + RacketSpeed * dt;
      if ToPixels(candidate) < RightLimit then candidate else x
    else
      x
  }

  /** When both keys are held, the right key plays no part. */
  lemma LeftHasPriority(x: real, dt: real)
    ensures RacketStep(Keys(true, true), x, dt) == RacketStep(Keys(true, false), x, dt)
  {
  }

  /** One frame of the game loop as far as the paddle is concerned: the keys
      held during it, and the tick counter read at its start. */
  datatype Frame = Frame(keys: Keys, tick: Tick)

  /** The paddle's x after a run of frames, starting from x with the counter
      last read at last. */
  function RunFrames(last: Tick, x: real, frames: seq<Frame>): (r: real)
    decreases |frames|
  {
    if frames == [] then x
    else
      var f := frames[0];
      RunFrames(f.tick, RacketStep(f.keys, x, DeltaSeconds(f.tick, last)), frames[1..])
  }

  /** Whatever keys are held and however the tick counter moves (wrapping
      included), a paddle that starts inside the arena stays inside it. */
  lemma {:induction false} RunFramesStaysInside(last: Tick, x: real, frames: seq<Frame>)
    requires InsideArena(x)
    ensures InsideArena(RunFrames(last, x, frames))
    decreases |frames|
  {
    if frames != [] {
      var f := frames[0];
      RunFramesStaysInside(f.tick, RacketStep(f.keys, x, DeltaSeconds(f.tick, last)), frames[1..]);
    }
  }

  /** With no key held in any frame, the paddle never moves. */
  lemma {:induction false} RunFramesIdle(last: Tick, x: real, frames: seq<Frame>)
    requires forall i :: 0 <= i < |frames| ==> frames[i].keys == NoKeys
    ensures RunFrames(last, x, frames) == x
    decreases |frames|
  {
    if frames != [] {
      var f := frames[0];
      RunFramesIdle(f.tick, RacketStep(f.keys, x, DeltaSeconds(f.tick, last)), frames[1..]);
    }
  }

  /** Arena geometry in pixels: where the two side walls are centred, how
      far each box reaches either side of its centre, and how far the paddle
      reaches either side of its centre. */
  const LeftWallCenterX: real := 10.0
  const RightWallCenterX: real := 390.0
  const WallHalfWidth: real := 10.0
  const RacketHalfWidth: real := 30.0

  /** The faces of the side walls that look into the arena. */
  const LeftWallInnerEdge: real := LeftWallCenterX + WallHalfWidth
  const RightWallInnerEdge: real := RightWallCenterX - WallHalfWidth

  /** A paddle whose centre is inside the limits is clear of both side walls:
      the limits are exactly the wall faces moved in by half a paddle. */
  lemma RacketClearsWalls(x: real)
    requires InsideArena(x)
    ensures LeftWallInnerEdge < ToPixels(x) - RacketHalfWidth
    ensures ToPixels(x) + RacketHalfWidth < RightWallInnerEdge
  {
  }

  /** Converting pixels to metres and back, or metres to pixels and back,
      gives the value one started from. */
  lemma UnitRoundTrip(p: real, m: real)
    ensures ToPixels(ToMeters(p)) == p
    ensures ToMeters(ToPixels(m)) == m
  {
  }
}
