# Arkanoid paddle control and debug outlines, modelled in Dafny

The game is a minimal Arkanoid built on Box2D v3 (physics) and SDL3
(window, input, rendering), all in `src/main.c`. Nearly everything it does
is a call into one of those two libraries. This project models the logic
the game decides for itself:

- **Key-state machine** (`input.dfy`, module `Input`; the handler is in
  `session.dfy`). SDL's event callback keeps two "currently held" flags for
  the left and right arrow keys. A key-down of an arrow key sets its flag
  and a key-up clears it. A quit event ends the application with success.
  Anything else is ignored.
- **Racket control step** (`racket.dfy`, module `Racket`; the frame
  callback is in `session.dfy`). Each frame reads SDL's millisecond tick
  count, a 64-bit value, and stores it in a `uint32_t`, which keeps only
  its low 32 bits (src/main.c:79). The elapsed time is the unsigned 32-bit
  difference from the previous stored reading, so it wraps and is never
  negative. `Session.GameSession.Iterate` receives that 32-bit value. If
  left is held, the paddle's candidate x is `x - racketSpeed * dt`; otherwise, if right is held, it is
  `x + racketSpeed * dt`. The candidate is committed only if its pixel x
  (`x * pixelsPerMeter`) stays strictly beyond the wall limit: above 50 when
  moving left, below 350 when moving right. Otherwise the paddle stays where
  it was; it is never clamped to the limit. The constants are
  `pixelsPerMeter = 30` and `racketSpeed = 5`.
- **Session state** (`session.dfy`, class `Session.GameSession`). This
  holds the process-wide variables the two callbacks share: the key flags,
  the last tick reading, and the paddle position. `HandleEvent` and
  `Iterate` update them in place. Their contracts tie the new state to
  `Input.NextKeys` and `Racket.RacketStep`, and they keep the invariant that
  the paddle's pixel x is in (50, 350).
- **Outline bookkeeping** (`outline.dfy`, module `Outline`). These are the
  two debug-draw callbacks. Each is modelled by the sequence of line
  segments it issues. A polygon outline joins vertex `i` to vertex `i + 1`,
  with the last vertex wrapping to 0. A circle outline draws 20 chained
  segments, stepping the angle by 18° and resetting it to 0 once it reaches
  360°.

Single-precision floats are modelled as reals. The stored tick reading
is modelled as a natural number below 2^32, and its wrap-around is written
out.

One detail of the circle routine: it converts angles with
`angle * 3.14 / 180`, not with π. So the rim point at 360° would not quite
coincide with the point at 0°. Because the angle resets to 0 at 360, the
last segment ends exactly at the first point. `Outline.CircleOutline`
states this as ending at angle 0.

## Model

| member | source | states |
|---|---|---|
| `Input.NextKeys` | src/main.c:61-71 | A key-down of LEFT sets the left flag and a key-up of LEFT clears it. RIGHT does the same for the right flag. The other flag is untouched in every case. Any other scancode, and any other event type, leaves both flags as they were. |
| `Input.NextKeysFlag` | src/main.c:61-71 | For either arrow key, one event changes that key's flag exactly when the event is a key-down or key-up of that key, and it sets the flag to true on key-down and false on key-up. |
| `Input.KeysAfterFlag` | src/main.c:56-73 | After any stream of events, an arrow key's flag is set exactly when the latest key event for that key was a key-down. If the stream has no event for that key, the flag keeps its initial value. This is proved by induction against an independent "latest event" description. |
| `Input.KeysAfterHeld` | src/main.c:56-73 | The previous statement, for both flags together. |
| `Input.KeysAfterIgnoresOtherEvents` | src/main.c:61-72 | Any number of events that are not arrow-key events leave both flags unchanged. |
| `Session.GameSession.HandleEvent` | src/main.c:56-73 | A quit event returns Success and changes no flag. Every other event returns Continue. The new flags are `NextKeys` of the old flags and the event. Tick time and paddle position cannot change, and the arena invariant is kept. |
| `Session.GameSession.Iterate` | src/main.c:79-99 | `lastTickTime` becomes the current tick. The new paddle x is `RacketStep` applied to the held keys, the old x and the wrapped tick difference in seconds. The paddle's pixel x stays in (50, 350). y and the key flags cannot change. Returns Continue. |
| `Session.GameSession.constructor` | src/main.c:183-186 | A fresh session has both flags clear and the tick at 0. The paddle starts at pixel (200, 265), converted to metres, which is inside the arena. |
| `Racket.DeltaTicks` | src/main.c:79-81 | The unsigned 32-bit difference of the stored (low 32 bits) tick readings is the unique value in [0, 2^32) that, added to the last reading modulo 2^32, gives the current reading. It is never negative, and it equals the plain difference when the counter has not wrapped. |
| `Racket.DeltaSeconds` | src/main.c:80 | The frame time is non-negative. It is the tick difference divided by 1000. |
| `Racket.RacketStep` | src/main.c:84-99 | With no key held, x is unchanged. With left held, x becomes `x - 5*dt` exactly when `(x - 5*dt)*30 > 50`, and otherwise stays x. With only right held, x becomes `x + 5*dt` exactly when `(x + 5*dt)*30 < 350`, and otherwise stays x. The paddle never moves against the key's direction for `dt >= 0`. A paddle inside (50, 350) stays inside. |
| `Racket.LeftHasPriority` | src/main.c:84-99 | When both keys are held, the step is that of left alone. The right branch never runs. |
| `Racket.RunFramesStaysInside` | src/main.c:79-99 | Over any sequence of frames, with any held keys and any tick readings (including the wrap of the 32-bit reading), a paddle that starts inside (50, 350) stays inside. |
| `Racket.RunFramesIdle` | src/main.c:84-99 | Over any sequence of frames in which no key is held, the paddle does not move. |
| `Racket.RacketClearsWalls` | src/main.c:143-157 | The side walls are centred at pixel x 10 and 390 with half-width 10, and the paddle has half-width 30 (line 188); the inner wall faces are derived from these. A paddle centre inside the limits keeps the whole paddle strictly clear of both faces. |
| `Racket.UnitRoundTrip` | src/main.c:12 | Dividing by `pixelsPerMeter` (pixels to metres, as world creation does) and multiplying by it (metres to pixels, as the racket guard and the draw callbacks do) are inverse to each other, for every value. |
| `Outline.PolygonOutline` | src/main.c:259-262 | For `vertexCount = n`, it draws exactly max(n, 0) segments. Segment i joins vertex i to vertex (i + 1) mod n. Every index used is in [0, n). Each segment starts where the previous one ends, and the last ends where the first starts. |
| `Outline.NextIndexWraps` | src/main.c:260 | The loop's `i + 1 == n ? 0 : i + 1` is the successor of i modulo n. |
| `Outline.PolygonVertexDegree` | src/main.c:259-262 | Every vertex v starts exactly one segment, the one with index v. It ends exactly one segment, the one just before v (cyclically). |
| `Outline.CircleOutline` | src/main.c:274-306 | It draws exactly 20 segments. Segment k runs from angle 18k to angle 18(k+1), except the last, which ends at 0. Each segment starts where the previous one ended. The first starts at 0 and the last ends at 0, so the chain closes. |
| `Outline.CircleOutlineAngles` | src/main.c:274-306 | Every angle used is a multiple of 18 in [0, 360). Every such multiple starts exactly one segment, so the outline goes once round the circle. |
| `Outline.CircleArcAngles` | src/main.c:276 | Both ends of each segment are whole steps of 360/20 degrees in [0, 360). |
| `Outline.StepAngleStartsArc` | src/main.c:292-306 | Each multiple of the step in [0, 360) is the start angle of segment number angle/18 and of no other segment. |

## Left out

- `initPhysicsWorld` (world, wall, block, ball and paddle creation) is a sequence of Box2D calls with literal constants. Only the paddle's start position and the wall and paddle extents are used, as constants.
- `b2World_Step`, `b2World_GetContactEvents`, the ball velocity read before the step, and the "collision" message are left out. They are physics inside Box2D, which is not part of this model, plus console output.
- SDL initialisation, the window and renderer, vertical sync, clear/present, the debug-draw setup and `SDL_AppQuit` are left out. This is platform plumbing. The initialisation failure paths (`SDL_APP_FAILURE`) are left out with it, so `AppResult` has only Continue and Success.
- `SDL_GetTicks` is external. Its reading, cut to the low 32 bits as src/main.c:79 stores it, is the parameter of `Session.GameSession.Iterate`.
- The paddle's transform lives inside Box2D. It is modelled as the session's `racketX`/`racketY`, on the assumption that only this code moves the kinematic paddle. The rotation reset to 0 on each move (`b2MakeRot(0)`) is not modelled: the paddle is never rotated.
- Racket.RacketStep: works over reals. It does not model single-precision rounding of `racketSpeed * dt`, `x * pixelsPerMeter`, or the conversion of a large tick difference to float.
- Outline.PolygonOutline: models only vertex indices. Colour extraction, `b2TransformPoint`, the pixel conversion of points and `SDL_RenderLine` are external calls on floats.
- Outline.CircleOutline: models only the angle sequence, in whole degrees. The float angles 0, 18, …, 360 are exact in single precision. The `cos`/`sin` evaluation, the radius, the transform and the drawing are left out.
