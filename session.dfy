/** The state the game's SDL callbacks share: the two key flags, the low 32
    bits of the tick count read at the previous frame, and the paddle's position.
    The event callback updates the flags; the frame callback reads the
    counter, moves the paddle and remembers the counter value. The paddle's
    position stands for the transform the physics engine keeps for the
    kinematic paddle body, which only this code writes. */
module Session {
  import opened Input
  import opened Racket

  class GameSession {
    var keyLeft: bool
    var keyRight: bool
    var lastTickTime: Tick
    /** Paddle centre, in metres. */
    var racketX: real
    var racketY: real

    /** The paddle is inside the arena's limits. */
    ghost predicate Valid()
      reads this
    {
      InsideArena(racketX)
    }

    /** The key flags as a value. */
    function HeldKeys(): Keys
      reads this
    {
      Keys(keyLeft, keyRight)
    }

    /** A fresh session: no key held, counter at zero, paddle at its start
        position near the bottom centre of the arena. */
    constructor ()
      ensures Valid()
      ensures HeldKeys() == NoKeys && lastTickTime == 0
      ensures racketX == ToMeters(StartPixelX) && racketY == ToMeters(StartPixelY)
    {
      keyLeft, keyRight := false, false;
      lastTickTime := 0;
      racketX := StartPixelX / PixelsPerMeter;
      racketY := StartPixelY / PixelsPerMeter;
    }

    /** The event callback. A quit event ends the application successfully;
        an arrow key going down or up sets or clears its flag; every other
        event is ignored. Only the key flags can change. */
    method HandleEvent(e: Event) returns (r: AppResult)
      requires Valid()
      modifies this`keyLeft, this`keyRight
      ensures Valid()
      ensures e == Quit ==> r == Success && HeldKeys() == old(HeldKeys())
      ensures e != Quit ==> r == Continue
      ensures HeldKeys() == NextKeys(old(HeldKeys()), e)
    {
      if e.Quit? {
        return Success;
      } else if e.KeyDown? {
        if e.scancode == ScancodeLeft {
          keyLeft := true;
        } else if e.scancode == ScancodeRight {
          keyRight := true;
        }
      } else if e.KeyUp? {
        if e.scancode == ScancodeLeft {
          keyLeft := false;
        } else if e.scancode == ScancodeRight {
          keyRight := false;
        }
      }
      return Continue;
    }

    /** The racket-control part of the frame callback, given the value the
        millisecond tick count reads now, cut to its low 32 bits as the
        frame callback stores it. The elapsed time is the wrapping
        difference from the previous reading, which is then replaced; the
        paddle takes one guarded step; y and the key flags are unchanged,
        and the paddle stays inside the arena. */
    method Iterate(currentTickTime: Tick) returns (r: AppResult)
      requires Valid()
      modifies this`lastTickTime, this`racketX
      ensures Valid()
      ensures r == Continue
      ensures lastTickTime == currentTickTime
      ensures racketX == RacketStep(HeldKeys(), old(racketX),
                                    DeltaSeconds(currentTickTime, old(lastTickTime)))
    {
      var elapsed: Tick := (currentTickTime - lastTickTime) % TickModulus;
      var deltaTime := elapsed as real / 1000.0;
      lastTickTime := currentTickTime;

      if keyLeft {
        var x := racketX;
        x := x - RacketSpeed * deltaTime;
        if x * PixelsPerMeter > LeftLimit {
          racketX := x;
        }
      } else if keyRight {
        var x := racketX;
        x := x + RacketSpeed * deltaTime;
        if x * PixelsPerMeter < RightLimit {
          racketX := x;
        }
      }
      return Continue;
    }
  }
}
