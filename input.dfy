/** The key-state machine of the game: the two "currently held" flags for the
    left and right arrow keys, and what one SDL event does to them.
    The event handler itself, which owns the flags, is Session.GameSession;
    this module holds the pure transition it is specified by, and what a
    whole stream of events leaves behind. */
module Input {

  /** SDL3 scancodes of the two arrow keys the game listens to. */
  const ScancodeRight: nat := 79
  const ScancodeLeft: nat := 80

  /** An SDL event as the game sees it: a quit request, a key going down or
      up (with its scancode), or any other event type. */
  datatype Event = Quit | KeyDown(scancode: nat) | KeyUp(scancode: nat) | OtherEvent

  /** What an SDL application callback tells the runtime: go on, or stop
      successfully. */
  datatype AppResult = Continue | Success

  /** The "currently held" state of the left and right arrow keys. */
  datatype Keys = Keys(left: bool, right: bool)

  const NoKeys := Keys(false, false)

  /** The flags after one event: a key-down of an arrow key sets its flag, a
      key-up clears it, and nothing else touches either flag. */
  function NextKeys(k: Keys, e: Event): (r: Keys)
    ensures r.left == (if e == KeyDown(ScancodeLeft) then true
                       else if e == KeyUp(ScancodeLeft) then false
                       else k.left)
    ensures r.right == (if e == KeyDown(ScancodeRight) then true
                        else if e == KeyUp(ScancodeRight) then false
                        else k.right)
  {
    match e
    case KeyDown(code) =>
      if code == ScancodeLeft then k.(left := true)
      else if code == ScancodeRight then k.(right := true)
      else k
    case KeyUp(code) =>
      if code == ScancodeLeft then k.(left := false)
      else if code == ScancodeRight then k.(right := false)
      else k
    case _ => k
  }

  /** The flags after a stream of events, applied oldest first. */
  function KeysAfter(k: Keys, es: seq<Event>): (r: Keys)
  {
    if es == [] then k else NextKeys(KeysAfter(k, es[..|es| - 1]), es[|es| - 1])
  }

  /** The flag that belongs to an arrow key. */
  function Flag(k: Keys, code: nat): (held: bool)
    requires code == ScancodeLeft || code == ScancodeRight
  {
    if code == ScancodeLeft then k.left else k.right
  }

  /** Whether e is a key-down or key-up of the key with this scancode. */
  predicate Touches(e: Event, code: nat)
  {
    e == KeyDown(code) || e == KeyUp(code)
  }

  /** No event of es at position from or later is a key event for code. */
  ghost predicate UntouchedFrom(code: nat, es: seq<Event>, from: nat)
  {
    forall j :: from <= j < |es| ==> !Touches(es[j], code)
  }

  /** Independent description of "held": the latest key event for code in es
      is a key-down, or there is none and the key was held to begin with. */
  ghost predicate HeldAfter(initial: bool, code: nat, es: seq<Event>)
  {
    (exists i :: 0 <= i < |es| && es[i] == KeyDown(code) && UntouchedFrom(code, es, i + 1))
    || (initial && UntouchedFrom(code, es, 0))
  }

  /** One event changes the flag of an arrow key exactly when it is a key
      event for that key. */
  lemma NextKeysFlag(k: Keys, e: Event, code: nat)
    requires code == ScancodeLeft || code == ScancodeRight
    ensures Flag(NextKeys(k, e), code) ==
              if e == KeyDown(code) then true
              else if e == KeyUp(code) then false
              else Flag(k, code)
  {
  }

  /** Replaying a stream of events leaves an arrow key's flag set exactly when
      the latest key event for it was a key-down (or, with no such event, when
      it was set to begin with). */
  lemma {:induction false} KeysAfterFlag(k: Keys, es: seq<Event>, code: nat)
    requires code == ScancodeLeft || code == ScancodeRight
    ensures Flag(KeysAfter(k, es), code) == HeldAfter(Flag(k, code), code, es)
  {
    if es == [] {
      assert UntouchedFrom(code, es, 0);
    } else {
      var n := |es| - 1;
      var init, e := es[..n], es[n];
      KeysAfterFlag(k, init, code);
      NextKeysFlag(KeysAfter(k, init), e, code);
      if e == KeyDown(code) {
        assert UntouchedFrom(code, es, n + 1);
      } else if e == KeyUp(code) {
        assert Touches(es[n], code);
        if HeldAfter(Flag(k, code), code, es) {
          var i :| 0 <= i < |es| && es[i] == KeyDown(code) && UntouchedFrom(code, es, i + 1);
          assert false;
        }
      } else {
        if HeldAfter(Flag(k, code), code, es) {
          if i :| 0 <= i < |es| && es[i] == KeyDown(code) && UntouchedFrom(code, es, i + 1) {
            assert i < n && init[i] == es[i];
            assert UntouchedFrom(code, init, i + 1) by {
              forall j | i + 1 <= j < |init| ensures !Touches(init[j], code) {
                assert init[j] == es[j];
              }
            }
          } else {
            assert UntouchedFrom(code, init, 0) by {
              forall j | 0 <= j < |init| ensures !Touches(init[j], code) {
                assert init[j] == es[j];
              }
            }
          }
          assert HeldAfter(Flag(k, code), code, init);
        }
        if HeldAfter(Flag(k, code), code, init) {
          if i :| 0 <= i < |init| && init[i] == KeyDown(code) && UntouchedFrom(code, init, i + 1) {
            assert es[i] == init[i];
            assert UntouchedFrom(code, es, i + 1) by {
              forall j | i + 1 <= j < |es| ensures !Touches(es[j], code) {
                if j < n { assert es[j] == init[j]; }
              }
            }
          } else {
            assert UntouchedFrom(code, es, 0) by {
              forall j | 0 <= j < |es| ensures !Touches(es[j], code) {
                if j < n { assert es[j] == init[j]; }
              }
            }
          }
        }
      }
    }
  }

  /** Both flags after a stream of events, as the latest key event for each
      arrow key says. */
  lemma KeysAfterHeld(k: Keys, es: seq<Event>)
    ensures KeysAfter(k, es).left == HeldAfter(k.left, ScancodeLeft, es)
    ensures KeysAfter(k, es).right == HeldAfter(k.right, ScancodeRight, es)
  {
    KeysAfterFlag(k, es, ScancodeLeft);
    KeysAfterFlag(k, es, ScancodeRight);
  }

  /** Events that are not arrow-key events leave both flags as they were,
      however many of them arrive. */
  lemma {:induction false} KeysAfterIgnoresOtherEvents(k: Keys, es: seq<Event>)
    requires forall i :: 0 <= i < |es| ==> !Touches(es[i], ScancodeLeft) && !Touches(es[i], ScancodeRight)
    ensures KeysAfter(k, es) == k
  {
    if es != [] {
      KeysAfterIgnoresOtherEvents(k, es[..|es| - 1]);
    }
  }
}
