/** The `App` component as an object: its three state variables and its timer
    handles are mutable fields, its helpers and callbacks are methods that
    update them step by step. Each method is proved to do exactly what the
    matching function of `Signal` says, and the public ones to keep
    `Signal.Valid`, so every lemma of `Properties` applies to the object. */
module App {
  import opened Lights
  import opened Signal
  import Properties

  class Controller {
    var now: int
    var activeLight: Color
    var activeWalk: bool
    var pedestrianWaiting: bool
    var mounted: bool
    /** the timer the cycle effect armed last (its cleanup cancels it) */
    var effectTimer: Option<EffectTimer>
    /** `walkTimerRef`, `blinkTimerRef`, `blinkIntervalRef` */
    var walkTimer: Option<int>
    var blinkTimer: Option<int>
    var blinkInterval: Option<int>

    /** The abstract value of the object. */
    function Snapshot(): State
      reads this
    {
      State(now, activeLight, activeWalk, pedestrianWaiting, mounted,
            effectTimer, walkTimer, blinkTimer, blinkInterval)
    }

    ghost predicate Valid()
      reads this
    {
      Signal.Valid(Snapshot())
    }

    /** Mounting: the initial state, then the first run of the cycle effect. */
    constructor ()
      ensures Snapshot() == Init() && Valid()
    {
      now := 0;
      activeLight := Red;
      activeWalk := false;
      pedestrianWaiting := false;
      mounted := true;
      effectTimer := None;
      walkTimer := None;
      blinkTimer := None;
      blinkInterval := None;
      new;
      RunEffect();
      Properties.InitIsNormalRed();
    }

    /** `clearAllTimers`: each role is cancelled only when it holds a timer. */
    method ClearAllTimers()
      modifies this
      ensures Snapshot() == Signal.ClearAllTimers(old(Snapshot()))
    {
      if walkTimer.Some? {
        walkTimer := None;
      }
      if blinkTimer.Some? {
        blinkTimer := None;
      }
      if blinkInterval.Some? {
        blinkInterval := None;
      }
    }

    /** `startWalking`: the walk timers are cancelled before new ones are armed. */
    method StartWalking()
      modifies this
      ensures Snapshot() == Signal.StartWalking(old(Snapshot()))
    {
      activeWalk := true;
      activeLight := Red;
      ClearAllTimers();
      walkTimer := Arm(walkTimer, now + WalkMs);
      blinkTimer := Arm(blinkTimer, now + BlinkDelayMs);
    }

    /** `startBlinking`: a running blink interval is cancelled before a new one is armed. */
    method StartBlinking()
      modifies this
      ensures Snapshot() == Signal.StartBlinking(old(Snapshot()))
    {
      if blinkInterval.Some? {
        blinkInterval := None;
      }
      blinkInterval := Arm(blinkInterval, now + BlinkPeriodMs);
    }

    /** The cycle effect: cleanup of the previous run, then its body. */
    method RunEffect()
      modifies this
      ensures Snapshot() == Signal.RunEffect(old(Snapshot()))
    {
      effectTimer := None;
      if pedestrianWaiting {
        if activeLight == Red {
          StartWalking();
        } else if activeLight == Yellow {
          effectTimer := Arm(effectTimer, EffectTimer(now + Duration(Yellow), WalkAfterYellow));
        } else {
          effectTimer := Arm(effectTimer, EffectTimer(now + Duration(Green), YellowAfterGreen));
        }
      } else {
        effectTimer := Arm(effectTimer, EffectTimer(now + Duration(activeLight), Cycle));
      }
    }

    /** Re-runs the cycle effect when a dependency differs from the value it had
        before the step (`light0`, `waiting0`). */
    method Settle(light0: Color, waiting0: bool)
      modifies this
      ensures Snapshot() == Signal.Settle(old(Snapshot()).(light := light0, waiting := waiting0), old(Snapshot()))
    {
      if activeLight != light0 || pedestrianWaiting != waiting0 {
        RunEffect();
      }
    }

    /** The button's `onClick`. */
    method Press()
      requires Valid()
      modifies this
      ensures Snapshot() == Signal.Press(old(Snapshot())) && Valid()
    {
      Properties.PressKeepsValid(Snapshot());
      if mounted && !pedestrianWaiting {
        var light0, waiting0 := activeLight, pedestrianWaiting;
        pedestrianWaiting := true;
        Settle(light0, waiting0);
      }
    }

    /** Runs the callback of the timer in role `r`, which is due. */
    method Fire(r: Role)
      requires Valid() && Due(Snapshot(), r)
      modifies this
      ensures Snapshot() == Signal.Fire(old(Snapshot()), r) && Valid()
    {
      Properties.FireKeepsValid(Snapshot(), r);
      var light0, waiting0 := activeLight, pedestrianWaiting;
      match r {
        case EffectRole =>
          var timer := effectTimer.value;
          now := timer.at;
          match timer.action {
            case Cycle =>
              // the interval re-arms itself, then the updater advances the light
              effectTimer := Some(EffectTimer(now + Duration(activeLight), Cycle));
              activeLight := Next(activeLight);
            case WalkAfterYellow =>
              effectTimer := None;
              StartWalking();
            case YellowAfterGreen =>
              effectTimer := None;
              activeLight := Yellow;
          }
        case WalkEndRole =>
          now := walkTimer.value;
          walkTimer := None;
          activeWalk := false;
          pedestrianWaiting := false;
          activeLight := Green;
          if blinkInterval.Some? {
            blinkInterval := None;
          }
        case BlinkStartRole =>
          now := blinkTimer.value;
          blinkTimer := None;
          StartBlinking();
        case BlinkTickRole =>
          now := blinkInterval.value;
          blinkInterval := Some(now + BlinkPeriodMs);
          activeWalk := !activeWalk;
      }
      Settle(light0, waiting0);
    }

    /** One turn of the event loop: runs the earliest live timer, if any. */
    method FireEarliest() returns (fired: bool)
      requires Valid()
      modifies this
      ensures fired <==> !NoTimers(old(Snapshot()))
      ensures Valid()
      ensures var e := EarliestRole(old(Snapshot()));
        if e.Some? then Snapshot() == Signal.Fire(old(Snapshot()), e.value) else Snapshot() == old(Snapshot())
    {
      var e := EarliestRole(Snapshot());
      fired := e.Some?;
      if fired {
        Fire(e.value);
      }
    }

    /** The clock moves to `t`, which no live timer precedes. */
    method AdvanceTo(t: int)
      requires Valid() && now <= t && QuietUntil(Snapshot(), t)
      modifies this
      ensures Snapshot() == Signal.AdvanceTo(old(Snapshot()), t) && Valid()
    {
      Properties.AdvanceKeepsValid(Snapshot(), t);
      now := t;
    }

    /** Unmounting: the cycle effect's cleanup, then `clearAllTimers`. */
    method Unmount()
      modifies this
      ensures Snapshot() == Signal.Unmount(old(Snapshot())) && Valid()
    {
      Properties.UnmountKeepsValid(Snapshot());
      mounted := false;
      if effectTimer.Some? {
        effectTimer := None;
      }
      ClearAllTimers();
    }
  }
}
