/** What the controller promises: every step keeps the reachable-state
    invariant, normal cycling dwells exactly one duration per colour, a press
    reaches the walk phase after exactly the documented delay, the walk phase
    keeps the light red and blinks on a fixed timeline, repeated presses are
    no-ops, and nothing happens after unmounting. */
module Properties {
  import opened Lights
  import opened Signal

  // ---------------------------------------------------------------------------
  // The invariant holds initially and is kept by every step

  lemma InitIsNormalRed()
    ensures Valid(Init()) && Init().mounted && Normal(Init())
    ensures Init().light == Red && Init().now == 0
    ensures Init().effect == Some(EffectTimer(Duration(Red), Cycle))
  {
  }

  lemma {:induction false} PressKeepsValid(s: State)
    requires Valid(s)
    ensures Valid(Press(s)) && Press(s).now == s.now
  {
    if s.mounted && !s.waiting {
      assert Normal(s);
    }
  }

  lemma AdvanceKeepsValid(s: State, t: int)
    requires Valid(s) && s.now <= t && QuietUntil(s, t)
    ensures Valid(AdvanceTo(s, t))
  {
    var a := AdvanceTo(s, t);
    forall r ensures Deadline(a, r) == Deadline(s, r) { }
    if a.mounted && Walking(s) && s.blinkTick.Some? {
      var blinkFrom := s.walkEnd.value - WalkMs + BlinkDelayMs;
      assert BlinkOk(s.blinkTick.value - blinkFrom, t - blinkFrom, a.walk);
    }
  }

  lemma UnmountKeepsValid(s: State)
    ensures Valid(Unmount(s)) && NoTimers(Unmount(s)) && !Unmount(s).mounted
  {
  }

  /** Firing the earliest timer keeps the invariant and never moves the clock back. */
  lemma {:induction false} FireKeepsValid(s: State, r: Role)
    requires Valid(s) && Due(s, r)
    ensures Valid(Fire(s, r)) && s.now <= Fire(s, r).now
  {
    assert s.mounted;
    if Normal(s) {
      CycleStep(s);
    } else if Pending(s) {
      PendingStep(s);
    } else {
      WalkStep(s, r);
    }
  }

  // ---------------------------------------------------------------------------
  // Normal cycling

  /** In normal mode the cycle timer is the only live timer; firing it shows
      the next colour and arms the new colour's full duration from that
      moment, so each colour stays lit exactly `Duration` ms. */
  lemma CycleStep(s: State)
    requires Valid(s) && s.mounted && Normal(s)
    ensures Due(s, EffectRole) && forall r :: Due(s, r) ==> r == EffectRole
    ensures var f := Fire(s, EffectRole);
      Valid(f) && f.mounted && Normal(f) &&
      f.light == Next(s.light) && f.now == s.effect.value.at &&
      f.effect.value.at == f.now + Duration(f.light)
  {
    assert Deadline(s, EffectRole) == Some(s.effect.value.at);
  }

  /** n firings of the cycle timer in normal mode. */
  function FireCycles(s: State, n: nat): (f: State)
    requires Valid(s) && s.mounted && Normal(s)
    ensures Valid(f) && f.mounted && Normal(f)
    ensures f.light == NextN(s.light, n)
    ensures f.effect.value.at == s.effect.value.at + Dwell(s.light, n)
    decreases n
  {
    if n == 0 then s
    else
      CycleStep(s);
      FireCycles(Fire(s, EffectRole), n - 1)
  }

  /** Starting from any normal state, every 3 firings the light is back to its
      colour, and each full loop takes `CycleMs` = red + green + yellow. */
  lemma {:induction false} LoopsReturnToColour(s: State, n: nat)
    requires Valid(s) && s.mounted && Normal(s)
    ensures FireCycles(s, 3 * n).light == s.light
    ensures FireCycles(s, 3 * n).effect.value.at == s.effect.value.at + n * CycleMs
  {
    ThreeStepsTakeOneLoop(s.light, n);
  }

  // ---------------------------------------------------------------------------
  // Pressing the button

  /** A press only sets `waiting`; while already waiting (pending or walking)
      it changes nothing at all. */
  lemma PressWhileWaitingIsNoOp(s: State)
    requires s.waiting
    ensures Press(s) == s
  {
  }

  lemma PressIdempotent(s: State)
    ensures Press(Press(s)) == Press(s)
    ensures s.mounted ==> Press(s).waiting
  {
  }

  function Presses(s: State, n: nat): State
    decreases n
  {
    if n == 0 then s else Presses(Press(s), n - 1)
  }

  /** Any number N >= 1 of presses at one instant equals one press. */
  lemma {:induction false} PressesEqualOne(s: State, n: nat)
    requires n >= 1
    ensures Presses(s, n) == Press(s)
    decreases n
  {
    if n > 1 {
      PressesEqualOne(Press(s), n - 1);
      PressIdempotent(s);
    }
  }

  /** On red, the walk starts in the press's own step. */
  lemma PressOnRedWalksAtOnce(s: State)
    requires Valid(s) && s.mounted && Normal(s) && s.light == Red
    ensures var p := Press(s);
      Valid(p) && Walking(p) && p.now == s.now &&
      p.light == Red && p.walk && p.waiting && p.effect.None? &&
      p.walkEnd == Some(s.now + WalkMs) && p.blinkStart == Some(s.now + BlinkDelayMs) &&
      p.blinkTick.None?
  {
    PressKeepsValid(s);
  }

  /** The walk entry after a pending yellow timeout: `startWalking` runs in the
      callback and once more when the effect sees the light turn red; the
      second call cancels and re-arms the first call's timers at the same
      deadlines, so the result is that of a single call. */
  lemma PendingYellowExpiryWalksOnce(s: State)
    requires Valid(s) && s.mounted && Pending(s) && s.light == Yellow
    ensures Due(s, EffectRole)
    ensures Fire(s, EffectRole) == StartWalking(s.(now := s.effect.value.at, effect := None))
  {
    assert Deadline(s, EffectRole) == Some(s.effect.value.at);
  }

  /** The second call finds the first call's walk end and blink start live;
      it can arm its own (`Arm` needs an empty slot) only because its
      `clearAllTimers` cancels them first, and it arms them at the same
      deadlines, so two calls at one instant equal one. */
  lemma StartWalkingTwiceIsOnce(s: State)
    ensures StartWalking(s).walkEnd.Some? && StartWalking(s).blinkStart.Some?
    ensures StartWalking(StartWalking(s)) == StartWalking(s)
  {
  }

  /** In the pending state only the pending timeout is live. Firing it turns a
      green light yellow with a full yellow duration armed, and starts the walk
      on a yellow one. */
  lemma PendingStep(s: State)
    requires Valid(s) && s.mounted && Pending(s)
    ensures Due(s, EffectRole) && forall r :: Due(s, r) ==> r == EffectRole
    ensures var f := Fire(s, EffectRole);
      Valid(f) && f.mounted && f.now == s.effect.value.at &&
      (s.light == Green ==>
         Pending(f) && f.light == Yellow &&
         f.effect == Some(EffectTimer(f.now + Duration(Yellow), WalkAfterYellow))) &&
      (s.light == Yellow ==>
         Walking(f) && f.light == Red && f.walk && f.effect.None? &&
         f.walkEnd == Some(f.now + WalkMs) && f.blinkStart == Some(f.now + BlinkDelayMs) &&
         f.blinkTick.None?)
  {
    assert Deadline(s, EffectRole) == Some(s.effect.value.at);
  }

  /** A press on yellow cancels the cycle timer and arms a fresh yellow duration
      from the press; the walk starts when it runs out. */
  lemma PressOnYellowWalksAfterYellow(s: State)
    requires Valid(s) && s.mounted && Normal(s) && s.light == Yellow
    ensures var p := Press(s);
      Valid(p) && Pending(p) && p.light == Yellow && p.now == s.now &&
      p.effect == Some(EffectTimer(s.now + Duration(Yellow), WalkAfterYellow)) &&
      var f := Fire(p, EffectRole);
      Walking(f) && f.light == Red && f.walk &&
      f.now == s.now + Duration(Yellow) &&
      f.walkEnd == Some(f.now + WalkMs) && f.blinkStart == Some(f.now + BlinkDelayMs)
  {
    var p := Press(s);
    PressKeepsValid(s);
    PendingStep(p);
  }

  /** A press on green arms a fresh green duration from the press; the light
      then turns yellow for a full yellow duration, and the walk starts
      `Duration(Green) + Duration(Yellow)` after the press. */
  lemma PressOnGreenWalksAfterGreenAndYellow(s: State)
    requires Valid(s) && s.mounted && Normal(s) && s.light == Green
    ensures var p := Press(s);
      Valid(p) && Pending(p) && p.light == Green && p.now == s.now &&
      p.effect == Some(EffectTimer(s.now + Duration(Green), YellowAfterGreen)) &&
      var y := Fire(p, EffectRole);
      Valid(y) && Pending(y) && y.light == Yellow && y.now == s.now + Duration(Green) &&
      var f := Fire(y, EffectRole);
      Walking(f) && f.light == Red && f.walk &&
      f.now == s.now + Duration(Green) + Duration(Yellow) &&
      f.walkEnd == Some(f.now + WalkMs) && f.blinkStart == Some(f.now + BlinkDelayMs)
  {
    var p := Press(s);
    PressKeepsValid(s);
    PendingStep(p);
    PendingStep(Fire(p, EffectRole));
  }

  // ---------------------------------------------------------------------------
  // The walk phase

  /** One step of the walk phase. The light stays red and the walk end keeps
      its deadline until it fires; the blink start leaves the indicator as it
      is and starts the 500 ms interval; each tick toggles the indicator and
      re-arms one period later; the walk end turns walk off, clears the
      request and the blink interval, and resumes cycling from green with a
      full green duration. A press changes nothing. */
  lemma {:induction false} WalkStep(s: State, r: Role)
    requires Valid(s) && s.mounted && Walking(s) && Due(s, r)
    ensures Press(s) == s
    ensures var f := Fire(s, r);
      Valid(f) && f.mounted && f.now == Deadline(s, r).value &&
      (r == WalkEndRole ==>
         Normal(f) && f.light == Green && !f.walk && !f.waiting &&
         f.effect == Some(EffectTimer(f.now + Duration(Green), Cycle))) &&
      (r == BlinkStartRole ==>
         Walking(f) && f.walkEnd == s.walkEnd && f.walk == s.walk &&
         f.blinkTick == Some(f.now + BlinkPeriodMs)) &&
      (r == BlinkTickRole ==>
         Walking(f) && f.walkEnd == s.walkEnd && f.walk == !s.walk &&
         f.blinkTick == Some(f.now + BlinkPeriodMs))
  {
    match r
    case EffectRole =>
      assert false;
    case WalkEndRole =>
      WalkEndStep(s);
    case BlinkStartRole =>
      BlinkStartStep(s);
    case BlinkTickRole =>
      BlinkTickStep(s);
  }

  lemma WalkEndStep(s: State)
    requires Valid(s) && s.mounted && Walking(s) && Due(s, WalkEndRole)
    ensures var f := Fire(s, WalkEndRole);
      Valid(f) && f.mounted && f.now == s.walkEnd.value &&
      Normal(f) && f.light == Green && !f.walk && !f.waiting &&
      f.effect == Some(EffectTimer(f.now + Duration(Green), Cycle))
  {
    var w := s.walkEnd.value;
    assert Deadline(s, BlinkStartRole) != Some(w - WalkMs + BlinkDelayMs);
    assert s.blinkStart.None?;
    var f := Fire(s, WalkEndRole);
    assert f == s.(now := w, walkEnd := None, walk := false, waiting := false, light := Green,
                   blinkTick := None, effect := Some(EffectTimer(w + Duration(Green), Cycle)));
  }

  lemma BlinkStartStep(s: State)
    requires Valid(s) && s.mounted && Walking(s) && Due(s, BlinkStartRole)
    ensures var f := Fire(s, BlinkStartRole);
      Valid(f) && f.mounted && f.now == s.blinkStart.value &&
      Walking(f) && f.walkEnd == s.walkEnd && f.walk == s.walk &&
      f.blinkTick == Some(f.now + BlinkPeriodMs)
  {
    var blinkFrom := s.walkEnd.value - WalkMs + BlinkDelayMs;
    assert s.blinkStart == Some(blinkFrom) && s.walk;
    var f := Fire(s, BlinkStartRole);
    assert f == s.(now := blinkFrom, blinkStart := None, blinkTick := Some(blinkFrom + BlinkPeriodMs));
    assert BlinkOk(BlinkPeriodMs, 0, s.walk);
    assert Walking(f);
    forall r' | Deadline(f, r').Some? ensures f.now <= Deadline(f, r').value {
      assert r' == WalkEndRole || r' == BlinkTickRole;
    }
  }

  lemma BlinkTickStep(s: State)
    requires Valid(s) && s.mounted && Walking(s) && Due(s, BlinkTickRole)
    ensures var f := Fire(s, BlinkTickRole);
      Valid(f) && f.mounted && f.now == s.blinkTick.value &&
      Walking(f) && f.walkEnd == s.walkEnd && f.walk == !s.walk &&
      f.blinkTick == Some(f.now + BlinkPeriodMs)
  {
    var w := s.walkEnd.value;
    var blinkFrom := w - WalkMs + BlinkDelayMs;
    var k := s.blinkTick.value - blinkFrom;
    assert s.blinkTick.value <= w by { assert Deadline(s, WalkEndRole) == Some(w); }
    assert (k + BlinkPeriodMs) / BlinkPeriodMs == k / BlinkPeriodMs + 1;
    assert BlinkOk(k + BlinkPeriodMs, k, !s.walk);
    var f := Fire(s, BlinkTickRole);
    assert f == s.(now := s.blinkTick.value, blinkTick := Some(s.blinkTick.value + BlinkPeriodMs), walk := !s.walk);
  }

  /** A blink tick due together with the walk end is the 10th: nine toggles
      have left the indicator off, the 10th would light it again. Either
      firing order ends in the same state, with the walk indicator off. */
  lemma TieAtWalkEndEitherOrder(s: State)
    requires Valid(s) && s.mounted && Walking(s)
    requires Due(s, WalkEndRole) && Due(s, BlinkTickRole)
    ensures s.blinkTick.value - (s.walkEnd.value - WalkMs + BlinkDelayMs) == 10 * BlinkPeriodMs
    ensures !s.walk && Fire(s, BlinkTickRole).walk
    ensures Due(Fire(s, BlinkTickRole), WalkEndRole)
    ensures Fire(Fire(s, BlinkTickRole), WalkEndRole) == Fire(s, WalkEndRole)
    ensures !Fire(s, WalkEndRole).walk
  {
    var t := Fire(s, BlinkTickRole);
    assert Deadline(t, WalkEndRole) == s.walkEnd;
    assert Deadline(t, BlinkTickRole) == Some(s.walkEnd.value + BlinkPeriodMs);
  }

  /** The walk indicator as the walk timeline promises it, `e` ms after the walk
      started: lit for the first `BlinkDelayMs` ms and one more period, then
      toggling every `BlinkPeriodMs` ms. */
  function LitAt(e: int): bool
  {
    e < BlinkDelayMs + BlinkPeriodMs || ((e - BlinkDelayMs) / BlinkPeriodMs) % 2 == 0
  }

  /** Between events of the walk phase that started at `walkEnd - WalkMs`, the
      light is red and the indicator shows exactly `LitAt(elapsed)`, and the
      clock has not passed the walk end. */
  lemma IndicatorFollowsTimeline(s: State)
    requires Valid(s) && s.mounted && Walking(s)
    requires forall r :: Deadline(s, r).Some? ==> s.now < Deadline(s, r).value
    ensures var start := s.walkEnd.value - WalkMs;
      s.light == Red && start <= s.now < start + WalkMs &&
      s.walk == LitAt(s.now - start)
  {
    var w := s.walkEnd.value;
    var blinkFrom := w - WalkMs + BlinkDelayMs;
    assert Deadline(s, WalkEndRole) == Some(w);
    if s.blinkStart.Some? {
      assert Deadline(s, BlinkStartRole) == Some(blinkFrom);
    } else {
      var k := s.blinkTick.value - blinkFrom;
      var e := s.now - blinkFrom;
      assert Deadline(s, BlinkTickRole) == Some(s.blinkTick.value);
      assert k - BlinkPeriodMs <= e < k;
      var j := k / BlinkPeriodMs;
      assert k == BlinkPeriodMs * j;
      assert e / BlinkPeriodMs == j - 1;
    }
  }

  /** From mounting: red for 5000 ms, then green; a press at that moment turns
      the light yellow at 8000 and starts the walk at 11000, which is to end
      at 26000 with the blink starting at 21000. */
  lemma MountThenPressOnGreen()
    ensures var g := Fire(Init(), EffectRole);
      g.light == Green && g.now == 5000 &&
      var y := Fire(Press(g), EffectRole);
      y.light == Yellow && y.now == 8000 &&
      var w := Fire(y, EffectRole);
      Walking(w) && w.walk && w.now == 11000 &&
      w.walkEnd == Some(26000) && w.blinkStart == Some(21000)
  {
    InitIsNormalRed();
    CycleStep(Init());
    PressOnGreenWalksAfterGreenAndYellow(Fire(Init(), EffectRole));
  }

  // ---------------------------------------------------------------------------
  // Teardown

  /** Unmounting cancels every role, also when some roles hold no timer; after
      it no timer can fire, a press changes nothing, and the clock may advance
      arbitrarily far without any other change. */
  lemma UnmountStopsEverything(s: State, t: int)
    requires Unmount(s).now <= t
    ensures var u := Unmount(s);
      NoTimers(u) && (forall r :: !Due(u, r)) &&
      Unmount(u) == u && Press(u) == u &&
      QuietUntil(u, t) && AdvanceTo(u, t) == u.(now := t)
  {
  }
}
