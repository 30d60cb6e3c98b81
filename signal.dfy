/** The pedestrian-interruptible controller of the `App` component as a pure
    state machine over a virtual millisecond clock.

    The component's React state (`activeLight`, `activeWalk`,
    `pedestrianWaiting`) and its four timer handles become fields of `State`.
    A timer is a deadline on the virtual clock; `None` means that no timer of
    that role is live. Every callback and every press is one step: its body
    runs, and then, if `activeLight` or `pedestrianWaiting` changed, the
    cycle effect re-runs (`Settle`): its cleanup cancels the effect timer and
    its body arms the one the new state selects. */
module Signal {
  import opened Lights

  /** Walk phase length, delay of the blink start, and blink period. */
  const WalkMs: nat := 15000
  const BlinkDelayMs: nat := 10000
  const BlinkPeriodMs: nat := 500

  datatype Option<T> = None | Some(value: T)

  /** What the effect timer does when it fires: the normal cycling interval,
      the pending yellow timeout that starts the walk, or the pending green
      timeout that turns the light yellow. */
  datatype EffectAction = Cycle | WalkAfterYellow | YellowAfterGreen

  datatype EffectTimer = EffectTimer(at: int, action: EffectAction)

  /** The four timer roles: the effect's timer, `walkTimerRef`,
      `blinkTimerRef` and `blinkIntervalRef`. */
  datatype Role = EffectRole | WalkEndRole | BlinkStartRole | BlinkTickRole

  datatype State = State(
    now: int,
    light: Color,
    walk: bool,
    waiting: bool,
    mounted: bool,
    effect: Option<EffectTimer>,
    walkEnd: Option<int>,
    blinkStart: Option<int>,
    blinkTick: Option<int>)

  /** The deadline of the live timer in role `r`, if any. */
  function Deadline(s: State, r: Role): Option<int>
  {
    match r
    case EffectRole => if s.effect.Some? then Some(s.effect.value.at) else None
    case WalkEndRole => s.walkEnd
    case BlinkStartRole => s.blinkStart
    case BlinkTickRole => s.blinkTick
  }

  /** The timer in role `r` is live and no live timer is due earlier: the event
      loop may run its callback next. Ties are left open. */
  predicate Due(s: State, r: Role)
  {
    Deadline(s, r).Some? &&
    forall r' :: Deadline(s, r').Some? ==> Deadline(s, r).value <= Deadline(s, r').value
  }

  /** No live timer is due before time `t`. */
  predicate QuietUntil(s: State, t: int)
  {
    forall r :: Deadline(s, r).Some? ==> t <= Deadline(s, r).value
  }

  predicate NoTimers(s: State)
  {
    s.effect.None? && s.walkEnd.None? && s.blinkStart.None? && s.blinkTick.None?
  }

  // ---------------------------------------------------------------------------
  // The component's helpers

  /** `clearAllTimers`: cancels the walk-end, blink-start and blink-interval
      timers; a role with no live timer is left as it is. */
  function ClearAllTimers(s: State): (r: State)
    ensures r.walkEnd.None? && r.blinkStart.None? && r.blinkTick.None?
    ensures r == s.(walkEnd := r.walkEnd, blinkStart := r.blinkStart, blinkTick := r.blinkTick)
  {
    s.(walkEnd := None, blinkStart := None, blinkTick := None)
  }

  /** Storing the handle of a new `setTimeout` or `setInterval` in its ref.
      The slot must be empty: the timer it held was cancelled or has fired,
      so a live timer is never lost by overwriting its handle and each role
      holds at most one live timer. */
  function Arm<T>(slot: Option<T>, timer: T): Option<T>
    requires slot.None?
  {
    Some(timer)
  }

  /** `startWalking`: walk on, light red, stale walk timers cancelled, walk end
      armed `WalkMs` and blink start `BlinkDelayMs` from now. */
  function StartWalking(s: State): State
  {
    var t := ClearAllTimers(s.(walk := true, light := Red));
    t.(walkEnd := Arm(t.walkEnd, s.now + WalkMs), blinkStart := Arm(t.blinkStart, s.now + BlinkDelayMs))
  }

  /** `startBlinking`: cancels any previous blink interval and arms a new one
      whose first tick is one period from now. */
  function StartBlinking(s: State): State
  {
    var c := s.(blinkTick := None);
    c.(blinkTick := Arm(c.blinkTick, s.now + BlinkPeriodMs))
  }

  /** The timer the cycle effect arms for a pending request on a non-red light. */
  function PendingAction(c: Color): EffectAction
  {
    match c
    case Red => Cycle
    case Yellow => WalkAfterYellow
    case Green => YellowAfterGreen
  }

  /** One run of the cycle effect: the cleanup of the previous run cancels the
      effect timer, then the body arms the timer the state selects (or, for a
      pending request on red, starts walking at once). */
  function RunEffect(s: State): State
  {
    var c := s.(effect := None);
    if c.waiting then
      match c.light
      case Red => StartWalking(c)
      case Yellow => c.(effect := Arm(c.effect, EffectTimer(c.now + Duration(Yellow), WalkAfterYellow)))
      case Green => c.(effect := Arm(c.effect, EffectTimer(c.now + Duration(Green), YellowAfterGreen)))
    else
      c.(effect := Arm(c.effect, EffectTimer(c.now + Duration(c.light), Cycle)))
  }

  /** After a step, the effect re-runs exactly when one of its dependencies
      (`pedestrianWaiting`, `activeLight`) changed. */
  function Settle(before: State, after: State): State
  {
    if after.light != before.light || after.waiting != before.waiting then RunEffect(after) else after
  }

  // ---------------------------------------------------------------------------
  // Operations

  /** The mounted component at time 0: red, walk off, nobody waiting, and the
      first run of the effect has armed the red interval. */
  function Init(): State
  {
    RunEffect(State(0, Red, false, false, true, None, None, None, None))
  }

  /** The pedestrian button: sets `pedestrianWaiting`. Setting it to the value it
      already has re-runs nothing; an unmounted component ignores it. */
  function Press(s: State): State
  {
    if !s.mounted || s.waiting then s else Settle(s, s.(waiting := true))
  }

  /** The clock moves to `t` without any timer firing. */
  function AdvanceTo(s: State, t: int): State
    requires s.now <= t && QuietUntil(s, t)
  {
    s.(now := t)
  }

  /** The callback of the timer in role `r` runs at its deadline. */
  function Fire(s: State, r: Role): State
    requires Due(s, r)
  {
    var at := Deadline(s, r).value;
    match r
    case EffectRole =>
      var t := s.(now := at);
      (match s.effect.value.action
       case Cycle =>
         // the interval re-arms itself one period later, then the light advances
         Settle(s, t.(effect := Some(EffectTimer(at + Duration(s.light), Cycle)), light := Next(s.light)))
       case WalkAfterYellow =>
         Settle(s, StartWalking(t.(effect := None)))
       case YellowAfterGreen =>
         Settle(s, t.(effect := None, light := Yellow)))
    case WalkEndRole =>
      var t := s.(now := at, walkEnd := None);
      Settle(s, t.(walk := false, waiting := false, light := Green, blinkTick := None))
    case BlinkStartRole =>
      Settle(s, StartBlinking(s.(now := at, blinkStart := None)))
    case BlinkTickRole =>
      Settle(s, s.(now := at, blinkTick := Some(at + BlinkPeriodMs), walk := !s.walk))
  }

  /** Unmounting: the effect cleanup cancels the effect timer and the unmount
      effect's cleanup runs `clearAllTimers`. */
  function Unmount(s: State): State
  {
    ClearAllTimers(s.(mounted := false, effect := None))
  }

  /** A live timer whose deadline is earliest, preferring the roles in
      declaration order when two are due at the same instant. */
  function EarliestRole(s: State): (r: Option<Role>)
    ensures r.Some? ==> Due(s, r.value)
    ensures r.None? <==> NoTimers(s)
  {
    if NoTimers(s) then None
    else Some(Earlier(s, Earlier(s, EffectRole, WalkEndRole), Earlier(s, BlinkStartRole, BlinkTickRole)))
  }

  /** Of roles `a` and `b`, one with a live timer if either has one, and then
      the one whose deadline comes first (`a` on a tie). */
  function Earlier(s: State, a: Role, b: Role): Role
  {
    if Deadline(s, a).None? then b
    else if Deadline(s, b).None? then a
    else if Deadline(s, a).value <= Deadline(s, b).value then a
    else b
  }

  // ---------------------------------------------------------------------------
  // The invariant of every reachable state

  /** Free cycling: nobody waiting, walk off, only the cycle interval live. */
  predicate Normal(s: State)
  {
    !s.waiting && !s.walk &&
    s.effect.Some? && s.effect.value.action == Cycle &&
    s.walkEnd.None? && s.blinkStart.None? && s.blinkTick.None?
  }

  /** A request waits for a yellow or green light to run out: only the pending
      timeout for that colour is live. */
  predicate Pending(s: State)
  {
    s.waiting && !s.walk && s.light != Red &&
    s.effect.Some? && s.effect.value.action == PendingAction(s.light) &&
    s.walkEnd.None? && s.blinkStart.None? && s.blinkTick.None?
  }

  /** The walk phase: light red, no effect timer, the walk end live and at
      most `WalkMs` away, and either
      the blink start still to come (walk lit) or the blink interval running,
      its next tick `k` on the 500 ms grid of the blink window and the walk
      indicator lit exactly when an even number of ticks have fired. */
  predicate Walking(s: State)
  {
    s.waiting && s.light == Red && s.effect.None? && s.walkEnd.Some? &&
    var w := s.walkEnd.value;
    w - WalkMs <= s.now &&
    var blinkFrom := w - WalkMs + BlinkDelayMs;
    ((s.blinkStart == Some(blinkFrom) && s.blinkTick.None? && s.walk) ||
     (s.blinkStart.None? && s.blinkTick.Some? && BlinkOk(s.blinkTick.value - blinkFrom, s.now - blinkFrom, s.walk)))
  }

  /** `k` is the offset of the next tick from the blink start, `e` the offset
      of the clock from it. */
  predicate BlinkOk(k: int, e: int, walk: bool)
  {
    BlinkPeriodMs <= k <= WalkMs - BlinkDelayMs + BlinkPeriodMs &&
    k % BlinkPeriodMs == 0 &&
    k - BlinkPeriodMs <= e &&
    walk == ((k / BlinkPeriodMs) % 2 == 1)
  }

  predicate Valid(s: State)
  {
    (forall r :: Deadline(s, r).Some? ==> s.now <= Deadline(s, r).value) &&
    if s.mounted then Normal(s) || Pending(s) || Walking(s) else NoTimers(s)
  }
}
