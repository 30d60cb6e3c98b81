# Traffic light with pedestrian button — a Dafny model

This project models the controller inside the `App` component of a React
traffic-light demo: a light that cycles red → green → yellow → red, a
pedestrian button that interrupts the cycle to give a 15-second walk phase
(blinking during its last 5 seconds), and the timers that drive all of it.

The model has four modules:

- `Lights` (`lights.dfy`): the component's `lights` table (successor and
  duration per colour), with the 3-cycle and loop-length facts.
- `Signal` (`signal.dfy`): the controller as a pure state machine over a
  virtual millisecond clock. A `State` holds `activeLight`, `activeWalk`,
  `pedestrianWaiting`, whether the component is mounted, and one slot per
  timer role: the cycle effect's timer, `walkTimerRef`, `blinkTimerRef` and
  `blinkIntervalRef`. A slot holds the deadline of the live timer, or `None`.
  The steps are a press, the firing of a due timer (`Fire`, at its deadline,
  never before an earlier live timer), letting time pass (`AdvanceTo`) and
  unmounting. A timer is armed only into an empty slot (`Arm`), so every
  cancel the code performs before arming is needed: the model keeps at most
  one live timer per role because of those cancels, not by overwriting.
  React's effect machinery is replaced by its observable rule
  (`Settle`): after a step, if `activeLight` or `pedestrianWaiting` changed,
  the effect's cleanup cancels its timer and its body arms the timer the new
  state selects. `Valid` is the invariant of every reachable state: normal
  cycling, a pending request on yellow or green, or the walk phase, with the
  blink parity tied to the position of the next tick.
- `Properties` (`properties.dfy`): the promises, proved about `Signal`.
- `App` (`app.dfy`): the component as a class `Controller` whose fields are
  its state variables and timer refs. Its methods (`ClearAllTimers`,
  `StartWalking`, `StartBlinking`, the effect, the button, the timer
  callbacks, unmounting) update them step by step. Each is proved to produce
  exactly the new state the matching `Signal` function gives. The public ones
  also keep `Valid`, so every lemma of `Properties` applies to the object.

Durations are the ones in the code's table: red 5000 ms, green 3000 ms,
yellow 3000 ms. The requirement comments at `src/App.tsx:7-9` say yellow
2000 ms and green 10000 ms. The code wins. The lemmas are stated in terms of
`Duration(c)`, except `Properties.MountThenPressOnGreen`, a concrete timeline
that fixes the code's values (5000, 8000, 11000, 21000, 26000 ms).

Behaviour the model makes explicit:

- A pending request on yellow or green does not wait for the light's
  remaining time. The press re-runs the effect, which cancels the cycle
  interval and arms a fresh full-duration timeout from the moment of the
  press. So the walk starts exactly `Duration(Yellow)` after a press on
  yellow, and `Duration(Green) + Duration(Yellow)` after a press on green.
  The requirement prose says "wait until Yellow finishes", which reads as the
  remaining time; the model follows the code.
- When the pending yellow timeout fires, `startWalking` runs twice at the
  same instant. It runs once in the callback, and once more because the light
  turned red and the effect re-ran with a request waiting. The second call
  finds the first call's timers live, cancels them, and re-arms them at the
  same deadlines, so the result equals one call
  (`PendingYellowExpiryWalksOnce`, `StartWalkingTwiceIsOnce`).
- The 10th blink tick falls at the same instant as the walk end. Either
  order ends in the same state, with the walk indicator off.

## Model

The `Signal` functions `Init`, `Press`, `Fire`, `AdvanceTo`, `Unmount`,
`StartWalking`, `StartBlinking`, `RunEffect` and `Settle` carry no contract
of their own. Each is the specification of the `App.Controller` member of
the same name (`Init` of its constructor), whose row covers it, and the
`Properties` lemmas state what they promise. `Signal.Arm` only demands an
empty slot of its callers.

| member | source | states |
|---|---|---|
| `Lights.Next` | src/App.tsx:24-28 | the successor of a colour is never the colour itself, so every cycling step changes the light |
| `Lights.Duration` | src/App.tsx:24-28 | every colour's dwell time is positive |
| `Lights.NextIsThreeCycle` | src/App.tsx:24-28 | `next` is red → green → yellow → red: three applications return to the start and visit all three colours |
| `Lights.ThreeStepsTakeOneLoop` | src/App.tsx:24-28 | 3n cycling steps return to the starting colour and take n × (red + green + yellow) ms |
| `Signal.ClearAllTimers` | src/App.tsx:79-90 | cancels the walk-end, blink-start and blink-interval roles and changes nothing else |
| `Properties.InitIsNormalRed` | src/App.tsx:30-32 | the mounted component starts red, walk off, nobody waiting, with the red interval armed at 5000 ms |
| `Properties.PressKeepsValid` | src/App.tsx:142 | a press keeps the reachable-state invariant and takes no time |
| `Properties.AdvanceKeepsValid` | src/App.tsx:42-65 | letting time pass up to the next deadline keeps the invariant |
| `Properties.UnmountKeepsValid` | src/App.tsx:68-71 | unmounting leaves a valid state with no live timer |
| `Properties.FireKeepsValid` | src/App.tsx:42-122 | firing any due timer keeps the invariant and never moves the clock back |
| `Properties.CycleStep` | src/App.tsx:59-64 | in normal mode only the cycle timer is live; firing it shows `next` and arms the new colour's full duration, so each colour stays lit exactly its duration |
| `Properties.FireCycles` | src/App.tsx:59-64 | after n normal firings the light is `next` applied n times and the next change is the sum of the n dwell times later |
| `Properties.LoopsReturnToColour` | src/App.tsx:59-64 | every 3 firings the light returns to its colour, each loop taking red + green + yellow ms |
| `Properties.PressWhileWaitingIsNoOp` | src/App.tsx:142 | a press while a request is pending or walking changes nothing |
| `Properties.PressIdempotent` | src/App.tsx:142 | pressing twice equals pressing once; on a mounted component a press leaves the request waiting |
| `Properties.PressesEqualOne` | src/App.tsx:142 | N ≥ 1 presses equal one press |
| `Properties.PressOnRedWalksAtOnce` | src/App.tsx:44-45 | a press on red in normal mode starts the walk in the same step: red, walk on, walk end at +15000, blink start at +10000, no effect timer |
| `Properties.PendingYellowExpiryWalksOnce` | src/App.tsx:46-50 | the pending yellow timeout, with the callback's `startWalking` and the one from the re-run effect, yields the state of a single `startWalking` |
| `Properties.StartWalkingTwiceIsOnce` | src/App.tsx:92-112 | one `startWalking` leaves the walk end and blink start live; a second call can arm its own only after its `clearAllTimers` cancels them, and re-arms them at the same deadlines, so two calls at one instant equal one |
| `Properties.PendingStep` | src/App.tsx:46-57 | in a pending state only the pending timeout is live; on green it turns the light yellow with a full yellow timeout, on yellow it starts the walk |
| `Properties.PressOnYellowWalksAfterYellow` | src/App.tsx:46-50 | a press on yellow starts the walk exactly one yellow duration after the press |
| `Properties.PressOnGreenWalksAfterGreenAndYellow` | src/App.tsx:51-57 | a press on green turns the light yellow one green duration after the press and starts the walk one yellow duration later |
| `Properties.WalkStep` | src/App.tsx:100-122 | during the walk the light stays red and the walk end keeps its deadline; blink start leaves the indicator and arms a 500 ms interval; each tick toggles it; the walk end turns walk off, clears the request and the interval, and resumes cycling from green; a press changes nothing |
| `Properties.WalkEndStep` | src/App.tsx:100-107 | the walk end fires at its deadline: walk off, request cleared, blink interval cancelled, green with a full green interval armed |
| `Properties.BlinkStartStep` | src/App.tsx:109-111 | the blink start fires 10000 ms into the walk, leaves the indicator lit and the walk end unchanged, and arms the first tick 500 ms later |
| `Properties.BlinkTickStep` | src/App.tsx:120-122 | each tick toggles the indicator and re-arms 500 ms later, with the light red and the walk end unchanged |
| `Properties.TieAtWalkEndEitherOrder` | src/App.tsx:100-107 | a tick due together with the walk end is the 10th, with the indicator off before it and lit after it; both firing orders give the same state, with walk off |
| `Properties.IndicatorFollowsTimeline` | src/App.tsx:109-122 | between events of a walk started at T, the light is red, the clock is before T + 15000, and the indicator is lit for the first 10500 ms and then alternates every 500 ms |
| `Properties.MountThenPressOnGreen` | src/App.tsx:30-65 | from mounting: green at 5000; a press then gives yellow at 8000 and the walk at 11000, ending at 26000 with the blink from 21000 |
| `Properties.UnmountStopsEverything` | src/App.tsx:68-90 | unmounting cancels every role, is safe when roles are empty, and afterwards no timer fires, a press does nothing and time passes without other change |
| `App.Controller.constructor` | src/App.tsx:30-35 | the object starts in the mounted initial state, after the effect's first run |
| `App.Controller.ClearAllTimers` | src/App.tsx:79-90 | cancels each of the three walk roles that holds a timer |
| `App.Controller.StartWalking` | src/App.tsx:92-112 | walk on, light red, the three walk roles cancelled by `ClearAllTimers` before the walk end (+15000) and blink start (+10000) are armed into the emptied slots; without the cancel the arming does not verify |
| `App.Controller.StartBlinking` | src/App.tsx:114-123 | cancels a running blink interval, then arms a new one into the emptied slot with its first tick 500 ms from now; without the cancel the arming does not verify |
| `App.Controller.RunEffect` | src/App.tsx:42-65 | the effect's cleanup cancels its timer, then the body arms, into the emptied slot, the timer (or starts the walk) it selects for the current light and request |
| `App.Controller.Settle` | src/App.tsx:65 | re-runs the effect exactly when the light or the request changed |
| `App.Controller.Press` | src/App.tsx:142 | the button sets the request; the state after it is `Signal.Press`'s, and valid |
| `App.Controller.Fire` | src/App.tsx:47-122 | runs the due timer's callback, then the effect if its dependencies changed; the state after it is `Signal.Fire`'s, and valid |
| `App.Controller.FireEarliest` | src/App.tsx:47-122 | fires the earliest live timer, and reports whether one existed |
| `App.Controller.AdvanceTo` | src/App.tsx:47-122 | moves the clock up to the next deadline, keeping the state valid |
| `App.Controller.Unmount` | src/App.tsx:68-90 | the effect's cleanup and `clearAllTimers` run, leaving no timer live |

## Left out

- Rendering: the JSX, CSS modules and the button element (`src/App.tsx:126-148`). They are presentation; only the button's `onClick` is modelled.
- The `console.log` at `src/App.tsx:125`: debug output.
- React's runtime (state batching, re-render scheduling, `useRef` identity). Only its observable consequence is modelled: the cycle effect re-runs once after a step in which its dependencies changed.
- Real `setTimeout`, `setInterval` and `clearTimeout`. They become deadlines on a virtual integer clock, one slot per role. A fired timeout empties its slot. The source keeps the stale handle in its ref, but clearing a fired handle does nothing, so the behaviour is the same.
- The order in which the event loop runs two timers due at the same instant is left open (`Due` allows either). A press and a timer due at the same millisecond may also come in either order: `AdvanceTo` may reach a deadline without firing it, and a press may follow the firing at the same instant.
- The commented-out cleanup at `src/App.tsx:72-76`: dead code.
- The durations are the code's constants rather than parameters.
- After unmounting, a press is ignored (React drops state updates on an unmounted component). The button cannot be clicked then anyway.
