# Video scrubber: the scrub controller

A model of the scrub controller of a page that lets a user scrub a looping
video by scrolling or by clicking. Every display frame the controller adds
a signed time step to a free-running playback accumulator. The step is made
of the elapsed time scaled by a sticky scroll direction and an eased speed
factor, plus an eased scroll magnitude. The accumulator is wrapped once from
below, and its JavaScript remainder by the video's duration is written to
the video's cursor, but only when the duration is known. Wheel events set
the direction and retarget the scroll magnitude, with a dead zone of 6.
Clicks toggle a press state that retargets the speed factor between 0 and
`baseTimeFactor` = 1.5.

Files:

- `wrappers.dfy`: `Option`.
- `js_number.dfy` (module `JsNumber`): JavaScript's truncating `%` on reals.
  For a positive divisor it is proved to lie in `[0, d)` for non-negative
  dividends and in `(-d, 0]` for negative ones, to agree with the Euclidean remainder on
  non-negative dividends, and to be periodic on non-negative dividends.
- `scrub_rules.dfy` (module `ScrubRules`): the rules as pure functions.
  These are the direction, the dead-zone target, the speed target, one
  frame's input, the single wrap and the guarded sink write. It also has
  lemmas over runs of frames and the worked scenarios.
- `scrub_controller.dfy` (module `ScrubController`): class `Controller`.
  Its fields are the component's refs. `Frame` is the animation-frame step,
  `Integrate` the per-frame callback, `OnScroll` the wheel handler and
  `OnClick` the click toggle with the press effect it triggers. `Frame`,
  `Integrate`, `OnScroll` and `OnClick` are proved against the functions of
  `ScrubRules`. `Ease` only records the eased values the environment
  supplies. The constructor establishes `Valid()`, and `Frame`, `OnScroll`,
  `OnClick` and `Ease` preserve it.

Numbers are `real`, an idealisation of IEEE-754 doubles. A duration is a
real `>= 0`, and 0 stands for "not yet known".

Behaviour kept exactly as the code has it:

- The direction starts at `baseTimeFactor` (1.5), not at ±1
  (src/App.jsx:32). Before any wheel event, playback at rest therefore runs
  at 1.5 × 1.5 = 2.25 seconds of video per second, not at 1.5
  (`RestRateBeforeAnyScroll`).
- A wheel event with `deltaY < 0` sets the direction to +1. Every other
  event, including `deltaY == 0`, sets it to -1.
- Only one wrap is applied. When the sum before the wrap is below
  `-duration`, the accumulator stays negative, and the written time lies in
  `(-duration, 0]` (`OvershootWrite`). The written value stays in
  `[0, duration)` over any run that starts from a non-negative accumulator
  and in which no frame steps back by more than one duration
  (`WrapInvariant`). That condition is sufficient, not necessary: from 100,
  a step of -15 on a 10-second video needs no wrap.

## Model

| member | source | states |
|---|---|---|
| `JsNumber.Trunc` | src/App.jsx:83 | the quotient truncated toward zero: within 1 of `q`, and not past it away from zero |
| `JsNumber.Rem` | src/App.jsx:83 | JavaScript `x % d` with a positive divisor lies in `[0, d)` for `x >= 0` and in `(-d, 0]` for `x < 0` |
| `JsNumber.RemUnique` | src/App.jsx:83 | for a whole `k >= 0` and `0 <= r < d`, `(k*d + r) % d == r`; on non-negative dividends the truncating remainder is the Euclidean one |
| `JsNumber.RemOfInRange` | src/App.jsx:83 | a value already in `[0, d)` is written unchanged |
| `JsNumber.RemNegInRange` | src/App.jsx:83 | a value in `(-d, 0]` is its own remainder, since its quotient truncates to 0 |
| `JsNumber.RemShift` | src/App.jsx:83 | adding one duration to a non-negative accumulator does not change the remainder |
| `ScrubRules.DirectionOf` | src/App.jsx:49-53 | the direction is always +1 or -1, and it is +1 exactly when `deltaY < 0` (so `deltaY == 0` gives -1) |
| `ScrubRules.DeadZoneTarget` | src/App.jsx:56 | the target is 0 exactly when `abs(deltaY) <= 6` (so 6 gives 0); otherwise it is `-deltaY`, with magnitude above 6 |
| `ScrubRules.SpeedTarget` | src/App.jsx:39 | the speed target is 0 exactly when pressed, and `baseTimeFactor` (1.5) when released |
| `ScrubRules.FrameInput` | src/App.jsx:70-71 | one frame's step, `timeInput + scrollInput`: with the speed factor at 0 only the scroll magnitude counts; with no scroll, a forward direction never steps back and a backward one never steps forward; its use per frame is stated by `Controller.Integrate` and `Controller.Frame` |
| `ScrubRules.Advance` | src/App.jsx:74-79 | add the step, then wrap once: a non-negative sum is kept as it is, the result is `>= 0` iff the sum is `>= -duration`, and a non-negative accumulator stepping back by at most one duration stays `>= 0`; its effect over many frames is `WrapInvariant` and `RunForward` |
| `ScrubRules.WrapFromBelow` | src/App.jsx:77-79 | a non-negative accumulator is left unchanged (never reduced modulo the duration); a negative one gets the duration added once; the result is `>= 0` iff the value before the wrap is `>= -duration`; with duration 0 a negative value stays |
| `ScrubRules.SinkWrite` | src/App.jsx:82-84 | a value is written iff the duration is non-zero; for a non-negative accumulator it lies in `[0, duration)`, and an accumulator already in range is written as it is |
| `ScrubRules.SinkWritePeriodic` | src/App.jsx:83 | the written value is the same for non-negative accumulators one duration apart, so running past the end loops the video |
| `ScrubRules.RunForward` | src/App.jsx:74-79 | over frames that never step backwards, the accumulator is the plain running sum of the steps: it grows without bound past the duration |
| `ScrubRules.WrapInvariant` | src/App.jsx:70-84 | from a non-negative accumulator, if no frame steps back by more than one duration, the accumulator stays `>= 0` and the written value stays in `[0, duration)` over any number of frames |
| `ScrubRules.OvershootWrite` | src/App.jsx:77-83 | a sum below `-duration` stays negative after the single wrap and writes a time in `(-duration, 0]`; a sum above `-2 * duration` writes the wrapped accumulator itself |
| `ScrubRules.SingleWrapExamples` | src/App.jsx:77-83 | on a 10-second video: a step of -15 from 0 leaves -5 and writes -5, and a following frame with a zero step wraps it to 5; a step of -20 from 0 writes 0; a step of -15 from 100 gives 85 with no wrap |
| `ScrubRules.ForwardPastEnd` | src/App.jsx:70-83 | one second forward at speed 1.5 takes the accumulator from 9.5 to 11 with no wrap, and writes 1 for a 10-second video |
| `ScrubRules.BackwardPastStart` | src/App.jsx:70-83 | one second backward at speed 1.5 takes the accumulator from 0.2 to -1.3, which wraps to 8.7 and is written as 8.7 |
| `ScrubRules.RestRateBeforeAnyScroll` | src/App.jsx:70 | with the initial direction 1.5, full speed 1.5 and no scroll, a frame adds 2.25 times the elapsed seconds |
| `ScrubController.Controller.constructor` | src/App.jsx:29-43 | on mount there is no previous timestamp, the accumulator is 0, the direction is 1.5, nothing is pressed, the speed factor is 1 and is being eased toward 1.5, and the scroll magnitude is 0 |
| `ScrubController.Controller.Frame` | src/App.jsx:12-19 | the first frame only records its timestamp and writes nothing; each later frame integrates exactly `time - previousTime`; the stored timestamp becomes `time`; direction, press state and both targets are not changed |
| `ScrubController.Controller.Integrate` | src/App.jsx:69-85 | the accumulator becomes the single wrap of `old + (dt/1000)*direction*speed + scroll/1000`; the write is the guarded remainder of the new accumulator; the result is `>= 0` whenever the sum is `>= -duration` |
| `ScrubController.Controller.OnScroll` | src/App.jsx:48-60 | the direction becomes `DirectionOf(deltaY)` and the scroll target becomes `DeadZoneTarget(deltaY)`; nothing else changes |
| `ScrubController.Controller.OnClick` | src/App.jsx:88 | the press state flips and the speed target follows it (the press effect at src/App.jsx:37-43) |
| `ScrubController.Controller.Ease` | src/App.jsx:38-59 | the eased speed value (the tween at src/App.jsx:38-42) and the eased scroll value (the tween at src/App.jsx:55-59) become what the tweening library reports |
| `ScrubController.ClickTwice` | src/App.jsx:88 | two clicks restore both the press state and the speed target |

## Left out

- React rendering, JSX, `useState`/`useEffect` scheduling and effect cleanup (src/App.jsx:21-24, 37-43, 64-66, 87-96). This is framework plumbing. The press effect is modelled as running right after the click that changed `mouseDown`.
- Two clicks handled within one render would both read the same stale `mouseDown`. The model assumes a render between clicks, which is how the page behaves in practice.
- `requestAnimationFrame`/`cancelAnimationFrame` scheduling (src/App.jsx:18, 22-23). This is host I/O. A frame is a call to `Frame` carrying its timestamp.
- The `expo.out` tween interpolation (src/App.jsx:38-42, 55-59). It is a foreign library with time-continuous easing. The model records only the targets, and the eased values are set from outside through `Ease`.
- The `VirtualScroll` event source (src/App.jsx:46, 62). It is a foreign input library; its events arrive as `OnScroll` calls.
- The video element's playback, its `loop` attribute and the asset URL (src/App.jsx:89-94). This is external media I/O. The sink is the value `Frame` returns.
- The duration while the video's metadata is not loaded is `NaN` in the browser. Line 78 would then turn the accumulator into `NaN`. This is IEEE-754 behaviour, and the model writes an unknown duration as 0 instead.
- Floating-point rounding of the accumulator and of `%`. The model uses exact reals.
