/**
 * The scrub controller's rules as values: the direction a wheel event sets,
 * the dead-zone target for the scroll magnitude, the speed target a click
 * selects, one frame's contribution to the playback accumulator, the
 * single wrap from below and the guarded write to the video's cursor.
 */
module ScrubRules {
  import opened Wrappers
  import opened JsNumber

  /** `baseTimeFactor`: full scrub speed, and also the direction before any wheel event. */
  const BaseTimeFactor: real := 1.5
  /** The speed factor's value before its first tween has moved it. */
  const InitialTimeFactor: real := 1.0
  /** Wheel deltas of at most this magnitude are treated as noise. */
  const DeadZone: real := 6.0

  function Abs(x: real): (a: real)
  {
    if x < 0.0 then -x else x
  }

  /** The sticky direction a wheel event sets: scrolling up (`deltaY < 0`) plays forward. */
  function DirectionOf(deltaY: real): (s: real)
    ensures s == 1.0 || s == -1.0
    ensures s == 1.0 <==> deltaY < 0.0
  {
    if deltaY < 0.0 then 1.0 else -1.0
  }

  /**
   * The value the scroll magnitude is tweened toward after a wheel event:
   * the negated delta outside the dead zone, zero inside it.
   */
  function DeadZoneTarget(deltaY: real): (t: real)
    ensures t == 0.0 <==> Abs(deltaY) <= DeadZone
    ensures t != 0.0 ==> t == -deltaY && Abs(t) > DeadZone
  {
    if Abs(deltaY) > DeadZone then deltaY * -1.0 else 0.0
  }

  /** The value the speed factor is tweened toward: stopped while pressed, full speed when released. */
  function SpeedTarget(pressed: bool): (t: real)
    ensures t == 0.0 <==> pressed
    ensures !pressed ==> t == BaseTimeFactor
  {
    if pressed then 0.0 else BaseTimeFactor
  }

  /**
   * One frame's contribution to the accumulator: elapsed seconds scaled by
   * direction and speed, plus the scroll magnitude in thousandths. While the
   * speed factor is at 0 (held), only the scroll magnitude moves playback; at
   * rest (no scroll) a forward direction and a non-negative speed never move
   * it backwards.
   */
  function FrameInput(deltaTime: real, direction: real, timeFactor: real, scroll: real): (r: real)
    ensures timeFactor == 0.0 ==> r == scroll / 1000.0
    ensures scroll == 0.0 && deltaTime >= 0.0 && direction > 0.0 && timeFactor >= 0.0 ==> r >= 0.0
    ensures scroll == 0.0 && deltaTime >= 0.0 && direction < 0.0 && timeFactor >= 0.0 ==> r <= 0.0
  {
    (deltaTime / 1000.0) * direction * timeFactor + scroll / 1000.0
  }

  /**
   * The wrap from below: a negative accumulator gets one duration added,
   * once; a non-negative one is left as it is, however far past the
   * duration it has run. `duration` 0 stands for a duration not yet known.
   */
  function WrapFromBelow(p: real, duration: real): (w: real)
    requires duration >= 0.0
    ensures p >= 0.0 ==> w == p
    ensures p < 0.0 ==> w == duration + p
    ensures w >= 0.0 <==> p >= -duration
  {
    if p < 0.0 then duration + p else p
  }

  /**
   * The accumulator after a frame whose contribution is `input`: the plain
   * sum while that is non-negative, never reduced modulo the duration, and
   * non-negative whenever a non-negative accumulator steps back by at most
   * one duration.
   */
  function Advance(p: real, input: real, duration: real): (r: real)
    requires duration >= 0.0
    ensures p + input >= 0.0 ==> r == p + input
    ensures p >= 0.0 && input >= -duration ==> r >= 0.0
    ensures r >= 0.0 <==> p + input >= -duration
  {
    WrapFromBelow(p + input, duration)
  }

  /**
   * What a frame writes to the video's cursor: nothing while the duration is
   * unknown, otherwise the accumulator's JavaScript remainder by it.
   */
  function SinkWrite(p: real, duration: real): (o: Option<real>)
    requires duration >= 0.0
    ensures o.Some? <==> duration != 0.0
    ensures o.Some? && p >= 0.0 ==> 0.0 <= o.value < duration
    ensures o.Some? && 0.0 <= p < duration ==> o.value == p
  {
    if duration != 0.0 then
      RemFixesRange(p, duration);
      Some(Rem(p, duration))
    else
      None
  }

  /**
   * For non-negative accumulators the written value repeats with period
   * `duration`: running past the end loops the video.
   */
  lemma SinkWritePeriodic(p: real, duration: real)
    requires duration > 0.0 && p >= 0.0
    ensures SinkWrite(p + duration, duration) == SinkWrite(p, duration)
  {
    RemShift(p, duration);
  }

  /** The accumulator after a run of frames with contributions `inputs`. */
  function Run(p: real, inputs: seq<real>, duration: real): (q: real)
    requires duration >= 0.0
    decreases |inputs|
  {
    if inputs == [] then p else Run(Advance(p, inputs[0], duration), inputs[1..], duration)
  }

  function Sum(inputs: seq<real>): (total: real)
    decreases |inputs|
  {
    if inputs == [] then 0.0 else inputs[0] + Sum(inputs[1..])
  }

  /**
   * The accumulator itself is never reduced modulo the duration: over frames
   * that never move it backwards it is the plain running sum, unbounded.
   */
  lemma {:induction false} RunForward(p: real, inputs: seq<real>, duration: real)
    requires duration >= 0.0 && p >= 0.0
    requires forall i :: 0 <= i < |inputs| ==> inputs[i] >= 0.0
    ensures Run(p, inputs, duration) == p + Sum(inputs)
    decreases |inputs|
  {
    if inputs != [] {
      RunForward(p + inputs[0], inputs[1..], duration);
    }
  }

  /**
   * The written value stays in `[0, duration)` across any run of frames that
   * starts from a non-negative accumulator, provided no single frame moves
   * backwards by more than one duration.
   */
  lemma {:induction false} WrapInvariant(p: real, inputs: seq<real>, duration: real)
    requires duration > 0.0 && p >= 0.0
    requires forall i :: 0 <= i < |inputs| ==> inputs[i] >= -duration
    ensures Run(p, inputs, duration) >= 0.0
    ensures SinkWrite(Run(p, inputs, duration), duration).Some?
    ensures 0.0 <= SinkWrite(Run(p, inputs, duration), duration).value < duration
    decreases |inputs|
  {
    if inputs != [] {
      WrapInvariant(Advance(p, inputs[0], duration), inputs[1..], duration);
    }
  }

  /**
   * Only one wrap is applied: when the sum before the wrap is below
   * `-duration`, the accumulator stays negative and the written time lies in
   * `(-duration, 0]`; if the sum is above `-2 * duration` the write is the
   * wrapped accumulator itself.
   */
  lemma OvershootWrite(s: real, duration: real)
    requires duration > 0.0 && s < -duration
    ensures WrapFromBelow(s, duration) < 0.0
    ensures -duration < SinkWrite(WrapFromBelow(s, duration), duration).value <= 0.0
    ensures s > -2.0 * duration ==> SinkWrite(WrapFromBelow(s, duration), duration) == Some(duration + s)
  {
    if s > -2.0 * duration {
      RemNegInRange(duration + s, duration);
    }
  }

  /**
   * The single wrap at work on a ten-second video: a step of -15 from 0
   * leaves the accumulator at -5 and writes -5, a frame with a zero step
   * then wraps it to 5; a step of -20 from 0 writes 0. The same step of -15
   * from 100 needs no wrap at all.
   */
  lemma SingleWrapExamples()
    ensures Advance(0.0, -15.0, 10.0) == -5.0
    ensures SinkWrite(-5.0, 10.0) == Some(-5.0)
    ensures Advance(-5.0, 0.0, 10.0) == 5.0
    ensures Advance(0.0, -20.0, 10.0) == -10.0
    ensures SinkWrite(-10.0, 10.0) == Some(0.0)
    ensures Advance(100.0, -15.0, 10.0) == 85.0
  {
    OvershootWrite(-15.0, 10.0);
    OvershootWrite(-20.0, 10.0);
  }

  /**
   * A forward frame that carries a ten-second video's accumulator from 9.5
   * to 11: no wrap, the accumulator keeps 11, and 1 is written.
   */
  lemma ForwardPastEnd()
    ensures FrameInput(1000.0, 1.0, BaseTimeFactor, 0.0) == 1.5
    ensures Advance(9.5, 1.5, 10.0) == 11.0
    ensures SinkWrite(11.0, 10.0) == Some(1.0)
  {
    RemUnique(11.0, 10.0, 1, 1.0);
  }

  /**
   * A backward frame that carries a ten-second video's accumulator from 0.2
   * to -1.3: it wraps to 8.7, which is written as it is.
   */
  lemma BackwardPastStart()
    ensures FrameInput(1000.0, -1.0, BaseTimeFactor, 0.0) == -1.5
    ensures Advance(0.2, -1.5, 10.0) == 8.7
    ensures SinkWrite(8.7, 10.0) == Some(8.7)
  {
  }

  /**
   * Before any wheel event the direction is still `BaseTimeFactor`, so at
   * rest (full speed, no scroll) playback runs at 2.25 seconds of video per
   * second, not 1.5.
   */
  lemma RestRateBeforeAnyScroll(deltaTime: real)
    ensures FrameInput(deltaTime, BaseTimeFactor, BaseTimeFactor, 0.0) == 2.25 * (deltaTime / 1000.0)
  {
  }
}
