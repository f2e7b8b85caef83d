/**
 * The scrub controller's mutable state: the refs the page component keeps
 * outside React's render cycle, and the handlers that update them in place.
 * The eased "current" values of the speed factor and the scroll magnitude
 * are written by the tweening library between frames; `Ease` stands for
 * those writes, and the controller only reads them.
 */
module ScrubController {
  import opened Wrappers
  import opened JsNumber
  import opened ScrubRules

  class Controller {
    /** The previous frame's timestamp, absent until the first frame. */
    var previousTime: Option<real>
    /** `scrollDirection`: `BaseTimeFactor` until the first wheel event, then +1 or -1. */
    var direction: real
    /** `currentTime`: the playback accumulator, in seconds of video. */
    var position: real
    /** `mouseDown`: whether the page is held. */
    var pressed: bool
    /** The target of the speed factor's latest tween. */
    var speedTarget: real
    /** The target of the scroll magnitude's latest tween. */
    var scrollTarget: real
    /** `timeFactor`'s eased value. */
    var speedCurrent: real
    /** `scrollDelta`'s eased value. */
    var scrollCurrent: real
    /** Whether any wheel event has been handled. */
    ghost var scrolled: bool

    ghost predicate Valid()
      reads this
    {
      && (if scrolled then direction == 1.0 || direction == -1.0 else direction == BaseTimeFactor)
      && speedTarget == SpeedTarget(pressed)
      && (scrollTarget == 0.0 || Abs(scrollTarget) > DeadZone)
    }

    /**
     * The component as mounted: the refs at their initial values, and the
     * press effect's first run, which aims the speed factor at full speed.
     */
    constructor ()
      ensures Valid() && !scrolled
      ensures previousTime == None && position == 0.0
      ensures direction == BaseTimeFactor && !pressed
      ensures speedTarget == BaseTimeFactor && scrollTarget == 0.0
      ensures speedCurrent == InitialTimeFactor && scrollCurrent == 0.0
    {
      previousTime := None;
      direction := BaseTimeFactor;
      position := 0.0;
      pressed := false;
      speedTarget := SpeedTarget(false);
      scrollTarget := 0.0;
      speedCurrent := InitialTimeFactor;
      scrollCurrent := 0.0;
      scrolled := false;
    }

    /**
     * One display frame at timestamp `time`. The first frame only records the
     * timestamp; every later one runs the integrator on the time elapsed
     * since the previous frame. Returns what was written to the video's
     * cursor, if anything.
     */
    method Frame(time: real, duration: real) returns (written: Option<real>)
      requires Valid() && duration >= 0.0
      modifies this`previousTime, this`position
      ensures Valid()
      ensures previousTime == Some(time)
      ensures old(previousTime).None? ==> position == old(position) && written == None
      ensures old(previousTime).Some? ==>
        && position == Advance(old(position), FrameInput(time - old(previousTime).value, direction, speedCurrent, scrollCurrent), duration)
        && written == SinkWrite(position, duration)
    {
      if previousTime.Some? {
        var deltaTime := time - previousTime.value;
        written := Integrate(deltaTime, duration);
      } else {
        written := None;
      }
      previousTime := Some(time);
    }

    /**
     * The per-frame integrator: adds the frame's contribution to the
     * accumulator, wraps a negative result once from the end, and writes
     * the accumulator's remainder by the duration when the duration is known.
     */
    method Integrate(deltaTime: real, duration: real) returns (written: Option<real>)
      requires duration >= 0.0
      modifies this`position
      ensures position == Advance(old(position), FrameInput(deltaTime, direction, speedCurrent, scrollCurrent), duration)
      ensures written == SinkWrite(position, duration)
      ensures old(position) + FrameInput(deltaTime, direction, speedCurrent, scrollCurrent) >= -duration ==> position >= 0.0
    {
      var timeInput := (deltaTime / 1000.0) * direction * speedCurrent;
      var scrollInput := scrollCurrent / 1000.0;
      position := position + timeInput + scrollInput;
      if position < 0.0 {
        position := duration + position;
      }
      if duration != 0.0 {
        written := Some(Rem(position, duration));
      } else {
        written := None;
      }
    }

    /** A wheel event: sets the sticky direction and retargets the scroll magnitude. */
    method OnScroll(deltaY: real)
      requires Valid()
      modifies this`direction, this`scrollTarget, this`scrolled
      ensures Valid() && scrolled
      ensures direction == DirectionOf(deltaY)
      ensures scrollTarget == DeadZoneTarget(deltaY)
    {
      if deltaY < 0.0 {
        direction := 1.0;
      } else {
        direction := -1.0;
      }
      scrollTarget := DeadZoneTarget(deltaY);
      scrolled := true;
    }

    /** A click: flips the press state, and the press effect retargets the speed factor. */
    method OnClick()
      requires Valid()
      modifies this`pressed, this`speedTarget
      ensures Valid()
      ensures pressed == !old(pressed)
      ensures speedTarget == SpeedTarget(pressed)
    {
      pressed := !pressed;
      speedTarget := SpeedTarget(pressed);
    }

    /** The tweening library's write of the eased values between frames. */
    method Ease(speed: real, scroll: real)
      requires Valid()
      modifies this`speedCurrent, this`scrollCurrent
      ensures Valid()
      ensures speedCurrent == speed && scrollCurrent == scroll
    {
      speedCurrent := speed;
      scrollCurrent := scroll;
    }
  }

  /** Two clicks restore the press state and the speed target. */
  method ClickTwice(c: Controller)
    requires c.Valid()
    modifies c`pressed, c`speedTarget
    ensures c.Valid()
    ensures c.pressed == old(c.pressed) && c.speedTarget == old(c.speedTarget)
  {
    c.OnClick();
    c.OnClick();
  }
}
