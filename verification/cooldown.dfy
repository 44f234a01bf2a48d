/** The re-trigger guard the foot-balance and two-hand managers share: a flag that a
    successful gesture raises and a timer that each frame advances by the frame's
    duration while the flag is up, lowering it (and zeroing the timer) once the
    timer reaches the cooldown duration. */
module Cooldown {
  import opened Engine

  /** `triggered` is the manager's effectTriggered flag, `timer` its cooldownTimer. */
  datatype Gate = Gate(triggered: bool, timer: real)

  /** The gate at start-up and after every expiry. */
  const Idle := Gate(false, 0.0)

  /** The gate right after a gesture has been accepted. */
  const JustFired := Gate(true, 0.0)

  /** The cooldown part of one frame, for a frame lasting `dt` seconds. */
  function Advance(g: Gate, dt: real, duration: real): Gate
  {
    if !g.triggered then g
    else if g.timer + dt >= duration then Idle
    else Gate(true, g.timer + dt)
  }

  /** The gate after a run of frames with the given durations and no gesture. */
  function Elapse(g: Gate, dts: seq<real>, duration: real): Gate
    decreases |dts|
  {
    if |dts| == 0 then g else Elapse(Advance(g, dts[0], duration), dts[1..], duration)
  }

  /** A lowered gate has a zero timer; a raised one has not yet reached the duration. */
  predicate WellFormed(g: Gate, duration: real)
  {
    if g.triggered then 0.0 <= g.timer < duration else g.timer == 0.0
  }

  /** One frame keeps the gate well formed. */
  lemma AdvanceKeepsWellFormed(g: Gate, dt: real, duration: real)
    requires WellFormed(g, duration) && dt >= 0.0
    ensures WellFormed(Advance(g, dt, duration), duration)
    ensures Advance(g, dt, duration).triggered ==> g.triggered
  {
  }

  /** A gate raised with timer `t0` is still raised after a run of frames exactly when
      the run is shorter than what remains of the cooldown; while it stays raised,
      its timer is the time elapsed since it was raised. */
  lemma {:induction false} ElapseTriggeredIff(t0: real, dts: seq<real>, duration: real)
    requires t0 < duration && AllNonNegative(dts)
    ensures Elapse(Gate(true, t0), dts, duration).triggered <==> t0 + Sum(dts) < duration
    ensures t0 + Sum(dts) < duration ==> Elapse(Gate(true, t0), dts, duration) == Gate(true, t0 + Sum(dts))
    ensures t0 + Sum(dts) >= duration ==> Elapse(Gate(true, t0), dts, duration) == Idle
    decreases |dts|
  {
    if |dts| > 0 {
      SumNonNegative(dts[1..]);
      if t0 + dts[0] >= duration {
        IdleStaysIdle(dts[1..], duration);
      } else {
        ElapseTriggeredIff(t0 + dts[0], dts[1..], duration);
      }
    }
  }

  /** An idle gate stays idle while nothing fires. */
  lemma {:induction false} IdleStaysIdle(dts: seq<real>, duration: real)
    ensures Elapse(Idle, dts, duration) == Idle
    decreases |dts|
  {
    if |dts| > 0 {
      IdleStaysIdle(dts[1..], duration);
    }
  }

  lemma {:induction false} SumNonNegative(xs: seq<real>)
    requires AllNonNegative(xs)
    ensures Sum(xs) >= 0.0
    decreases |xs|
  {
    if |xs| > 0 {
      SumNonNegative(xs[1..]);
    }
  }
}
