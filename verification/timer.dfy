/** `lithTimer` and `lithTimerBurst` of framework/src/timer.cpp: a countdown of `delay`
    seconds that the caller feeds with frame times `dt`, in several flavours (reset on firing,
    carry the overshoot, fire once until reset), and a burst timer made of two of them.
    Time is a `real`: single-precision rounding is not modelled. */
module Timer {

  /** The fields of a `lithTimer`. */
  datatype TimerState = TimerState(delay: real, timer: real, trap: bool, pass: bool)

  /** A timer state and the answer of the call that produced it. */
  datatype Fired = Fired(state: TimerState, fired: bool)

  /** The timer has run past its delay (`passed()`). */
  predicate Expired(s: TimerState)
  {
    s.timer > s.delay
  }

  /** `ratio`: how far the timer has run, clamped to `[0, 1]`. */
  function Ratio(s: TimerState): (r: real)
    requires s.delay != 0.0
    ensures 0.0 <= r <= 1.0
    ensures 0.0 <= s.timer / s.delay <= 1.0 ==> r == s.timer / s.delay
    ensures s.timer / s.delay < 0.0 ==> r == 0.0
    ensures s.timer / s.delay > 1.0 ==> r == 1.0
  {
    var r := s.timer / s.delay;
    if r < 0.0 then 0.0 else if r > 1.0 then 1.0 else r
  }

  /** `trapped(dt)`: `dt` is added only when the previous call did not fire; on firing the
      delay is taken off, so an overshoot carries over to the next call. */
  function TrappedStep(s: TimerState, dt: real): (r: Fired)
    ensures r.state.delay == s.delay && r.state.pass == s.pass
    ensures r.state.trap == r.fired
    ensures var t := if s.trap then s.timer else s.timer + dt;
            (r.fired <==> t > s.delay) &&
            r.state.timer == (if r.fired then t - s.delay else t)
  {
    var t := if !s.trap then s.timer + dt else s.timer;
    var p := t > s.delay;
    Fired(s.(timer := if p then t - s.delay else t, trap := p), p)
  }

  /** `passed(dt)`: add `dt`; on firing the timer restarts from zero. */
  function PassedStep(s: TimerState, dt: real): (r: Fired)
    ensures r.state.delay == s.delay && r.state.trap == s.trap && r.state.pass == s.pass
    ensures r.fired <==> s.timer + dt > s.delay
    ensures r.state.timer == if r.fired then 0.0 else s.timer + dt
  {
    var t := s.timer + dt;
    var p := t > s.delay;
    Fired(s.(timer := if p then 0.0 else t), p)
  }

  /** `once(dt)` and `passed_until_reset(dt)`: add `dt` and report whether the delay is
      exceeded, without restarting. */
  function OnceStep(s: TimerState, dt: real): (r: Fired)
    ensures r.state == s.(timer := s.timer + dt)
    ensures r.fired <==> Expired(r.state)
  {
    var s' := s.(timer := s.timer + dt);
    Fired(s', s'.timer > s'.delay)
  }

  /** `once_until_reset(dt)`: `dt` is added only on the first call since `pass` was last
      cleared. */
  function OnceUntilResetStep(s: TimerState, dt: real): (r: Fired)
    ensures r.state.pass && r.state.delay == s.delay && r.state.trap == s.trap
    ensures r.state.timer == if s.pass then s.timer else s.timer + dt
    ensures r.fired <==> Expired(r.state)
  {
    var s' := s.(timer := if !s.pass then s.timer + dt else s.timer, pass := true);
    Fired(s', s'.timer > s'.delay)
  }

  /** `reset_if_passed`: restart only an expired timer, and always re-arm `pass`. */
  function ResetIfPassedStep(s: TimerState): (s': TimerState)
    ensures !s'.pass && s'.delay == s.delay && s'.trap == s.trap
    ensures s'.timer == if Expired(s) then 0.0 else s.timer
  {
    s.(timer := if s.timer > s.delay then 0.0 else s.timer, pass := false)
  }

  /** A call of `trapped` right after one that fired ignores its `dt`: inside a
      `while (trapped(dt))` loop the frame time is counted once. */
  lemma TrappedCountsDtOnce(s: TimerState, dt: real, dt1: real, dt2: real)
    requires TrappedStep(s, dt).fired
    ensures TrappedStep(TrappedStep(s, dt).state, dt1) == TrappedStep(TrappedStep(s, dt).state, dt2)
  {
  }

  /** Calling `once_until_reset` again before `reset_if_passed` changes nothing and gives the
      same answer, whatever its `dt`. */
  lemma OnceUntilResetIdempotent(s: TimerState, dt: real, dt': real)
    ensures var r := OnceUntilResetStep(s, dt);
            OnceUntilResetStep(r.state, dt') == r
  {
  }

  /** After `reset_if_passed`, `once_until_reset` counts its `dt` again. */
  lemma ResetRearmsOnce(s: TimerState, dt: real)
    ensures OnceUntilResetStep(ResetIfPassedStep(s), dt).state.timer == ResetIfPassedStep(s).timer + dt
  {
  }

  /** A `lithTimer`, updated in place by its methods. */
  class LithTimer {
    var delay: real
    var timer: real
    var trap: bool
    var pass: bool

    function State(): TimerState
      reads this
    {
      TimerState(delay, timer, trap, pass)
    }

    /** A timer at zero, neither trapped nor passed. */
    constructor (delay: real)
      ensures State() == TimerState(delay, 0.0, false, false)
    {
      this.delay, timer, trap, pass := delay, 0.0, false, false;
    }

    /** `reset`: back to zero; the delay and the flags stay. */
    method Reset()
      modifies this
      ensures State() == old(State()).(timer := 0.0)
    {
      timer := 0.0;
    }

    /** `ratio`. */
    function RatioNow(): (r: real)
      reads this
      requires delay != 0.0
      ensures 0.0 <= r <= 1.0
      ensures r == Ratio(State())
    {
      var r := timer / delay;
      if r < 0.0 then 0.0 else if r > 1.0 then 1.0 else r
    }

    /** `passed()`. */
    predicate HasPassed()
      reads this
    {
      timer > delay
    }

    method Trapped(dt: real) returns (p: bool)
      modifies this
      ensures Fired(State(), p) == TrappedStep(old(State()), dt)
    {
      if !trap {
        timer := timer + dt;
      }
      p := timer > delay;
      trap := p;
      if p {
        timer := timer - delay;
      }
    }

    method Passed(dt: real) returns (p: bool)
      modifies this
      ensures Fired(State(), p) == PassedStep(old(State()), dt)
    {
      timer := timer + dt;
      p := timer > delay;
      if p {
        timer := 0.0;
      }
    }

    method Once(dt: real) returns (p: bool)
      modifies this
      ensures Fired(State(), p) == OnceStep(old(State()), dt)
    {
      timer := timer + dt;
      p := timer > delay;
    }

    method OnceUntilReset(dt: real) returns (p: bool)
      modifies this
      ensures Fired(State(), p) == OnceUntilResetStep(old(State()), dt)
    {
      if !pass {
        timer := timer + dt;
      }
      pass := true;
      p := timer > delay;
    }

    /** `passed_until_reset` has the same body as `once`. */
    method PassedUntilReset(dt: real) returns (p: bool)
      modifies this
      ensures Fired(State(), p) == OnceStep(old(State()), dt)
    {
      timer := timer + dt;
      p := timer > delay;
    }

    method ResetIfPassed()
      modifies this
      ensures State() == ResetIfPassedStep(old(State()))
    {
      if timer > delay {
        timer := 0.0;
      }
      pass := false;
    }
  }

  /** The fields of a `lithTimerBurst`: the two timers are held by value. */
  datatype BurstState = BurstState(outer: TimerState, inner: TimerState, burstCount: int, burstCounter: int)

  /** A burst answer and the state after it. */
  datatype BurstFired = BurstFired(state: BurstState, fired: bool)

  /** `burst(dt)`: once the outer timer has run out, the inner one fires every `inner.delay`
      seconds; after `burstCount` inner firings the counter and the outer timer restart. */
  function BurstStep(b: BurstState, dt: real): (r: BurstFired)
    ensures r.state.burstCount == b.burstCount
    ensures r.fired ==> OnceStep(b.outer, dt).fired && PassedStep(b.inner, dt).fired
    ensures !r.fired ==> r.state.burstCounter == b.burstCounter
    ensures r.fired && b.burstCounter + 1 >= b.burstCount ==>
              r.state.burstCounter == 0 && r.state.outer.timer == 0.0
    ensures r.fired && b.burstCounter + 1 < b.burstCount ==> r.state.burstCounter == b.burstCounter + 1
  {
    var o := OnceStep(b.outer, dt);
    if !o.fired then BurstFired(b.(outer := o.state), false)
    else
      var i := PassedStep(b.inner, dt);
      if !i.fired then BurstFired(b.(outer := o.state, inner := i.state), false)
      else if b.burstCounter + 1 >= b.burstCount then
        BurstFired(b.(outer := o.state.(timer := 0.0), inner := i.state, burstCounter := 0), true)
      else BurstFired(b.(outer := o.state, inner := i.state, burstCounter := b.burstCounter + 1), true)
  }

  /** With a positive burst count, the counter stays in `[0, burstCount)`. */
  lemma BurstCounterInRange(b: BurstState, dt: real)
    requires 0 <= b.burstCounter < b.burstCount
    ensures 0 <= BurstStep(b, dt).state.burstCounter < b.burstCount
  {
  }

  /** The burst state after feeding the frame times `dts` in order. */
  function BurstsAfter(b: BurstState, dts: seq<real>): (b': BurstState)
    ensures b'.burstCount == b.burstCount
  {
    if dts == [] then b else BurstStep(BurstsAfter(b, dts[..|dts| - 1]), dts[|dts| - 1]).state
  }

  /** Every call fed by `dts` fires. */
  predicate BurstsFire(b: BurstState, dts: seq<real>)
  {
    forall k :: 0 <= k < |dts| ==> BurstStep(BurstsAfter(b, dts[..k]), dts[k]).fired
  }

  /** From a zero counter, after `k < burstCount` firings in a row the counter is `k`, and
      after `burstCount` of them it is back at zero: a burst is `burstCount` shots long. */
  lemma {:induction false} CounterAfterFirings(b: BurstState, dts: seq<real>)
    requires 1 <= b.burstCount && b.burstCounter == 0
    requires |dts| <= b.burstCount && BurstsFire(b, dts)
    ensures BurstsAfter(b, dts).burstCounter == if |dts| == b.burstCount then 0 else |dts|
  {
    if dts != [] {
      var n := |dts| - 1;
      var prefix := dts[..n];
      assert BurstsFire(b, prefix) by {
        forall k | 0 <= k < |prefix| ensures BurstStep(BurstsAfter(b, prefix[..k]), prefix[k]).fired {
          assert prefix[..k] == dts[..k];
        }
      }
      CounterAfterFirings(b, prefix);
      assert BurstStep(BurstsAfter(b, prefix), dts[n]).fired;
      assert BurstsAfter(b, dts) == BurstStep(BurstsAfter(b, prefix), dts[n]).state;
    }
  }

  /** A `lithTimerBurst`. */
  class LithTimerBurst {
    var outer: TimerState
    var inner: TimerState
    var burstCount: int
    var burstCounter: int

    function State(): BurstState
      reads this
    {
      BurstState(outer, inner, burstCount, burstCounter)
    }

    constructor (outerDelay: real, innerDelay: real, burstCount: int)
      ensures State() == BurstState(TimerState(outerDelay, 0.0, false, false),
                                    TimerState(innerDelay, 0.0, false, false), burstCount, 0)
    {
      outer := TimerState(outerDelay, 0.0, false, false);
      inner := TimerState(innerDelay, 0.0, false, false);
      this.burstCount := burstCount;
      burstCounter := 0;
    }

    /** `reset`: both timers back to zero; the counter stays. */
    method Reset()
      modifies this
      ensures State() == old(State()).(outer := old(outer).(timer := 0.0), inner := old(inner).(timer := 0.0))
    {
      outer, inner := outer.(timer := 0.0), inner.(timer := 0.0);
    }

    method Burst(dt: real) returns (innerPassed: bool)
      modifies this
      ensures BurstFired(State(), innerPassed) == BurstStep(old(State()), dt)
    {
      innerPassed := false;
      var o := OnceStep(outer, dt);
      outer := o.state;
      if o.fired {
        var i := PassedStep(inner, dt);
        inner := i.state;
        innerPassed := i.fired;
        if innerPassed {
          burstCounter := burstCounter + 1;
          if burstCounter >= burstCount {
            burstCounter := 0;
            outer := outer.(timer := 0.0);
          }
        }
      }
    }

    /** `failed_burst`: one shot is given back. */
    method FailedBurst()
      modifies this
      ensures State() == old(State()).(burstCounter := old(burstCounter) - 1)
    {
      burstCounter := burstCounter - 1;
    }
  }
}
