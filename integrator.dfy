/** The energy integrator: a running trapezoidal integral of the burner
    power over the wrapping millisecond clock.

    `Accumulate` is the meaning of one `update` call on an abstract state;
    class `Integrator` holds the four fields the bridge keeps and its
    `Update` method is proved to follow `Accumulate`. Values are real
    numbers here (the bridge uses `float`). */
module Integration {
  import opened BusTypes

  datatype Accumulator = Accumulator(firstTime: bool, lastT: Millis, lastValue: real, result: real)

  /** The state of a freshly constructed integrator. */
  const Initial: Accumulator := Accumulator(true, 0, 0.0, 0.0)

  /** The time between two clock readings in seconds, measured with unsigned
      (wrap-around) subtraction. */
  function Seconds(now: Millis, since: Millis): (dt: real)
    ensures 0.0 <= dt
  {
    Elapsed(now, since) as real / 1000.0
  }

  /** The area under the straight line between two samples. */
  function Trapezoid(v0: real, v1: real, dt: real): real
  {
    0.5 * (v0 + v1) * dt
  }

  /** One `update(value)` at clock reading `now`. */
  function Accumulate(acc: Accumulator, value: real, now: Millis): (r: Accumulator)
    ensures !r.firstTime && r.lastValue == value && r.lastT == now
  {
    var result := if acc.firstTime then acc.result
                  else acc.result + Trapezoid(acc.lastValue, value, Seconds(now, acc.lastT));
    Accumulator(false, now, value, result)
  }

  datatype Reading = Reading(value: real, at: Millis)

  /** A sequence of `update` calls, oldest first. */
  function AccumulateAll(acc: Accumulator, rs: seq<Reading>): Accumulator
    decreases |rs|
  {
    if rs == [] then acc else AccumulateAll(Accumulate(acc, rs[0].value, rs[0].at), rs[1..])
  }

  /** The first update only records its sample: the result is unchanged. */
  lemma FirstUpdateRecordsOnly(acc: Accumulator, value: real, now: Millis)
    requires acc.firstTime
    ensures Accumulate(acc, value, now).result == acc.result
    ensures Accumulate(acc, value, now) == Accumulator(false, now, value, acc.result)
  {
  }

  /** Each later update adds the trapezoid between the previous sample and
      this one, whatever the clock did in between. */
  lemma LaterUpdateAddsTrapezoid(acc: Accumulator, value: real, now: Millis)
    requires !acc.firstTime
    ensures Accumulate(acc, value, now).result
         == acc.result + 0.5 * (acc.lastValue + value) * (Elapsed(now, acc.lastT) as real / 1000.0)
  {
  }

  /** The area between two non-negative samples is non-negative. */
  lemma TrapezoidNonNegative(v0: real, v1: real, dt: real)
    requires 0.0 <= v0 && 0.0 <= v1 && 0.0 <= dt
    ensures 0.0 <= Trapezoid(v0, v1, dt)
  {
    var h := 0.5 * (v0 + v1);
    assert 0.0 <= h;
    assert Trapezoid(v0, v1, dt) == h * dt;
  }

  predicate NonNegativeReadings(rs: seq<Reading>)
  {
    forall i :: 0 <= i < |rs| ==> 0.0 <= rs[i].value
  }

  /** With non-negative power the integral never decreases. */
  lemma {:induction false} ResultNeverDecreases(acc: Accumulator, rs: seq<Reading>)
    requires acc.firstTime || 0.0 <= acc.lastValue
    requires NonNegativeReadings(rs)
    ensures acc.result <= AccumulateAll(acc, rs).result
    decreases |rs|
  {
    if rs != [] {
      var next := Accumulate(acc, rs[0].value, rs[0].at);
      if !acc.firstTime {
        TrapezoidNonNegative(acc.lastValue, rs[0].value, Seconds(rs[0].at, acc.lastT));
      }
      assert NonNegativeReadings(rs[1..]) by {
        forall i | 0 <= i < |rs[1..]| ensures 0.0 <= rs[1..][i].value {
          assert rs[1..][i] == rs[i + 1];
        }
      }
      ResultNeverDecreases(next, rs[1..]);
    }
  }

  /** Constant power `p` sampled at two clock readings `d` ms apart yields
      `p * d / 1000`, also when the counter wraps between the readings. */
  lemma ConstantPowerTwoSamples(p: real, t0: Millis, d: Millis)
    ensures AccumulateAll(Initial, [Reading(p, t0), Reading(p, ClockAt(t0 + d))]).result
         == p * (d as real / 1000.0)
  {
    ElapsedIsWrapSafe(t0, t0 + d);
    assert ClockAt(t0) == t0;
    var rs := [Reading(p, t0), Reading(p, ClockAt(t0 + d))];
    var a1 := Accumulate(Initial, p, t0);
    assert rs[1..] == [Reading(p, ClockAt(t0 + d))];
    assert rs[1..][1..] == [];
    var a2 := Accumulate(a1, p, ClockAt(t0 + d));
    assert AccumulateAll(Initial, rs) == AccumulateAll(a1, rs[1..]);
    assert AccumulateAll(a1, rs[1..]) == AccumulateAll(a2, []) == a2;
    assert Seconds(ClockAt(t0 + d), a1.lastT) == d as real / 1000.0;
    assert a2.result == 0.5 * (p + p) * (d as real / 1000.0);
  }

  // ---------------------------------------------------------------------

  class Integrator {
    var firstTime: bool
    var lastT: Millis
    var lastValue: real
    var result: real

    function State(): Accumulator
      reads this
    {
      Accumulator(firstTime, lastT, lastValue, result)
    }

    constructor ()
      ensures State() == Initial
    {
      firstTime := true;
      lastT := 0;
      lastValue := 0.0;
      result := 0.0;
    }

    /** `update(value)`, with the clock reading passed in. Returns the
        running integral. */
    method Update(value: real, now: Millis) returns (r: real)
      modifies this
      ensures State() == Accumulate(old(State()), value, now)
      ensures r == result
    {
      if !firstTime {
        var deltaT := Elapsed(now, lastT) as real / 1000.0;
        result := result + 0.5 * (lastValue + value) * deltaT;
      } else {
        firstTime := false;
      }
      lastValue := value;
      lastT := now;
      r := result;
    }
  }
}
