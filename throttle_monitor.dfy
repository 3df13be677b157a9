/** The throttle monitor (firmware/monitor-app/src/monitors/throttle.rs).

    Each check reads the throttle position. A good reading is reported and
    refills the grace timeout; a bad reading ticks the timeout and is masked
    as position 0 while the timeout has ticks left, then reported as a
    throttle fault with its cause. */
module ThrottleMonitors {
  import opened Wrappers
  import opened Primitives
  import opened Timeouts
  import opened MonitorErrors
  import Throttles

  /** One check on a grace counter: the counter afterwards and the outcome. */
  function CheckStep(t: Throttles.Throttle, reset: nat, counter: nat, sensor1: u16, sensor2: u16)
    : (step: (nat, Result<u16, MonitorError>))
    ensures Throttles.Position(t, sensor1, sensor2).Ok? ==>
      step == (reset, Ok(Throttles.Position(t, sensor1, sensor2).value))
    ensures Throttles.Position(t, sensor1, sensor2).Err? && counter > 0 ==>
      step == (counter - 1, Ok(0))
    ensures Throttles.Position(t, sensor1, sensor2).Err? && counter == 0 ==>
      step == (0, Err(Throttle(Throttles.Position(t, sensor1, sensor2).error)))
  {
    match Throttles.Position(t, sensor1, sensor2)
    case Err(e) =>
      var (next, tick) := TickStep(counter);
      (next, if tick == Err(Elapsed) then Err(Throttle(e)) else Ok(0))
    case Ok(position) => (reset, Ok(position))
  }

  /** The outcomes of successive checks on `readings`. */
  function CheckRun(t: Throttles.Throttle, reset: nat, counter: nat, readings: seq<(u16, u16)>)
    : (rs: seq<Result<u16, MonitorError>>)
    ensures |rs| == |readings|
    decreases |readings|
  {
    if readings == [] then []
    else
      var step := CheckStep(t, reset, counter, readings[0].0, readings[0].1);
      [step.1] + CheckRun(t, reset, step.0, readings[1..])
  }

  /** A bad reading is one the throttle rejects. */
  ghost predicate AllBad(t: Throttles.Throttle, readings: seq<(u16, u16)>) {
    forall i :: 0 <= i < |readings| ==> Throttles.Position(t, readings[i].0, readings[i].1).Err?
  }

  /** With `counter` grace ticks left, the first `counter` bad readings are
      masked as 0, and every later one is reported with its own cause. */
  lemma {:induction false} BadReadingsMasked(t: Throttles.Throttle, reset: nat, counter: nat, readings: seq<(u16, u16)>)
    requires AllBad(t, readings)
    ensures forall i :: 0 <= i < |readings| && i < counter ==> CheckRun(t, reset, counter, readings)[i] == Ok(0)
    ensures forall i :: counter <= i < |readings| ==>
      CheckRun(t, reset, counter, readings)[i] == Err(Throttle(Throttles.Position(t, readings[i].0, readings[i].1).error))
    decreases |readings|
  {
    if readings != [] {
      var next := CheckStep(t, reset, counter, readings[0].0, readings[0].1).0;
      assert AllBad(t, readings[1..]) by {
        forall i | 0 <= i < |readings[1..]|
          ensures Throttles.Position(t, readings[1..][i].0, readings[1..][i].1).Err?
        {
          assert readings[1..][i] == readings[i + 1];
        }
      }
      BadReadingsMasked(t, reset, next, readings[1..]);
      forall i | 0 < i < |readings|
        ensures CheckRun(t, reset, counter, readings)[i] == CheckRun(t, reset, next, readings[1..])[i - 1]
        ensures readings[i] == readings[1..][i - 1]
      {
      }
    }
  }

  /** The source's unit test: tolerance 1500 and two grace ticks mask two
      mismatched readings, report the third, and a good reading afterwards
      is reported again. */
  lemma MonitorExample()
    ensures
      var t := Throttles.NewThrottle((1000, 2000), (3000, 4000), 1500);
      CheckRun(t, 2, 2, [(1200, 3700), (1200, 3700), (1200, 3700), (1500, 3500)])
        == [Ok(0), Ok(0), Err(Throttle(Throttles.SensorMismatch)), Ok(32767)]
  {
    var t := Throttles.NewThrottle((1000, 2000), (3000, 4000), 1500);
    assert Throttles.Position(t, 1200, 3700) == Err(Throttles.SensorMismatch);
    assert Throttles.Position(t, 1500, 3500) == Ok(32767);
  }

  class ThrottleMonitor {
    /** The shared throttle; a value, so the monitor only ever reads it. */
    const throttle: Throttles.Throttle
    const timeout: Timeout

    ghost predicate Valid()
      reads this, timeout
    {
      timeout.Valid()
    }

    /** `ThrottleMonitor::new`: the grace timeout starts full. */
    constructor (throttle: Throttles.Throttle, timeout: nat)
      ensures this.throttle == throttle
      ensures this.timeout.resetValue == timeout && this.timeout.counter == timeout
      ensures fresh(this.timeout)
      ensures Valid()
    {
      this.throttle := throttle;
      this.timeout := new Timeout(timeout);
    }

    /** `check`: report a good reading and refill the timeout; mask a bad
        one until the timeout has elapsed. */
    method Check(sensor1: u16, sensor2: u16) returns (r: Result<u16, MonitorError>)
      requires Valid()
      modifies timeout
      ensures Valid()
      ensures (timeout.counter, r) == CheckStep(throttle, timeout.resetValue, old(timeout.counter), sensor1, sensor2)
    {
      match Throttles.Position(throttle, sensor1, sensor2)
      case Err(e) =>
        var tick := timeout.Tick();
        match tick {
          case Err(Elapsed) =>
            r := Err(Throttle(e));
          case Ok(_) =>
            r := Ok(0);
        }
      case Ok(position) =>
        timeout.Reset();
        r := Ok(position);
    }
  }
}
