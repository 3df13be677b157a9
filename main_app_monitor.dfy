/** The main-application monitor (firmware/monitor-app/src/monitors/main_app.rs).

    The monitor numbers the pings it sends and watches a liveness timeout,
    which each ping refills and each tick runs down. Sending the ping and
    checking for the answer are not written yet in the source. */
module MainAppMonitors {
  import opened Wrappers
  import opened Primitives
  import opened Timeouts
  import opened MonitorErrors

  class MainAppMonitor {
    /** The source's `timout` field. */
    const timeout: Timeout
    var latestPing: u32

    ghost predicate Valid()
      reads this, timeout
    {
      timeout.Valid()
    }

    /** `MainAppMonitor::new`: no ping sent, the timeout full. */
    constructor (timeout: nat)
      ensures latestPing == 0
      ensures this.timeout.resetValue == timeout && this.timeout.counter == timeout
      ensures fresh(this.timeout)
      ensures Valid()
    {
      this.timeout := new Timeout(timeout);
      latestPing := 0;
    }

    /** `send_ping`: refill the timeout and number the next ping. The `u32`
        increment overflows at `u32::MAX`, so the caller must stay below it. */
    method SendPing()
      requires Valid() && latestPing < U32_MAX
      modifies this, timeout
      ensures Valid()
      ensures latestPing == old(latestPing) + 1
      ensures timeout.counter == timeout.resetValue
    {
      timeout.Reset();
      latestPing := latestPing + 1;
    }

    /** `tick`: run the timeout down; an elapsed timeout is `Timout`. */
    method Tick() returns (r: Result<(), MonitorError>)
      requires Valid()
      modifies timeout
      ensures Valid()
      ensures latestPing == old(latestPing)
      ensures timeout.counter == TickStep(old(timeout.counter)).0
      ensures r == LiftTick(TickStep(old(timeout.counter)).1)
    {
      var tick := timeout.Tick();
      r := LiftTick(tick);
    }
  }

  /** The outcomes of `n` monitor ticks from a timeout counter of `counter`. */
  function TickOutcomes(counter: nat, n: nat): (rs: seq<Result<(), MonitorError>>)
    ensures |rs| == n
  {
    seq(n, i requires 0 <= i < n => LiftTick(Outcomes(counter, n)[i]))
  }

  /** After `new(n)` or a ping, exactly the first `n` ticks succeed and every
      later one reports `Timout`. */
  lemma TicksAfterPing(reset: nat, n: nat)
    ensures forall i :: 0 <= i < n && i < reset ==> TickOutcomes(reset, n)[i] == Ok(())
    ensures forall i :: reset <= i < n ==> TickOutcomes(reset, n)[i] == Err(Timout)
  {
    OutcomesExact(reset, n);
  }
}
