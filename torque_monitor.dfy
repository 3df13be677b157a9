/** The torque monitor (firmware/monitor-app/src/monitors/torque.rs).

    The monitor holds a frame-freshness timeout, which each tick runs down,
    and an error timeout, which nothing uses yet. A torque-request frame is
    accepted whatever it carries: the check against the accelerator
    position is not written in the source, and receiving a frame does not
    refresh the frame timeout. */
module TorqueMonitors {
  import opened Wrappers
  import opened Primitives
  import opened Timeouts
  import opened MonitorErrors
  import EvCan

  class TorqueMonitor {
    const frameTimeout: Timeout
    const errorTimeout: Timeout

    ghost predicate Valid()
      reads this, frameTimeout, errorTimeout
    {
      frameTimeout != errorTimeout && frameTimeout.Valid() && errorTimeout.Valid()
    }

    /** `TorqueMonitor::new`: both timeouts start full. */
    constructor (frameTimeout: nat, errorTimeout: nat)
      ensures this.frameTimeout.resetValue == frameTimeout && this.frameTimeout.counter == frameTimeout
      ensures this.errorTimeout.resetValue == errorTimeout && this.errorTimeout.counter == errorTimeout
      ensures fresh(this.frameTimeout) && fresh(this.errorTimeout)
      ensures Valid()
    {
      this.frameTimeout := new Timeout(frameTimeout);
      this.errorTimeout := new Timeout(errorTimeout);
    }

    /** `tick`: run the frame timeout down; the error timeout is untouched. */
    method Tick() returns (r: Result<(), MonitorError>)
      requires Valid()
      modifies frameTimeout
      ensures Valid()
      ensures frameTimeout.counter == TickStep(old(frameTimeout.counter)).0
      ensures errorTimeout.counter == old(errorTimeout.counter)
      ensures r == LiftTick(TickStep(old(frameTimeout.counter)).1)
    {
      var tick := frameTimeout.Tick();
      r := LiftTick(tick);
    }

    /** `frame`: every torque request is accepted, and no timeout changes.
        The source's `Err(Torque)` branch cannot be reached, since a torque
        request is the only kind of frame. */
    method Frame(accPosition: u16, frame: EvCan.EvCanFrame) returns (r: Result<(), MonitorError>)
      ensures r == Ok(())
    {
      match frame
      case TorqueRequest(_, _) =>
        r := Ok(());
    }
  }
}
