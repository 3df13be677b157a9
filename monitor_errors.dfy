/** The error type shared by the safety monitors
    (firmware/monitor-app/src/monitors/mod.rs). */
module MonitorErrors {
  import opened Wrappers
  import Throttles
  import Timeouts

  /** `MonitorError`; `Timout` keeps the source's spelling. */
  datatype MonitorError = Throttle(error: Throttles.ThrottleError) | Torque | Main | Timout

  /** `From<TimeoutError> for MonitorError`: every timeout error becomes `Timout`. */
  function FromTimeoutError(e: Timeouts.TimeoutError): (m: MonitorError)
    ensures m.Timout?
  {
    Timout
  }

  /** The `?` operator applied to a tick: success passes through, an elapsed
      timeout is reported as `Timout`. */
  function LiftTick(r: Result<(), Timeouts.TimeoutError>): (m: Result<(), MonitorError>)
    ensures m.Ok? <==> r.Ok?
    ensures m.Err? ==> m.error == Timout
  {
    match r
    case Ok(_) => Ok(())
    case Err(e) => Err(FromTimeoutError(e))
  }

  /** A throttle fault keeps its cause: different throttle errors give
      different monitor errors, and none of them is a timeout. */
  lemma ThrottleFaultsDistinct(e1: Throttles.ThrottleError, e2: Throttles.ThrottleError)
    ensures Throttle(e1) == Throttle(e2) <==> e1 == e2
    ensures Throttle(e1) != Timout && Throttle(e1) != Main && Throttle(e1) != Torque
  {
  }

  /** A lifted tick never reports `Main`, `Torque` or a throttle fault. */
  lemma LiftTickOnlyTimeout(r: Result<(), Timeouts.TimeoutError>)
    ensures LiftTick(r) != Err(Main) && LiftTick(r) != Err(Torque)
    ensures forall e :: LiftTick(r) != Err(Throttle(e))
  {
  }
}
