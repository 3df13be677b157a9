/** A countdown timeout (firmware/common/src/timeout.rs).

    A `Timeout` holds a reset value and a counter that starts at it. Each tick
    takes one off the counter; a tick on a counter of 0 fails with `Elapsed`
    and leaves the counter at 0, so every later tick fails too until the
    timeout is reset. The counter is a `usize` in the source; it never grows
    past the reset value, so it is modelled as a `nat`. */
module Timeouts {
  import opened Wrappers

  datatype TimeoutError = Elapsed

  /** One tick on a counter value: the counter afterwards and the outcome. */
  function TickStep(counter: nat): (step: (nat, Result<(), TimeoutError>))
    ensures step.1.Ok? <==> counter > 0
    ensures step.0 == if counter > 0 then counter - 1 else counter
  {
    if counter == 0 then (0, Err(Elapsed)) else (counter - 1, Ok(()))
  }

  /** The outcomes of `n` consecutive ticks from `counter`. */
  function Outcomes(counter: nat, n: nat): (rs: seq<Result<(), TimeoutError>>)
    ensures |rs| == n
    decreases n
  {
    if n == 0 then [] else [TickStep(counter).1] + Outcomes(TickStep(counter).0, n - 1)
  }

  /** The counter after `n` consecutive ticks from `counter`. */
  function After(counter: nat, n: nat): nat
    decreases n
  {
    if n == 0 then counter else After(TickStep(counter).0, n - 1)
  }

  /** Ticks from `counter` succeed exactly the first `counter` times: tick `i`
      succeeds if and only if `i < counter`. */
  lemma {:induction false} OutcomesExact(counter: nat, n: nat)
    ensures forall i :: 0 <= i < n ==> (Outcomes(counter, n)[i].Ok? <==> i < counter)
    decreases n
  {
    if n > 0 {
      OutcomesExact(TickStep(counter).0, n - 1);
      forall i | 0 <= i < n
        ensures Outcomes(counter, n)[i].Ok? <==> i < counter
      {
        if i > 0 {
          assert Outcomes(counter, n)[i] == Outcomes(TickStep(counter).0, n - 1)[i - 1];
        }
      }
    }
  }

  /** After `n` ticks the counter has gone down by `n`, stopping at 0. */
  lemma {:induction false} AfterCountsDown(counter: nat, n: nat)
    ensures After(counter, n) == if n <= counter then counter - n else 0
    decreases n
  {
    if n > 0 {
      AfterCountsDown(TickStep(counter).0, n - 1);
    }
  }

  /** The source's unit test: a timeout of 2 allows two ticks, then fails;
      after a reset it allows two ticks again. */
  lemma TwoTickTimeout()
    ensures Outcomes(2, 4) == [Ok(()), Ok(()), Err(Elapsed), Err(Elapsed)]
    ensures Outcomes(2, 3) == [Ok(()), Ok(()), Err(Elapsed)]
  {
  }

  class Timeout {
    /** The value `reset` restores (the source's `reset` field). */
    const resetValue: nat
    var counter: nat

    ghost predicate Valid()
      reads this
    {
      counter <= resetValue
    }

    /** `Timeout::new`: the counter starts full. */
    constructor (reset: nat)
      ensures resetValue == reset && counter == reset
      ensures Valid()
    {
      resetValue := reset;
      counter := reset;
    }

    /** `tick`: take one off the counter, failing with `Elapsed` at 0. */
    method Tick() returns (r: Result<(), TimeoutError>)
      requires Valid()
      modifies this
      ensures Valid()
      ensures (counter, r) == TickStep(old(counter))
    {
      if counter == 0 {
        r := Err(Elapsed);
      } else {
        counter := counter - 1;
        r := Ok(());
      }
    }

    /** `reset`: restore the counter to the reset value. */
    method Reset()
      modifies this
      ensures Valid()
      ensures counter == resetValue
    {
      counter := resetValue;
    }
  }
}
