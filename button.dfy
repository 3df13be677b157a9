/** The button debounce filter (firmware/direction-app/src/button.rs).

    The filter reports a stable button state. A counter between 0 and
    `LIMIT` climbs on samples that disagree with a released state and falls
    on samples that disagree with a pressed state; the reported state flips
    only when the counter reaches `LIMIT` or 0, and a sample that agrees
    with the reported state refills or empties the counter at once. */
module Buttons {
  import opened Primitives

  /** The filter's invariant: a pressed state has a counter in `1..=limit`,
      a released state a counter below `limit`. */
  ghost predicate Consistent(limit: nat, value: bool, counter: nat) {
    (value ==> 1 <= counter <= limit) && (!value ==> counter < limit)
  }

  /** One sample: the reported state and counter afterwards. */
  function SampleStep(limit: nat, value: bool, counter: nat, sample: bool): (next: (bool, nat))
    requires Consistent(limit, value, counter)
    ensures Consistent(limit, next.0, next.1)
    ensures !value && !sample ==> next == (false, 0)
    ensures value && sample ==> next == (true, limit)
    ensures !value && sample ==> next.1 == counter + 1 && (next.0 <==> counter + 1 >= limit)
    ensures value && !sample ==> next.1 == counter - 1 && (next.0 <==> counter - 1 != 0)
  {
    match (value, sample)
    case (false, false) => (false, 0)
    case (true, true) => (true, limit)
    case (false, true) => (counter + 1 >= limit, counter + 1)
    case (true, false) => (counter - 1 != 0, counter - 1)
  }

  /** The state after `k` equal samples. */
  function Repeated(limit: nat, value: bool, counter: nat, sample: bool, k: nat): (next: (bool, nat))
    requires Consistent(limit, value, counter)
    ensures Consistent(limit, next.0, next.1)
    decreases k
  {
    if k == 0 then (value, counter)
    else
      var previous := Repeated(limit, value, counter, sample, k - 1);
      SampleStep(limit, previous.0, previous.1, sample)
  }

  /** From released with counter `c`, `k` pressed samples report pressed
      exactly when `c + k` reaches `limit`. */
  lemma {:induction false} PressCounts(limit: nat, c: nat, k: nat)
    requires c < limit
    ensures Repeated(limit, false, c, true, k) == if c + k < limit then (false, c + k) else (true, limit)
    decreases k
  {
    if k > 0 {
      PressCounts(limit, c, k - 1);
    }
  }

  /** From pressed with counter `c`, `k` released samples report released
      exactly when `k` reaches `c`. */
  lemma {:induction false} ReleaseCounts(limit: nat, c: nat, k: nat)
    requires 1 <= c <= limit
    ensures Repeated(limit, true, c, false, k) == if k < c then (true, c - k) else (false, 0)
    decreases k
  {
    if k > 0 {
      ReleaseCounts(limit, c, k - 1);
    }
  }

  /** A released button needs exactly `limit` consecutive pressed samples to
      report pressed, and a pressed one exactly `limit` released samples to
      report released. */
  lemma ExactlyLimitSamples(limit: nat, k: nat)
    requires limit >= 1
    ensures Repeated(limit, false, 0, true, k).0 <==> k >= limit
    ensures !Repeated(limit, true, limit, false, k).0 <==> k >= limit
  {
    PressCounts(limit, 0, k);
    ReleaseCounts(limit, limit, k);
  }

  /** A single contrary sample is filtered out: released, then one pressed
      sample, then a released one, is released with the counter emptied. */
  lemma GlitchFiltered(limit: nat)
    requires limit >= 2
    ensures
      var s := SampleStep(limit, false, 0, true);
      !s.0 && SampleStep(limit, s.0, s.1, false) == (false, 0)
  {
  }

  class ButtonFilter {
    /** The const generic `LIMIT`. */
    const limit: u32
    var counter: u32
    var value: bool

    ghost predicate Valid()
      reads this
    {
      limit >= 1 && Consistent(limit, value, counter)
    }

    /** `ButtonFilter::new`: the counter starts full when pressed and
        empty when released. */
    constructor (limit: u32, value: bool)
      requires limit >= 1
      ensures this.limit == limit && this.value == value
      ensures counter == if value then limit else 0
      ensures Valid()
    {
      this.limit := limit;
      counter := if value then limit else 0;
      this.value := value;
    }

    /** `sample`: take one sample and report the filtered state. The
        invariant keeps the increment below `u32::MAX` and the decrement
        above 0. */
    method Sample(sample: bool) returns (reported: bool)
      requires Valid()
      modifies this
      ensures Valid()
      ensures (value, counter as nat) == SampleStep(limit, old(value), old(counter), sample)
      ensures reported == value
    {
      match (value, sample) {
        case (false, false) =>
          value, counter := false, 0;
        case (true, true) =>
          value, counter := true, limit;
        case (false, true) =>
          counter := counter + 1;
          value := if counter >= limit then true else value;
        case (true, false) =>
          counter := counter - 1;
          value := if counter == 0 then false else value;
      }
      reported := value;
    }
  }
}
