/** Throttle position from two redundant sensors (firmware/common/src/throttle.rs).

    A `Map` scales a sensor reading in millivolts from its calibrated range
    `min..=max` onto the full `0..=65535` range, rounding down. A `Throttle`
    maps both sensor readings, rejects a reading outside its range and a
    pair of readings that disagree by more than the tolerance, and reports
    the mean of the two mapped values. The source's arithmetic is done in
    `u32`; the lemmas below show it never overflows and that the final
    conversion back to `u16` never fails. */
module Throttles {
  import opened Wrappers
  import opened Primitives

  /** `ThrottleError`; the source's `IntegerError` carries the standard
      library's conversion error, which has no observable content. */
  datatype ThrottleError = SensorOutOfRange | SensorMismatch | IntegerError

  /** A calibrated sensor range. */
  datatype Map = Map(min: u16, max: u16)

  datatype Throttle = Throttle(sensor1Map: Map, sensor2Map: Map, tolerance: u16)

  /** `Map::new`: the two bounds, put in order. */
  function NewMap(a: u16, b: u16): (m: Map)
    ensures m.min <= m.max
    ensures (m.min == a && m.max == b) || (m.min == b && m.max == a)
  {
    Map(if a <= b then a else b, if a <= b then b else a)
  }

  /** `Throttle::new`. */
  function NewThrottle(sensor1: (u16, u16), sensor2: (u16, u16), tolerance: u16): (t: Throttle)
    ensures t.sensor1Map.min <= t.sensor1Map.max && t.sensor2Map.min <= t.sensor2Map.max
    ensures t.sensor1Map == NewMap(sensor1.0, sensor1.1) && t.sensor2Map == NewMap(sensor2.0, sensor2.1)
    ensures t.tolerance == tolerance
  {
    Throttle(NewMap(sensor1.0, sensor1.1), NewMap(sensor2.0, sensor2.1), tolerance)
  }

  /** `abs_diff` on `u16`. */
  function AbsDiff(a: u16, b: u16): (d: u16)
    ensures d as int == a - b || d as int == b - a
    ensures a <= b + d && b <= a + d
  {
    if a <= b then b - a else a - b
  }

  /** The product `(value - min) * u16::MAX` fits in a `u32`. */
  lemma ScaledFitsU32(offset: u16)
    ensures offset * U16_MAX <= U32_MAX
  {
    assert offset * U16_MAX <= 0xFFFF * 0xFFFF;
  }

  /** `Map::map`: `None` for a reading outside `min..=max`; `checked_div`
      also gives `None` when the range is a single point. Otherwise the
      offset scaled by 65535 and divided by the width of the range, rounded
      down; the quotient is at most 65535, so the `u16` conversion succeeds. */
  function MapValue(m: Map, value: u16): (r: Option<u16>)
    ensures r.Some? <==> m.min <= value <= m.max && m.min != m.max
    ensures r.Some? ==>
      var span := AbsDiff(m.min, m.max) as int;
      r.value * span <= (value - m.min) * U16_MAX < (r.value + 1) * span
  {
    if value < m.min || value > m.max then None
    else
      var offset: u16 := value - m.min;
      ScaledFitsU32(offset);
      var scaled: u32 := offset * U16_MAX;
      var span := AbsDiff(m.min, m.max);
      if span == 0 then None
      else
        QuotientAtMost(offset, span);
        var q := scaled / span;
        if q <= U16_MAX then Some(q as u16) else None
  }

  /** The quotient is at most 65535 because the offset is at most the span. */
  lemma QuotientAtMost(offset: u16, span: u16)
    requires 0 < span && offset <= span
    ensures offset * U16_MAX / span <= U16_MAX
  {
    MulLeftMonotone(offset, span, U16_MAX);
    assert span * U16_MAX / span == U16_MAX;
    DivMonotone(offset * U16_MAX, span * U16_MAX, span);
  }

  lemma MulLeftMonotone(a: nat, b: nat, c: nat)
    requires a <= b
    ensures a * c <= b * c
  {
  }

  lemma DivMonotone(x: nat, y: nat, d: nat)
    requires x <= y && 0 < d
    ensures x / d <= y / d
  {
    if x / d > y / d {
      MulLeftMonotone(y / d + 1, x / d, d);
      assert false;
    }
  }

  /** The bottom of the range maps to 0 and the top to 65535. */
  lemma MapEndpoints(m: Map)
    requires m.min < m.max
    ensures MapValue(m, m.min) == Some(0)
    ensures MapValue(m, m.max) == Some(U16_MAX)
  {
    var span := AbsDiff(m.min, m.max) as int;
    var top := MapValue(m, m.max).value;
    assert top * span <= span * U16_MAX < (top + 1) * span;
    if top < U16_MAX {
      MulLeftMonotone(top + 1, U16_MAX, span);
    }
  }

  /** A higher reading never maps lower. */
  lemma MapMonotone(m: Map, v1: u16, v2: u16)
    requires m.min <= v1 <= v2 <= m.max && m.min != m.max
    ensures MapValue(m, v1).value <= MapValue(m, v2).value
  {
    var span := AbsDiff(m.min, m.max) as int;
    var r1, r2 := MapValue(m, v1).value, MapValue(m, v2).value;
    MulLeftMonotone(v1 - m.min, v2 - m.min, U16_MAX);
    if r1 > r2 {
      MulLeftMonotone(r2 + 1, r1, span);
      assert false;
    }
  }

  /** `Throttle::position`: sensor 1 is checked first, then sensor 2, then
      their agreement; the result is the mean of the two mapped values. */
  function Position(t: Throttle, sensor1: u16, sensor2: u16): (r: Result<u16, ThrottleError>)
    ensures r != Err(IntegerError)
    ensures r == Err(SensorOutOfRange) <==>
      MapValue(t.sensor1Map, sensor1).None? || MapValue(t.sensor2Map, sensor2).None?
    ensures r == Err(SensorMismatch) <==>
      MapValue(t.sensor1Map, sensor1).Some? && MapValue(t.sensor2Map, sensor2).Some? &&
      AbsDiff(MapValue(t.sensor1Map, sensor1).value, MapValue(t.sensor2Map, sensor2).value) > t.tolerance
    ensures r.Ok? ==>
      var p1, p2 := MapValue(t.sensor1Map, sensor1).value, MapValue(t.sensor2Map, sensor2).value;
      (p1 <= r.value <= p2 || p2 <= r.value <= p1) && 2 * r.value <= p1 + p2 <= 2 * r.value + 1
  {
    match MapValue(t.sensor1Map, sensor1)
    case None => Err(SensorOutOfRange)
    case Some(p1) =>
      match MapValue(t.sensor2Map, sensor2)
      case None => Err(SensorOutOfRange)
      case Some(p2) =>
        if AbsDiff(p1, p2) > t.tolerance then Err(SensorMismatch)
        else
          var mean: u32 := (p1 + p2) / 2;
          if mean <= U16_MAX then Ok(mean as u16) else Err(IntegerError)
  }

  /** An accepted position is within half the tolerance of each mapped reading. */
  lemma PositionNearBoth(t: Throttle, sensor1: u16, sensor2: u16)
    requires Position(t, sensor1, sensor2).Ok?
    ensures
      var p := Position(t, sensor1, sensor2).value;
      var p1, p2 := MapValue(t.sensor1Map, sensor1).value, MapValue(t.sensor2Map, sensor2).value;
      2 * AbsDiff(p, p1) <= t.tolerance + 1 && 2 * AbsDiff(p, p2) <= t.tolerance + 1
  {
  }

  /** The source's `map` unit test. */
  lemma MapExamples()
    ensures MapValue(NewMap(1000, 2000), 999) == None
    ensures MapValue(NewMap(1000, 2000), 2001) == None
    ensures MapValue(NewMap(1000, 2000), 1000) == Some(0)
    ensures MapValue(NewMap(1000, 2000), 1500) == Some(32767)
    ensures MapValue(NewMap(1000, 2000), 2000) == Some(65535)
  {
  }

  /** The source's `throttle` unit test. */
  lemma PositionExamples()
    ensures Position(NewThrottle((1000, 2000), (3000, 4000), 250), 1500, 3500) == Ok(32767)
    ensures Position(NewThrottle((1000, 2000), (3000, 4000), 250), 500, 3500) == Err(SensorOutOfRange)
    ensures Position(NewThrottle((1000, 2000), (3000, 4000), 250), 1500, 5000) == Err(SensorOutOfRange)
    ensures Position(NewThrottle((1000, 2000), (3000, 4000), 250), 1501, 3500) == Ok(32800)
    ensures Position(NewThrottle((1000, 2000), (3000, 4000), 250), 1505, 3500) == Err(SensorMismatch)
  {
  }
}
