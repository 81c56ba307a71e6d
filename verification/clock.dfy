/**
 * The rotation angles, in degrees, of the three hands of the analog clock.
 * Angles are exact reals; the source computes them in floating point.
 */
module Clock {

  /** JavaScript's `%` on integers: the remainder truncated toward zero. */
  function JsRem(a: int, b: int): (r: int)
    requires b > 0
    ensures a >= 0 ==> 0 <= r < b
    ensures a < 0 ==> -b < r <= 0
  {
    if a >= 0 then a % b else -((-a) % b)
  }

  /**
   * `(hour % 12) * 30 + minute * 0.5`. On the hours a clock shows this is
   * the position of the hour within the half day plus half a degree per
   * minute; a negative hour keeps its sign through `%`.
   */
  function HourDeg(hour: int, minute: int): (deg: real)
    ensures hour >= 0 ==> deg == ((hour % 12) * 30) as real + minute as real / 2.0
    ensures hour >= 0 ==> 0.0 <= deg - minute as real / 2.0 <= 330.0
    ensures hour < 0 ==> -330.0 <= deg - minute as real / 2.0 <= 0.0
  {
    (JsRem(hour, 12) * 30) as real + minute as real * 0.5
  }

  /**
   * `minute * 6` and `second * 6`: the angle of a hand that turns once per
   * sixty units, six degrees per unit.
   */
  function SixtiethDeg(units: int): (deg: real)
    ensures 0 <= units < 60 ==> 0.0 <= deg <= 354.0
    ensures deg / 6.0 == units as real
  {
    (units * 6) as real
  }

  /**
   * The minute and second hands advance six degrees per unit and come back
   * to the same angle after sixty units, a full turn.
   */
  lemma SixtiethStep(units: int)
    ensures SixtiethDeg(units + 1) == SixtiethDeg(units) + 6.0
    ensures SixtiethDeg(units + 60) == SixtiethDeg(units) + 360.0
  {
  }

  /** For clock-range inputs the hour hand stays in [0, 359.5]. */
  lemma HourDegInRange(hour: int, minute: int)
    requires 0 <= hour < 24 && 0 <= minute < 60
    ensures 0.0 <= HourDeg(hour, minute) <= 359.5 < 360.0
  {
  }

  /** The hour hand has period 12 over non-negative hours. */
  lemma HourDegTwelveHourPeriod(hour: int, minute: int)
    requires hour >= 0
    ensures HourDeg(hour + 12, minute) == HourDeg(hour, minute)
  {
    assert JsRem(hour + 12, 12) == JsRem(hour, 12);
  }

  /** Each extra minute moves the hour hand by exactly half a degree. */
  lemma HourDegPerMinute(hour: int, minute: int)
    ensures HourDeg(hour, minute + 1) == HourDeg(hour, minute) + 0.5
  {
  }
}
