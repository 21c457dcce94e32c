/**
 * Stick normalisation (`CalcAnalogStick2`): a raw 16-bit stick reading is
 * clamped to the calibrated extents and mapped to [-1, 1] by an asymmetric
 * ratio, against the upper extent at or above the centre and against the
 * lower extent below it. Floats are modelled as reals; a zero denominator,
 * which gives a non-finite float in the source, is `None`.
 */
module StickMapper {
  import opened Bytes
  import opened Calibration

  /**
   * `clamp(v, lo, hi)` from tools.cpp, which is not part of this model;
   * assumed to raise values below `lo` to `lo` and lower values above `hi`
   * to `hi`, checking the lower bound first.
   */
  function Clamp(v: int, lo: int, hi: int): (r: int)
    ensures lo <= hi ==> lo <= r <= hi
    ensures lo <= v <= hi ==> r == v
    ensures v < lo ==> r == lo
    ensures lo <= hi && v > hi ==> r == hi
  {
    if v < lo then lo else if v > hi then hi else v
  }

  /** One axis of `CalcAnalogStick2`. */
  function Normalize(raw: uint16, cal: AxisCal): Option<real>
  {
    var v := Clamp(raw, cal.min, cal.max);
    if v >= cal.center then
      if cal.max == cal.center then None
      else Some((v - cal.center) as real / (cal.max - cal.center) as real)
    else
      if cal.min == cal.center then None
      else Some(-((v - cal.center) as real / (cal.min - cal.center) as real))
  }

  /** An axis whose extents lie strictly on either side of its centre. */
  predicate Ordered(cal: AxisCal)
  {
    cal.min < cal.center < cal.max
  }

  /** Both axes of a stick reading, `pOutX` and `pOutY`. */
  function CalcAnalogStick2(x: uint16, y: uint16, xCal: AxisCal, yCal: AxisCal): (r: (Option<real>, Option<real>))
    ensures Ordered(xCal) ==> r.0.Some? && -1.0 <= r.0.value <= 1.0
    ensures Ordered(yCal) ==> r.1.Some? && -1.0 <= r.1.value <= 1.0
  {
    NormalizeInRange(x, xCal);
    NormalizeInRange(y, yCal);
    (Normalize(x, xCal), Normalize(y, yCal))
  }

  /** With ordered extents every reading gives a finite value in [-1, 1], with the sign of its side of the centre. */
  lemma NormalizeInRange(raw: uint16, cal: AxisCal)
    ensures Ordered(cal) ==> Normalize(raw, cal).Some?
    ensures Ordered(cal) ==> -1.0 <= Normalize(raw, cal).value <= 1.0
    ensures Ordered(cal) ==> (0.0 <= Normalize(raw, cal).value <==> cal.center <= raw)
  {
    if Ordered(cal) {
      NormalizeSides(raw, cal);
      var v := Clamp(raw, cal.min, cal.max);
      if cal.center <= v {
        DivAtMostOne((v - cal.center) as real, (cal.max - cal.center) as real);
      } else {
        DivAtMostOne((cal.center - v) as real, (cal.center - cal.min) as real);
      }
    }
  }

  lemma DivAtMostOne(a: real, b: real)
    requires 0.0 <= a <= b && 0.0 < b
    ensures 0.0 <= a / b <= 1.0
    ensures a > 0.0 ==> a / b > 0.0
  {
  }

  /** The centre maps to 0, the upper extent to 1 and the lower extent to -1. */
  lemma NormalizeAnchors(cal: AxisCal)
    requires Ordered(cal)
    ensures Normalize(cal.center, cal) == Some(0.0)
    ensures Normalize(cal.max, cal) == Some(1.0)
    ensures Normalize(cal.min, cal) == Some(-1.0)
  {
    DivSelf((cal.max - cal.center) as real);
    DivSelf((cal.min - cal.center) as real);
  }

  lemma DivSelf(d: real)
    requires d != 0.0
    ensures d / d == 1.0
  {
  }

  /** A reading beyond an extent gives the same value as the extent itself. */
  lemma NormalizeSaturates(raw: uint16, cal: AxisCal)
    requires Ordered(cal)
    ensures cal.max <= raw ==> Normalize(raw, cal) == Normalize(cal.max, cal) == Some(1.0)
    ensures raw <= cal.min ==> Normalize(raw, cal) == Normalize(cal.min, cal) == Some(-1.0)
  {
    NormalizeAnchors(cal);
  }

  /** The value of a reading at or above the centre, and of one below it. */
  lemma NormalizeSides(raw: uint16, cal: AxisCal)
    requires Ordered(cal)
    ensures var v := Clamp(raw, cal.min, cal.max);
      cal.center <= v ==> Normalize(raw, cal) == Some((v - cal.center) as real / (cal.max - cal.center) as real)
    ensures var v := Clamp(raw, cal.min, cal.max);
      v < cal.center ==> Normalize(raw, cal) == Some(-((cal.center - v) as real / (cal.center - cal.min) as real))
  {
    var v := Clamp(raw, cal.min, cal.max);
    if v < cal.center {
      DivNegated((cal.center - v) as real, (cal.center - cal.min) as real);
    }
  }

  lemma DivNegated(p: real, d: real)
    requires d != 0.0
    ensures (-p) / (-d) == p / d
  {
  }

  /** Normalisation never reverses the order of two readings. */
  lemma NormalizeMonotone(a: uint16, b: uint16, cal: AxisCal)
    requires Ordered(cal) && a <= b
    ensures Normalize(a, cal).Some? && Normalize(b, cal).Some?
    ensures Normalize(a, cal).value <= Normalize(b, cal).value
  {
    NormalizeInRange(a, cal);
    NormalizeInRange(b, cal);
    NormalizeSides(a, cal);
    NormalizeSides(b, cal);
    var va, vb := Clamp(a, cal.min, cal.max), Clamp(b, cal.min, cal.max);
    if cal.center <= va {
      DivMonotone((va - cal.center) as real, (vb - cal.center) as real, (cal.max - cal.center) as real);
    } else if vb < cal.center {
      DivMonotone((cal.center - vb) as real, (cal.center - va) as real, (cal.center - cal.min) as real);
    }
  }

  lemma DivMonotone(p: real, q: real, d: real)
    requires p <= q && 0.0 < d
    ensures p / d <= q / d
  {
  }

  /**
   * An axis whose upper extent equals its centre has no finite value for
   * readings at or above the centre: the source divides zero by zero there.
   */
  lemma NormalizeDegenerate(raw: uint16, cal: AxisCal)
    requires cal.min <= cal.center == cal.max && cal.center <= raw
    ensures Normalize(raw, cal) == None
  {
  }
}
