// `map_value`: the linear remap of a pointer coordinate onto a tuning scalar.
module Remap {

  import opened RealArith

  /**
   * `(value - in_min) * (out_max - out_min) / (in_max - in_min) + out_min`.
   * The two ends of the input range land exactly on the two ends of the output range.
   */
  function MapValue(value: real, inMin: real, inMax: real, outMin: real, outMax: real): (r: real)
    requires inMin != inMax
    ensures value == inMin ==> r == outMin
    ensures value == inMax ==> r == outMax
  {
    assert value == inMin ==> (value - inMin) * (outMax - outMin) == 0.0;
    assert value == inMax ==> (value - inMin) * (outMax - outMin) / (inMax - inMin) == outMax - outMin;
    (value - inMin) * (outMax - outMin) / (inMax - inMin) + outMin
  }

  /** Over an increasing input range onto a non-decreasing output range the remap never goes down. */
  lemma MapValueMonotone(v1: real, v2: real, inMin: real, inMax: real, outMin: real, outMax: real)
    requires inMin < inMax && outMin <= outMax && v1 <= v2
    ensures MapValue(v1, inMin, inMax, outMin, outMax) <= MapValue(v2, inMin, inMax, outMin, outMax)
  {
    var k := (outMax - outMin) / (inMax - inMin);
    assert 0.0 <= k;
    assert MapValue(v1, inMin, inMax, outMin, outMax) == (v1 - inMin) * k + outMin;
    assert MapValue(v2, inMin, inMax, outMin, outMax) == (v2 - inMin) * k + outMin;
    assert (v2 - inMin) * k - (v1 - inMin) * k == (v2 - v1) * k;
    MulNonneg(v2 - v1, k);
  }

  /** Nothing is clamped: an input beyond either end maps beyond that end of the output range. */
  lemma MapValueUnclamped(v: real, inMin: real, inMax: real, outMin: real, outMax: real)
    requires inMin < inMax && outMin < outMax
    ensures v < inMin ==> MapValue(v, inMin, inMax, outMin, outMax) < outMin
    ensures v > inMax ==> MapValue(v, inMin, inMax, outMin, outMax) > outMax
  {
    var k := (outMax - outMin) / (inMax - inMin);
    assert 0.0 < k;
    assert MapValue(v, inMin, inMax, outMin, outMax) == (v - inMin) * k + outMin;
    assert (inMax - inMin) * k == outMax - outMin;
    assert (v - inMin) * k - (inMax - inMin) * k == (v - inMax) * k;
    MulPositive(v - inMax, k);
    MulPositive(inMin - v, k);
    assert (v - inMin) * k == -((inMin - v) * k);
  }

  /** Remapping back with the ranges swapped recovers the input, when the output range is not a point. */
  lemma MapValueInverse(v: real, inMin: real, inMax: real, outMin: real, outMax: real)
    requires inMin != inMax && outMin != outMax
    ensures MapValue(MapValue(v, inMin, inMax, outMin, outMax), outMin, outMax, inMin, inMax) == v
  {
    var r := MapValue(v, inMin, inMax, outMin, outMax);
    var spanIn, spanOut := inMax - inMin, outMax - outMin;
    var x := (v - inMin) * spanOut;
    assert r - outMin == x / spanIn;
    assert (x / spanIn) * spanIn == x;
    assert (r - outMin) * spanIn == x;
    assert x / spanOut == v - inMin;
    assert MapValue(r, outMin, outMax, inMin, inMax) == (r - outMin) * (inMax - inMin) / (outMax - outMin) + inMin;
  }
}
