/**
 * Alignment of the telemetry stream against the reference trajectory: each
 * measurement no later than the simulated duration is paired with the
 * simulated sample at or just before its time, and the difference of the
 * two altitudes is the error signal.
 */
module Alignment {

  /** One point of the error signal: a telemetry time and the measured
      minus the simulated altitude. */
  datatype ErrorSample = ErrorSample(time: real, error: real)

  /** Conversion of a real to an integer by truncation toward zero: the
      integer part, rounded down for non-negative values and up for
      negative ones. */
  function Trunc(x: real): (i: int)
    ensures x >= 0.0 ==> 0 <= i && i as real <= x < i as real + 1.0
    ensures x < 0.0 ==> i <= 0 && i as real - 1.0 < x <= i as real
  {
    if x >= 0.0 then x.Floor else -((-x).Floor)
  }

  /** Truncation is the floor on non-negative values, and is symmetric
      about zero, so a value between -1 and 0 truncates to 0. */
  lemma TruncFloorSymmetric(x: real)
    ensures x >= 0.0 ==> Trunc(x) == x.Floor
    ensures Trunc(-x) == -Trunc(x)
    ensures -1.0 < x < 1.0 ==> Trunc(x) == 0
  {
  }

  /** A telemetry time just below zero maps to sample 0 before the cap,
      and truncation of -2.5 is -2 where the floor is -3. */
  lemma TruncExample()
    ensures Trunc(-0.05 / 0.1) == 0
    ensures Trunc(-2.5) == -2 && (-2.5).Floor == -3
  {
  }

  /** Multiplying a floor by the step never overshoots the scaled value. */
  lemma FloorScaled(t: real, dt: real)
    requires 0.0 <= t && dt > 0.0
    ensures (t / dt).Floor >= 0
    ensures (t / dt).Floor as real * dt <= t < ((t / dt).Floor + 1) as real * dt
  {
    var q := t / dt;
    var f := q.Floor;
    var r := f as real;
    assert q * dt == t;
    assert r <= q < r + 1.0;
    assert (q - r) * dt >= 0.0;
    assert (r + 1.0 - q) * dt > 0.0;
    assert (f + 1) as real == r + 1.0;
    calc {
      (f + 1) as real * dt;
      (r + 1.0) * dt;
      (r + 1.0 - q) * dt + q * dt;
      >
      q * dt;
    }
  }

  /** A step index lower than another starts no later. */
  lemma ScaledMonotone(i: int, j: int, dt: real)
    requires i <= j && dt > 0.0
    ensures i as real * dt <= j as real * dt
  {
  }

  /**
   * The simulated index for a telemetry time: the step count truncated,
   * capped at the last sample. It is a valid index, its sample time is at
   * or before `t`, and unless it was capped the next sample is after `t`.
   */
  function AlignIndex(t: real, dt: real, n: nat): (idx: int)
    requires 0.0 <= t && dt > 0.0 && n >= 1
    ensures 0 <= idx < n
    ensures idx as real * dt <= t
    ensures idx == n - 1 || t < (idx + 1) as real * dt
  {
    FloorScaled(t, dt);
    var q := Trunc(t / dt);
    if q < n - 1 then q
    else
      ScaledMonotone(n - 1, q, dt);
      n - 1
  }

  /** The measurement times are non-negative (as validation guarantees),
      and if any is within the simulated duration there is a sample. */
  predicate Alignable(tData: seq<real>, altData: seq<real>, nSim: nat, dt: real, tMax: real)
  {
    |tData| == |altData| && dt > 0.0 &&
    (forall i :: 0 <= i < |tData| ==> 0.0 <= tData[i]) &&
    (nSim > 0 || forall i :: 0 <= i < |tData| ==> tData[i] > tMax)
  }

  /** The error point of measurement i. */
  function ErrorAt(tData: seq<real>, altData: seq<real>, altSim: seq<real>, dt: real, tMax: real, i: nat): (e: ErrorSample)
    requires Alignable(tData, altData, |altSim|, dt, tMax)
    requires i < |tData| && tData[i] <= tMax
    ensures e.time == tData[i]
  {
    ErrorSample(tData[i], altData[i] - altSim[AlignIndex(tData[i], dt, |altSim|)])
  }

  /** The error point of measurement i compares it with a simulated sample
      at or before its time, and with the last one at or before it unless
      the time is beyond the last sample. */
  lemma ErrorAtSample(tData: seq<real>, altData: seq<real>, altSim: seq<real>, dt: real, tMax: real, i: nat)
    requires Alignable(tData, altData, |altSim|, dt, tMax)
    requires i < |tData| && tData[i] <= tMax
    ensures exists j ::
      && 0 <= j < |altSim| && j as real * dt <= tData[i]
      && (j == |altSim| - 1 || tData[i] < (j + 1) as real * dt)
      && ErrorAt(tData, altData, altSim, dt, tMax, i) == ErrorSample(tData[i], altData[i] - altSim[j])
  {
    var j := AlignIndex(tData[i], dt, |altSim|);
    assert ErrorAt(tData, altData, altSim, dt, tMax, i) == ErrorSample(tData[i], altData[i] - altSim[j]);
  }

  /** The error signal over a stream, one point per measurement within the
      simulated duration, in stream order. */
  function Aligned(tData: seq<real>, altData: seq<real>, altSim: seq<real>, dt: real, tMax: real): (e: seq<ErrorSample>)
    requires Alignable(tData, altData, |altSim|, dt, tMax)
    decreases |tData|
  {
    if |tData| == 0 then []
    else
      var last := |tData| - 1;
      var init := Aligned(tData[..last], altData[..last], altSim, dt, tMax);
      if tData[last] <= tMax then init + [ErrorAt(tData, altData, altSim, dt, tMax, last)]
      else init
  }

  /** The positions of the measurements within the simulated duration, in
      increasing order: exactly those positions, each once. */
  function Within(tData: seq<real>, tMax: real): (w: seq<nat>)
    ensures forall k :: 0 <= k < |w| ==> w[k] < |tData| && tData[w[k]] <= tMax
    ensures forall k, l :: 0 <= k < l < |w| ==> w[k] < w[l]
    ensures forall i :: 0 <= i < |tData| && tData[i] <= tMax ==> i in w
    decreases |tData|
  {
    if |tData| == 0 then []
    else
      var last := |tData| - 1;
      var init := Within(tData[..last], tMax);
      if tData[last] <= tMax then init + [last] else init
  }

  /** The error signal has one point per position of `Within`, in that
      order, each the measured altitude minus the aligned simulated one. */
  lemma {:induction false} AlignedMatchesWithin(tData: seq<real>, altData: seq<real>, altSim: seq<real>, dt: real, tMax: real)
    requires Alignable(tData, altData, |altSim|, dt, tMax)
    ensures var e, w := Aligned(tData, altData, altSim, dt, tMax), Within(tData, tMax);
      |e| == |w| &&
      forall k :: 0 <= k < |e| ==> e[k] == ErrorAt(tData, altData, altSim, dt, tMax, w[k])
    decreases |tData|
  {
    if |tData| > 0 {
      var last := |tData| - 1;
      var t', a' := tData[..last], altData[..last];
      AlignedMatchesWithin(t', a', altSim, dt, tMax);
      var e', w' := Aligned(t', a', altSim, dt, tMax), Within(t', tMax);
      forall k | 0 <= k < |e'|
        ensures e'[k] == ErrorAt(tData, altData, altSim, dt, tMax, w'[k])
      {
        ErrorAtPrefix(tData, altData, altSim, dt, tMax, last, w'[k]);
      }
      AlignedLast(tData, altData, altSim, dt, tMax);
    }
  }

  /** Unfolding of `Aligned` and `Within` at the last measurement. */
  lemma AlignedLast(tData: seq<real>, altData: seq<real>, altSim: seq<real>, dt: real, tMax: real)
    requires Alignable(tData, altData, |altSim|, dt, tMax) && |tData| > 0
    ensures var last := |tData| - 1;
      Alignable(tData[..last], altData[..last], |altSim|, dt, tMax) &&
      Aligned(tData, altData, altSim, dt, tMax) ==
        Aligned(tData[..last], altData[..last], altSim, dt, tMax) +
        (if tData[last] <= tMax then [ErrorAt(tData, altData, altSim, dt, tMax, last)] else []) &&
      Within(tData, tMax) == Within(tData[..last], tMax) + (if tData[last] <= tMax then [last] else [])
  {
  }

  /** The error point of a measurement does not depend on the measurements
      after it. */
  lemma ErrorAtPrefix(tData: seq<real>, altData: seq<real>, altSim: seq<real>, dt: real, tMax: real, n: nat, i: nat)
    requires Alignable(tData, altData, |altSim|, dt, tMax)
    requires i < n <= |tData| && tData[i] <= tMax
    ensures Alignable(tData[..n], altData[..n], |altSim|, dt, tMax)
    ensures ErrorAt(tData[..n], altData[..n], altSim, dt, tMax, i) == ErrorAt(tData, altData, altSim, dt, tMax, i)
  {
    assert tData[..n][i] == tData[i] && altData[..n][i] == altData[i];
  }

  /** The error signal has exactly as many points as there are
      measurements within the simulated duration. */
  lemma AlignedCount(tData: seq<real>, altData: seq<real>, altSim: seq<real>, dt: real, tMax: real)
    requires Alignable(tData, altData, |altSim|, dt, tMax)
    ensures |Aligned(tData, altData, altSim, dt, tMax)| == |set i | 0 <= i < |tData| && tData[i] <= tMax|
  {
    AlignedMatchesWithin(tData, altData, altSim, dt, tMax);
    var w := Within(tData, tMax);
    var within := set i | 0 <= i < |tData| && tData[i] <= tMax;
    assert within == set k | 0 <= k < |w| :: w[k];
    DistinctCard(w);
  }

  /** A strictly increasing sequence has as many distinct elements as
      positions. */
  lemma {:induction false} DistinctCard(w: seq<nat>)
    requires forall k, l :: 0 <= k < l < |w| ==> w[k] < w[l]
    ensures |set k | 0 <= k < |w| :: w[k]| == |w|
    decreases |w|
  {
    if |w| > 0 {
      var w' := w[..|w| - 1];
      DistinctCard(w');
      var s' := set k | 0 <= k < |w'| :: w'[k];
      assert (set k | 0 <= k < |w| :: w[k]) == s' + {w[|w| - 1]};
      assert w[|w| - 1] !in s';
    }
  }

  /** The telemetry point at t = 0.17 with a 0.1 s step aligns with sample
      1, or with sample 0 when there is only one sample. */
  lemma AlignExample()
    ensures AlignIndex(0.17, 0.1, 100) == 1
    ensures AlignIndex(0.17, 0.1, 1) == 0
  {
  }

  /**
   * Builds the two parallel error buffers (times and errors) by walking
   * the stream, skipping measurements after the simulated duration.
   */
  method ComputeErrors(tData: seq<real>, altData: seq<real>, altSim: array<real>, dt: real, tMax: real)
    returns (errorTimes: seq<real>, errorData: seq<real>)
    requires Alignable(tData, altData, altSim.Length, dt, tMax)
    ensures |errorTimes| == |errorData| == |Aligned(tData, altData, altSim[..], dt, tMax)|
    ensures forall k :: 0 <= k < |errorTimes| ==>
      Aligned(tData, altData, altSim[..], dt, tMax)[k] == ErrorSample(errorTimes[k], errorData[k])
  {
    errorTimes, errorData := [], [];
    if |tData| > 0 && |altData| > 0 {
      var n := altSim.Length;
      var i := 0;
      while i < |tData|
        invariant 0 <= i <= |tData|
        invariant var e := Aligned(tData[..i], altData[..i], altSim[..], dt, tMax);
          |errorTimes| == |errorData| == |e| &&
          forall k :: 0 <= k < |e| ==> e[k] == ErrorSample(errorTimes[k], errorData[k])
      {
        var t := tData[i];
        assert tData[..i + 1][..i] == tData[..i] && altData[..i + 1][..i] == altData[..i];
        if t <= tMax {
          var q := Trunc(t / dt);
          var simIdx := if q < n - 1 then q else n - 1;
          assert simIdx == AlignIndex(t, dt, n);
          if simIdx < n {
            var error := altData[i] - altSim[simIdx];
            errorData := errorData + [error];
            errorTimes := errorTimes + [t];
          }
        }
        i := i + 1;
      }
      assert tData[..i] == tData && altData[..i] == altData;
    }
  }
}
