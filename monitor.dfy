/**
 * One tick of the monitor, as the animation callback runs it: refresh the
 * telemetry, recompute the error signal against the reference trajectory,
 * and rebuild the status block. Drawing is not modelled.
 */
module Monitor {
  import opened Wrappers
  import Telemetry
  import Alignment
  import Status

  /** Valid measurements have non-negative times, which alignment needs. */
  lemma ValidTimesNonNegative(tData: seq<real>, altData: seq<real>)
    requires |tData| == |altData| && Telemetry.ValidStream(Telemetry.Zip(tData, altData))
    ensures forall i :: 0 <= i < |tData| ==> 0.0 <= tData[i] <= Telemetry.MaxTime
  {
  }

  /**
   * One tick. The poll's inputs (size lookup, file contents, clock) and the
   * wall-clock stamp of the status block are parameters.
   */
  method Update(ing: Telemetry.Ingester, altSim: array<real>, dt: real, tMax: real,
                now: real, clock: string, size: Option<nat>, file: Telemetry.ReadResult,
                parse: Telemetry.Parser)
    returns (errorTimes: seq<real>, errorData: seq<real>, status: seq<Status.StatusLine>)
    requires ing.Valid() && altSim.Length > 0 && dt > 0.0
    modifies ing
    ensures ing.Valid()
    ensures ing.State() == Telemetry.PollStep(old(ing.State()), size, now, file, parse)
    ensures Alignment.Alignable(ing.tData, ing.altData, altSim.Length, dt, tMax)
    ensures var e := Alignment.Aligned(ing.tData, ing.altData, altSim[..], dt, tMax);
      |errorTimes| == |errorData| == |e| &&
      forall k :: 0 <= k < |e| ==> e[k] == Alignment.ErrorSample(errorTimes[k], errorData[k])
    ensures status == Status.Summary(clock, ing.tData, ing.altData)
  {
    ing.Poll(size, now, file, parse);
    ValidTimesNonNegative(ing.tData, ing.altData);
    errorTimes, errorData := Alignment.ComputeErrors(ing.tData, ing.altData, altSim, dt, tMax);
    status := Status.Summary(clock, ing.tData, ing.altData);
  }
}
