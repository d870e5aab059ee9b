/**
 * The status block shown beside the plots, as a list of tagged lines
 * instead of formatted text.
 */
module Status {

  /** One line of the status block. */
  datatype StatusLine =
    | CurrentTime(clock: string)                  // wall-clock stamp of the report
    | LatestTelemetry(time: real, altitude: real) // the newest measurement
    | CurrentVelocity(rate: real)                 // finite-difference climb rate
    | DataPoints(count: nat)                      // number of measurements held

  /** The climb rate between the two newest measurements, when there are
      two and their times differ by a positive amount. */
  function RateLines(tData: seq<real>, altData: seq<real>): (r: seq<StatusLine>)
    requires |tData| == |altData| && |tData| > 0
    ensures |r| <= 1
    ensures |r| == 1 <==> HasRate(tData)
    ensures forall k :: 0 <= k < |r| ==>
      r[k].CurrentVelocity? &&
      r[k].rate * (tData[|tData| - 1] - tData[|tData| - 2]) == altData[|altData| - 1] - altData[|altData| - 2]
  {
    if |tData| > 1 then
      var dtTelemetry := tData[|tData| - 1] - tData[|tData| - 2];
      var daltTelemetry := altData[|altData| - 1] - altData[|altData| - 2];
      if dtTelemetry > 0.0 then [CurrentVelocity(daltTelemetry / dtTelemetry)] else []
    else []
  }

  /** The status block for the current buffers, stamped with `clock`. */
  function Summary(clock: string, tData: seq<real>, altData: seq<real>): (lines: seq<StatusLine>)
    requires |tData| == |altData|
    ensures 2 <= |lines| <= 4
    ensures lines[0] == CurrentTime(clock) && lines[|lines| - 1] == DataPoints(|tData|)
  {
    [CurrentTime(clock)] +
    (if |tData| > 0 then
      [LatestTelemetry(tData[|tData| - 1], altData[|altData| - 1])] + RateLines(tData, altData)
     else []) +
    [DataPoints(|tData|)]
  }

  /** Whether the two newest measurements give a climb rate. */
  predicate HasRate(tData: seq<real>)
  {
    |tData| > 1 && tData[|tData| - 1] - tData[|tData| - 2] > 0.0
  }

  /** The block opens with the time stamp, closes with the count of
      measurements, and has one more line for the latest measurement and
      one more for the climb rate when each applies. */
  lemma SummaryShape(clock: string, tData: seq<real>, altData: seq<real>)
    requires |tData| == |altData|
    ensures var lines := Summary(clock, tData, altData);
      |lines| == 2 + (if |tData| > 0 then 1 else 0) + (if HasRate(tData) then 1 else 0) &&
      lines[0] == CurrentTime(clock) &&
      lines[|lines| - 1] == DataPoints(|tData|)
  {
  }

  /** The latest measurement is reported exactly when there is one, and it
      is the newest pair of the buffers. */
  lemma SummaryLatest(clock: string, tData: seq<real>, altData: seq<real>)
    requires |tData| == |altData|
    ensures var lines := Summary(clock, tData, altData);
      (exists i :: 0 <= i < |lines| && lines[i].LatestTelemetry?) <==> |tData| > 0
    ensures var lines := Summary(clock, tData, altData);
      forall i :: 0 <= i < |lines| && lines[i].LatestTelemetry? ==>
        |tData| > 0 && lines[i] == LatestTelemetry(tData[|tData| - 1], altData[|altData| - 1])
  {
    var lines := Summary(clock, tData, altData);
    if |tData| > 0 {
      assert lines[1].LatestTelemetry?;
    }
  }

  /** The climb rate is reported exactly when there are two measurements
      with a positive time difference, so it never divides by zero, and
      the rate times that difference is the altitude difference. */
  lemma SummaryRate(clock: string, tData: seq<real>, altData: seq<real>)
    requires |tData| == |altData|
    ensures var lines := Summary(clock, tData, altData);
      (exists i :: 0 <= i < |lines| && lines[i].CurrentVelocity?) <==> HasRate(tData)
    ensures var lines := Summary(clock, tData, altData);
      forall i :: 0 <= i < |lines| && lines[i].CurrentVelocity? ==>
        HasRate(tData) &&
        lines[i].rate * (tData[|tData| - 1] - tData[|tData| - 2]) ==
          altData[|altData| - 1] - altData[|altData| - 2]
  {
    var lines := Summary(clock, tData, altData);
    if HasRate(tData) {
      assert lines[2].CurrentVelocity?;
    }
  }

  /** Exactly one line carries the count, and it is the number of
      measurements held. */
  lemma SummaryCount(clock: string, tData: seq<real>, altData: seq<real>)
    requires |tData| == |altData|
    ensures var lines := Summary(clock, tData, altData);
      forall i :: 0 <= i < |lines| && lines[i].DataPoints? ==>
        i == |lines| - 1 && lines[i].count == |tData|
  {
  }
}
