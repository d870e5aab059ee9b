/**
 * Telemetry ingestion: validating one (time, altitude) measurement,
 * filtering the rows of the sensor log into a stream of measurements, and
 * the poll that re-reads the log and replaces the stream when the log
 * changed or the debounce interval passed.
 *
 * The log file is given as the rows a CSV reader would yield (each row a
 * sequence of fields), its size and the clock as plain values, and the
 * number parser as a function from a field to an optional real.
 */
module Telemetry {
  import opened Wrappers

  /** Validation bounds: at most 60 s of flight and 10 km of altitude. */
  const MaxTime: real := 60.0
  const MaxAltitude: real := 10000.0

  /** The log is re-read when more than this many seconds have passed. */
  const PollInterval: real := 0.1

  /** Accepts a measurement exactly when both values are within bounds. */
  function Validate(t: real, alt: real): (ok: bool)
    ensures ok <==> 0.0 <= t <= MaxTime && 0.0 <= alt <= MaxAltitude
  {
    if !(0.0 <= t <= MaxTime) then false
    else if !(0.0 <= alt <= MaxAltitude) then false
    else true
  }

  /** One accepted measurement. */
  datatype Record = Record(time: real, altitude: real)

  /** One row of the log, as its fields. */
  type Row = seq<string>

  /** Text-to-number conversion of a field; None when it is not a number. */
  type Parser = string -> Option<real>

  /** Every measurement of the stream is within the validation bounds. */
  predicate ValidStream(s: seq<Record>)
  {
    forall i :: 0 <= i < |s| ==> Validate(s[i].time, s[i].altitude)
  }

  /** The measurement a data row contributes: none when it has fewer than
      two fields, when either of its first two fields is not a number, or
      when the numbers are out of bounds. Extra fields are ignored. */
  function ParseRow(row: Row, parse: Parser): (r: Option<Record>)
    ensures r.Some? <==>
      |row| >= 2 && parse(row[0]).Some? && parse(row[1]).Some? &&
      Validate(parse(row[0]).value, parse(row[1]).value)
    ensures r.Some? ==> r.value == Record(parse(row[0]).value, parse(row[1]).value)
  {
    if |row| < 2 then None
    else match parse(row[0])
      case None => None
      case Some(t) =>
        match parse(row[1])
        case None => None
        case Some(alt) => if Validate(t, alt) then Some(Record(t, alt)) else None
  }

  /** The stream built from a sequence of data rows: the measurements of
      the rows that parse and validate, in row order. */
  function Accepted(rows: seq<Row>, parse: Parser): (s: seq<Record>)
    ensures |s| <= |rows|
    ensures ValidStream(s)
    decreases |rows|
  {
    if rows == [] then []
    else
      var init := Accepted(rows[..|rows| - 1], parse);
      match ParseRow(rows[|rows| - 1], parse)
      case None => init
      case Some(r) => init + [r]
  }

  /** Filtering distributes over concatenation: rows appended to the log
      only ever add their own measurements at the end, so re-reading the
      whole log and reading only the appended rows agree. */
  lemma {:induction false} AcceptedAppend(a: seq<Row>, b: seq<Row>, parse: Parser)
    ensures Accepted(a + b, parse) == Accepted(a, parse) + Accepted(b, parse)
    decreases |b|
  {
    if b == [] {
      assert a + b == a;
    } else {
      var b' := b[..|b| - 1];
      assert (a + b)[..|a + b| - 1] == a + b';
      assert (a + b)[|a + b| - 1] == b[|b| - 1];
      AcceptedAppend(a, b', parse);
    }
  }

  /** One more row adds its own measurement, if any, at the end. */
  lemma AcceptedSnoc(rows: seq<Row>, row: Row, parse: Parser)
    ensures Accepted(rows + [row], parse) ==
      match ParseRow(row, parse) case None => Accepted(rows, parse) case Some(r) => Accepted(rows, parse) + [r]
  {
  }

  /** A single row yields its own measurement or nothing. */
  lemma AcceptedSingle(row: Row, parse: Parser)
    ensures Accepted([row], parse) == match ParseRow(row, parse) case None => [] case Some(r) => [r]
  {
  }

  /** A malformed or out-of-bounds row is skipped without disturbing what
      comes before or after it. */
  lemma AcceptedSkipsRejected(a: seq<Row>, row: Row, b: seq<Row>, parse: Parser)
    requires ParseRow(row, parse).None?
    ensures Accepted(a + [row] + b, parse) == Accepted(a, parse) + Accepted(b, parse)
  {
    AcceptedAppend(a + [row], b, parse);
    AcceptedAppend(a, [row], parse);
    AcceptedSingle(row, parse);
  }

  /** A measurement is in the stream exactly when some row yields it. */
  lemma {:induction false} AcceptedMembership(rows: seq<Row>, parse: Parser, r: Record)
    ensures r in Accepted(rows, parse) <==>
      exists j :: 0 <= j < |rows| && ParseRow(rows[j], parse) == Some(r)
    decreases |rows|
  {
    if rows != [] {
      var init := rows[..|rows| - 1];
      AcceptedMembership(init, parse, r);
      if exists j :: 0 <= j < |rows| && ParseRow(rows[j], parse) == Some(r) {
        var j :| 0 <= j < |rows| && ParseRow(rows[j], parse) == Some(r);
        if j < |rows| - 1 {
          assert init[j] == rows[j];
        }
      }
      if exists j :: 0 <= j < |init| && ParseRow(init[j], parse) == Some(r) {
        var j :| 0 <= j < |init| && ParseRow(init[j], parse) == Some(r);
        assert rows[j] == init[j];
      }
    }
  }

  /** Pairs the two parallel buffers into one stream of measurements. */
  function Zip(ts: seq<real>, alts: seq<real>): (s: seq<Record>)
    requires |ts| == |alts|
    ensures |s| == |ts|
    ensures forall i :: 0 <= i < |s| ==> s[i] == Record(ts[i], alts[i])
  {
    seq(|ts|, i requires 0 <= i < |ts| => Record(ts[i], alts[i]))
  }

  /** Appending to both buffers appends one measurement to the stream. */
  lemma ZipSnoc(ts: seq<real>, alts: seq<real>, t: real, alt: real)
    requires |ts| == |alts|
    ensures Zip(ts + [t], alts + [alt]) == Zip(ts, alts) + [Record(t, alt)]
  {
  }

  /** What a poll reads from the log: the file could not be opened, or the
      reader yielded these rows (header first) and then ended normally, or
      it yielded these rows and then raised an error. */
  datatype ReadResult = OpenFailed | Complete(rows: seq<Row>) | Interrupted(rows: seq<Row>)

  /** The ingester's state: the current stream and the bookkeeping of the
      last completed poll. */
  datatype PollState = PollState(stream: seq<Record>, lastFileSize: nat, lastUpdateTime: real)

  const Initial: PollState := PollState([], 0, 0.0)

  /** A poll re-reads the log when its size changed or more than the
      debounce interval passed since the last completed poll. */
  predicate ShouldPoll(s: PollState, size: nat, now: real): (b: bool)
    ensures !b <==> size == s.lastFileSize && now - s.lastUpdateTime <= PollInterval
  {
    size != s.lastFileSize || now - s.lastUpdateTime > PollInterval
  }

  /**
   * The effect of one poll. `size` is None when the size lookup fails;
   * every failure leaves the state as it was, except that a read error
   * after the header has already replaced the stream with what was read
   * so far. An empty file (no header row) is a failure too.
   */
  function PollStep(s: PollState, size: Option<nat>, now: real, file: ReadResult, parse: Parser): (s': PollState)
    ensures ValidStream(s.stream) ==> ValidStream(s'.stream)
  {
    match size
    case None => s
    case Some(sz) =>
      if !ShouldPoll(s, sz, now) then s
      else match file
        case OpenFailed => s
        case Complete(rows) =>
          if |rows| == 0 then s else PollState(Accepted(rows[1..], parse), sz, now)
        case Interrupted(rows) =>
          if |rows| == 0 then s else s.(stream := Accepted(rows[1..], parse))
  }

  /** Without a size change and within the debounce interval, a poll
      changes nothing. */
  lemma PollDebounced(s: PollState, size: nat, now: real, file: ReadResult, parse: Parser)
    requires size == s.lastFileSize && now - s.lastUpdateTime <= PollInterval
    ensures PollStep(s, Some(size), now, file, parse) == s
  {
  }

  /** A triggered poll replaces the stream: the new stream is the filtered
      data rows of the log, whatever the old stream was. */
  lemma PollReplaces(s: PollState, size: nat, now: real, file: ReadResult, parse: Parser)
    requires ShouldPoll(s, size, now)
    requires !file.OpenFailed? && |file.rows| > 0
    ensures PollStep(s, Some(size), now, file, parse).stream == Accepted(file.rows[1..], parse)
  {
  }

  /** A failed size lookup, a file that cannot be opened, or an empty file
      leave the stream and the bookkeeping untouched. */
  lemma PollFailureKeepsState(s: PollState, size: Option<nat>, now: real, file: ReadResult, parse: Parser)
    requires size.None? || file.OpenFailed? || |file.rows| == 0
    ensures PollStep(s, size, now, file, parse) == s
  {
  }

  /** The bookkeeping moves only when a poll read the whole log, and every
      triggered poll that read the whole log records the size that
      triggered it and the time of the poll. */
  lemma PollBookkeeping(s: PollState, size: Option<nat>, now: real, file: ReadResult, parse: Parser)
    ensures var s' := PollStep(s, size, now, file, parse);
      (s'.lastFileSize, s'.lastUpdateTime) == (s.lastFileSize, s.lastUpdateTime) ||
      (size == Some(s'.lastFileSize) && s'.lastUpdateTime == now && file.Complete? && |file.rows| > 0)
    ensures var s' := PollStep(s, size, now, file, parse);
      size.Some? && ShouldPoll(s, size.value, now) && file.Complete? && |file.rows| > 0 ==>
        s'.lastFileSize == size.value && s'.lastUpdateTime == now
  {
  }

  /** Polling twice in quick succession with an unchanged log is
      idempotent: after a triggered poll that read the whole log, a second poll with the same size
      within the debounce interval leaves everything as the first one left
      it, and a second poll that does re-read the same rows yields the same
      stream. */
  lemma PollIdempotent(s: PollState, size: nat, now: real, rows: seq<Row>, now2: real, parse: Parser)
    requires ShouldPoll(s, size, now) && |rows| > 0
    ensures var s1 := PollStep(s, Some(size), now, Complete(rows), parse);
      (now2 - now <= PollInterval ==>
        PollStep(s1, Some(size), now2, Complete(rows), parse) == s1) &&
      PollStep(s1, Some(size), now2, Complete(rows), parse).stream == s1.stream
  {
  }

  /**
   * The ingester: two parallel buffers of times and altitudes and the
   * bookkeeping of the last completed poll, updated in place by `Poll`.
   */
  class Ingester {
    var tData: seq<real>
    var altData: seq<real>
    var lastFileSize: nat
    var lastUpdateTime: real

    /** The buffers stay parallel and hold only valid measurements. */
    ghost predicate Valid()
      reads this
    {
      |tData| == |altData| && ValidStream(Zip(tData, altData))
    }

    /** The abstract state the buffers and the bookkeeping stand for. */
    function State(): PollState
      reads this
      requires |tData| == |altData|
    {
      PollState(Zip(tData, altData), lastFileSize, lastUpdateTime)
    }

    constructor ()
      ensures Valid() && State() == Initial
    {
      tData, altData := [], [];
      lastFileSize, lastUpdateTime := 0, 0.0;
    }

    /**
     * The read loop of a poll: clear both buffers, then append each data
     * row (every row after the header) that parses and validates.
     */
    method Refill(rows: seq<Row>, parse: Parser)
      requires |rows| > 0
      modifies this
      ensures |tData| == |altData| && Zip(tData, altData) == Accepted(rows[1..], parse)
      ensures lastFileSize == old(lastFileSize) && lastUpdateTime == old(lastUpdateTime)
    {
      tData, altData := [], [];
      var i := 1;
      while i < |rows|
        invariant 1 <= i <= |rows|
        invariant |tData| == |altData|
        invariant Zip(tData, altData) == Accepted(rows[1..i], parse)
        invariant lastFileSize == old(lastFileSize) && lastUpdateTime == old(lastUpdateTime)
      {
        var row := rows[i];
        assert rows[1..i + 1] == rows[1..i] + [row];
        AcceptedSnoc(rows[1..i], row, parse);
        if |row| >= 2 {
          var tVal := parse(row[0]);
          if tVal.Some? {
            var altVal := parse(row[1]);
            if altVal.Some? && Validate(tVal.value, altVal.value) {
              ZipSnoc(tData, altData, tVal.value, altVal.value);
              tData := tData + [tVal.value];
              altData := altData + [altVal.value];
            }
          }
        }
        i := i + 1;
      }
      assert rows[1..i] == rows[1..];
    }

    /**
     * One poll of the log: when triggered and the log has a header, refill
     * the buffers from it; record the size and the time only if the whole
     * log was read.
     */
    method Poll(size: Option<nat>, now: real, file: ReadResult, parse: Parser)
      requires Valid()
      modifies this
      ensures Valid()
      ensures State() == PollStep(old(State()), size, now, file, parse)
    {
      if size.None? {
        return;
      }
      var currentFileSize := size.value;
      if currentFileSize != lastFileSize || now - lastUpdateTime > PollInterval {
        if file.OpenFailed? || |file.rows| == 0 {
          return;
        }
        Refill(file.rows, parse);
        if file.Complete? {
          lastFileSize := currentFileSize;
          lastUpdateTime := now;
        }
      }
    }
  }
}
