# Rocket altitude monitor: verified model

This project models the core of the ground-control altitude monitor
(`ground-control/comms/Altitudevstime_plot.py`). The monitor does four things:

- **Reference trajectory** (module `Trajectory`): a fixed-step semi-implicit Euler
  integration of a single-stage rocket flying straight up. Mass falls linearly
  while the motor burns, and thrust is constant during the burn and zero after it.
  Drag is `k·v²`. The velocity is updated first and the altitude is then taken
  from the new velocity. A ground clamp zeroes both values when the altitude
  would go negative. `Simulate` fills the time, altitude and velocity arrays in
  place, and is proved equal to the recursive specification `SampleAt`.
- **Telemetry ingestion** (module `Telemetry`): validation of a (time, altitude)
  pair against 0 ≤ t ≤ 60 s and 0 ≤ alt ≤ 10 000 m, and the filter that turns
  the rows of the sensor log into a stream of measurements. It also holds the
  poll. When the log size changed, or more than 0.1 s has passed since the last
  completed poll, the poll re-reads the whole log. It skips the header, clears
  both buffers and refills them from the valid rows. It records the size and
  the time only when the whole log was read. The `Ingester` class holds the two
  parallel buffers and the poll bookkeeping. Its `Poll` method is proved to
  implement `PollStep`, and the lemmas about the poll are stated about
  `PollStep`.
- **Error alignment** (module `Alignment`): each measurement no later than the
  simulated duration is paired with simulated sample `min(int(t/dt), n-1)`. The
  model emits the measured altitude minus the simulated one. `ComputeErrors` is
  the loop and `Aligned` is its specification.
- **Status block** (module `Status`): the report always has a time stamp and a
  count. It adds the newest measurement when there is one. It adds a
  finite-difference climb rate when there are at least two measurements and
  the two newest are a positive time apart.

`Monitor.Update` runs one animation tick: poll, then error signal, then status.

The model follows the program's code in these details:

- The number of simulated samples is a parameter `n`. The program takes it from
  `np.arange(0, t_max, dt)`, which gives about `ceil(t_max/dt)` samples.
- A log with no rows at all makes the header skip raise. The exception handler
  catches it and nothing changes: the buffers are cleared only after the header
  has been read.
- A read error after the header leaves the buffers cleared and partly refilled.
  The bookkeeping then keeps its old values, because it is written only after
  the read loop ends (`ReadResult.Interrupted`).
- `int(t/dt)` truncates toward zero (`Alignment.Trunc`). On the non-negative
  times that validation lets through, this equals the floor.
- The guard `sim_idx < len(altitude_sim)` is kept in `ComputeErrors`. It always
  holds, since `AlignIndex` is proved to be a valid index.

## Model

| member | source | states |
|---|---|---|
| `Trajectory.MassAt` | ground-control/comms/Altitudevstime_plot.py:30 | instantaneous mass stays between the dry mass and the initial mass, so it is positive and the acceleration never divides by zero |
| `Trajectory.MassNonIncreasing` | ground-control/comms/Altitudevstime_plot.py:30 | mass never rises over time |
| `Trajectory.MassAtBurnout` | ground-control/comms/Altitudevstime_plot.py:30-31 | at the burnout instant the interpolated mass equals the dry mass and the thrust is still full |
| `Trajectory.ThrustAt` | ground-control/comms/Altitudevstime_plot.py:31 | the thrust is the full motor thrust up to and including the burnout instant, and zero after it |
| `Trajectory.Unclamped` | ground-control/comms/Altitudevstime_plot.py:32-36 | the altitude update uses the new velocity (semi-implicit Euler), not the previous one |
| `Trajectory.UnclampedNewton` | ground-control/comms/Altitudevstime_plot.py:32-34 | mass times the velocity change of one step is the net force (thrust, minus drag `k·v²`, minus weight) times the step |
| `Trajectory.Step` | ground-control/comms/Altitudevstime_plot.py:32-39 | one step yields a non-negative altitude, and is either the plain Euler update or the grounded sample (0, 0) |
| `Trajectory.SampleAt` | ground-control/comms/Altitudevstime_plot.py:24-39 | every sample of the reference trajectory has a non-negative altitude, and sample 0 is at rest on the ground |
| `Trajectory.ClampZeroesVelocity` | ground-control/comms/Altitudevstime_plot.py:37-39 | when the clamp fires at step i, altitude and velocity are both zero; otherwise the sample is the unclamped update |
| `Trajectory.GroundedAfterBurnoutStep` | ground-control/comms/Altitudevstime_plot.py:30-39 | after burnout, a step from rest on the ground returns to rest on the ground |
| `Trajectory.GroundedAfterBurnout` | ground-control/comms/Altitudevstime_plot.py:28-39 | once grounded after burnout, every later sample stays grounded |
| `Trajectory.RocketValid` | ground-control/comms/Altitudevstime_plot.py:10-20 | the shipped parameters meet the stepper's requirements; the dry mass is 0.4 kg |
| `Trajectory.EulerStep` | ground-control/comms/Altitudevstime_plot.py:29-39 | one loop iteration computes `Step`; when the unclamped altitude is negative, both outputs are zero |
| `Trajectory.Simulate` | ground-control/comms/Altitudevstime_plot.py:22-39 | fresh arrays of length n, with time i·dt, altitude and velocity equal to `SampleAt(cfg, i)`; sample 0 is (0, 0) and every altitude is ≥ 0 |
| `Telemetry.Validate` | ground-control/comms/Altitudevstime_plot.py:90-96 | true exactly when 0 ≤ t ≤ 60 and 0 ≤ alt ≤ 10000 |
| `Telemetry.ParseRow` | ground-control/comms/Altitudevstime_plot.py:114-120 | a row yields a measurement exactly when it has at least two fields, both of the first two parse, and the pair validates; the measurement is those two numbers |
| `Telemetry.Accepted` | ground-control/comms/Altitudevstime_plot.py:113-122 | the filtered stream is no longer than the rows, and every measurement in it validates |
| `Telemetry.AcceptedAppend` | ground-control/comms/Altitudevstime_plot.py:113-122 | filtering distributes over concatenation, so filtering rows appended later gives the same stream as re-reading the whole log, and row order is kept |
| `Telemetry.AcceptedSnoc` | ground-control/comms/Altitudevstime_plot.py:113-120 | one more row appends its own measurement, if it has one, at the end of the stream |
| `Telemetry.AcceptedSingle` | ground-control/comms/Altitudevstime_plot.py:114-120 | a single row contributes its own measurement or nothing |
| `Telemetry.AcceptedSkipsRejected` | ground-control/comms/Altitudevstime_plot.py:114-122 | a short, unparsable or out-of-bounds row is dropped without affecting the rows before or after it |
| `Telemetry.AcceptedMembership` | ground-control/comms/Altitudevstime_plot.py:113-122 | a measurement is in the stream if and only if some row yields it |
| `Telemetry.ShouldPoll` | ground-control/comms/Altitudevstime_plot.py:107 | the log is re-read unless its size is unchanged and no more than 0.1 s has passed since the last completed poll |
| `Telemetry.PollStep` | ground-control/comms/Altitudevstime_plot.py:105-126 | a poll preserves the invariant that every stored measurement validates |
| `Telemetry.PollDebounced` | ground-control/comms/Altitudevstime_plot.py:106-107 | with the same size and no more than 0.1 s since the last completed poll, nothing changes |
| `Telemetry.PollReplaces` | ground-control/comms/Altitudevstime_plot.py:108-122 | a triggered poll that got past the header replaces the stream with the filtered data rows, whatever the old stream was |
| `Telemetry.PollFailureKeepsState` | ground-control/comms/Altitudevstime_plot.py:105-126 | if the size lookup fails, the open fails or the file has no rows, the buffers and the bookkeeping stay as they were |
| `Telemetry.PollBookkeeping` | ground-control/comms/Altitudevstime_plot.py:123-124 | the last size and time change only after a poll read the whole log, and every triggered poll that read the whole log records its size and the poll time |
| `Telemetry.PollIdempotent` | ground-control/comms/Altitudevstime_plot.py:106-124 | after a completed poll, repeating it with the same size within 0.1 s changes nothing, and re-reading the same rows gives the same stream |
| `Telemetry.Ingester.constructor` | ground-control/comms/Altitudevstime_plot.py:42-46 | empty buffers, last size 0 and last time 0 |
| `Telemetry.Ingester.Refill` | ground-control/comms/Altitudevstime_plot.py:111-122 | after the read loop, the two buffers are parallel and together hold exactly the filtered data rows; the bookkeeping is untouched |
| `Telemetry.Ingester.Poll` | ground-control/comms/Altitudevstime_plot.py:100-126 | the in-place poll keeps the buffers parallel and valid, and its new state is `PollStep` of the old one |
| `Alignment.Trunc` | ground-control/comms/Altitudevstime_plot.py:147 | `int()` truncates toward zero: for x ≥ 0 the result is the largest integer at or below x, for x < 0 the smallest integer at or above x |
| `Alignment.TruncFloorSymmetric` | ground-control/comms/Altitudevstime_plot.py:147 | truncation equals the floor on non-negative values, commutes with negation, and sends every value strictly between -1 and 1 to 0 |
| `Alignment.TruncExample` | ground-control/comms/Altitudevstime_plot.py:147 | t = -0.05 with dt = 0.1 truncates to 0; -2.5 truncates to -2 where the floor is -3 |
| `Alignment.AlignIndex` | ground-control/comms/Altitudevstime_plot.py:147-148 | the index is in [0, n); its sample time is at or before t; unless it was capped at n-1, the next sample time is after t |
| `Alignment.AlignExample` | ground-control/comms/Altitudevstime_plot.py:147 | t = 0.17 with dt = 0.1 aligns with sample 1, or with sample 0 when n = 1 |
| `Alignment.ErrorAt` | ground-control/comms/Altitudevstime_plot.py:147-151 | the error point of one measurement carries that measurement's time; `ErrorAtSample` states which simulated sample it is compared with |
| `Alignment.ErrorAtSample` | ground-control/comms/Altitudevstime_plot.py:147-151 | the error is the measured altitude minus a simulated sample at or before the measurement time, the last such sample unless the time is past the final one |
| `Alignment.Aligned` | ground-control/comms/Altitudevstime_plot.py:141-151 | the error signal of a stream, defined from its last measurement; it has no contract of its own, and `AlignedMatchesWithin` and `AlignedCount` state its properties |
| `Alignment.Within` | ground-control/comms/Altitudevstime_plot.py:144-145 | exactly the positions of measurements with t ≤ t_max, each once, in increasing order |
| `Alignment.AlignedMatchesWithin` | ground-control/comms/Altitudevstime_plot.py:141-151 | the error signal has one point per such position, in stream order; each is (t, alt − altitude_sim[index]) |
| `Alignment.AlignedCount` | ground-control/comms/Altitudevstime_plot.py:143-151 | the error signal has as many points as there are measurements with t ≤ t_max |
| `Alignment.ComputeErrors` | ground-control/comms/Altitudevstime_plot.py:141-151 | the two parallel buffers built by the loop are, pointwise, the error signal `Aligned` |
| `Status.RateLines` | ground-control/comms/Altitudevstime_plot.py:160-166 | at most one rate line; there is one exactly when the two newest measurements are a positive time apart, and its rate times that time difference is the altitude difference |
| `Status.Summary` | ground-control/comms/Altitudevstime_plot.py:156-167 | the block has two to four lines; it opens with the time stamp and closes with the count of measurements |
| `Status.SummaryShape` | ground-control/comms/Altitudevstime_plot.py:156-167 | the block opens with the time stamp and closes with the count; it has one extra line for the latest measurement and one for the rate when each applies |
| `Status.SummaryLatest` | ground-control/comms/Altitudevstime_plot.py:158-159 | the latest-measurement line appears exactly when the buffers are non-empty, and it holds the newest pair |
| `Status.SummaryRate` | ground-control/comms/Altitudevstime_plot.py:160-166 | the rate line appears exactly when there are at least two points with a positive time difference; the rate times that difference equals the altitude difference |
| `Status.SummaryCount` | ground-control/comms/Altitudevstime_plot.py:167 | the only count line is the last one, and it equals the number of measurements |
| `Monitor.Update` | ground-control/comms/Altitudevstime_plot.py:99-169 | one tick: the ingester's new state is `PollStep` of the old one, the error buffers are `Aligned` over the new buffers, and the status is `Summary` of them |

## Left out

- Plotting and animation: the figure, axes, lines, text box, axis limits and the
  maximum altitude that drives them, the frame-indexed prefix of the simulated
  curve, `tight_layout`, `FuncAnimation`, `plt.show`. These only draw.
- File-system access. `os.path.getsize` is an optional size (None when it
  raises). Opening and reading the log is a `ReadResult`: the open failed, or
  the rows the reader yielded, and whether it ended normally or raised. Writing
  the placeholder log at start-up is not modelled; it holds a header and ten data
  rows, from (0.0, 0.0) to (7.0, 50.3). The printed diagnostic is not
  modelled.
- Python's `float()` on a field is the `Parser` parameter. Its NaN and infinity
  results count as failures; validation would reject them anyway.
- `time.time()` and `datetime.now()` are parameters (`now`, `clock`).
- Floating-point rounding: the model uses exact reals. The sample count `n` is a
  parameter, not computed from `np.arange`. No numeric regression values are
  reproduced.
- Text formatting of the status lines (`:.1f`, the line join): the status is a
  list of tagged lines.
- The tick count of the animation driver is not modelled.
- Trajectory.Simulate: requires a positive step, non-negative fuel and a positive dry mass. The program would divide by zero for a zero mass and keep running with a negative one; those configurations are not modelled.
- Alignment.ComputeErrors: requires non-negative telemetry times. For a time in (-dt, 0) the program truncates to index 0; for a time from about -n·dt to -dt Python's negative indexing picks a sample counted from the end of the array; below that the lookup raises an uncaught IndexError. Validated telemetry never has such times.
- Monitor.Update: requires a non-empty trajectory. With no simulated samples the program already fails at start-up, when it takes the maximum of the empty altitude array to set the axis limits, and again on any tick with telemetry.
