# Simulated embedded system: sampling and analysis tick

This project models, in Dafny, the core of a simulated embedded monitoring
system. Three virtual sensors (temperature, humidity, light) are polled
once per second.

- **Sampling schedule.** Each sensor kind has a sampling rate. It fires when
  at least its rate in seconds has passed since it last fired, and firing
  resets its timestamp.
- **Combined ticks.** Only a tick in which all three kinds fired produces
  output, called a combined tick here. The tick:
  - shows and logs the reading;
  - pushes the temperature into a rolling window of the last ten readings;
  - draws the window when the configuration asks for a graph;
  - prints one alert for each reading strictly above its threshold;
  - prints the average, minimum and maximum of the window.
- **Run length.** A run lasts 15 seconds when the answer to the duration
  prompt is `1`, and 30 seconds otherwise.

The modules follow the parts of `run_simulation` and its helpers:

- `Sensors`: the sensor kinds, the value ranges of the virtual sensors, the
  configuration, and the duration choice.
- `Alerts`: `check_alerts`.
- `Statistics`: `calculate_statistics`. The values are exact reals. An empty
  window gives what the f32 arithmetic gives: the average is NaN, the minimum
  is +infinity and the maximum is -infinity (`Mean.NaN`, `PosInfinity`,
  `NegInfinity`).
- `Window`: the rolling temperature window. It is a class whose `values`
  field is a sequence updated in place. A ghost history of every pushed
  reading specifies it.
- `Simulation`: the run state as a class, `SimulationRun`:
  - three last-fire timestamps, the earliest time of the next pass, the
    window, and the log of what the combined ticks emitted;
  - `Tick`, one pass of the loop body, built from a per-kind `Poll`;
  - `Record`, the combined-tick block;
  - `RunSimulation`, the loop that ends once the duration has elapsed.

Time is a natural number of seconds. `RunSimulation` receives the time of
every pass as a clock sequence and the values the sensors return in each
pass as a sample sequence:
- the clock starts at the run start and is strictly increasing, because of
  the one-second sleep;
- the samples lie in the documented ranges;
- the clock reaches the duration, so the loop ends.

The class, constructor and method contracts (`Push`, `Tick`, `Record`) state
the new state in terms of the old state. The specification functions and
predicates they use (`Newest`, `Temperatures`, `RunLog`) get their meaning
from the lemmas listed below. `Advance` and `Replay` restate the loop body
and the whole loop as plain functions. `Tick` is proved to perform
`Advance`, and `RunSimulation` is proved to return the log of `Replay`.

## Model

| member | source | states |
|---|---|---|
| Sensors.DurationSeconds | simulated_embedded_system/src/main.rs:173-180 | the duration is 15 exactly when the trimmed choice is "1", and 30 for every other answer |
| Alerts.CheckAlerts | simulated_embedded_system/src/main.rs:137-149 | at most three alerts; which ones and in what order is given by CheckAlertsMeaning |
| Alerts.CheckAlertsMeaning | simulated_embedded_system/src/main.rs:137-149 | at most three alerts; a kind has an alert iff its reading is strictly above its threshold, so a reading equal to it gives none; each alert carries that kind's reading; alerts come in the order temperature, humidity, light |
| Statistics.CalculateStatistics | simulated_embedded_system/src/main.rs:127-134 | the average is NaN exactly when the window is empty; StatisticsBounds gives the extrema and the bounds on the average |
| Statistics.StatisticsBounds | simulated_embedded_system/src/main.rs:127-134 | an empty window gives NaN, +infinity, -infinity; a non-empty one gives a finite minimum and maximum that are elements of the window, bound every element, and enclose the average |
| Statistics.FoldMinFinds | simulated_embedded_system/src/main.rs:131 | the min-fold from the seed is at most the seed and every element, and equals the seed or one of the elements |
| Statistics.FoldMaxFinds | simulated_embedded_system/src/main.rs:132 | the max-fold from the seed is at least the seed and every element, and equals the seed or one of the elements |
| Statistics.SumBetween | simulated_embedded_system/src/main.rs:128 | when every element lies in [lo, hi], the sum lies between lo and hi added once per element |
| Statistics.MeanBetween | simulated_embedded_system/src/main.rs:128-130 | the sum divided by the count of a non-empty window whose elements lie in [lo, hi] lies in [lo, hi] |
| Statistics.ThreeReadingsExample | simulated_embedded_system/src/main.rs:127-134 | the window 20, 25, 30 has average 25, minimum 20 and maximum 30 |
| Window.Newest | simulated_embedded_system/src/main.rs:229-230 | the newest n readings of a history, oldest first; NewestAfterPush and RollingWindow.Push give its meaning as push-then-trim |
| Window.NewestAfterPush | simulated_embedded_system/src/main.rs:228-231 | the newest n of a history with x appended equal the newest n with x appended and, on overflow, the front dropped |
| Window.RollingWindow.constructor | simulated_embedded_system/src/main.rs:161 | a new window is empty and nothing has been pushed |
| Window.RollingWindow.Push | simulated_embedded_system/src/main.rs:228-231 | after a push the window holds the newest ten pushed readings in push order; its length is min(10, old + 1); the new reading is last; below capacity it is old + [x], at capacity the oldest reading is removed first |
| Simulation.DueAtOwnTimestamp | simulated_embedded_system/src/main.rs:184-186 | a kind whose timestamp equals now is due iff its rate is 0 |
| Simulation.Due | simulated_embedded_system/src/main.rs:200-210 | a kind is due when the time since its last fire is at least its rate; Poll, DueAtOwnTimestamp and ZeroRatesEmitEveryPass state its consequences |
| Simulation.Poll | simulated_embedded_system/src/main.rs:200-213 | a kind returns a reading iff now minus its last fire is at least its rate; the reading is the sensor's value; the timestamp becomes now when it fires and is otherwise unchanged |
| Simulation.Emit | simulated_embedded_system/src/main.rs:216-245 | the output of a combined tick: its time, reading, window, graph flag, the alerts of the reading and the statistics of the window; EmitWellFormed and EmittedStatisticsFinite give its properties |
| Simulation.MaxRate | simulated_embedded_system/src/main.rs:22-24 | the largest of the three rates, and one of them |
| Simulation.Temperatures | simulated_embedded_system/src/main.rs:228 | the temperatures of the emitted ticks in emission order, one per emission; it is the push history of the window |
| Simulation.EmitWellFormed | simulated_embedded_system/src/main.rs:216-245 | an emission built from an in-range reading and the newest ten of a history ending with its temperature is well formed |
| Simulation.EmittedStatisticsFinite | simulated_embedded_system/src/main.rs:228-244 | every emitted statistics line comes from a non-empty window: the average is a number, the minimum and maximum are finite, min <= average <= max, and the current temperature lies between them |
| Simulation.RunLogEach | simulated_embedded_system/src/main.rs:216-245 | every emission of a run log is well formed |
| Simulation.RunLogOrdered | simulated_embedded_system/src/main.rs:184-216 | emissions come at least the longest rate after the start, and any later one is strictly later than, and at least the longest rate after, any earlier one |
| Simulation.RunLogWindowAt | simulated_embedded_system/src/main.rs:228-231 | emission j shows the newest ten of the first j + 1 emitted temperatures |
| Simulation.RunLogFacts | simulated_embedded_system/src/main.rs:188-245 | the emissions of a run that ended before a limit are well formed, lie between start + longest rate and the limit, are ordered and spaced, and each shows the rolling window as of that emission |
| Simulation.Advance | simulated_embedded_system/src/main.rs:195-248 | the reference rule for one pass: each due kind fires and takes now as timestamp, and when all three fired the emission of the sample with the newest ten emitted temperatures joins the log |
| Simulation.Replay | simulated_embedded_system/src/main.rs:188-248 | the timestamps and log after a sequence of passes, by folding Advance from all timestamps at the start and an empty log |
| Simulation.ReplayStep | simulated_embedded_system/src/main.rs:195-248 | one more pass of the same clock applies Advance to the replay so far |
| Simulation.PassEmitsIffAllDue | simulated_embedded_system/src/main.rs:200-216 | pass n emits iff all three kinds are due against the timestamps the earlier passes left, and then it appends exactly the emission of its own time, sample and window |
| Simulation.ReplayLength | simulated_embedded_system/src/main.rs:216 | a replay emits at most once per pass |
| Simulation.ReplayEmissions | simulated_embedded_system/src/main.rs:216-245 | every emission carries the time and sensor values of one of the passes |
| Simulation.ReplayTimestamps | simulated_embedded_system/src/main.rs:184-213 | on a ticking clock every timestamp lies between the start and the latest pass |
| Simulation.ZeroRatesEmitEveryPass | simulated_embedded_system/src/main.rs:200-216 | with all three rates zero, every pass emits |
| Simulation.SimulationRun.constructor | simulated_embedded_system/src/main.rs:183-186 | all three timestamps start at the run start; the window and the log are empty |
| Simulation.SimulationRun.Tick | simulated_embedded_system/src/main.rs:195-248 | each kind fires iff it is due; a rate-0 kind always fires; the timestamps and log after the pass are exactly Advance of those before it; the window takes the temperature iff all three fired; the next pass is at now + 1 or later |
| Simulation.SimulationRun.Record | simulated_embedded_system/src/main.rs:216-245 | the window takes the temperature, and the log grows by the emission of the reading, its alerts and the statistics of the newest ten emitted temperatures; the timestamps are unchanged |
| Simulation.ClockFloor | simulated_embedded_system/src/main.rs:248 | with one pass per second or slower, pass i comes at least i seconds after the start |
| Simulation.RunSimulation | simulated_embedded_system/src/main.rs:188-250 | the loop makes at least one pass and stops at the first pass whose elapsed time reaches the duration; every earlier pass is inside it and there are at most duration passes; the log is exactly the replay of the passes made, at most one emission per pass, and it is a run log ending before start + duration |
| Simulation.FirstPass | simulated_embedded_system/src/main.rs:183-213 | the first pass of a fresh run, at the start, fires exactly the kinds whose rate is 0, so it emits iff all three rates are 0 |

## Left out

- `main`, `adjust_settings`, `view_logs`, `clear_screen` and the prompts are terminal I/O. The duration answer is a parameter, already trimmed.
- `Config::load`: TOML parsing through external libraries. The configuration is a plain datatype with natural rates and real thresholds. `log_file_path` is not part of the model.
- `FileLogger::log`: file append with a wall-clock timestamp. The log line is an `Emission` in the run log.
- `ConsoleDisplay`, including the bar scaling of `show_graph` and all two-decimal formatting. An emission records which values are shown and whether the graph is drawn. Alerts are the kind and value that the message prints.
- `rand::thread_rng`: the sensor values are inputs, required to lie in the ranges 20 to 30, 30 to 70 and 0 to 100, with the upper end excluded.
- `Instant`, `Duration` and `thread::sleep`: time is a natural number of seconds. Sub-second elapsed times are not modelled. The source reads the clock separately for each comparison and each timestamp reset; the model uses one time per pass.
- f32 rounding: sums and averages are exact reals. The empty-window NaN and infinities are kept.
- `u64` rates: unbounded naturals. No overflow can occur at the rates a configuration file holds.
- On an empty window `calculate_statistics` (main.rs:127-134) yields NaN, +infinity and -infinity rather than failing. The model keeps this, and `EmittedStatisticsFinite` shows that the loop never reaches that case.
- `.expect` at main.rs:225 aborts the run when a log write fails. This is not modelled.
