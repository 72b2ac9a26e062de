/**
 * One simulation run: the per-kind sampling scheduler, the gate that only
 * lets a tick produce output when all three kinds fired together, and the
 * loop that ticks until the chosen duration has elapsed.
 *
 * Time is a count of whole seconds.  Each tick is handed the current time
 * and the three values the virtual sensors would return in that tick; a
 * kind that is not due ignores its value.
 */
module Simulation {
  import opened Wrappers
  import opened Sensors
  import opened Alerts
  import opened Statistics
  import opened Window

  /** A kind is due once at least its sampling rate has passed since it last fired. */
  predicate Due(now: nat, lastFire: nat, rate: nat)
  {
    now - lastFire >= rate
  }

  /**
   * A kind whose timestamp was just set (at the run start, or by firing) is
   * due in the same second exactly when its rate is zero.
   */
  lemma DueAtOwnTimestamp(now: nat, rate: nat)
    ensures Due(now, now, rate) <==> rate == 0
  {
  }

  /**
   * One kind's check within a tick: when the kind is due its sensor is read
   * and its timestamp moves to now; otherwise there is no reading and the
   * timestamp stays.
   */
  method Poll(now: nat, lastFire: nat, rate: nat, value: real) returns (reading: Option<real>, last: nat)
    ensures reading.Some? <==> Due(now, lastFire, rate)
    ensures reading.Some? ==> reading.value == value
    ensures last == if reading.Some? then now else lastFire
  {
    reading, last := None, lastFire;
    if Due(now, lastFire, rate) {
      reading, last := Some(value), now;
    }
  }

  /** Which kinds fired in one tick. */
  datatype Fired = Fired(temperature: bool, humidity: bool, light: bool)
  {
    predicate All()
    {
      temperature && humidity && light
    }
  }

  /**
   * Everything a combined tick emits: the display and log line (time and the
   * three readings), the window after the push (drawn as a graph when the
   * configuration asks for it), the alert lines and the statistics line.
   */
  datatype Emission = Emission(
    time: nat,
    reading: Sample,
    window: seq<real>,
    showGraph: bool,
    alerts: seq<Alert>,
    stats: Stats)

  function Emit(config: Config, now: nat, reading: Sample, window: seq<real>): Emission
  {
    Emission(now, reading, window, config.realTimeGraph,
             CheckAlerts(reading.temperature, reading.humidity, reading.light, config.alerts),
             CalculateStatistics(window))
  }

  /** The temperatures of the emitted ticks, in emission order. */
  function Temperatures(log: seq<Emission>): (temps: seq<real>)
    ensures |temps| == |log|
  {
    if log == [] then [] else Temperatures(log[..|log| - 1]) + [log[|log| - 1].reading.temperature]
  }

  /** Emitting one more tick appends its temperature to the emitted temperatures. */
  lemma TemperaturesAppend(log: seq<Emission>, e: Emission)
    ensures Temperatures(log + [e]) == Temperatures(log) + [e.reading.temperature]
  {
    assert (log + [e])[..|log|] == log;
  }

  /** The longest sampling rate: the least gap between two combined ticks. */
  function MaxRate(rates: SamplingRates): (m: nat)
    ensures m >= rates.temperature && m >= rates.humidity && m >= rates.light
    ensures m == rates.temperature || m == rates.humidity || m == rates.light
  {
    var th := if rates.temperature >= rates.humidity then rates.temperature else rates.humidity;
    if th >= rates.light then th else rates.light
  }

  /**
   * An emission shows a reading in the sensors' ranges, a non-empty window of
   * at most Capacity temperatures ending with that reading's, the alerts for
   * the reading, and the statistics of the window.
   */
  predicate WellFormed(config: Config, e: Emission)
  {
    && SampleInRange(e.reading)
    && 0 < |e.window| <= Capacity
    && e.window[|e.window| - 1] == e.reading.temperature
    && e.showGraph == config.realTimeGraph
    && e.alerts == CheckAlerts(e.reading.temperature, e.reading.humidity, e.reading.light, config.alerts)
    && e.stats == CalculateStatistics(e.window)
  }

  /**
   * The statistics of an emission are taken over a non-empty window, so they
   * are never the empty-window NaN and infinities: the minimum, average and
   * maximum are finite and ordered.
   */
  lemma EmittedStatisticsFinite(config: Config, e: Emission)
    requires WellFormed(config, e)
    ensures e.stats.average.Mean? && e.stats.min.Finite? && e.stats.max.Finite?
    ensures e.stats.min.value <= e.stats.average.value <= e.stats.max.value
    ensures e.stats.min.value <= e.reading.temperature <= e.stats.max.value
  {
    StatisticsBounds(e.window);
    assert e.window[|e.window| - 1] in e.window;
  }

  /** Every emission of the log is well formed. */
  predicate AllWellFormed(config: Config, log: seq<Emission>)
    decreases |log|
  {
    log == [] || (AllWellFormed(config, log[..|log| - 1]) && WellFormed(config, log[|log| - 1]))
  }

  /**
   * The timing of the log: each emission comes no sooner than gap after the
   * start, and strictly later than, and at least gap after, the one before it.
   */
  predicate Spaced(start: nat, gap: nat, log: seq<Emission>)
    decreases |log|
  {
    log == [] ||
    var init, e := log[..|log| - 1], log[|log| - 1];
    && Spaced(start, gap, init)
    && start + gap <= e.time
    && (init != [] ==> init[|init| - 1].time < e.time && init[|init| - 1].time + gap <= e.time)
  }

  /** Each emission shows the newest Capacity temperatures emitted up to and including it. */
  predicate Windowed(log: seq<Emission>)
    decreases |log|
  {
    log == [] || (Windowed(log[..|log| - 1]) && log[|log| - 1].window == Newest(Temperatures(log), Capacity))
  }

  /**
   * The log of a run, built up one emission at a time: well formed, spaced by
   * the longest sampling rate, and showing the rolling window.
   */
  predicate RunLog(config: Config, start: nat, log: seq<Emission>)
  {
    AllWellFormed(config, log) && Spaced(start, MaxRate(config.sensors), log) && Windowed(log)
  }

  /** Every emission of a run log is well formed. */
  lemma {:induction false} RunLogEach(config: Config, log: seq<Emission>)
    requires AllWellFormed(config, log)
    ensures forall e :: e in log ==> WellFormed(config, e)
    decreases |log|
  {
    if log != [] {
      var init := log[..|log| - 1];
      RunLogEach(config, init);
      assert forall e :: e in log ==> e in init || e == log[|log| - 1];
    }
  }

  /**
   * In a spaced log every emission comes at least gap after the start, and
   * every later one is strictly later than, and at least gap after, every earlier one.
   */
  lemma {:induction false} RunLogOrdered(start: nat, gap: nat, log: seq<Emission>)
    requires Spaced(start, gap, log)
    ensures forall j :: 0 <= j < |log| ==> start + gap <= log[j].time
    ensures forall j, k :: 0 <= j < k < |log| ==> log[j].time < log[k].time && log[j].time + gap <= log[k].time
    decreases |log|
  {
    if log != [] {
      var init := log[..|log| - 1];
      RunLogOrdered(start, gap, init);
      assert forall j :: 0 <= j < |init| ==> log[j] == init[j];
    }
  }

  /** In a windowed log, emission j shows the newest Capacity of the first j + 1 emitted temperatures. */
  lemma {:induction false} RunLogWindowAt(log: seq<Emission>, j: nat)
    requires Windowed(log)
    requires j < |log|
    ensures log[j].window == Newest(Temperatures(log)[..j + 1], Capacity)
    decreases |log|
  {
    var init := log[..|log| - 1];
    assert Temperatures(log) == Temperatures(init) + [log[|log| - 1].reading.temperature];
    if j < |init| {
      RunLogWindowAt(init, j);
      assert log[j] == init[j];
      assert Temperatures(log)[..j + 1] == Temperatures(init)[..j + 1];
    } else {
      assert Temperatures(log)[..j + 1] == Temperatures(log);
    }
  }

  /** The emission of a combined tick is well formed when its reading is in range. */
  lemma EmitWellFormed(config: Config, now: nat, reading: Sample, pushed: seq<real>)
    requires SampleInRange(reading)
    requires pushed != [] && pushed[|pushed| - 1] == reading.temperature
    ensures WellFormed(config, Emit(config, now, reading, Newest(pushed, Capacity)))
  {
  }

  /** The scheduler timestamps and the emissions after some passes of a run. */
  datatype Trace = Trace(lastTemperature: nat, lastHumidity: nat, lastLight: nat, log: seq<Emission>)

  /**
   * The reference rule for one pass at time now with sensor values sample:
   * each kind that is due against its own timestamp fires and takes now as
   * its timestamp; when all three fired, the emission of the sample, showing
   * the newest Capacity emitted temperatures (its own included), joins the log.
   */
  function Advance(config: Config, t: Trace, now: nat, sample: Sample): Trace
  {
    var fireT := Due(now, t.lastTemperature, config.sensors.temperature);
    var fireH := Due(now, t.lastHumidity, config.sensors.humidity);
    var fireL := Due(now, t.lastLight, config.sensors.light);
    var log :=
      if fireT && fireH && fireL then
        t.log + [Emit(config, now, sample, Newest(Temperatures(t.log) + [sample.temperature], Capacity))]
      else
        t.log;
    Trace(if fireT then now else t.lastTemperature,
          if fireH then now else t.lastHumidity,
          if fireL then now else t.lastLight,
          log)
  }

  /** The state after the passes at clock[i] with values samples[i], in order, of a run started at start. */
  function Replay(config: Config, start: nat, clock: seq<nat>, samples: seq<Sample>): Trace
    requires |clock| == |samples|
    decreases |clock|
  {
    if clock == [] then Trace(start, start, start, [])
    else Advance(config, Replay(config, start, clock[..|clock| - 1], samples[..|samples| - 1]),
                 clock[|clock| - 1], samples[|samples| - 1])
  }

  /** Replaying one more pass of the same clock applies the one-pass rule to it. */
  lemma ReplayStep(config: Config, start: nat, clock: seq<nat>, samples: seq<Sample>, n: nat)
    requires |clock| == |samples| && n < |clock|
    ensures Replay(config, start, clock[..n + 1], samples[..n + 1])
         == Advance(config, Replay(config, start, clock[..n], samples[..n]), clock[n], samples[n])
  {
    assert clock[..n + 1][..n] == clock[..n];
    assert samples[..n + 1][..n] == samples[..n];
  }

  /**
   * Pass n emits exactly when all three kinds are due against the timestamps
   * the earlier passes left, and then it emits one emission of its own time
   * and values; otherwise the log stays as it was.
   */
  lemma PassEmitsIffAllDue(config: Config, start: nat, clock: seq<nat>, samples: seq<Sample>, n: nat)
    requires |clock| == |samples| && n < |clock|
    ensures var before := Replay(config, start, clock[..n], samples[..n]);
            var after := Replay(config, start, clock[..n + 1], samples[..n + 1]);
            && (after.log != before.log <==>
                  && Due(clock[n], before.lastTemperature, config.sensors.temperature)
                  && Due(clock[n], before.lastHumidity, config.sensors.humidity)
                  && Due(clock[n], before.lastLight, config.sensors.light))
            && (after.log != before.log ==>
                  after.log == before.log + [Emit(config, clock[n], samples[n],
                                                  Newest(Temperatures(before.log) + [samples[n].temperature], Capacity))])
  {
    ReplayStep(config, start, clock, samples, n);
    var before := Replay(config, start, clock[..n], samples[..n]);
    assert |before.log + [Emit(config, clock[n], samples[n], Newest(Temperatures(before.log) + [samples[n].temperature], Capacity))]| != |before.log|;
  }

  /** A replay emits at most once per pass. */
  lemma {:induction false} ReplayLength(config: Config, start: nat, clock: seq<nat>, samples: seq<Sample>, n: nat)
    requires |clock| == |samples| && n <= |clock|
    ensures |Replay(config, start, clock[..n], samples[..n]).log| <= n
  {
    if n > 0 {
      ReplayLength(config, start, clock, samples, n - 1);
      ReplayStep(config, start, clock, samples, n - 1);
    }
  }

  /** Every emission of a replay is the emission of one of its passes, with that pass's time and values. */
  lemma {:induction false} ReplayEmissions(config: Config, start: nat, clock: seq<nat>, samples: seq<Sample>, n: nat)
    requires |clock| == |samples| && n <= |clock|
    ensures forall e :: e in Replay(config, start, clock[..n], samples[..n]).log ==>
      exists i :: 0 <= i < n && e == Emit(config, clock[i], samples[i], e.window)
  {
    if n > 0 {
      ReplayEmissions(config, start, clock, samples, n - 1);
      ReplayStep(config, start, clock, samples, n - 1);
      var before := Replay(config, start, clock[..n - 1], samples[..n - 1]).log;
      forall e | e in Replay(config, start, clock[..n], samples[..n]).log
        ensures exists i :: 0 <= i < n && e == Emit(config, clock[i], samples[i], e.window)
      {
        if e !in before {
          assert e == Emit(config, clock[n - 1], samples[n - 1], e.window);
        }
      }
    }
  }

  /**
   * On a ticking clock every timestamp of a replay lies between the start and
   * the time of the latest pass.
   */
  lemma {:induction false} ReplayTimestamps(config: Config, start: nat, clock: seq<nat>, samples: seq<Sample>, n: nat)
    requires Ticking(start, clock) && |clock| == |samples| && n <= |clock|
    ensures var t := Replay(config, start, clock[..n], samples[..n]);
            && start <= t.lastTemperature && start <= t.lastHumidity && start <= t.lastLight
            && (n > 0 ==> t.lastTemperature <= clock[n - 1] && t.lastHumidity <= clock[n - 1] && t.lastLight <= clock[n - 1])
  {
    if n > 0 {
      ReplayTimestamps(config, start, clock, samples, n - 1);
      ReplayStep(config, start, clock, samples, n - 1);
      if n > 1 {
        assert clock[n - 2] < clock[n - 1];
      }
      assert start <= clock[n - 1] by {
        if n > 1 {
          assert clock[0] < clock[n - 1];
        }
      }
    }
  }

  /** With all three rates zero, every pass of a ticking clock emits. */
  lemma {:induction false} ZeroRatesEmitEveryPass(config: Config, start: nat, clock: seq<nat>, samples: seq<Sample>, n: nat)
    requires config.sensors == SamplingRates(0, 0, 0)
    requires Ticking(start, clock) && |clock| == |samples| && n <= |clock|
    ensures |Replay(config, start, clock[..n], samples[..n]).log| == n
  {
    if n > 0 {
      ZeroRatesEmitEveryPass(config, start, clock, samples, n - 1);
      ReplayTimestamps(config, start, clock, samples, n - 1);
      ReplayStep(config, start, clock, samples, n - 1);
      if n > 1 {
        assert clock[n - 2] < clock[n - 1];
      }
    }
  }

  class SimulationRun {
    const config: Config
    const start: nat
    const window: RollingWindow
    var lastTemperature: nat
    var lastHumidity: nat
    var lastLight: nat
    var nextTick: nat
    var log: seq<Emission>

    /**
     * The timestamps lie between the run start and the earliest time of the
     * next tick and none is older than the latest emission; the window has
     * been pushed exactly the emitted temperatures; and the emissions so far
     * are well formed, spaced by the longest rate and all before the next tick.
     */
    ghost predicate Valid()
      reads this, window
    {
      && window.Valid()
      && start <= lastTemperature <= nextTick
      && start <= lastHumidity <= nextTick
      && start <= lastLight <= nextTick
      && window.pushed == Temperatures(log)
      && (log != [] ==>
            var latest := log[|log| - 1].time;
            latest <= lastTemperature && latest <= lastHumidity && latest <= lastLight)
      && (log != [] ==> log[|log| - 1].time < nextTick)
      && RunLog(config, start, log)
    }

    /** The timestamps and the log, as the reference rule sees them. */
    ghost function State(): Trace
      reads this
    {
      Trace(lastTemperature, lastHumidity, lastLight, log)
    }

    /** A run starting at time start: every kind counts as having fired then. */
    constructor (config: Config, start: nat)
      ensures Valid() && fresh(window)
      ensures this.config == config && this.start == start
      ensures lastTemperature == start && lastHumidity == start && lastLight == start
      ensures nextTick == start && log == [] && window.values == []
    {
      this.config := config;
      this.start := start;
      window := new RollingWindow();
      lastTemperature, lastHumidity, lastLight := start, start, start;
      nextTick := start;
      log := [];
    }

    /**
     * One pass of the loop body at time now.  Each kind fires iff it is due,
     * and firing moves only that kind's timestamp to now.  Only when all three
     * fired does the window take the temperature and one emission join the
     * log; otherwise the readings are dropped and nothing else changes.  The
     * pass ends with a one-second sleep, so the next one comes at now + 1 or later.
     */
    method Tick(now: nat, sample: Sample) returns (fired: Fired)
      requires Valid()
      requires nextTick <= now
      requires SampleInRange(sample)
      modifies this, window
      ensures Valid()
      ensures fired == Fired(Due(now, old(lastTemperature), config.sensors.temperature),
                             Due(now, old(lastHumidity), config.sensors.humidity),
                             Due(now, old(lastLight), config.sensors.light))
      ensures nextTick == now + 1
      ensures config.sensors.temperature == 0 ==> fired.temperature
      ensures config.sensors.humidity == 0 ==> fired.humidity
      ensures config.sensors.light == 0 ==> fired.light
      ensures window.pushed == if fired.All() then old(window.pushed) + [sample.temperature] else old(window.pushed)
      ensures State() == Advance(config, old(State()), now, sample)
    {
      ghost var before := State();
      var temperature, humidity, light;
      temperature, lastTemperature := Poll(now, lastTemperature, config.sensors.temperature, sample.temperature);
      humidity, lastHumidity := Poll(now, lastHumidity, config.sensors.humidity, sample.humidity);
      light, lastLight := Poll(now, lastLight, config.sensors.light, sample.light);
      fired := Fired(temperature.Some?, humidity.Some?, light.Some?);
      nextTick := now + 1;
      assert Valid();
      if fired.All() {
        var reading := Sample(temperature.value, humidity.value, light.value);
        assert reading == sample;
        Record(now, reading);
        assert log == before.log + [Emit(config, now, sample, Newest(Temperatures(before.log) + [sample.temperature], Capacity))];
      }
    }

    /**
     * The block run when all three kinds fired at time now: the temperature
     * joins the window and one emission, with the alerts for the reading and
     * the statistics of the window, joins the log.
     */
    method Record(now: nat, reading: Sample)
      requires Valid()
      requires SampleInRange(reading)
      requires now == lastTemperature == lastHumidity == lastLight < nextTick
      requires start + MaxRate(config.sensors) <= now
      requires log != [] ==> log[|log| - 1].time < now && log[|log| - 1].time + MaxRate(config.sensors) <= now
      modifies this, window
      ensures Valid()
      ensures lastTemperature == old(lastTemperature) && lastHumidity == old(lastHumidity)
      ensures lastLight == old(lastLight) && nextTick == old(nextTick)
      ensures window.pushed == old(window.pushed) + [reading.temperature]
      ensures window.values == Newest(window.pushed, Capacity)
      ensures log == old(log) + [Emit(config, now, reading, Newest(Temperatures(old(log)) + [reading.temperature], Capacity))]
    {
      window.Push(reading.temperature);
      var e := Emit(config, now, reading, window.values);
      TemperaturesAppend(log, e);
      EmitWellFormed(config, now, reading, window.pushed);
      assert (log + [e])[..|log|] == log;
      log := log + [e];
    }
  }

  /**
   * The clock of a run: the first pass comes at the start itself, and the
   * clock is strictly increasing, so whole-second readings are at least one
   * second apart.
   */
  predicate Ticking(start: nat, clock: seq<nat>)
  {
    && (clock != [] ==> start == clock[0])
    && forall i, j :: 0 <= i < j < |clock| ==> clock[i] < clock[j]
  }

  /** The i-th tick of a ticking clock comes at least i seconds after the start. */
  lemma {:induction false} ClockFloor(start: nat, clock: seq<nat>, i: nat)
    requires Ticking(start, clock)
    requires i < |clock|
    ensures start + i <= clock[i]
  {
    if i > 0 {
      ClockFloor(start, clock, i - 1);
      assert clock[i - 1] < clock[i];
    }
  }

  /**
   * The emissions of a run that ended before time limit: each is well formed
   * and lies between the start plus the longest rate and the limit, later
   * ones are strictly later and at least the longest rate apart, and
   * emission j shows the newest Capacity of the first j + 1 emitted temperatures.
   */
  lemma RunLogFacts(config: Config, start: nat, limit: nat, log: seq<Emission>)
    requires RunLog(config, start, log)
    requires log != [] ==> log[|log| - 1].time < limit
    ensures forall e :: e in log ==> WellFormed(config, e)
    ensures forall e :: e in log ==> start + MaxRate(config.sensors) <= e.time < limit
    ensures forall j, k :: 0 <= j < k < |log| ==>
      log[j].time < log[k].time && log[j].time + MaxRate(config.sensors) <= log[k].time
    ensures forall j :: 0 <= j < |log| ==> log[j].window == Newest(Temperatures(log)[..j + 1], Capacity)
  {
    var gap := MaxRate(config.sensors);
    RunLogEach(config, log);
    RunLogOrdered(start, gap, log);
    forall j | 0 <= j < |log|
      ensures log[j].window == Newest(Temperatures(log)[..j + 1], Capacity)
    {
      RunLogWindowAt(log, j);
    }
    forall e | e in log
      ensures start + gap <= e.time < limit
    {
      var j :| 0 <= j < |log| && log[j] == e;
      assert j < |log| - 1 ==> log[j].time < log[|log| - 1].time;
    }
  }

  /**
   * The sampling loop of one run of duration DurationSeconds(choice) seconds,
   * started at time start.  Tick i happens at clock[i] with sensor values
   * samples[i].  The loop stops before the first tick whose elapsed time
   * reaches the duration; it returns how many ticks ran and the emissions,
   * which form a run log ending before the deadline (RunLogFacts spells out
   * what that means).
   */
  method RunSimulation(config: Config, choice: string, start: nat, clock: seq<nat>, samples: seq<Sample>)
    returns (ticks: nat, log: seq<Emission>)
    requires |samples| == |clock|
    requires forall i :: 0 <= i < |samples| ==> SampleInRange(samples[i])
    requires Ticking(start, clock)
    requires clock != [] && clock[|clock| - 1] - start >= DurationSeconds(choice)
    ensures 0 < ticks < |clock| && clock[ticks] - start >= DurationSeconds(choice)
    ensures forall i :: 0 <= i < ticks ==> clock[i] - start < DurationSeconds(choice)
    ensures ticks <= DurationSeconds(choice)
    ensures |log| <= ticks
    ensures RunLog(config, start, log)
    ensures log != [] ==> log[|log| - 1].time < start + DurationSeconds(choice)
    ensures log == Replay(config, start, clock[..ticks], samples[..ticks]).log
  {
    var duration := DurationSeconds(choice);
    var run := new SimulationRun(config, start);
    var i := 0;
    while clock[i] - start < duration
      invariant 0 <= i < |clock|
      invariant i > 0 ==> clock[i - 1] - start < duration
      invariant run.Valid() && run.config == config && run.start == start
      invariant run.nextTick <= clock[i]
      invariant run.nextTick <= start + duration
      invariant run.State() == Replay(config, start, clock[..i], samples[..i])
      decreases |clock| - i
    {
      assert i + 1 < |clock| && clock[i] < clock[i + 1];
      ReplayStep(config, start, clock, samples, i);
      var fired := run.Tick(clock[i], samples[i]);
      i := i + 1;
    }
    ticks, log := i, run.log;
    ClockFloor(start, clock, ticks - 1);
    ReplayLength(config, start, clock, samples, ticks);
    forall j | 0 <= j < ticks
      ensures clock[j] - start < duration
    {
      assert j < ticks - 1 ==> clock[j] < clock[ticks - 1];
    }
  }

  /**
   * The first pass of a fresh run, at the start itself: only the kinds whose
   * rate is zero fire, so it emits only when all three rates are zero.
   */
  method FirstPass(config: Config, start: nat, sample: Sample) returns (fired: Fired)
    requires SampleInRange(sample)
    ensures fired == Fired(config.sensors.temperature == 0, config.sensors.humidity == 0, config.sensors.light == 0)
    ensures fired.All() <==> MaxRate(config.sensors) == 0
  {
    var run := new SimulationRun(config, start);
    fired := run.Tick(start, sample);
    DueAtOwnTimestamp(start, config.sensors.temperature);
    DueAtOwnTimestamp(start, config.sensors.humidity);
    DueAtOwnTimestamp(start, config.sensors.light);
  }
}
