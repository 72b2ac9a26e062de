/**
 * The three virtual sensors, the ranges their simulated readings fall in,
 * and the configuration the sampling loop reads.
 */
module Sensors {

  datatype SensorKind = Temperature | Humidity | Light

  /** The fixed position of a kind in every per-tick ordering (temperature, humidity, light). */
  function Rank(kind: SensorKind): nat
  {
    match kind
    case Temperature => 0
    case Humidity => 1
    case Light => 2
  }

  /** One reading of each sensor, as drawn in a single tick. */
  datatype Sample = Sample(temperature: real, humidity: real, light: real)

  function Reading(s: Sample, kind: SensorKind): real
  {
    match kind
    case Temperature => s.temperature
    case Humidity => s.humidity
    case Light => s.light
  }

  /** The half-open range the virtual sensor draws each kind's value from. */
  predicate InRange(kind: SensorKind, value: real)
  {
    match kind
    case Temperature => 20.0 <= value < 30.0
    case Humidity => 30.0 <= value < 70.0
    case Light => 0.0 <= value < 100.0
  }

  predicate SampleInRange(s: Sample)
  {
    InRange(Temperature, s.temperature) && InRange(Humidity, s.humidity) && InRange(Light, s.light)
  }

  /** Sampling interval of each kind, in whole seconds. */
  datatype SamplingRates = SamplingRates(temperature: nat, humidity: nat, light: nat)

  function Rate(rates: SamplingRates, kind: SensorKind): nat
  {
    match kind
    case Temperature => rates.temperature
    case Humidity => rates.humidity
    case Light => rates.light
  }

  /** Alert thresholds: a reading strictly above its kind's threshold raises an alert. */
  datatype AlertThresholds = AlertThresholds(temperature: real, humidity: real, light: real)

  function Threshold(thresholds: AlertThresholds, kind: SensorKind): real
  {
    match kind
    case Temperature => thresholds.temperature
    case Humidity => thresholds.humidity
    case Light => thresholds.light
  }

  /** The parts of the configuration file the sampling loop reads. */
  datatype Config = Config(sensors: SamplingRates, realTimeGraph: bool, alerts: AlertThresholds)

  /**
   * The run length picked at the duration prompt, from the trimmed answer:
   * "1" runs for 15 seconds, "2" and every other answer for 30.
   */
  function DurationSeconds(choice: string): (seconds: nat)
    ensures seconds == 15 || seconds == 30
    ensures seconds == 15 <==> choice == "1"
  {
    match choice
    case "1" => 15
    case "2" => 30
    case _ => 30
  }
}
