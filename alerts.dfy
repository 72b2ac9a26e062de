/** Threshold alerts raised for the readings of one combined tick. */
module Alerts {
  import opened Sensors

  /** One alert line: the kind whose threshold was exceeded and the offending value. */
  datatype Alert = Alert(kind: SensorKind, value: real)

  predicate Exceeds(s: Sample, thresholds: AlertThresholds, kind: SensorKind)
  {
    Reading(s, kind) > Threshold(thresholds, kind)
  }

  /** Compares each reading with its threshold and lists one alert per exceeded threshold. */
  function CheckAlerts(temperature: real, humidity: real, light: real, thresholds: AlertThresholds): (alerts: seq<Alert>)
    ensures |alerts| <= 3
  {
    (if temperature > thresholds.temperature then [Alert(Temperature, temperature)] else [])
    + (if humidity > thresholds.humidity then [Alert(Humidity, humidity)] else [])
    + (if light > thresholds.light then [Alert(Light, light)] else [])
  }

  /**
   * At most three alerts; each names a kind whose reading is strictly above
   * its threshold and carries that reading; every such kind has an alert; and
   * the alerts come in the fixed order temperature, humidity, light, so no
   * kind appears twice.  A reading equal to its threshold raises nothing.
   */
  lemma CheckAlertsMeaning(temperature: real, humidity: real, light: real, thresholds: AlertThresholds)
    ensures var alerts := CheckAlerts(temperature, humidity, light, thresholds);
      && |alerts| <= 3
      && (forall i :: 0 <= i < |alerts| ==>
            var s := Sample(temperature, humidity, light);
            alerts[i].value == Reading(s, alerts[i].kind) && Exceeds(s, thresholds, alerts[i].kind))
      && (forall kind ::
            Exceeds(Sample(temperature, humidity, light), thresholds, kind) <==>
            exists i :: 0 <= i < |alerts| && alerts[i].kind == kind)
      && (forall i, j :: 0 <= i < j < |alerts| ==> Rank(alerts[i].kind) < Rank(alerts[j].kind))
  {
    var t := if temperature > thresholds.temperature then [Alert(Temperature, temperature)] else [];
    var h := if humidity > thresholds.humidity then [Alert(Humidity, humidity)] else [];
    var l := if light > thresholds.light then [Alert(Light, light)] else [];
    AlertPositions(t, h, l);
  }

  /** Where each kind's alert, when present, sits in the concatenated list. */
  lemma AlertPositions(t: seq<Alert>, h: seq<Alert>, l: seq<Alert>)
    ensures |t| == 1 ==> (t + h + l)[0] == t[0]
    ensures |h| == 1 ==> (t + h + l)[|t|] == h[0]
    ensures |l| == 1 ==> (t + h + l)[|t| + |h|] == l[0]
  {
  }
}
