/**
 * The application's database, reduced to the three tables the alerting
 * pipeline touches. Each `Add…` method is one add followed by one save.
 */
module Store {
  import opened Domain

  class AppDb {
    var readings: seq<SensorReading>
    var rules: seq<ThresholdRule>
    var alerts: seq<Alert>

    constructor (rules: seq<ThresholdRule>)
      ensures this.readings == [] && this.rules == rules && this.alerts == []
    {
      this.readings := [];
      this.rules := rules;
      this.alerts := [];
    }

    method AddReading(reading: SensorReading)
      modifies this
      ensures readings == old(readings) + [reading]
      ensures rules == old(rules) && alerts == old(alerts)
    {
      readings := readings + [reading];
    }

    method AddAlerts(batch: seq<Alert>)
      modifies this
      ensures alerts == old(alerts) + batch
      ensures readings == old(readings) && rules == old(rules)
    {
      alerts := alerts + batch;
    }
  }
}
