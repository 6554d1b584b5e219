/**
 * The HTTP surface of the pipeline: reading ingestion and query, alert
 * listing and acknowledgement. Each request is one sequential step on the
 * stores.
 */
module Api {
  import opened Wrappers
  import opened Domain
  import opened Queries
  import opened Evaluation
  import Store
  import Broadcast

  /** The most readings one query returns. */
  const ReadingsCap: nat := 1000

  /** The most alerts one listing returns. */
  const AlertsCap: nat := 500

  /**
   * The reading as ingestion stores it: under the server's fresh id, and
   * stamped with the current time only when the client left the timestamp
   * at its default.
   */
  function Stamp(reading: SensorReading, id: Guid, now: Instant): (r: SensorReading)
    ensures r == reading.(id := id, timestampUtc := r.timestampUtc)
    ensures reading.timestampUtc != DefaultInstant ==> r.timestampUtc == reading.timestampUtc
    ensures reading.timestampUtc == DefaultInstant ==> r.timestampUtc == now
  {
    var stamped := reading.(id := id);
    if stamped.timestampUtc == DefaultInstant then stamped.(timestampUtc := now) else stamped
  }

  /**
   * Submitting a stored reading again changes only its id: once a reading
   * has a real timestamp, no later stamp overwrites it.
   */
  lemma StampKeepsExplicitTime(reading: SensorReading, id1: Guid, now1: Instant, id2: Guid, now2: Instant)
    requires now1 != DefaultInstant
    ensures Stamp(Stamp(reading, id1, now1), id2, now2) == Stamp(reading, id2, now1)
  {
  }

  /** The response of a successful ingestion. */
  datatype IngestResponse = Accepted(id: Guid, alerts: nat)

  class ReadingsController {
    const db: Store.AppDb
    const evaluator: ThresholdEvaluator
    const hub: Broadcast.AlertsHub

    /** The evaluator works on the controller's own database. */
    predicate Valid() {
      evaluator.db == db
    }

    constructor (db: Store.AppDb, evaluator: ThresholdEvaluator, hub: Broadcast.AlertsHub)
      requires evaluator.db == db
      ensures this.db == db && this.evaluator == evaluator && this.hub == hub
      ensures Valid()
    {
      this.db := db;
      this.evaluator := evaluator;
      this.hub := hub;
    }

    /**
     * Ingests one reading: stamps it, stores it, evaluates it, and publishes
     * the alerts it raised when there are any. `readingId` and `now` are the
     * fresh id and clock value of this request; `newId` and `clock` those of
     * the alerts.
     */
    method Ingest(reading: SensorReading, readingId: Guid, now: Instant,
                  newId: nat -> Guid, clock: nat -> Instant)
      returns (response: IngestResponse)
      requires Valid()
      modifies db, hub
      ensures var stored := Stamp(reading, readingId, now);
              var raised := AlertsFor(old(db.rules), stored, newId, clock);
              && db.readings == old(db.readings) + [stored]
              && db.alerts == old(db.alerts) + raised
              && db.rules == old(db.rules)
              && hub.published == old(hub.published) + (if raised == [] then [] else [raised])
              && response == Accepted(readingId, |raised|)
    {
      var stored := Stamp(reading, readingId, now);
      db.AddReading(stored);
      var alerts := evaluator.Evaluate(stored, newId, clock);
      if |alerts| > 0 {
        hub.SendAll(alerts);
      }
      response := Accepted(stored.id, |alerts|);
    }
  }

  /** The filters of a reading query; the device is always given, the rest are optional. */
  predicate ReadingMatches(r: SensorReading, deviceId: Guid, metric: Option<MetricType>,
                           fromUtc: Option<Instant>, toUtc: Option<Instant>) {
    && r.deviceId == deviceId
    && (metric.None? || r.metric == metric.value)
    && (fromUtc.None? || r.timestampUtc >= fromUtc.value)
    && (toUtc.None? || r.timestampUtc <= toUtc.value)
  }

  function ReadingFilter(deviceId: Guid, metric: Option<MetricType>,
                         fromUtc: Option<Instant>, toUtc: Option<Instant>): SensorReading -> bool {
    r => ReadingMatches(r, deviceId, metric, fromUtc, toUtc)
  }

  function ReadingTime(r: SensorReading): int {
    r.timestampUtc
  }

  /**
   * The readings query: the matching readings, newest first, at most
   * ReadingsCap of them. Exactly min(ReadingsCap, #matching) come back, and
   * below the cap they are all the matching readings, each as often as stored.
   */
  function QueryReadings(readings: seq<SensorReading>, deviceId: Guid, metric: Option<MetricType>,
                         fromUtc: Option<Instant>, toUtc: Option<Instant>): (result: seq<SensorReading>)
    ensures |result| <= ReadingsCap
    ensures var matching := Filter(readings, ReadingFilter(deviceId, metric, fromUtc, toUtc));
            && |result| == (if |matching| <= ReadingsCap then |matching| else ReadingsCap)
            && multiset(result) <= multiset(matching)
            && (|matching| <= ReadingsCap ==> multiset(result) == multiset(matching))
    ensures NonIncreasing(result, ReadingTime)
    ensures forall r :: r in result ==> r in readings && ReadingMatches(r, deviceId, metric, fromUtc, toUtc)
  {
    NewestOfFilter(readings, ReadingFilter(deviceId, metric, fromUtc, toUtc), ReadingTime, ReadingsCap);
    Newest(Filter(readings, ReadingFilter(deviceId, metric, fromUtc, toUtc)), ReadingTime, ReadingsCap)
  }

  /**
   * No matching reading is lost while the cap is not reached, and when it
   * is, every matching reading that was cut is no newer than any returned.
   */
  lemma QueryReadingsNewest(readings: seq<SensorReading>, deviceId: Guid, metric: Option<MetricType>,
                            fromUtc: Option<Instant>, toUtc: Option<Instant>, r: SensorReading)
    requires r in readings && ReadingMatches(r, deviceId, metric, fromUtc, toUtc)
    ensures var result := QueryReadings(readings, deviceId, metric, fromUtc, toUtc);
            r in result || forall q :: q in result ==> q.timestampUtc >= r.timestampUtc
    ensures |Filter(readings, ReadingFilter(deviceId, metric, fromUtc, toUtc))| <= ReadingsCap ==>
            r in QueryReadings(readings, deviceId, metric, fromUtc, toUtc)
  {
    var p := ReadingFilter(deviceId, metric, fromUtc, toUtc);
    var matching := Filter(readings, p);
    FilterMembers(readings, p);
    var result := Newest(matching, ReadingTime, ReadingsCap);
    if r !in result {
      assert r in matching;
      NewestKeepsNewest(matching, ReadingTime, ReadingsCap, r);
    }
  }

  /** The filters of an alert listing; both are optional. */
  predicate AlertMatches(a: Alert, deviceId: Option<Guid>, acknowledged: Option<bool>) {
    && (deviceId.None? || a.deviceId == deviceId.value)
    && (acknowledged.None? || a.acknowledged == acknowledged.value)
  }

  function AlertFilter(deviceId: Option<Guid>, acknowledged: Option<bool>): Alert -> bool {
    a => AlertMatches(a, deviceId, acknowledged)
  }

  function AlertTime(a: Alert): int {
    a.createdUtc
  }

  /**
   * The alert listing: the matching alerts, newest first, at most AlertsCap
   * of them; exactly min(AlertsCap, #matching), and all of them below the cap.
   */
  function GetAlerts(alerts: seq<Alert>, deviceId: Option<Guid>, acknowledged: Option<bool>): (result: seq<Alert>)
    ensures |result| <= AlertsCap
    ensures var matching := Filter(alerts, AlertFilter(deviceId, acknowledged));
            && |result| == (if |matching| <= AlertsCap then |matching| else AlertsCap)
            && multiset(result) <= multiset(matching)
            && (|matching| <= AlertsCap ==> multiset(result) == multiset(matching))
    ensures NonIncreasing(result, AlertTime)
    ensures forall a :: a in result ==> a in alerts && AlertMatches(a, deviceId, acknowledged)
  {
    NewestOfFilter(alerts, AlertFilter(deviceId, acknowledged), AlertTime, AlertsCap);
    Newest(Filter(alerts, AlertFilter(deviceId, acknowledged)), AlertTime, AlertsCap)
  }

  /** As for readings: below the cap nothing matching is lost; above it only the oldest are cut. */
  lemma GetAlertsNewest(alerts: seq<Alert>, deviceId: Option<Guid>, acknowledged: Option<bool>, a: Alert)
    requires a in alerts && AlertMatches(a, deviceId, acknowledged)
    ensures var result := GetAlerts(alerts, deviceId, acknowledged);
            a in result || forall b :: b in result ==> b.createdUtc >= a.createdUtc
    ensures |Filter(alerts, AlertFilter(deviceId, acknowledged))| <= AlertsCap ==>
            a in GetAlerts(alerts, deviceId, acknowledged)
  {
    var p := AlertFilter(deviceId, acknowledged);
    var matching := Filter(alerts, p);
    FilterMembers(alerts, p);
    var result := Newest(matching, AlertTime, AlertsCap);
    if a !in result {
      assert a in matching;
      NewestKeepsNewest(matching, AlertTime, AlertsCap, a);
    }
  }

  /** The position of the first alert with id `id`, if any. */
  function FindAlert(alerts: seq<Alert>, id: Guid): (i: Option<nat>)
    ensures i.Some? ==> i.value < |alerts| && alerts[i.value].id == id
                        && forall j :: 0 <= j < i.value ==> alerts[j].id != id
    ensures i.None? ==> forall a :: a in alerts ==> a.id != id
  {
    if alerts == [] then None
    else if alerts[0].id == id then Some(0)
    else match FindAlert(alerts[1..], id)
      case None => None
      case Some(j) => Some(j + 1)
  }

  /** The alert table after acknowledging `id`: the first alert with that id is marked, nothing else changes. */
  function Acknowledge(alerts: seq<Alert>, id: Guid): (after: seq<Alert>)
    ensures |after| == |alerts|
  {
    match FindAlert(alerts, id)
    case None => alerts
    case Some(i) => alerts[i := alerts[i].(acknowledged := true)]
  }

  /** Acknowledgement only ever raises flags: ids stay put and no flag is cleared. */
  predicate NeverUnacknowledges(before: seq<Alert>, after: seq<Alert>) {
    && |before| <= |after|
    && forall i :: 0 <= i < |before| ==>
         after[i].id == before[i].id && (before[i].acknowledged ==> after[i].acknowledged)
  }

  /** An unknown id leaves the table as it was. */
  lemma AcknowledgeUnknown(alerts: seq<Alert>, id: Guid)
    requires forall a :: a in alerts ==> a.id != id
    ensures Acknowledge(alerts, id) == alerts
  {
  }

  /**
   * A known id sets exactly one flag, on an alert with that id; every other
   * field and every other alert is unchanged.
   */
  lemma AcknowledgeKnown(alerts: seq<Alert>, id: Guid)
    requires exists a :: a in alerts && a.id == id
    ensures var after := Acknowledge(alerts, id);
            && |after| == |alerts|
            && (exists i :: 0 <= i < |alerts| && alerts[i].id == id
                  && after[i] == alerts[i].(acknowledged := true)
                  && forall j :: 0 <= j < |alerts| && j != i ==> after[j] == alerts[j])
  {
    var i := FindAlert(alerts, id).value;
    assert Acknowledge(alerts, id)[i] == alerts[i].(acknowledged := true);
  }

  /** Acknowledging twice is acknowledging once. */
  lemma AcknowledgeIdempotent(alerts: seq<Alert>, id: Guid)
    ensures Acknowledge(Acknowledge(alerts, id), id) == Acknowledge(alerts, id)
  {
    match FindAlert(alerts, id)
    case None =>
    case Some(i) =>
      var after := Acknowledge(alerts, id);
      assert forall j :: 0 <= j < |after| ==> after[j].id == alerts[j].id;
      assert FindAlert(after, id) == Some(i);
  }

  lemma AcknowledgeMonotonic(alerts: seq<Alert>, id: Guid)
    ensures NeverUnacknowledges(alerts, Acknowledge(alerts, id))
  {
  }

  /** Alerts are only ever appended, which acknowledges or clears nothing. */
  lemma AppendMonotonic(alerts: seq<Alert>, batch: seq<Alert>)
    ensures NeverUnacknowledges(alerts, alerts + batch)
  {
  }

  /** The responses of an acknowledgement. */
  datatype AckResponse = NoContent | NotFound

  class AlertsController {
    const db: Store.AppDb

    constructor (db: Store.AppDb)
      ensures this.db == db
    {
      this.db := db;
    }

    /** Marks the alert with id `id` as acknowledged; `NotFound` when there is none. */
    method Ack(id: Guid) returns (response: AckResponse)
      modifies db
      ensures response == NotFound <==> forall a :: a in old(db.alerts) ==> a.id != id
      ensures db.alerts == Acknowledge(old(db.alerts), id)
      ensures db.readings == old(db.readings) && db.rules == old(db.rules)
    {
      var found := FindAlert(db.alerts, id);
      if found.None? {
        return NotFound;
      }
      var i := found.value;
      db.alerts := db.alerts[i := db.alerts[i].(acknowledged := true)];
      response := NoContent;
    }
  }
}
