/**
 * The threshold evaluator: selects the enabled rules of a reading's device
 * and metric, applies each rule's comparison to the reading's value, and
 * raises one alert per rule that fires, in rule order.
 */
module Evaluation {
  import opened Wrappers
  import opened Domain
  import opened Queries
  import Store

  /**
   * Whether `rule` fires for `value`, as the evaluator decides it: an absent
   * upper bound stands for `double.MaxValue`, an absent lower bound for
   * `double.MinValue` (which is -DoubleMax), and an operator without a
   * name never fires.
   */
  function IsTriggered(rule: ThresholdRule, value: real): (fires: bool)
    ensures fires ==> !rule.op.Unknown?
  {
    match rule.op
    case GreaterThan => value > rule.maxValue.GetOr(DoubleMax)
    case GreaterThanOrEqual => value >= rule.maxValue.GetOr(DoubleMax)
    case LessThan => value < rule.minValue.GetOr(-DoubleMax)
    case LessThanOrEqual => value <= rule.minValue.GetOr(-DoubleMax)
    case Between => value >= rule.minValue.GetOr(-DoubleMax) && value <= rule.maxValue.GetOr(DoubleMax)
    case Unknown(_) => false
  }

  /**
   * The intended meaning of a rule, stated without sentinels: the upper
   * comparisons need an upper bound, the lower ones a lower bound, and an
   * absent side of a range is open.
   */
  predicate TriggeredSpec(rule: ThresholdRule, value: real) {
    match rule.op
    case GreaterThan => rule.maxValue.Some? && value > rule.maxValue.value
    case GreaterThanOrEqual => rule.maxValue.Some? && value >= rule.maxValue.value
    case LessThan => rule.minValue.Some? && value < rule.minValue.value
    case LessThanOrEqual => rule.minValue.Some? && value <= rule.minValue.value
    case Between =>
      && (rule.minValue.None? || rule.minValue.value <= value)
      && (rule.maxValue.None? || value <= rule.maxValue.value)
    case Unknown(_) => false
  }

  /** Strictly inside the range of finite doubles, the sentinels mean "no bound". */
  lemma TriggerMatchesSpec(rule: ThresholdRule, value: real)
    requires -DoubleMax < value < DoubleMax
    ensures IsTriggered(rule, value) <==> TriggeredSpec(rule, value)
  {
  }

  /**
   * The finite value where the two differ for an upper comparison: a
   * `>=` rule without an upper bound fires for `double.MaxValue` itself.
   */
  lemma GreaterOrEqualFiresAtDoubleMax(rule: ThresholdRule)
    requires rule.op == GreaterThanOrEqual && rule.maxValue.None?
    ensures IsTriggered(rule, DoubleMax) && !TriggeredSpec(rule, DoubleMax)
  {
  }

  /**
   * The mirror image for a lower comparison: a `<=` rule without a lower
   * bound fires for `double.MinValue` itself.
   */
  lemma LessOrEqualFiresAtDoubleMin(rule: ThresholdRule)
    requires rule.op == LessThanOrEqual && rule.minValue.None?
    ensures IsTriggered(rule, -DoubleMax) && !TriggeredSpec(rule, -DoubleMax)
  {
  }

  /** The lower comparisons read only the lower bound: a rule that sets only an upper bound is inert. */
  lemma LowerComparisonNeedsMin(rule: ThresholdRule, value: real)
    requires rule.op == LessThan || rule.op == LessThanOrEqual
    requires rule.minValue.None? && -DoubleMax < value
    ensures !IsTriggered(rule, value)
  {
  }

  /** The upper comparisons read only the upper bound. */
  lemma UpperComparisonNeedsMax(rule: ThresholdRule, value: real)
    requires rule.op == GreaterThan || rule.op == GreaterThanOrEqual
    requires rule.maxValue.None? && value < DoubleMax
    ensures !IsTriggered(rule, value)
  {
  }

  /** The alert message for a rule that fired for `value`. */
  function BuildMessage(rule: ThresholdRule, value: real): (m: Message)
    ensures m.metric == rule.metric && m.value == value
    ensures m.Triggered? <==> rule.op.Unknown?
  {
    match rule.op
    case GreaterThan => Compare(rule.metric, value, Gt, rule.maxValue)
    case GreaterThanOrEqual => Compare(rule.metric, value, Ge, rule.maxValue)
    case LessThan => Compare(rule.metric, value, Lt, rule.minValue)
    case LessThanOrEqual => Compare(rule.metric, value, Le, rule.minValue)
    case Between => Range(rule.metric, value, rule.minValue, rule.maxValue)
    case Unknown(_) => Triggered(rule.metric, value)
  }

  /** Whether the comparison a message spells out is true of the value it shows. */
  predicate Describes(m: Message) {
    match m
    case Compare(_, v, symbol, bound) =>
      bound.Some? &&
      (match symbol
       case Gt => v > bound.value
       case Ge => v >= bound.value
       case Lt => v < bound.value
       case Le => v <= bound.value)
    case Range(_, v, low, high) =>
      (low.None? || low.value <= v) && (high.None? || v <= high.value)
    case Triggered(_, _) => false
  }

  /** For finite values, a message states a true comparison exactly when its rule fires. */
  lemma MessageExplainsTrigger(rule: ThresholdRule, value: real)
    requires -DoubleMax < value < DoubleMax
    ensures Describes(BuildMessage(rule, value)) <==> IsTriggered(rule, value)
  {
    TriggerMatchesSpec(rule, value);
  }

  /** The rule lookup's condition: same device, same metric, enabled. */
  predicate Selects(rule: ThresholdRule, reading: SensorReading) {
    rule.deviceId == reading.deviceId && rule.metric == reading.metric && rule.enabled
  }

  function SelectorFor(reading: SensorReading): ThresholdRule -> bool {
    rule => Selects(rule, reading)
  }

  function TriggeredAt(value: real): ThresholdRule -> bool {
    rule => IsTriggered(rule, value)
  }

  /** Whether a rule both applies to the reading and fires for its value. */
  predicate Raises(rule: ThresholdRule, reading: SensorReading) {
    Selects(rule, reading) && IsTriggered(rule, reading.value)
  }

  function RaisingFor(reading: SensorReading): ThresholdRule -> bool {
    rule => Raises(rule, reading)
  }

  /** The rules the lookup returns for a reading, in store order. */
  function Applicable(rules: seq<ThresholdRule>, reading: SensorReading): (r: seq<ThresholdRule>)
    ensures forall x :: x in r <==> x in rules && Selects(x, reading)
  {
    FilterMembers(rules, SelectorFor(reading));
    Filter(rules, SelectorFor(reading))
  }

  /** The rules among `rules` that fire for `value`, in order. */
  function Fired(rules: seq<ThresholdRule>, value: real): seq<ThresholdRule> {
    Filter(rules, TriggeredAt(value))
  }

  function MakeAlert(rule: ThresholdRule, reading: SensorReading, id: Guid, now: Instant): Alert {
    Alert(id, reading.deviceId, reading.metric, reading.value,
          BuildMessage(rule, reading.value), rule.severity, now, false)
  }

  /** One alert per fired rule; the k-th alert takes the k-th fresh id and clock reading. */
  function MakeAlerts(fired: seq<ThresholdRule>, reading: SensorReading,
                      newId: nat -> Guid, clock: nat -> Instant): (alerts: seq<Alert>)
    ensures |alerts| == |fired|
  {
    seq(|fired|, k requires 0 <= k < |fired| => MakeAlert(fired[k], reading, newId(k), clock(k)))
  }

  /** The alerts one evaluation pass raises for `reading` against the rule table `rules`. */
  function AlertsFor(rules: seq<ThresholdRule>, reading: SensorReading,
                     newId: nat -> Guid, clock: nat -> Instant): (alerts: seq<Alert>)
    ensures |alerts| <= |rules|
  {
    MakeAlerts(Fired(Applicable(rules, reading), reading.value), reading, newId, clock)
  }

  lemma MakeAlertsSnoc(fired: seq<ThresholdRule>, rule: ThresholdRule, reading: SensorReading,
                       newId: nat -> Guid, clock: nat -> Instant)
    ensures MakeAlerts(fired + [rule], reading, newId, clock)
         == MakeAlerts(fired, reading, newId, clock) + [MakeAlert(rule, reading, newId(|fired|), clock(|fired|))]
  {
  }

  /** Selecting and then firing is the same as keeping the rules that raise. */
  lemma {:induction false} FiredApplicable(rules: seq<ThresholdRule>, reading: SensorReading)
    ensures Fired(Applicable(rules, reading), reading.value) == Filter(rules, RaisingFor(reading))
  {
    if rules != [] {
      var r0 := rules[0];
      FiredApplicable(rules[1..], reading);
      FilterCons(r0, rules[1..], SelectorFor(reading));
      assert rules == [r0] + rules[1..];
      FilterCons(r0, rules[1..], RaisingFor(reading));
      var rest := Applicable(rules[1..], reading);
      if Selects(r0, reading) {
        assert Applicable(rules, reading) == [r0] + rest;
        FilterCons(r0, rest, TriggeredAt(reading.value));
      } else {
        assert Applicable(rules, reading) == rest;
      }
    }
  }

  /**
   * One alert per rule that applies and fires, in rule order: the k-th alert
   * carries the k-th such rule's severity and message.
   */
  lemma AlertsInRuleOrder(rules: seq<ThresholdRule>, reading: SensorReading,
                          newId: nat -> Guid, clock: nat -> Instant)
    ensures var raising := Filter(rules, RaisingFor(reading));
            var alerts := AlertsFor(rules, reading, newId, clock);
            && |alerts| == |raising|
            && forall k :: 0 <= k < |alerts| ==>
                 alerts[k].severity == raising[k].severity
                 && alerts[k].message == BuildMessage(raising[k], reading.value)
  {
    FiredApplicable(rules, reading);
    var raising := Filter(rules, RaisingFor(reading));
    var alerts := AlertsFor(rules, reading, newId, clock);
    assert alerts == MakeAlerts(raising, reading, newId, clock);
    assert |alerts| == |raising|;
    forall k | 0 <= k < |alerts|
      ensures alerts[k].severity == raising[k].severity
      ensures alerts[k].message == BuildMessage(raising[k], reading.value)
    {
      assert alerts[k] == MakeAlert(raising[k], reading, newId(k), clock(k));
    }
  }

  /**
   * Every alert copies the reading's device, metric and value, starts
   * unacknowledged, and comes from a rule of the table that applies to the
   * reading and fires, whose severity and message it carries.
   */
  lemma AlertsComeFromRaisingRules(rules: seq<ThresholdRule>, reading: SensorReading,
                                   newId: nat -> Guid, clock: nat -> Instant)
    ensures forall a :: a in AlertsFor(rules, reading, newId, clock) ==>
              && a.deviceId == reading.deviceId && a.metric == reading.metric
              && a.value == reading.value && !a.acknowledged
              && a.message.metric == reading.metric
              && exists rule :: rule in rules && Raises(rule, reading)
                   && a.severity == rule.severity && a.message == BuildMessage(rule, reading.value)
  {
    var fired := Fired(Applicable(rules, reading), reading.value);
    FilterMembers(Applicable(rules, reading), TriggeredAt(reading.value));
    forall a | a in AlertsFor(rules, reading, newId, clock)
      ensures && a.deviceId == reading.deviceId && a.metric == reading.metric
              && a.value == reading.value && !a.acknowledged
              && a.message.metric == reading.metric
      ensures exists rule :: rule in rules && Raises(rule, reading)
                && a.severity == rule.severity && a.message == BuildMessage(rule, reading.value)
    {
      var k :| 0 <= k < |fired| && AlertsFor(rules, reading, newId, clock)[k] == a;
      var rule := fired[k];
      assert a == MakeAlert(rule, reading, newId(k), clock(k));
      assert rule in fired;
      assert TriggeredAt(reading.value)(rule);
      assert rule in rules && Raises(rule, reading);
    }
  }

  /** No rule that applies and fires is skipped. */
  lemma EveryRaisingRuleAlerts(rules: seq<ThresholdRule>, reading: SensorReading,
                               newId: nat -> Guid, clock: nat -> Instant, rule: ThresholdRule)
    requires rule in rules && Raises(rule, reading)
    ensures exists a :: a in AlertsFor(rules, reading, newId, clock)
              && a.severity == rule.severity && a.message == BuildMessage(rule, reading.value)
  {
    var fired := Fired(Applicable(rules, reading), reading.value);
    FilterMembers(Applicable(rules, reading), TriggeredAt(reading.value));
    assert rule in Applicable(rules, reading);
    assert TriggeredAt(reading.value)(rule);
    assert rule in fired;
    var k :| 0 <= k < |fired| && fired[k] == rule;
    var alerts := AlertsFor(rules, reading, newId, clock);
    assert alerts[k] == MakeAlert(rule, reading, newId(k), clock(k));
    assert alerts[k] in alerts;
  }

  /** A reading for which no enabled rule of its device and metric exists raises nothing. */
  lemma NoApplicableRuleNoAlerts(rules: seq<ThresholdRule>, reading: SensorReading,
                                 newId: nat -> Guid, clock: nat -> Instant)
    requires forall rule :: rule in rules ==> !Selects(rule, reading)
    ensures AlertsFor(rules, reading, newId, clock) == []
  {
    FilterNone(rules, SelectorFor(reading));
    assert |AlertsFor(rules, reading, newId, clock)| == 0;
  }

  /** The rules of a concatenated table fire in table order. */
  lemma FiredAppend(a: seq<ThresholdRule>, b: seq<ThresholdRule>, reading: SensorReading)
    ensures Fired(Applicable(a + b, reading), reading.value)
         == Fired(Applicable(a, reading), reading.value) + Fired(Applicable(b, reading), reading.value)
  {
    FiredApplicable(a + b, reading);
    FiredApplicable(a, reading);
    FiredApplicable(b, reading);
    FilterAppend(a, b, RaisingFor(reading));
  }

  /** A disabled rule, wherever it sits in the table, changes no evaluation. */
  lemma DisabledRuleIgnored(a: seq<ThresholdRule>, rule: ThresholdRule, b: seq<ThresholdRule>,
                            reading: SensorReading, newId: nat -> Guid, clock: nat -> Instant)
    requires !rule.enabled
    ensures AlertsFor(a + [rule] + b, reading, newId, clock) == AlertsFor(a + b, reading, newId, clock)
  {
    FiredAppend(a + [rule], b, reading);
    FiredAppend(a, [rule], reading);
    FiredAppend(a, b, reading);
    FilterCons(rule, [], SelectorFor(reading));
  }

  /** Alerts inherit the severities of their rules, so valid severities stay valid. */
  lemma AlertSeveritiesValid(rules: seq<ThresholdRule>, reading: SensorReading,
                             newId: nat -> Guid, clock: nat -> Instant)
    requires forall rule :: rule in rules ==> ValidSeverity(rule.severity)
    ensures forall a :: a in AlertsFor(rules, reading, newId, clock) ==> ValidSeverity(a.severity)
  {
    AlertsComeFromRaisingRules(rules, reading, newId, clock);
  }

  /**
   * The evaluator service. It reads the rule table and appends the alerts it
   * raises to the alert table, saving only when there is at least one.
   */
  class ThresholdEvaluator {
    const db: Store.AppDb

    constructor (db: Store.AppDb)
      ensures this.db == db
    {
      this.db := db;
    }

    method Evaluate(reading: SensorReading, newId: nat -> Guid, clock: nat -> Instant)
      returns (alerts: seq<Alert>)
      modifies db
      ensures alerts == AlertsFor(old(db.rules), reading, newId, clock)
      ensures db.alerts == old(db.alerts) + alerts
      ensures db.rules == old(db.rules) && db.readings == old(db.readings)
    {
      var rules := Applicable(db.rules, reading);
      alerts := [];
      var i := 0;
      while i < |rules|
        invariant 0 <= i <= |rules|
        invariant alerts == MakeAlerts(Fired(rules[..i], reading.value), reading, newId, clock)
        invariant unchanged(db)
      {
        assert rules[..i + 1] == rules[..i] + [rules[i]];
        FilterAppend(rules[..i], [rules[i]], TriggeredAt(reading.value));
        FilterCons(rules[i], [], TriggeredAt(reading.value));
        if IsTriggered(rules[i], reading.value) {
          MakeAlertsSnoc(Fired(rules[..i], reading.value), rules[i], reading, newId, clock);
          alerts := alerts + [MakeAlert(rules[i], reading, newId(|alerts|), clock(|alerts|))];
        }
        i := i + 1;
      }
      assert rules[..i] == rules;
      if |alerts| > 0 {
        db.AddAlerts(alerts);
      }
    }
  }
}
