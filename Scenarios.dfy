/**
 * Concrete evaluations with the rules the database is seeded with.
 */
module Scenarios {
  import opened Wrappers
  import opened Domain
  import opened Queries
  import opened Evaluation

  const Cnc01: Guid := 1
  const Press02: Guid := 2

  /** The seeded rule table: three rules for CNC-01, two for Press-02. */
  function SeedRules(): seq<ThresholdRule> {
    [ ThresholdRule(11, Cnc01, CylinderStrokeTime, GreaterThan, None, Some(1.2), true, 2),
      ThresholdRule(12, Cnc01, ShaftTorque, Between, Some(10.0), Some(80.0), true, 3),
      ThresholdRule(13, Cnc01, Speed, LessThan, Some(500.0), None, true, 1),
      ThresholdRule(14, Press02, CylinderStrokeTime, GreaterThanOrEqual, None, Some(1.5), true, 4),
      ThresholdRule(15, Press02, ShaftTorque, GreaterThan, None, Some(120.0), true, 5) ]
  }

  /** `> 1.2` is strict: 1.2 itself does not fire, 1.2001 does. */
  lemma GreaterThanIsStrict()
    ensures !IsTriggered(SeedRules()[0], 1.2)
    ensures IsTriggered(SeedRules()[0], 1.2001)
  {
  }

  /** A range is inclusive at both ends. */
  lemma BetweenIsInclusive()
    ensures IsTriggered(SeedRules()[1], 10.0) && IsTriggered(SeedRules()[1], 80.0)
    ensures IsTriggered(SeedRules()[1], 50.0)
    ensures !IsTriggered(SeedRules()[1], 9.999) && !IsTriggered(SeedRules()[1], 80.001)
    ensures !IsTriggered(SeedRules()[1], 5.0)
  {
  }

  /** A stroke time of 1.3 on CNC-01 raises exactly one alert, of severity 2, naming 1.3 and 1.2. */
  lemma SlowStrokeRaisesOneAlert(newId: nat -> Guid, clock: nat -> Instant)
    ensures AlertsFor(SeedRules(), SensorReading(100, Cnc01, CylinderStrokeTime, 1.3, 5), newId, clock)
         == [Alert(newId(0), Cnc01, CylinderStrokeTime, 1.3,
                   Compare(CylinderStrokeTime, 1.3, Gt, Some(1.2)), 2, clock(0), false)]
  {
    var reading := SensorReading(100, Cnc01, CylinderStrokeTime, 1.3, 5);
    var rules := SeedRules();
    FiredApplicable(rules, reading);
    assert rules == [rules[0]] + rules[1..];
    FilterCons(rules[0], rules[1..], RaisingFor(reading));
    FilterNone(rules[1..], RaisingFor(reading));
  }

  /** Of the seeded rules only the stroke-time rule of CNC-01 applies to such a reading, and 1.1 is within it. */
  lemma NoSeedRuleRaisesAtNormalStroke(reading: SensorReading)
    requires reading == SensorReading(101, Cnc01, CylinderStrokeTime, 1.1, 5)
    ensures forall rule :: rule in SeedRules() ==> !RaisingFor(reading)(rule)
  {
    var rules := SeedRules();
    forall rule | rule in rules ensures !RaisingFor(reading)(rule) {
      if rule == rules[0] {
        assert !IsTriggered(rule, 1.1);
      } else {
        assert !Selects(rule, reading);
      }
    }
  }

  /** A stroke time of 1.1 on CNC-01 raises nothing. */
  lemma NormalStrokeRaisesNothing(newId: nat -> Guid, clock: nat -> Instant)
    ensures AlertsFor(SeedRules(), SensorReading(101, Cnc01, CylinderStrokeTime, 1.1, 5), newId, clock) == []
  {
    var reading := SensorReading(101, Cnc01, CylinderStrokeTime, 1.1, 5);
    NoSeedRuleRaisesAtNormalStroke(reading);
    FiredApplicable(SeedRules(), reading);
    FilterNone(SeedRules(), RaisingFor(reading));
    assert |AlertsFor(SeedRules(), reading, newId, clock)| == 0;
  }
}
