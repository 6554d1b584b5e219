/**
 * The domain entities: metrics, comparison operators, sensor readings,
 * threshold rules and alerts. Entities are plain values here; the stores
 * that hold them live in module Store.
 */
module Domain {
  import opened Wrappers

  /** A device, reading, rule or alert identifier (a Guid in the system). */
  type Guid = int

  /** A UTC instant, as a count of ticks; tick 0 is the default `DateTime`. */
  type Instant = int

  /** The value a `DateTime` field holds when nobody assigned it. */
  const DefaultInstant: Instant := 0

  /** The exact value of `double.MaxValue`, (2^53 - 1) * 2^971; `double.MinValue` is its negation. */
  const DoubleMax: real := 179769313486231570814527423731704356798070567525844996598917476803157260780028538760589558632766878171540458953514382464234321326889464182768467546703537516986049910576551282076245490090389328944075868508455133942304583236903222948165808559332123348274797826204144723168738177180919299881250404026184124858368.0

  /** The measured quantities: a closed set of three. */
  datatype MetricType = CylinderStrokeTime | ShaftTorque | Speed

  /** The integer a metric is stored as. */
  function MetricCode(m: MetricType): (c: int)
    ensures 1 <= c <= 3
  {
    match m
    case CylinderStrokeTime => 1
    case ShaftTorque => 2
    case Speed => 3
  }

  /** Reads a stored integer back as a metric; only 1, 2 and 3 name one. */
  function MetricFromCode(c: int): (m: Option<MetricType>)
    ensures m.Some? <==> 1 <= c <= 3
  {
    if c == 1 then Some(CylinderStrokeTime)
    else if c == 2 then Some(ShaftTorque)
    else if c == 3 then Some(Speed)
    else None
  }

  lemma MetricCodeRoundTrip(m: MetricType)
    ensures MetricFromCode(MetricCode(m)) == Some(m)
  {
    match m
    case CylinderStrokeTime =>
    case ShaftTorque =>
    case Speed =>
  }

  lemma MetricCodeInjective(m1: MetricType, m2: MetricType)
    ensures MetricCode(m1) == MetricCode(m2) ==> m1 == m2
  {
    MetricCodeRoundTrip(m1);
    MetricCodeRoundTrip(m2);
  }

  /**
   * The comparison a rule applies. A stored operator is an integer, and any
   * integer outside 1..5 is a value of the enum that names no operator:
   * `Unknown(code)` keeps such a code.
   */
  datatype ThresholdOperator =
    | GreaterThan
    | GreaterThanOrEqual
    | LessThan
    | LessThanOrEqual
    | Between
    | Unknown(code: int)

  /** An `Unknown` operator only carries a code that names no operator. */
  predicate ValidOperator(op: ThresholdOperator) {
    op.Unknown? ==> !(1 <= op.code <= 5)
  }

  function OperatorCode(op: ThresholdOperator): (c: int)
    ensures ValidOperator(op) ==> (1 <= c <= 5 <==> !op.Unknown?)
  {
    match op
    case GreaterThan => 1
    case GreaterThanOrEqual => 2
    case LessThan => 3
    case LessThanOrEqual => 4
    case Between => 5
    case Unknown(code) => code
  }

  function OperatorFromCode(c: int): (op: ThresholdOperator)
    ensures ValidOperator(op)
    ensures op.Unknown? <==> !(1 <= c <= 5)
  {
    if c == 1 then GreaterThan
    else if c == 2 then GreaterThanOrEqual
    else if c == 3 then LessThan
    else if c == 4 then LessThanOrEqual
    else if c == 5 then Between
    else Unknown(c)
  }

  /** Every stored integer reads back as itself. */
  lemma OperatorCodeRoundTrip(c: int)
    ensures OperatorCode(OperatorFromCode(c)) == c
  {
  }

  /** Every valid operator survives being stored and read back. */
  lemma OperatorRoundTrip(op: ThresholdOperator)
    requires ValidOperator(op)
    ensures OperatorFromCode(OperatorCode(op)) == op
  {
    match op
    case GreaterThan =>
    case GreaterThanOrEqual =>
    case LessThan =>
    case LessThanOrEqual =>
    case Between =>
    case Unknown(code) =>
  }

  /** A reading of one metric of one device at one instant. */
  datatype SensorReading = SensorReading(
    id: Guid,
    deviceId: Guid,
    metric: MetricType,
    value: real,
    timestampUtc: Instant)

  /**
   * A per-device, per-metric threshold; either bound may be absent. `op`
   * ranges over every ThresholdOperator, so the lemmas about rules also
   * cover `Unknown(c)` with `c` in 1..5, which no stored integer produces
   * (see ValidOperator).
   */
  datatype ThresholdRule = ThresholdRule(
    id: Guid,
    deviceId: Guid,
    metric: MetricType,
    op: ThresholdOperator,
    minValue: Option<real>,
    maxValue: Option<real>,
    enabled: bool,
    severity: int)

  /** The severities rule authors are meant to use. */
  predicate ValidSeverity(severity: int) {
    1 <= severity <= 5
  }

  /**
   * A rule built with only the fields a caller sets: it starts enabled, at
   * the lowest severity.
   */
  function NewThresholdRule(
    id: Guid, deviceId: Guid, metric: MetricType, op: ThresholdOperator,
    minValue: Option<real>, maxValue: Option<real>): (r: ThresholdRule)
    ensures r.enabled && r.severity == 1 && ValidSeverity(r.severity)
    ensures r.id == id && r.deviceId == deviceId && r.metric == metric && r.op == op
    ensures r.minValue == minValue && r.maxValue == maxValue
  {
    ThresholdRule(id, deviceId, metric, op, minValue, maxValue, true, 1)
  }

  /** The comparison symbol an alert message shows. */
  datatype Symbol = Gt | Ge | Lt | Le

  /**
   * An alert message, kept as its structure rather than its text: the
   * metric and value always, then either one comparison with the bound it
   * names (possibly absent), the two bounds of a range, or nothing.
   */
  datatype Message =
    | Compare(metric: MetricType, value: real, symbol: Symbol, bound: Option<real>)
    | Range(metric: MetricType, value: real, low: Option<real>, high: Option<real>)
    | Triggered(metric: MetricType, value: real)

  /** An alert raised by one rule for one reading. */
  datatype Alert = Alert(
    id: Guid,
    deviceId: Guid,
    metric: MetricType,
    value: real,
    message: Message,
    severity: int,
    createdUtc: Instant,
    acknowledged: bool)
}
