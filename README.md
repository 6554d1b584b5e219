# Threshold alerting pipeline of a predictive-maintenance service, in Dafny

This project models the alerting core of a predictive-maintenance service.
Industrial devices post numeric sensor readings. Each reading is stored and
checked against the device's threshold rules for that metric. An alert is
raised for every rule that fires, and the alert batch is pushed to connected
clients. Around this pipeline sit the reading query, the alert listing and
alert acknowledgement.

Modules:

- `Wrappers`: `Option`, which stands for C#'s nullable values.
- `Domain`: the entities.
  - `MetricType` is a closed enum of three values.
  - `ThresholdOperator` has five named operators plus `Unknown(code)` for any other stored integer.
  - `SensorReading`, `ThresholdRule` and `Alert` are datatypes.
  - Also here: the rule defaults and the exact value of `double.MaxValue`.
- `Queries`: the query operators the controllers chain together.
  - `Filter` is `Where`.
  - `SortDesc` is an `OrderByDescending`.
  - `Newest` is sort followed by `Take`.
- `Store`: the database as a class `AppDb` with three tables (`seq` fields).
  Its methods are the add-and-save steps.
- `Broadcast`: the push hub, `AlertsHub`. It keeps a ghost log of every batch sent on the `alerts` channel.
- `Evaluation`: the threshold evaluator.
  - `IsTriggered` is the trigger predicate exactly as written, sentinels included.
  - `TriggeredSpec` is its meaning without sentinels.
  - `BuildMessage` builds the alert message.
  - `AlertsFor` specifies one evaluation pass.
  - The class `ThresholdEvaluator` holds the imperative `Evaluate` loop, which appends to the alert table.
- `Api`: `ReadingsController.Ingest`, `QueryReadings`, `GetAlerts` and `AlertsController.Ack`.
  The pure specification of acknowledgement is `Acknowledge`.
- `Scenarios`: evaluations against the rules the database is seeded with.

Fresh ids (`Guid.NewGuid`) and the clock (`DateTime.UtcNow`) are parameters:

- `readingId` and `now` are for the reading.
- `newId(k)` and `clock(k)` are for the k-th alert of one evaluation.

`double` values are `real`. `IsTriggered` replaces an absent bound by
`DoubleMax` or `-DoubleMax`, as the code does. `TriggerMatchesSpec` shows that
for every value strictly between `-DoubleMax` and `DoubleMax`, this equals
"an absent bound leaves that side open". The two differ at exactly two finite
values: `GreaterOrEqualFiresAtDoubleMax` (a `>=` rule without an upper bound at
`double.MaxValue`) and `LessOrEqualFiresAtDoubleMin` (a `<=` rule without a
lower bound at `double.MinValue`).

Two points of the code that the model follows as written:

- The evaluator itself appends its alerts to the alert table and saves them,
  and only when there is at least one; the ingestion endpoint does not persist
  alerts. Hence `ThresholdEvaluator.Evaluate` modifies the database.
- An absent bound is meant to leave that side of a rule open. In the code, a
  `>=` rule without an upper bound still fires at `double.MaxValue`, and a
  `<=` rule without a lower bound fires at `double.MinValue`.

## Model

| member | source | states |
|---|---|---|
| `Domain.MetricCode` | PredictiveMaintenance.Domain/Entities.cs:3-8 | every metric is stored as one of the integers 1, 2, 3 |
| `Domain.MetricFromCode` | PredictiveMaintenance.Domain/Entities.cs:3-8 | a stored integer names a metric exactly when it is 1, 2 or 3 |
| `Domain.MetricCodeRoundTrip` | PredictiveMaintenance.Domain/Entities.cs:3-8 | storing a metric and reading it back gives the same metric |
| `Domain.MetricCodeInjective` | PredictiveMaintenance.Domain/Entities.cs:3-8 | distinct metrics have distinct codes |
| `Domain.OperatorCode` | PredictiveMaintenance.Domain/Entities.cs:29-36 | a valid operator's code lies in 1..5 exactly when the operator is one of the five named ones |
| `Domain.OperatorFromCode` | PredictiveMaintenance.Domain/Entities.cs:29-36 | every integer reads as a valid operator; it is `Unknown` exactly when the integer is outside 1..5 |
| `Domain.OperatorCodeRoundTrip` | PredictiveMaintenance.Domain/Entities.cs:29-36 | every stored integer, named or not, reads back as itself |
| `Domain.OperatorRoundTrip` | PredictiveMaintenance.Domain/Entities.cs:29-36 | every valid operator survives being stored and read back |
| `Domain.NewThresholdRule` | PredictiveMaintenance.Domain/Entities.cs:38-49 | a rule built with only the caller's fields is enabled, has severity 1 (inside the intended 1..5) and keeps both optional bounds as given |
| `Evaluation.IsTriggered` | PredictiveMaintenance.Infrastructure/ThresholdEvaluator.cs:48-59 | the trigger test as written, sentinels included; an operator without a name never fires (its full meaning is stated by `TriggerMatchesSpec` and the three lemmas after it) |
| `Evaluation.TriggerMatchesSpec` | PredictiveMaintenance.Infrastructure/ThresholdEvaluator.cs:48-59 | for values strictly between `double.MinValue` and `double.MaxValue`: `>` and `>=` fire iff an upper bound exists and is exceeded or reached; `<` and `<=` iff a lower bound exists and is undercut or reached; `Between` iff the value is inside both bounds, inclusive, with an absent side open; an unknown operator never fires |
| `Evaluation.GreaterOrEqualFiresAtDoubleMax` | PredictiveMaintenance.Infrastructure/ThresholdEvaluator.cs:53 | a `>=` rule without an upper bound fires for `double.MaxValue` itself, although "no bound" would say it never fires |
| `Evaluation.LessOrEqualFiresAtDoubleMin` | PredictiveMaintenance.Infrastructure/ThresholdEvaluator.cs:55 | a `<=` rule without a lower bound fires for `double.MinValue` itself, although "no bound" would say it never fires |
| `Evaluation.LowerComparisonNeedsMin` | PredictiveMaintenance.Infrastructure/ThresholdEvaluator.cs:54-55 | `<` and `<=` read only the lower bound: without it they never fire for a value above `double.MinValue`, so a rule that sets only an upper bound is inert |
| `Evaluation.UpperComparisonNeedsMax` | PredictiveMaintenance.Infrastructure/ThresholdEvaluator.cs:52-53 | `>` and `>=` never fire below `double.MaxValue` without an upper bound |
| `Evaluation.BuildMessage` | PredictiveMaintenance.Infrastructure/ThresholdEvaluator.cs:61-72 | the message shows the rule's metric and the reading's value; it falls back to "triggered" exactly for an unknown operator |
| `Evaluation.MessageExplainsTrigger` | PredictiveMaintenance.Infrastructure/ThresholdEvaluator.cs:48-72 | for values strictly between `double.MinValue` and `double.MaxValue`, the comparison a message spells out is true exactly when its rule fires, so a message names the bound that was crossed |
| `Evaluation.Applicable` | PredictiveMaintenance.Infrastructure/ThresholdEvaluator.cs:18-20 | the rule lookup returns exactly the rules of the reading's device and metric that are enabled |
| `Evaluation.AlertsFor` | PredictiveMaintenance.Infrastructure/ThresholdEvaluator.cs:18-39 | one evaluation pass (rule lookup, trigger test, alert construction by `MakeAlert`) raises at most one alert per rule; what each alert holds is stated by `AlertsInRuleOrder`, `AlertsComeFromRaisingRules` and `EveryRaisingRuleAlerts` |
| `Evaluation.FiredApplicable` | PredictiveMaintenance.Infrastructure/ThresholdEvaluator.cs:18-25 | looking rules up and then testing each one is the same as keeping, in table order, the rules that both apply and fire |
| `Evaluation.AlertsInRuleOrder` | PredictiveMaintenance.Infrastructure/ThresholdEvaluator.cs:22-39 | there are exactly as many alerts as rules that apply and fire, and the k-th alert carries the k-th such rule's severity and message |
| `Evaluation.AlertsComeFromRaisingRules` | PredictiveMaintenance.Infrastructure/ThresholdEvaluator.cs:27-37 | every alert copies device, metric and value from the reading, starts unacknowledged, and carries the severity and message of a table rule that is enabled, matches and fires |
| `Evaluation.EveryRaisingRuleAlerts` | PredictiveMaintenance.Infrastructure/ThresholdEvaluator.cs:23-38 | every enabled, matching rule that fires has an alert with its severity and message |
| `Evaluation.NoApplicableRuleNoAlerts` | PredictiveMaintenance.Infrastructure/ThresholdEvaluator.cs:18-25 | a reading with no enabled rule for its device and metric raises no alert |
| `Evaluation.FiredAppend` | PredictiveMaintenance.Infrastructure/ThresholdEvaluator.cs:23-39 | rules fire in table order: evaluating a concatenated table gives the first part's fired rules followed by the second part's |
| `Evaluation.DisabledRuleIgnored` | PredictiveMaintenance.Infrastructure/ThresholdEvaluator.cs:19 | inserting a disabled rule anywhere in the table changes no evaluation |
| `Evaluation.AlertSeveritiesValid` | PredictiveMaintenance.Infrastructure/ThresholdEvaluator.cs:33 | when every rule's severity is in 1..5, so is every alert's |
| `Evaluation.ThresholdEvaluator.Evaluate` | PredictiveMaintenance.Infrastructure/ThresholdEvaluator.cs:16-46 | the loop returns exactly `AlertsFor` on the rule table; the alert table grows by exactly those alerts at its end, so it is unchanged when none fire; readings and rules are untouched |
| `Evaluation.ThresholdEvaluator.constructor` | PredictiveMaintenance.Infrastructure/ThresholdEvaluator.cs:11-14 | the evaluator works on the database it is given |
| `Store.AppDb.constructor` | PredictiveMaintenance.Infrastructure/AppDbContext.cs:12-14 | a database starts with the given rule table and no readings or alerts |
| `Broadcast.AlertsHub.constructor` | PredictiveMaintenance.Api/Controllers/ReadingsController.cs:16 | a fresh hub has published nothing |
| `Api.AlertsController.constructor` | PredictiveMaintenance.Api/Controllers/AlertsController.cs:14-17 | the controller works on the database it is given |
| `Store.AppDb.AddReading` | PredictiveMaintenance.Api/Controllers/ReadingsController.cs:32-33 | the reading is appended to the reading table; nothing else changes |
| `Store.AppDb.AddAlerts` | PredictiveMaintenance.Infrastructure/ThresholdEvaluator.cs:42-43 | the batch is appended to the alert table; nothing else changes |
| `Broadcast.AlertsHub.SendAll` | PredictiveMaintenance.Api/Controllers/ReadingsController.cs:38 | the batch is added to the log of published batches |
| `Api.Stamp` | PredictiveMaintenance.Api/Controllers/ReadingsController.cs:28-30 | the stored reading always has the server's id; its timestamp is "now" exactly when the client sent the default, and otherwise the client's; device, metric and value are kept |
| `Api.StampKeepsExplicitTime` | PredictiveMaintenance.Api/Controllers/ReadingsController.cs:29-30 | stamping an already stamped reading changes only its id, never its timestamp |
| `Api.ReadingsController.Ingest` | PredictiveMaintenance.Api/Controllers/ReadingsController.cs:26-42 | the stamped reading is appended to the readings; the alert table grows by the evaluator's result for that stored reading; one batch, exactly that result, is published iff it is non-empty; the response carries the new id and the alert count |
| `Api.ReadingsController.constructor` | PredictiveMaintenance.Api/Controllers/ReadingsController.cs:18-23 | the controller's evaluator works on the controller's database |
| `Api.QueryReadings` | PredictiveMaintenance.Api/Controllers/ReadingsController.cs:45-54 | every result is a stored reading of the device, of the metric if given, with a timestamp within the given inclusive bounds; results are newest first; exactly min(1000, number of matching readings) are returned, each at most as often as stored, and below the cap the result is a permutation of all matching readings |
| `Api.QueryReadingsNewest` | PredictiveMaintenance.Api/Controllers/ReadingsController.cs:47-52 | a stored matching reading missing from the result is no newer than every returned reading; when at most 1000 readings match, every matching reading is returned |
| `Api.GetAlerts` | PredictiveMaintenance.Api/Controllers/AlertsController.cs:20-27 | every result is a stored alert of the given device and acknowledgement state (when given); results are newest first; exactly min(500, number of matching alerts) are listed, each at most as often as stored, and below the cap the listing is a permutation of all matching alerts |
| `Api.GetAlertsNewest` | PredictiveMaintenance.Api/Controllers/AlertsController.cs:22-25 | a stored matching alert missing from the listing is no newer than every listed alert; when at most 500 alerts match, every matching alert is listed |
| `Api.FindAlert` | PredictiveMaintenance.Api/Controllers/AlertsController.cs:32 | the lookup finds the first alert with the id, or reports that no alert has it |
| `Api.Acknowledge` | PredictiveMaintenance.Api/Controllers/AlertsController.cs:32-34 | acknowledgement keeps the alert table's length; its effect is stated by the four `Acknowledge…` lemmas below |
| `Api.AcknowledgeUnknown` | PredictiveMaintenance.Api/Controllers/AlertsController.cs:32-33 | acknowledging an id no alert has leaves the table unchanged |
| `Api.AcknowledgeKnown` | PredictiveMaintenance.Api/Controllers/AlertsController.cs:32-35 | acknowledging a known id sets the flag of one alert with that id; every other field and every other alert is unchanged |
| `Api.AcknowledgeIdempotent` | PredictiveMaintenance.Api/Controllers/AlertsController.cs:34 | acknowledging twice gives the same table as acknowledging once |
| `Api.AcknowledgeMonotonic` | PredictiveMaintenance.Api/Controllers/AlertsController.cs:34 | acknowledgement never clears a flag or moves an alert |
| `Api.AppendMonotonic` | PredictiveMaintenance.Infrastructure/ThresholdEvaluator.cs:40-44 | appending new alerts never clears a flag either, so acknowledgement is monotonic across all writes |
| `Api.AlertsController.Ack` | PredictiveMaintenance.Api/Controllers/AlertsController.cs:30-37 | the response is NotFound iff no stored alert has the id; the alert table becomes `Acknowledge` of the old one; readings and rules are untouched |
| `Queries.Filter` | PredictiveMaintenance.Api/Controllers/ReadingsController.cs:47-50 | `Where` never adds elements; which ones it keeps is stated by `FilterMembers` and `FilterAppend` |
| `Queries.FilterMembers` | PredictiveMaintenance.Api/Controllers/ReadingsController.cs:47-50 | a filter keeps exactly the elements that satisfy its condition, with their multiplicities |
| `Queries.FilterAppend` | PredictiveMaintenance.Api/Controllers/ReadingsController.cs:47-50 | filtering keeps the input order |
| `Queries.SortDesc` | PredictiveMaintenance.Api/Controllers/ReadingsController.cs:52 | `OrderByDescending` is a permutation of its input (same length, same multiset); `SortDescSorted` states the order |
| `Queries.SortDescSorted` | PredictiveMaintenance.Api/Controllers/ReadingsController.cs:52 | the descending sort puts keys in non-increasing order |
| `Queries.Newest` | PredictiveMaintenance.Api/Controllers/ReadingsController.cs:52 | sort-then-take returns min(cap, n) elements, newest first, all from the input; below the cap it is a permutation of the input |
| `Queries.NewestKeepsNewest` | PredictiveMaintenance.Api/Controllers/ReadingsController.cs:52 | an element dropped by the cap is no newer than any element kept |
| `Scenarios.GreaterThanIsStrict` | PredictiveMaintenance.Infrastructure/DbInitializer.cs:21 | the seeded `> 1.2` rule does not fire at 1.2 and fires at 1.2001 |
| `Scenarios.BetweenIsInclusive` | PredictiveMaintenance.Infrastructure/DbInitializer.cs:22 | the seeded 10..80 range fires at 10, 50 and 80, and not at 5, 9.999 or 80.001 |
| `Scenarios.SlowStrokeRaisesOneAlert` | PredictiveMaintenance.Infrastructure/DbInitializer.cs:19-26 | against the seeded rules, a CNC-01 stroke time of 1.3 raises exactly one alert: severity 2, and a message comparing 1.3 `>` against the bound 1.2 |
| `Scenarios.NormalStrokeRaisesNothing` | PredictiveMaintenance.Infrastructure/DbInitializer.cs:19-26 | against the seeded rules, a CNC-01 stroke time of 1.1 raises nothing |

## Left out

- IEEE-754 behaviour is not modelled: NaN, infinities and rounding.
  - Values are exact reals.
  - The model does not reproduce what the code does for a value of ±∞ against an absent bound.
  - Literals such as 1.2 are exact, not their nearest double.
- The exact text of messages is not modelled. It depends on .NET number formatting and on how a null bound prints.
  Messages are kept as their structure: operator symbol, value, and the bound or bounds they print.
- Guid generation and `DateTime.UtcNow` are parameters. Alert ids are not proved distinct from each other or from existing ids.
- async/await, cancellation tokens, concurrent requests and transactions are not modelled. Each request is one sequential step.
  - Reading and alert persistence are two separate saves. A failing save, and the partial state it would leave, are not modelled.
  - "N concurrent readings raise N independent alert sets" is therefore not stated.
- SignalR delivery to clients is not modelled. Only the hand-off to the hub is recorded, in a ghost log.
- `Device` and the navigation properties of the entities are not modelled: they carry no behaviour in the pipeline.
  Device and rule management (the devices and thresholds controllers) are not part of this model.
- Database configuration, migrations, dependency injection, hosting and process-manager configuration are not part of this model.
- Severity is not checked against 1..5 anywhere in the code. The model states the range only as `ValidSeverity` and proves that evaluation preserves it.
- `Api.QueryReadings`: the database does not promise any order among readings with equal timestamps.
  The model's sort happens to keep them in store order; nothing is stated about that order.
- `Api.GetAlerts`: the same holds for alerts with equal creation times.
- `Evaluation.Applicable`: the rule lookup has no ordering clause, so the database promises no order of the rules it returns.
  The model takes them in rule-table order, and "table order" in `FiredApplicable`, `AlertsInRuleOrder` and `FiredAppend` is that choice, not a promise of the service.
- `Api.AlertsController.Ack`: the alert id is the alert table's primary key, so the database keeps ids unique.
  The model does not assume that key constraint; with duplicate ids it acknowledges only the first, as the first-match lookup does.
- `Domain.MetricType` is a closed datatype, but the metric columns are plain integers and no endpoint checks them, so a reading or rule with an undefined metric code can be stored.
  Such values are not representable in the model. No behaviour depends on it, because metrics are only compared for equality; this is unlike `ThresholdOperator`, whose unknown codes change the outcome and are modelled as `Unknown`.
