# Alert lifecycle engine of the sensor-log alert context

This project models the alert engine of the sensor dashboard's alert context:
the fixed threshold table and `checkLiveData`, the function that evaluates one
sensor reading. For each parameter of the table (temperature, humidity, ph,
tds) it parses the reading's value and skips values that do not parse. It then
classifies the parameter against its inclusive safe range `[min, max]`:

- **Open.** The value is out of range and the parameter has no active alert.
- **Resolve.** The value is in range and the parameter has an active alert.
- **Unchanged.** Anything else.

All opens of one call go into one "alert" log entry. The remote log
(`parameter_logs`) assigns that entry a key, and each opened parameter gets an
active alert recording that key and the reading's own timestamp. All resolves
of one call go into one "resolved" log entry. Each resolved issue carries the
key of the alert that opened it (`triggeredId`) and the open duration rounded
to whole minutes. The resolved parameter is then removed from the active
alerts. New entries are prepended to the local history. A rerun counter makes
every call after the third a no-op.

Three files, one module each (plus a small `Options` module):

- `thresholds.dfy` (`Thresholds`): the table, the strict out-of-range test and
  the parameter lookup.
- `alert_rules.dfy` (`AlertRules`): what one call decides, as functions of the
  table, the active alerts, the reading and the evaluation time. This file
  also holds the lemmas about those decisions: soundness and completeness of
  opens and resolves, the per-parameter effect, idempotence, table order and
  concrete scenarios.
- `alert_context.dfy` (`AlertContext`): the class `AlertProvider` with the
  state the component keeps (`activeAlerts`, `alerts`, `rerunCount`). It also
  holds the remote log as a map from push keys to entries, plus the next key.
  - `CheckLiveData` performs the call step by step: a loop over the table
    that collects opens and resolves and deletes resolved keys, pushes, a
    second loop that records the opened alerts, and the history prepends.
    Its contract ties the new state to the `AlertRules` functions.
  - The class invariant `Valid` states that every active alert points at a
    stored alert entry that lists its parameter. It also states that every
    history entry is in the remote log and that keys are fresh.

Modelling choices:

- **Values and timestamps.** Parsed values are `Option<real>`, where `None`
  stands for NaN. Timestamps are integer milliseconds. A reading without a
  timestamp gives an alert whose duration later comes out unknown (`None`)
  where the source computes NaN; see `Duration` under "## Left out" for what
  the store does with such a value.
- **Rounding.** `Math.round(ms / 60000)` on an integer millisecond difference
  `ms` is `RoundMinutes(ms) = (ms + 30000) div 60000`, which rounds halves up.
- **Range text.** The threshold text `"min–max"` is kept as the pair
  `Range(min, max)`.
- **Evaluation time.** The wall-clock time `new Date()` is a parameter `now`
  of `CheckLiveData`.
- **Push.** `push` is `AlertProvider.Push`. It hands out a fresh key and
  stores the entry as it was at the time of the push. An alert entry's id is
  set only after its push, so the stored copy has no id and the local history
  copy does (`Stored`). The push of the resolved entry also uses up a key.
  Every push succeeds in the model.

Three behaviours of the code that a reader might expect otherwise:

- The open time of an active alert is always the reading's own `timestamp`
  field (line 82). A reading without a timestamp does not fall back to the
  evaluation time.
- Pushes are fire-and-forget (lines 74 and 98). The active alerts are updated
  without waiting for the write, and a failed write does not roll them back.
- The rerun guard (line 21) stops evaluation after three calls. Over the
  readings 20, 40, 40, 30 on a fresh provider, the fourth reading is
  therefore ignored, and the temperature alert stays active
  (`TemperatureExcursionLastCalls`). The same readings evaluated without the
  guard resolve the alert (`TemperatureBackInRangeResolves`).

## Model

| member | source | states |
|---|---|---|
| Thresholds.OutOfRange | src/app_components/home_components/content_components/SensorLogs/logs_components/AlertContext.jsx:33 | definition of the strict out-of-range test; its boundary behaviour is proved by BoundaryValueNeverOpens and its role by OpenedIff and ResolvedIff |
| AlertRules.Parse | src/app_components/home_components/content_components/SensorLogs/logs_components/AlertContext.jsx:30-31 | definition: the parsed value of a field, None for NaN or a missing field; MalformedValueSkipped proves what None does |
| AlertRules.Duration | src/app_components/home_components/content_components/SensorLogs/logs_components/AlertContext.jsx:45-48 | definition: minutes from the alert's timestamp to the evaluation time, unknown without a timestamp; RoundMinutes states the rounding and ResolvesSound, StepKeepsConsistent and CheckLiveData use it for every resolved issue |
| AlertRules.Classify | src/app_components/home_components/content_components/SensorLogs/logs_components/AlertContext.jsx:30-61 | definition: the per-parameter state machine (unevaluated, open, resolve, unchanged), the reference the table walks are proved against in OpenedIff and ResolvedIff |
| AlertRules.OpenOf | src/app_components/home_components/content_components/SensorLogs/logs_components/AlertContext.jsx:33-42 | definition: the open issue one table entry contributes; the walk's properties are stated on Opens |
| AlertRules.Opens | src/app_components/home_components/content_components/SensorLogs/logs_components/AlertContext.jsx:29-42 | definition: the open issues of a walk over the table; proved by OpensSound, OpensComplete, OpenedIff and OpensInTableOrder, and computed by ScanThresholds |
| AlertRules.ResolveOf | src/app_components/home_components/content_components/SensorLogs/logs_components/AlertContext.jsx:43-61 | definition: the resolved issue one table entry contributes; the walk's properties are stated on Resolves |
| AlertRules.Resolves | src/app_components/home_components/content_components/SensorLogs/logs_components/AlertContext.jsx:29-63 | definition: the resolved issues of a walk over the table; proved by ResolvesSound, ResolvesComplete, ResolvedIff and ResolvesInTableOrder, and computed by ScanThresholds |
| AlertRules.Alerted | src/app_components/home_components/content_components/SensorLogs/logs_components/AlertContext.jsx:80-85 | definition: one alert per opened parameter with the reading's timestamp and the entry's key; computed by RecordOpened |
| AlertRules.NextActive | src/app_components/home_components/content_components/SensorLogs/logs_components/AlertContext.jsx:25-102 | definition: the active alerts after a call; proved by ActiveAfterStep, ReevaluationIsQuiet and MalformedValueSkipped |
| AlertRules.NewEntries | src/app_components/home_components/content_components/SensorLogs/logs_components/AlertContext.jsx:87-99 | definition: the entries a call prepends to the history; proved by NewEntriesShape |
| AlertContext.Written | src/app_components/home_components/content_components/SensorLogs/logs_components/AlertContext.jsx:74-98 | definition: the remote log after a call's pushes; proved by WrittenExtends and StepKeepsConsistent |
| Thresholds.Bounds | src/app_components/home_components/content_components/SensorLogs/logs_components/AlertContext.jsx:8-13 | a parameter has bounds exactly when it is a key of the table, and the bounds are that key's range |
| Thresholds.IndexOfUnique | src/app_components/home_components/content_components/SensorLogs/logs_components/AlertContext.jsx:8-13 | in a table with distinct keys, looking up an entry's key finds that entry and its range |
| Thresholds.TableIsWellFormed | src/app_components/home_components/content_components/SensorLogs/logs_components/AlertContext.jsx:8-13 | the configured table has distinct keys and every range has min <= max |
| AlertRules.RoundMinutes | src/app_components/home_components/content_components/SensorLogs/logs_components/AlertContext.jsx:48 | the minute count is the nearest whole number of minutes to the millisecond duration (within half a minute, halves up) and is never negative for a non-negative duration |
| AlertRules.OpensSound | src/app_components/home_components/content_components/SensorLogs/logs_components/AlertContext.jsx:29-42 | every open issue is for a table parameter with no active alert, whose value parsed and lies strictly outside that parameter's range, and records the value and range |
| AlertRules.OpensComplete | src/app_components/home_components/content_components/SensorLogs/logs_components/AlertContext.jsx:29-42 | every parameter that is out of range and not alerted does get an open issue |
| AlertRules.OpenedIff | src/app_components/home_components/content_components/SensorLogs/logs_components/AlertContext.jsx:29-42 | a parameter opens if and only if it is a table parameter whose parsed value is out of range and has no active alert |
| AlertRules.ResolvesSound | src/app_components/home_components/content_components/SensorLogs/logs_components/AlertContext.jsx:43-61 | every resolved issue is for an alerted table parameter whose value parsed and is in range; it carries the alert's id as triggeredId, the evaluation time, and the duration from the alert's timestamp rounded to minutes |
| AlertRules.ResolvesComplete | src/app_components/home_components/content_components/SensorLogs/logs_components/AlertContext.jsx:43-61 | every parameter that is in range and alerted does get a resolved issue |
| AlertRules.ResolvedIff | src/app_components/home_components/content_components/SensorLogs/logs_components/AlertContext.jsx:43-61 | a parameter resolves if and only if it is a table parameter whose parsed value is in range and has an active alert |
| AlertRules.ActiveAfterStep | src/app_components/home_components/content_components/SensorLogs/logs_components/AlertContext.jsx:25-85 | after a call, an opened parameter is active with the reading's timestamp and the new key, a resolved one is absent, and every other parameter (outside the table, unparseable, or not transitioning) keeps its alert or its absence; for a table parameter with a parsed value, being active afterwards is equivalent to being out of range |
| AlertRules.ReevaluationIsQuiet | src/app_components/home_components/content_components/SensorLogs/logs_components/AlertContext.jsx:35-61 | evaluating the same reading again opens nothing, resolves nothing and leaves the active alerts as they are, so no parameter ever has two alerts |
| AlertRules.BoundaryValueNeverOpens | src/app_components/home_components/content_components/SensorLogs/logs_components/AlertContext.jsx:33 | a value equal to min or max never opens an alert, and it resolves one exactly when the parameter is alerted |
| AlertRules.MalformedValueSkipped | src/app_components/home_components/content_components/SensorLogs/logs_components/AlertContext.jsx:30-31 | a value that does not parse neither opens nor resolves, and the parameter's active alert (or its absence) is unchanged |
| AlertRules.OpensInTableOrder | src/app_components/home_components/content_components/SensorLogs/logs_components/AlertContext.jsx:29-42 | the open issues appear in strictly increasing table order, so each parameter appears at most once |
| AlertRules.ResolvesInTableOrder | src/app_components/home_components/content_components/SensorLogs/logs_components/AlertContext.jsx:43-61 | the resolved issues appear in strictly increasing table order, so each parameter appears at most once |
| AlertRules.NewEntriesShape | src/app_components/home_components/content_components/SensorLogs/logs_components/AlertContext.jsx:65-100 | a call adds one alert entry exactly when something opened and one resolved entry exactly when something resolved, the resolved entry first, neither with an empty issue list; the alert entry carries the pushed key |
| AlertRules.TemperatureInRangeIsQuiet | src/app_components/home_components/content_components/SensorLogs/logs_components/AlertContext.jsx:29-63 | with no active alerts, a temperature of 20 opens and resolves nothing |
| AlertRules.TemperatureHighOpens | src/app_components/home_components/content_components/SensorLogs/logs_components/AlertContext.jsx:29-88 | with no active alerts, a temperature of 40 opens exactly one issue (40 against 18–35) and makes temperature active with the reading's timestamp and the entry's key |
| AlertRules.TemperatureHighAgainIsQuiet | src/app_components/home_components/content_components/SensorLogs/logs_components/AlertContext.jsx:35-42 | with temperature already active, the same 40 reading opens and resolves nothing |
| AlertRules.TemperatureBackInRangeResolves | src/app_components/home_components/content_components/SensorLogs/logs_components/AlertContext.jsx:43-61 | with temperature active, a temperature of 30 resolves it with the opening key and the duration from the opening reading, leaving no active alert |
| AlertRules.TwoExcursionsOneEntry | src/app_components/home_components/content_components/SensorLogs/logs_components/AlertContext.jsx:65-88 | temperature and humidity out of range in one reading give one alert entry holding both issues in table order, and both active alerts share its key |
| AlertContext.WrittenExtends | src/app_components/home_components/content_components/SensorLogs/logs_components/AlertContext.jsx:73-98 | pushing a call's entries at fresh keys keeps every earlier entry under its key, uses only the next two keys, and stores the alert entry under the key its alerts record |
| AlertContext.StepKeepsActiveLinked | src/app_components/home_components/content_components/SensorLogs/logs_components/AlertContext.jsx:73-85 | if every active alert points at a stored alert entry listing its parameter and from a reading with its timestamp, that still holds after a call |
| AlertContext.StepKeepsHistoryStored | src/app_components/home_components/content_components/SensorLogs/logs_components/AlertContext.jsx:73-99 | if every history entry is in the remote log (an alert entry under its own id), that still holds after a call |
| AlertContext.StepKeepsConsistent | src/app_components/home_components/content_components/SensorLogs/logs_components/AlertContext.jsx:44-99 | a call preserves fresh keys, alert linkage and stored history, and every resolved issue's triggeredId names a stored alert entry that listed the parameter, with the duration measured from that entry's reading timestamp |
| AlertContext.ScanThresholds | src/app_components/home_components/content_components/SensorLogs/logs_components/AlertContext.jsx:25-63 | the loop over the table collects exactly the open issues and the resolved issues of the call, in table order, and deletes exactly the resolved parameters from the copy of the active alerts |
| AlertContext.RecordOpened | src/app_components/home_components/content_components/SensorLogs/logs_components/AlertContext.jsx:80-85 | the loop over the open issues sets, for every opened parameter and no other, an active alert with the reading's timestamp and the entry's key |
| AlertContext.AlertProvider.constructor | src/app_components/home_components/content_components/SensorLogs/logs_components/AlertContext.jsx:16-18 | a new provider has no active alerts, an empty history, a zero rerun count and an empty remote log, and satisfies the invariant |
| AlertContext.AlertProvider.Push | src/app_components/home_components/content_components/SensorLogs/logs_components/AlertContext.jsx:74-75 | the returned key was unused, the entry is stored under it and nothing else in the log changes |
| AlertContext.AlertProvider.CheckLiveData | src/app_components/home_components/content_components/SensorLogs/logs_components/AlertContext.jsx:20-103 | after three calls a call leaves all state unchanged; otherwise it counts the call, and the new active alerts, history, remote log and next key are exactly what the opens and resolves of the reading determine, with the invariant kept and every resolution linked to the stored alert entry that opened it and timed from that entry's reading |
| AlertContext.TemperatureExcursionFirstCalls | src/app_components/home_components/content_components/SensorLogs/logs_components/AlertContext.jsx:20-88 | on a new provider, readings 20 then 40 leave one active temperature alert under key 0 and a history of one alert entry |
| AlertContext.TemperatureExcursionLastCalls | src/app_components/home_components/content_components/SensorLogs/logs_components/AlertContext.jsx:21-22 | after those calls, the same 40 reading adds nothing, and the fourth call (30) is ignored by the rerun guard, so the alert stays active |

## Left out

- The remote database: `ref`, the `onValue` subscription to the predictions list and its unsubscription, and the choice of the last prediction as the reading (lines 105-117) are I/O. A reading is a parameter of `CheckLiveData`.
- The failure of a push: the code neither awaits nor checks the push, and the model lets every push succeed. Push keys are consecutive naturals rather than the database's generated strings; only their freshness matters.
- React plumbing: the context, `useState`, `useRef`, the provider element and `useAlert` (lines 2-6, 119-126). State updates are modelled as immediate field assignments. The capture of a stale `activeAlerts` by the subscription callback, and the batching of `setState`, are framework behaviour not modelled.
- `SensorLogs.jsx` is not part of this model. It only renders the alerts and sorts and slices them for display.
- JavaScript number semantics: `parseFloat` is abstracted as an `Option<real>` per field, with no floating point. `Date` parsing and `toISOString` formatting are modelled as integer milliseconds.
- The `status` strings and the `resolved: true` flag are implied by the two kinds of `LogEntry`.
- AlertRules.RoundMinutes: does not model `Math.round` on a NaN duration. An unknown start gives `None` instead, through `Duration`.
- Duration, CheckLiveData: a resolve whose alert was opened by a reading without a timestamp has a NaN duration (line 48). The database client rejects a non-finite number inside `push`, which then throws at line 98 and aborts the call before the history prepend (line 99) and the `setActiveAlerts` (line 102). The model instead lets that write succeed with an unknown (`None`) duration and completes the call.
