# StressVision stress-signal engine in Dafny

This project models the decision core of StressVision, a classroom and office stress monitor. A camera loop detects faces, recognises enrolled employees, classifies each face's emotion and records detection events. The core turns those events into stress indices, alerts and periodic reports. The model covers that core:

- **Types**: the emotion, alert-type, severity and status enumerations; the negative/neutral/positive label sets; the display maps; and the `FaceRegion`, `Alert`, `StressEvent` and `DetectionEvent` records.
- **StressCalculator**: bounded FIFO emotion histories, one global and one per employee. On top of them it computes:
  - the windowed stress index, the rounded percentage of negative labels among the last `window` entries;
  - the time-filtered emotion distribution;
  - the aggregate metrics;
  - the append-only log of threshold crossings.
- **AlertManager**: the high-stress count threshold over a time window, the severity bands, the fatigue check, and the per-type, per-scope cooldown map. The map is stamped only after a successful write. It also covers acknowledging, resolving and listing alerts.
- **ReportGenerator**: the aggregation over the trailing report interval, which gives counts, distinct employees, averages, the emotion distribution, alerts in the period and a per-employee breakdown. Saved reports are an append-only sequence.
- **FaceRecognizer**: the arg-max match with a threshold and first-wins ties; cosine similarity with its zero-norm rule and otherwise abstract; the enrollment gates (sample count, produced embeddings, pairwise quality) and the registry update; and the entry filter used when embedding files are loaded.
- **EmotionAnalyzer**: the mapping of the classifier's dominant label and probabilities to a program label, the neutral fallback on a classifier error, and the padded face crops of a multi-face frame, both as written and with the corrected crop bounds.
- **EventStore** and **Ordering**: the detection and alert tables as in-memory sequences. This covers inserts with fresh ids, the `WHERE`/`ORDER BY timestamp DESC`/`LIMIT` queries, and the alert status update rule.

Wall-clock reads are an explicit `now` parameter, an integer number of seconds; ISO time strings are modelled as these integers. Stress levels, probabilities and similarities are `real`. The outcome of every foreign call is a parameter:
- the face-emotion classifier's answer;
- the embedding model's output;
- the cosine ratio `dot / (norm * norm)`;
- the success of each database or file write.

A consequence of the label mapping is worth stating up front. When the classifier's probabilities form a distribution (non-negative, summing to at most 1), the stress score is at most 0.4 and the fatigue score at most 0.6. So the mapping never yields `stress_high`, `stress_low` or `fatigue` for such input; it always returns the direct translation of the dominant label. This is `EmotionAnalyzer.DistributionYieldsBase` and `EmotionAnalyzer.PercentagesGiveBaseLabel`. The stress index and the fatigue alert still work, because the index counts `angry`, `fear`, `sad` and `disgust` as negative, and the fatigue alert also fires on 20 `neutral` labels.

Modelling choices that follow the code rather than its documentation:

- **One clock.** A single `now` is used for every clock read within one call.
- **Query ties.** `ORDER BY timestamp DESC` is modelled as a stable sort: rows with equal timestamps keep their insertion order.
- **Negative `LIMIT`.** A negative `LIMIT` means no limit, as in SQLite.
- **Empty window with a zero threshold.** When `alert_threshold` is at most 0 and the window holds no high-stress detection, `check_and_generate_alerts` divides by zero. The model returns `None` for this case.
- **Resolution columns on insert.** `add_alert` does not insert `resolved_at` or `resolved_by`, so stored alerts start with both empty.
- **Status updates.** `update_alert_status` reports success even when no row has the id. It refuses no transition: a resolved alert can be reopened.
- **Report time.** `last_report_time` is never assigned, so `should_generate_report` is always true.
- **The `"global"` id.** The literal employee id `"global"` shares the cooldown keys of the global scope.
- **Employee ids in reports.** In a report, the per-employee detail map has one entry per distinct truthy employee id.

## Model

| member | source | states |
|---|---|---|
| Types.NegativeSetExact | StressVision_PyQt6/StressVision_PyQt6/core/utils/types.py:50-57 | a label is negative exactly when it is angry, fear, sad, disgust, stress_high or fatigue |
| Types.LabelSetsDisjoint | StressVision_PyQt6/StressVision_PyQt6/core/utils/types.py:50-66 | the negative, neutral and positive sets are pairwise disjoint and stress_low is the one label in none of them |
| Types.EnumerationsClosed | StressVision_PyQt6/StressVision_PyQt6/core/utils/types.py:13-43 | every emotion, alert type, severity and status is listed, and the last three have exactly three distinct values each |
| Types.EmotionValuesDistinct | StressVision_PyQt6/StressVision_PyQt6/core/utils/types.py:13-25 | two emotions carry the same string value only when they are the same emotion |
| Types.SpanishLabel | StressVision_PyQt6/StressVision_PyQt6/core/utils/types.py:69-80 | the Spanish label map is total: every emotion has a non-empty label |
| Types.SpanishLabelsDistinct | StressVision_PyQt6/StressVision_PyQt6/core/utils/types.py:69-80 | no two emotions share a Spanish label |
| Types.EmotionColor | StressVision_PyQt6/StressVision_PyQt6/core/utils/types.py:83-94 | the colour map is total and every channel lies in 0..255 |
| Types.NewAlert | StressVision_PyQt6/StressVision_PyQt6/core/utils/types.py:152-164 | a new alert is pending with no resolution time and no resolver, and carries the given fields |
| Types.Center | StressVision_PyQt6/StressVision_PyQt6/core/utils/types.py:114-117 | each coordinate of the centre is the box origin plus half the extent rounded down: 2(cx - x) <= w < 2(cx - x) + 2, and likewise for y |
| Types.RecordedLevels | StressVision_PyQt6/StressVision_PyQt6/core/services/report_generator.py:67-70 | exactly the levels that are not None are kept, and the list is empty iff no detection has a level; the multiplicity and order of what is kept are stated by the two lemmas below |
| Types.RecordedLevelsMultiplicity | StressVision_PyQt6/StressVision_PyQt6/core/services/report_generator.py:67-70 | each level value is kept exactly as often as the detections carry it |
| Types.RecordedLevelsAppend | StressVision_PyQt6/StressVision_PyQt6/core/services/report_generator.py:67-70 | the levels of two runs of detections are those of the first followed by those of the second, so detection order is kept |
| Types.TruthyLevels | StressVision_PyQt6/StressVision_PyQt6/core/services/report_generator.py:122-125 | exactly the present non-zero levels are kept; when every detection has one they are all kept in order; multiplicity and order are stated by the two lemmas below |
| Types.TruthyLevelsMultiplicity | StressVision_PyQt6/StressVision_PyQt6/core/services/report_generator.py:122-125 | a non-zero level value is kept exactly as often as the detections carry it, and 0.0 is never kept |
| Types.TruthyLevelsAppend | StressVision_PyQt6/StressVision_PyQt6/core/services/report_generator.py:122-125 | the truthy levels of two runs of detections are those of the first followed by those of the second |
| Aggregates.Tally | StressVision_PyQt6/StressVision_PyQt6/core/services/stress_calculator.py:186-189 | the counting loop's keys are the labels seen and each value is that label's number of occurrences |
| Aggregates.TallyTotal | StressVision_PyQt6/StressVision_PyQt6/core/services/stress_calculator.py:206-209 | summing a tally over distinct keys never exceeds the number of entries, and equals it when the keys cover every entry |
| Aggregates.FirstMaxIndex | StressVision_PyQt6/StressVision_PyQt6/core/services/stress_calculator.py:212-215 | `max` with a key function picks a maximal entry that is strictly greater than every entry before it |
| Aggregates.Mode | StressVision_PyQt6/StressVision_PyQt6/core/services/report_generator.py:127-131 | the chosen emotion occurs in the list and no emotion occurs more often |
| Aggregates.Round2Range | StressVision_PyQt6/StressVision_PyQt6/core/services/stress_calculator.py:117 | rounding to two decimals keeps a value inside a range with whole-number ends |
| Aggregates.MeanAbove | StressVision_PyQt6/StressVision_PyQt6/core/services/alert_manager.py:114-117 | the mean of values all above a bound is above that bound |
| StressCalculator.NewCalculator | StressVision_PyQt6/StressVision_PyQt6/core/services/stress_calculator.py:19-40 | a new calculator stores the given `max_history` and `window_size`, has empty histories and no events, and satisfies the length invariant |
| StressCalculator.Push | StressVision_PyQt6/StressVision_PyQt6/core/services/stress_calculator.py:34 | a bounded deque never exceeds its bound, appends while there is room and evicts the oldest entry when full |
| StressCalculator.AddEmotion | StressVision_PyQt6/StressVision_PyQt6/core/services/stress_calculator.py:42-74 | the entry is always appended to the global history and, for a truthy id only, to that employee's history, created on first use; other histories and the event log are unchanged, and the length bound is kept |
| StressCalculator.RecentSlice | StressVision_PyQt6/StressVision_PyQt6/core/services/stress_calculator.py:103 | `h[-k:]` is a suffix of length min(k, len) for positive k, the whole history for 0, and drops the first -k entries for negative k |
| StressCalculator.IndexOf | StressVision_PyQt6/StressVision_PyQt6/core/services/stress_calculator.py:99-117 | the index lies in [0, 100] and is 0 when the history has fewer than 5 entries |
| StressCalculator.StressIndex | StressVision_PyQt6/StressVision_PyQt6/core/services/stress_calculator.py:76-117 | the index of the selected history lies in [0, 100] and is 0 below 5 samples |
| StressCalculator.UnknownEmployeeUsesGlobal | StressVision_PyQt6/StressVision_PyQt6/core/services/stress_calculator.py:91-97 | a falsy or unknown id reads the global history, and a window of 0 means the default window |
| StressCalculator.IndexMonotone | StressVision_PyQt6/StressVision_PyQt6/core/services/stress_calculator.py:103-117 | relabelling one entry from a non-negative to a negative emotion never lowers the index |
| StressCalculator.IndexExtremes | StressVision_PyQt6/StressVision_PyQt6/core/services/stress_calculator.py:106-117 | with at least 5 entries, an all-negative history reads 100 and a history with no negative label reads 0 |
| StressCalculator.IndexThirtyOneSamples | StressVision_PyQt6/StressVision_PyQt6/core/services/stress_calculator.py:103-117 | with 31 entries only the last 30 count: 16 negatives among them give 53.33 |
| StressCalculator.CheckStressThreshold | StressVision_PyQt6/StressVision_PyQt6/core/services/stress_calculator.py:119-157 | true exactly when the index is strictly above the threshold; then exactly one event is appended, carrying the index and the last label or unknown; otherwise nothing changes |
| StressCalculator.RecentEntries | StressVision_PyQt6/StressVision_PyQt6/core/services/stress_calculator.py:174-183 | exactly the entries stamped at or after the cutoff are kept; multiplicity and order are stated by the two lemmas below |
| StressCalculator.RecentEntriesMultiplicity | StressVision_PyQt6/StressVision_PyQt6/core/services/stress_calculator.py:174-183 | an entry stamped at or after the cutoff is kept exactly as often as it occurs, any other never |
| StressCalculator.RecentEntriesAppend | StressVision_PyQt6/StressVision_PyQt6/core/services/stress_calculator.py:174-183 | the recent entries of two runs are those of the first followed by those of the second, so history order is kept |
| StressCalculator.EmotionDistribution | StressVision_PyQt6/StressVision_PyQt6/core/services/stress_calculator.py:159-191 | each label's value is its number of entries stamped at or after `now - hours*3600`; the map is empty iff there are none, and its values sum to their number; the keys are exactly the labels seen |
| StressCalculator.GetMetrics | StressVision_PyQt6/StressVision_PyQt6/core/services/stress_calculator.py:193-228 | the total is the distribution's size, the negative count is at most the total, the percentage is `negative_count / total * 100` for a non-zero total, lies in [0, 100] and is 0 for an empty total; an unscoped event count counts every event and a scoped one counts the events logged under that id |
| StressCalculator.Predominant | StressVision_PyQt6/StressVision_PyQt6/core/services/stress_calculator.py:211-215 | neutral for no entries; otherwise a most frequent label, strictly more frequent than every label inserted before it |
| StressCalculator.MetricsPredominant | StressVision_PyQt6/StressVision_PyQt6/core/services/stress_calculator.py:204-215 | the metrics' predominant label is maximal in the metrics' own distribution, the first inserted among ties, and neutral only for an empty distribution |
| StressCalculator.ScopedEventCount | StressVision_PyQt6/StressVision_PyQt6/core/services/stress_calculator.py:224-227 | the scoped count never exceeds the log; with no scope it is the whole log, and with an id it is the number of events logged under exactly that id |
| StressCalculator.Percentage | StressVision_PyQt6/StressVision_PyQt6/core/services/stress_calculator.py:221 | for a non-zero total, the percentage times the total is the part times 100; 0 for an empty total, within [0, 100] for a part of the total, and 100 for the whole |
| StressCalculator.ClearHistory | StressVision_PyQt6/StressVision_PyQt6/core/services/stress_calculator.py:230-237 | a truthy id empties only that employee's history and keeps every other one; a falsy id empties the global history and drops every employee history |
| StressCalculator.OperationsPreserveValid | StressVision_PyQt6/StressVision_PyQt6/core/services/stress_calculator.py:34 | after adding, checking or clearing, no history is longer than `max_history` |
| AlertManager.NewManager | StressVision_PyQt6/StressVision_PyQt6/core/services/alert_manager.py:17-42 | a new manager stores the given threshold, window and cooldown and has an empty cooldown map |
| AlertManager.KeysSeparateTypes | StressVision_PyQt6/StressVision_PyQt6/core/services/alert_manager.py:74 | a high-stress key never equals a fatigue key, and two scopes share a key of one type iff their scope names agree |
| AlertManager.GlobalScopeShared | StressVision_PyQt6/StressVision_PyQt6/core/services/alert_manager.py:158 | None, the empty id and the id "global" map to the same key |
| AlertManager.CooldownInSeconds | StressVision_PyQt6/StressVision_PyQt6/core/services/alert_manager.py:97-105 | eligible iff the key never fired or at least `cooldown_minutes * 60` seconds have passed |
| AlertManager.HighStressOnly | StressVision_PyQt6/StressVision_PyQt6/core/services/alert_manager.py:66-70 | exactly the detections with a truthy level above 0.7 are kept; multiplicity and order are stated by the two lemmas below |
| AlertManager.HighStressOnlyMultiplicity | StressVision_PyQt6/StressVision_PyQt6/core/services/alert_manager.py:66-70 | a high-stress detection is kept exactly as often as it occurs in the window, any other never |
| AlertManager.HighStressOnlyAppend | StressVision_PyQt6/StressVision_PyQt6/core/services/alert_manager.py:66-70 | the high-stress detections of two runs are those of the first followed by those of the second |
| AlertManager.HighStressLevels | StressVision_PyQt6/StressVision_PyQt6/core/services/alert_manager.py:114-117 | every high-stress detection contributes its level to the sum, and each level is above 0.7 |
| AlertManager.Severity | StressVision_PyQt6/StressVision_PyQt6/core/services/alert_manager.py:119-125 | high iff the average is above 0.8, medium iff it is in (0.6, 0.8], low otherwise |
| AlertManager.CreateHighStressAlert | StressVision_PyQt6/StressVision_PyQt6/core/services/alert_manager.py:107-144 | a pending high-stress alert whose level is the mean of the window's truthy levels (every one of which is present), above 0.7, so its severity is never low, and high iff the level is above 0.8 |
| AlertManager.HighStressStep | StressVision_PyQt6/StressVision_PyQt6/core/services/alert_manager.py:72-88 | an alert iff the count meets the threshold, the key is eligible and the write succeeds; the division by zero occurs iff an empty window meets the threshold and the key is eligible |
| AlertManager.Record | StressVision_PyQt6/StressVision_PyQt6/core/services/alert_manager.py:83-88 | the alert is returned, under its new id, and its key is stamped exactly when the write succeeds |
| AlertManager.FatigueAlert | StressVision_PyQt6/StressVision_PyQt6/core/services/alert_manager.py:161-170 | a fatigue alert is medium, at level 0.5, pending and unresolved |
| AlertManager.FatigueStep | StressVision_PyQt6/StressVision_PyQt6/core/services/alert_manager.py:146-178 | an alert iff fatigue is shown, the fatigue key is eligible and the write succeeds |
| AlertManager.Evaluate | StressVision_PyQt6/StressVision_PyQt6/core/services/alert_manager.py:57-95 | at most two alerts, all pending and stamped now, at most one per type, the high-stress one first; store validity is kept |
| AlertManager.CheckAndGenerateAlerts | StressVision_PyQt6/StressVision_PyQt6/core/services/alert_manager.py:44-95 | the same shape of result over the store's window and the calculator's last hour, and no error when the threshold is positive |
| AlertManager.Composition | StressVision_PyQt6/StressVision_PyQt6/core/services/alert_manager.py:90-95 | the returned alerts are the high-stress step's followed by the fatigue step's |
| AlertManager.HighStressStepKeepsFatigueKey | StressVision_PyQt6/StressVision_PyQt6/core/services/alert_manager.py:88 | the high-stress step leaves the fatigue key's eligibility unchanged |
| AlertManager.HighStressAlertIff | StressVision_PyQt6/StressVision_PyQt6/core/services/alert_manager.py:60-88 | a high-stress alert is returned iff at least `alert_threshold` windowed detections are high-stress, the key is eligible and the write succeeds |
| AlertManager.FatigueAlertIff | StressVision_PyQt6/StressVision_PyQt6/core/services/alert_manager.py:148-176 | a fatigue alert is returned iff fatigue is shown, its key is eligible and the write succeeds, whatever the high-stress half did |
| AlertManager.CooldownRecordsOnlyWrittenAlerts | StressVision_PyQt6/StressVision_PyQt6/core/services/alert_manager.py:84-88 | the cooldown map changes exactly at the keys of returned alerts, so a failed write leaves its key eligible |
| AlertManager.CooldownSuppresses | StressVision_PyQt6/StressVision_PyQt6/core/services/alert_manager.py:97-105 | inside the cooldown after a key fired, a second evaluation, whatever its detections and write outcomes, creates no alert of that type |
| AlertManager.FreshScopeRaisesHighStress | StressVision_PyQt6/StressVision_PyQt6/core/services/alert_manager.py:73-88 | a fresh key with the threshold met and a successful write yields one medium-or-high alert, stored under the next id |
| AlertManager.AcknowledgeAlert | StressVision_PyQt6/StressVision_PyQt6/core/services/alert_manager.py:180-186 | the alert becomes acknowledged with the user as resolver; the alert's other columns, every other alert, the detections and the id counters are unchanged, and a failed update changes nothing |
| AlertManager.ResolveAlert | StressVision_PyQt6/StressVision_PyQt6/core/services/alert_manager.py:188-194 | the alert becomes resolved at now by the user; the alert's other columns, every other alert, the detections and the id counters are unchanged, and a failed update changes nothing |
| AlertManager.GetPendingAlerts | StressVision_PyQt6/StressVision_PyQt6/core/services/alert_manager.py:196-201 | only stored pending alerts, newest first, min(limit, pending) of them (all for a negative limit), each at most as often as it is stored, none older than a pending alert left out |
| EventStore.AddDetection | StressVision_PyQt6/StressVision_PyQt6/core/database/database.py:231-257 | success appends the detection, stamped now if it has no time, under a fresh id that is returned, advancing only the detection id counter; failure returns None and changes nothing |
| EventStore.AddAlert | StressVision_PyQt6/StressVision_PyQt6/core/database/database.py:311-333 | success appends the alert under a fresh id that is returned, with empty resolution columns, advancing only the alert id counter; failure returns None and changes nothing |
| EventStore.AddThenFind | StressVision_PyQt6/StressVision_PyQt6/core/database/database.py:311-333 | an inserted alert is found again under the returned id |
| EventStore.DetectionRows | StressVision_PyQt6/StressVision_PyQt6/core/database/database.py:270-286 | only matching rows, newest first, min(limit, matches) of them, each at most as often as it is stored, none older than a matching row left out |
| EventStore.GetDetections | StressVision_PyQt6/StressVision_PyQt6/core/database/database.py:259-305 | the returned events are the selected rows with their ids and stored timestamps |
| EventStore.DetectionsEmpty | StressVision_PyQt6/StressVision_PyQt6/core/database/database.py:270-286 | with a non-zero limit the result is empty iff no row matches; a non-negative limit caps it |
| EventStore.UnfilteredQueryIsComplete | StressVision_PyQt6/StressVision_PyQt6/core/database/database.py:270-286 | with no filter and no cap every stored detection is returned |
| EventStore.GetAlerts | StressVision_PyQt6/StressVision_PyQt6/core/database/database.py:335-375 | only alerts matching the status and employee filters, newest first, min(limit, matches) of them, each at most as often as it is stored, none older than a matching alert left out |
| EventStore.UpdateAlertStatus | StressVision_PyQt6/StressVision_PyQt6/core/database/database.py:377-397 | rows with the id take the status and resolver; the resolution time is now iff the status is resolved and empty otherwise; every other column and row, the detections and both id counters are unchanged |
| EventStore.NoTransitionGuard | StressVision_PyQt6/StressVision_PyQt6/core/database/database.py:377-397 | a resolved alert can be set back to pending, which clears its resolution time |
| Ordering.SortDesc | StressVision_PyQt6/StressVision_PyQt6/core/database/database.py:285 | a newest-first permutation of the rows |
| Ordering.Limit | StressVision_PyQt6/StressVision_PyQt6/core/database/database.py:285-286 | the first `limit` rows, or every row for a negative limit |
| Ordering.Query | StressVision_PyQt6/StressVision_PyQt6/core/database/database.py:270-286 | the `WHERE` rows, newest first, min(limit, matches) of them, each at most as often as it matches, none older than a matching row left out |
| Ordering.SelectMultiplicity | StressVision_PyQt6/StressVision_PyQt6/core/database/database.py:270-283 | a `WHERE` filter keeps a row exactly as often as it is stored when it matches, and never otherwise |
| Ordering.SelectAppend | StressVision_PyQt6/StressVision_PyQt6/core/database/database.py:270-283 | filtering two runs of rows gives the first run's matches followed by the second's |
| ReportGenerator.NewGenerator | StressVision_PyQt6/StressVision_PyQt6/core/services/report_generator.py:16-33 | a new generator stores the given `report_interval_minutes` and has no report time and no saved reports |
| ReportGenerator.EmployeesDetected | StressVision_PyQt6/StressVision_PyQt6/core/services/report_generator.py:60-64 | the distinct truthy employee ids, each from some detection, every truthy id included |
| ReportGenerator.EmotionLabels | StressVision_PyQt6/StressVision_PyQt6/core/services/report_generator.py:74-77 | one label per detection, unknown when the emotion is missing |
| ReportGenerator.PresentEmotions | StressVision_PyQt6/StressVision_PyQt6/core/services/report_generator.py:127 | exactly the emotions present among the detections; multiplicity and order are stated by the two lemmas below |
| ReportGenerator.PresentEmotionsMultiplicity | StressVision_PyQt6/StressVision_PyQt6/core/services/report_generator.py:127 | an emotion is kept exactly as often as the detections carry it |
| ReportGenerator.PresentEmotionsAppend | StressVision_PyQt6/StressVision_PyQt6/core/services/report_generator.py:127 | the emotions of two runs of detections are those of the first followed by those of the second |
| ReportGenerator.MeanOrZero | StressVision_PyQt6/StressVision_PyQt6/core/services/report_generator.py:71 | 0.0 for no levels; otherwise the average times the number of levels is their sum; within [0, 1] for levels in [0, 1] |
| ReportGenerator.Detail | StressVision_PyQt6/StressVision_PyQt6/core/services/report_generator.py:115-137 | the count is the employee's number of detections; the average is the mean of the truthy levels, 0.0 when none is truthy; the predominant emotion is unknown iff none is present, and otherwise is present and maximally frequent |
| ReportGenerator.ReportAverage | StressVision_PyQt6/StressVision_PyQt6/core/services/report_generator.py:67-71 | 0.0 when no level is present; otherwise within half a hundredth of the mean of the present levels and a whole number of hundredths; within [0, 1] when the levels are |
| ReportGenerator.BuildReport | StressVision_PyQt6/StressVision_PyQt6/core/services/report_generator.py:56-100 | the report is stamped at the period end and spans the period, counts every detection, has no more employees than detections and no more alerts than read, and its average is within half a hundredth of the mean recorded level; the distribution and the details are stated by `DistributionSumsToTotal`, `DetailsCoverEmployees`, `ReportDetailOf` and `DetailCountsPartition` |
| ReportGenerator.ReportFrom | StressVision_PyQt6/StressVision_PyQt6/core/services/report_generator.py:53-105 | no report and no change iff there are no detections; otherwise a report over them, stamped now, appended to the saved reports iff the save succeeds |
| ReportGenerator.ReportFromBuilds | StressVision_PyQt6/StressVision_PyQt6/core/services/report_generator.py:89-100 | the report returned is the `report_data` that `generate_report` assembles, i.e. `BuildReport` of the detections and alerts read |
| ReportGenerator.PeriodDetections | StressVision_PyQt6/StressVision_PyQt6/core/services/report_generator.py:43-51 | at most 10000 detections, and none iff no stored detection lies in the inclusive period |
| ReportGenerator.GenerateReport | StressVision_PyQt6/StressVision_PyQt6/core/services/report_generator.py:35-105 | a report iff some detection lies in `[now - interval, now]`, otherwise nothing changes; the report starts one interval back and counts between 1 and 10000 detections and at most 1000 alerts |
| ReportGenerator.GeneratedReportContents | StressVision_PyQt6/StressVision_PyQt6/core/services/report_generator.py:35-105 | the report is the one built from the period's detections and the latest 1000 alerts, stamped now, and appended to the saved reports exactly when the insert succeeds |
| ReportGenerator.ShouldGenerateReport | StressVision_PyQt6/StressVision_PyQt6/core/services/report_generator.py:164-170 | due when no report time is recorded, otherwise iff the interval has elapsed |
| ReportGenerator.AlwaysDue | StressVision_PyQt6/StressVision_PyQt6/core/services/report_generator.py:33 | generating never records a report time, so a report stays due at every later time |
| ReportGenerator.GetLatestReport | StressVision_PyQt6/StressVision_PyQt6/core/services/report_generator.py:172-188 | none iff nothing was saved; otherwise a saved report with the latest timestamp |
| ReportGenerator.DistributionSumsToTotal | StressVision_PyQt6/StressVision_PyQt6/core/services/report_generator.py:74-77 | each emotion, and unknown, counts its detections, and the counts sum to the total |
| ReportGenerator.DetailsCoverEmployees | StressVision_PyQt6/StressVision_PyQt6/core/services/report_generator.py:60-64 | one detail entry per distinct truthy id and no other, their number being `employees_detected`, and each entry is the detail of exactly that employee's detections |
| ReportGenerator.EmployeeDetails | StressVision_PyQt6/StressVision_PyQt6/core/services/report_generator.py:107-137 | one entry per listed employee that has at least one detection, and no other; each entry is the detail of exactly that employee's detections |
| ReportGenerator.ReportDetailOf | StressVision_PyQt6/StressVision_PyQt6/core/services/report_generator.py:115-137 | a report entry for an employee is built from exactly the period's detections with that id: its count is their number, its average is the mean of their truthy levels when there is one, and its predominant emotion is maximally frequent among their present emotions |
| ReportGenerator.EmployeeCount | StressVision_PyQt6/StressVision_PyQt6/core/services/report_generator.py:116-119 | the detections selected for an employee are as many as the occurrences of that id among the truthy ids |
| ReportGenerator.DetailCountsPartition | StressVision_PyQt6/StressVision_PyQt6/core/services/report_generator.py:115-137 | the detail counts sum to the number of detections with an employee id, at most the total |
| ReportGenerator.AveragesInUnitInterval | StressVision_PyQt6/StressVision_PyQt6/core/services/report_generator.py:67-71 | with levels in [0, 1] the report's and every employee's averages lie in [0, 1] |
| ReportGenerator.ZeroLevelsWeighOnlyInTheReportAverage | StressVision_PyQt6/StressVision_PyQt6/core/services/report_generator.py:122-125 | a 0.0 level counts in the report average but not in the employee's: levels 0.0 and 1.0 give 0.5 and 1.0 |
| ReportGenerator.AlertsInPeriodCounted | StressVision_PyQt6/StressVision_PyQt6/core/services/report_generator.py:80-87 | every alert read counts when all of them lie in the period, and none does when none of them lies in it |
| FaceRecognizer.Put | StressVision_PyQt6/StressVision_PyQt6/core/detectors/face_recognizer.py:191 | the id maps to the new embedding, every other id keeps its entry and existing ids keep their positions |
| FaceRecognizer.Cosine | StressVision_PyQt6/StressVision_PyQt6/core/detectors/face_recognizer.py:113-131 | 0.0 when either vector has zero norm, the ratio otherwise |
| FaceRecognizer.RecognizeFace | StressVision_PyQt6/StressVision_PyQt6/core/detectors/face_recognizer.py:80-111 | (None, 0.0) without a query or registry; the similarity is the maximum score floored at 0; an id iff that is positive and meets the threshold, namely the first entry reaching it |
| FaceRecognizer.Produced | StressVision_PyQt6/StressVision_PyQt6/core/detectors/face_recognizer.py:151-154 | exactly the embeddings that were produced; multiplicity and sample order are stated by the two lemmas below |
| FaceRecognizer.ProducedMultiplicity | StressVision_PyQt6/StressVision_PyQt6/core/detectors/face_recognizer.py:151-154 | each embedding is kept exactly as often as the samples produced it |
| FaceRecognizer.ProducedAppend | StressVision_PyQt6/StressVision_PyQt6/core/detectors/face_recognizer.py:151-154 | the embeddings of two runs of samples are those of the first followed by those of the second, so sample order is kept |
| FaceRecognizer.MeanVector | StressVision_PyQt6/StressVision_PyQt6/core/detectors/face_recognizer.py:161 | each component is the mean of that component over the embeddings |
| FaceRecognizer.MeanOfCopies | StressVision_PyQt6/StressVision_PyQt6/core/detectors/face_recognizer.py:161 | the mean of copies of one embedding is that embedding |
| FaceRecognizer.RowSims | StressVision_PyQt6/StressVision_PyQt6/core/detectors/face_recognizer.py:166-168 | the similarities of one embedding to each later one, in order |
| FaceRecognizer.PairCount | StressVision_PyQt6/StressVision_PyQt6/core/detectors/face_recognizer.py:164-168 | n embeddings are compared in n(n-1)/2 pairs |
| FaceRecognizer.PairsArePairs | StressVision_PyQt6/StressVision_PyQt6/core/detectors/face_recognizer.py:164-168 | every compared value is the similarity of a pair i < j |
| FaceRecognizer.QualityFromPairs | StressVision_PyQt6/StressVision_PyQt6/core/detectors/face_recognizer.py:170-174 | quality passes when every pair is at least 0.70 alike and fails when none is |
| FaceRecognizer.EnrollEmployee | StressVision_PyQt6/StressVision_PyQt6/core/detectors/face_recognizer.py:133-206 | fewer than 3 samples or embeddings fail without change; ragged embeddings raise; success needs both writes; the registry stays valid |
| FaceRecognizer.EnrollmentGates | StressVision_PyQt6/StressVision_PyQt6/core/detectors/face_recognizer.py:144-206 | success iff 3 samples, 3 embeddings, quality at least 0.70 and both writes; low quality leaves the registry unchanged; once both sample gates, the quality gate and the embedding write pass, the id maps to the mean even when the sample save then fails; otherwise the registry is unchanged; other ids never change |
| FaceRecognizer.LoadEmbeddings | StressVision_PyQt6/StressVision_PyQt6/core/detectors/face_recognizer.py:33-49 | each id maps to the embedding of the last readable file naming it with a non-empty embedding, and no empty id or embedding is kept |
| EmotionAnalyzer.BaseEmotion | StressVision_PyQt6/StressVision_PyQt6/core/detectors/emotion_analyzer.py:109-119 | a classifier label becomes the emotion of the same name; any other name becomes neutral |
| EmotionAnalyzer.BaseEmotionRoundTrip | StressVision_PyQt6/StressVision_PyQt6/core/detectors/emotion_analyzer.py:109-117 | each of the seven classifier labels maps back to itself |
| EmotionAnalyzer.CompositeNamesFallBack | StressVision_PyQt6/StressVision_PyQt6/core/detectors/emotion_analyzer.py:119 | stress_low, stress_high and fatigue are not classifier labels and fall back to neutral |
| EmotionAnalyzer.MapEmotion | StressVision_PyQt6/StressVision_PyQt6/core/detectors/emotion_analyzer.py:97-142 | stress_high iff the stress score exceeds 0.6, stress_low iff it is in (0.4, 0.6], fatigue iff neither and the fatigue rule holds, and the base label otherwise |
| EmotionAnalyzer.NameMattersOnlyWithoutSignals | StressVision_PyQt6/StressVision_PyQt6/core/detectors/emotion_analyzer.py:135-142 | the dominant label changes the result only when neither the stress nor the fatigue rule fires |
| EmotionAnalyzer.DistributionYieldsBase | StressVision_PyQt6/StressVision_PyQt6/core/detectors/emotion_analyzer.py:123-142 | for probabilities forming a distribution the stress score is at most 0.4 and the fatigue score at most 0.6, so the result is the base label |
| EmotionAnalyzer.RulesReachable | StressVision_PyQt6/StressVision_PyQt6/core/detectors/emotion_analyzer.py:135-140 | outside a distribution each rule fires, and stress wins over fatigue |
| EmotionAnalyzer.ToProbabilities | StressVision_PyQt6/StressVision_PyQt6/core/detectors/emotion_analyzer.py:75 | the same labels, each percentage divided by 100 |
| EmotionAnalyzer.AnalyzeFace | StressVision_PyQt6/StressVision_PyQt6/core/detectors/emotion_analyzer.py:44-95 | a classifier error gives neutral, confidence 0.0 and no probabilities; otherwise the confidence is the dominant label's probability and the label is the mapping of the dominant label |
| EmotionAnalyzer.PercentagesGiveBaseLabel | StressVision_PyQt6/StressVision_PyQt6/core/detectors/emotion_analyzer.py:68-85 | classifier percentages give a distribution, a confidence in [0, 1] and the base label of the dominant emotion |
| EmotionAnalyzer.SliceIndex | StressVision_PyQt6/StressVision_PyQt6/core/detectors/emotion_analyzer.py:167 | a slice bound counts from the end when negative and is clamped to the axis |
| EmotionAnalyzer.SliceLength | StressVision_PyQt6/StressVision_PyQt6/core/detectors/emotion_analyzer.py:167-169 | a slice is empty iff it contains no index |
| EmotionAnalyzer.PaddedRoiAsWritten | StressVision_PyQt6/StressVision_PyQt6/core/detectors/emotion_analyzer.py:161-165 | the padded bounds satisfy 0 <= x1, x2 <= width, 0 <= y1, y2 <= height; while the padded box reaches past the left (top) edge the crop takes exactly its columns (rows) inside the frame, and a negative upper bound instead takes the indices from the lower bound up to that many short of the far edge |
| EmotionAnalyzer.AsWrittenCropsOutsideTheBox | StressVision_PyQt6/StressVision_PyQt6/core/detectors/emotion_analyzer.py:161-169 | a box far left of the frame gives a negative x2 and an 80-column crop of pixels outside the padded box |
| EmotionAnalyzer.PaddedRoi | StressVision_PyQt6/StressVision_PyQt6/core/detectors/emotion_analyzer.py:161-167 | the crop's columns and rows are exactly those of the padded box inside the frame |
| EmotionAnalyzer.PaddedRoiAgrees | StressVision_PyQt6/StressVision_PyQt6/core/detectors/emotion_analyzer.py:161-165 | the corrected bounds equal the written ones whenever the padded box reaches the frame's left and top edges |
| EmotionAnalyzer.CropNonEmptyIff | StressVision_PyQt6/StressVision_PyQt6/core/detectors/emotion_analyzer.py:167-169 | a crop cut with the corrected bounds is non-empty iff the padded box meets the frame |
| EmotionAnalyzer.AnalyzeMultipleFaces | StressVision_PyQt6/StressVision_PyQt6/core/detectors/emotion_analyzer.py:144-173 | as written: one result per face whose crop, cut with the written bounds, is non-empty, in the order of the faces, each the analysis of that crop |
| EmotionAnalyzer.AnalyzeMultipleFacesCorrected | StressVision_PyQt6/StressVision_PyQt6/core/detectors/emotion_analyzer.py:144-173 | with the corrected bounds: one result per face whose corrected crop is non-empty, that is whose padded box meets the frame, in order, each the analysis of that crop |
| EmotionAnalyzer.CorrectedAgrees | StressVision_PyQt6/StressVision_PyQt6/core/detectors/emotion_analyzer.py:161-171 | the two analyses give the same results whenever every padded box reaches past the frame's left and top edges |
| EmotionAnalyzer.AsWrittenAnalysesAFaceOutsideTheFrame | StressVision_PyQt6/StressVision_PyQt6/core/detectors/emotion_analyzer.py:161-171 | a face box 50 pixels left of a 100 by 100 frame gets one result as written and none with the corrected bounds |
| EmotionAnalyzer.EmptyFrameNoResults | StressVision_PyQt6/StressVision_PyQt6/core/detectors/emotion_analyzer.py:164-171 | a frame without columns yields no results, with either bounds |

## Left out

- **External libraries.** The emotion classifier and the embedding model are not modelled; their answers are parameters. This covers `DeepFace.analyze` and `generate_embedding`.
- **The cosine ratio.** The cosine ratio `dot / (norm * norm)` is an abstract function parameter. Only its zero-norm rule is modelled. Dimension errors of `np.dot` are not modelled.
- **Floating point.** Floating-point arithmetic is modelled with exact reals. Percentages and probabilities that only sum to 100 or 1 up to rounding fall outside `Percentages` and `Distribution`.
- **Storage and files.** SQLite, JSON files and image files are not modelled. Employee and session CRUD are also left out, as are DDL and connections. Tables are in-memory sequences, and each write outcome is a boolean parameter. `reports_15min` is the generator's `savedReports` sequence; the JSON round trip of `get_latest_report` is not modelled.
- **UI and process wiring.** The Qt window, the video thread, timers, the face detector and the enrollment script are not part of this model. The same holds for `main.py` and `config.py`. Nor are concurrency between the video thread and the timers, and the printed diagnostics.
- **Timestamps.** Stamps are integers, so stamps in the ISO strings' sub-second precision are not distinguished.
- **Embedding file order.** The order of the embedding files returned by `glob` is taken as given.
- **`reload_embeddings`.** It only repeats `_load_embeddings` and has no separate member.
- **The query tie order.** SQLite leaves the order of rows with equal timestamps unspecified. The model fixes it as insertion order.
- Aggregates.Round2: Python's `round(x, 2)` rounds float ties to even. The model rounds half up, on exact reals.
- ReportGenerator.Detail: the predominant emotion is picked by `max` over a Python set, whose iteration order is unspecified. The contract states only that the pick is present and maximally frequent. The model's choice, the first maximum in order of appearance, is not promised.
- StressCalculator.IndexOf: the contract gives bounds and the value below 5 samples. `IndexExtremes`, `IndexMonotone` and `IndexThirtyOneSamples` add the extremes, monotonicity and one concrete value. The closed formula, the rounded percentage of negative labels in the window, is not stated as a contract.
- StressCalculator.StressIndex: the contract gives only the bounds and the value below 5 samples of the selected history. Which history is read is stated by `UnknownEmployeeUsesGlobal`; the value itself is that of `IndexOf`.
- ReportGenerator.AlertsInPeriodCounted: only the cases where all or none of the alerts read lie in the period are stated. Mixed cases are not stated.
- Ordering.SortDesc: the contract states the order and the permutation, not the stable order of ties.
- Types.EmotionColor: states totality and channel bounds, not the individual colours.
- FaceRecognizer.EnrollEmployee: the error `np.mean` raises on embeddings of differing dimension is modelled as `None`. The error is not caught in the source either.
- **The window level.** The stress level that the application stores with each detection is the stress index divided by 100. The alert window reads that level. The model takes detection levels as given.

## Findings

| source | as written | input that shows it | evidently intended | confidence | as-written member | corrected member |
|---|---|---|---|---|---|---|
| StressVision_PyQt6/StressVision_PyQt6/core/detectors/emotion_analyzer.py:164-167 | `x2 = min(W, x + w + 10)` can be negative, and a negative slice stop counts from the right edge of the frame | frame width 100, box x = -50, w = 20: x2 = -20, so `frame[:, 0:-20]` takes 80 columns, none of which lies in the padded box | the crop holds exactly the padded box's pixels inside the frame, and is empty (so skipped) when the box lies outside it | low (a detector rarely reports a box entirely outside the frame); not executed | EmotionAnalyzer.AsWrittenAnalysesAFaceOutsideTheFrame | EmotionAnalyzer.AnalyzeMultipleFacesCorrected |
