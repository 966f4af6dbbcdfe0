/** The alert manager: the high-stress count threshold over a trailing window of
    stored detections, severity from the average level, the fatigue check over the
    calculator's last-hour distribution, and per-(type, scope) cooldowns recorded
    only after the alert row was written. */
module AlertManager {
  import opened Types
  import opened Aggregates
  import opened Ordering
  import opened EventStore
  import SC = StressCalculator

  const DefaultAlertThreshold: int := 10
  const DefaultAlertWindowMinutes: int := 15
  const DefaultCooldownMinutes: int := 60
  /** A detection counts towards the high-stress threshold above this level. */
  const HighStressLevel: real := 0.7
  const FatigueCountThreshold: nat := 15
  const FatigueOrNeutralThreshold: nat := 20
  const FatigueAlertLevel: real := 0.5
  const FatigueHours: int := 1
  const PendingAlertsLimit: int := 50

  /** Configuration and the cooldown map from alert key to the time it last fired. */
  datatype Manager = Manager(
    alertThreshold: int,
    alertWindowMinutes: int,
    cooldownMinutes: int,
    lastAlertTimes: map<string, int>)

  function NewManager(alertThreshold: int, alertWindowMinutes: int, cooldownMinutes: int): (m: Manager)
    ensures m.alertThreshold == alertThreshold && m.alertWindowMinutes == alertWindowMinutes
    ensures m.cooldownMinutes == cooldownMinutes
    ensures m.lastAlertTimes == map[]
  {
    Manager(alertThreshold, alertWindowMinutes, cooldownMinutes, map[])
  }

  // ---------------------------------------------------------------------
  // Cooldown keys
  // ---------------------------------------------------------------------

  /** `employee_id or 'global'`. */
  function ScopeName(employeeId: Option<string>): string {
    if Truthy(employeeId) then employeeId.value else "global"
  }

  function HighStressKey(employeeId: Option<string>): string {
    "high_stress_" + ScopeName(employeeId)
  }

  function FatigueKey(employeeId: Option<string>): string {
    "fatigue_" + ScopeName(employeeId)
  }

  /** The two alert types never share a cooldown key, whatever the scopes; within a
      type two scopes share a key exactly when they have the same scope name. */
  lemma KeysSeparateTypes(a: Option<string>, b: Option<string>)
    ensures HighStressKey(a) != FatigueKey(b)
    ensures HighStressKey(a) == HighStressKey(b) <==> ScopeName(a) == ScopeName(b)
    ensures FatigueKey(a) == FatigueKey(b) <==> ScopeName(a) == ScopeName(b)
  {
    assert HighStressKey(a)[0] == 'h' && FatigueKey(b)[0] == 'f';
    if HighStressKey(a) == HighStressKey(b) {
      assert ScopeName(a) == HighStressKey(a)[12..] && ScopeName(b) == HighStressKey(b)[12..];
    }
    if FatigueKey(a) == FatigueKey(b) {
      assert ScopeName(a) == FatigueKey(a)[8..] && ScopeName(b) == FatigueKey(b)[8..];
    }
  }

  /** A falsy id and the literal id "global" share the global scope's keys. */
  lemma GlobalScopeShared()
    ensures HighStressKey(None) == HighStressKey(Some("")) == HighStressKey(Some("global"))
    ensures FatigueKey(None) == FatigueKey(Some("global"))
  {
  }

  /** `_can_generate_alert`: the key never fired, or at least `cooldown_minutes`
      minutes have elapsed since it did. */
  predicate CanGenerateAlert(m: Manager, key: string, now: int) {
    key !in m.lastAlertTimes
    || (now - m.lastAlertTimes[key]) as real / 60.0 >= m.cooldownMinutes as real
  }

  /** The minute comparison is the same as comparing whole seconds. */
  lemma CooldownInSeconds(m: Manager, key: string, now: int)
    ensures CanGenerateAlert(m, key, now)
            <==> key !in m.lastAlertTimes || now - m.lastAlertTimes[key] >= m.cooldownMinutes * 60
  {
    if key in m.lastAlertTimes {
      var elapsed := (now - m.lastAlertTimes[key]) as real;
      assert elapsed / 60.0 >= m.cooldownMinutes as real <==> elapsed >= (m.cooldownMinutes * 60) as real;
    }
  }

  // ---------------------------------------------------------------------
  // High stress
  // ---------------------------------------------------------------------

  /** `d.stress_level and d.stress_level > 0.7`. */
  predicate IsHighStress(d: DetectionEvent) {
    d.stressLevel.Some? && d.stressLevel.value != 0.0 && d.stressLevel.value > HighStressLevel
  }

  function HighStressOnly(ds: seq<DetectionEvent>): (r: seq<DetectionEvent>)
    ensures |r| <= |ds|
    ensures forall i :: 0 <= i < |r| ==> IsHighStress(r[i])
    ensures forall d :: d in r ==> d in ds
    ensures forall d :: d in ds && IsHighStress(d) ==> d in r
  {
    if ds == [] then []
    else
      var last := ds[|ds| - 1];
      assert ds == ds[..|ds| - 1] + [last];
      if IsHighStress(last) then HighStressOnly(ds[..|ds| - 1]) + [last] else HighStressOnly(ds[..|ds| - 1])
  }

  /** Each high-stress detection is kept as often as it occurs, and no other is kept. */
  lemma {:induction false} HighStressOnlyMultiplicity(ds: seq<DetectionEvent>, d: DetectionEvent)
    ensures multiset(HighStressOnly(ds))[d] == if IsHighStress(d) then multiset(ds)[d] else 0
  {
    if ds != [] {
      var init, last := ds[..|ds| - 1], ds[|ds| - 1];
      assert ds == init + [last];
      HighStressOnlyMultiplicity(init, d);
    }
  }

  /** The kept detections stay in their order: filtering a concatenation filters each part. */
  lemma {:induction false} HighStressOnlyAppend(a: seq<DetectionEvent>, b: seq<DetectionEvent>)
    ensures HighStressOnly(a + b) == HighStressOnly(a) + HighStressOnly(b)
  {
    if b != [] {
      var init, last := b[..|b| - 1], b[|b| - 1];
      assert (a + b)[..|a + b| - 1] == a + init;
      assert (a + b)[|a + b| - 1] == last;
      HighStressOnlyAppend(a, init);
    } else {
      assert a + b == a;
    }
  }

  /** The high-stress detections of the scope among the stored detections stamped at or
      after `now - window`, read with the query's default cap. */
  function WindowStressDetections(m: Manager, store: Store, employeeId: Option<string>, now: int): seq<DetectionEvent> {
    HighStressOnly(GetDetections(store, employeeId, Some(now - m.alertWindowMinutes * 60), None, DefaultDetectionLimit))
  }

  /** Every high-stress detection contributes its level, and each is above 0.7. */
  lemma HighStressLevels(sd: seq<DetectionEvent>)
    requires forall i :: 0 <= i < |sd| ==> IsHighStress(sd[i])
    ensures |TruthyLevels(sd)| == |sd|
    ensures forall i :: 0 <= i < |sd| ==> TruthyLevels(sd)[i] > HighStressLevel
  {
    assert forall i :: 0 <= i < |sd| ==> sd[i].stressLevel.Some? && sd[i].stressLevel.value != 0.0;
  }

  /** Severity bands of the average level. */
  function Severity(avg: real): (s: AlertSeverity)
    ensures s == High <==> avg > 0.8
    ensures s == Medium <==> 0.6 < avg <= 0.8
    ensures s == Low <==> avg <= 0.6
  {
    if avg > 0.8 then High else if avg > 0.6 then Medium else Low
  }

  function HighStressMessage(m: Manager, employeeId: Option<string>, count: nat): string {
    if Truthy(employeeId) then
      "Empleado " + employeeId.value + " muestra niveles altos de estrés prolongado"
    else
      "Se detectaron " + IntToString(count) + " eventos de estrés alto en "
      + IntToString(m.alertWindowMinutes) + " minutos"
  }

  /** `_create_high_stress_alert`: a pending alert carrying the average level of the
      high-stress detections; that average is above 0.7, so the severity is never low. */
  function CreateHighStressAlert(m: Manager, employeeId: Option<string>, sd: seq<DetectionEvent>, now: int): (a: Alert)
    requires |sd| > 0
    requires forall i :: 0 <= i < |sd| ==> IsHighStress(sd[i])
    ensures a.alertType == HighStressProlonged && a.status == Pending
    ensures a.employeeId == employeeId && a.timestamp == now
    ensures a.resolvedAt == None && a.resolvedBy == None
    ensures |TruthyLevels(sd)| == |sd| && a.stressLevel == Mean(TruthyLevels(sd))
    ensures a.stressLevel > HighStressLevel
    ensures a.severity != Low
    ensures a.severity == High <==> a.stressLevel > 0.8
  {
    var levels := TruthyLevels(sd);
    HighStressLevels(sd);
    var avg := SumReals(levels) / |sd| as real;
    assert avg == Mean(levels);
    MeanAbove(levels, HighStressLevel);
    NewAlert(0, employeeId, HighStressProlonged, Severity(avg), avg, now, HighStressMessage(m, employeeId, |sd|))
  }

  /** The state an evaluation leaves behind and the alerts it returns. */
  datatype Evaluation = Evaluation(manager: Manager, store: Store, alerts: seq<Alert>)

  /** Python truthiness of a returned row id. */
  predicate WriteSucceeded(ins: Inserted) {
    ins.id.Some? && ins.id.value != 0
  }

  /** The high-stress half of `check_and_generate_alerts` over the window's high-stress
      detections `sd`; `None` is the division by zero raised when a threshold of at
      most 0 lets an empty window through. */
  function HighStressStep(m: Manager, store: Store, employeeId: Option<string>, now: int, sd: seq<DetectionEvent>, ok: bool)
    : (r: Option<Evaluation>)
    requires forall i :: 0 <= i < |sd| ==> IsHighStress(sd[i])
    ensures r.None? <==> |sd| >= m.alertThreshold && CanGenerateAlert(m, HighStressKey(employeeId), now) && |sd| == 0
    ensures r.Some? ==> StepShape(m, store, r.value, HighStressKey(employeeId), HighStressProlonged, now)
    ensures r.Some? && store.Valid() ==>
      (|r.value.alerts| == 1 <==> |sd| >= m.alertThreshold && CanGenerateAlert(m, HighStressKey(employeeId), now) && ok)
    ensures r.Some? && |r.value.alerts| == 1 ==>
      var a := r.value.alerts[0];
      && a.severity != Low && a.stressLevel > HighStressLevel && a.employeeId == employeeId
  {
    var key := HighStressKey(employeeId);
    if |sd| >= m.alertThreshold && CanGenerateAlert(m, key, now) then
      if |sd| == 0 then None
      else
        var alert := CreateHighStressAlert(m, employeeId, sd, now);
        Some(Record(m, store, key, alert, ok))
    else
      Some(Evaluation(m, store, []))
  }

  /** Writes `alert`; only when the write returns a truthy id is the alert returned,
      with that id, and its key stamped `now` in the cooldown map. */
  function Record(m: Manager, store: Store, key: string, alert: Alert, ok: bool): (r: Evaluation)
    requires alert.status == Pending && alert.resolvedAt == None && alert.resolvedBy == None
    ensures StepShape(m, store, r, key, alert.alertType, alert.timestamp)
    ensures store.Valid() ==> (|r.alerts| == 1 <==> ok)
    ensures |r.alerts| == 1 ==> r.alerts[0] == alert.(alertId := r.alerts[0].alertId)
  {
    var ins := AddAlert(store, alert, ok);
    if WriteSucceeded(ins) then
      Evaluation(m.(lastAlertTimes := m.lastAlertTimes[key := alert.timestamp]), ins.store,
                 [alert.(alertId := ins.id.value)])
    else
      Evaluation(m, ins.store, [])
  }

  /** What one step may do: return at most one pending alert of type `t` stamped
      `now`, which is then the one row appended to the store under a fresh id and the
      only change to the cooldown map (its key, set to `now`); with no alert the
      manager and the store's alerts are unchanged. Validity of the store survives. */
  predicate StepShape(m: Manager, store: Store, r: Evaluation, key: string, t: AlertType, now: int) {
    && |r.alerts| <= 1
    && r.store.detections == store.detections
    && (store.Valid() ==> r.store.Valid())
    && (|r.alerts| == 0 ==> r.manager == m)
    && (|r.alerts| == 0 && store.Valid() ==> r.store.alerts == store.alerts)
    && (|r.alerts| == 1 ==>
          && r.alerts[0].alertType == t && r.alerts[0].status == Pending && r.alerts[0].timestamp == now
          && r.alerts[0].alertId == store.nextAlertId
          && r.store.alerts == store.alerts + r.alerts
          && r.manager == m.(lastAlertTimes := m.lastAlertTimes[key := now]))
  }

  // ---------------------------------------------------------------------
  // Fatigue
  // ---------------------------------------------------------------------

  /** Many fatigue labels, or many fatigue-or-neutral labels, in the last hour. */
  predicate FatigueCondition(calculator: SC.Calculator, employeeId: Option<string>, now: int) {
    var dist := SC.EmotionDistribution(calculator, employeeId, FatigueHours, now);
    Get(dist, Fatigue) >= FatigueCountThreshold || Get(dist, Fatigue) + Get(dist, Neutral) >= FatigueOrNeutralThreshold
  }

  function FatigueMessage(employeeId: Option<string>): string {
    "Se detectó fatiga en " + (if Truthy(employeeId) then "empleado " + employeeId.value else "múltiples personas")
  }

  function FatigueAlert(employeeId: Option<string>, now: int): (a: Alert)
    ensures a.alertType == FatigueDetected && a.severity == Medium && a.stressLevel == FatigueAlertLevel
    ensures a.status == Pending && a.resolvedAt == None && a.resolvedBy == None
    ensures a.employeeId == employeeId && a.timestamp == now
  {
    NewAlert(0, employeeId, FatigueDetected, Medium, FatigueAlertLevel, now, FatigueMessage(employeeId))
  }

  /** `_check_fatigue`, given whether the last hour's distribution shows fatigue. */
  function FatigueStep(m: Manager, store: Store, employeeId: Option<string>, now: int, fatigue: bool, ok: bool)
    : (r: Evaluation)
    ensures StepShape(m, store, r, FatigueKey(employeeId), FatigueDetected, now)
    ensures store.Valid() ==>
      (|r.alerts| == 1 <==> fatigue && CanGenerateAlert(m, FatigueKey(employeeId), now) && ok)
    ensures |r.alerts| == 1 ==>
      var a := r.alerts[0];
      a.severity == Medium && a.stressLevel == FatigueAlertLevel && a.employeeId == employeeId
  {
    var key := FatigueKey(employeeId);
    if fatigue && CanGenerateAlert(m, key, now) then
      Record(m, store, key, FatigueAlert(employeeId, now), ok)
    else
      Evaluation(m, store, [])
  }

  /** One evaluation: the high-stress step, then the fatigue step on the state it left. */
  function Evaluate(
    m: Manager, store: Store, employeeId: Option<string>, now: int,
    sd: seq<DetectionEvent>, fatigue: bool, highOk: bool, fatigueOk: bool): (r: Option<Evaluation>)
    requires forall i :: 0 <= i < |sd| ==> IsHighStress(sd[i])
    ensures r.None? <==> |sd| >= m.alertThreshold && CanGenerateAlert(m, HighStressKey(employeeId), now) && |sd| == 0
    ensures r.Some? ==> ReturnedAlerts(r.value.alerts, now)
    ensures r.Some? && store.Valid() ==> r.value.store.Valid()
  {
    match HighStressStep(m, store, employeeId, now, sd, highOk)
    case None => None
    case Some(h) =>
      var f := FatigueStep(h.manager, h.store, employeeId, now, fatigue, fatigueOk);
      Combine(m, store, h, f, HighStressKey(employeeId), FatigueKey(employeeId), now);
      Some(Evaluation(f.manager, f.store, h.alerts + f.alerts))
  }

  /** `check_and_generate_alerts(employee_id)` at time `now`; `highOk` and `fatigueOk`
      say whether the respective alert row write succeeds. `None` is the raised
      division by zero. */
  function CheckAndGenerateAlerts(
    m: Manager, calculator: SC.Calculator, store: Store, employeeId: Option<string>, now: int,
    highOk: bool, fatigueOk: bool): (r: Option<Evaluation>)
    ensures r.Some? ==> ReturnedAlerts(r.value.alerts, now)
    ensures r.Some? && store.Valid() ==> r.value.store.Valid()
    ensures m.alertThreshold > 0 ==> r.Some?
  {
    Evaluate(m, store, employeeId, now, WindowStressDetections(m, store, employeeId, now),
             FatigueCondition(calculator, employeeId, now), highOk, fatigueOk)
  }

  /** At most two alerts, all pending and stamped `now`, at most one of each type,
      the high-stress one first. */
  predicate ReturnedAlerts(alerts: seq<Alert>, now: int) {
    && |alerts| <= 2
    && (forall i :: 0 <= i < |alerts| ==> alerts[i].status == Pending && alerts[i].timestamp == now)
    && (forall i, j :: 0 <= i < j < |alerts| ==>
          alerts[i].alertType == HighStressProlonged && alerts[j].alertType == FatigueDetected)
  }

  /** Chaining a high-stress step and a fatigue step. */
  lemma Combine(m: Manager, store: Store, h: Evaluation, f: Evaluation, highKey: string, fatigueKey: string, now: int)
    requires StepShape(m, store, h, highKey, HighStressProlonged, now)
    requires StepShape(h.manager, h.store, f, fatigueKey, FatigueDetected, now)
    ensures ReturnedAlerts(h.alerts + f.alerts, now)
    ensures store.Valid() ==> f.store.Valid()
    ensures HasAlertOfType(h.alerts + f.alerts, HighStressProlonged) <==> |h.alerts| == 1
    ensures HasAlertOfType(h.alerts + f.alerts, FatigueDetected) <==> |f.alerts| == 1
  {
    var all := h.alerts + f.alerts;
    if HasAlertOfType(all, HighStressProlonged) {
      var i :| 0 <= i < |all| && all[i].alertType == HighStressProlonged;
      assert i < |h.alerts|;
    }
    if |h.alerts| == 1 {
      assert all[0].alertType == HighStressProlonged;
    }
    if HasAlertOfType(all, FatigueDetected) {
      var i :| 0 <= i < |all| && all[i].alertType == FatigueDetected;
      assert i >= |h.alerts|;
    }
    if |f.alerts| == 1 {
      assert all[|h.alerts|].alertType == FatigueDetected;
    }
  }

  // ---------------------------------------------------------------------
  // Acknowledging, resolving and listing
  // ---------------------------------------------------------------------

  /** `acknowledge_alert`: status acknowledged, no resolution time, the user recorded;
      every other column, every other alert and the detections are untouched, and a
      failed update changes nothing. */
  function AcknowledgeAlert(store: Store, alertId: int, userId: string, now: int, ok: bool): (r: Updated)
    ensures r.success == ok
    ensures !ok ==> r.store == store
    ensures ok ==> r.store.detections == store.detections && |r.store.alerts| == |store.alerts|
    ensures ok ==> r.store == store.(alerts := r.store.alerts)
    ensures ok ==> forall i :: 0 <= i < |store.alerts| && store.alerts[i].alertId == alertId ==>
      && r.store.alerts[i].status == Acknowledged
      && r.store.alerts[i].resolvedAt == None
      && r.store.alerts[i].resolvedBy == Some(userId)
      && r.store.alerts[i].(status := store.alerts[i].status, resolvedAt := store.alerts[i].resolvedAt,
                            resolvedBy := store.alerts[i].resolvedBy) == store.alerts[i]
    ensures ok ==> forall i :: 0 <= i < |store.alerts| && store.alerts[i].alertId != alertId ==>
      r.store.alerts[i] == store.alerts[i]
  {
    UpdateAlertStatus(store, alertId, Acknowledged, Some(userId), now, ok)
  }

  /** `resolve_alert`: status resolved, resolved at `now` by the user; every other
      column, every other alert and the detections are untouched, and a failed update
      changes nothing. */
  function ResolveAlert(store: Store, alertId: int, userId: string, now: int, ok: bool): (r: Updated)
    ensures r.success == ok
    ensures !ok ==> r.store == store
    ensures ok ==> r.store.detections == store.detections && |r.store.alerts| == |store.alerts|
    ensures ok ==> r.store == store.(alerts := r.store.alerts)
    ensures ok ==> forall i :: 0 <= i < |store.alerts| && store.alerts[i].alertId == alertId ==>
      && r.store.alerts[i].status == Resolved
      && r.store.alerts[i].resolvedAt == Some(now)
      && r.store.alerts[i].resolvedBy == Some(userId)
      && r.store.alerts[i].(status := store.alerts[i].status, resolvedAt := store.alerts[i].resolvedAt,
                            resolvedBy := store.alerts[i].resolvedBy) == store.alerts[i]
    ensures ok ==> forall i :: 0 <= i < |store.alerts| && store.alerts[i].alertId != alertId ==>
      r.store.alerts[i] == store.alerts[i]
  {
    UpdateAlertStatus(store, alertId, Resolved, Some(userId), now, ok)
  }

  /** `get_pending_alerts`: the newest `limit` pending alerts (all of them for a negative
      limit), newest first, each stored row at most once. */
  function GetPendingAlerts(store: Store, limit: int): (r: seq<Alert>)
    ensures forall a :: a in r ==> a in store.alerts && a.status == Pending
    ensures 0 <= limit ==> |r| <= limit
    ensures var pending := Select(store.alerts, AlertFilter(Some(Pending), None));
      |r| == if 0 <= limit < |pending| then limit else |pending|
    ensures multiset(r) <= multiset(Select(store.alerts, AlertFilter(Some(Pending), None)))
    ensures SortedDesc(r, AlertStamp)
    ensures forall a, i :: a in store.alerts && a.status == Pending && a !in r && 0 <= i < |r| ==>
              a.timestamp <= r[i].timestamp
  {
    GetAlerts(store, Some(Pending), None, limit)
  }

  // ---------------------------------------------------------------------
  // Properties of an evaluation
  // ---------------------------------------------------------------------

  /** Whether `alerts` holds an alert of type `t`. */
  predicate HasAlertOfType(alerts: seq<Alert>, t: AlertType) {
    exists i :: 0 <= i < |alerts| && alerts[i].alertType == t
  }

  /** The returned alerts are the high-stress step's followed by the fatigue step's. */
  lemma Composition(
    m: Manager, store: Store, employeeId: Option<string>, now: int,
    sd: seq<DetectionEvent>, fatigue: bool, highOk: bool, fatigueOk: bool)
    requires forall i :: 0 <= i < |sd| ==> IsHighStress(sd[i])
    requires HighStressStep(m, store, employeeId, now, sd, highOk).Some?
    ensures
      var h := HighStressStep(m, store, employeeId, now, sd, highOk).value;
      var f := FatigueStep(h.manager, h.store, employeeId, now, fatigue, fatigueOk);
      var r := Evaluate(m, store, employeeId, now, sd, fatigue, highOk, fatigueOk).value;
      && r == Evaluation(f.manager, f.store, h.alerts + f.alerts)
      && (HasAlertOfType(r.alerts, HighStressProlonged) <==> |h.alerts| == 1)
      && (HasAlertOfType(r.alerts, FatigueDetected) <==> |f.alerts| == 1)
  {
    var h := HighStressStep(m, store, employeeId, now, sd, highOk).value;
    var f := FatigueStep(h.manager, h.store, employeeId, now, fatigue, fatigueOk);
    Combine(m, store, h, f, HighStressKey(employeeId), FatigueKey(employeeId), now);
  }

  /** The high-stress step leaves the fatigue key of the same scope as eligible as it was. */
  lemma HighStressStepKeepsFatigueKey(
    m: Manager, store: Store, employeeId: Option<string>, now: int,
    sd: seq<DetectionEvent>, highOk: bool)
    requires forall i :: 0 <= i < |sd| ==> IsHighStress(sd[i])
    requires HighStressStep(m, store, employeeId, now, sd, highOk).Some?
    ensures
      var h := HighStressStep(m, store, employeeId, now, sd, highOk).value;
      && h.manager.cooldownMinutes == m.cooldownMinutes
      && (CanGenerateAlert(h.manager, FatigueKey(employeeId), now) <==> CanGenerateAlert(m, FatigueKey(employeeId), now))
  {
    KeysSeparateTypes(employeeId, employeeId);
  }

  /** A high-stress alert is returned exactly when the window holds at least
      `alert_threshold` high-stress detections, the key is out of cooldown and the
      row was written. */
  lemma HighStressAlertIff(
    m: Manager, store: Store, employeeId: Option<string>, now: int,
    sd: seq<DetectionEvent>, fatigue: bool, highOk: bool, fatigueOk: bool)
    requires forall i :: 0 <= i < |sd| ==> IsHighStress(sd[i])
    requires store.Valid()
    requires Evaluate(m, store, employeeId, now, sd, fatigue, highOk, fatigueOk).Some?
    ensures
      var r := Evaluate(m, store, employeeId, now, sd, fatigue, highOk, fatigueOk).value;
      HasAlertOfType(r.alerts, HighStressProlonged)
      <==> |sd| >= m.alertThreshold && CanGenerateAlert(m, HighStressKey(employeeId), now) && highOk
  {
    Composition(m, store, employeeId, now, sd, fatigue, highOk, fatigueOk);
  }

  /** A fatigue alert is returned exactly when the last hour shows fatigue, the fatigue
      key is out of cooldown (a high-stress alert in the same call does not touch it)
      and the row was written. */
  lemma FatigueAlertIff(
    m: Manager, store: Store, employeeId: Option<string>, now: int,
    sd: seq<DetectionEvent>, fatigue: bool, highOk: bool, fatigueOk: bool)
    requires forall i :: 0 <= i < |sd| ==> IsHighStress(sd[i])
    requires store.Valid()
    requires Evaluate(m, store, employeeId, now, sd, fatigue, highOk, fatigueOk).Some?
    ensures
      var r := Evaluate(m, store, employeeId, now, sd, fatigue, highOk, fatigueOk).value;
      HasAlertOfType(r.alerts, FatigueDetected)
      <==> fatigue && CanGenerateAlert(m, FatigueKey(employeeId), now) && fatigueOk
  {
    Composition(m, store, employeeId, now, sd, fatigue, highOk, fatigueOk);
    HighStressStepKeepsFatigueKey(m, store, employeeId, now, sd, highOk);
  }

  /** The cooldown map changes exactly at the keys of the alerts returned, each set to
      `now`. In particular a failed write leaves its key as eligible as it was. */
  lemma CooldownRecordsOnlyWrittenAlerts(
    m: Manager, store: Store, employeeId: Option<string>, now: int,
    sd: seq<DetectionEvent>, fatigue: bool, highOk: bool, fatigueOk: bool)
    requires forall i :: 0 <= i < |sd| ==> IsHighStress(sd[i])
    requires Evaluate(m, store, employeeId, now, sd, fatigue, highOk, fatigueOk).Some?
    ensures
      var r := Evaluate(m, store, employeeId, now, sd, fatigue, highOk, fatigueOk).value;
      var highFired := HasAlertOfType(r.alerts, HighStressProlonged);
      var fatigueFired := HasAlertOfType(r.alerts, FatigueDetected);
      && r.manager.(lastAlertTimes := m.lastAlertTimes) == m
      && r.manager.lastAlertTimes
         == Stamp(Stamp(m.lastAlertTimes, HighStressKey(employeeId), highFired, now),
                  FatigueKey(employeeId), fatigueFired, now)
  {
    Composition(m, store, employeeId, now, sd, fatigue, highOk, fatigueOk);
    HighStressStepKeepsFatigueKey(m, store, employeeId, now, sd, highOk);
  }

  /** `times` with `key` set to `now` when `fired`. */
  function Stamp(times: map<string, int>, key: string, fired: bool, now: int): (r: map<string, int>)
    ensures fired ==> key in r && r[key] == now
    ensures forall k :: k in times && (k != key || !fired) ==> k in r && r[k] == times[k]
    ensures forall k :: k in r && (k != key || !fired) ==> k in times
  {
    if fired then times[key := now] else times
  }

  /** Inside the cooldown of a key that just fired, a second evaluation, whatever its
      detections and write outcomes, creates no alert of that type. */
  lemma CooldownSuppresses(
    m: Manager, store: Store, employeeId: Option<string>, now: int, later: int,
    sd: seq<DetectionEvent>, fatigue: bool, sd2: seq<DetectionEvent>, fatigue2: bool,
    highOk: bool, fatigueOk: bool, highOk2: bool, fatigueOk2: bool)
    requires forall i :: 0 <= i < |sd| ==> IsHighStress(sd[i])
    requires forall i :: 0 <= i < |sd2| ==> IsHighStress(sd2[i])
    requires store.Valid()
    requires now <= later < now + m.cooldownMinutes * 60
    requires Evaluate(m, store, employeeId, now, sd, fatigue, highOk, fatigueOk).Some?
    ensures
      var first := Evaluate(m, store, employeeId, now, sd, fatigue, highOk, fatigueOk).value;
      var second := Evaluate(first.manager, first.store, employeeId, later, sd2, fatigue2, highOk2, fatigueOk2);
      && (HasAlertOfType(first.alerts, HighStressProlonged) ==>
            second.Some? && !HasAlertOfType(second.value.alerts, HighStressProlonged))
      && (HasAlertOfType(first.alerts, FatigueDetected) && second.Some? ==>
            !HasAlertOfType(second.value.alerts, FatigueDetected))
  {
    var first := Evaluate(m, store, employeeId, now, sd, fatigue, highOk, fatigueOk).value;
    CooldownRecordsOnlyWrittenAlerts(m, store, employeeId, now, sd, fatigue, highOk, fatigueOk);
    CooldownInSeconds(first.manager, HighStressKey(employeeId), later);
    CooldownInSeconds(first.manager, FatigueKey(employeeId), later);
    KeysSeparateTypes(employeeId, employeeId);
    var second := Evaluate(first.manager, first.store, employeeId, later, sd2, fatigue2, highOk2, fatigueOk2);
    if second.Some? {
      HighStressAlertIff(first.manager, first.store, employeeId, later, sd2, fatigue2, highOk2, fatigueOk2);
      FatigueAlertIff(first.manager, first.store, employeeId, later, sd2, fatigue2, highOk2, fatigueOk2);
    }
  }

  /** A fresh scope with the threshold met and a successful write yields exactly one
      alert, high-stress, of medium or high severity, stored under the next id. */
  lemma FreshScopeRaisesHighStress(
    m: Manager, store: Store, employeeId: Option<string>, now: int, sd: seq<DetectionEvent>)
    requires forall i :: 0 <= i < |sd| ==> IsHighStress(sd[i])
    requires store.Valid()
    requires m.alertThreshold >= 1
    requires HighStressKey(employeeId) !in m.lastAlertTimes
    requires |sd| >= m.alertThreshold
    ensures
      var r := Evaluate(m, store, employeeId, now, sd, false, true, false);
      && r.Some?
      && |r.value.alerts| == 1
      && r.value.alerts[0].alertType == HighStressProlonged
      && r.value.alerts[0].severity in {Medium, High}
      && r.value.alerts[0].alertId == store.nextAlertId
      && r.value.store.alerts == store.alerts + [r.value.alerts[0]]
  {
    Composition(m, store, employeeId, now, sd, false, true, false);
    HighStressStepKeepsFatigueKey(m, store, employeeId, now, sd, true);
  }
}
