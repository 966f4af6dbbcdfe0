/** The detection and alert tables of the event store, as in-memory sequences:
    inserts that hand out fresh increasing ids, the filtered newest-first queries
    and the alert status update. A failing write is the explicit flag `ok`;
    timestamps are whole seconds. */
module EventStore {
  import opened Types
  import opened Ordering

  /** Default row caps of the two queries. */
  const DefaultDetectionLimit: int := 1000
  const DefaultAlertLimit: int := 100

  /** A stored detection: the row id and the stamp the insert settled on. */
  datatype DetectionRow = DetectionRow(id: nat, timestamp: int, detection: DetectionEvent)
  {
    /** The row read back as a record, id and timestamp filled in. */
    function Event(): DetectionEvent {
      detection.(detectionId := Some(id), timestamp := Some(timestamp))
    }
  }

  datatype Store = Store(
    detections: seq<DetectionRow>,
    alerts: seq<Alert>,
    nextDetectionId: nat,
    nextAlertId: nat)
  {
    /** Autoincrement ids: positive, below the next id, increasing in insertion order. */
    predicate Valid() {
      && 1 <= nextDetectionId && 1 <= nextAlertId
      && (forall i :: 0 <= i < |detections| ==> 1 <= detections[i].id < nextDetectionId)
      && (forall i, j :: 0 <= i < j < |detections| ==> detections[i].id < detections[j].id)
      && (forall i :: 0 <= i < |alerts| ==> 1 <= alerts[i].alertId < nextAlertId)
      && (forall i, j :: 0 <= i < j < |alerts| ==> alerts[i].alertId < alerts[j].alertId)
    }
  }

  function EmptyStore(): (s: Store)
    ensures s.Valid() && s.detections == [] && s.alerts == []
  {
    Store([], [], 1, 1)
  }

  /** The outcome of an insert: the store after it and the new id (`None` on failure). */
  datatype Inserted = Inserted(store: Store, id: Option<nat>)

  /** `add_detection`: stores the event under a fresh id, stamped `now` when it carries
      no timestamp of its own. */
  function AddDetection(s: Store, d: DetectionEvent, now: int, ok: bool): (r: Inserted)
    ensures !ok ==> r.id == None && r.store == s
    ensures ok ==>
      && r.id == Some(s.nextDetectionId)
      && r.store.detections == s.detections + [DetectionRow(s.nextDetectionId, d.timestamp.GetOr(now), d)]
      && r.store.alerts == s.alerts
    ensures ok ==> r.store == s.(detections := r.store.detections, nextDetectionId := s.nextDetectionId + 1)
    ensures ok && s.Valid() ==>
      && r.store.Valid()
      && 1 <= r.id.value
      && forall i :: 0 <= i < |s.detections| ==> s.detections[i].id != r.id.value
  {
    if ok then
      var row := DetectionRow(s.nextDetectionId, d.timestamp.GetOr(now), d);
      Inserted(s.(detections := s.detections + [row], nextDetectionId := s.nextDetectionId + 1),
               Some(s.nextDetectionId))
    else
      Inserted(s, None)
  }

  /** `add_alert`: stores the alert under a fresh id. The insert copies every column
      but the id and the two resolution columns, which start out empty. */
  function AddAlert(s: Store, a: Alert, ok: bool): (r: Inserted)
    ensures !ok ==> r.id == None && r.store == s
    ensures ok ==>
      && r.id == Some(s.nextAlertId)
      && r.store.alerts == s.alerts + [a.(alertId := s.nextAlertId, resolvedAt := None, resolvedBy := None)]
      && r.store.detections == s.detections
    ensures ok ==> r.store == s.(alerts := r.store.alerts, nextAlertId := s.nextAlertId + 1)
    ensures ok && s.Valid() ==>
      && r.store.Valid()
      && 1 <= r.id.value
      && forall i :: 0 <= i < |s.alerts| ==> s.alerts[i].alertId != r.id.value
  {
    if ok then
      var row := a.(alertId := s.nextAlertId, resolvedAt := None, resolvedBy := None);
      Inserted(s.(alerts := s.alerts + [row], nextAlertId := s.nextAlertId + 1), Some(s.nextAlertId))
    else
      Inserted(s, None)
  }

  /** The `WHERE` clause of `get_detections`: the employee filter applies only to a
      truthy id, and each time bound, inclusive, only when given. */
  predicate DetectionMatches(row: DetectionRow, employeeId: Option<string>, start: Option<int>, end: Option<int>) {
    && (!Truthy(employeeId) || row.detection.employeeId == employeeId)
    && (start.None? || row.timestamp >= start.value)
    && (end.None? || row.timestamp <= end.value)
  }

  function DetectionFilter(employeeId: Option<string>, start: Option<int>, end: Option<int>): DetectionRow -> bool {
    row => DetectionMatches(row, employeeId, start, end)
  }

  function DetectionStamp(row: DetectionRow): int {
    row.timestamp
  }

  /** The rows `get_detections` returns, newest first, at most `limit` of them. */
  function DetectionRows(
    s: Store, employeeId: Option<string>, start: Option<int>, end: Option<int>, limit: int): (r: seq<DetectionRow>)
    ensures forall x :: x in r ==> x in s.detections && DetectionMatches(x, employeeId, start, end)
    ensures SortedDesc(r, DetectionStamp)
    ensures var matching := Select(s.detections, DetectionFilter(employeeId, start, end));
      |r| == if 0 <= limit < |matching| then limit else |matching|
    ensures multiset(r) <= multiset(Select(s.detections, DetectionFilter(employeeId, start, end)))
    ensures forall x, i :: x in s.detections && DetectionMatches(x, employeeId, start, end) && x !in r && 0 <= i < |r| ==>
              x.timestamp <= r[i].timestamp
  {
    var p := DetectionFilter(employeeId, start, end);
    var r := Query(s.detections, p, DetectionStamp, limit);
    DetectionsNewestFirst(s.detections, p, r, employeeId, start, end);
    r
  }

  lemma DetectionsNewestFirst(
    rows: seq<DetectionRow>, p: DetectionRow -> bool, r: seq<DetectionRow>,
    employeeId: Option<string>, start: Option<int>, end: Option<int>)
    requires p == DetectionFilter(employeeId, start, end)
    requires forall x, i :: x in rows && p(x) && x !in r && 0 <= i < |r| ==> DetectionStamp(x) <= DetectionStamp(r[i])
    ensures forall x, i :: x in rows && DetectionMatches(x, employeeId, start, end) && x !in r && 0 <= i < |r| ==>
              x.timestamp <= r[i].timestamp
  {
    forall x, i | x in rows && DetectionMatches(x, employeeId, start, end) && x !in r && 0 <= i < |r|
      ensures x.timestamp <= r[i].timestamp
    {
      assert p(x);
      assert DetectionStamp(x) <= DetectionStamp(r[i]);
    }
  }

  /** `get_detections`. */
  function GetDetections(
    s: Store, employeeId: Option<string>, start: Option<int>, end: Option<int>, limit: int): (r: seq<DetectionEvent>)
    ensures |r| == |DetectionRows(s, employeeId, start, end, limit)|
    ensures forall i :: 0 <= i < |r| ==> r[i] == DetectionRows(s, employeeId, start, end, limit)[i].Event()
  {
    var rows := DetectionRows(s, employeeId, start, end, limit);
    seq(|rows|, i requires 0 <= i < |rows| => rows[i].Event())
  }

  /** The `WHERE` clause of `get_alerts`. */
  predicate AlertMatches(a: Alert, status: Option<AlertStatus>, employeeId: Option<string>) {
    && (status.None? || a.status == status.value)
    && (!Truthy(employeeId) || a.employeeId == employeeId)
  }

  function AlertFilter(status: Option<AlertStatus>, employeeId: Option<string>): Alert -> bool {
    a => AlertMatches(a, status, employeeId)
  }

  function AlertStamp(a: Alert): int {
    a.timestamp
  }

  /** `get_alerts`: matching alerts, newest first, at most `limit` of them. */
  function GetAlerts(s: Store, status: Option<AlertStatus>, employeeId: Option<string>, limit: int): (r: seq<Alert>)
    ensures forall x :: x in r ==> x in s.alerts && AlertMatches(x, status, employeeId)
    ensures SortedDesc(r, AlertStamp)
    ensures var matching := Select(s.alerts, AlertFilter(status, employeeId));
      |r| == if 0 <= limit < |matching| then limit else |matching|
    ensures multiset(r) <= multiset(Select(s.alerts, AlertFilter(status, employeeId)))
    ensures forall x, i :: x in s.alerts && AlertMatches(x, status, employeeId) && x !in r && 0 <= i < |r| ==>
              x.timestamp <= r[i].timestamp
  {
    var p := AlertFilter(status, employeeId);
    var r := Query(s.alerts, p, AlertStamp, limit);
    AlertsNewestFirst(s.alerts, p, r, status, employeeId);
    r
  }

  lemma AlertsNewestFirst(
    rows: seq<Alert>, p: Alert -> bool, r: seq<Alert>, status: Option<AlertStatus>, employeeId: Option<string>)
    requires p == AlertFilter(status, employeeId)
    requires forall x, i :: x in rows && p(x) && x !in r && 0 <= i < |r| ==> AlertStamp(x) <= AlertStamp(r[i])
    ensures forall x, i :: x in rows && AlertMatches(x, status, employeeId) && x !in r && 0 <= i < |r| ==>
              x.timestamp <= r[i].timestamp
  {
    forall x, i | x in rows && AlertMatches(x, status, employeeId) && x !in r && 0 <= i < |r|
      ensures x.timestamp <= r[i].timestamp
    {
      assert p(x);
      assert AlertStamp(x) <= AlertStamp(r[i]);
    }
  }

  /** The outcome of an update: the store after it and the returned flag. */
  datatype Updated = Updated(store: Store, success: bool)

  /** One row after `UPDATE alerts SET status, resolved_at, resolved_by`. */
  function SetStatus(a: Alert, status: AlertStatus, resolvedBy: Option<string>, now: int): Alert {
    a.(status := status,
       resolvedAt := if status == Resolved then Some(now) else None,
       resolvedBy := resolvedBy)
  }

  /** `update_alert_status`: every row with the id takes the new status; the resolution
      time is `now` exactly for `Resolved` and cleared otherwise; the resolver is
      overwritten. No transition is refused, and a missing id still reports success. */
  function UpdateAlertStatus(
    s: Store, alertId: int, status: AlertStatus, resolvedBy: Option<string>, now: int, ok: bool): (r: Updated)
    ensures r.success == ok
    ensures !ok ==> r.store == s
    ensures ok ==>
      && r.store.detections == s.detections
      && |r.store.alerts| == |s.alerts|
      && forall i :: 0 <= i < |s.alerts| ==>
           var before := s.alerts[i];
           var after := r.store.alerts[i];
           if before.alertId == alertId then
             && after.status == status
             && (after.resolvedAt.Some? <==> status == Resolved)
             && (status == Resolved ==> after.resolvedAt == Some(now))
             && after.resolvedBy == resolvedBy
             && after.(status := before.status, resolvedAt := before.resolvedAt, resolvedBy := before.resolvedBy)
                == before
           else after == before
    ensures ok ==> r.store == s.(alerts := r.store.alerts)
    ensures s.Valid() ==> r.store.Valid()
  {
    if ok then
      var updated := seq(|s.alerts|, i requires 0 <= i < |s.alerts| =>
        if s.alerts[i].alertId == alertId then SetStatus(s.alerts[i], status, resolvedBy, now) else s.alerts[i]);
      Updated(s.(alerts := updated), true)
    else
      Updated(s, false)
  }

  /** The alert with `alertId` among `alerts`, if any (the last such row). */
  function FindAlert(alerts: seq<Alert>, alertId: int): (r: Option<Alert>)
    ensures r.Some? ==> r.value in alerts && r.value.alertId == alertId
    ensures r.None? ==> forall i :: 0 <= i < |alerts| ==> alerts[i].alertId != alertId
  {
    if alerts == [] then None
    else if alerts[|alerts| - 1].alertId == alertId then Some(alerts[|alerts| - 1])
    else FindAlert(alerts[..|alerts| - 1], alertId)
  }

  // ---------------------------------------------------------------------
  // Properties of the store
  // ---------------------------------------------------------------------

  /** A resolved alert can be put back to pending, which clears its resolution time. */
  lemma NoTransitionGuard(s: Store, alertId: int, now: int, later: int)
    requires s.Valid()
    requires exists i :: 0 <= i < |s.alerts| && s.alerts[i].alertId == alertId
    ensures
      var resolved := UpdateAlertStatus(s, alertId, Resolved, Some("user"), now, true).store;
      var reopened := UpdateAlertStatus(resolved, alertId, Pending, None, later, true).store;
      && FindAlert(resolved.alerts, alertId).Some?
      && FindAlert(resolved.alerts, alertId).value.status == Resolved
      && FindAlert(resolved.alerts, alertId).value.resolvedAt == Some(now)
      && FindAlert(reopened.alerts, alertId).Some?
      && FindAlert(reopened.alerts, alertId).value.status == Pending
      && FindAlert(reopened.alerts, alertId).value.resolvedAt == None
  {
    var i :| 0 <= i < |s.alerts| && s.alerts[i].alertId == alertId;
    var resolved := UpdateAlertStatus(s, alertId, Resolved, Some("user"), now, true).store;
    var reopened := UpdateAlertStatus(resolved, alertId, Pending, None, later, true).store;
    FindAlertUnique(resolved.alerts, alertId, i);
    FindAlertUnique(reopened.alerts, alertId, i);
  }

  /** With increasing ids, the lookup finds the one row carrying the id. */
  lemma {:induction false} FindAlertUnique(alerts: seq<Alert>, alertId: int, i: nat)
    requires i < |alerts| && alerts[i].alertId == alertId
    requires forall a, b :: 0 <= a < b < |alerts| ==> alerts[a].alertId < alerts[b].alertId
    ensures FindAlert(alerts, alertId) == Some(alerts[i])
  {
    var n := |alerts| - 1;
    if i < n {
      assert alerts[n].alertId != alertId;
      FindAlertUnique(alerts[..n], alertId, i);
    }
  }

  /** An alert inserted successfully is found again under its id, pending when it was
      built pending, and unresolved. */
  lemma AddThenFind(s: Store, a: Alert)
    requires s.Valid()
    ensures
      var ins := AddAlert(s, a, true);
      && FindAlert(ins.store.alerts, ins.id.value) == Some(a.(alertId := ins.id.value, resolvedAt := None, resolvedBy := None))
  {
    var ins := AddAlert(s, a, true);
    FindAlertUnique(ins.store.alerts, ins.id.value, |s.alerts|);
  }

  /** A query without filters and without a cap returns every stored detection. */
  lemma UnfilteredQueryIsComplete(s: Store)
    ensures |DetectionRows(s, None, None, None, -1)| == |s.detections|
  {
    SelectAll(s.detections, DetectionFilter(None, None, None));
  }

  lemma {:induction false} SelectAll<T>(s: seq<T>, p: T -> bool)
    requires forall x :: x in s ==> p(x)
    ensures Select(s, p) == s
  {
    if s != [] {
      assert s == s[..|s| - 1] + [s[|s| - 1]];
      SelectAll(s[..|s| - 1], p);
    }
  }

  /** With a non-zero limit a detection query comes back empty exactly when no stored
      row matches its filter; a non-negative limit caps it. */
  lemma DetectionsEmpty(s: Store, employeeId: Option<string>, start: Option<int>, end: Option<int>, limit: int)
    requires limit != 0
    ensures var r := GetDetections(s, employeeId, start, end, limit);
      && (0 <= limit ==> |r| <= limit)
      && (r == [] <==> forall x :: x in s.detections ==> !DetectionMatches(x, employeeId, start, end))
  {
    var p := DetectionFilter(employeeId, start, end);
    var matching := Select(s.detections, p);
    if matching != [] {
      assert matching[0] in matching;
    }
    forall x | x in s.detections && DetectionMatches(x, employeeId, start, end) ensures x in matching {
      assert p(x);
    }
  }
}
