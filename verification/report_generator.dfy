/** The periodic report: an aggregation over the detections stored in the trailing
    interval — how many, how many distinct employees, the average level, the emotion
    distribution, the alerts raised in the period and a per-employee breakdown —
    appended to the saved reports when the write succeeds. */
module ReportGenerator {
  import opened Types
  import opened Aggregates
  import opened Ordering
  import opened EventStore

  const DefaultReportIntervalMinutes: int := 15
  /** The cap on the detections a report reads. */
  const ReportDetectionLimit: int := 10000
  /** The cap on the alerts a report looks through. */
  const ReportAlertLimit: int := 1000

  datatype EmployeeDetail = EmployeeDetail(detectionCount: nat, avgStressLevel: real, predominantEmotion: Label)

  datatype Report = Report(
    timestamp: int,
    periodStart: int,
    periodEnd: int,
    totalDetections: nat,
    employeesDetected: nat,
    avgStressLevel: real,
    emotionDistribution: map<Label, nat>,
    alertsGenerated: nat,
    employeeDetails: map<string, EmployeeDetail>)

  /** The interval, the time of the last report (never set by the program) and the
      rows of the reports table, oldest first. */
  datatype Generator = Generator(reportIntervalMinutes: int, lastReportTime: Option<int>, savedReports: seq<Report>)

  function NewGenerator(reportIntervalMinutes: int): (g: Generator)
    ensures g.reportIntervalMinutes == reportIntervalMinutes
    ensures g.lastReportTime == None && g.savedReports == []
  {
    Generator(reportIntervalMinutes, None, [])
  }

  // ---------------------------------------------------------------------
  // The pieces of a report
  // ---------------------------------------------------------------------

  /** The truthy employee ids of `ds`, one per detection that carries one, in order. */
  function TruthyIds(ds: seq<DetectionEvent>): (r: seq<string>)
    ensures |r| <= |ds|
    ensures forall k :: k in r ==> k != "" && exists d :: d in ds && d.employeeId == Some(k)
    ensures forall d :: d in ds && Truthy(d.employeeId) ==> d.employeeId.value in r
  {
    if ds == [] then []
    else
      var init := ds[..|ds| - 1];
      var last := ds[|ds| - 1];
      assert ds == init + [last];
      if Truthy(last.employeeId) then TruthyIds(init) + [last.employeeId.value] else TruthyIds(init)
  }

  /** The set of employees detected, in order of first detection. */
  function EmployeesDetected(ds: seq<DetectionEvent>): (r: seq<string>)
    ensures NoDuplicates(r)
    ensures |r| <= |ds|
    ensures forall k :: k in r ==> k != "" && exists d :: d in ds && d.employeeId == Some(k)
    ensures forall d :: d in ds && Truthy(d.employeeId) ==> d.employeeId.value in r
  {
    Distinct(TruthyIds(ds))
  }

  /** `detection.emotion or 'unknown'`. */
  function LabelOf(d: DetectionEvent): Label {
    if d.emotion.Some? then Emotion(d.emotion.value) else Unknown
  }

  function EmotionLabels(ds: seq<DetectionEvent>): (r: seq<Label>)
    ensures |r| == |ds|
    ensures forall i :: 0 <= i < |ds| ==> r[i] == LabelOf(ds[i])
  {
    seq(|ds|, i requires 0 <= i < |ds| => LabelOf(ds[i]))
  }

  /** The `emotion` column of `ds`, one entry per detection. */
  function EmotionColumn(ds: seq<DetectionEvent>): (r: seq<Option<EmotionType>>)
    ensures |r| == |ds|
    ensures forall i :: 0 <= i < |ds| ==> r[i] == ds[i].emotion
  {
    if ds == [] then [] else EmotionColumn(ds[..|ds| - 1]) + [ds[|ds| - 1].emotion]
  }

  /** The emotions that are present, in order: `[d.emotion for d in ds if d.emotion]`. */
  function PresentEmotions(ds: seq<DetectionEvent>): (r: seq<EmotionType>)
    ensures forall e :: e in r ==> exists d :: d in ds && d.emotion == Some(e)
    ensures forall d :: d in ds && d.emotion.Some? ==> d.emotion.value in r
  {
    if ds == [] then []
    else
      var init := ds[..|ds| - 1];
      var last := ds[|ds| - 1];
      assert ds == init + [last];
      if last.emotion.Some? then PresentEmotions(init) + [last.emotion.value] else PresentEmotions(init)
  }

  /** Each emotion is listed as many times as detections carry it. */
  lemma {:induction false} PresentEmotionsMultiplicity(ds: seq<DetectionEvent>, e: EmotionType)
    ensures multiset(PresentEmotions(ds))[e] == multiset(EmotionColumn(ds))[Some(e)]
  {
    if ds != [] {
      var init, last := ds[..|ds| - 1], ds[|ds| - 1];
      assert EmotionColumn(ds) == EmotionColumn(init) + [last.emotion];
      PresentEmotionsMultiplicity(init, e);
    }
  }

  /** The emotions stay in detection order: a concatenation lists each part's in turn. */
  lemma {:induction false} PresentEmotionsAppend(a: seq<DetectionEvent>, b: seq<DetectionEvent>)
    ensures PresentEmotions(a + b) == PresentEmotions(a) + PresentEmotions(b)
  {
    if b != [] {
      var init, last := b[..|b| - 1], b[|b| - 1];
      assert (a + b)[..|a + b| - 1] == a + init;
      assert (a + b)[|a + b| - 1] == last;
      PresentEmotionsAppend(a, init);
    } else {
      assert a + b == a;
    }
  }

  /** The filter selecting one employee's detections. */
  function OfEmployee(id: string): DetectionEvent -> bool {
    (d: DetectionEvent) => d.employeeId == Some(id)
  }

  /** An alert stamped inside `[start, end]`. */
  function InPeriod(start: int, end: int): Alert -> bool {
    (a: Alert) => start <= a.timestamp <= end
  }

  /** `sum(levels) / len(levels) if levels else 0.0`. */
  function MeanOrZero(levels: seq<real>): (avg: real)
    ensures levels == [] ==> avg == 0.0
    ensures levels != [] ==> avg * (|levels| as real) == SumReals(levels)
    ensures (forall x :: x in levels ==> 0.0 <= x <= 1.0) ==> 0.0 <= avg <= 1.0
  {
    if levels == [] then 0.0
    else
      UnitMean(levels);
      MeanTimesCount(levels);
      Mean(levels)
  }

  lemma UnitMean(levels: seq<real>)
    requires levels != []
    ensures (forall x :: x in levels ==> 0.0 <= x <= 1.0) ==> 0.0 <= Mean(levels) <= 1.0
  {
    if forall x :: x in levels ==> 0.0 <= x <= 1.0 {
      assert forall i :: 0 <= i < |levels| ==> levels[i] in levels;
      MeanBounds(levels, 0.0, 1.0);
    }
  }

  /** `_get_employee_details` for one employee's detections `eds`: the count, the mean
      of the truthy levels (0.0 excluded) and a most frequent present emotion. */
  function Detail(eds: seq<DetectionEvent>): (r: EmployeeDetail)
    ensures r.detectionCount == |eds|
    ensures (forall d :: d in eds ==> d.stressLevel.None? || d.stressLevel.value == 0.0) ==> r.avgStressLevel == 0.0
    ensures TruthyLevels(eds) != [] ==> r.avgStressLevel == Mean(TruthyLevels(eds))
    ensures (forall d :: d in eds && d.stressLevel.Some? ==> 0.0 <= d.stressLevel.value <= 1.0) ==>
              0.0 <= r.avgStressLevel <= 1.0
    ensures r.predominantEmotion == Unknown <==> forall d :: d in eds ==> d.emotion.None?
    ensures r.predominantEmotion.Emotion? ==>
      var es := PresentEmotions(eds);
      && r.predominantEmotion.emotion in es
      && forall e :: e in es ==> Count(es, e) <= Count(es, r.predominantEmotion.emotion)
  {
    var levels := TruthyLevels(eds);
    var es := PresentEmotions(eds);
    DetailFacts(eds);
    EmployeeDetail(|eds|, MeanOrZero(levels), if es == [] then Unknown else Emotion(Mode(es)))
  }

  lemma DetailFacts(eds: seq<DetectionEvent>)
    ensures (forall d :: d in eds ==> d.stressLevel.None? || d.stressLevel.value == 0.0) ==> TruthyLevels(eds) == []
    ensures (forall d :: d in eds && d.stressLevel.Some? ==> 0.0 <= d.stressLevel.value <= 1.0) ==>
              forall x :: x in TruthyLevels(eds) ==> 0.0 <= x <= 1.0
    ensures PresentEmotions(eds) == [] <==> forall d :: d in eds ==> d.emotion.None?
  {
    var levels := TruthyLevels(eds);
    if levels != [] {
      assert levels[0] in levels;
    }
    var es := PresentEmotions(eds);
    if es != [] {
      assert es[0] in es;
    }
  }

  /** `_get_employee_details`: one entry per listed employee that has detections, each
      the detail of exactly that employee's detections. */
  function EmployeeDetails(ids: seq<string>, ds: seq<DetectionEvent>): (r: map<string, EmployeeDetail>)
    ensures forall id :: id in r <==> id in ids && exists d :: d in ds && d.employeeId == Some(id)
    ensures forall id :: id in r ==> r[id] == Detail(Select(ds, OfEmployee(id)))
  {
    HasDetections(ds);
    map id | id in ids && |Select(ds, OfEmployee(id))| > 0 :: Detail(Select(ds, OfEmployee(id)))
  }

  /** An employee's selection is non-empty exactly when some detection carries the id. */
  lemma HasDetections(ds: seq<DetectionEvent>)
    ensures forall id :: |Select(ds, OfEmployee(id))| > 0 <==> exists d :: d in ds && d.employeeId == Some(id)
  {
    forall id ensures |Select(ds, OfEmployee(id))| > 0 <==> exists d :: d in ds && d.employeeId == Some(id) {
      var sel := Select(ds, OfEmployee(id));
      if |sel| > 0 {
        assert sel[0] in sel;
      }
      if exists d :: d in ds && d.employeeId == Some(id) {
        var d :| d in ds && d.employeeId == Some(id);
        assert OfEmployee(id)(d);
        assert d in sel;
      }
    }
  }

  /** The report's `avg_stress_level`: the mean of every present level, 0.0 included,
      rounded to two decimals; 0.0 when no level is present. The rounded value is the
      whole number of hundredths within half a hundredth of the mean. */
  function ReportAverage(ds: seq<DetectionEvent>): (avg: real)
    ensures (forall d :: d in ds ==> d.stressLevel.None?) ==> avg == 0.0
    ensures var levels := RecordedLevels(ds);
      levels != [] ==> -0.005 < avg - Mean(levels) <= 0.005
    ensures (avg * 100.0).Floor as real == avg * 100.0
    ensures (forall d :: d in ds && d.stressLevel.Some? ==> 0.0 <= d.stressLevel.value <= 1.0) ==> 0.0 <= avg <= 1.0
  {
    var levels := RecordedLevels(ds);
    Round2Close(MeanOrZero(levels));
    Round2Hundredths(MeanOrZero(levels));
    Round2Whole(0);
    RoundedUnit(MeanOrZero(levels));
    Round2(MeanOrZero(levels))
  }

  lemma RoundedUnit(x: real)
    ensures 0.0 <= x <= 1.0 ==> 0.0 <= Round2(x) <= 1.0
  {
    if 0.0 <= x <= 1.0 {
      Round2Range(x, 0, 1);
    }
  }

  /** The report over the period's detections `ds` (newest first) and the alerts read
      for it. */
  function BuildReport(ds: seq<DetectionEvent>, alerts: seq<Alert>, start: int, end: int): (r: Report)
    ensures r.timestamp == end && r.periodStart == start && r.periodEnd == end
    ensures r.totalDetections == |ds|
    ensures r.employeesDetected <= r.totalDetections
    ensures r.alertsGenerated <= |alerts|
    ensures (forall d :: d in ds ==> d.stressLevel.None?) ==> r.avgStressLevel == 0.0
    ensures var levels := RecordedLevels(ds);
      levels != [] ==> -0.005 < r.avgStressLevel - Mean(levels) <= 0.005
  {
    var ids := EmployeesDetected(ds);
    Report(end, start, end, |ds|, |ids|,
           ReportAverage(ds),
           Tally(EmotionLabels(ds)),
           |Select(alerts, InPeriod(start, end))|,
           EmployeeDetails(ids, ds))
  }

  // ---------------------------------------------------------------------
  // Generating, saving and reading back
  // ---------------------------------------------------------------------

  datatype Generated = Generated(generator: Generator, report: Option<Report>)

  /** `generate_report` once the period's detections `ds` and the latest alerts have
      been read: nothing when `ds` is empty, otherwise the report, appended to the saved
      reports when `saveOk` (a failed insert is printed and swallowed). */
  function ReportFrom(g: Generator, ds: seq<DetectionEvent>, alerts: seq<Alert>, start: int, now: int, saveOk: bool)
    : (r: Generated)
    ensures r.generator.lastReportTime == g.lastReportTime
    ensures r.generator.reportIntervalMinutes == g.reportIntervalMinutes
    ensures r.report.None? <==> ds == []
    ensures r.report.None? ==> r.generator == g
    ensures r.report.Some? ==>
      && r.report.value.timestamp == now
      && r.report.value.periodStart == start
      && r.report.value.totalDetections == |ds|
      && r.report.value.alertsGenerated <= |alerts|
      && r.generator.savedReports == g.savedReports + (if saveOk then [r.report.value] else [])
  {
    if ds == [] then Generated(g, None)
    else
      var report := BuildReport(ds, alerts, start, now);
      Generated(if saveOk then g.(savedReports := g.savedReports + [report]) else g, Some(report))
  }

  /** The report `ReportFrom` returns is the `report_data` that `generate_report`
      assembles, which is `BuildReport` of the detections and alerts read. */
  lemma ReportFromBuilds(g: Generator, ds: seq<DetectionEvent>, alerts: seq<Alert>, start: int, now: int, saveOk: bool)
    ensures var r := ReportFrom(g, ds, alerts, start, now, saveOk);
      r.report.Some? ==> r.report.value == BuildReport(ds, alerts, start, now)
  {
  }

  /** The detections of every scope stamped in `[start, end]`, newest first, at most
      10000 of them. */
  function PeriodDetections(store: Store, start: int, end: int): (ds: seq<DetectionEvent>)
    ensures |ds| <= ReportDetectionLimit
    ensures ds == [] <==> forall x :: x in store.detections ==> !(start <= x.timestamp <= end)
  {
    DetectionsEmpty(store, None, Some(start), Some(end), ReportDetectionLimit);
    GetDetections(store, None, Some(start), Some(end), ReportDetectionLimit)
  }

  /** The start of the period a report at `now` covers: one interval back. */
  function PeriodStart(g: Generator, now: int): int {
    now - g.reportIntervalMinutes * 60
  }

  /** `generate_report` at time `now` over the store: the period's detections and the
      latest 1000 alerts. A report is produced, and saved, exactly when some stored
      detection lies in the period; otherwise nothing changes. */
  function GenerateReport(g: Generator, store: Store, now: int, saveOk: bool): (r: Generated)
    ensures r.generator.lastReportTime == g.lastReportTime
    ensures r.report.None? <==>
      forall x :: x in store.detections ==> !(PeriodStart(g, now) <= x.timestamp <= now)
    ensures r.report.None? ==> r.generator == g
    ensures r.report.Some? ==>
      && r.report.value.periodStart == PeriodStart(g, now)
      && 1 <= r.report.value.totalDetections <= ReportDetectionLimit
      && r.report.value.alertsGenerated <= ReportAlertLimit
  {
    var start := PeriodStart(g, now);
    ReportFrom(g, PeriodDetections(store, start, now), GetAlerts(store, None, None, ReportAlertLimit), start, now, saveOk)
  }

  /** The report `generate_report` produces is the `report_data` it assembles, that is
      `BuildReport` of the period's detections and the latest 1000 alerts, so every
      property of `BuildReport` (distribution, employee details, average) carries over
      to it; it is stamped `now` and appended to the saved reports exactly when the
      insert succeeds. */
  lemma GeneratedReportContents(g: Generator, store: Store, now: int, saveOk: bool)
    ensures var start := PeriodStart(g, now);
      var r := GenerateReport(g, store, now, saveOk);
      r.report.Some? ==>
        && r.report.value == BuildReport(PeriodDetections(store, start, now),
                                         GetAlerts(store, None, None, ReportAlertLimit), start, now)
        && r.report.value.timestamp == now
        && r.report.value.periodEnd == now
        && r.generator.savedReports == g.savedReports + (if saveOk then [r.report.value] else [])
        && r.generator.reportIntervalMinutes == g.reportIntervalMinutes
  {
    var start := PeriodStart(g, now);
    ReportFromBuilds(g, PeriodDetections(store, start, now), GetAlerts(store, None, None, ReportAlertLimit), start, now, saveOk);
  }

  /** `should_generate_report`: always when no report time was recorded, otherwise once
      the interval has elapsed since it. */
  function ShouldGenerateReport(g: Generator, now: int): (due: bool)
    ensures g.lastReportTime.None? ==> due
    ensures g.lastReportTime.Some? ==>
      (due <==> now - g.lastReportTime.value >= g.reportIntervalMinutes * 60)
  {
    if g.lastReportTime.None? then true
    else
      var elapsed := (now - g.lastReportTime.value) as real / 60.0;
      assert elapsed >= g.reportIntervalMinutes as real
             <==> (now - g.lastReportTime.value) as real >= (g.reportIntervalMinutes * 60) as real;
      elapsed >= g.reportIntervalMinutes as real
  }

  function ReportStamp(r: Report): int {
    r.timestamp
  }

  /** `get_latest_report`: the saved report with the latest timestamp, if any. */
  function GetLatestReport(g: Generator): (r: Option<Report>)
    ensures r.None? <==> g.savedReports == []
    ensures r.Some? ==> r.value in g.savedReports
    ensures r.Some? ==> forall x :: x in g.savedReports ==> x.timestamp <= r.value.timestamp
  {
    var newest := Newest(g.savedReports, ReportStamp, 1);
    LatestFacts(g.savedReports, newest);
    if newest == [] then None else Some(newest[0])
  }

  lemma LatestFacts(reports: seq<Report>, newest: seq<Report>)
    requires multiset(newest) <= multiset(reports)
    requires |newest| == if 0 <= 1 < |reports| then 1 else |reports|
    requires forall x, i :: x in reports && x !in newest && 0 <= i < |newest| ==> ReportStamp(x) <= ReportStamp(newest[i])
    ensures newest == [] <==> reports == []
    ensures newest != [] ==> newest[0] in reports
    ensures newest != [] ==> forall x :: x in reports ==> x.timestamp <= newest[0].timestamp
  {
    if newest != [] {
      assert newest[0] in multiset(newest);
      assert |newest| == 1;
      forall x | x in reports ensures x.timestamp <= newest[0].timestamp {
        if x != newest[0] {
          assert x !in newest;
          assert ReportStamp(x) <= ReportStamp(newest[0]);
        }
      }
    }
  }

  // ---------------------------------------------------------------------
  // Properties of a report
  // ---------------------------------------------------------------------

  /** The distribution counts every detection once, under its emotion or under
      `unknown`: its values summed over its keys give the total. */
  lemma DistributionSumsToTotal(ds: seq<DetectionEvent>, alerts: seq<Alert>, start: int, end: int)
    ensures var r := BuildReport(ds, alerts, start, end);
      var labels := EmotionLabels(ds);
      && SumValues(Distinct(labels), r.emotionDistribution) == r.totalDetections
      && (forall e :: Get(r.emotionDistribution, Emotion(e)) == Count(labels, Emotion(e)))
      && Get(r.emotionDistribution, Unknown) == Count(labels, Unknown)
  {
    var labels := EmotionLabels(ds);
    TallyTotal(Distinct(labels), labels);
    forall e ensures Get(Tally(labels), Emotion(e)) == Count(labels, Emotion(e)) {
      TallyGet(labels, Emotion(e));
    }
    TallyGet(labels, Unknown);
  }

  /** Each detection of an employee is among that employee's detections. */
  lemma OwnDetection(ds: seq<DetectionEvent>, d: DetectionEvent)
    requires d in ds && Truthy(d.employeeId)
    ensures |Select(ds, OfEmployee(d.employeeId.value))| > 0
  {
    assert OfEmployee(d.employeeId.value)(d);
    assert d in Select(ds, OfEmployee(d.employeeId.value));
  }

  /** There is one detail entry per distinct truthy employee id, and no other; their
      number is `employees_detected`. */
  lemma DetailsCoverEmployees(ds: seq<DetectionEvent>, alerts: seq<Alert>, start: int, end: int)
    ensures var r := BuildReport(ds, alerts, start, end);
      && (forall k :: k in r.employeeDetails ==> k != "" && exists d :: d in ds && d.employeeId == Some(k))
      && (forall d :: d in ds && Truthy(d.employeeId) ==> d.employeeId.value in r.employeeDetails)
      && |r.employeeDetails.Keys| == r.employeesDetected
      && forall k :: k in r.employeeDetails ==> r.employeeDetails[k] == Detail(Select(ds, OfEmployee(k)))
  {
    DetailKeys(ds);
  }

  /** A report's entry for employee `k` describes exactly `k`'s detections: it counts
      every detection carrying `k`, averages their truthy levels and picks a most
      frequent emotion among them. */
  lemma ReportDetailOf(ds: seq<DetectionEvent>, alerts: seq<Alert>, start: int, end: int, k: string)
    requires k in BuildReport(ds, alerts, start, end).employeeDetails
    ensures var e := BuildReport(ds, alerts, start, end).employeeDetails[k];
      var eds := Select(ds, OfEmployee(k));
      && (forall d :: d in eds <==> d in ds && d.employeeId == Some(k))
      && e.detectionCount == Count(TruthyIds(ds), k) > 0
      && (TruthyLevels(eds) != [] ==> e.avgStressLevel == Mean(TruthyLevels(eds)))
      && (e.predominantEmotion.Emotion? ==>
            forall x :: x in PresentEmotions(eds) ==>
              Count(PresentEmotions(eds), x) <= Count(PresentEmotions(eds), e.predominantEmotion.emotion))
  {
    var eds := Select(ds, OfEmployee(k));
    DetailsCoverEmployees(ds, alerts, start, end);
    forall d ensures d in eds <==> d in ds && d.employeeId == Some(k) {
      if d in ds && d.employeeId == Some(k) {
        assert OfEmployee(k)(d);
      }
    }
    EmployeeCount(ds, k);
  }

  lemma DetailKeys(ds: seq<DetectionEvent>)
    ensures var ids := EmployeesDetected(ds);
      && EmployeeDetails(ids, ds).Keys == (set k | k in ids)
      && |set k | k in ids| == |ids|
  {
    var ids := EmployeesDetected(ds);
    var details := EmployeeDetails(ids, ds);
    forall id | id in ids ensures id in details {
      var d :| d in ds && d.employeeId == Some(id);
      OwnDetection(ds, d);
    }
    DistinctCardinality(ids);
  }

  /** Sum of the detail counts of `ids` (ids without an entry count 0). */
  function DetailCountTotal(ids: seq<string>, details: map<string, EmployeeDetail>): nat {
    if ids == [] then 0
    else
      var last := ids[|ids| - 1];
      DetailCountTotal(ids[..|ids| - 1], details) + (if last in details then details[last].detectionCount else 0)
  }

  /** An employee's detection count is the number of times the id occurs among the
      truthy ids. */
  lemma {:induction false} EmployeeCount(ds: seq<DetectionEvent>, id: string)
    requires id != ""
    ensures |Select(ds, OfEmployee(id))| == Count(TruthyIds(ds), id)
  {
    if ds != [] {
      var init := ds[..|ds| - 1];
      var last := ds[|ds| - 1];
      EmployeeCount(init, id);
      var ids := TruthyIds(init);
      if Truthy(last.employeeId) {
        assert (ids + [last.employeeId.value])[..|ids + [last.employeeId.value]| - 1] == ids;
      }
    }
  }

  lemma {:induction false} DetailCountSums(keys: seq<string>, details: map<string, EmployeeDetail>, ids: seq<string>)
    requires forall k :: k in keys ==> k in details && details[k].detectionCount == Count(ids, k)
    ensures DetailCountTotal(keys, details) == SumCounts(keys, ids)
  {
    if keys != [] {
      var init, last := keys[..|keys| - 1], keys[|keys| - 1];
      assert forall k :: k in init ==> k in keys by {
        assert keys == init + [last];
      }
      DetailCountSums(init, details, ids);
    }
  }

  lemma DetailCountOf(ids: seq<string>, ds: seq<DetectionEvent>, id: string)
    requires id in ids && id != "" && |Select(ds, OfEmployee(id))| > 0
    ensures id in EmployeeDetails(ids, ds)
    ensures EmployeeDetails(ids, ds)[id].detectionCount == Count(TruthyIds(ds), id)
  {
    EmployeeCount(ds, id);
  }

  /** The detail counts add up to the number of detections that carry an employee id,
      so never to more than the total. */
  lemma DetailCountsPartition(ds: seq<DetectionEvent>, alerts: seq<Alert>, start: int, end: int)
    ensures var r := BuildReport(ds, alerts, start, end);
      && DetailCountTotal(EmployeesDetected(ds), r.employeeDetails) == |TruthyIds(ds)|
      && |TruthyIds(ds)| <= r.totalDetections
  {
    var ids := EmployeesDetected(ds);
    var details := EmployeeDetails(ids, ds);
    forall id | id in ids
      ensures id in details && details[id].detectionCount == Count(TruthyIds(ds), id)
    {
      var d :| d in ds && d.employeeId == Some(id);
      OwnDetection(ds, d);
      DetailCountOf(ids, ds, id);
    }
    DetailCountSums(ids, details, TruthyIds(ds));
    SumCountsIsCountIn(ids, TruthyIds(ds));
    CountInBound(TruthyIds(ds), ids);
  }

  /** The report's average reads every present level, 0.0 included, and stays in the
      unit interval when the levels do; each employee's average reads only non-zero
      levels and stays there too. */
  lemma AveragesInUnitInterval(ds: seq<DetectionEvent>, alerts: seq<Alert>, start: int, end: int)
    requires forall d :: d in ds && d.stressLevel.Some? ==> 0.0 <= d.stressLevel.value <= 1.0
    ensures var r := BuildReport(ds, alerts, start, end);
      && 0.0 <= r.avgStressLevel <= 1.0
      && forall k :: k in r.employeeDetails ==> 0.0 <= r.employeeDetails[k].avgStressLevel <= 1.0
  {
    var ids := EmployeesDetected(ds);
    forall k | k in ids && |Select(ds, OfEmployee(k))| > 0
      ensures 0.0 <= Detail(Select(ds, OfEmployee(k))).avgStressLevel <= 1.0
    {
      assert forall d :: d in Select(ds, OfEmployee(k)) ==> d in ds;
    }
  }

  /** A level of 0.0 lowers the report's average but not the employee's: one employee
      seen at levels 0.0 and 1.0 averages 0.5 in the report and 1.0 in the detail. */
  lemma ZeroLevelsWeighOnlyInTheReportAverage()
    ensures var zero := DetectionEvent(None, None, Some("e1"), None, None, None, 0.0, Some(0.0));
      var one := zero.(stressLevel := Some(1.0));
      && ReportAverage([zero, one]) == 0.5
      && Detail([zero, one]).avgStressLevel == 1.0
  {
    var zero := DetectionEvent(None, None, Some("e1"), None, None, None, 0.0, Some(0.0));
    var one := zero.(stressLevel := Some(1.0));
    var ds := [zero, one];
    assert ds[..1] == [zero];
    assert ReportAverage(ds) == 0.5 by {
      assert RecordedLevels(ds) == [0.0, 1.0];
      assert [0.0, 1.0][..1] == [0.0];
      assert SumReals([0.0, 1.0]) == 1.0;
      assert (0.5 * 100.0 + 0.5).Floor == 50;
    }
    assert Detail(ds).avgStressLevel == 1.0 by {
      assert TruthyLevels(ds) == [1.0];
      assert SumReals([1.0]) == 1.0;
    }
  }

  /** `alerts_generated` counts the alerts stamped inside the period: all of them when
      every alert is, none when none is. */
  lemma AlertsInPeriodCounted(ds: seq<DetectionEvent>, alerts: seq<Alert>, start: int, end: int)
    ensures var r := BuildReport(ds, alerts, start, end);
      && ((forall a :: a in alerts ==> start <= a.timestamp <= end) ==> r.alertsGenerated == |alerts|)
      && ((forall a :: a in alerts ==> !(start <= a.timestamp <= end)) ==> r.alertsGenerated == 0)
  {
    var p := InPeriod(start, end);
    if forall a :: a in alerts ==> start <= a.timestamp <= end {
      SelectAll(alerts, p);
    }
    var selected := Select(alerts, p);
    if selected != [] {
      assert selected[0] in selected;
    }
  }

  /** Nothing ever records a report time, so a generator that starts without one finds a
      report due at every later instant, whatever was generated. */
  lemma AlwaysDue(g: Generator, store: Store, now: int, saveOk: bool, later: int)
    requires g.lastReportTime.None?
    ensures ShouldGenerateReport(GenerateReport(g, store, now, saveOk).generator, later)
  {
  }
}
