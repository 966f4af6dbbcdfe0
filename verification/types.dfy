/** Shared vocabulary of the stress-monitoring core: the closed label and alert
    enumerations, the label partitions the stress index relies on, and the
    records exchanged between the calculator, the alert manager, the report
    generator and the event store. */
module Types {

  /** Python's `Optional[T]`. */
  datatype Option<+T> = None | Some(value: T) {

    /** The value, or `default` when absent (Python's `x or default` for non-falsy values). */
    function GetOr(default: T): T {
      match this
      case Some(v) => v
      case None => default
    }
  }

  /** Python truthiness of an optional identifier: present and not the empty string. */
  predicate Truthy(id: Option<string>) {
    id.Some? && id.value != ""
  }

  /** The emotion labels the analyzer can emit. */
  datatype EmotionType =
    | Neutral | Happy | Sad | Angry | Fear | Surprise | Disgust
    | StressLow | StressHigh | Fatigue

  datatype AlertType = HighStressProlonged | FatigueDetected | AnomalyDetected

  datatype AlertSeverity = Low | Medium | High

  datatype AlertStatus = Pending | Acknowledged | Resolved

  /** A distribution key or a recorded emotion that may be missing (`'unknown'`). */
  datatype Label = Emotion(emotion: EmotionType) | Unknown

  const AllEmotions: seq<EmotionType> :=
    [Neutral, Happy, Sad, Angry, Fear, Surprise, Disgust, StressLow, StressHigh, Fatigue]

  const AllAlertTypes: seq<AlertType> := [HighStressProlonged, FatigueDetected, AnomalyDetected]
  const AllSeverities: seq<AlertSeverity> := [Low, Medium, High]
  const AllStatuses: seq<AlertStatus> := [Pending, Acknowledged, Resolved]

  /** The labels counted by the stress index, in declaration order. */
  const NegativeEmotions: seq<EmotionType> := [Angry, Fear, Sad, Disgust, StressHigh, Fatigue]
  const NeutralEmotions: seq<EmotionType> := [Neutral]
  const PositiveEmotions: seq<EmotionType> := [Happy, Surprise]

  predicate IsNegative(e: EmotionType) {
    e in NegativeEmotions
  }

  /** The string value each label carries in the program (`EmotionType.X.value`). */
  function EmotionValue(e: EmotionType): string {
    match e
    case Neutral => "neutral"
    case Happy => "happy"
    case Sad => "sad"
    case Angry => "angry"
    case Fear => "fear"
    case Surprise => "surprise"
    case Disgust => "disgust"
    case StressLow => "stress_low"
    case StressHigh => "stress_high"
    case Fatigue => "fatigue"
  }

  /** The Spanish display label of every emotion. */
  function SpanishLabel(e: EmotionType): (text: string)
    ensures |text| > 0
  {
    match e
    case Neutral => "Neutral"
    case Happy => "Alegría"
    case Sad => "Tristeza"
    case Angry => "Enojo"
    case Fear => "Miedo"
    case Surprise => "Sorpresa"
    case Disgust => "Disgusto"
    case StressLow => "Estrés Bajo"
    case StressHigh => "Estrés Alto"
    case Fatigue => "Fatiga"
  }

  /** The BGR display colour of every emotion. */
  function EmotionColor(e: EmotionType): (bgr: (int, int, int))
    ensures 0 <= bgr.0 <= 255 && 0 <= bgr.1 <= 255 && 0 <= bgr.2 <= 255
  {
    match e
    case Neutral => (200, 200, 200)
    case Happy => (0, 255, 0)
    case Sad => (255, 0, 0)
    case Angry => (0, 0, 255)
    case Fear => (0, 165, 255)
    case Surprise => (255, 0, 255)
    case Disgust => (0, 255, 0)
    case StressLow => (255, 255, 0)
    case StressHigh => (0, 0, 255)
    case Fatigue => (128, 128, 128)
  }

  /** A detected face box in pixel coordinates. */
  datatype FaceRegion = FaceRegion(x: int, y: int, width: int, height: int, confidence: real)
  {
    function Bbox(): (int, int, int, int) {
      (x, y, width, height)
    }
  }

  /** Centre of a face box, with Python's floor division by two: each coordinate is the
      box's origin plus half its extent, rounded down. */
  function Center(f: FaceRegion): (c: (int, int))
    ensures 2 * (c.0 - f.x) <= f.width < 2 * (c.0 - f.x) + 2
    ensures 2 * (c.1 - f.y) <= f.height < 2 * (c.1 - f.y) + 2
  {
    // for a positive divisor Dafny's Euclidean division is floor division
    (f.x + f.width / 2, f.y + f.height / 2)
  }

  /** The outcome of analysing one face. */
  datatype EmotionResult = EmotionResult(
    emotion: EmotionType,
    confidence: real,
    probabilities: map<string, real>,
    timestamp: int)

  /** A threshold crossing recorded by the stress calculator. */
  datatype StressEvent = StressEvent(
    timestamp: int,
    stressIndex: real,
    emotion: Label,
    personCount: nat,
    employeeId: Option<string>)

  /** An alert as built by the alert manager and stored by the event store. */
  datatype Alert = Alert(
    alertId: int,
    employeeId: Option<string>,
    alertType: AlertType,
    severity: AlertSeverity,
    stressLevel: real,
    timestamp: int,
    status: AlertStatus,
    message: string,
    resolvedAt: Option<int>,
    resolvedBy: Option<string>)

  /** Builds an alert with the record's defaults for the lifecycle fields. */
  function NewAlert(
    alertId: int, employeeId: Option<string>, alertType: AlertType,
    severity: AlertSeverity, stressLevel: real, timestamp: int, message: string): (a: Alert)
    ensures a.status == Pending && a.resolvedAt == None && a.resolvedBy == None
    ensures a.alertId == alertId && a.employeeId == employeeId && a.alertType == alertType
    ensures a.severity == severity && a.stressLevel == stressLevel && a.timestamp == timestamp
    ensures a.message == message
  {
    Alert(alertId, employeeId, alertType, severity, stressLevel, timestamp, Pending, message, None, None)
  }

  /** A detection row; the store fills `detectionId` and a missing `timestamp`. */
  datatype DetectionEvent = DetectionEvent(
    detectionId: Option<nat>,
    sessionId: Option<string>,
    employeeId: Option<string>,
    trackId: Option<int>,
    timestamp: Option<int>,
    emotion: Option<EmotionType>,
    confidence: real,
    stressLevel: Option<real>)

  /** The `stress_level` column of `ds`, one entry per detection. */
  function StressLevels(ds: seq<DetectionEvent>): (r: seq<Option<real>>)
    ensures |r| == |ds|
    ensures forall i :: 0 <= i < |ds| ==> r[i] == ds[i].stressLevel
  {
    if ds == [] then [] else StressLevels(ds[..|ds| - 1]) + [ds[|ds| - 1].stressLevel]
  }

  /** The stress levels of `ds` that are present (`is not None`), in order. */
  function RecordedLevels(ds: seq<DetectionEvent>): (r: seq<real>)
    ensures |r| <= |ds|
    ensures forall x :: x in r ==> exists d :: d in ds && d.stressLevel == Some(x)
    ensures forall d :: d in ds && d.stressLevel.Some? ==> d.stressLevel.value in r
    ensures r == [] <==> forall d :: d in ds ==> d.stressLevel.None?
  {
    if ds == [] then []
    else
      var init := ds[..|ds| - 1];
      var last := ds[|ds| - 1];
      assert ds == init + [last];
      if last.stressLevel.Some? then RecordedLevels(init) + [last.stressLevel.value] else RecordedLevels(init)
  }

  /** The stress levels of `ds` that are truthy: present and non-zero. */
  function TruthyLevels(ds: seq<DetectionEvent>): (r: seq<real>)
    ensures |r| <= |ds|
    ensures forall x :: x in r ==> x != 0.0 && exists d :: d in ds && d.stressLevel == Some(x)
    ensures forall d :: d in ds && d.stressLevel.Some? && d.stressLevel.value != 0.0 ==> d.stressLevel.value in r
    ensures (forall i :: 0 <= i < |ds| ==> ds[i].stressLevel.Some? && ds[i].stressLevel.value != 0.0) ==>
      |r| == |ds| && forall i :: 0 <= i < |r| ==> r[i] == ds[i].stressLevel.value
  {
    if ds == [] then []
    else
      var init := ds[..|ds| - 1];
      var last := ds[|ds| - 1];
      assert ds == init + [last];
      if last.stressLevel.Some? && last.stressLevel.value != 0.0 then TruthyLevels(init) + [last.stressLevel.value]
      else TruthyLevels(init)
  }

  /** Each present level is kept as many times as detections carry it. */
  lemma {:induction false} RecordedLevelsMultiplicity(ds: seq<DetectionEvent>, x: real)
    ensures multiset(RecordedLevels(ds))[x] == multiset(StressLevels(ds))[Some(x)]
  {
    if ds != [] {
      var init, last := ds[..|ds| - 1], ds[|ds| - 1];
      assert StressLevels(ds) == StressLevels(init) + [last.stressLevel];
      RecordedLevelsMultiplicity(init, x);
    }
  }

  /** Each non-zero level is kept as many times as detections carry it, and 0.0 never. */
  lemma {:induction false} TruthyLevelsMultiplicity(ds: seq<DetectionEvent>, x: real)
    ensures multiset(TruthyLevels(ds))[x] == if x == 0.0 then 0 else multiset(StressLevels(ds))[Some(x)]
  {
    if ds != [] {
      var init, last := ds[..|ds| - 1], ds[|ds| - 1];
      assert StressLevels(ds) == StressLevels(init) + [last.stressLevel];
      TruthyLevelsMultiplicity(init, x);
    }
  }

  /** The present levels keep the detections' order: reading a concatenation reads each part in turn. */
  lemma {:induction false} RecordedLevelsAppend(a: seq<DetectionEvent>, b: seq<DetectionEvent>)
    ensures RecordedLevels(a + b) == RecordedLevels(a) + RecordedLevels(b)
  {
    if b != [] {
      var init, last := b[..|b| - 1], b[|b| - 1];
      assert (a + b)[..|a + b| - 1] == a + init;
      assert (a + b)[|a + b| - 1] == last;
      RecordedLevelsAppend(a, init);
    } else {
      assert a + b == a;
    }
  }

  /** The truthy levels keep the detections' order as well. */
  lemma {:induction false} TruthyLevelsAppend(a: seq<DetectionEvent>, b: seq<DetectionEvent>)
    ensures TruthyLevels(a + b) == TruthyLevels(a) + TruthyLevels(b)
  {
    if b != [] {
      var init, last := b[..|b| - 1], b[|b| - 1];
      assert (a + b)[..|a + b| - 1] == a + init;
      assert (a + b)[|a + b| - 1] == last;
      TruthyLevelsAppend(a, init);
    } else {
      assert a + b == a;
    }
  }

  /** Decimal rendering of an integer, as an f-string prints it. */
  function IntToString(n: int): (s: string)
    ensures |s| > 0
    ensures n >= 0 ==> s[0] != '-'
    ensures n < 0 ==> s[0] == '-'
    decreases if n < 0 then 1 - n else n
  {
    if n < 0 then "-" + IntToString(-n)
    else if n < 10 then [DigitChar(n)]
    else IntToString(n / 10) + [DigitChar(n % 10)]
  }

  function DigitChar(d: int): char
    requires 0 <= d < 10
  {
    "0123456789"[d]
  }

  // ---------------------------------------------------------------------
  // Facts about the label partitions and the closed enumerations
  // ---------------------------------------------------------------------

  lemma NegativeSetExact(e: EmotionType)
    ensures IsNegative(e) <==> e == Angry || e == Fear || e == Sad || e == Disgust || e == StressHigh || e == Fatigue
  {
  }

  lemma LabelSetsDisjoint(e: EmotionType)
    ensures !(e in NegativeEmotions && e in NeutralEmotions)
    ensures !(e in NegativeEmotions && e in PositiveEmotions)
    ensures !(e in NeutralEmotions && e in PositiveEmotions)
    ensures e == StressLow <==> e !in NegativeEmotions + NeutralEmotions + PositiveEmotions
  {
  }

  lemma EnumerationsClosed(e: EmotionType, t: AlertType, s: AlertSeverity, st: AlertStatus)
    ensures e in AllEmotions && t in AllAlertTypes && s in AllSeverities && st in AllStatuses
    ensures |set x | x in AllAlertTypes| == 3 && |set x | x in AllSeverities| == 3
    ensures |set x | x in AllStatuses| == 3
  {
    assert (set x | x in AllAlertTypes) == {HighStressProlonged, FatigueDetected, AnomalyDetected};
    assert (set x | x in AllSeverities) == {Low, Medium, High};
    assert (set x | x in AllStatuses) == {Pending, Acknowledged, Resolved};
  }

  /** No two emotions share a Spanish label, so the display map is injective. */
  lemma SpanishLabelsDistinct(e: EmotionType, f: EmotionType)
    ensures SpanishLabel(e) == SpanishLabel(f) <==> e == f
  {
  }

  lemma EmotionValuesDistinct(e: EmotionType, f: EmotionType)
    ensures EmotionValue(e) == EmotionValue(f) <==> e == f
  {
  }
}
