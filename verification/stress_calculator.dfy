/** The stress calculator: bounded FIFO emotion histories (one global, one per
    employee), the windowed stress index, time-filtered emotion distributions,
    aggregate metrics and the append-only log of threshold crossings.
    The wall clock is the explicit parameter `now` (seconds). */
module StressCalculator {
  import opened Types
  import opened Aggregates

  const DefaultMaxHistory: nat := 100
  const DefaultWindowSize: int := 30
  /** Histories shorter than this yield a stress index of 0. */
  const MinSamples: nat := 5
  const DefaultThreshold: real := 50.0
  const DefaultDistributionHours: int := 24
  const SecondsPerHour: int := 3600

  /** One history sample. */
  datatype Entry = Entry(emotion: EmotionType, timestamp: int, confidence: real)

  datatype Calculator = Calculator(
    maxHistory: nat,
    windowSize: int,
    employeeHistories: map<string, seq<Entry>>,
    globalHistory: seq<Entry>,
    stressEvents: seq<StressEvent>)
  {
    /** Every history respects the deque bound `maxHistory`. */
    predicate Valid() {
      && |globalHistory| <= maxHistory
      && forall id :: id in employeeHistories ==> |employeeHistories[id]| <= maxHistory
    }
  }

  function NewCalculator(maxHistory: nat, windowSize: int): (c: Calculator)
    ensures c.Valid()
    ensures c.maxHistory == maxHistory && c.windowSize == windowSize
    ensures c.globalHistory == [] && c.employeeHistories == map[] && c.stressEvents == []
  {
    Calculator(maxHistory, windowSize, map[], [], [])
  }

  /** Appends to a deque bounded at `cap`: on overflow the oldest entry is evicted. */
  function Push<T>(h: seq<T>, x: T, cap: nat): (r: seq<T>)
    ensures |r| <= cap
    ensures |h| < cap ==> r == h + [x]
    ensures 0 < cap == |h| ==> r == h[1..] + [x]
    ensures cap == 0 ==> r == []
  {
    var grown := h + [x];
    if |grown| <= cap then grown else grown[|grown| - cap..]
  }

  /** The history an employee id has so far, empty when it has none. */
  function EmployeeHistory(c: Calculator, id: string): seq<Entry> {
    if id in c.employeeHistories then c.employeeHistories[id] else []
  }

  /** Records one emotion in the global history and, for a truthy id, in that
      employee's history (created on first use). */
  function AddEmotion(
    c: Calculator, emotion: EmotionType, employeeId: Option<string>,
    confidence: real, now: int): (r: Calculator)
    ensures c.Valid() ==> r.Valid()
    ensures r.globalHistory == Push(c.globalHistory, Entry(emotion, now, confidence), c.maxHistory)
    ensures c.maxHistory > 0 ==> r.globalHistory[|r.globalHistory| - 1] == Entry(emotion, now, confidence)
    ensures Truthy(employeeId) ==>
      && employeeId.value in r.employeeHistories
      && r.employeeHistories[employeeId.value]
         == Push(EmployeeHistory(c, employeeId.value), Entry(emotion, now, confidence), c.maxHistory)
    ensures !Truthy(employeeId) ==> r.employeeHistories == c.employeeHistories
    ensures r.employeeHistories.Keys
            == c.employeeHistories.Keys + (if Truthy(employeeId) then {employeeId.value} else {})
    ensures forall other :: other in c.employeeHistories && Some(other) != employeeId ==>
              r.employeeHistories[other] == c.employeeHistories[other]
    ensures r.stressEvents == c.stressEvents
    ensures r.maxHistory == c.maxHistory && r.windowSize == c.windowSize
  {
    var entry := Entry(emotion, now, confidence);
    var global := Push(c.globalHistory, entry, c.maxHistory);
    if Truthy(employeeId) then
      var id := employeeId.value;
      c.(globalHistory := global,
         employeeHistories := c.employeeHistories[id := Push(EmployeeHistory(c, id), entry, c.maxHistory)])
    else
      c.(globalHistory := global)
  }

  /** The history an index or distribution reads: the employee's when the id is
      truthy and known, the global one otherwise. */
  function SelectHistory(c: Calculator, employeeId: Option<string>): seq<Entry> {
    if Truthy(employeeId) && employeeId.value in c.employeeHistories then
      c.employeeHistories[employeeId.value]
    else
      c.globalHistory
  }

  /** `window or self.window_size`: an absent or zero window means the default. */
  function EffectiveWindow(c: Calculator, window: Option<int>): int {
    if window.None? || window.value == 0 then c.windowSize else window.value
  }

  /** Python's `h[-k:]`. */
  function RecentSlice<T>(h: seq<T>, k: int): (r: seq<T>)
    ensures |r| <= |h| && r == h[|h| - |r|..]
    ensures k > 0 ==> |r| == if k < |h| then k else |h|
    ensures k == 0 ==> r == h
    ensures k < 0 ==> |r| == if |h| + k > 0 then |h| + k else 0
  {
    if k > 0 then h[if k < |h| then |h| - k else 0..]
    else if k == 0 then h
    else h[if -k < |h| then -k else |h|..]
  }

  /** Number of entries whose label is in the negative set. */
  function NegativeCount(s: seq<Entry>): (n: nat)
    ensures n <= |s|
  {
    if s == [] then 0
    else NegativeCount(s[..|s| - 1]) + (if IsNegative(s[|s| - 1].emotion) then 1 else 0)
  }

  /** The stress index of a history over a window: the rounded percentage of
      negative labels among the last `window` entries. */
  function IndexOf(h: seq<Entry>, window: int): (idx: real)
    ensures 0.0 <= idx <= 100.0
    ensures |h| < MinSamples ==> idx == 0.0
  {
    if |h| < MinSamples then 0.0
    else
      var recent := RecentSlice(h, window);
      if |recent| == 0 then 0.0
      else
        var ratio := Percentage(NegativeCount(recent), |recent|);
        Round2Range(ratio, 0, 100);
        Round2(ratio)
  }

  /** `calculate_stress_index(employee_id, window)`. */
  function StressIndex(c: Calculator, employeeId: Option<string>, window: Option<int>): (idx: real)
    ensures 0.0 <= idx <= 100.0
    ensures |SelectHistory(c, employeeId)| < MinSamples ==> idx == 0.0
  {
    IndexOf(SelectHistory(c, employeeId), EffectiveWindow(c, window))
  }

  datatype ThresholdCheck = ThresholdCheck(calculator: Calculator, exceeded: bool)

  /** `check_stress_threshold`: logs one crossing event exactly when the default-window
      index is strictly above `threshold`. */
  function CheckStressThreshold(
    c: Calculator, threshold: real, employeeId: Option<string>, now: int): (r: ThresholdCheck)
    ensures r.exceeded <==> StressIndex(c, employeeId, None) > threshold
    ensures !r.exceeded ==> r.calculator == c
    ensures r.exceeded ==>
      var h := SelectHistory(c, employeeId);
      && |r.calculator.stressEvents| == |c.stressEvents| + 1
      && r.calculator.stressEvents[..|c.stressEvents|] == c.stressEvents
      && r.calculator.stressEvents[|c.stressEvents|]
         == StressEvent(now, StressIndex(c, employeeId, None),
                        if h == [] then Unknown else Emotion(h[|h| - 1].emotion), 1, employeeId)
    ensures r.calculator.(stressEvents := c.stressEvents) == c
  {
    var idx := StressIndex(c, employeeId, None);
    if idx > threshold then
      var h := SelectHistory(c, employeeId);
      var last := if h == [] then Unknown else Emotion(h[|h| - 1].emotion);
      var event := StressEvent(now, idx, last, 1, employeeId);
      ThresholdCheck(c.(stressEvents := c.stressEvents + [event]), true)
    else
      ThresholdCheck(c, false)
  }

  /** The entries stamped at or after `cutoff`, in history order. */
  function RecentEntries(h: seq<Entry>, cutoff: int): (r: seq<Entry>)
    ensures |r| <= |h|
    ensures forall e :: e in r ==> e in h && e.timestamp >= cutoff
    ensures forall e :: e in h && e.timestamp >= cutoff ==> e in r
  {
    if h == [] then []
    else
      var init := RecentEntries(h[..|h| - 1], cutoff);
      var e := h[|h| - 1];
      assert h == h[..|h| - 1] + [e];
      if e.timestamp >= cutoff then init + [e] else init
  }

  /** Each entry stamped at or after the cutoff is kept as often as it occurs, and no other. */
  lemma {:induction false} RecentEntriesMultiplicity(h: seq<Entry>, cutoff: int, e: Entry)
    ensures multiset(RecentEntries(h, cutoff))[e] == if e.timestamp >= cutoff then multiset(h)[e] else 0
  {
    if h != [] {
      var init, last := h[..|h| - 1], h[|h| - 1];
      assert h == init + [last];
      RecentEntriesMultiplicity(init, cutoff, e);
    }
  }

  /** The kept entries stay in history order: filtering a concatenation filters each part. */
  lemma {:induction false} RecentEntriesAppend(a: seq<Entry>, b: seq<Entry>, cutoff: int)
    ensures RecentEntries(a + b, cutoff) == RecentEntries(a, cutoff) + RecentEntries(b, cutoff)
  {
    if b != [] {
      var init, last := b[..|b| - 1], b[|b| - 1];
      assert (a + b)[..|a + b| - 1] == a + init;
      assert (a + b)[|a + b| - 1] == last;
      RecentEntriesAppend(a, init, cutoff);
    } else {
      assert a + b == a;
    }
  }

  function Labels(s: seq<Entry>): (r: seq<EmotionType>)
    ensures |r| == |s|
  {
    seq(|s|, i requires 0 <= i < |s| => s[i].emotion)
  }

  lemma AllEmotionsDistinct()
    ensures NoDuplicates(AllEmotions)
  {
  }

  lemma NegativeEmotionsDistinct()
    ensures NoDuplicates(NegativeEmotions)
  {
  }

  lemma AllEmotionsCover(labels: seq<EmotionType>)
    ensures forall x :: x in labels ==> x in AllEmotions
  {
    forall x | x in labels ensures x in AllEmotions {
      match x
      case Neutral =>
      case Happy =>
      case Sad =>
      case Angry =>
      case Fear =>
      case Surprise =>
      case Disgust =>
      case StressLow =>
      case StressHigh =>
      case Fatigue =>
    }
  }

  /** The entries a distribution over the last `hours` hours counts. */
  function DistributionEntries(c: Calculator, employeeId: Option<string>, hours: int, now: int): seq<Entry> {
    RecentEntries(SelectHistory(c, employeeId), now - hours * SecondsPerHour)
  }

  /** `get_emotion_distribution`: label counts over the selected history's entries
      stamped at or after `now - hours*3600`; the keys are exactly the labels seen. */
  function EmotionDistribution(
    c: Calculator, employeeId: Option<string>, hours: int, now: int): (d: map<EmotionType, nat>)
    ensures d.Keys == set e | e in Labels(DistributionEntries(c, employeeId, hours, now))
    ensures forall e :: Get(d, e) == Count(Labels(DistributionEntries(c, employeeId, hours, now)), e)
    ensures d == map[] <==> DistributionEntries(c, employeeId, hours, now) == []
    ensures SumValues(AllEmotions, d) == |DistributionEntries(c, employeeId, hours, now)|
  {
    var labels := Labels(DistributionEntries(c, employeeId, hours, now));
    DistributionFacts(labels);
    Tally(labels)
  }

  lemma DistributionFacts(labels: seq<EmotionType>)
    ensures forall e :: Get(Tally(labels), e) == Count(labels, e)
    ensures Tally(labels) == map[] <==> labels == []
    ensures SumValues(AllEmotions, Tally(labels)) == |labels|
  {
    forall e ensures Get(Tally(labels), e) == Count(labels, e) {
      TallyGet(labels, e);
    }
    TallyEmpty(labels);
    AllEmotionsDistinct();
    AllEmotionsCover(labels);
    TallySumOverKeys(AllEmotions, labels);
    CountInBound(labels, AllEmotions);
  }

  datatype Metrics = Metrics(
    stressIndex: real,
    totalDetections: nat,
    negativeCount: nat,
    negativePercentage: real,
    predominantEmotion: EmotionType,
    emotionDistribution: map<EmotionType, nat>,
    stressEventsCount: nat)

  /** The employee id each logged crossing carries, in log order. */
  function EventIds(events: seq<StressEvent>): (r: seq<Option<string>>)
    ensures |r| == |events|
    ensures forall i :: 0 <= i < |events| ==> r[i] == events[i].employeeId
  {
    if events == [] then [] else EventIds(events[..|events| - 1]) + [events[|events| - 1].employeeId]
  }

  /** Number of logged crossings for a scope: `None` counts every event, an id counts
      the events logged under exactly that id. */
  function ScopedEventCount(events: seq<StressEvent>, employeeId: Option<string>): (n: nat)
    ensures n <= |events|
    ensures employeeId.None? ==> n == |events|
    ensures employeeId.Some? ==> n == Count(EventIds(events), employeeId)
  {
    if events == [] then 0
    else
      assert EventIds(events)[..|events| - 1] == EventIds(events[..|events| - 1]);
      ScopedEventCount(events[..|events| - 1], employeeId)
      + (if events[|events| - 1].employeeId == employeeId || employeeId.None? then 1 else 0)
  }

  /** `negative / total * 100`, or 0 when nothing was counted. */
  function Percentage(part: nat, total: nat): (p: real)
    ensures total == 0 ==> p == 0.0
    ensures 0 < total && part <= total ==> 0.0 <= p <= 100.0
    ensures 0 < total && part == total ==> p == 100.0
    ensures 0 < total ==> p * (total as real) == (part as real) * 100.0
  {
    if total > 0 then
      assert part <= total ==> part as real / total as real <= 1.0;
      part as real / total as real * 100.0
    else 0.0
  }

  /** `get_metrics` over the default 24-hour distribution. */
  function GetMetrics(c: Calculator, employeeId: Option<string>, now: int): (m: Metrics)
    ensures m.stressIndex == StressIndex(c, employeeId, None)
    ensures m.emotionDistribution == EmotionDistribution(c, employeeId, DefaultDistributionHours, now)
    ensures m.totalDetections == |DistributionEntries(c, employeeId, DefaultDistributionHours, now)|
    ensures m.negativeCount
            == CountIn(Labels(DistributionEntries(c, employeeId, DefaultDistributionHours, now)), NegativeEmotions)
    ensures m.negativeCount <= m.totalDetections
    ensures 0.0 <= m.negativePercentage <= 100.0
    ensures m.totalDetections == 0 ==> m.negativePercentage == 0.0
    ensures m.predominantEmotion == Predominant(Labels(DistributionEntries(c, employeeId, DefaultDistributionHours, now)))
    ensures m.totalDetections > 0 ==>
      m.negativePercentage == (m.negativeCount as real) / (m.totalDetections as real) * 100.0
    ensures employeeId.None? ==> m.stressEventsCount == |c.stressEvents|
    ensures employeeId.Some? ==> m.stressEventsCount == Count(EventIds(c.stressEvents), employeeId)
  {
    var labels := Labels(DistributionEntries(c, employeeId, DefaultDistributionHours, now));
    var dist := EmotionDistribution(c, employeeId, DefaultDistributionHours, now);
    var total := SumValues(AllEmotions, dist);
    var negative := SumValues(NegativeEmotions, dist);
    MetricsFacts(labels);
    var pct := Percentage(negative, total);
    Metrics(
      StressIndex(c, employeeId, None),
      total,
      negative,
      pct,
      Predominant(labels),
      dist,
      ScopedEventCount(c.stressEvents, employeeId))
  }

  /** The metrics' predominant label is a maximal entry of the metrics' own
      distribution, the first inserted among ties, and `Neutral` only by default
      when the distribution is empty. */
  lemma MetricsPredominant(c: Calculator, employeeId: Option<string>, now: int)
    ensures var m := GetMetrics(c, employeeId, now);
      m.emotionDistribution == map[] ==> m.predominantEmotion == Neutral
    ensures var m := GetMetrics(c, employeeId, now);
      m.emotionDistribution != map[] ==>
        && m.predominantEmotion in m.emotionDistribution
        && forall e :: Get(m.emotionDistribution, e) <= Get(m.emotionDistribution, m.predominantEmotion)
    ensures var m := GetMetrics(c, employeeId, now);
      m.emotionDistribution != map[] ==>
        var order := Distinct(Labels(DistributionEntries(c, employeeId, DefaultDistributionHours, now)));
        forall j, k :: 0 <= k < j < |order| && order[j] == m.predominantEmotion ==>
          Get(m.emotionDistribution, order[k]) < Get(m.emotionDistribution, m.predominantEmotion)
  {
    MetricsFacts(Labels(DistributionEntries(c, employeeId, DefaultDistributionHours, now)));
  }

  lemma MetricsFacts(labels: seq<EmotionType>)
    ensures SumValues(NegativeEmotions, Tally(labels)) == CountIn(labels, NegativeEmotions) <= |labels|
    ensures Tally(labels) == map[] <==> labels == []
    ensures labels != [] ==>
      && Predominant(labels) in Tally(labels)
      && forall e :: Get(Tally(labels), e) <= Get(Tally(labels), Predominant(labels))
    ensures labels != [] ==>
      var order := Distinct(labels);
      forall j, k :: 0 <= k < j < |order| && order[j] == Predominant(labels) ==>
        Get(Tally(labels), order[k]) < Get(Tally(labels), Predominant(labels))
  {
    NegativeEmotionsDistinct();
    TallySumOverKeys(NegativeEmotions, labels);
    DistributionFacts(labels);
  }

  /** `max(distribution.items(), key=count)`: the most frequent label, the first
      inserted among equally frequent ones, or `Neutral` when nothing was counted. */
  function Predominant(labels: seq<EmotionType>): (p: EmotionType)
    ensures labels == [] ==> p == Neutral
    ensures labels != [] ==> p in labels && forall e :: Count(labels, e) <= Count(labels, p)
    ensures labels != [] ==>
      var order := Distinct(labels);
      forall j, k :: 0 <= k < j < |order| && order[j] == p ==> Count(labels, order[k]) < Count(labels, p)
  {
    if labels == [] then Neutral
    else
      var p := Mode(labels);
      assert forall e :: Count(labels, e) <= Count(labels, p) by {
        forall e ensures Count(labels, e) <= Count(labels, p) {
          CountBounds(labels, e);
        }
      }
      p
  }

  /** `clear_history`: with a truthy id only that employee's history is emptied;
      otherwise the global history is emptied and every employee history dropped. */
  function ClearHistory(c: Calculator, employeeId: Option<string>): (r: Calculator)
    ensures Truthy(employeeId) ==>
      && r.globalHistory == c.globalHistory
      && r.employeeHistories.Keys == c.employeeHistories.Keys
      && (employeeId.value in c.employeeHistories ==> r.employeeHistories[employeeId.value] == [])
      && forall other :: other in c.employeeHistories && other != employeeId.value ==>
           r.employeeHistories[other] == c.employeeHistories[other]
    ensures !Truthy(employeeId) ==> r.globalHistory == [] && r.employeeHistories == map[]
    ensures r.stressEvents == c.stressEvents
    ensures r.maxHistory == c.maxHistory && r.windowSize == c.windowSize
    ensures c.Valid() ==> r.Valid()
  {
    if Truthy(employeeId) then
      if employeeId.value in c.employeeHistories then
        c.(employeeHistories := c.employeeHistories[employeeId.value := []])
      else
        c
    else
      c.(globalHistory := [], employeeHistories := map[])
  }

  // ---------------------------------------------------------------------
  // Properties of the stress index
  // ---------------------------------------------------------------------

  /** A truthy id with no history, or a falsy id, reads the global history. */
  lemma UnknownEmployeeUsesGlobal(c: Calculator, employeeId: Option<string>, window: Option<int>)
    requires !(Truthy(employeeId) && employeeId.value in c.employeeHistories)
    ensures StressIndex(c, employeeId, window) == StressIndex(c, None, window)
    ensures StressIndex(c, employeeId, Some(0)) == StressIndex(c, employeeId, None)
  {
  }

  /** Relabelling one entry from a non-negative label to a negative one adds one to the count. */
  lemma {:induction false} NegativeCountSwap(s: seq<Entry>, t: seq<Entry>, i: nat)
    requires |s| == |t| && i < |s|
    requires forall j :: 0 <= j < |s| && j != i ==> s[j] == t[j]
    requires !IsNegative(s[i].emotion) && IsNegative(t[i].emotion)
    ensures NegativeCount(t) == NegativeCount(s) + 1
  {
    var n := |s| - 1;
    if i == n {
      assert s[..n] == t[..n];
    } else {
      NegativeCountSwap(s[..n], t[..n], i);
    }
  }

  /** Monotonicity: swapping a non-negative label for a negative one never lowers the index. */
  lemma IndexMonotone(h: seq<Entry>, h': seq<Entry>, i: nat, window: int)
    requires |h| == |h'| && i < |h|
    requires forall j :: 0 <= j < |h| && j != i ==> h[j] == h'[j]
    requires !IsNegative(h[i].emotion) && IsNegative(h'[i].emotion)
    ensures IndexOf(h, window) <= IndexOf(h', window)
  {
    if |h| >= MinSamples {
      var r, r' := RecentSlice(h, window), RecentSlice(h', window);
      RecentSwap(h, h', i, window);
      if |r| > 0 {
        PercentageMonotone(NegativeCount(r), NegativeCount(r'), |r|);
        Round2Monotone(Percentage(NegativeCount(r), |r|), Percentage(NegativeCount(r'), |r|));
      }
    }
  }

  /** The same swap seen through the window: equally long, no fewer negatives. */
  lemma RecentSwap(h: seq<Entry>, h': seq<Entry>, i: nat, window: int)
    requires |h| == |h'| && i < |h|
    requires forall j :: 0 <= j < |h| && j != i ==> h[j] == h'[j]
    requires !IsNegative(h[i].emotion) && IsNegative(h'[i].emotion)
    ensures |RecentSlice(h, window)| == |RecentSlice(h', window)|
    ensures NegativeCount(RecentSlice(h, window)) <= NegativeCount(RecentSlice(h', window))
  {
    var r, r' := RecentSlice(h, window), RecentSlice(h', window);
    assert |r| == |r'|;
    var start := |h| - |r|;
    if |r| > 0 {
      if i >= start {
        NegativeCountSwap(r, r', i - start);
      } else {
        assert r == r';
      }
    }
  }

  lemma PercentageMonotone(a: nat, b: nat, n: nat)
    requires a <= b
    ensures Percentage(a, n) <= Percentage(b, n)
  {
    if n > 0 {
      assert a as real / n as real <= b as real / n as real;
    }
  }

  /** A full window of negative labels reads 100; a window with none reads 0. */
  lemma {:induction false} IndexExtremes(h: seq<Entry>, window: int)
    requires |h| >= MinSamples && window > 0
    ensures (forall j :: 0 <= j < |h| ==> IsNegative(h[j].emotion)) ==> IndexOf(h, window) == 100.0
    ensures (forall j :: 0 <= j < |h| ==> !IsNegative(h[j].emotion)) ==> IndexOf(h, window) == 0.0
  {
    var r := RecentSlice(h, window);
    var start := |h| - |r|;
    assert |r| > 0;
    if forall j :: 0 <= j < |h| ==> IsNegative(h[j].emotion) {
      assert forall j :: 0 <= j < |r| ==> r[j] == h[start + j];
      NegativeCountAll(r, true);
      Round2Whole(100);
    }
    if forall j :: 0 <= j < |h| ==> !IsNegative(h[j].emotion) {
      assert forall j :: 0 <= j < |r| ==> r[j] == h[start + j];
      NegativeCountAll(r, false);
      Round2Whole(0);
    }
  }

  lemma {:induction false} NegativeCountAll(s: seq<Entry>, negative: bool)
    requires forall j :: 0 <= j < |s| ==> IsNegative(s[j].emotion) == negative
    ensures NegativeCount(s) == if negative then |s| else 0
  {
    if s != [] {
      NegativeCountAll(s[..|s| - 1], negative);
    }
  }

  /** 31 samples whose last 30 hold 16 negative labels give an index of 53.33. */
  lemma IndexThirtyOneSamples(h: seq<Entry>)
    requires |h| == 31 && NegativeCount(h[1..]) == 16
    ensures IndexOf(h, DefaultWindowSize) == 53.33
  {
    assert RecentSlice(h, DefaultWindowSize) == h[1..];
    assert Percentage(16, 30) == 16.0 / 30.0 * 100.0;
    assert (16.0 / 30.0 * 100.0 * 100.0 + 0.5).Floor == 5333;
  }

  /** The calculator's state invariant survives every operation. */
  lemma OperationsPreserveValid(
    c: Calculator, emotion: EmotionType, employeeId: Option<string>,
    confidence: real, threshold: real, now: int)
    requires c.Valid()
    ensures AddEmotion(c, emotion, employeeId, confidence, now).Valid()
    ensures CheckStressThreshold(c, threshold, employeeId, now).calculator.Valid()
    ensures ClearHistory(c, employeeId).Valid()
  {
  }
}
