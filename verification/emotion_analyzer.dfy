/** The emotion analyzer around the external face-emotion classifier: the
    mapping of the classifier's dominant label and probabilities onto the
    program's label set, the neutral fallback when the classifier fails, and
    the padded face crops cut out of a frame with several faces.

    The classifier itself is not modelled: its answer for one crop is a
    parameter (`None` when it raises). */
module EmotionAnalyzer {
  import opened Types
  import opened Ordering

  /** Pixels added on every side of a face box before cropping. */
  const Padding: int := 10

  /** Stress score above which the label is `StressHigh`; above the low one it is `StressLow`. */
  const StressHighScore: real := 0.6
  const StressLowScore: real := 0.4
  /** Fatigue needs a fatigue score above this and a neutral probability above `FatigueNeutral`. */
  const FatigueScoreThreshold: real := 0.7
  const FatigueNeutral: real := 0.5

  /** The seven labels the classifier names, whose names are their program values. */
  const ClassifierEmotions: seq<EmotionType> := [Angry, Fear, Sad, Disgust, Happy, Surprise, Neutral]

  /** The labels only the score rules can produce. */
  const CompositeEmotions: seq<EmotionType> := [StressLow, StressHigh, Fatigue]

  // ---------------------------------------------------------------------------
  // Label mapping
  // ---------------------------------------------------------------------------

  /** The direct translation of a classifier label; any other name becomes `Neutral`. */
  function BaseEmotion(name: string): (e: EmotionType)
    ensures e in ClassifierEmotions
    ensures e != Neutral ==> EmotionValue(e) == name
    ensures (forall f :: f in ClassifierEmotions ==> EmotionValue(f) != name) ==> e == Neutral
  {
    if name == "angry" then Angry
    else if name == "fear" then Fear
    else if name == "sad" then Sad
    else if name == "disgust" then Disgust
    else if name == "happy" then Happy
    else if name == "surprise" then Surprise
    else Neutral
  }

  /** Every classifier label is translated to the program label with the same name. */
  lemma BaseEmotionRoundTrip(f: EmotionType)
    requires f in ClassifierEmotions
    ensures BaseEmotion(EmotionValue(f)) == f
  {
  }

  /** A program-only label name fed back as a classifier label falls back to `Neutral`. */
  lemma CompositeNamesFallBack(f: EmotionType)
    requires f in CompositeEmotions
    ensures BaseEmotion(EmotionValue(f)) == Neutral
  {
    match f
    case StressLow => assert "stress_low"[1] == 't';
    case StressHigh => assert "stress_high"[1] == 't';
    case Fatigue => assert "fatigue"[1] == 'a';
  }

  /** `probabilities.get(key, 0)`. */
  function Prob(p: map<string, real>, key: string): real {
    if key in p then p[key] else 0.0
  }

  function StressScore(p: map<string, real>): real {
    Prob(p, "angry") * 0.4 + Prob(p, "fear") * 0.3 + Prob(p, "sad") * 0.3
  }

  function FatigueScore(p: map<string, real>): real {
    Prob(p, "neutral") * 0.6 + Prob(p, "sad") * 0.4
  }

  predicate FatigueSignal(p: map<string, real>) {
    FatigueScore(p) > FatigueScoreThreshold && Prob(p, "neutral") > FatigueNeutral
  }

  /** The program label for a dominant classifier label and its probabilities:
      the stress rules first, then fatigue, then the direct translation. */
  function MapEmotion(name: string, p: map<string, real>): (e: EmotionType)
    ensures e == StressHigh <==> StressScore(p) > StressHighScore
    ensures e == StressLow <==> StressLowScore < StressScore(p) <= StressHighScore
    ensures e == Fatigue <==> StressScore(p) <= StressLowScore && FatigueSignal(p)
    ensures e !in CompositeEmotions ==> e == BaseEmotion(name)
  {
    if StressScore(p) > StressHighScore then StressHigh
    else if StressScore(p) > StressLowScore then StressLow
    else if FatigueSignal(p) then Fatigue
    else BaseEmotion(name)
  }

  /** The dominant label decides only when neither the stress nor the fatigue rule fires;
      otherwise two different dominant labels give the same result. */
  lemma NameMattersOnlyWithoutSignals(a: string, b: string, p: map<string, real>)
    ensures MapEmotion(a, p) != MapEmotion(b, p) ==>
      StressScore(p) <= StressLowScore && !FatigueSignal(p) && BaseEmotion(a) != BaseEmotion(b)
  {
  }

  /** The probabilities of the seven classifier labels form a (sub-)distribution. */
  predicate Distribution(p: map<string, real>) {
    && (forall k :: k in p ==> p[k] >= 0.0)
    && Prob(p, "angry") + Prob(p, "fear") + Prob(p, "sad") + Prob(p, "disgust")
       + Prob(p, "happy") + Prob(p, "surprise") + Prob(p, "neutral") <= 1.0
  }

  /** With the probabilities of a distribution the stress score never exceeds 0.4 and the
      fatigue score never exceeds 0.6, so none of the composite labels is produced and the
      result is the direct translation of the dominant label. */
  lemma DistributionYieldsBase(name: string, p: map<string, real>)
    requires Distribution(p)
    ensures StressScore(p) <= StressLowScore
    ensures FatigueScore(p) <= 0.6
    ensures MapEmotion(name, p) == BaseEmotion(name)
  {
    var a, f, s, n := Prob(p, "angry"), Prob(p, "fear"), Prob(p, "sad"), Prob(p, "neutral");
    assert a >= 0.0 && f >= 0.0 && s >= 0.0 && n >= 0.0;
    assert Prob(p, "disgust") >= 0.0 && Prob(p, "happy") >= 0.0 && Prob(p, "surprise") >= 0.0;
    assert a + f + s <= 1.0 && n + s <= 1.0;
  }

  /** Outside a distribution every rule is reachable, and the stress rule wins over fatigue. */
  lemma RulesReachable()
    ensures MapEmotion("happy", map["angry" := 2.0]) == StressHigh
    ensures MapEmotion("happy", map["angry" := 1.25]) == StressLow
    ensures MapEmotion("happy", map["neutral" := 1.0, "sad" := 0.5]) == Fatigue
    ensures MapEmotion("happy", map["angry" := 2.0, "neutral" := 1.0, "sad" := 0.5]) == StressHigh
  {
    var p := map["angry" := 2.0];
    assert Prob(p, "fear") == 0.0 && Prob(p, "sad") == 0.0;
    var q := map["angry" := 1.25];
    assert Prob(q, "fear") == 0.0 && Prob(q, "sad") == 0.0;
    var r := map["neutral" := 1.0, "sad" := 0.5];
    assert Prob(r, "angry") == 0.0 && Prob(r, "fear") == 0.0 && Prob(r, "sad") == 0.5;
    var t := map["angry" := 2.0, "neutral" := 1.0, "sad" := 0.5];
    assert Prob(t, "angry") == 2.0 && Prob(t, "sad") == 0.5;
  }

  // ---------------------------------------------------------------------------
  // One face
  // ---------------------------------------------------------------------------

  /** What the classifier reports for one crop: percentages per label and the
      dominant label, if it names one. */
  datatype Analysis = Analysis(emotions: map<string, real>, dominant: Option<string>)

  /** The dominant label, `"neutral"` when the classifier names none. */
  function Dominant(a: Analysis): string {
    a.dominant.GetOr("neutral")
  }

  /** Percentages rescaled to probabilities. */
  function ToProbabilities(emotions: map<string, real>): (p: map<string, real>)
    ensures p.Keys == emotions.Keys
    ensures forall k :: k in p ==> p[k] * 100.0 == emotions[k]
  {
    map k | k in emotions :: emotions[k] / 100.0
  }

  /** The result for one crop at time `now`; `analysis == None` is a classifier failure,
      answered with a neutral result of confidence 0 and no probabilities. */
  function AnalyzeFace(analysis: Option<Analysis>, now: int): (r: EmotionResult)
    ensures r.timestamp == now
    ensures analysis.None? ==> r.emotion == Neutral && r.confidence == 0.0 && r.probabilities == map[]
    ensures analysis.Some? ==>
      && r.probabilities.Keys == analysis.value.emotions.Keys
      && (forall k :: k in r.probabilities ==> r.probabilities[k] * 100.0 == analysis.value.emotions[k])
      && r.confidence == Prob(r.probabilities, Dominant(analysis.value))
      && r.emotion == MapEmotion(Dominant(analysis.value), r.probabilities)
  {
    match analysis
    case None => EmotionResult(Neutral, 0.0, map[], now)
    case Some(a) =>
      var p := ToProbabilities(a.emotions);
      var confidence := Prob(a.emotions, Dominant(a)) / 100.0;
      EmotionResult(MapEmotion(Dominant(a), p), confidence, p, now)
  }

  /** Percentages between 0 and 100, those of the seven labels summing to at most 100. */
  predicate Percentages(emotions: map<string, real>) {
    && (forall k :: k in emotions ==> 0.0 <= emotions[k] <= 100.0)
    && Prob(emotions, "angry") + Prob(emotions, "fear") + Prob(emotions, "sad")
       + Prob(emotions, "disgust") + Prob(emotions, "happy") + Prob(emotions, "surprise")
       + Prob(emotions, "neutral") <= 100.0
  }

  lemma ScaledProb(emotions: map<string, real>, key: string)
    ensures Prob(ToProbabilities(emotions), key) * 100.0 == Prob(emotions, key)
  {
  }

  /** For classifier percentages the result is a distribution whose confidence is a
      probability, and its label is the direct translation of the dominant label: the
      analyzer never reports a stress or fatigue label for such input. */
  lemma PercentagesGiveBaseLabel(a: Analysis, now: int)
    requires Percentages(a.emotions)
    ensures Distribution(AnalyzeFace(Some(a), now).probabilities)
    ensures 0.0 <= AnalyzeFace(Some(a), now).confidence <= 1.0
    ensures AnalyzeFace(Some(a), now).emotion == BaseEmotion(Dominant(a))
  {
    var p := ToProbabilities(a.emotions);
    ScaledProb(a.emotions, "angry");
    ScaledProb(a.emotions, "fear");
    ScaledProb(a.emotions, "sad");
    ScaledProb(a.emotions, "disgust");
    ScaledProb(a.emotions, "happy");
    ScaledProb(a.emotions, "surprise");
    ScaledProb(a.emotions, "neutral");
    ScaledProb(a.emotions, Dominant(a));
    assert forall k :: k in p ==> p[k] >= 0.0;
    var sum := Prob(p, "angry") + Prob(p, "fear") + Prob(p, "sad") + Prob(p, "disgust")
      + Prob(p, "happy") + Prob(p, "surprise") + Prob(p, "neutral");
    assert sum * 100.0 <= 100.0;
    assert Distribution(p);
    DistributionYieldsBase(Dominant(a), p);
  }

  // ---------------------------------------------------------------------------
  // Cropping
  // ---------------------------------------------------------------------------

  /** A crop request `frame[y1:y2, x1:x2]`. */
  datatype Roi = Roi(x1: int, y1: int, x2: int, y2: int)

  /** Where a slice bound lands on an axis of length `n`: a negative index counts from
      the end, and the result is clamped to `[0, n]`. */
  function SliceIndex(n: nat, i: int): (j: int)
    ensures 0 <= j <= n
    ensures 0 <= i <= n ==> j == i
    ensures i > n ==> j == n
    ensures i < 0 ==> j == if i + n < 0 then 0 else i + n
  {
    if i < 0 then (if i + n < 0 then 0 else i + n)
    else if i > n then n
    else i
  }

  /** Whether index `c` of an axis of length `n` lies in the slice `[start:stop]`. */
  predicate InSlice(n: nat, start: int, stop: int, c: int) {
    SliceIndex(n, start) <= c < SliceIndex(n, stop)
  }

  /** The number of indices the slice `[start:stop]` takes from an axis of length `n`. */
  function SliceLength(n: nat, start: int, stop: int): (len: nat)
    ensures len == 0 <==> forall c :: !InSlice(n, start, stop, c)
  {
    var a, b := SliceIndex(n, start), SliceIndex(n, stop);
    if a < b then assert InSlice(n, start, stop, a); b - a else 0
  }

  /** Column `c` lies in the padded box and in the frame. */
  predicate InPaddedColumns(f: FaceRegion, width: nat, c: int) {
    0 <= c < width && f.x - Padding <= c < f.x + f.width + Padding
  }

  predicate InPaddedRows(f: FaceRegion, height: nat, c: int) {
    0 <= c < height && f.y - Padding <= c < f.y + f.height + Padding
  }

  /** The crop bounds as the analyzer computes them: the box widened by the padding,
      the lower bounds raised to 0 and the upper bounds lowered to the frame size. The
      crop is the padded box's part of the frame unless an upper bound comes out
      negative, in which case the slice counts it from the far edge. */
  function PaddedRoiAsWritten(f: FaceRegion, width: nat, height: nat): (roi: Roi)
    ensures 0 <= roi.x1 && 0 <= roi.y1 && roi.x2 <= width && roi.y2 <= height
    ensures f.x + f.width + Padding >= 0 ==>
      forall c :: InSlice(width, roi.x1, roi.x2, c) <==> InPaddedColumns(f, width, c)
    ensures f.y + f.height + Padding >= 0 ==>
      forall c :: InSlice(height, roi.y1, roi.y2, c) <==> InPaddedRows(f, height, c)
    ensures roi.x2 < 0 ==> forall c :: InSlice(width, roi.x1, roi.x2, c) <==> roi.x1 <= c < width + roi.x2
    ensures roi.y2 < 0 ==> forall c :: InSlice(height, roi.y1, roi.y2, c) <==> roi.y1 <= c < height + roi.y2
  {
    Roi(
      if f.x - Padding > 0 then f.x - Padding else 0,
      if f.y - Padding > 0 then f.y - Padding else 0,
      if width < f.x + f.width + Padding then width else f.x + f.width + Padding,
      if height < f.y + f.height + Padding then height else f.y + f.height + Padding)
  }

  /** A box entirely more than the padding to the left of a 100-pixel-wide frame: the
      upper column bound comes out negative, the slice counts it from the right edge, and
      the crop takes 80 columns although the padded box meets no column of the frame. */
  lemma AsWrittenCropsOutsideTheBox()
    ensures var f := FaceRegion(-50, 10, 20, 20, 1.0);
      var roi := PaddedRoiAsWritten(f, 100, 100);
      && roi.x2 == -20
      && SliceLength(100, roi.x1, roi.x2) == 80
      && (forall c :: !InPaddedColumns(f, 100, c))
      && InSlice(100, roi.x1, roi.x2, 0)
  {
    var f := FaceRegion(-50, 10, 20, 20, 1.0);
    var roi := PaddedRoiAsWritten(f, 100, 100);
    assert roi == Roi(0, 0, -20, 40);
    assert SliceIndex(100, -20) == 80;
  }

  /** The crop bounds with the upper bounds also raised to 0, so that a slice bound is
      never read from the far edge. */
  function PaddedRoi(f: FaceRegion, width: nat, height: nat): (roi: Roi)
    ensures 0 <= roi.x1 && 0 <= roi.x2 <= width && 0 <= roi.y1 && 0 <= roi.y2 <= height
    ensures forall c :: InSlice(width, roi.x1, roi.x2, c) <==> InPaddedColumns(f, width, c)
    ensures forall c :: InSlice(height, roi.y1, roi.y2, c) <==> InPaddedRows(f, height, c)
  {
    var w := PaddedRoiAsWritten(f, width, height);
    Roi(w.x1, w.y1, if w.x2 < 0 then 0 else w.x2, if w.y2 < 0 then 0 else w.y2)
  }

  /** The corrected bounds agree with the written ones whenever the padded box reaches
      past the left and the top edge of the frame. */
  lemma PaddedRoiAgrees(f: FaceRegion, width: nat, height: nat)
    requires f.x + f.width + Padding >= 0 && f.y + f.height + Padding >= 0
    ensures PaddedRoi(f, width, height) == PaddedRoiAsWritten(f, width, height)
  {
  }

  /** `face_roi.size > 0` for a frame with colour channels. */
  predicate NonEmptyCrop(roi: Roi, width: nat, height: nat) {
    SliceLength(width, roi.x1, roi.x2) > 0 && SliceLength(height, roi.y1, roi.y2) > 0
  }

  /** A crop is analysed exactly when the padded box meets the frame. */
  lemma CropNonEmptyIff(f: FaceRegion, width: nat, height: nat)
    ensures NonEmptyCrop(PaddedRoi(f, width, height), width, height) <==>
      (exists c :: InPaddedColumns(f, width, c)) && (exists c :: InPaddedRows(f, height, c))
  {
    var roi := PaddedRoi(f, width, height);
    if exists c :: InPaddedColumns(f, width, c) {
      var c :| InPaddedColumns(f, width, c);
      assert InSlice(width, roi.x1, roi.x2, c);
    }
    if exists c :: InPaddedRows(f, height, c) {
      var c :| InPaddedRows(f, height, c);
      assert InSlice(height, roi.y1, roi.y2, c);
    }
  }

  // ---------------------------------------------------------------------------
  // Several faces
  // ---------------------------------------------------------------------------

  /** The crop bounds a face gets, as the analyzer computes them. */
  function AsWrittenCrop(width: nat, height: nat): FaceRegion -> Roi {
    f => PaddedRoiAsWritten(f, width, height)
  }

  /** The crop bounds a face gets with the corrected upper bounds. */
  function CorrectedCrop(width: nat, height: nat): FaceRegion -> Roi {
    f => PaddedRoi(f, width, height)
  }

  /** The faces `analyze_multiple_faces` analyses: those whose crop is non-empty. */
  function KeepFilter(crop: FaceRegion -> Roi, width: nat, height: nat): FaceRegion -> bool {
    f => NonEmptyCrop(crop(f), width, height)
  }

  /** The loop of `analyze_multiple_faces` with the crop bounds given by `crop`: the
      i-th result is the analysis of the i-th face whose crop is non-empty, and there is
      one result per such face. */
  function AnalyzeCrops(
    regions: seq<FaceRegion>, width: nat, height: nat, crop: FaceRegion -> Roi,
    classify: Roi -> Option<Analysis>, now: int): (results: seq<EmotionResult>)
    ensures var kept := Select(regions, KeepFilter(crop, width, height));
      && |results| == |kept|
      && forall i :: 0 <= i < |kept| ==> results[i] == AnalyzeFace(classify(crop(kept[i])), now)
    decreases |regions|
  {
    if regions == [] then []
    else
      var init, f := regions[..|regions| - 1], regions[|regions| - 1];
      var rest := AnalyzeCrops(init, width, height, crop, classify, now);
      if NonEmptyCrop(crop(f), width, height) then rest + [AnalyzeFace(classify(crop(f)), now)]
      else rest
  }

  /** `analyze_multiple_faces` as written: one result per face whose crop, cut with the
      written bounds, is non-empty, in the order of the faces. */
  function AnalyzeMultipleFaces(
    regions: seq<FaceRegion>, width: nat, height: nat,
    classify: Roi -> Option<Analysis>, now: int): (results: seq<EmotionResult>)
    ensures var kept := Select(regions, KeepFilter(AsWrittenCrop(width, height), width, height));
      && |results| == |kept|
      && forall i :: 0 <= i < |kept| ==>
           results[i] == AnalyzeFace(classify(PaddedRoiAsWritten(kept[i], width, height)), now)
  {
    AnalyzeCrops(regions, width, height, AsWrittenCrop(width, height), classify, now)
  }

  /** `analyze_multiple_faces` with the corrected bounds: one result per face whose padded
      box meets the frame, in the order of the faces, each the analysis of exactly the
      box's pixels inside the frame. */
  function AnalyzeMultipleFacesCorrected(
    regions: seq<FaceRegion>, width: nat, height: nat,
    classify: Roi -> Option<Analysis>, now: int): (results: seq<EmotionResult>)
    ensures var kept := Select(regions, KeepFilter(CorrectedCrop(width, height), width, height));
      && |results| == |kept|
      && forall i :: 0 <= i < |kept| ==>
           results[i] == AnalyzeFace(classify(PaddedRoi(kept[i], width, height)), now)
  {
    AnalyzeCrops(regions, width, height, CorrectedCrop(width, height), classify, now)
  }

  /** The two agree on every frame in which each padded box reaches past the left and
      the top edge. */
  lemma CorrectedAgrees(
    regions: seq<FaceRegion>, width: nat, height: nat, classify: Roi -> Option<Analysis>, now: int)
    requires forall f :: f in regions ==> f.x + f.width + Padding >= 0 && f.y + f.height + Padding >= 0
    ensures AnalyzeMultipleFacesCorrected(regions, width, height, classify, now)
         == AnalyzeMultipleFaces(regions, width, height, classify, now)
  {
    var written, corrected := AsWrittenCrop(width, height), CorrectedCrop(width, height);
    var p, q := KeepFilter(written, width, height), KeepFilter(corrected, width, height);
    forall i | 0 <= i < |regions| ensures p(regions[i]) == q(regions[i]) {
      PaddedRoiAgrees(regions[i], width, height);
    }
    SelectAgrees(regions, p, q);
    var kept := Select(regions, p);
    forall i | 0 <= i < |kept|
      ensures PaddedRoi(kept[i], width, height) == PaddedRoiAsWritten(kept[i], width, height)
    {
      PaddedRoiAgrees(kept[i], width, height);
    }
  }

  /** The face of `AsWrittenCropsOutsideTheBox`, alone in a 100 by 100 frame: the
      analyzer returns a result for it, the corrected analyzer none. */
  lemma AsWrittenAnalysesAFaceOutsideTheFrame(classify: Roi -> Option<Analysis>, now: int)
    ensures var regions := [FaceRegion(-50, 10, 20, 20, 1.0)];
      && |AnalyzeMultipleFaces(regions, 100, 100, classify, now)| == 1
      && AnalyzeMultipleFacesCorrected(regions, 100, 100, classify, now) == []
  {
    var f := FaceRegion(-50, 10, 20, 20, 1.0);
    assert [f][..0] == [];
    assert PaddedRoiAsWritten(f, 100, 100) == Roi(0, 0, -20, 40);
    assert PaddedRoi(f, 100, 100) == Roi(0, 0, 0, 40);
    assert SliceIndex(100, -20) == 80 && SliceLength(100, 0, -20) == 80;
    assert SliceLength(100, 0, 40) == 40 && SliceLength(100, 0, 0) == 0;
    assert NonEmptyCrop(AsWrittenCrop(100, 100)(f), 100, 100);
    assert !NonEmptyCrop(CorrectedCrop(100, 100)(f), 100, 100);
  }

  /** A frame without columns yields no results, with either bounds. */
  lemma EmptyFrameNoResults(
    regions: seq<FaceRegion>, height: nat, classify: Roi -> Option<Analysis>, now: int)
    ensures AnalyzeMultipleFaces(regions, 0, height, classify, now) == []
    ensures AnalyzeMultipleFacesCorrected(regions, 0, height, classify, now) == []
  {
    var p, q := KeepFilter(AsWrittenCrop(0, height), 0, height), KeepFilter(CorrectedCrop(0, height), 0, height);
    forall i | 0 <= i < |regions| ensures !p(regions[i]) && !q(regions[i]) {
      var a, b := AsWrittenCrop(0, height)(regions[i]), CorrectedCrop(0, height)(regions[i]);
      assert SliceLength(0, a.x1, a.x2) == 0 && SliceLength(0, b.x1, b.x2) == 0;
    }
    SelectNone(regions, p);
    SelectNone(regions, q);
  }
}
