/**
 `BlueberryDetector.analyze_maturity` and its helpers: each detection's box is clamped to the
 image, the crop under it is measured in HSV, and a maturity label and a confidence are
 attached. The HSV conversion and the statistics of the crop are not modelled: `measure`
 gives them for a clamped box (`None` when the conversion raises).
 */
module MaturityAnalyzer {
  import opened Wrappers
  import opened Detections

  /** The statistics of a crop in HSV: the mean of each channel and the variance of the hue. */
  datatype HsvStats = HsvStats(meanHue: real, meanSaturation: real, meanValue: real, hueVariance: real)

  /** The result of the analysis, less the processing time and the resolution string. */
  datatype MaturityAnalysis = MaturityAnalysis(detections: seq<Detection>, totalDetected: nat)

  function Max(a: int, b: int): int {
    if a < b then b else a
  }

  function Min(a: int, b: int): int {
    if a < b then a else b
  }

  // ---------------------------------------------------------------------------------------
  // Box clamping

  /**
   One axis of the clamping: both ends pulled into [0, size-1]; an end not past its start
   is moved one pixel past it when there is room, so at the last pixel the box stays empty.
   */
  function ClampAxis(lo: int, hi: int, size: nat): (r: (int, int))
    ensures size >= 1 ==> 0 <= r.0 <= r.1 <= size - 1
    ensures size >= 1 && r.0 < size - 1 ==> r.0 < r.1
    ensures size >= 1 && lo >= size - 1 ==> r == (size - 1, size - 1)
    ensures size >= 1 && 0 <= lo <= size - 1 ==> r.0 == lo
    ensures size >= 1 && lo < 0 ==> r.0 == 0
    ensures size >= 1 && 0 <= lo < hi <= size - 1 ==> r.1 == hi
    ensures size >= 1 && hi > r.0 ==> r.1 == Min(hi, size - 1)
    ensures size >= 1 && hi <= r.0 ==> r.1 == Min(r.0 + 1, size - 1)
    ensures size == 0 ==> r == (0, -1)
  {
    var a := Max(0, Min(lo, size - 1));
    var b := Max(0, Min(hi, size - 1));
    if b <= a then (a, Min(size - 1, a + 1)) else (a, b)
  }

  /** The box `analyze_maturity` writes back: each axis clamped to the image. */
  function ClampBox(b: Box, f: Frame): (c: Box)
    ensures (c.x1, c.x2) == ClampAxis(b.x1, b.x2, f.width)
    ensures (c.y1, c.y2) == ClampAxis(b.y1, b.y2, f.height)
    ensures f.width >= 1 ==> 0 <= c.x1 <= c.x2 <= f.width - 1
    ensures f.height >= 1 ==> 0 <= c.y1 <= c.y2 <= f.height - 1
    ensures f.width >= 1 && c.x1 < f.width - 1 ==> c.x1 < c.x2
    ensures f.height >= 1 && c.y1 < f.height - 1 ==> c.y1 < c.y2
  {
    var (x1, x2) := ClampAxis(b.x1, b.x2, f.width);
    var (y1, y2) := ClampAxis(b.y1, b.y2, f.height);
    Box(x1, y1, x2, y2)
  }

  /** A box already inside the image with positive width and height is left as it is. */
  lemma ClampKeepsInteriorBox(b: Box, f: Frame)
    requires 0 <= b.x1 < b.x2 <= f.width - 1 && 0 <= b.y1 < b.y2 <= f.height - 1
    ensures ClampBox(b, f) == b
  {
  }

  /** A box starting at the last column keeps zero width: the expansion has no room there. */
  lemma ClampAtRightEdgeIsEmpty(b: Box, f: Frame)
    requires f.width >= 1 && b.x1 >= f.width - 1
    ensures ClampBox(b, f).x1 == ClampBox(b, f).x2 == f.width - 1
  {
  }

  /** Clamping a clamped box changes nothing. */
  lemma ClampIdempotent(b: Box, f: Frame)
    ensures ClampBox(ClampBox(b, f), f) == ClampBox(b, f)
  {
  }

  /** `image[y1:y2, x1:x2].size > 0`: the crop under a clamped box has pixels. */
  predicate CropNonEmpty(c: Box) {
    c.x1 < c.x2 && c.y1 < c.y2
  }

  // ---------------------------------------------------------------------------------------
  // Colour rule and confidence

  /**
   `_analyze_berry_maturity` on the HSV means: blue/purple (hue below 120, saturation above
   100) is ripe when dark and half-ripe when light; hue above 120 is unripe; anything else,
   hue exactly 120 included, is unknown.
   */
  function ClassifyHsv(meanHue: real, meanSaturation: real, meanValue: real): (m: Maturity)
    ensures m == Maduro <==> meanHue < 120.0 && meanSaturation > 100.0 && meanValue <= 150.0
    ensures m == SemiMaduro <==> meanHue < 120.0 && meanSaturation > 100.0 && meanValue > 150.0
    ensures m == NoMaduro <==> meanHue > 120.0
    ensures m == Unknown <==> meanHue == 120.0 || (meanHue < 120.0 && meanSaturation <= 100.0)
  {
    if meanHue < 120.0 && meanSaturation > 100.0 then
      if meanValue > 150.0 then SemiMaduro else Maduro
    else if meanHue > 120.0 then NoMaduro
    else Unknown
  }

  /** A hue of exactly 120 is neither the blue family nor the green one. */
  lemma HueBoundaryIsUnknown(s: real, v: real)
    ensures ClassifyHsv(120.0, s, v) == Unknown
  {
  }

  /** The label of a measured crop; a failed conversion gives "unknown". */
  function BerryMaturity(stats: Option<HsvStats>): (m: Maturity)
    ensures stats.None? ==> m == Unknown
    ensures stats.Some? ==> m == ClassifyHsv(stats.value.meanHue, stats.value.meanSaturation, stats.value.meanValue)
    ensures m != Unknown ==> stats.Some?
  {
    match stats
    case None => Unknown
    case Some(st) => ClassifyHsv(st.meanHue, st.meanSaturation, st.meanValue)
  }

  /**
   `_calculate_maturity_confidence`: `min(1, max(0, 1 - var/1000))`. Uniform colour (variance 0)
   gives full confidence and a variance of 1000 or more gives none.
   */
  function MaturityConfidence(hueVariance: real): (c: real)
    ensures 0.0 <= c <= 1.0
    ensures hueVariance >= 0.0 ==> (c == 1.0 <==> hueVariance == 0.0)
    ensures c == 0.0 <==> hueVariance >= 1000.0
    ensures 0.0 <= hueVariance <= 1000.0 ==> c + hueVariance / 1000.0 == 1.0
  {
    var raw := 1.0 - hueVariance / 1000.0;
    var floored := if raw > 0.0 then raw else 0.0;
    if floored < 1.0 then floored else 1.0
  }

  /** More spread in hue never raises the confidence. */
  lemma MaturityConfidenceAntitone(v: real, w: real)
    requires v <= w
    ensures MaturityConfidence(w) <= MaturityConfidence(v)
  {
  }

  /** The confidence of a measured crop; a failed conversion gives the neutral 0.5. */
  function BerryConfidence(stats: Option<HsvStats>): (c: real)
    ensures 0.0 <= c <= 1.0
    ensures stats.None? ==> c == 0.5
    ensures stats.Some? ==> c == MaturityConfidence(stats.value.hueVariance)
  {
    match stats
    case None => 0.5
    case Some(st) => MaturityConfidence(st.hueVariance)
  }

  // ---------------------------------------------------------------------------------------
  // One detection, then the list

  /** The detection's label came from the detector itself and is one of the three maturity classes. */
  predicate HasModelLabel(d: Detection) {
    d.maturity.Named? && IsModelLabel(d.maturity.value)
  }

  function BoxOf(d: Detection): Box
    requires |d.bbox| == 4
  {
    Box(d.bbox[0], d.bbox[1], d.bbox[2], d.bbox[3])
  }

  /**
   The analysis of one detection with a four-entry box. The box is clamped; when the crop has
   pixels, a label from the detector is kept and any other is recomputed from the crop, and
   the confidence comes from the crop; when it has none, an existing label (even `None`) and
   confidence stay, defaulting to "unknown" and 0.0. Nothing else in the record changes.
   */
  function AnalyzeOne(d: Detection, f: Frame, measure: Box -> Option<HsvStats>): (r: Detection)
    requires |d.bbox| == 4
    ensures r.bbox == ClampBox(BoxOf(d), f).AsList()
    ensures r.confidence == d.confidence && r.cls == d.cls && r.classId == d.classId && r.area == d.area
    ensures HasModelLabel(d) ==> r.maturity == d.maturity
    ensures !r.maturity.Missing? && r.maturityConfidence.Some?
    ensures CropNonEmpty(ClampBox(BoxOf(d), f)) ==>
      && (!HasModelLabel(d) ==> r.maturity == Named(BerryMaturity(measure(ClampBox(BoxOf(d), f))).Name()))
      && r.maturityConfidence == Some(BerryConfidence(measure(ClampBox(BoxOf(d), f))))
    ensures !CropNonEmpty(ClampBox(BoxOf(d), f)) ==>
      && r.maturity == (if d.maturity.Missing? then Named(Unknown.Name()) else d.maturity)
      && r.maturityConfidence == Some(d.maturityConfidence.GetOr(0.0))
  {
    var c := ClampBox(BoxOf(d), f);
    var clamped := d.(bbox := c.AsList());
    if CropNonEmpty(c) then
      var stats := measure(c);
      var tag := if HasModelLabel(d) then d.maturity else Named(BerryMaturity(stats).Name());
      clamped.(maturity := tag, maturityConfidence := Some(BerryConfidence(stats)))
    else
      clamped.(maturity := if d.maturity.Missing? then Named("unknown") else d.maturity,
               maturityConfidence := Some(d.maturityConfidence.GetOr(0.0)))
  }

  /** A label the detector assigned survives the analysis whatever the pixels say. */
  lemma ModelLabelWins(d: Detection, f: Frame, m1: Box -> Option<HsvStats>, m2: Box -> Option<HsvStats>)
    requires |d.bbox| == 4 && HasModelLabel(d)
    ensures AnalyzeOne(d, f, m1).maturity == AnalyzeOne(d, f, m2).maturity == d.maturity
  {
  }

  /** Analysing an analysed detection again changes nothing. */
  lemma AnalyzeOneIdempotent(d: Detection, f: Frame, measure: Box -> Option<HsvStats>)
    requires |d.bbox| == 4
    ensures AnalyzeOne(AnalyzeOne(d, f, measure), f, measure) == AnalyzeOne(d, f, measure)
  {
    var r := AnalyzeOne(d, f, measure);
    ClampIdempotent(BoxOf(d), f);
    assert BoxOf(r) == ClampBox(BoxOf(d), f);
  }

  /** The detections whose box has exactly four entries, in their original order. */
  function Boxed(dets: seq<Detection>): (r: seq<Detection>)
    ensures |r| <= |dets|
    ensures forall d :: d in r ==> |d.bbox| == 4 && d in dets
    ensures forall i :: 0 <= i < |dets| && |dets[i].bbox| == 4 ==> dets[i] in r
    ensures (forall i :: 0 <= i < |dets| ==> |dets[i].bbox| == 4) ==> r == dets
  {
    if |dets| == 0 then []
    else
      var rest := Boxed(dets[1..]);
      assert forall i :: 1 <= i < |dets| ==> dets[i] == dets[1..][i - 1];
      if |dets[0].bbox| == 4 then
        assert [dets[0]] + dets[1..] == dets;
        [dets[0]] + rest
      else rest
  }

  /** Filtering a concatenation filters each part and keeps them in order. */
  lemma {:induction false} BoxedConcat(a: seq<Detection>, b: seq<Detection>)
    ensures Boxed(a + b) == Boxed(a) + Boxed(b)
  {
    if |a| == 0 {
      assert a + b == b;
    } else {
      assert (a + b)[0] == a[0] && (a + b)[1..] == a[1..] + b;
      BoxedConcat(a[1..], b);
    }
  }

  /** Every detection with a four-entry box, analysed; the others are dropped. */
  function AnalyzeAll(dets: seq<Detection>, f: Frame, measure: Box -> Option<HsvStats>): (r: seq<Detection>)
    ensures |r| == |Boxed(dets)|
    ensures forall i :: 0 <= i < |r| ==> r[i] == AnalyzeOne(Boxed(dets)[i], f, measure)
  {
    if |dets| == 0 then []
    else
      var rest := AnalyzeAll(dets[1..], f, measure);
      if |dets[0].bbox| == 4 then [AnalyzeOne(dets[0], f, measure)] + rest else rest
  }

  /**
   `analyze_maturity`: the analysed detections and their count. Every box lies inside the
   image, and only a box starting at the last column or row can be empty.
   */
  function AnalyzeMaturity(dets: seq<Detection>, f: Frame, measure: Box -> Option<HsvStats>): (r: MaturityAnalysis)
    ensures r.totalDetected == |r.detections| == |Boxed(dets)|
    ensures forall i :: 0 <= i < |r.detections| ==> r.detections[i] == AnalyzeOne(Boxed(dets)[i], f, measure)
    ensures f.width >= 1 && f.height >= 1 ==> forall d :: d in r.detections ==>
      && |d.bbox| == 4
      && 0 <= d.bbox[0] <= d.bbox[2] <= f.width - 1
      && 0 <= d.bbox[1] <= d.bbox[3] <= f.height - 1
      && (d.bbox[0] < f.width - 1 ==> d.bbox[0] < d.bbox[2])
      && (d.bbox[1] < f.height - 1 ==> d.bbox[1] < d.bbox[3])
  {
    var analysed := AnalyzeAll(dets, f, measure);
    MaturityAnalysis(analysed, |analysed|)
  }

  /** Analysing the analysis again gives the same detections. */
  lemma {:induction false} AnalyzeAllIdempotent(dets: seq<Detection>, f: Frame, measure: Box -> Option<HsvStats>)
    ensures AnalyzeAll(AnalyzeAll(dets, f, measure), f, measure) == AnalyzeAll(dets, f, measure)
  {
    if |dets| > 0 {
      var rest := AnalyzeAll(dets[1..], f, measure);
      AnalyzeAllIdempotent(dets[1..], f, measure);
      if |dets[0].bbox| == 4 {
        var first := AnalyzeOne(dets[0], f, measure);
        AnalyzeOneIdempotent(dets[0], f, measure);
        assert ([first] + rest)[1..] == rest;
      }
    }
  }
}
