/**
 `Pipeline`: the route that processes one image, reduced to its data flow: detect, analyse
 maturity on the same image, build the report. Facts that only hold across the stages.
 */
module Pipeline {
  import opened Wrappers
  import opened Detections
  import opened BlueberryDetector
  import opened MaturityAnalyzer
  import opened ReportGenerator

  /**
   Nothing the detector returns is dropped by the analysis: every detection is analysed in
   place, and the report counts each of them exactly once.
   */
  lemma EveryDetectionReported(modelLoaded: bool, run: Option<seq<YoloResult>>, modelNames: Option<NameTable>,
                               f: Frame, contours: seq<Contour>, hough: HoughParams -> Option<seq<Circle>>,
                               measure: Box -> Option<HsvStats>)
    ensures var dets := DetectImage(modelLoaded, run, modelNames, f, contours, hough);
      var a := AnalyzeMaturity(dets, f, measure);
      && a.totalDetected == |a.detections| == |dets|
      && (forall i :: 0 <= i < |dets| ==> a.detections[i] == AnalyzeOne(dets[i], f, measure))
      && Total(GenerateReport(a).maturity.counts) == |dets|
      && GenerateReport(a).detectionSummary.totalBlueberries == |dets|
  {
    var dets := DetectImage(modelLoaded, run, modelNames, f, contours, hough);
    assert forall i :: 0 <= i < |dets| ==> |dets[i].bbox| == 4 by {
      forall i | 0 <= i < |dets| ensures |dets[i].bbox| == 4 {
        assert dets[i] in dets;
      }
    }
    assert Boxed(dets) == dets;
  }

  /**
   Without a detector model every detection comes from the colour heuristic, carries no
   label of its own, and so is labelled from its pixels whenever its crop is non-empty.
   */
  lemma ColorDetectionsLabelledFromPixels(f: Frame, contours: seq<Contour>, hough: HoughParams -> Option<seq<Circle>>,
                                          measure: Box -> Option<HsvStats>, i: nat)
    requires i < |DetectImage(false, None, None, f, contours, hough)|
    ensures var d := DetectImage(false, None, None, f, contours, hough)[i];
      CropNonEmpty(ClampBox(BoxOf(d), f)) ==>
        AnalyzeOne(d, f, measure).maturity == Named(BerryMaturity(measure(ClampBox(BoxOf(d), f))).Name())
  {
    var dets := DetectImage(false, None, None, f, contours, hough);
    assert dets[i] in ColorDetection(f, contours, hough);
  }
}
