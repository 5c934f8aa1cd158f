# Blueberry maturity pipeline: a Dafny model

This project models the core of the blueberry maturity web application. The core is the
chain that runs on one uploaded photo:

1. The detector finds berries. It uses a YOLO model when one is loaded. Otherwise it uses
   an HSV colour mask with a contour filter, and falls back to Hough circles.
2. The maturity analysis clamps every box to the image. It keeps a label the detector gave
   and otherwise classifies the crop from its mean hue, saturation and value. It scores its
   confidence from the hue variance.
3. The report generator counts the labels and turns the counts into percentages and a
   weighted maturity score. It reads harvest, timing, quality and next-step advice off
   threshold ladders, and summarises several reports.
4. The image processor picks a colour per label and lays out the outline, circle and
   caption drawn for each detection.
5. The web layer checks upload file names and computes the history page offset.

Everything OpenCV or YOLO computes is a parameter:

- the contours the mask yields;
- the circles `HoughCircles` returns for the given parameters;
- the YOLO boxes and class-name tables;
- the HSV statistics of a crop;
- the text size and whether a drawing call is accepted.

The model fixes what the application itself does with those outputs.

Modules, one per file:

- `Wrappers`: `Option`.
- `Text`: the Python string methods the core relies on: `strip`, `lower`, `replace`,
  `split`, `rsplit(.., 1)` and the decimal text of an int.
- `Rounding`: Python `round(x, 1)` and `round(x, 3)` taken on exact reals, and `int()` on a
  float.
- `Fractions`: facts about dividing reals by a positive number, shared by the scores, shares
  and means.
- `Seqs`: facts about list concatenation, shared by the proofs about lists built one element
  at a time.
- `Detections`: the detection record. Its 'maturity' entry is a `Tag` that tells an absent
  key from `None` and from a label. The `Key` is what `get('maturity', 'unknown')` reads.
- `BlueberryDetector`: `detect`, `_color_based_detection` and `_yolo_detection`.
- `MaturityAnalyzer`: `analyze_maturity`, `_analyze_berry_maturity` and
  `_calculate_maturity_confidence`.
- `ReportGenerator`: the report sections and `generate_summary_report`.
- `ImageProcessor`: `_get_maturity_color` and `_draw_detections`.
- `App`: `allowed_file` and the offset in `get_history`.
- `Pipeline`: facts across the detect, analyse and report steps of the processing route.

## Model

| member | source | states |
|---|---|---|
| Text.Strip | src/web_app/models/blueberry_detector.py:219 | the result is the input with leading and trailing white space removed, and does not itself start or end with white space |
| Text.StripOneSpaceEachSide | src/web_app/models/blueberry_detector.py:219 | one space on each side of text that is not itself padded is exactly what strip removes |
| Text.Lower | src/web_app/models/blueberry_detector.py:219 | same length, each character lower-cased (ASCII letters) |
| Text.Replace | src/web_app/models/blueberry_detector.py:219 | same length, every occurrence of one character replaced, everything else kept |
| Text.Split | src/web_app/app.py:35 | at least one piece, and no piece contains the separator |
| Text.JoinSplit | src/web_app/app.py:35 | joining the pieces of a split with the separator gives back the original text |
| Text.SplitJoin | src/web_app/app.py:35 | splitting a join of separator-free pieces gives back the pieces |
| Text.AfterLast | src/web_app/app.py:55 | the result is a proper suffix that directly follows an occurrence of the character and contains none |
| Text.AfterLastOfJoin | src/web_app/app.py:55 | whatever precedes the last separator, `rsplit(c, 1)[1]` recovers the text after it |
| Text.IntToDecimal | src/web_app/models/blueberry_detector.py:212 | the decimal text of the number: digits without leading zeros whose value is the number, or a minus sign followed by the digits of its negation |
| Text.DecimalRoundTrip | src/web_app/models/blueberry_detector.py:212 | reading back the decimal text of a natural number gives the number |
| Rounding.RoundHalfEven | src/web_app/utils/report_generator.py:142 | within 0.5 of its argument, and a tie goes to the even integer |
| Rounding.RoundTo | src/web_app/utils/report_generator.py:142 | the result is a whole multiple of 10^-n within half a unit of the argument, hence the nearest such multiple, and on a tie the even multiple |
| Rounding.RoundToMonotone | src/web_app/utils/report_generator.py:142 | rounding never reverses the order of two values |
| Rounding.RoundToWithin | src/web_app/utils/report_generator.py:117 | a value between two whole numbers stays between them after rounding |
| Rounding.Truncate | src/web_app/models/blueberry_detector.py:232 | the integer part, moving toward zero by less than 1 |
| Detections.KeyOf | src/web_app/utils/report_generator.py:108 | an absent key reads as "unknown", `None` as the null key and a label as itself; the null key exactly for `None` |
| BlueberryDetector.MaskIsOneHueBand | src/web_app/models/blueberry_detector.py:106-114 | a pixel is in the blue-or-purple mask exactly when its hue is 85..170, saturation 20..255 and value 30..255 |
| BlueberryDetector.MinContourArea | src/web_app/models/blueberry_detector.py:126-128 | the area threshold is at least 100 and at least `int(0.0005 * image area)`, and equals one of them |
| BlueberryDetector.Survives | src/web_app/models/blueberry_detector.py:126-140 | a contour is kept exactly when its area reaches the threshold and its rectangle has positive height h and width w with h <= 2w and 5w <= 9h |
| BlueberryDetector.FlatContourDropped | src/web_app/models/blueberry_detector.py:137-139 | a contour without height has aspect ratio 0 and is dropped |
| BlueberryDetector.ContourConfidence | src/web_app/models/blueberry_detector.py:142 | at most 0.99 and at most area/(0.02 image area), equal to one of them, never negative |
| BlueberryDetector.ContourConfidenceMonotone | src/web_app/models/blueberry_detector.py:142 | a larger contour never gets a lower confidence |
| BlueberryDetector.ContourDetection | src/web_app/models/blueberry_detector.py:141-149 | the box starts at the rectangle's corner and spans its width and height; the area score as confidence, the contour area, class "blueberry" and no maturity key |
| BlueberryDetector.FilterContours | src/web_app/models/blueberry_detector.py:128-149 | every surviving contour yields its detection and every detection comes from a surviving contour; the result is empty exactly when no contour survives |
| BlueberryDetector.FilterContoursSingle | src/web_app/models/blueberry_detector.py:128-149 | one contour gives its detection when it survives and nothing otherwise |
| BlueberryDetector.FilterContoursConcat | src/web_app/models/blueberry_detector.py:128-149 | the detections of two runs of contours are those of the first run followed by those of the second, so order and repetitions are kept |
| BlueberryDetector.HoughParamsFor | src/web_app/models/blueberry_detector.py:156-160 | dp 1.2, minDist 20, param1 60, param2 30; minimum radius 5 when the shorter side is under 600 and otherwise the shorter side over 100, truncated; maximum radius 15% of the shorter side, truncated |
| BlueberryDetector.U16Sub | src/web_app/models/blueberry_detector.py:163-165 | the difference when it is non-negative, otherwise the difference plus 2^16 |
| BlueberryDetector.U16Add | src/web_app/models/blueberry_detector.py:163-167 | the sum when it is below 2^16, otherwise the sum minus 2^16 |
| BlueberryDetector.CircleDetection | src/web_app/models/blueberry_detector.py:163-172 | confidence 0.5, class "blueberry", no maturity key; left and top are the `uint16` differences centre minus radius, right and bottom the `uint16` sums cut back to the last column and row; the area is the product of the unclipped extents |
| BlueberryDetector.CircleNearEdgeWraps | src/web_app/models/blueberry_detector.py:163-168 | a circle at (3, 40) with radius 5 in a 100 by 100 image gets the box [65534, 35, 8, 45]: the unsigned 16-bit subtraction wraps before `max(0, x1)` applies |
| BlueberryDetector.CircleInsideImage | src/web_app/models/blueberry_detector.py:163-168 | a circle that fits in the image gets exactly its bounding square |
| BlueberryDetector.CircleDetections | src/web_app/models/blueberry_detector.py:162-172 | one detection per circle, in order |
| BlueberryDetector.ColorDetection | src/web_app/models/blueberry_detector.py:96-181 | every colour detection is a "blueberry" with four box entries, no maturity key and confidence at most 0.99; when a contour survives the result is the contour list; when none does it is one detection per Hough circle in order, or none when the search finds nothing or fails; an image without pixels gives none |
| BlueberryDetector.HoughOnlyAsFallback | src/web_app/models/blueberry_detector.py:151-152 | when a contour survives, the Hough output has no effect |
| BlueberryDetector.EmptyMaskFallsBackToCircles | src/web_app/models/blueberry_detector.py:151-172 | with no contours the result is one detection per Hough circle in order, each with confidence 0.5, and none when the search finds nothing or fails |
| BlueberryDetector.ResolveNames | src/web_app/models/blueberry_detector.py:210 | the result's names if truthy, else the model's names if truthy, else an empty dict |
| BlueberryDetector.ClassName | src/web_app/models/blueberry_detector.py:211-216 | the listed or mapped name when the id is present, otherwise "class_" and the id in decimal |
| BlueberryDetector.CanonicalShape | src/web_app/models/blueberry_detector.py:219 | a normalised name has no space, no hyphen and no upper-case letter |
| BlueberryDetector.CanonicalClassName | src/web_app/models/blueberry_detector.py:219 | as long as the stripped name, and each character is that of the stripped name passed through CanonicalChar |
| BlueberryDetector.CanonicalChar | src/web_app/models/blueberry_detector.py:219 | a capital becomes its small letter, a space or hyphen an underscore, every other character stays; the result is never a space, hyphen or capital |
| BlueberryDetector.CanonicalUnpadded | src/web_app/models/blueberry_detector.py:219 | a normalised name neither starts nor ends with white space |
| BlueberryDetector.CanonicalIdempotent | src/web_app/models/blueberry_detector.py:219 | normalising twice is the same as normalising once |
| BlueberryDetector.CanonicalOfPlain | src/web_app/models/blueberry_detector.py:219 | an unpadded name without spaces, hyphens or capitals is already normal |
| BlueberryDetector.NormalizeClassName | src/web_app/models/blueberry_detector.py:219-229 | on the canonical spelling: ripe exactly for "maduro" and "ripe"; half-ripe exactly for "semimaduro", "semi_ripe", "semi-ripe" and "semi_maduro"; unripe exactly for "no_maduro", "unripe" and "inmaduro"; none exactly for every other spelling; never "unknown" |
| BlueberryDetector.NormalizeOwnLabel | src/web_app/models/blueberry_detector.py:219-221 | each of the three labels maps to itself |
| BlueberryDetector.CanonicalSemiRipe | src/web_app/models/blueberry_detector.py:219 | " Semi-Ripe " normalises to "semi_ripe" |
| BlueberryDetector.NormalizeSemiRipe | src/web_app/models/blueberry_detector.py:219-225 | " Semi-Ripe " becomes `semi_ripe` and maps to half-ripe |
| BlueberryDetector.NormalizeUpperRipe | src/web_app/models/blueberry_detector.py:219-223 | "RIPE" maps to ripe |
| BlueberryDetector.NormalizeOtherName | src/web_app/models/blueberry_detector.py:219-229 | any name already in canonical form that is not one of the alias spellings, such as "blueberry", maps to none |
| BlueberryDetector.MaturityTag | src/web_app/models/blueberry_detector.py:237 | `None` exactly when no label was found, otherwise one of the three labels |
| BlueberryDetector.YoloDetection | src/web_app/models/blueberry_detector.py:201-238 | the box is the four corners truncated toward zero; the confidence, class id and class name of the box; the maturity is the label the class name normalises to, and `None` exactly when it normalises to none |
| BlueberryDetector.YoloBoxesDetections | src/web_app/models/blueberry_detector.py:201-239 | one detection per box, in order |
| BlueberryDetector.YoloResultsDetections | src/web_app/models/blueberry_detector.py:198-239 | exactly one detection per box over all results; each has four box entries, a confidence, and a label or `None` |
| BlueberryDetector.YoloResultsConcat | src/web_app/models/blueberry_detector.py:198-239 | the detections of two runs of results are those of the first run followed by those of the second |
| BlueberryDetector.YoloSingleResult | src/web_app/models/blueberry_detector.py:199-239 | one result contributes a detection for each of its boxes, in order, named from its own table or else the model's; a result without boxes contributes none |
| BlueberryDetector.YoloDetections | src/web_app/models/blueberry_detector.py:193-246 | one detection per box of the run, each with four box entries, a confidence and a label or `None`; a failed inference gives no detections |
| BlueberryDetector.Detect | src/web_app/models/blueberry_detector.py:76-94 | the model's detections when a model is loaded and they are non-empty, else the colour detections |
| BlueberryDetector.DetectImage | src/web_app/models/blueberry_detector.py:66-94 | every detection has four box entries and a confidence; with a model whose run finds boxes the result is the YOLO list; without a model, when inference fails, or when it finds no box, the result is the colour path's |
| MaturityAnalyzer.ClampAxis | src/web_app/models/blueberry_detector.py:270-278 | the start is pulled into [0, size-1]; the end is the clamped end when it lies past the start, otherwise one past the start but not past the last pixel; the pair is ordered inside [0, size-1] |
| MaturityAnalyzer.ClampBox | src/web_app/models/blueberry_detector.py:269-280 | each axis of the box is clamped by `ClampAxis` against the width or the height, so 0 <= x1 <= x2 <= width-1 and 0 <= y1 <= y2 <= height-1 |
| MaturityAnalyzer.ClampKeepsInteriorBox | src/web_app/models/blueberry_detector.py:269-280 | a proper box inside the image is unchanged |
| MaturityAnalyzer.ClampAtRightEdgeIsEmpty | src/web_app/models/blueberry_detector.py:275-276 | a box starting at or beyond the last column collapses to zero width there |
| MaturityAnalyzer.ClampIdempotent | src/web_app/models/blueberry_detector.py:269-280 | clamping a clamped box changes nothing |
| MaturityAnalyzer.ClassifyHsv | src/web_app/models/blueberry_detector.py:342-350 | each label holds exactly under its condition on the mean hue, saturation and value |
| MaturityAnalyzer.HueBoundaryIsUnknown | src/web_app/models/blueberry_detector.py:342-350 | a mean hue of exactly 120 is "unknown" |
| MaturityAnalyzer.BerryMaturity | src/web_app/models/blueberry_detector.py:330-356 | an unreadable crop is "unknown"; a readable one gets the class of its HSV means; a label other than "unknown" implies the crop was readable |
| MaturityAnalyzer.MaturityConfidence | src/web_app/models/blueberry_detector.py:372 | in [0, 1]; 1 exactly for zero variance, 0 exactly from variance 1000 on, and 1 - variance/1000 between |
| MaturityAnalyzer.MaturityConfidenceAntitone | src/web_app/models/blueberry_detector.py:372 | more hue variance never raises the confidence |
| MaturityAnalyzer.BerryConfidence | src/web_app/models/blueberry_detector.py:366-376 | in [0, 1]; an unreadable crop gives 0.5 and a readable one the confidence of its hue variance |
| MaturityAnalyzer.AnalyzeOne | src/web_app/models/blueberry_detector.py:264-298 | the box is clamped; a detector label survives; a non-empty crop gets a label and confidence from its pixels; an empty crop keeps its label and confidence, defaulting to "unknown" and 0.0; nothing else changes |
| MaturityAnalyzer.ModelLabelWins | src/web_app/models/blueberry_detector.py:287-291 | whatever the pixels, a detector label is kept |
| MaturityAnalyzer.AnalyzeOneIdempotent | src/web_app/models/blueberry_detector.py:269-296 | analysing an analysed detection again changes nothing |
| MaturityAnalyzer.Boxed | src/web_app/models/blueberry_detector.py:263-265 | exactly the input detections whose box has four entries; the identity when all have |
| MaturityAnalyzer.BoxedConcat | src/web_app/models/blueberry_detector.py:262-298 | the filter keeps the input order |
| MaturityAnalyzer.AnalyzeAll | src/web_app/models/blueberry_detector.py:262-298 | one analysed detection per four-entry box, in order |
| MaturityAnalyzer.AnalyzeMaturity | src/web_app/models/blueberry_detector.py:248-307 | `total_detected` is the number of analysed detections, which is the number with a four-entry box, and every box lies inside the image |
| MaturityAnalyzer.AnalyzeAllIdempotent | src/web_app/models/blueberry_detector.py:262-298 | analysing the analysed list again gives the same list |
| ReportGenerator.Bump | src/web_app/utils/report_generator.py:109-111 | the keys keep their order; every other entry is unchanged; a present key keeps the length, an absent key is appended with count 1 |
| ReportGenerator.BumpCounts | src/web_app/utils/report_generator.py:109-111 | counting one value adds one to its entry, and one to the total, and keeps the keys distinct |
| ReportGenerator.CountMaturities | src/web_app/utils/report_generator.py:100-111 | the four labels come first, keys are distinct, any further key has a positive count, each count is the number of detections reading as that key, and the counts sum to the number of detections |
| ReportGenerator.CountPrefixKeys | src/web_app/utils/report_generator.py:100-109 | the dict counted over a prefix of the detections is a prefix of the whole dict, so the further keys stand in the order of their first appearance |
| ReportGenerator.PercentOf | src/web_app/utils/report_generator.py:117 | the exact percentage rounded to one decimal, half to even; within 0.05 of it, and in [0, 100] |
| ReportGenerator.Percentages | src/web_app/utils/report_generator.py:114-117 | empty when nothing was counted, otherwise one rounded percentage per count in the same order |
| ReportGenerator.WeightedPercent | src/web_app/utils/report_generator.py:136-142 | the unrounded score times the total is 100 per ripe fruit plus 50 per half-ripe fruit |
| ReportGenerator.WeightedPercentMonotone | src/web_app/utils/report_generator.py:136-142 | with the total fixed, a larger weighted count never gives a lower unrounded score |
| ReportGenerator.WeightedPercentBounds | src/web_app/utils/report_generator.py:136-142 | when the ripe and half-ripe counts fit in the total, the unrounded score lies in [0, 100] |
| ReportGenerator.MaturityScore | src/web_app/utils/report_generator.py:129-145 | 0 for no detections; otherwise the weighted percentage rounded to one decimal, within 0.05 of 100(ripe + 0.5 half-ripe)/total, and in [0, 100] when the counts fit in the total |
| ReportGenerator.ScoreMonotone | src/web_app/utils/report_generator.py:136-142 | with the total fixed, more weighted ripe fruit never lowers the score |
| ReportGenerator.ScoreOfEightAndTwo | src/web_app/utils/report_generator.py:132-142 | eight ripe and two half-ripe out of ten score 90.0 |
| ReportGenerator.AnalyzeDistribution | src/web_app/utils/report_generator.py:94-125 | `total_analyzed` equals both the number of detections and the sum of the counts; each count is that key's number of detections; with detections, one percentage per counted key, in order, equal to its count over the total rounded to one decimal, and otherwise none; the score is the weighted ripe and half-ripe share rounded to one decimal (0 with no detections) and lies in [0, 100] |
| ReportGenerator.RipeningRaisesScore | src/web_app/utils/report_generator.py:107-142 | relabelling one unripe, unknown or unlabelled detection as ripe never lowers the score |
| ReportGenerator.HarvestRecommendation | src/web_app/utils/report_generator.py:165-176 | the top-down ladder picks the text of the band given by how many of the bounds 20, 40, 60 and 80 the score reaches |
| ReportGenerator.TimingRecommendation | src/web_app/utils/report_generator.py:178-189 | the same band count picks the timing text |
| ReportGenerator.HarvestAndTimingAgree | src/web_app/utils/report_generator.py:165-189 | two scores get the same harvest text exactly when they get the same timing text |
| ReportGenerator.BandMonotone | src/web_app/utils/report_generator.py:165-176 | a higher score never falls in a lower band |
| ReportGenerator.NextSteps | src/web_app/utils/report_generator.py:208-237 | four steps, picked by the band, with the two lowest bands sharing one list |
| ReportGenerator.NextStepsMergeLowBands | src/web_app/utils/report_generator.py:165-237 | a score in [20, 40) gets the same steps as one below 20 but different harvest advice |
| ReportGenerator.QualityAssessment | src/web_app/utils/report_generator.py:191-206 | "no fruit detected" exactly when nothing was counted; a ripe share of at least 70% is excellent, 50-70% good, 30-50% fair and below 30% poor |
| ReportGenerator.GenerateRecommendations | src/web_app/utils/report_generator.py:147-160 | harvest and timing follow the score's band, the quality verdict is that of the counts, the next steps are the list of the score's band, and "no fruit detected" appears exactly when nothing was counted |
| ReportGenerator.QualityIndependentOfScore | src/web_app/utils/report_generator.py:129-206 | ten half-ripe berries score 50 and get harvest in 5-7 days, yet poor quality |
| ReportGenerator.Minimum | src/web_app/utils/report_generator.py:86 | an element that no element is below |
| ReportGenerator.Maximum | src/web_app/utils/report_generator.py:87 | an element that no element exceeds |
| ReportGenerator.MeanBounds | src/web_app/utils/report_generator.py:85 | the mean of values in [lo, hi] lies in [lo, hi] |
| ReportGenerator.Confidences | src/web_app/utils/report_generator.py:84 | each detection's confidence, a missing one read as 0 |
| ReportGenerator.SummarizeDetections | src/web_app/utils/report_generator.py:71-92 | the count, and all zeros when empty; otherwise the mean confidence rounded to three decimals, and a minimum and maximum that bound every rounded confidence and are attained by some detection |
| ReportGenerator.GenerateReport | src/web_app/utils/report_generator.py:22-53 | the summary section is that of the analysed detections, the distribution section is theirs too, both count every detection, and the advice comes from the distribution |
| ReportGenerator.EmptyReport | src/web_app/utils/report_generator.py:94-206 | no detections give score 0, no percentages, "do not harvest yet", "wait" and "no fruit detected" |
| ReportGenerator.GenerateSummaryReport | src/web_app/utils/report_generator.py:262-291 | the number of reports; the mean score rounded to one decimal (0 when there are none), in [0, 100] when every score is; each distinct non-empty harvest advice exactly once |
| ImageProcessor.MaturityColor | src/web_app/utils/image_processor.py:154-168 | blue, red and green exactly for the three labels, gray for everything else |
| ImageProcessor.ColorIdentifiesLabel | src/web_app/utils/image_processor.py:162-168 | a label's colour is shared by no other value |
| ImageProcessor.CircleFor | src/web_app/utils/image_processor.py:132-135 | with width and height floored at 0, the centre lies half of each (rounded down) past the top-left corner, and the radius is half the smaller side (rounded down), but 1 for a side below 2 |
| ImageProcessor.CircleInscribed | src/web_app/utils/image_processor.py:132-136 | when both sides are at least 2 the circle lies inside the box |
| ImageProcessor.FlatBoxCircle | src/web_app/utils/image_processor.py:132-135 | a zero-width box still gets a circle of radius 1 |
| ImageProcessor.LabelBoxFor | src/web_app/utils/image_processor.py:141-144 | top at least 0, height th + 6, width tw + 6 from x1; sits right on the box when there is room, else at the image top |
| ImageProcessor.DetectionOps | src/web_app/utils/image_processor.py:114-147 | nothing for a box without four entries; otherwise the outline of the box, the circle `CircleFor` gives, the filled label box `LabelBoxFor` gives for the measured caption, and the white caption of the maturity and percent at the label's inner corner, all in the maturity colour |
| ImageProcessor.Drawable | src/web_app/utils/image_processor.py:114-121 | zero exactly when no box has four entries, and all of them exactly when every box has |
| ImageProcessor.DrawableSingle | src/web_app/utils/image_processor.py:116-121 | one detection is drawable exactly when its bbox has four entries |
| ImageProcessor.DrawableConcat | src/web_app/utils/image_processor.py:114-121 | the drawable detections of two runs add up |
| ImageProcessor.AllOps | src/web_app/utils/image_processor.py:114-147 | four calls per drawable detection |
| ImageProcessor.AllOpsSingle | src/web_app/utils/image_processor.py:114-147 | one detection makes exactly its own calls |
| ImageProcessor.AllOpsConcat | src/web_app/utils/image_processor.py:114-147 | the calls of two runs of detections are those of the first run followed by those of the second |
| ImageProcessor.DrawDetections | src/web_app/utils/image_processor.py:100-152 | the input image itself is untouched; all calls are drawn exactly when OpenCV accepts all of them, otherwise none |
| App.AllowedExtensions | src/web_app/app.py:35 | comma-free entries which, joined with commas, give back the setting |
| App.DefaultExtensions | src/web_app/app.py:35 | the default setting allows exactly jpg, jpeg, png, bmp and tiff |
| App.AllowedFile | src/web_app/app.py:52-55 | a name without a dot is rejected; an accepted name is longer than some allowed entry |
| App.AllowedFileByExtension | src/web_app/app.py:52-55 | a name is accepted exactly when the lower case of the text after its last dot is allowed |
| App.DoubleExtensionAccepted | src/web_app/app.py:52-55 | names ending ".tar.png" pass under the defaults: only the last extension counts |
| App.DisguisedExtensionRejected | src/web_app/app.py:52-55 | names ending ".png.exe" fail under the defaults |
| App.UpperCaseExtension | src/web_app/app.py:55 | names ending ".JPG" pass under the defaults |
| App.TrailingDotRejected | src/web_app/app.py:55 | names ending in a dot fail under the defaults |
| App.UntrimmedEntries | src/web_app/app.py:35 | "jpg, png" allows " png" with its space |
| App.PaddedEntryNeverMatches | src/web_app/app.py:52-55 | under "jpg, png" names ending ".png" fail |
| App.PageOffset | src/web_app/app.py:66-68 | page 1 starts at 0, and no page from 1 on starts before 0 |
| App.PagesAreContiguous | src/web_app/app.py:68 | consecutive pages start one page size apart |
| Pipeline.EveryDetectionReported | src/web_app/app.py:243-249 | the analysis keeps and analyses every detection in place, and the report counts each exactly once |
| Pipeline.ColorDetectionsLabelledFromPixels | src/web_app/app.py:243-246 | without a model, every detection with a non-empty crop is labelled from its pixels |

## Left out

- OpenCV: colour conversion, masking, blurring, morphology, contours, `HoughCircles`,
  `getTextSize` and the drawing calls are parameters. The mask is modelled only per pixel:
  `MaskIsOneHueBand` is a stand-alone fact about which pixels enter it, and no other member
  uses it, since contours enter as their area and bounding rectangle.
- YOLO: model loading, weight-path probing and inference are left out. A run is either a
  list of results or `None`, and `None` stands for an exception caught inside
  `_yolo_detection`.
- Floating point: all arithmetic is on exact reals. `round` is exact round-half-even, so
  float artefacts such as `round(2.675, 2)` are not reproduced. Constants such as 0.0005,
  0.02, 0.15 and 0.01 are taken as exact.
- Text.Lower: lower-cases ASCII letters only, not all of Unicode. The labels, the alias
  names and the default extensions are ASCII, so every stated example is exact.
- BlueberryDetector.Detect: the source's outer exception handler is not modelled. Both
  strategies catch their own errors, so it cannot change the outcome.
- BlueberryDetector.ColorDetection: an image with no pixels makes the colour conversion
  raise, and the handler returns an empty list. The model states this as "an empty frame
  gives no detections".
- BlueberryDetector.CircleDetection: the 16-bit wrap-around is modelled as written, so a
  circle reaching past the left or top edge gets an `x1` or `y1` near 65536, past the far
  edge (`CircleNearEdgeWraps`). The maturity analysis clamps these boxes again.
- MaturityAnalyzer.AnalyzeMaturity: the processing time and the resolution string are left
  out (clock and formatting). The in-place mutation of the caller's dicts becomes a new
  list. The outer exception handler is not modelled, since nothing inside raises on the
  modelled inputs.
- ReportGenerator: timestamps, `image_info`, `technical_details`, `save_report` and the
  always-empty `quality_trends` are left out.
- ReportGenerator.GenerateSummaryReport: Python builds the advice list from a set, whose
  order is unspecified. The model lists the advice in order of first appearance and
  states only its contents and the absence of duplicates.
- ReportGenerator.SummarizeDetections: a 'confidence' key present with value `None` makes
  the source's `sum` raise. The model reads `None` like an absent key, as 0, because
  both detectors always set a number.
- ImageProcessor.DrawDetections: the caption text and its `%.1f` formatting are kept as
  the pair (maturity value, percent) instead of a string. Whether OpenCV accepts a call
  is a parameter.
- App: Flask routes, uploads, PIL checks, `secure_filename`, the `type=int` parsing of
  query arguments and the databases are left out.
- `preprocess`, `preprocess_for_model`, `_enhance_image`, `extract_features`,
  `save_processed_image`, the database modules and the startup and test scripts are not
  part of this model.

Behaviours of the code that are easy to misread, modelled as written:

- A box at the last column or row stays zero-width or zero-height. It is not expanded.
  See `ClampAtRightEdgeIsEmpty`.
- A detection whose crop is empty keeps its label and confidence, defaulting to "unknown"
  and 0.0. It is not reset to "unknown" and 0.
- A mean hue of exactly 120 is "unknown". It is not "unripe".
- With nothing counted, the percentages map is empty. It does not hold zeros.
- There are four next-step lists, not five. Scores in [20, 40) share the lowest list.
- Labels are the Spanish strings `maduro`, `semimaduro`, `no_maduro` and `unknown`.
- An unusable image gives an empty detection list rather than an error.
