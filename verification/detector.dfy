/**
 `BlueberryDetector.detect` and the two strategies behind it: the trained (YOLO) detector and
 the colour-based detector with its Hough-circle fallback. OpenCV and the network are not
 modelled: their outputs (contours with their areas and bounding rectangles, the circles of a
 Hough search, the boxes of an inference run) are inputs, and the model decides what the
 source decides with them.
 */
module BlueberryDetector {
  import opened Wrappers
  import opened Text
  import opened Rounding
  import opened Detections
  import opened Fractions
  import opened Seqs

  // ---------------------------------------------------------------------------------------
  // Colour segmentation

  /** A pixel in OpenCV's HSV encoding: hue 0-179, saturation and value 0-255. */
  datatype Hsv = Hsv(h: int, s: int, v: int)

  /** An inclusive HSV range, as given to `cv2.inRange`. */
  datatype HsvRange = HsvRange(lower: Hsv, upper: Hsv) {
    predicate Contains(p: Hsv) {
      lower.h <= p.h <= upper.h && lower.s <= p.s <= upper.s && lower.v <= p.v <= upper.v
    }
  }

  const BLUE: HsvRange := HsvRange(Hsv(85, 20, 30), Hsv(140, 255, 255))
  const PURPLE: HsvRange := HsvRange(Hsv(140, 20, 30), Hsv(170, 255, 255))

  /** A pixel enters the mask (before the median blur and the morphology) when blue or purple. */
  predicate InMask(p: Hsv) {
    BLUE.Contains(p) || PURPLE.Contains(p)
  }

  /** The two ranges meet at hue 140, so together they are one range of hues 85 to 170. */
  lemma MaskIsOneHueBand(p: Hsv)
    ensures InMask(p) <==> 85 <= p.h <= 170 && 20 <= p.s <= 255 && 30 <= p.v <= 255
  {
  }

  // ---------------------------------------------------------------------------------------
  // Contour filter

  /** What OpenCV reports of one external contour: `contourArea` and `boundingRect`. */
  datatype Contour = Contour(area: real, x: int, y: int, w: int, h: int)

  /** `max(100, int(0.0005 * img_area))`: the smallest contour area kept. */
  function MinContourArea(f: Frame): (a: nat)
    ensures a >= 100 && a >= f.Area() / 2000
    ensures a == 100 || a == f.Area() / 2000
  {
    if f.Area() / 2000 > 100 then f.Area() / 2000 else 100
  }

  /** `w / float(h) if h > 0 else 0`. */
  function AspectRatio(w: int, h: int): real {
    if h > 0 then w as real / h as real else 0.0
  }

  /**
   The filter of the colour path: large enough, and roughly round. In integer terms the
   aspect test asks for a positive height with `h <= 2 w` and `5 w <= 9 h`.
   */
  function Survives(c: Contour, f: Frame): (b: bool)
    ensures b <==> c.area >= MinContourArea(f) as real && c.h > 0 && c.h <= 2 * c.w && 5 * c.w <= 9 * c.h
  {
    assert c.h > 0 ==>
      && (0.5 <= AspectRatio(c.w, c.h) <==> c.h <= 2 * c.w)
      && (AspectRatio(c.w, c.h) <= 1.8 <==> 5 * c.w <= 9 * c.h) by {
      if c.h > 0 {
        QuotientAtLeast(c.w as real, c.h as real, 0.5);
        QuotientAtMost(c.w as real, c.h as real, 1.8);
      }
    }
    && c.area >= MinContourArea(f) as real
    && 0.5 <= AspectRatio(c.w, c.h) <= 1.8
  }

  /** A contour with a flat bounding rectangle never survives. */
  lemma FlatContourDropped(c: Contour, f: Frame)
    requires c.h <= 0
    ensures !Survives(c, f)
  {
  }

  /** `min(0.99, area / (0.02 * img_area))`: an area-based score that saturates at 0.99. */
  function ContourConfidence(area: real, f: Frame): (r: real)
    requires f.Area() > 0
    ensures r <= 0.99 && r <= area / (0.02 * f.Area() as real)
    ensures r == 0.99 || r == area / (0.02 * f.Area() as real)
    ensures area >= 0.0 ==> r >= 0.0
  {
    var score := area / (0.02 * f.Area() as real);
    if score < 0.99 then score else 0.99
  }

  /** A larger contour never gets a lower confidence. */
  lemma ContourConfidenceMonotone(a: real, b: real, f: Frame)
    requires f.Area() > 0 && a <= b
    ensures ContourConfidence(a, f) <= ContourConfidence(b, f)
  {
    DivideMonotone(a, b, 0.02 * f.Area() as real);
  }

  /** The detection built from a surviving contour: its bounding rectangle as `[x, y, x+w, y+h]`. */
  function ContourDetection(c: Contour, f: Frame): (d: Detection)
    requires f.Area() > 0
    ensures |d.bbox| == 4 && d.bbox[0] == c.x && d.bbox[1] == c.y
    ensures d.bbox[2] - d.bbox[0] == c.w && d.bbox[3] - d.bbox[1] == c.h
    ensures d.confidence == Some(ContourConfidence(c.area, f)) && d.area == c.area
    ensures d.cls == "blueberry" && d.maturity == Missing
  {
    Detection(
      bbox := [c.x, c.y, c.x + c.w, c.y + c.h],
      confidence := Some(ContourConfidence(c.area, f)),
      cls := "blueberry",
      classId := None,
      area := c.area,
      maturity := Missing,
      maturityConfidence := None)
  }

  /** The contours that survive, in order, each as its detection. */
  function FilterContours(cs: seq<Contour>, f: Frame): (r: seq<Detection>)
    requires f.Area() > 0
    ensures |r| <= |cs|
    ensures forall i :: 0 <= i < |cs| && Survives(cs[i], f) ==> ContourDetection(cs[i], f) in r
    ensures forall j :: 0 <= j < |r| ==>
      exists i :: 0 <= i < |cs| && Survives(cs[i], f) && r[j] == ContourDetection(cs[i], f)
    ensures |r| == 0 <==> forall i :: 0 <= i < |cs| ==> !Survives(cs[i], f)
  {
    if |cs| == 0 then []
    else
      var rest := FilterContours(cs[1..], f);
      assert forall i :: 1 <= i < |cs| ==> cs[i] == cs[1..][i - 1];
      if Survives(cs[0], f) then [ContourDetection(cs[0], f)] + rest else rest
  }

  /** One contour gives its detection when it survives and nothing otherwise. */
  lemma FilterContoursSingle(c: Contour, f: Frame)
    requires f.Area() > 0
    ensures Survives(c, f) ==> FilterContours([c], f) == [ContourDetection(c, f)]
    ensures !Survives(c, f) ==> FilterContours([c], f) == []
  {
    assert [c][1..] == [];
  }

  /**
   Filtering consecutive runs of contours gives the detections of each run, one after the
   other: with the single-contour case this keeps the order and every repetition.
   */
  lemma {:induction false} FilterContoursConcat(a: seq<Contour>, b: seq<Contour>, f: Frame)
    requires f.Area() > 0
    ensures FilterContours(a + b, f) == FilterContours(a, f) + FilterContours(b, f)
  {
    if |a| == 0 {
      assert a + b == b;
    } else {
      TailOfConcat(a, b);
      FilterContoursConcat(a[1..], b, f);
      if Survives(a[0], f) {
        ConcatAssociates([ContourDetection(a[0], f)], FilterContours(a[1..], f), FilterContours(b, f));
      }
    }
  }

  // ---------------------------------------------------------------------------------------
  // Hough-circle fallback

  /** The parameters of the `cv2.HoughCircles` call. */
  datatype HoughParams = HoughParams(dp: real, minDist: nat, param1: nat, param2: nat, minRadius: nat, maxRadius: nat)

  /**
   The search radius bounds follow the smaller image side: the minimum is 1 % of it but at
   least 5 pixels, the maximum 15 % of it, both truncated to whole pixels.
   */
  function HoughParamsFor(f: Frame): (p: HoughParams)
    ensures p.dp == 1.2 && p.minDist == 20 && p.param1 == 60 && p.param2 == 30
    ensures p.minRadius >= 5
    ensures Min(f.width, f.height) < 600 ==> p.minRadius == 5
    ensures Min(f.width, f.height) >= 600 ==>
      100 * p.minRadius <= Min(f.width, f.height) < 100 * (p.minRadius + 1)
    ensures 100 * p.maxRadius <= 15 * Min(f.width, f.height) < 100 * (p.maxRadius + 1)
  {
    var side := Min(f.width, f.height);
    HoughParams(1.2, 20, 60, 30, if side / 100 > 5 then side / 100 else 5, 15 * side / 100)
  }

  function Min(a: nat, b: nat): nat {
    if a < b then a else b
  }

  /** Values of NumPy's `uint16`, the type the circles are cast to. */
  type U16 = n: int | 0 <= n < 0x1_0000

  /** A circle found by the search, after `np.uint16(np.around(circles))`. */
  datatype Circle = Circle(cx: U16, cy: U16, r: U16)

  /** `uint16` subtraction wraps: a negative difference comes back 2^16 higher. */
  function U16Sub(a: U16, b: U16): (r: U16)
    ensures a >= b ==> r == a - b
    ensures a < b ==> r == a - b + 0x1_0000
  {
    (a - b) % 0x1_0000
  }

  /** `uint16` addition wraps: a sum of 2^16 or more comes back 2^16 lower. */
  function U16Add(a: U16, b: U16): (r: U16)
    ensures a + b < 0x1_0000 ==> r == a + b
    ensures a + b >= 0x1_0000 ==> r == a + b - 0x1_0000
  {
    (a + b) % 0x1_0000
  }

  /**
   The detection around one circle: fixed confidence 0.5 and the circle's bounding square,
   its corners computed in `uint16`. The left and top corners are never negative, so the
   `max(0, ...)` guard leaves them as they are; the right and bottom ones are cut back to
   the last column and row.
   */
  function CircleDetection(c: Circle, f: Frame): (d: Detection)
    ensures d.confidence == Some(0.5) && d.cls == "blueberry" && |d.bbox| == 4
    ensures d.maturity == Missing && d.classId == None
    ensures d.bbox[0] == U16Sub(c.cx, c.r) && d.bbox[1] == U16Sub(c.cy, c.r)
    ensures U16Add(c.cx, c.r) <= f.width - 1 ==> d.bbox[2] == U16Add(c.cx, c.r)
    ensures U16Add(c.cx, c.r) > f.width - 1 ==> d.bbox[2] == f.width - 1
    ensures U16Add(c.cy, c.r) <= f.height - 1 ==> d.bbox[3] == U16Add(c.cy, c.r)
    ensures U16Add(c.cy, c.r) > f.height - 1 ==> d.bbox[3] == f.height - 1
    ensures d.area == ((U16Add(c.cx, c.r) - U16Sub(c.cx, c.r)) * (U16Add(c.cy, c.r) - U16Sub(c.cy, c.r))) as real
  {
    var x1, y1 := U16Sub(c.cx, c.r), U16Sub(c.cy, c.r);
    var x2, y2 := U16Add(c.cx, c.r), U16Add(c.cy, c.r);
    Detection(
      bbox := [if x1 > 0 then x1 else 0, if y1 > 0 then y1 else 0,
               if x2 < f.width - 1 then x2 else f.width - 1,
               if y2 < f.height - 1 then y2 else f.height - 1],
      confidence := Some(0.5),
      cls := "blueberry",
      classId := None,
      area := ((x2 - x1) * (y2 - y1)) as real,
      maturity := Missing,
      maturityConfidence := None)
  }

  /**
   When the radius exceeds the centre coordinate the `uint16` subtraction wraps, so the
   `max(0, ...)` guard does not help and the box starts to the right of where it ends.
   */
  lemma CircleNearEdgeWraps()
    ensures CircleDetection(Circle(3, 40, 5), Frame(100, 100)).bbox == [65534, 35, 8, 45]
  {
  }

  /** A circle that lies inside the image gets its exact bounding square. */
  lemma CircleInsideImage(c: Circle, f: Frame)
    requires c.r <= c.cx && c.r <= c.cy
    requires c.cx + c.r <= f.width - 1 && c.cy + c.r <= f.height - 1
    requires c.cx + c.r < 0x1_0000 && c.cy + c.r < 0x1_0000
    ensures CircleDetection(c, f).bbox == [c.cx - c.r, c.cy - c.r, c.cx + c.r, c.cy + c.r]
  {
  }

  function CircleDetections(cs: seq<Circle>, f: Frame): (r: seq<Detection>)
    ensures |r| == |cs|
    ensures forall i :: 0 <= i < |cs| ==> r[i] == CircleDetection(cs[i], f)
  {
    if |cs| == 0 then [] else [CircleDetection(cs[0], f)] + CircleDetections(cs[1..], f)
  }

  /**
   `_color_based_detection`: the contours that survive the filter, or, when none does, the
   circles of a Hough search. `contours` are what OpenCV finds in the cleaned mask, and
   `hough` runs the search (`None` when it finds nothing or raises). An empty image makes
   the colour conversion raise, which the source turns into an empty list.
   */
  function ColorDetection(f: Frame, contours: seq<Contour>, hough: HoughParams -> Option<seq<Circle>>)
    : (r: seq<Detection>)
    ensures forall d :: d in r ==>
      && d.cls == "blueberry" && |d.bbox| == 4 && d.maturity == Missing
      && d.confidence.Some? && d.confidence.value <= 0.99
    ensures f.Area() > 0 && (exists i :: 0 <= i < |contours| && Survives(contours[i], f)) ==>
      r == FilterContours(contours, f)
    ensures (forall i :: 0 <= i < |contours| ==> !Survives(contours[i], f)) ==>
      forall d :: d in r ==> d.confidence == Some(0.5)
    ensures f.Area() > 0 && (forall i :: 0 <= i < |contours| ==> !Survives(contours[i], f)) ==>
      (hough(HoughParamsFor(f)).None? ==> r == [])
      && (hough(HoughParamsFor(f)).Some? ==> r == CircleDetections(hough(HoughParamsFor(f)).value, f))
    ensures f.Area() == 0 ==> r == []
  {
    if f.Area() == 0 then []
    else
      var kept := FilterContours(contours, f);
      if |kept| > 0 then kept
      else
        match hough(HoughParamsFor(f))
        case None => []
        case Some(circles) => CircleDetections(circles, f)
  }

  /** The Hough search is consulted only when no contour survives the filter. */
  lemma HoughOnlyAsFallback(f: Frame, contours: seq<Contour>, h1: HoughParams -> Option<seq<Circle>>,
                            h2: HoughParams -> Option<seq<Circle>>)
    requires exists i :: 0 <= i < |contours| && Survives(contours[i], f)
    ensures ColorDetection(f, contours, h1) == ColorDetection(f, contours, h2)
  {
  }

  /**
   An empty mask (no contours at all) leaves the Hough search: one detection per circle it
   finds, in order, each with confidence 0.5, and none when it finds nothing or fails.
   */
  lemma EmptyMaskFallsBackToCircles(f: Frame, hough: HoughParams -> Option<seq<Circle>>)
    ensures f.Area() > 0 && hough(HoughParamsFor(f)).Some? ==>
      ColorDetection(f, [], hough) == CircleDetections(hough(HoughParamsFor(f)).value, f)
    ensures hough(HoughParamsFor(f)).None? ==> ColorDetection(f, [], hough) == []
    ensures forall d :: d in ColorDetection(f, [], hough) ==> d.confidence == Some(0.5)
  {
  }

  // ---------------------------------------------------------------------------------------
  // Trained detector

  /** The class names a YOLO result or model carries: a list, a dict, or something else. */
  datatype NameTable = NameList(names: seq<string>) | NameDict(entries: map<int, string>) | OtherNames

  /** Python truthiness of an optional name table: empty lists and dicts are false. */
  predicate Truthy(t: Option<NameTable>) {
    match t
    case None => false
    case Some(NameList(l)) => |l| > 0
    case Some(NameDict(m)) => |m| > 0
    case Some(OtherNames) => true
  }

  /** `getattr(result, 'names', None) or getattr(self.model, 'names', None) or {}`. */
  function ResolveNames(fromResult: Option<NameTable>, fromModel: Option<NameTable>): (t: NameTable)
    ensures Truthy(fromResult) ==> t == fromResult.value
    ensures !Truthy(fromResult) && Truthy(fromModel) ==> t == fromModel.value
    ensures !Truthy(fromResult) && !Truthy(fromModel) ==> t == NameDict(map[])
  {
    if Truthy(fromResult) then fromResult.value
    else if Truthy(fromModel) then fromModel.value
    else NameDict(map[])
  }

  /** The class name of a class id, `class_<id>` when the table has no entry for it. */
  function ClassName(t: NameTable, id: int): (name: string)
    ensures t.NameList? && 0 <= id < |t.names| ==> name == t.names[id]
    ensures t.NameDict? && id in t.entries ==> name == t.entries[id]
    ensures !(t.NameList? && 0 <= id < |t.names|) && !(t.NameDict? && id in t.entries) ==>
      name == "class_" + IntToDecimal(id)
  {
    match t
    case NameList(l) => if 0 <= id < |l| then l[id] else "class_" + IntToDecimal(id)
    case NameDict(m) => if id in m then m[id] else "class_" + IntToDecimal(id)
    case OtherNames => "class_" + IntToDecimal(id)
  }

  /**
   `str(name).strip().lower().replace(' ', '_').replace('-', '_')`: the stripped name, each
   character passed through `CanonicalChar`.
   */
  function CanonicalClassName(name: string): (c: string)
    ensures |c| == |Strip(name)|
    ensures forall i :: 0 <= i < |c| ==> c[i] == CanonicalChar(Strip(name)[i])
  {
    Replace(Replace(Lower(Strip(name)), ' ', '_'), '-', '_')
  }

  /** The canonical spellings that stand for a maturity class. */
  const ALIASES: set<string> :=
    {"maduro", "ripe", "semimaduro", "semi_ripe", "semi-ripe", "semi_maduro", "no_maduro", "unripe", "inmaduro"}

  /**
   The maturity a class name stands for, if any: its canonical spelling looked up in the
   alias table. The source also lists 'semi-ripe', which can never match because hyphens
   were already replaced.
   */
  function NormalizeClassName(name: string): (m: Option<Maturity>)
    ensures var n := CanonicalClassName(name);
      && (m == Some(Maduro) <==> n == "maduro" || n == "ripe")
      && (m == Some(SemiMaduro) <==> n == "semimaduro" || n == "semi_ripe" || n == "semi-ripe" || n == "semi_maduro")
      && (m == Some(NoMaduro) <==> n == "no_maduro" || n == "unripe" || n == "inmaduro")
      && (m == None <==> n !in ALIASES)
      && m != Some(Unknown)
  {
    var n := CanonicalClassName(name);
    if n == "maduro" then Some(Maduro)
    else if n == "semimaduro" then Some(SemiMaduro)
    else if n == "no_maduro" then Some(NoMaduro)
    else if n == "ripe" then Some(Maduro)
    else if n == "semi_ripe" || n == "semi-ripe" || n == "semi_maduro" then Some(SemiMaduro)
    else if n == "unripe" || n == "inmaduro" then Some(NoMaduro)
    else None
  }

  /** The canonical spelling contains no upper-case ASCII, no space and no hyphen. */
  lemma CanonicalShape(name: string)
    ensures forall i :: 0 <= i < |CanonicalClassName(name)| ==>
      var c := CanonicalClassName(name)[i];
      c != ' ' && c != '-' && !('A' <= c <= 'Z')
  {
    var lowered := Lower(Strip(name));
    var spaced := Replace(lowered, ' ', '_');
    var c := Replace(spaced, '-', '_');
    assert c == CanonicalClassName(name);
    forall i | 0 <= i < |c|
      ensures c[i] != ' ' && c[i] != '-' && !('A' <= c[i] <= 'Z')
    {
      assert !('A' <= lowered[i] <= 'Z');
    }
  }

  /**
   What canonicalisation does to one character of the stripped name: capitals become small
   letters, spaces and hyphens underscores, and every other character stays.
   */
  function CanonicalChar(ch: char): (r: char)
    ensures r != ' ' && r != '-' && !('A' <= r <= 'Z')
    ensures 'A' <= ch <= 'Z' ==> r as int == ch as int + 32
    ensures ch == ' ' || ch == '-' ==> r == '_'
    ensures ch != ' ' && ch != '-' && !('A' <= ch <= 'Z') ==> r == ch
    ensures !IsSpace(ch) ==> !IsSpace(r)
  {
    var lowered := LowerChar(ch);
    if lowered == ' ' || lowered == '-' then '_' else lowered
  }

  /** The canonical spelling neither starts nor ends with white space. */
  lemma CanonicalUnpadded(name: string)
    ensures |CanonicalClassName(name)| > 0 ==>
      !IsSpace(CanonicalClassName(name)[0]) && !IsSpace(CanonicalClassName(name)[|CanonicalClassName(name)| - 1])
  {
  }

  /** Canonicalising a canonical class name changes nothing. */
  lemma CanonicalIdempotent(name: string)
    ensures CanonicalClassName(CanonicalClassName(name)) == CanonicalClassName(name)
  {
    var c := CanonicalClassName(name);
    CanonicalShape(name);
    CanonicalUnpadded(name);
    StripUnpadded(c);
    LowerUnchanged(c);
    ReplaceAbsent(c, ' ', '_');
    ReplaceAbsent(c, '-', '_');
  }

  /** Text already in canonical form is its own canonical spelling. */
  lemma CanonicalOfPlain(n: string)
    requires |n| > 0 ==> !IsSpace(n[0]) && !IsSpace(n[|n| - 1])
    requires forall i :: 0 <= i < |n| ==> n[i] != ' ' && n[i] != '-' && !('A' <= n[i] <= 'Z')
    ensures CanonicalClassName(n) == n
  {
    StripUnpadded(n);
    LowerUnchanged(n);
    ReplaceAbsent(n, ' ', '_');
    ReplaceAbsent(n, '-', '_');
  }

  /** Every maturity class the detector can assign is recognised under its own label. */
  lemma NormalizeOwnLabel(m: Maturity)
    requires m != Unknown
    ensures NormalizeClassName(m.Name()) == Some(m)
  {
    CanonicalOfPlain(m.Name());
  }

  /** Padding, capitals and the hyphen of " Semi-Ripe " all disappear in its canonical spelling. */
  lemma CanonicalSemiRipe()
    ensures CanonicalClassName(" Semi-Ripe ") == "semi_ripe"
  {
    SemiRipeStripped();
    SemiRipeLowered();
    ReplaceAbsent("semi-ripe", ' ', '_');
    SemiRipeUnhyphenated();
  }

  lemma SemiRipeStripped()
    ensures Strip(" Semi-Ripe ") == "Semi-Ripe"
  {
    assert " Semi-Ripe " == [' '] + "Semi-Ripe" + [' '];
    StripOneSpaceEachSide("Semi-Ripe");
  }

  lemma SemiRipeLowered()
    ensures Lower("Semi-Ripe") == "semi-ripe"
  {
  }

  lemma SemiRipeUnhyphenated()
    ensures Replace("semi-ripe", '-', '_') == "semi_ripe"
  {
  }

  /** English names are recognised whatever their case, padding and separator. */
  lemma NormalizeSemiRipe()
    ensures NormalizeClassName(" Semi-Ripe ") == Some(SemiMaduro)
  {
    CanonicalSemiRipe();
  }

  lemma NormalizeUpperRipe()
    ensures NormalizeClassName("RIPE") == Some(Maduro)
  {
    StripUnpadded("RIPE");
    assert Lower("RIPE") == "ripe";
    ReplaceAbsent("ripe", ' ', '_');
    ReplaceAbsent("ripe", '-', '_');
  }

  /**
   A class name already in canonical form (say "blueberry" or "class_3") carries no maturity
   unless it is one of the alias spellings.
   */
  lemma NormalizeOtherName(n: string)
    requires |n| > 0 ==> !IsSpace(n[0]) && !IsSpace(n[|n| - 1])
    requires forall i :: 0 <= i < |n| ==> n[i] != ' ' && n[i] != '-' && !('A' <= n[i] <= 'Z')
    requires n !in ALIASES
    ensures NormalizeClassName(n) == None
  {
    CanonicalOfPlain(n);
  }

  /** One box of a YOLO result: corner coordinates, confidence and class id as read from the tensors. */
  datatype YoloBox = YoloBox(x1: real, y1: real, x2: real, y2: real, conf: real, classId: int)

  /** One result of an inference run: its boxes (`None` when absent) and its class names. */
  datatype YoloResult = YoloResult(boxes: Option<seq<YoloBox>>, names: Option<NameTable>)

  /** `maturity_cls if maturity_cls else None`. */
  function MaturityTag(m: Option<Maturity>): (t: Tag)
    requires m != Some(Unknown)
    ensures t == Null <==> m == None
    ensures t.Named? ==> IsModelLabel(t.value) && t.value == m.value.Name()
  {
    match m
    case Some(v) => Named(v.Name())
    case None => Null
  }

  /** The detection for one YOLO box: truncated corners, the class name and its maturity, if any. */
  function YoloDetection(b: YoloBox, names: NameTable): (d: Detection)
    ensures d.bbox == [Truncate(b.x1), Truncate(b.y1), Truncate(b.x2), Truncate(b.y2)]
    ensures d.confidence == Some(b.conf) && d.classId == Some(b.classId)
    ensures d.cls == ClassName(names, b.classId)
    ensures d.maturity == Null || (d.maturity.Named? && IsModelLabel(d.maturity.value))
    ensures d.maturity == Null <==> NormalizeClassName(d.cls) == None
    ensures NormalizeClassName(d.cls).Some? ==> d.maturity == Named(NormalizeClassName(d.cls).value.Name())
  {
    var name := ClassName(names, b.classId);
    Detection(
      bbox := [Truncate(b.x1), Truncate(b.y1), Truncate(b.x2), Truncate(b.y2)],
      confidence := Some(b.conf),
      cls := name,
      classId := Some(b.classId),
      area := (b.x2 - b.x1) * (b.y2 - b.y1),
      maturity := MaturityTag(NormalizeClassName(name)),
      maturityConfidence := None)
  }

  function YoloBoxesDetections(boxes: seq<YoloBox>, names: NameTable): (r: seq<Detection>)
    ensures |r| == |boxes|
    ensures forall i :: 0 <= i < |boxes| ==> r[i] == YoloDetection(boxes[i], names)
  {
    if |boxes| == 0 then [] else [YoloDetection(boxes[0], names)] + YoloBoxesDetections(boxes[1..], names)
  }

  /** How many boxes a result carries; a result without boxes carries none. */
  function Boxes(res: YoloResult): seq<YoloBox> {
    if res.boxes.Some? then res.boxes.value else []
  }

  /** How many boxes the results carry together. */
  function BoxCount(results: seq<YoloResult>): nat {
    if |results| == 0 then 0 else |Boxes(results[0])| + BoxCount(results[1..])
  }

  /** All boxes of all results, in order; a result without boxes contributes nothing. */
  function YoloResultsDetections(results: seq<YoloResult>, modelNames: Option<NameTable>): (r: seq<Detection>)
    ensures |r| == BoxCount(results)
    ensures forall d :: d in r ==> |d.bbox| == 4 && d.confidence.Some?
    ensures forall d :: d in r ==> d.maturity == Null || (d.maturity.Named? && IsModelLabel(d.maturity.value))
  {
    if |results| == 0 then []
    else
      YoloBoxesDetections(Boxes(results[0]), ResolveNames(results[0].names, modelNames))
      + YoloResultsDetections(results[1..], modelNames)
  }

  /** The detections of consecutive runs of results are those of each run, one after the other. */
  lemma {:induction false} YoloResultsConcat(a: seq<YoloResult>, b: seq<YoloResult>, modelNames: Option<NameTable>)
    ensures YoloResultsDetections(a + b, modelNames)
         == YoloResultsDetections(a, modelNames) + YoloResultsDetections(b, modelNames)
  {
    if |a| == 0 {
      assert a + b == b;
    } else {
      TailOfConcat(a, b);
      YoloResultsConcat(a[1..], b, modelNames);
      ConcatAssociates(YoloBoxesDetections(Boxes(a[0]), ResolveNames(a[0].names, modelNames)),
                       YoloResultsDetections(a[1..], modelNames), YoloResultsDetections(b, modelNames));
    }
  }

  /**
   One result contributes a detection for each of its boxes, in order, named from its own
   table or else the model's; without boxes it contributes none.
   */
  lemma YoloSingleResult(res: YoloResult, modelNames: Option<NameTable>)
    ensures res.boxes.None? ==> YoloResultsDetections([res], modelNames) == []
    ensures res.boxes.Some? ==>
      YoloResultsDetections([res], modelNames) == YoloBoxesDetections(res.boxes.value, ResolveNames(res.names, modelNames))
  {
    assert [res][1..] == [];
    assert YoloResultsDetections([res], modelNames)
        == YoloBoxesDetections(Boxes(res), ResolveNames(res.names, modelNames)) + [];
  }

  /** `_yolo_detection`: `run` is the inference output, `None` when inference raised. */
  function YoloDetections(run: Option<seq<YoloResult>>, modelNames: Option<NameTable>): (r: seq<Detection>)
    ensures forall d :: d in r ==> |d.bbox| == 4 && d.confidence.Some?
    ensures forall d :: d in r ==> d.maturity == Null || (d.maturity.Named? && IsModelLabel(d.maturity.value))
    ensures run.None? ==> r == []
    ensures run.Some? ==> |r| == BoxCount(run.value)
  {
    match run
    case None => []
    case Some(results) => YoloResultsDetections(results, modelNames)
  }

  // ---------------------------------------------------------------------------------------
  // Strategy dispatch

  /**
   `detect`: with a model loaded, its detections unless there are none, in which case the
   colour detections if there are any, else the (empty) model list; without a model, the
   colour detections. Both strategies catch their own errors, so the source's outer
   handler never changes the outcome.
   */
  function Detect(modelLoaded: bool, yolo: seq<Detection>, color: seq<Detection>): (r: seq<Detection>)
    ensures r == (if modelLoaded && |yolo| > 0 then yolo else color)
  {
    if modelLoaded then
      if |yolo| == 0 then
        if |color| > 0 then color else yolo
      else yolo
    else color
  }

  /** The whole detection step for one image, every strategy fed from its collaborator's output. */
  function DetectImage(modelLoaded: bool, run: Option<seq<YoloResult>>, modelNames: Option<NameTable>,
                       f: Frame, contours: seq<Contour>, hough: HoughParams -> Option<seq<Circle>>)
    : (r: seq<Detection>)
    ensures forall d :: d in r ==> |d.bbox| == 4 && d.confidence.Some?
    ensures !modelLoaded ==> r == ColorDetection(f, contours, hough)
    ensures modelLoaded && run.None? ==> r == ColorDetection(f, contours, hough)
    ensures modelLoaded && run.Some? && BoxCount(run.value) > 0 ==> r == YoloDetections(run, modelNames)
    ensures modelLoaded && run.Some? && BoxCount(run.value) == 0 ==> r == ColorDetection(f, contours, hough)
  {
    Detect(modelLoaded, YoloDetections(run, modelNames), ColorDetection(f, contours, hough))
  }
}
