/**
 `ImageProcessor`: the colour table and the drawing geometry of the annotated image. The
 pixels are opaque; drawing is the list of shapes placed on a copy of the input, and the
 text measurement and the acceptance of each drawing call by OpenCV are parameters.
 */
module ImageProcessor {
  import opened Wrappers
  import opened Detections
  import opened Seqs

  /** An RGB triple. */
  datatype Rgb = Rgb(r: int, g: int, b: int)

  const BLUE_RGB := Rgb(0, 123, 255)
  const RED_RGB := Rgb(220, 53, 69)
  const GREEN_RGB := Rgb(40, 167, 69)
  const GRAY_RGB := Rgb(128, 128, 128)
  const WHITE_RGB := Rgb(255, 255, 255)

  /**
   `_get_maturity_color`: ripe is blue, half-ripe red, unripe green, and any other value
   (unknown, `None`, an unexpected string) gray.
   */
  function MaturityColor(k: Key): (c: Rgb)
    ensures k == Label("maduro") <==> c == BLUE_RGB
    ensures k == Label("semimaduro") <==> c == RED_RGB
    ensures k == Label("no_maduro") <==> c == GREEN_RGB
    ensures !(k.Label? && IsModelLabel(k.name)) <==> c == GRAY_RGB
  {
    match k
    case Label("maduro") => BLUE_RGB
    case Label("semimaduro") => RED_RGB
    case Label("no_maduro") => GREEN_RGB
    case Label("unknown") => GRAY_RGB
    case _ => GRAY_RGB
  }

  /** The colour tells the three labels apart from each other and from everything else. */
  lemma ColorIdentifiesLabel(k1: Key, k2: Key)
    requires k1.Label? && IsModelLabel(k1.name)
    ensures MaturityColor(k1) == MaturityColor(k2) <==> k1 == k2
  {
  }

  datatype Point = Point(x: int, y: int)

  /** The circle drawn inside a box. */
  datatype Ring = Ring(center: Point, radius: int)

  /** `max(0, b - a)`: the extent of a box along one axis, floored at 0. */
  function Extent(a: int, b: int): nat {
    if b - a > 0 then b - a else 0
  }

  /**
   The circle of `_draw_detections`: the box's width and height floored at 0, the centre at
   half of each (rounded down), the radius half the smaller side (rounded down) but at
   least 1.
   */
  function CircleFor(x1: int, y1: int, x2: int, y2: int): (c: Ring)
    ensures c.radius >= 1
    ensures x1 <= c.center.x && y1 <= c.center.y
    ensures x1 < x2 ==> c.center.x <= x2
    ensures y1 < y2 ==> c.center.y <= y2
    ensures x2 <= x1 ==> c.center.x == x1
    ensures y2 <= y1 ==> c.center.y == y1
    ensures 2 * (c.center.x - x1) <= Extent(x1, x2) < 2 * (c.center.x - x1) + 2
    ensures 2 * (c.center.y - y1) <= Extent(y1, y2) < 2 * (c.center.y - y1) + 2
    ensures var side := if Extent(x1, x2) < Extent(y1, y2) then Extent(x1, x2) else Extent(y1, y2);
      && (side >= 2 ==> 2 * c.radius <= side < 2 * c.radius + 2)
      && (side < 2 ==> c.radius == 1)
  {
    var w := Extent(x1, x2);
    var h := Extent(y1, y2);
    var side := if w < h then w else h;
    Ring(Point(x1 + w / 2, y1 + h / 2), if side / 2 > 1 then side / 2 else 1)
  }

  /** When both sides are at least 2 pixels the circle lies inside its box. */
  lemma CircleInscribed(x1: int, y1: int, x2: int, y2: int)
    requires x2 - x1 >= 2 && y2 - y1 >= 2
    ensures var c := CircleFor(x1, y1, x2, y2);
      && x1 <= c.center.x - c.radius && c.center.x + c.radius <= x2
      && y1 <= c.center.y - c.radius && c.center.y + c.radius <= y2
  {
  }

  /** A box with no width still gets a circle of radius 1, reaching one pixel past it. */
  lemma FlatBoxCircle(x: int, y1: int, y2: int)
    requires y1 <= y2
    ensures CircleFor(x, y1, x, y2) == Ring(Point(x, y1 + (y2 - y1) / 2), 1)
  {
  }

  /** The label background: top-left and bottom-right corners. */
  datatype LabelBox = LabelBox(left: int, top: int, right: int, bottom: int)

  const PAD := 3

  /**
   The label box for text of size `tw` by `th` at a box corner (x1, y1): above the box,
   pushed down to the image top when there is no room, `th + 6` high and `tw + 6` wide.
   */
  function LabelBoxFor(x1: int, y1: int, tw: nat, th: nat): (l: LabelBox)
    ensures l.top >= 0
    ensures l.bottom - l.top == th + 2 * PAD
    ensures l.right - l.left == tw + 2 * PAD && l.left == x1
    ensures y1 >= th + 2 * PAD ==> l.bottom == y1
    ensures y1 < th + 2 * PAD ==> l.top == 0
  {
    var top := if y1 - th - 2 * PAD > 0 then y1 - th - 2 * PAD else 0;
    LabelBox(x1, top, x1 + tw + 2 * PAD, top + th + 2 * PAD)
  }

  /** The label text: the maturity value read from the detection and its confidence in percent. */
  datatype Caption = Caption(maturity: Key, percent: real)

  /** One OpenCV drawing call on the annotated copy. */
  datatype DrawOp =
    | Rectangle(p1: Point, p2: Point, color: Rgb, thickness: int)
    | Circle(center: Point, radius: int, color: Rgb, thickness: int)
    | Text(caption: Caption, origin: Point, color: Rgb)

  /**
   The calls one detection makes: nothing unless its bbox has 4 entries; otherwise its
   outline, its circle, the filled label background and the white text inside it, all in
   the colour of its maturity.
   */
  function DetectionOps(d: Detection, textSize: Caption -> (nat, nat)): (ops: seq<DrawOp>)
    ensures |d.bbox| != 4 ==> ops == []
    ensures |d.bbox| == 4 ==> |ops| == 4
    ensures |d.bbox| == 4 ==>
      && ops[0] == Rectangle(Point(d.bbox[0], d.bbox[1]), Point(d.bbox[2], d.bbox[3]), MaturityColor(KeyOf(d.maturity)), 2)
      && ops[1].Circle? && ops[1].color == MaturityColor(KeyOf(d.maturity))
      && ops[2].Rectangle? && ops[2].color == MaturityColor(KeyOf(d.maturity)) && ops[2].thickness == -1
      && ops[3].Text? && ops[3].color == WHITE_RGB
    ensures |d.bbox| == 4 ==>
      ops[2].p1.y >= 0 && ops[2].p1.y <= ops[3].origin.y <= ops[2].p2.y && ops[2].p1.x < ops[3].origin.x < ops[2].p2.x
    ensures |d.bbox| == 4 ==>
      var color := MaturityColor(KeyOf(d.maturity));
      var ring := CircleFor(d.bbox[0], d.bbox[1], d.bbox[2], d.bbox[3]);
      var caption := Caption(KeyOf(d.maturity), d.confidence.GetOr(0.0) * 100.0);
      var l := LabelBoxFor(d.bbox[0], d.bbox[1], textSize(caption).0, textSize(caption).1);
      && ops[1] == Circle(ring.center, ring.radius, color, 2)
      && ops[2] == Rectangle(Point(l.left, l.top), Point(l.right, l.bottom), color, -1)
      && ops[3] == Text(caption, Point(d.bbox[0] + PAD, l.bottom - PAD), WHITE_RGB)
  {
    if |d.bbox| != 4 then []
    else
      var x1, y1, x2, y2 := d.bbox[0], d.bbox[1], d.bbox[2], d.bbox[3];
      var color := MaturityColor(KeyOf(d.maturity));
      var ring := CircleFor(x1, y1, x2, y2);
      var caption := Caption(KeyOf(d.maturity), d.confidence.GetOr(0.0) * 100.0);
      var (tw, th) := textSize(caption);
      var l := LabelBoxFor(x1, y1, tw, th);
      [Rectangle(Point(x1, y1), Point(x2, y2), color, 2),
       Circle(ring.center, ring.radius, color, 2),
       Rectangle(Point(l.left, l.top), Point(l.right, l.bottom), color, -1),
       Text(caption, Point(x1 + PAD, l.bottom - PAD), WHITE_RGB)]
  }

  /** How many of the detections have a 4-entry bbox: none exactly when no bbox has 4 entries, all exactly when every one has. */
  function Drawable(dets: seq<Detection>): (n: nat)
    ensures n <= |dets|
    ensures n == 0 <==> forall i :: 0 <= i < |dets| ==> |dets[i].bbox| != 4
    ensures n == |dets| <==> forall i :: 0 <= i < |dets| ==> |dets[i].bbox| == 4
  {
    if |dets| == 0 then 0
    else
      var init := dets[..|dets| - 1];
      assert forall i :: 0 <= i < |init| ==> init[i] == dets[i];
      Drawable(init) + (if |dets[|dets| - 1].bbox| == 4 then 1 else 0)
  }

  /** Counting the drawable detections of consecutive runs adds up the counts of each run. */
  lemma {:induction false} DrawableConcat(a: seq<Detection>, b: seq<Detection>)
    ensures Drawable(a + b) == Drawable(a) + Drawable(b)
  {
    if |b| == 0 {
      assert a + b == a;
    } else {
      InitOfConcat(a, b);
      DrawableConcat(a, b[..|b| - 1]);
    }
  }

  /** One detection is drawable exactly when its bbox has 4 entries. */
  lemma DrawableSingle(d: Detection)
    ensures Drawable([d]) == if |d.bbox| == 4 then 1 else 0
  {
  }

  /** The calls of all detections, in order: four for each drawable detection. */
  function AllOps(dets: seq<Detection>, textSize: Caption -> (nat, nat)): (ops: seq<DrawOp>)
    ensures |ops| == 4 * Drawable(dets)
  {
    if |dets| == 0 then [] else AllOps(dets[..|dets| - 1], textSize) + DetectionOps(dets[|dets| - 1], textSize)
  }

  /** One detection makes exactly its own calls. */
  lemma AllOpsSingle(d: Detection, textSize: Caption -> (nat, nat))
    ensures AllOps([d], textSize) == DetectionOps(d, textSize)
  {
    assert [d][..0] == [];
  }

  /**
   The calls of consecutive runs of detections are those of each run, one after the other:
   with the single-detection case, the calls of every detection in the order of the list.
   */
  lemma {:induction false} AllOpsConcat(a: seq<Detection>, b: seq<Detection>, textSize: Caption -> (nat, nat))
    ensures AllOps(a + b, textSize) == AllOps(a, textSize) + AllOps(b, textSize)
  {
    if |b| == 0 {
      assert a + b == a;
    } else {
      var init := b[..|b| - 1];
      InitOfConcat(a, b);
      AllOpsConcat(a, init, textSize);
      ConcatAssociates(AllOps(a, textSize), AllOps(init, textSize), DetectionOps(b[|b| - 1], textSize));
    }
  }

  /** The annotated image: the untouched input and the shapes drawn over its copy. */
  datatype Annotated<Img> = Annotated(base: Img, ops: seq<DrawOp>)

  /** OpenCV accepts every one of the calls. */
  predicate AllAccepted(ops: seq<DrawOp>, accepts: DrawOp -> bool) {
    forall i :: 0 <= i < |ops| ==> accepts(ops[i])
  }

  /**
   `_draw_detections`: four calls per detection with a 4-entry bbox and none for the rest,
   drawn on a copy so the input itself is never changed. When OpenCV rejects any call the
   exception handler returns the input image with nothing drawn.
   */
  function DrawDetections<Img>(image: Img, dets: seq<Detection>, textSize: Caption -> (nat, nat),
                               accepts: DrawOp -> bool): (a: Annotated<Img>)
    ensures a.base == image
    ensures a.ops == [] || a.ops == AllOps(dets, textSize)
    ensures AllAccepted(AllOps(dets, textSize), accepts) <==> |a.ops| == 4 * Drawable(dets)
    ensures forall op :: op in a.ops ==> accepts(op)
  {
    var ops := AllOps(dets, textSize);
    if AllAccepted(ops, accepts) then Annotated(image, ops)
    else Annotated(image, [])
  }
}
