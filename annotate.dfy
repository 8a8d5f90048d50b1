/** `draw_detections` (app.py:90-123) as a plan of drawing commands. The
    loop visits the detections in order and, for each, draws the box
    outline, a filled label background on the box's top edge and the white
    label text. Pixels are not modelled: the result is the ordered list of
    OpenCV calls. The label's text formatting and its rendered size are
    supplied by the caller (`fmt`, `measure`). */
module Annotate {

  import opened Options
  import opened Defects
  import Preprocess

  /** A colour as OpenCV's (blue, green, red) triple. */
  datatype Bgr = Bgr(b: int, g: int, r: int)

  datatype Point = Point(x: int, y: int)

  /** The size `getTextSize` reports for a label. */
  datatype TextSize = TextSize(width: nat, height: nat)

  /** One drawing call: `cv2.rectangle` or `cv2.putText`. */
  datatype Command =
    | Rectangle(corner1: Point, corner2: Point, color: Bgr, thickness: int)
    | PutText(text: string, origin: Point, fontScale: real, color: Bgr, thickness: int)

  /** OpenCV's thickness for a filled shape. */
  const Filled: int := -1
  const OutlineThickness: int := 2
  const TextThickness: int := 2
  const FontScale: real := 0.5
  const White: Bgr := Bgr(255, 255, 255)

  /** The colour table of app.py:97-103. */
  const Palette: map<string, Bgr> := map[
    "solder_bridge" := Bgr(0, 0, 255),
    "missing_component" := Bgr(255, 0, 0),
    "cold_solder" := Bgr(0, 165, 255),
    "misaligned" := Bgr(0, 255, 255),
    "damaged_trace" := Bgr(128, 0, 128)
  ]

  /** The fallback colour of app.py:110. */
  const DefaultColor: Bgr := Bgr(0, 255, 0)

  predicate IsBgr(c: Bgr)
  {
    0 <= c.b <= 255 && 0 <= c.g <= 255 && 0 <= c.r <= 255
  }

  /** `colors.get(defect_type, (0, 255, 0))`: a valid colour, which is the
      default exactly for the types the table does not know. */
  function ColorFor(kind: string): (c: Bgr)
    ensures IsBgr(c)
    ensures c == DefaultColor <==> kind !in Palette
    ensures kind in Palette ==> c == Palette[kind]
  {
    if kind in Palette then Palette[kind] else DefaultColor
  }

  /** The label `"{type}: {confidence:.2f}"`; `fmt` renders the number. */
  function Label(d: Detection, fmt: real -> string): string
  {
    d.kind + ": " + fmt(d.confidence)
  }

  /** The three calls made for one detection. */
  function DetectionCommands(d: Detection, fmt: real -> string, measure: string -> TextSize): seq<Command>
  {
    var color := ColorFor(d.kind);
    var caption := Label(d, fmt);
    var size := measure(caption);
    var b := d.bbox;
    [ Rectangle(Point(b.x1, b.y1), Point(b.x2, b.y2), color, OutlineThickness),
      Rectangle(Point(b.x1, b.y1 - size.height - 10), Point(b.x1 + size.width, b.y1), color, Filled),
      PutText(caption, Point(b.x1, b.y1 - 5), FontScale, White, TextThickness) ]
  }

  /** The calls for a whole list, detection after detection. */
  function Plan(ds: seq<Detection>, fmt: real -> string, measure: string -> TextSize): seq<Command>
  {
    if ds == [] then []
    else Plan(ds[..|ds| - 1], fmt, measure) + DetectionCommands(ds[|ds| - 1], fmt, measure)
  }

  /** `draw_detections`: `None` when the image does not decode, otherwise
      the calls made on it, in order. */
  method DrawDetections(image: Option<Preprocess.Shape>, detections: seq<Detection>,
                        fmt: real -> string, measure: string -> TextSize)
    returns (plan: Option<seq<Command>>)
    ensures plan.None? <==> image.None?
    ensures plan.Some? ==> plan.value == Plan(detections, fmt, measure)
  {
    if image.None? {
      return None;
    }
    var drawn: seq<Command> := [];
    var i := 0;
    while i < |detections|
      invariant 0 <= i <= |detections|
      invariant drawn == Plan(detections[..i], fmt, measure)
    {
      var d := detections[i];
      var color := ColorFor(d.kind);
      var b := d.bbox;
      drawn := drawn + [Rectangle(Point(b.x1, b.y1), Point(b.x2, b.y2), color, OutlineThickness)];
      var caption := Label(d, fmt);
      var size := measure(caption);
      drawn := drawn + [Rectangle(Point(b.x1, b.y1 - size.height - 10), Point(b.x1 + size.width, b.y1), color, Filled)];
      drawn := drawn + [PutText(caption, Point(b.x1, b.y1 - 5), FontScale, White, TextThickness)];
      assert detections[..i + 1][..i] == detections[..i];
      i := i + 1;
    }
    assert detections[..i] == detections;
    return Some(drawn);
  }

  /** Three calls per detection. */
  lemma {:induction false} PlanLength(ds: seq<Detection>, fmt: real -> string, measure: string -> TextSize)
    ensures |Plan(ds, fmt, measure)| == 3 * |ds|
  {
    if ds != [] {
      PlanLength(ds[..|ds| - 1], fmt, measure);
    }
  }

  /** Input order is kept: the calls for the i-th detection are the calls at
      positions 3i, 3i+1 and 3i+2. */
  lemma {:induction false} PlanAt(ds: seq<Detection>, i: nat, fmt: real -> string, measure: string -> TextSize)
    requires i < |ds|
    ensures |Plan(ds, fmt, measure)| == 3 * |ds|
    ensures Plan(ds, fmt, measure)[3 * i .. 3 * i + 3] == DetectionCommands(ds[i], fmt, measure)
  {
    PlanLength(ds, fmt, measure);
    var init := ds[..|ds| - 1];
    PlanLength(init, fmt, measure);
    if i < |ds| - 1 {
      PlanAt(init, i, fmt, measure);
      assert init[i] == ds[i];
    }
  }

  /** Annotating a concatenation is annotating each part in turn. */
  lemma {:induction false} PlanAppend(a: seq<Detection>, b: seq<Detection>, fmt: real -> string, measure: string -> TextSize)
    ensures Plan(a + b, fmt, measure) == Plan(a, fmt, measure) + Plan(b, fmt, measure)
    decreases |b|
  {
    if b == [] {
      assert a + b == a;
    } else {
      var b' := b[..|b| - 1];
      assert (a + b)[..|a + b| - 1] == a + b';
      PlanAppend(a, b', fmt, measure);
    }
  }

  /** An empty detection list draws nothing. */
  lemma EmptyPlan(fmt: real -> string, measure: string -> TextSize)
    ensures Plan([], fmt, measure) == []
  {
  }

  /** Geometry of one detection's calls: the outline is the bbox in the
      type's colour with thickness 2; the filled background spans the text
      width from x1 and the text height plus 10 above y1, so its bottom edge
      is the box's top edge; the white text starts at x1, 5 pixels above y1,
      inside the background. */
  lemma LabelGeometry(d: Detection, fmt: real -> string, measure: string -> TextSize)
    ensures var cs := DetectionCommands(d, fmt, measure);
            var size := measure(Label(d, fmt));
            var b := d.bbox;
            && cs[0] == Rectangle(Point(b.x1, b.y1), Point(b.x2, b.y2), ColorFor(d.kind), 2)
            && cs[1].Rectangle? && cs[1].thickness == Filled && cs[1].color == ColorFor(d.kind)
            && cs[1].corner2.y == cs[0].corner1.y
            && cs[1].corner1.x == cs[0].corner1.x
            && cs[1].corner2.x - cs[1].corner1.x == size.width
            && cs[1].corner2.y - cs[1].corner1.y == size.height + 10
            && cs[2].PutText? && cs[2].color == White && cs[2].text == Label(d, fmt)
            && cs[2].origin == Point(b.x1, b.y1 - 5)
            && cs[1].corner1.y < cs[2].origin.y < cs[1].corner2.y
  {
  }

  /** No clamping: a box whose top is closer to the image edge than the label
      is tall gets a background that starts above the image (negative y). */
  lemma LabelNotClamped(d: Detection, fmt: real -> string, measure: string -> TextSize)
    requires d.bbox.y1 < measure(Label(d, fmt)).height + 10
    ensures DetectionCommands(d, fmt, measure)[1].corner1.y < 0
  {
  }
}
