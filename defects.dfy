/** The defect records handed from detection to annotation and to the
    response summary (app.py:67-86, app.py:105-108). */
module Defects {

  /** A bounding box `[x1, y1, x2, y2]` in pixel coordinates. */
  datatype BBox = BBox(x1: int, y1: int, x2: int, y2: int)

  /** One detected defect: its type tag, confidence, box and description. */
  datatype Detection = Detection(kind: string, confidence: real, bbox: BBox, description: string)
}
