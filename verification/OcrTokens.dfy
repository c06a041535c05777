/** OCR tokens and their boxes: docmirror/ocr/field_grid/geometry.py and tokens.py. */
module OcrTokens {
  import opened Options
  import opened Reals

  datatype BBox = BBox(x0: real, y0: real, x1: real, y1: real)

  /** `text` is the stripped text, `origin` the id of the token this one was split from; `lineSplit` and `charSplit` say
      whether the lower-case source has the marker. */
  datatype OcrToken = OcrToken(id: string, text: string, bbox: BBox, confidence: real, origin: Option<string>,
                               lineSplit: bool, charSplit: bool)

  /** `bbox_area`. */
  function Area(b: BBox): (a: real)
    ensures a >= 0.0
  {
    Max(0.0, b.x1 - b.x0) * Max(0.0, b.y1 - b.y0)
  }

  /** `bbox_intersection`, which has no value when this is empty. */
  function Intersection(a: BBox, b: BBox): BBox {
    BBox(Max(a.x0, b.x0), Max(a.y0, b.y0), Min(a.x1, b.x1), Min(a.y1, b.y1))
  }

  predicate IsEmpty(b: BBox) {
    b.x1 <= b.x0 || b.y1 <= b.y0
  }

  /** `bbox_overlap_ratio`: the share of `inner` that lies in `outer`. */
  function OverlapRatio(inner: BBox, outer: BBox): (r: real)
    ensures r >= 0.0
  {
    var inter := Intersection(inner, outer);
    if IsEmpty(inter) || Area(inner) <= 0.0 then 0.0
    else
      assert Area(inter) >= 0.0 && Area(inner) > 0.0;
      Area(inter) / Area(inner)
  }

  /** `bbox_iou`. */
  function Iou(a: BBox, b: BBox): real {
    var inter := Intersection(a, b);
    var denom := Area(a) + Area(b) - Area(inter);
    if IsEmpty(inter) || denom <= 0.0 then 0.0 else Area(inter) / denom
  }

  /** `_source_priority`. */
  function Priority(t: OcrToken): int {
    if t.lineSplit then 30 else if t.charSplit then 80 else if t.origin.None? && |t.text| == 1 then 100 else 60
  }
}
