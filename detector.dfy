/**
 * What the tracker (src/detector.py, a wrapper around an external model)
 * returns for one frame, taken as given: a list of results of which only the
 * first is read, each with optional boxes, optional track ids and optional
 * segmentation polygons.
 */
module Detection {
  import opened Wrappers
  import opened Boxes

  /** A vertex of a segmentation polygon, in frame coordinates. */
  datatype Point = Point(x: real, y: real)

  type Polygon = seq<Point>

  /** `res.boxes`: the float corners `xyxy` and, when the tracker assigned them, the ids `id`. */
  datatype BoxSet = BoxSet(xyxy: seq<RealBox>, ids: Option<seq<int>>)

  /** One result: `res.boxes` and `res.masks.xy`, either of which may be `None`. */
  datatype DetResult = DetResult(boxes: Option<BoxSet>, masks: Option<seq<Option<Polygon>>>)

  /** The boxes of `results[0]` when it has both boxes and track ids. */
  predicate Tracked(results: seq<DetResult>) {
    results != [] && results[0].boxes.Some? && results[0].boxes.value.ids.Some?
  }

  function MinLen(a: nat, b: nat): nat { if a <= b then a else b }

  /**
   * `zip(boxes.astype(int), ids)` for the first result: one (box, id) pair per
   * index both lists have, boxes truncated toward zero; nothing when the
   * result is missing or lacks boxes or ids.
   */
  function Detections(results: seq<DetResult>): (d: seq<(IntBox, int)>)
    ensures !Tracked(results) ==> d == []
    ensures Tracked(results) ==>
      var bs := results[0].boxes.value;
      && |d| == MinLen(|bs.xyxy|, |bs.ids.value|)
      && forall i :: 0 <= i < |d| ==> d[i] == (TruncBox(bs.xyxy[i]), bs.ids.value[i])
  {
    if !Tracked(results) then []
    else
      var bs := results[0].boxes.value;
      var n := MinLen(|bs.xyxy|, |bs.ids.value|);
      seq(n, i requires 0 <= i < n => (TruncBox(bs.xyxy[i]), bs.ids.value[i]))
  }

  /** `res.masks.xy` of the first result, when there is one. */
  function Segments(results: seq<DetResult>): Option<seq<Option<Polygon>>> {
    if results == [] then None else results[0].masks
  }

  /**
   * The scanner's per-frame count: `len(res.boxes)` when the first result has
   * boxes and ids, otherwise 0. It bounds the number of pairs the processor
   * iterates over.
   */
  function CowCount(results: seq<DetResult>): (n: nat)
    ensures |Detections(results)| <= n
    ensures !Tracked(results) ==> n == 0
  {
    if Tracked(results) then |results[0].boxes.value.xyxy| else 0
  }
}
