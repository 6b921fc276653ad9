/** The exchange format: per image, a list of objects with a target_id and
    an ltrb box. */
module Tracking {
  import opened Dict
  import opened Geometry

  /** A target_id: a JSON integer or a JSON string (1 and "1" differ). */
  datatype Id = Num(n: int) | Text(s: string)

  /** One object {'target_id': ..., 'ltrb': [l, t, r, b]}. */
  datatype Detection = Detection(targetId: Id, ltrb: Box)

  /** Image name -> detections, in the file's key order. */
  type Dataset = Dict<string, seq<Detection>>

  /** pred.get(image_name, []) */
  function FrameOf(ds: Dataset, name: string): seq<Detection> {
    GetOr(ds, name, [])
  }

  /** With distinct frame names, each frame's list is what pred.get finds
      under its name. */
  lemma FrameOfAt(ds: Dataset, k: nat)
    requires DistinctKeys(ds) && k < |ds|
    ensures FrameOf(ds, ds[k].0) == ds[k].1
  {
    GetAt(ds, k);
  }

  /** Number of detections over all frames. */
  function DetectionCount(ds: Dataset): nat {
    if ds == [] then 0 else DetectionCount(ds[..|ds| - 1]) + |ds[|ds| - 1].1|
  }
}
