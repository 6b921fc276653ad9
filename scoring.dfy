/** compute_mota_idf1: per-frame id -> box tables, a greedy first-match scan
    counting true positives, misses and false positives, and the two scores. */
module Scoring {
  import opened Results
  import opened Dict
  import opened Geometry
  import opened Tracking

  /** One frame's id -> box table: gt_tracks[name] or pred_tracks[name]. */
  type Table = Dict<Id, Box>

  /** image name -> table: gt_tracks or pred_tracks. */
  type Tracks = Dict<string, Table>

  /** The table left by assigning each detection's box under its id, in order. */
  function FrameTable(objs: seq<Detection>): Table {
    if objs == [] then []
    else
      var n := |objs| - 1;
      Put(FrameTable(objs[..n]), objs[n].targetId, objs[n].ltrb)
  }

  /** The distinct ids of a frame's detections. */
  function IdsOf(objs: seq<Detection>): set<Id> {
    set k | 0 <= k < |objs| :: objs[k].targetId
  }

  /** Position k holds the last detection with its id. */
  predicate LastOccurrence(objs: seq<Detection>, k: int) {
    0 <= k < |objs| && forall k' :: k < k' < |objs| ==> objs[k'].targetId != objs[k].targetId
  }

  /** The table has one entry per distinct id of the frame. */
  lemma {:induction false} FrameTableKeys(objs: seq<Detection>)
    ensures DistinctKeys(FrameTable(objs))
    ensures forall id :: HasKey(FrameTable(objs), id) <==> id in IdsOf(objs)
  {
    if objs != [] {
      var n := |objs| - 1;
      var front := objs[..n];
      FrameTableKeys(front);
      PutDistinct(FrameTable(front), objs[n].targetId, objs[n].ltrb);
      PutKeys(FrameTable(front), objs[n].targetId, objs[n].ltrb);
      IdsOfSnoc(objs);
    }
  }

  lemma IdsOfSnoc(objs: seq<Detection>)
    requires objs != []
    ensures IdsOf(objs) == IdsOf(objs[..|objs| - 1]) + {objs[|objs| - 1].targetId}
  {
    var n := |objs| - 1;
    var front := objs[..n];
    assert forall k :: 0 <= k < n ==> front[k] == objs[k];
    forall id | id in IdsOf(objs) ensures id in IdsOf(front) + {objs[n].targetId} {
      var k :| 0 <= k < |objs| && objs[k].targetId == id;
      if k < n { assert front[k] == objs[k]; }
    }
  }

  /** Under each id the table holds the box of the id's last detection:
      later rows overwrite earlier ones. */
  lemma {:induction false} FrameTableLast(objs: seq<Detection>, k: int)
    requires LastOccurrence(objs, k)
    ensures Get(FrameTable(objs), objs[k].targetId) == Some(objs[k].ltrb)
  {
    var n := |objs| - 1;
    if k < n {
      var front := objs[..n];
      assert front[k] == objs[k];
      assert LastOccurrence(front, k);
      FrameTableLast(front, k);
    }
  }

  /** len(table) is the number of distinct ids in the frame. */
  lemma FrameTableSize(objs: seq<Detection>)
    ensures |FrameTable(objs)| == |IdsOf(objs)|
  {
    FrameTableKeys(objs);
    KeySetHasKey(FrameTable(objs));
    KeySetSize(FrameTable(objs));
    assert KeySet(FrameTable(objs)) == IdsOf(objs);
  }

  /** The tables of a dataset: only frames with at least one detection get an
      entry, because the defaultdict creates one on first assignment only. */
  function TracksOf(ds: Dataset): Tracks {
    if ds == [] then []
    else
      var n := |ds| - 1;
      var t := TracksOf(ds[..n]);
      if ds[n].1 == [] then t else t + [(ds[n].0, FrameTable(ds[n].1))]
  }

  /** The content of TracksOf(ds) at a name. */
  function TableAt(ds: Dataset, name: string): Option<Table> {
    if |FrameOf(ds, name)| > 0 then Some(FrameTable(FrameOf(ds, name))) else None
  }

  /** Each frame with detections has its table under its name; frames
      without detections, and names not in the dataset, have none. */
  lemma {:induction false} TracksOfSpec(ds: Dataset)
    requires DistinctKeys(ds)
    ensures DistinctKeys(TracksOf(ds))
    ensures forall name :: Get(TracksOf(ds), name) == TableAt(ds, name)
  {
    if ds != [] {
      var n := |ds| - 1;
      var front := ds[..n];
      var name := ds[n].0;
      DropLast(ds);
      TracksOfSpec(front);
      TracksOfStep(ds, TracksOf(front));
    }
  }

  /** One step of TracksOfSpec: the last frame of ds. */
  lemma TracksOfStep(ds: Dataset, t: Tracks)
    requires DistinctKeys(ds) && ds != []
    requires t == TracksOf(ds[..|ds| - 1])
    requires DistinctKeys(t)
    requires forall name :: Get(t, name) == TableAt(ds[..|ds| - 1], name)
    ensures DistinctKeys(TracksOf(ds))
    ensures forall name :: Get(TracksOf(ds), name) == TableAt(ds, name)
  {
    var n := |ds| - 1;
    var front := ds[..n];
    var name := ds[n].0;
    DropLast(ds);
    assert !HasKey(t, name) by {
      assert Get(front, name) == None;
      assert Get(t, name) == None;
    }
    if ds[n].1 != [] {
      PutDistinct(t, name, FrameTable(ds[n].1));
      assert TracksOf(ds) == Put(t, name, FrameTable(ds[n].1));
    }
    forall y ensures Get(TracksOf(ds), y) == TableAt(ds, y) {
      TracksOfAt(ds, t, y);
    }
  }

  /** One step of TracksOfSpec at one name. */
  lemma TracksOfAt(ds: Dataset, t: Tracks, y: string)
    requires ds != [] && t == TracksOf(ds[..|ds| - 1])
    requires !HasKey(ds[..|ds| - 1], ds[|ds| - 1].0) && !HasKey(t, ds[|ds| - 1].0)
    requires Get(t, y) == TableAt(ds[..|ds| - 1], y)
    ensures Get(TracksOf(ds), y) == TableAt(ds, y)
  {
    var n := |ds| - 1;
    var front, name, objs := ds[..n], ds[n].0, ds[n].1;
    SplitLast(ds);
    GetAppend(front, name, objs, y);
    var out := if objs == [] then t else t + [(name, FrameTable(objs))];
    assert TracksOf(ds) == out;
    if y == name {
      assert FrameOf(ds, y) == objs;
      LookupLast(t, name, objs);
    } else {
      assert FrameOf(ds, y) == FrameOf(front, y);
      LookupOther(t, name, objs, y);
    }
  }

  /** The table just added for a frame is found under its name. */
  lemma LookupLast(t: Tracks, name: string, objs: seq<Detection>)
    requires !HasKey(t, name)
    ensures Get(if objs == [] then t else t + [(name, FrameTable(objs))], name) ==
              if objs == [] then None else Some(FrameTable(objs))
  {
    if objs != [] {
      GetAppend(t, name, FrameTable(objs), name);
    }
  }

  /** Adding the table of one frame leaves the lookups of other names. */
  lemma LookupOther(t: Tracks, name: string, objs: seq<Detection>, y: string)
    requires y != name
    ensures Get(if objs == [] then t else t + [(name, FrameTable(objs))], y) == Get(t, y)
  {
    if objs != [] {
      GetAppend(t, name, FrameTable(objs), y);
    }
  }

  /** Lines 65-74: build the tables row by row; each row assigns
      tracks[name][id] = box. */
  method BuildTracks(ds: Dataset) returns (tracks: Tracks)
    requires DistinctKeys(ds)
    ensures tracks == TracksOf(ds)
  {
    tracks := [];
    for f := 0 to |ds|
      invariant tracks == TracksOf(ds[..f])
    {
      TracksOfNext(ds, f);
      tracks := AddFrame(tracks, ds[f].0, ds[f].1);
    }
    assert ds[..|ds|] == ds;
  }

  /** Lines 67-74 for one frame whose name has no table yet: the first
      assignment creates the table, later ones update it. */
  method AddFrame(tracks: Tracks, name: string, objects: seq<Detection>) returns (r: Tracks)
    requires !HasKey(tracks, name)
    ensures r == if objects == [] then tracks else tracks + [(name, FrameTable(objects))]
  {
    r := tracks;
    for k := 0 to |objects|
      invariant r == if k == 0 then tracks else tracks + [(name, FrameTable(objects[..k]))]
    {
      var obj := objects[k];
      assert objects[..k + 1][..k] == objects[..k];
      if k == 0 {
        SetInNew(r, name, obj.targetId, obj.ltrb);
      } else {
        SetInLast(tracks, name, FrameTable(objects[..k]), obj.targetId, obj.ltrb);
      }
      r := SetIn(r, name, obj.targetId, obj.ltrb);
    }
    assert objects[..|objects|] == objects;
  }

  /** The tables of one more frame: its name has no table yet, and it gets
      one exactly when it has detections. */
  lemma TracksOfNext(ds: Dataset, f: nat)
    requires DistinctKeys(ds) && f < |ds|
    ensures !HasKey(TracksOf(ds[..f]), ds[f].0)
    ensures TracksOf(ds[..f + 1]) ==
              if ds[f].1 == [] then TracksOf(ds[..f])
              else TracksOf(ds[..f]) + [(ds[f].0, FrameTable(ds[f].1))]
  {
    assert ds[..f + 1][..f] == ds[..f];
    DropLast(ds[..f + 1]);
    TracksOfSpec(ds[..f]);
    assert ds[..f + 1][f] == ds[f];
    assert Get(TracksOf(ds[..f]), ds[f].0) == None;
  }

  /** The table sizes summed over all frames: sum(len(t) for t in tracks.values()). */
  function TableSizes(tracks: Tracks): nat {
    if tracks == [] then 0
    else TableSizes(tracks[..|tracks| - 1]) + |tracks[|tracks| - 1].1|
  }

  /** Distinct ids per frame, summed over the frames of a dataset. */
  function IdCount(ds: Dataset): nat {
    if ds == [] then 0
    else IdCount(ds[..|ds| - 1]) + |IdsOf(ds[|ds| - 1].1)|
  }

  /** The tables of a dataset hold, in total, one entry per distinct id of
      each frame: repeated ids within a frame collapse into one. */
  lemma {:induction false} TracksSize(ds: Dataset)
    ensures TableSizes(TracksOf(ds)) == IdCount(ds)
  {
    if ds != [] {
      var n := |ds| - 1;
      TracksSize(ds[..n]);
      FrameTableSize(ds[n].1);
      if ds[n].1 != [] {
        var t := TracksOf(ds[..n]);
        assert (t + [(ds[n].0, FrameTable(ds[n].1))])[..|t|] == t;
      } else {
        assert IdsOf(ds[n].1) == {};
      }
    }
  }

  /** iou(gt_box, pred_box) >= 0.3 */
  predicate Hits(g: Box, b: Box) {
    AtThreshold(Iou(g, b))
  }

  /** iou(gt_box, pred_box) is defined and below 0.3 */
  predicate Misses(g: Box, b: Box) {
    Iou(g, b).union != 0 && !AtThreshold(Iou(g, b))
  }

  /** Entry k of preds is the first one g reaches the threshold with. */
  predicate HitAt(g: Box, preds: Table, k: int) {
    0 <= k < |preds| && Hits(g, preds[k].1) && forall j :: 0 <= j < k ==> Misses(g, preds[j].1)
  }

  /** The IoU of g with entry k of preds divides by zero, and no entry
      before it reaches the threshold. */
  predicate FailAt(g: Box, preds: Table, k: int) {
    0 <= k < |preds| && Iou(g, preds[k].1).union == 0 && forall j :: 0 <= j < k ==> Misses(g, preds[j].1)
  }

  /** Lines 86-94: the id of the first predicted entry, in table order,
      whose IoU with g reaches 0.3 (the scan stops there); None if there is
      none; an error if an IoU on the way divides by zero. */
  function FirstMatch(g: Box, preds: Table): Result<Option<Id>, EvalError> {
    if preds == [] then Ok(None)
    else
      var o := Iou(g, preds[0].1);
      if o.union == 0 then Err(ZeroUnion)
      else if AtThreshold(o) then Ok(Some(preds[0].0))
      else FirstMatch(g, preds[1..])
  }

  /** FirstMatch finds no match exactly when every entry misses, finds the
      id of the first hit when there is one, and fails exactly at the first
      zero union met before any hit. */
  lemma {:induction false} FirstMatchSpec(g: Box, preds: Table)
    ensures FirstMatch(g, preds) == Ok(None) <==> forall k :: 0 <= k < |preds| ==> Misses(g, preds[k].1)
    ensures forall k :: HitAt(g, preds, k) ==> FirstMatch(g, preds) == Ok(Some(preds[k].0))
    ensures forall k :: FailAt(g, preds, k) ==> FirstMatch(g, preds) == Err(ZeroUnion)
    ensures FirstMatch(g, preds).Ok? && FirstMatch(g, preds).value.Some? ==>
              exists k :: HitAt(g, preds, k) && preds[k].0 == FirstMatch(g, preds).value.value
    ensures FirstMatch(g, preds).Err? ==> FirstMatch(g, preds).error == ZeroUnion && exists k :: FailAt(g, preds, k)
  {
    if preds != [] {
      var rest := preds[1..];
      FirstMatchSpec(g, rest);
      assert forall k :: 0 <= k < |rest| ==> rest[k] == preds[k + 1];
      if Misses(g, preds[0].1) {
        forall k | HitAt(g, preds, k) ensures HitAt(g, rest, k - 1) {
          assert k != 0;
        }
        forall k | FailAt(g, preds, k) ensures FailAt(g, rest, k - 1) {
          assert k != 0;
        }
        if FirstMatch(g, preds).Ok? && FirstMatch(g, preds).value.Some? {
          var k :| HitAt(g, rest, k) && rest[k].0 == FirstMatch(g, rest).value.value;
          assert HitAt(g, preds, k + 1);
        }
        if FirstMatch(g, preds).Err? {
          var k :| FailAt(g, rest, k);
          assert FailAt(g, preds, k + 1);
        }
      } else {
        assert !Misses(g, preds[0].1);
        if Iou(g, preds[0].1).union == 0 {
          assert FailAt(g, preds, 0);
        } else {
          assert HitAt(g, preds, 0);
        }
      }
    }
  }

  /** Lines 86-95: the scan of one gt box over the predicted entries, with
      the early break. */
  method FindMatch(gtBox: Box, predObjects: Table) returns (r: Result<Option<Id>, EvalError>)
    ensures r == FirstMatch(gtBox, predObjects)
  {
    r := Ok(None);
    var p := 0;
    while p < |predObjects|
      invariant 0 <= p <= |predObjects|
      invariant FirstMatch(gtBox, predObjects) == FirstMatch(gtBox, predObjects[p..])
    {
      assert predObjects[p..][1..] == predObjects[p + 1..];
      var predId, predBox := predObjects[p].0, predObjects[p].1;
      var o := Iou(gtBox, predBox);
      if o.union == 0 {
        return Err(ZeroUnion);
      }
      if AtThreshold(o) {
        r := Ok(Some(predId));
        break;
      }
      p := p + 1;
    }
  }

  /** What the scan of one frame's gt entries accumulates: true positives,
      misses, the (gt id, pred id) pairs id_matches counts, and
      matched_pred_ids. */
  datatype Scan = Scan(tp: nat, fn: nat, log: seq<(Id, Id)>, matched: set<Id>)

  /** Lines 85-96: scan the gt entries in table order. */
  function ScanFrame(gts: Table, preds: Table): Result<Scan, EvalError> {
    if gts == [] then Ok(Scan(0, 0, [], {}))
    else
      var n := |gts| - 1;
      var s :- ScanFrame(gts[..n], preds);
      var m :- FirstMatch(gts[n].1, preds);
      Ok(Next(s, gts[n].0, m))
  }

  /** The scan after one more gt entry with id gid: a true positive logged
      as (gid, pred id) when it matched, a miss otherwise. */
  function Next(s: Scan, gid: Id, m: Option<Id>): Scan {
    if m.Some? then Scan(s.tp + 1, s.fn, s.log + [(gid, m.value)], s.matched + {m.value})
    else Scan(s.tp, s.fn + 1, s.log, s.matched)
  }

  /** The scan of a frame fails exactly when the scan of one of its gt boxes does. */
  lemma {:induction false} ScanFrameOk(gts: Table, preds: Table)
    ensures ScanFrame(gts, preds).Ok? <==> forall i :: 0 <= i < |gts| ==> FirstMatch(gts[i].1, preds).Ok?
    ensures ScanFrame(gts, preds).Err? ==> ScanFrame(gts, preds).error == ZeroUnion
  {
    if gts != [] {
      var n := |gts| - 1;
      ScanFrameOk(gts[..n], preds);
      assert forall i :: 0 <= i < n ==> gts[..n][i] == gts[i];
      FirstMatchSpec(gts[n].1, preds);
    }
  }

  /** Every gt entry of the frame is counted exactly once, as a true
      positive or as a miss; one pair is logged per true positive; each
      matched pred id is the first match of some gt entry, and conversely. */
  lemma ScanFrameCounts(gts: Table, preds: Table)
    requires ScanFrame(gts, preds).Ok?
    ensures ScanFrame(gts, preds).value.tp + ScanFrame(gts, preds).value.fn == |gts|
    ensures |ScanFrame(gts, preds).value.log| == ScanFrame(gts, preds).value.tp
    ensures |ScanFrame(gts, preds).value.matched| <= ScanFrame(gts, preds).value.tp
    ensures forall pid :: pid in ScanFrame(gts, preds).value.matched <==>
              exists i :: 0 <= i < |gts| && FirstMatch(gts[i].1, preds) == Ok(Some(pid))
  {
    ScanFrameTotals(gts, preds);
    ScanFrameMatched(gts, preds);
  }

  lemma {:induction false} ScanFrameTotals(gts: Table, preds: Table)
    requires ScanFrame(gts, preds).Ok?
    ensures ScanFrame(gts, preds).value.tp + ScanFrame(gts, preds).value.fn == |gts|
    ensures |ScanFrame(gts, preds).value.log| == ScanFrame(gts, preds).value.tp
    ensures |ScanFrame(gts, preds).value.matched| <= ScanFrame(gts, preds).value.tp
  {
    if gts != [] {
      var n := |gts| - 1;
      ScanFrameTotals(gts[..n], preds);
      var s := ScanFrame(gts[..n], preds).value;
      var m := FirstMatch(gts[n].1, preds).value;
      if m.Some? {
        assert |s.matched + {m.value}| <= |s.matched| + 1;
      }
    }
  }

  lemma {:induction false} ScanFrameMatched(gts: Table, preds: Table)
    requires ScanFrame(gts, preds).Ok?
    ensures forall pid :: pid in ScanFrame(gts, preds).value.matched <==>
              exists i :: 0 <= i < |gts| && FirstMatch(gts[i].1, preds) == Ok(Some(pid))
  {
    if gts != [] {
      var n := |gts| - 1;
      var front := gts[..n];
      ScanFrameMatched(front, preds);
      assert forall i :: 0 <= i < n ==> front[i] == gts[i];
      forall pid | exists i :: 0 <= i < |gts| && FirstMatch(gts[i].1, preds) == Ok(Some(pid))
        ensures pid in ScanFrame(gts, preds).value.matched
      {
        var i :| 0 <= i < |gts| && FirstMatch(gts[i].1, preds) == Ok(Some(pid));
        if i < n { assert front[i] == gts[i]; }
      }
    }
  }

  /** Every matched pred id names an entry of the pred table. */
  lemma ScanFrameMatchedKeys(gts: Table, preds: Table)
    requires ScanFrame(gts, preds).Ok?
    ensures ScanFrame(gts, preds).value.matched <= KeySet(preds)
  {
    ScanFrameCounts(gts, preds);
    forall pid | pid in ScanFrame(gts, preds).value.matched ensures pid in KeySet(preds) {
      var i :| 0 <= i < |gts| && FirstMatch(gts[i].1, preds) == Ok(Some(pid));
      FirstMatchSpec(gts[i].1, preds);
      var k :| HitAt(gts[i].1, preds, k) && preds[k].0 == pid;
    }
  }

  /** Lines 98-100: the number of pred entries whose id is not in matched. */
  function CountUnmatched(preds: Table, matched: set<Id>): nat {
    if preds == [] then 0
    else
      var n := |preds| - 1;
      CountUnmatched(preds[..n], matched) + (if preds[n].0 in matched then 0 else 1)
  }

  /** On a table with distinct ids, the unmatched count is the size of the
      set of its ids outside matched. */
  lemma {:induction false} CountUnmatchedSet(preds: Table, matched: set<Id>)
    requires DistinctKeys(preds)
    ensures CountUnmatched(preds, matched) == |KeySet(preds) - matched|
  {
    if preds != [] {
      var n := |preds| - 1;
      var front := preds[..n];
      DropLast(preds);
      CountUnmatchedSet(front, matched);
      var id := preds[n].0;
      KeySetHasKey(front);
      KeySetSnoc(preds);
      DiffAdd(KeySet(front), id, matched);
    }
  }

  lemma DiffAdd<T>(a: set<T>, x: T, m: set<T>)
    requires x !in a
    ensures |(a + {x}) - m| == |a - m| + (if x in m then 0 else 1)
  {
    if x in m {
      assert (a + {x}) - m == a - m;
    } else {
      assert (a + {x}) - m == (a - m) + {x};
    }
  }

  /** False positives plus matched pred ids make up the whole pred table. */
  lemma CountUnmatchedSize(preds: Table, matched: set<Id>)
    requires DistinctKeys(preds) && matched <= KeySet(preds)
    ensures CountUnmatched(preds, matched) + |matched| == |preds|
  {
    CountUnmatchedSet(preds, matched);
    KeySetSize(preds);
    assert KeySet(preds) == (KeySet(preds) - matched) + matched;
  }

  /** The counters and the logged matches after some gt frames. */
  datatype Tally = Tally(tp: nat, fn: nat, fp: nat, log: seq<(Id, Id)>)

  /** Lines 79-100: one gt frame against the pred table of the same name. */
  function FrameTally(gts: Table, preds: Table): Result<Tally, EvalError> {
    var s :- ScanFrame(gts, preds);
    Ok(Tally(s.tp, s.fn, CountUnmatched(preds, s.matched), s.log))
  }

  /** In one frame, tp + fn is the number of gt entries; fp plus the number
      of matched pred ids is the number of pred entries, so at least
      |preds| - tp pred entries are false positives; with no pred entries
      every gt entry is a miss. */
  lemma FrameTallySpec(gts: Table, preds: Table)
    requires DistinctKeys(preds)
    requires FrameTally(gts, preds).Ok?
    ensures FrameTally(gts, preds).value.tp + FrameTally(gts, preds).value.fn == |gts|
    ensures |FrameTally(gts, preds).value.log| == FrameTally(gts, preds).value.tp
    ensures FrameTally(gts, preds).value.fp + |ScanFrame(gts, preds).value.matched| == |preds|
    ensures |preds| - FrameTally(gts, preds).value.tp <= FrameTally(gts, preds).value.fp <= |preds|
    ensures preds == [] ==> FrameTally(gts, preds).value.tp == 0 && FrameTally(gts, preds).value.fp == 0
  {
    ScanFrameCounts(gts, preds);
    ScanFrameMatchedKeys(gts, preds);
    CountUnmatchedSize(preds, ScanFrame(gts, preds).value.matched);
  }

  /** Lines 78-100: the gt frames in table order, each against
      pred_tracks.get(name, {}). */
  function Tallies(gtT: Tracks, prT: Tracks): Result<Tally, EvalError> {
    if gtT == [] then Ok(Tally(0, 0, 0, []))
    else
      var n := |gtT| - 1;
      var t :- Tallies(gtT[..n], prT);
      var f :- FrameTally(gtT[n].1, GetOr(prT, gtT[n].0, []));
      Ok(Add(t, f))
  }

  /** Two tallies counted one after the other. */
  function Add(t: Tally, f: Tally): Tally {
    Tally(t.tp + f.tp, t.fn + f.fn, t.fp + f.fp, t.log + f.log)
  }

  /** Over all gt frames, every gt entry is a true positive or a miss, and
      one match is logged per true positive; the only failure is a zero union. */
  lemma {:induction false} TalliesTotals(gtT: Tracks, prT: Tracks)
    ensures Tallies(gtT, prT).Ok? ==> Tallies(gtT, prT).value.tp + Tallies(gtT, prT).value.fn == TableSizes(gtT)
    ensures Tallies(gtT, prT).Ok? ==> |Tallies(gtT, prT).value.log| == Tallies(gtT, prT).value.tp
    ensures Tallies(gtT, prT).Err? ==> Tallies(gtT, prT).error == ZeroUnion
  {
    if gtT != [] {
      var n := |gtT| - 1;
      TalliesTotals(gtT[..n], prT);
      var preds := GetOr(prT, gtT[n].0, []);
      ScanFrameOk(gtT[n].1, preds);
      if FrameTally(gtT[n].1, preds).Ok? {
        ScanFrameCounts(gtT[n].1, preds);
      }
    }
  }

  /** Pred frames with no gt frame of the same name are never looked at:
      Tallies depends on prT only at the names of the gt frames. */
  lemma {:induction false} TalliesLocal(gtT: Tracks, prT: Tracks, prT': Tracks)
    requires forall k :: 0 <= k < |gtT| ==> GetOr(prT, gtT[k].0, []) == GetOr(prT', gtT[k].0, [])
    ensures Tallies(gtT, prT) == Tallies(gtT, prT')
  {
    if gtT != [] {
      var n := |gtT| - 1;
      assert forall k :: 0 <= k < n ==> gtT[..n][k] == gtT[k];
      TalliesLocal(gtT[..n], prT, prT');
    }
  }

  /** With an empty pred side there are no true or false positives, and
      every gt entry is a miss. */
  lemma {:induction false} TalliesNoPredictions(gtT: Tracks)
    ensures Tallies(gtT, []) == Ok(Tally(0, TableSizes(gtT), 0, []))
  {
    if gtT != [] {
      var n := |gtT| - 1;
      TalliesNoPredictions(gtT[..n]);
      NoPredsScan(gtT[n].1);
      var none: Tracks := [];
      assert GetOr(none, gtT[n].0, []) == [];
      assert FrameTally(gtT[n].1, []) == Ok(Tally(0, |gtT[n].1|, 0, []));
      var nolog: seq<(Id, Id)> := [];
      assert nolog + nolog == nolog;
    }
  }

  lemma {:induction false} NoPredsScan(gts: Table)
    ensures ScanFrame(gts, []) == Ok(Scan(0, |gts|, [], {}))
  {
    if gts != [] {
      NoPredsScan(gts[..|gts| - 1]);
    }
  }

  /** id_matches: how often each (gt id, pred id) pair was logged. */
  function MatchCounts(log: seq<(Id, Id)>): Dict<(Id, Id), int> {
    if log == [] then []
    else
      var n := |log| - 1;
      Increment(MatchCounts(log[..n]), log[n])
  }

  /** id_matches[pair] += 1 */
  lemma MatchCountsSnoc(log: seq<(Id, Id)>, pair: (Id, Id))
    ensures MatchCounts(log + [pair]) == Increment(MatchCounts(log), pair)
  {
    var l := log + [pair];
    assert l[..|l| - 1] == log;
  }

  /** sum(id_matches.values()) is the number of logged matches. */
  lemma {:induction false} MatchCountsSum(log: seq<(Id, Id)>)
    ensures SumValues(MatchCounts(log)) == |log|
  {
    if log != [] {
      var n := |log| - 1;
      MatchCountsSum(log[..n]);
      SumValuesIncrement(MatchCounts(log[..n]), log[n]);
    }
  }

  /** MOTA and IDF1. */
  datatype Scores = Scores(mota: real, idf1: real)

  /** Line 102: 1 - (fn + fp) / (tp + fn). */
  function MotaOf(t: Tally): real
    requires t.tp + t.fn > 0
  {
    1.0 - (t.fn + t.fp) as real / (t.tp + t.fn) as real
  }

  /** Lines 102-107, with each division by zero an error, in the order the
      code evaluates them. */
  function Metrics(t: Tally, predTotal: nat, gtTotal: nat): Result<Scores, EvalError> {
    if t.tp + t.fn == 0 then Err(MotaUndefined)
    else
      var mota := MotaOf(t);
      var matches := SumValues(MatchCounts(t.log));
      if predTotal == 0 then Err(PrecisionUndefined)
      else
        var precision := Fraction(matches, predTotal);
        if gtTotal == 0 then Err(RecallUndefined)
        else
          var recall := Fraction(matches, gtTotal);
          if precision + recall == 0.0 then Err(Idf1Undefined)
          else Ok(Scores(mota, HarmonicMean(precision, recall)))
  }

  /** m / n as Python's true division on integers, exactly. */
  function Fraction(m: int, n: nat): real
    requires n > 0
  {
    m as real / n as real
  }

  /** Line 107: 2 * (p * r) / (p + r). */
  function HarmonicMean(p: real, r: real): real
    requires p + r != 0.0
  {
    2.0 * (p * r) / (p + r)
  }

  /** compute_mota_idf1(gt, pred) */
  function Score(gt: Dataset, pred: Dataset): Result<Scores, EvalError> {
    var gtT := TracksOf(gt);
    var prT := TracksOf(pred);
    var t :- Tallies(gtT, prT);
    Metrics(t, TableSizes(prT), TableSizes(gtT))
  }

  /** The harmonic mean of m/a and m/b, doubled, is 2m/(a+b). */
  lemma Harmonic(m: real, a: real, b: real)
    requires m > 0.0 && a > 0.0 && b > 0.0
    ensures (m / a) + (m / b) > 0.0
    ensures 2.0 * ((m / a) * (m / b)) / ((m / a) + (m / b)) == 2.0 * m / (a + b)
  {
    var p, q := m / a, m / b;
    assert p * a == m && q * b == m;
    assert p + q == m * (a + b) / (a * b);
    assert p * q == m * m / (a * b);
    assert (m * m / (a * b)) / (m * (a + b) / (a * b)) == m / (a + b);
  }

  /** 1 - x/n is at most 1 for x >= 0, n > 0. */
  lemma AtMostOne(x: nat, n: nat)
    requires n > 0
    ensures 1.0 - x as real / n as real <= 1.0
  {
  }

  /** Lines 102-107 on totals that satisfy the counting invariants: the
      scores are defined exactly when there is a gt entry, a pred entry and
      a true positive; otherwise the error is the first division by zero
      the code reaches (the recall denominator is never the first). */
  lemma MetricsDefined(t: Tally, np: nat, ng: nat)
    requires t.tp + t.fn == ng && |t.log| == t.tp
    ensures Metrics(t, np, ng).Ok? <==> ng > 0 && np > 0 && t.tp > 0
    ensures Metrics(t, np, ng).Err? ==>
              Metrics(t, np, ng).error ==
                (if ng == 0 then MotaUndefined else if np == 0 then PrecisionUndefined else Idf1Undefined)
  {
    MatchCountsSum(t.log);
    if t.tp > 0 && np > 0 && ng > 0 {
      assert t.tp as real / np as real > 0.0;
    }
  }

  /** When defined, MOTA is 1 - (FN + FP) / (number of gt entries) and at
      most 1; IDF1 is the harmonic mean 2PR / (P + R) of P = TP / np and
      R = TP / ng, which is 2 TP / (np + ng). */
  lemma MetricsValues(t: Tally, np: nat, ng: nat)
    requires t.tp + t.fn == ng && |t.log| == t.tp
    requires Metrics(t, np, ng).Ok?
    ensures var p, r := t.tp as real / np as real, t.tp as real / ng as real;
            && Metrics(t, np, ng).value.mota == 1.0 - (t.fn + t.fp) as real / ng as real
            && Metrics(t, np, ng).value.mota <= 1.0
            && Metrics(t, np, ng).value.idf1 == 2.0 * (p * r) / (p + r)
            && Metrics(t, np, ng).value.idf1 == 2.0 * t.tp as real / (np + ng) as real
            && Metrics(t, np, ng).value.idf1 > 0.0
  {
    MetricsDefined(t, np, ng);
    MatchCountsSum(t.log);
    AtMostOne(t.fn + t.fp, ng);
    Harmonic(t.tp as real, np as real, ng as real);
  }

  /** compute_mota_idf1 fails on a zero union exactly when the scan does,
      and otherwise scores the tallies against the two table totals, which
      satisfy the counting invariants. */
  lemma ScoreSpec(gt: Dataset, pred: Dataset)
    ensures Tallies(TracksOf(gt), TracksOf(pred)).Err? ==> Score(gt, pred) == Err(ZeroUnion)
    ensures Tallies(TracksOf(gt), TracksOf(pred)).Ok? ==>
              var t := Tallies(TracksOf(gt), TracksOf(pred)).value;
              && t.tp + t.fn == TableSizes(TracksOf(gt))
              && |t.log| == t.tp
              && Score(gt, pred) == Metrics(t, TableSizes(TracksOf(pred)), TableSizes(TracksOf(gt)))
  {
    TalliesTotals(TracksOf(gt), TracksOf(pred));
  }

  /** Over a whole evaluation, TP + FN is the number of distinct gt ids
      summed over the gt frames, and the id_matches counts add up to TP. */
  lemma ScoreTotals(gt: Dataset, pred: Dataset)
    requires Tallies(TracksOf(gt), TracksOf(pred)).Ok?
    ensures var t := Tallies(TracksOf(gt), TracksOf(pred)).value;
            && t.tp + t.fn == IdCount(gt)
            && SumValues(MatchCounts(t.log)) == t.tp
  {
    var t := Tallies(TracksOf(gt), TracksOf(pred)).value;
    TalliesTotals(TracksOf(gt), TracksOf(pred));
    TracksSize(gt);
    MatchCountsSum(t.log);
  }

  /** The scores are defined exactly when the scan succeeds, both datasets
      have an id and some gt entry matched; then MOTA = 1 - (FN + FP) / G
      and IDF1 = 2 TP / (P + G), where G and P count distinct ids per frame
      of the gt and the pred dataset. */
  lemma ScoreValues(gt: Dataset, pred: Dataset)
    ensures Score(gt, pred).Ok? <==>
              && Tallies(TracksOf(gt), TracksOf(pred)).Ok?
              && IdCount(gt) > 0 && IdCount(pred) > 0
              && Tallies(TracksOf(gt), TracksOf(pred)).value.tp > 0
    ensures Score(gt, pred).Ok? ==>
              var t := Tallies(TracksOf(gt), TracksOf(pred)).value;
              Score(gt, pred).value.mota == MotaClosed(t.fn, t.fp, IdCount(gt))
    ensures Score(gt, pred).Ok? ==>
              var t := Tallies(TracksOf(gt), TracksOf(pred)).value;
              Score(gt, pred).value.idf1 == Idf1Closed(t.tp, IdCount(pred), IdCount(gt))
  {
    ScoreSpec(gt, pred);
    TracksSize(gt);
    TracksSize(pred);
    ScoreFromTallies(Score(gt, pred), Tallies(TracksOf(gt), TracksOf(pred)), IdCount(pred), IdCount(gt));
  }

  /** ScoreValues for any result tied to the tallies as ScoreSpec ties them. */
  lemma ScoreFromTallies(s: Result<Scores, EvalError>, r: Result<Tally, EvalError>, np: nat, ng: nat)
    requires r.Err? ==> s == Err(ZeroUnion)
    requires r.Ok? ==> r.value.tp + r.value.fn == ng && |r.value.log| == r.value.tp && s == Metrics(r.value, np, ng)
    ensures s.Ok? <==> r.Ok? && ng > 0 && np > 0 && r.value.tp > 0
    ensures s.Ok? ==> s.value.mota == MotaClosed(r.value.fn, r.value.fp, ng)
    ensures s.Ok? ==> s.value.idf1 == Idf1Closed(r.value.tp, np, ng)
  {
    if r.Ok? {
      MetricsDefined(r.value, np, ng);
      if s.Ok? {
        MetricsClosedForm(s, r.value, np, ng);
      }
    }
  }

  /** 1 - (FN + FP) / G: MOTA in closed form. */
  function MotaClosed(fn: nat, fp: nat, ng: nat): real
    requires ng > 0
  {
    1.0 - (fn + fp) as real / ng as real
  }

  /** 2 TP / (P + G): IDF1 in closed form. */
  function Idf1Closed(tp: nat, np: nat, ng: nat): real
    requires np + ng > 0
  {
    2.0 * tp as real / (np + ng) as real
  }

  /** MetricsValues for a result known to equal the metrics of t. */
  lemma MetricsClosedForm(s: Result<Scores, EvalError>, t: Tally, np: nat, ng: nat)
    requires t.tp + t.fn == ng && |t.log| == t.tp
    requires s == Metrics(t, np, ng) && s.Ok?
    ensures s.value.mota == MotaClosed(t.fn, t.fp, ng)
    ensures s.value.idf1 == Idf1Closed(t.tp, np, ng)
  {
    MetricsValues(t, np, ng);
  }

  /** With no pred detections at all (every pred frame empty), there are no
      true or false positives and every gt entry is a miss, so the MOTA
      expression is 0 when there are gt entries; the code then divides by
      the empty pred total. */
  lemma NoPredictions(gt: Dataset, pred: Dataset)
    requires forall k :: 0 <= k < |pred| ==> pred[k].1 == []
    ensures TracksOf(pred) == []
    ensures Tallies(TracksOf(gt), TracksOf(pred)) == Ok(Tally(0, TableSizes(TracksOf(gt)), 0, []))
    ensures TableSizes(TracksOf(gt)) > 0 ==> MotaOf(Tallies(TracksOf(gt), TracksOf(pred)).value) == 0.0
    ensures Score(gt, pred) == Err(if TableSizes(TracksOf(gt)) == 0 then MotaUndefined else PrecisionUndefined)
  {
    EmptyTracks(pred);
    var gtT, prT := TracksOf(gt), TracksOf(pred);
    TalliesNoPredictions(gtT);
    var t := Tally(0, TableSizes(gtT), 0, []);
    assert Tallies(gtT, prT) == Ok(t);
    assert Score(gt, pred) == Metrics(t, 0, TableSizes(gtT));
    if t.fn > 0 {
      SelfRatio(t.fn);
    }
  }

  lemma SelfRatio(n: nat)
    requires n > 0
    ensures 1.0 - (n + 0) as real / (0 + n) as real == 0.0
  {
  }

  lemma {:induction false} EmptyTracks(ds: Dataset)
    requires forall k :: 0 <= k < |ds| ==> ds[k].1 == []
    ensures TracksOf(ds) == []
  {
    if ds != [] {
      var n := |ds| - 1;
      assert forall k :: 0 <= k < n ==> ds[..n][k] == ds[k];
      EmptyTracks(ds[..n]);
    }
  }

  /** The scan of one more gt entry. */
  lemma ScanStep(gts: Table, preds: Table, g: nat)
    requires g < |gts|
    ensures ScanFrame(gts[..g], preds).Err? ==> ScanFrame(gts[..g + 1], preds).Err?
    ensures FirstMatch(gts[g].1, preds).Err? ==> ScanFrame(gts[..g + 1], preds).Err?
    ensures ScanFrame(gts[..g], preds).Ok? && FirstMatch(gts[g].1, preds).Ok? ==>
              ScanFrame(gts[..g + 1], preds) ==
                Ok(Next(ScanFrame(gts[..g], preds).value, gts[g].0, FirstMatch(gts[g].1, preds).value))
  {
    assert gts[..g + 1][..g] == gts[..g];
  }

  /** A failure in the scan of some gt entries stays a failure of the frame. */
  lemma {:induction false} ScanSticks(gts: Table, preds: Table, g: nat)
    requires g <= |gts| && ScanFrame(gts[..g], preds).Err?
    ensures ScanFrame(gts, preds).Err?
    decreases |gts| - g
  {
    if g < |gts| {
      ScanStep(gts, preds, g);
      ScanSticks(gts, preds, g + 1);
    } else {
      assert gts[..g] == gts;
    }
  }

  /** Tallies over one more gt frame. */
  lemma TalliesStep(gtT: Tracks, prT: Tracks, f: nat)
    requires f < |gtT|
    ensures var t, ft := Tallies(gtT[..f], prT), FrameTally(gtT[f].1, GetOr(prT, gtT[f].0, []));
            && (t.Ok? && ft.Ok? ==> Tallies(gtT[..f + 1], prT) == Ok(Add(t.value, ft.value)))
            && (t.Err? || ft.Err? ==> Tallies(gtT[..f + 1], prT).Err?)
  {
    assert gtT[..f + 1][..f] == gtT[..f];
  }

  lemma {:induction false} TalliesSticks(gtT: Tracks, prT: Tracks, f: nat)
    requires f <= |gtT| && Tallies(gtT[..f], prT).Err?
    ensures Tallies(gtT, prT).Err?
    decreases |gtT| - f
  {
    if f < |gtT| {
      assert gtT[..f + 1][..f] == gtT[..f];
      TalliesSticks(gtT, prT, f + 1);
    } else {
      assert gtT[..f] == gtT;
    }
  }

  /** sum(len(t) for t in tracks.values()) */
  method SumTableSizes(tracks: Tracks) returns (total: nat)
    ensures total == TableSizes(tracks)
  {
    total := 0;
    for k := 0 to |tracks|
      invariant total == TableSizes(tracks[..k])
    {
      assert tracks[..k + 1][..k] == tracks[..k];
      total := total + |tracks[k].1|;
    }
    assert tracks[..|tracks|] == tracks;
  }

  /** sum(id_matches.values()) */
  method SumMatches(idMatches: Dict<(Id, Id), int>) returns (total: int)
    ensures total == SumValues(idMatches)
  {
    total := 0;
    for k := 0 to |idMatches|
      invariant total == SumValues(idMatches[..k])
    {
      PrefixSnoc(idMatches, k);
      SumValuesSnoc(idMatches[..k], idMatches[k].0, idMatches[k].1);
      total := total + idMatches[k].1;
    }
    assert idMatches[..|idMatches|] == idMatches;
  }

  /** Lines 85-96: scan one frame's gt entries, adding to tp, fn and
      id_matches; ok is false when an IoU divides by zero. */
  method ScanInto(gtObjects: Table, predObjects: Table, tp0: nat, fn0: nat,
                  idMatches0: Dict<(Id, Id), int>, ghost log0: seq<(Id, Id)>)
    returns (ok: bool, tp: nat, fn: nat, idMatches: Dict<(Id, Id), int>,
             matchedPredIds: set<Id>, ghost log: seq<(Id, Id)>)
    requires idMatches0 == MatchCounts(log0)
    ensures ok <==> ScanFrame(gtObjects, predObjects).Ok?
    ensures ok ==> var s := ScanFrame(gtObjects, predObjects).value;
                   && tp == tp0 + s.tp && fn == fn0 + s.fn && log == log0 + s.log
                   && matchedPredIds == s.matched && idMatches == MatchCounts(log)
  {
    tp, fn, idMatches, log := tp0, fn0, idMatches0, log0;
    matchedPredIds := {};
    ghost var scan := Scan(0, 0, [], {});
    for g := 0 to |gtObjects|
      invariant ScanFrame(gtObjects[..g], predObjects) == Ok(scan)
      invariant tp == tp0 + scan.tp && fn == fn0 + scan.fn && log == log0 + scan.log
      invariant matchedPredIds == scan.matched
      invariant idMatches == MatchCounts(log)
    {
      ScanStep(gtObjects, predObjects, g);
      var gtId, gtBox := gtObjects[g].0, gtObjects[g].1;
      var m := FindMatch(gtBox, predObjects);
      if m.Err? {
        ScanSticks(gtObjects, predObjects, g + 1);
        return false, tp, fn, idMatches, matchedPredIds, log;
      }
      if m.value.Some? {
        var predId := m.value.value;
        MatchCountsSnoc(log, (gtId, predId));
        tp := tp + 1;
        idMatches := Increment(idMatches, (gtId, predId));
        matchedPredIds := matchedPredIds + {predId};
        log := log + [(gtId, predId)];
      } else {
        fn := fn + 1;
      }
      scan := Next(scan, gtId, m.value);
    }
    assert gtObjects[..|gtObjects|] == gtObjects;
    ok := true;
  }

  /** Lines 98-100: add one false positive per pred entry left unmatched. */
  method CountFalsePositives(predObjects: Table, matchedPredIds: set<Id>, fp0: nat) returns (fp: nat)
    ensures fp == fp0 + CountUnmatched(predObjects, matchedPredIds)
  {
    fp := fp0;
    for q := 0 to |predObjects|
      invariant fp == fp0 + CountUnmatched(predObjects[..q], matchedPredIds)
    {
      assert predObjects[..q + 1][..q] == predObjects[..q];
      if predObjects[q].0 !in matchedPredIds {
        fp := fp + 1;
      }
    }
    assert predObjects[..|predObjects|] == predObjects;
  }

  /** Lines 102-109: the two scores from the counters and the tables. */
  method FinishScores(tp: nat, fn: nat, fp: nat, idMatches: Dict<(Id, Id), int>, ghost log: seq<(Id, Id)>,
                      gtTracks: Tracks, predTracks: Tracks)
    returns (r: Result<Scores, EvalError>)
    requires idMatches == MatchCounts(log)
    ensures r == Metrics(Tally(tp, fn, fp, log), TableSizes(predTracks), TableSizes(gtTracks))
  {
    if tp + fn == 0 {
      return Err(MotaUndefined);
    }
    var mota := 1.0 - (fn + fp) as real / (tp + fn) as real;
    var matches := SumMatches(idMatches);
    var predTotal := SumTableSizes(predTracks);
    if predTotal == 0 {
      return Err(PrecisionUndefined);
    }
    var idPrecision := matches as real / predTotal as real;
    var gtTotal := SumTableSizes(gtTracks);
    if gtTotal == 0 {
      return Err(RecallUndefined);
    }
    var idRecall := matches as real / gtTotal as real;
    if idPrecision + idRecall == 0.0 {
      return Err(Idf1Undefined);
    }
    var idf1 := 2.0 * (idPrecision * idRecall) / (idPrecision + idRecall);
    ghost var t := Tally(tp, fn, fp, log);
    assert SumValues(MatchCounts(t.log)) == matches;
    assert Metrics(t, predTotal, gtTotal).Ok?;
    assert Metrics(t, predTotal, gtTotal).value.mota == mota;
    assert Metrics(t, predTotal, gtTotal).value.idf1 == idf1;
    return Ok(Scores(mota, idf1));
  }

  /** Lines 80-100 for one frame: the gt scan, then the false positives. */
  method TallyFrame(gtObjects: Table, predObjects: Table, tp0: nat, fn0: nat, fp0: nat,
                    idMatches0: Dict<(Id, Id), int>, ghost log0: seq<(Id, Id)>)
    returns (ok: bool, tp: nat, fn: nat, fp: nat, idMatches: Dict<(Id, Id), int>, ghost log: seq<(Id, Id)>)
    requires idMatches0 == MatchCounts(log0)
    ensures ok <==> FrameTally(gtObjects, predObjects).Ok?
    ensures ok ==> Tally(tp, fn, fp, log) == Add(Tally(tp0, fn0, fp0, log0), FrameTally(gtObjects, predObjects).value)
    ensures ok ==> idMatches == MatchCounts(log)
  {
    var matchedPredIds;
    fp := fp0;
    ok, tp, fn, idMatches, matchedPredIds, log := ScanInto(gtObjects, predObjects, tp0, fn0, idMatches0, log0);
    if ok {
      fp := CountFalsePositives(predObjects, matchedPredIds, fp0);
    }
  }

  /** Lines 78-100: the loop over the gt frames, accumulating tp, fn, fp and
      id_matches; ok is false when an IoU divides by zero. */
  method ScanTracks(gtTracks: Tracks, predTracks: Tracks)
    returns (ok: bool, tp: nat, fn: nat, fp: nat, idMatches: Dict<(Id, Id), int>, ghost log: seq<(Id, Id)>)
    ensures ok <==> Tallies(gtTracks, predTracks).Ok?
    ensures ok ==> Tallies(gtTracks, predTracks) == Ok(Tally(tp, fn, fp, log)) && idMatches == MatchCounts(log)
  {
    tp, fp, fn := 0, 0, 0;
    idMatches, log := [], [];
    assert gtTracks[..0] == [];
    for f := 0 to |gtTracks|
      invariant Tallies(gtTracks[..f], predTracks) == Ok(Tally(tp, fn, fp, log))
      invariant idMatches == MatchCounts(log)
    {
      var frameOk;
      frameOk, tp, fn, fp, idMatches, log :=
        TallyFrame(gtTracks[f].1, GetOr(predTracks, gtTracks[f].0, []), tp, fn, fp, idMatches, log);
      TalliesStep(gtTracks, predTracks, f);
      if !frameOk {
        TalliesSticks(gtTracks, predTracks, f + 1);
        return false, tp, fn, fp, idMatches, log;
      }
    }
    assert gtTracks[..|gtTracks|] == gtTracks;
    ok := true;
  }

  /** Lines 63-109: compute_mota_idf1, with the counters, id_matches and the
      matched_pred_ids set updated in place as the loops go. */
  method ComputeMotaIdf1(gt: Dataset, pred: Dataset) returns (r: Result<Scores, EvalError>)
    requires DistinctKeys(gt) && DistinctKeys(pred)
    ensures r == Score(gt, pred)
  {
    var gtTracks := BuildTracks(gt);
    var predTracks := BuildTracks(pred);
    var ok, tp, fn, fp, idMatches, log := ScanTracks(gtTracks, predTracks);
    ScoreSpec(gt, pred);
    if !ok {
      return Err(ZeroUnion);
    }
    r := FinishScores(tp, fn, fp, idMatches, log, gtTracks, predTracks);
  }
}
