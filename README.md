# MOT evaluation: identity reconciliation and MOTA / IDF1

A Dafny model of the scoring core in `eval.py`, which evaluates
multi-object tracking output against ground truth. The core has three parts:

- `iou` measures the Intersection-over-Union of two boxes. Boxes are
  integer, pixel-inclusive (left, top, right, bottom) boxes, so a box covers
  `right - left + 1` columns.
- `assign_ids` matches ground-truth and predicted boxes frame by frame. It
  builds a cost matrix from the IoUs and asks an optimal assignment solver
  for pairs. It then keeps the pairs whose IoU reaches 0.3, and rewrites each
  predicted id to the ground-truth id it was paired with.
- `compute_mota_idf1` builds per-frame id → box tables. It runs a greedy
  first-match scan over them, counting true positives, misses and false
  positives and the (gt id, pred id) match counts. From these it forms MOTA
  and IDF1.

Modules:

| module | file | content |
|---|---|---|
| `Results` | results.dfy | `Option` and `Result`, and `EvalError`: one constructor per division in `eval.py` that can raise `ZeroDivisionError` |
| `Dict` | dict.dfy | Python dicts as insertion-ordered association lists |
| `Geometry` | geometry.dfy | boxes, and IoU as the exact pair (interArea, unionArea) |
| `Tracking` | tracking.dfy | ids, detections, datasets |
| `Reconcile` | reconcile.dfy | `assign_ids` |
| `Scoring` | scoring.dfy | `compute_mota_idf1` |
| `Pipeline` | pipeline.dfy | `compute_mota_idf1(gt, assign_ids(gt, pred))`, plus small worked scenarios |

How the model is built:

- **Specification functions.** Each imperative routine has a pure function
  that says what it computes: `ReconcileAll`, `TracksOf`, `FirstMatch`,
  `ScanFrame`, `Tallies`, `Metrics` and `Score`.
- **Methods.** The methods (`AssignIds`, `CostMatrix`, `AcceptPairs`,
  `BuildTracks`, `ScanInto`, `ScanTracks`, `ComputeMotaIdf1`, …) keep the
  source's loops, its early `break` and its in-place updates. Each method is
  proved equal to its specification function.
- **Lemmas.** The properties are proved as lemmas about the specification
  functions.
- **Dicts.** A Python dict is a `seq<(K, V)>` in insertion order.
  Re-assigning a key keeps the key's position and replaces its value. The
  greedy scan walks tables in this order.
- **Defaultdicts.** A `defaultdict` inserts its default on the first
  subscript `d[k]` of a missing key, whether that access reads or writes.
  In `eval.py` every such subscript of a possibly missing key (lines 35, 56,
  70, 74 and 90) is immediately followed by a write into the new entry, and
  line 79 subscripts a key that already exists. So an entry appears exactly
  when something is written under its key, and the model creates entries
  only there. A frame with an empty list therefore gets no table in
  `gt_tracks` and no entry in `new_pred`.
- **Division by zero.** Every division that can raise `ZeroDivisionError`
  returns `Err(...)` in the model.
- **IoU threshold.** IoU is kept as the integer pair (interArea, unionArea).
  The test `iou >= 0.3` is decided exactly as `union > 0 && 10 * inter >= 3 * union`.
  `Geometry.ThresholdExact` proves this test equals the real comparison.
  MOTA and IDF1 are exact `real` values.
- **The solver.** scipy's `linear_sum_assignment` is a parameter
  `solve: string -> seq<Pair>` that gives the solver's answer for each frame.
  `Reconcile.SolverContract` requires that answer to be an assignment: it
  has `min(rows, cols)` pairs, uses no row twice and uses no column twice.

## Model

| member | source | states |
|---|---|---|
| Geometry.Iou | eval.py:6-18 | iou as the exact pair (interArea, unionArea); characterised by IouSymmetric, IouBounded and IouSelf |
| Geometry.AtThreshold | eval.py:48 | the test `iou >= 0.3` on the pair; characterised by ThresholdExact |
| Tracking.FrameOf | eval.py:30 | `pred.get(image_name, [])`; characterised by Dict.Get and FrameOfAt |
| Tracking.FrameOfAt | eval.py:30 | with distinct frame names, `pred.get(name, [])` finds each frame's own list under its name |
| Dict.GetAt | eval.py:30 | with distinct keys, `d.get(k)` finds the value of each entry under that entry's key |
| Dict.Append | eval.py:35 | `new_pred[k].append(x)` on a defaultdict(list); characterised by AppendNew and AppendLast |
| Dict.SetIn | eval.py:70 | `tracks[k][k2] = v` on a defaultdict(dict); characterised by SetInNew and SetInLast |
| Dict.Increment | eval.py:90 | `d[k] += 1` on a defaultdict(int); characterised by IncrementGet and SumValuesIncrement |
| Reconcile.Accepted | eval.py:46-49 | `assigned_pred_ids` after the solver's pairs in order; characterised by AcceptedLookup |
| Reconcile.Relabel | eval.py:51-59 | one output detection per input, the id looked up in `assigned_pred_ids`, the box kept; characterised by ReconcileFrameSpec |
| Reconcile.ReconcileFrame | eval.py:33-59 | what `assign_ids` emits for one gt frame; characterised by ReconcileFrameSpec |
| Reconcile.ReconcileAll | eval.py:25-61 | `assign_ids(gt, pred)`; characterised by ReconcileAllFails, ReconcileAllKeys, ReconcileAllContent, ReconcileAllCount and ReconcileAllLocal |
| Scoring.FrameTable | eval.py:69-70 | one frame's id -> box table; characterised by FrameTableKeys, FrameTableLast and FrameTableSize |
| Scoring.TracksOf | eval.py:65-74 | `gt_tracks` / `pred_tracks`; characterised by TracksOfSpec and TracksSize |
| Scoring.FirstMatch | eval.py:86-94 | the first pred entry one gt box matches; characterised by FirstMatchSpec |
| Scoring.ScanFrame | eval.py:85-96 | the gt scan of one frame; characterised by ScanFrameOk, ScanFrameCounts and ScanFrameMatchedKeys |
| Scoring.CountUnmatched | eval.py:98-100 | the false positives of one frame; characterised by CountUnmatchedSet and CountUnmatchedSize |
| Scoring.FrameTally | eval.py:79-100 | the counters one gt frame adds; characterised by FrameTallySpec |
| Scoring.Tallies | eval.py:78-100 | the counters after all gt frames; characterised by TalliesTotals, TalliesLocal and TalliesNoPredictions |
| Scoring.MatchCounts | eval.py:90 | `id_matches` from the logged matches; characterised by MatchCountsSum |
| Scoring.Metrics | eval.py:102-107 | MOTA and IDF1 from the counters and the table totals; characterised by MetricsDefined and MetricsValues |
| Scoring.Score | eval.py:63-109 | `compute_mota_idf1(gt, pred)`; characterised by ScoreSpec, ScoreTotals and ScoreValues |
| Pipeline.Evaluate | eval.py:115-117 | `compute_mota_idf1(gt, assign_ids(gt, pred))`; characterised by EvaluateLocal and the scenario lemmas below |
| Pipeline.RepeatedPredId | eval.py:46-59 | two gt targets on disjoint boxes and two preds on those boxes sharing one id, with the diagonal pairs: both preds come out with the second gt id, because the later pair overwrites the earlier one |
| Pipeline.EvaluateLocal | eval.py:115-117 | two prediction datasets that agree on every gt frame evaluate alike, so prediction-only frames affect neither score |
| Geometry.Intersection | eval.py:7-12 | interArea is never negative; if it is positive, the clamped intersection rectangle is non-empty on both axes |
| Geometry.ThresholdExact | eval.py:17 | with a non-zero union, the integer test `10 * inter >= 3 * union` holds exactly when the real ratio interArea / unionArea is at least 0.3 |
| Geometry.IouSymmetric | eval.py:7-17 | iou(A, B) and iou(B, A) are the same pair (interArea, unionArea) |
| Geometry.IntersectionWithinArea | eval.py:12-14 | the clamped intersection never exceeds the area of a box whose area is positive |
| Geometry.IouBounded | eval.py:12-17 | when both areas are positive, 0 <= interArea <= unionArea, the union is positive, and 0 <= iou <= 1 |
| Geometry.IouSelf | eval.py:12-17 | for a well-formed box, iou(A, A) is area / area with a positive area, and equals 1; any other box has a zero intersection with itself |
| Dict.Get | eval.py:30 | `d.get(k)` is None exactly when k is not a key, and otherwise is the value of an entry with key k |
| Dict.Put | eval.py:70 | `d[k] = v`: an existing key keeps its position; a new key is appended at the end; k then maps to v; every other key keeps its value |
| Dict.PutLast | eval.py:70 | re-assigning the key of the last entry replaces only that entry's value |
| Dict.GetAppend | eval.py:35 | after appending an entry, a lookup finds the old value if the key was already there, else the new entry's value |
| Dict.AppendNew | eval.py:35 | `new_pred[k].append(x)` on a key not yet present creates the entry `(k, [x])` at the end |
| Dict.AppendLast | eval.py:56 | appending under the key of the last entry extends that entry's list and leaves the rest unchanged |
| Dict.SetInNew | eval.py:70 | `tracks[k][k2] = v` on a missing k creates the one-entry table `{k2: v}` at the end |
| Dict.SetInLast | eval.py:70 | `tracks[k][k2] = v` on the last frame's table assigns `k2` inside that table only |
| Dict.PutDistinct | eval.py:70 | assignment keeps the keys distinct |
| Dict.KeySetSize | eval.py:104-105 | `len(d)` is the number of distinct keys of d |
| Dict.IncrementGet | eval.py:90 | `d[k] += 1` raises the count of k by one, starting from 0 if k is missing, and leaves every other count unchanged |
| Dict.SumValuesIncrement | eval.py:90 | `d[k] += 1` raises `sum(d.values())` by exactly one |
| Reconcile.AcceptedLookup | eval.py:46-49 | a pred id is absent from `assigned_pred_ids` exactly when no pair with IoU >= 0.3 names it; otherwise it maps to the gt id of the LAST such pair, because later pairs overwrite earlier ones |
| Reconcile.ReconcileFrameSpec | eval.py:33-59 | if either list is empty, the frame's pred list is copied through unchanged. Otherwise the frame fails exactly when some cell of the cost matrix has a zero union. On success the output has the same length and order, keeps every box, keeps each id that no accepted pair names, and rewrites each other id to the gt id of the last accepted pair naming it |
| Reconcile.ReconcileAllFails | eval.py:28-44 | `assign_ids` fails, always with a zero-union error, exactly when some gt frame with non-empty gt and pred lists has a zero union in its cost matrix |
| Reconcile.ReconcileAllKeys | eval.py:26-28 | the output has distinct frame names: exactly the gt frames whose pred list is non-empty. Pred-only frames are absent |
| Reconcile.ReconcileAllContent | eval.py:51-59 | every emitted frame holds what ReconcileFrame describes for that frame's gt list, pred list and solver answer |
| Reconcile.ReconcileAllCount | eval.py:33-59 | no detection is added or dropped: the output holds as many detections as the pred lists of the gt frames |
| Reconcile.ReconcileAllLocal | eval.py:28-30 | two prediction datasets that agree on every gt frame reconcile alike, so pred-only frames play no part |
| Reconcile.CostMatrix | eval.py:38-42 | the matrix has `len(gt) x len(pred)` cells, each the IoU of its pair; `defined` is false exactly when some IoU would divide by zero |
| Reconcile.AcceptPairs | eval.py:46-49 | the map built in the solver's pair order equals `Accepted`, whose meaning AcceptedLookup states |
| Reconcile.CopyThrough | eval.py:33-36 | appends the pred list unchanged under the frame name, and adds no entry when the list is empty |
| Reconcile.EmitRelabelled | eval.py:51-59 | appends the relabelled pred list under the frame name, and adds no entry when the list is empty |
| Reconcile.AssignIds | eval.py:25-61 | the whole frame loop returns exactly ReconcileAll, including its failure |
| Scoring.FrameTableKeys | eval.py:69-70 | a frame's table has distinct keys, and its keys are exactly the frame's ids |
| Scoring.FrameTableLast | eval.py:69-70 | under each id the table holds the box of that id's last detection: later rows overwrite earlier ones |
| Scoring.FrameTableSize | eval.py:69-70 | a frame's table has one entry per distinct id of the frame |
| Scoring.TracksOfSpec | eval.py:65-74 | the tables have distinct names; each frame with detections has its own table under its name; an empty frame, or a name not in the dataset, has none |
| Scoring.TracksSize | eval.py:65-74 | the tables hold, in total, the number of distinct ids per frame summed over the frames |
| Scoring.BuildTracks | eval.py:65-74 | building the tables row by row gives exactly TracksOf |
| Scoring.AddFrame | eval.py:68-70 | one frame's rows add that frame's table at the end, and nothing when the frame is empty |
| Scoring.TracksOfNext | eval.py:68-70 | a new frame name has no table yet, and it gets one exactly when it has detections |
| Scoring.FirstMatchSpec | eval.py:86-94 | a gt box finds no match exactly when every pred entry is defined and below 0.3. Otherwise it finds the id of the first pred entry, in table order, that reaches 0.3, and that entry is a key of the table. It fails, with a zero-union error, exactly when a zero union comes before any hit |
| Scoring.FindMatch | eval.py:86-95 | the inner loop with its early `break` returns exactly FirstMatch |
| Scoring.ScanFrameOk | eval.py:85-96 | a frame's scan fails, with a zero-union error, exactly when the scan of one of its gt boxes fails |
| Scoring.ScanFrameCounts | eval.py:85-96 | each gt entry counts exactly once, as TP or as FN; one (gt id, pred id) pair is logged per TP; a pred id is in `matched_pred_ids` exactly when it is the first match of some gt entry, so there are at most TP of them |
| Scoring.ScanFrameMatchedKeys | eval.py:92 | every matched pred id is a key of the frame's pred table |
| Scoring.CountUnmatchedSet | eval.py:98-100 | FP in one frame is the number of pred ids of the frame that are not in `matched_pred_ids` |
| Scoring.CountUnmatchedSize | eval.py:98-100 | FP plus the number of matched pred ids is the size of the frame's pred table |
| Scoring.FrameTallySpec | eval.py:79-100 | in one gt frame, TP + FN is the number of gt entries; FP plus the matched pred ids is the number of pred entries, so `len(pred) - TP <= FP <= len(pred)`; with no pred entries, TP = FP = 0 |
| Scoring.TalliesTotals | eval.py:78-100 | over all gt frames, TP + FN is the total size of the gt tables and one match is logged per TP; the only failure is a zero union |
| Scoring.TalliesLocal | eval.py:78-80 | the tallies read the pred tables only at gt frame names, so pred-only frames add nothing to TP, FP or FN |
| Scoring.TalliesNoPredictions | eval.py:78-100 | with no pred tables, TP = FP = 0 and every gt entry is a miss |
| Scoring.MatchCountsSum | eval.py:90 | `sum(id_matches.values())` equals the number of logged matches |
| Scoring.MetricsDefined | eval.py:102-107 | on totals that satisfy the counting invariants, the scores are defined exactly when there is a gt entry, a pred entry and a TP. Otherwise the error is the first division by zero the code reaches: MOTA, then precision, then IDF1 |
| Scoring.MetricsValues | eval.py:102-107 | when defined, MOTA = 1 - (FN + FP) / (TP + FN), which is at most 1. IDF1 = 2PR / (P + R) with P = matches / pred total and R = matches / gt total. This equals 2 TP / (pred total + gt total) and is positive |
| Scoring.ScoreSpec | eval.py:63-109 | `compute_mota_idf1` fails on a zero union exactly when the scan does, and otherwise scores the tallies against the two table totals |
| Scoring.ScoreTotals | eval.py:85-96 | over a whole evaluation, TP + FN is the number of distinct gt ids summed over the gt frames, and the `id_matches` counts add up to TP |
| Scoring.ScoreValues | eval.py:102-107 | the scores are defined exactly when the scan succeeds, both datasets have an id and TP > 0. Then MOTA = 1 - (FN + FP) / G and IDF1 = 2 TP / (P + G), where G and P are the distinct ids per frame summed over the gt and the pred dataset |
| Scoring.NoPredictions | eval.py:98-104 | with no predicted detections, there are no pred tables; TP = FP = 0 and every gt entry is a miss, so the MOTA expression is 0; the code then fails at the precision denominator, or at MOTA when there are no gt entries |
| Scoring.SumTableSizes | eval.py:104-105 | `sum(len(t) for t in tracks.values())` |
| Scoring.SumMatches | eval.py:104 | `sum(id_matches.values())` |
| Scoring.ScanInto | eval.py:85-96 | the gt scan of one frame adds the scan's TP and FN to the counters, its logged pairs to `id_matches`, and returns `matched_pred_ids`; `ok` is false exactly when an IoU divides by zero |
| Scoring.CountFalsePositives | eval.py:98-100 | adds the number of unmatched pred entries to FP |
| Scoring.TallyFrame | eval.py:80-100 | one gt frame adds its FrameTally to the running counters, and keeps `id_matches` equal to the counts of the logged pairs |
| Scoring.ScanTracks | eval.py:78-100 | the loop over the gt frames leaves exactly the Tallies counters, with `id_matches` equal to the counts of the logged pairs, or fails exactly when they do |
| Scoring.FinishScores | eval.py:102-109 | MOTA and IDF1 from the counters and the two table totals are exactly Metrics, including which division fails first |
| Scoring.ComputeMotaIdf1 | eval.py:63-109 | the whole routine returns exactly Score |
| Pipeline.SelfMatch | eval.py:6-18 | a well-formed box overlaps itself with a positive union, and the pair passes the 0.3 threshold |
| Pipeline.Disjoint | eval.py:6-18 | two non-intersecting well-formed boxes have a positive union, and the pair does not pass the 0.3 threshold |
| Pipeline.SingleReconcile | eval.py:25-61 | one gt detection against one pred detection: the pred id becomes the gt id when the IoU reaches 0.3; the box is kept; a zero union is an error |
| Pipeline.SingleTally | eval.py:78-100 | one gt entry against one pred entry: TP when the IoU reaches 0.3, otherwise one FN and one FP; a zero union is an error |
| Pipeline.ExactMatch | eval.py:115-117 | one target with the same box in gt and pred: the pred id is rewritten to the gt id, TP = 1 with no FN or FP, and MOTA = IDF1 = 1 |
| Pipeline.NoOverlap | eval.py:115-117 | one gt target and one pred target on disjoint boxes: the id is kept, FN = FP = 1, the MOTA expression is -1, and the evaluation fails at the IDF1 division (P + R = 0) |
| Pipeline.GreedyReuse | eval.py:85-107 | two gt targets on the same box and one pred target on that box: the one pred entry is the first match for both gt entries, so TP = 2, MOTA = 1 and IDF1 = 4/3 |
| Pipeline.EmptyGtFrame | eval.py:65-100 | a gt frame with an empty list gets no gt table, so the pred detection of that frame is no false positive but still counts in the precision denominator: MOTA = 1, IDF1 = 2/3 |

## Left out

- `load_json` and `main` (eval.py:20-23, 111-120) read files and print. `Pipeline.Evaluate` models only the composition at lines 115-117. The 4-decimal formatting is not modelled.
- main.py, the annotation user interface, is not part of this model.
- Floating point: IoU is kept as the exact integer pair, and `>= 0.3` as the exact integer comparison. MOTA and IDF1 are exact reals. The model does not capture numpy's float rounding, for example a ratio that lands just below 0.3 when computed in floats.
- Box coordinates are integers, as the annotation tool writes them. Float coordinates are not modelled.
- The cost matrix holds each IoU rather than its negation. The test `-cost >= 0.3` becomes the same test on the IoU. The numpy array is a Dafny `array2`.
- `linear_sum_assignment` is a foreign call. The model takes its answer as the parameter `solve` and requires only that it is an assignment of size `min(rows, cols)` (`Reconcile.SolverContract`). The model does not state that the assignment maximises the total IoU, so no lemma depends on optimality.
- `matched_gt_ids` (eval.py:82, 91) is written but never read, so the model does not keep it.
- `Reconcile.AssignIds`, `Scoring.BuildTracks` and `Scoring.ComputeMotaIdf1` require distinct frame names, and the frame tables they scan have distinct keys (FrameTableKeys proves this; repeated ids within a frame are accepted, and the later one overwrites). Distinct frame names are what a JSON object's keys guarantee when `load_json` reads them.
- A `target_id` is a JSON integer or string (`Tracking.Id`). Other JSON values as ids are not modelled.
- Geometry.IouSelf: states iou(A, A) == 1 only for well-formed boxes. An inverted box has a positive area but a zero intersection with itself, so its IoU with itself is 0.
- That reconciling predictions whose boxes already coincide with the ground truth maps every id to its gt id is not stated, because `assign_ids` does not have this property in general. Three cases break it. (i) A pred id repeated within a frame: the later accepted pair overwrites the earlier one in `assigned_pred_ids` (eval.py:49), so every detection with that id gets the last gt id; `Pipeline.RepeatedPredId` proves this for two disjoint boxes paired along the diagonal. (ii) An inverted box has IoU 0 with itself (`Geometry.IouSelf`), so a pred on the same inverted box never reaches 0.3 and keeps its own id. (iii) Two gt targets on the same box tie in the cost matrix, so an optimal solver may pair them with the preds either way and swap their ids. Optimality of the solver is also not modelled.
- That scoring a dataset against itself gives MOTA = 1 is not stated, because it does not hold: greedy reuse breaks it when boxes overlap. `Pipeline.GreedyReuse` exhibits this.

## Notes on the code's behaviour

Each note compares what the code does with what one would expect of a
MOT evaluator; the model follows the code in every case.

- A hardened evaluator would report an undefined metric when a denominator is zero. The code raises `ZeroDivisionError`; the model returns `Err`, naming the failing division.
- With no predicted detections everything is a miss and the MOTA expression is 0, but the code never returns it: it then divides by a zero prediction total (`Scoring.NoPredictions`).
- One gt target and one pred target on disjoint boxes give one miss and one false positive; the code then fails at the IDF1 division, because precision + recall = 0 (`Pipeline.NoOverlap`).
- A ground-truth frame whose list is empty never gets a `gt_tracks` entry, since nothing is written under its name. Predictions in such a frame are therefore not false positives, though they still count in the precision denominator (`Pipeline.EmptyGtFrame`). This holds through `main` too: `assign_ids` copies such a frame's predictions through unchanged (eval.py:33-35), so they reach `pred_tracks`.
- IDF1 is usually computed with every predicted detection in the precision denominator. In `main`, `assign_ids` first drops prediction-only frames (`Reconcile.ReconcileAllKeys`), so those predictions never reach the denominator at eval.py:104 and do not affect either score (`Pipeline.EvaluateLocal`).
- The greedy scan does not skip pred ids that are already matched, so TP can exceed the number of pred entries and IDF1 can exceed 1 (`Pipeline.GreedyReuse`: 4/3).
