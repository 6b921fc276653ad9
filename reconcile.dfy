/** assign_ids: per ground-truth frame, relabel the predicted detections
    with the ground-truth ids of the boxes an optimal assignment pairs them
    with, where the pair's IoU reaches 0.3. */
module Reconcile {
  import opened Results
  import opened Dict
  import opened Geometry
  import opened Tracking

  /** One (gt row, pred column) pair of linear_sum_assignment's answer. */
  type Pair = (int, int)

  function MinNat(a: nat, b: nat): nat { if a <= b then a else b }

  predicate InRange(pairs: seq<Pair>, rows: nat, cols: nat) {
    forall t :: 0 <= t < |pairs| ==> 0 <= pairs[t].0 < rows && 0 <= pairs[t].1 < cols
  }

  /** What linear_sum_assignment returns for a rows x cols matrix:
      min(rows, cols) pairs using no row and no column twice. */
  predicate IsAssignment(pairs: seq<Pair>, rows: nat, cols: nat) {
    && |pairs| == MinNat(rows, cols)
    && InRange(pairs, rows, cols)
    && forall s, t :: 0 <= s < t < |pairs| ==> pairs[s].0 != pairs[t].0 && pairs[s].1 != pairs[t].1
  }

  /** solve(name) is the solver's answer for frame `name`, for every frame
      on which assign_ids calls the solver. */
  ghost predicate SolverContract(gt: Dataset, pred: Dataset, solve: string -> seq<Pair>) {
    forall k :: 0 <= k < |gt| && |gt[k].1| > 0 && |FrameOf(pred, gt[k].0)| > 0 ==>
      IsAssignment(solve(gt[k].0), |gt[k].1|, |FrameOf(pred, gt[k].0)|)
  }

  /** Every cell of the cost matrix has a non-zero union, so no iou call raises. */
  predicate AllDefined(gtObjs: seq<Detection>, predObjs: seq<Detection>) {
    forall i, j :: 0 <= i < |gtObjs| && 0 <= j < |predObjs| ==>
      Iou(gtObjs[i].ltrb, predObjs[j].ltrb).union != 0
  }

  /** Pair t is kept (IoU >= 0.3) and its predicted detection has id `id`. */
  predicate AcceptedAt(gtObjs: seq<Detection>, predObjs: seq<Detection>, pairs: seq<Pair>, t: int, id: Id) {
    && 0 <= t < |pairs|
    && 0 <= pairs[t].0 < |gtObjs| && 0 <= pairs[t].1 < |predObjs|
    && predObjs[pairs[t].1].targetId == id
    && AtThreshold(Iou(gtObjs[pairs[t].0].ltrb, predObjs[pairs[t].1].ltrb))
  }

  /** Pair t is the last kept pair for predicted id `id`. */
  predicate LastAcceptedAt(gtObjs: seq<Detection>, predObjs: seq<Detection>, pairs: seq<Pair>, t: int, id: Id) {
    && AcceptedAt(gtObjs, predObjs, pairs, t, id)
    && forall u :: t < u < |pairs| ==> !AcceptedAt(gtObjs, predObjs, pairs, u, id)
  }

  /** assigned_pred_ids after the pairs in order: pred id -> gt id. */
  function Accepted(gtObjs: seq<Detection>, predObjs: seq<Detection>, pairs: seq<Pair>): Dict<Id, Id>
    requires InRange(pairs, |gtObjs|, |predObjs|)
    decreases |pairs|
  {
    if pairs == [] then []
    else
      var acc := Accepted(gtObjs, predObjs, pairs[..|pairs| - 1]);
      var (i, j) := pairs[|pairs| - 1];
      if AtThreshold(Iou(gtObjs[i].ltrb, predObjs[j].ltrb))
      then Put(acc, predObjs[j].targetId, gtObjs[i].targetId)
      else acc
  }

  /** A predicted id is mapped exactly when some pair kept it, and then to the
      ground-truth id of the LAST such pair: later pairs overwrite. */
  lemma AcceptedLookup(gtObjs: seq<Detection>, predObjs: seq<Detection>, pairs: seq<Pair>, id: Id)
    requires InRange(pairs, |gtObjs|, |predObjs|)
    ensures Get(Accepted(gtObjs, predObjs, pairs), id).None? <==>
              forall t :: 0 <= t < |pairs| ==> !AcceptedAt(gtObjs, predObjs, pairs, t, id)
    ensures Get(Accepted(gtObjs, predObjs, pairs), id).Some? ==>
              exists t :: LastAcceptedAt(gtObjs, predObjs, pairs, t, id) &&
                          Get(Accepted(gtObjs, predObjs, pairs), id).value == gtObjs[pairs[t].0].targetId
  {
    AcceptedUnmapped(gtObjs, predObjs, pairs, id);
    var r := Get(Accepted(gtObjs, predObjs, pairs), id);
    if r.Some? {
      var t := AcceptedMapped(gtObjs, predObjs, pairs, id);
    }
  }

  lemma {:induction false} AcceptedUnmapped(gtObjs: seq<Detection>, predObjs: seq<Detection>, pairs: seq<Pair>, id: Id)
    requires InRange(pairs, |gtObjs|, |predObjs|)
    ensures Get(Accepted(gtObjs, predObjs, pairs), id).None? <==>
              forall t :: 0 <= t < |pairs| ==> !AcceptedAt(gtObjs, predObjs, pairs, t, id)
  {
    if pairs != [] {
      var n := |pairs| - 1;
      AcceptedUnmapped(gtObjs, predObjs, pairs[..n], id);
      PrefixAccepted(gtObjs, predObjs, pairs, n, id);
      AcceptedStep(gtObjs, predObjs, pairs, id);
    }
  }

  lemma {:induction false} AcceptedMapped(gtObjs: seq<Detection>, predObjs: seq<Detection>, pairs: seq<Pair>, id: Id) returns (t: int)
    requires InRange(pairs, |gtObjs|, |predObjs|)
    requires Get(Accepted(gtObjs, predObjs, pairs), id).Some?
    ensures LastAcceptedAt(gtObjs, predObjs, pairs, t, id)
    ensures Get(Accepted(gtObjs, predObjs, pairs), id).value == gtObjs[pairs[t].0].targetId
  {
    var n := |pairs| - 1;
    AcceptedStep(gtObjs, predObjs, pairs, id);
    if AcceptedAt(gtObjs, predObjs, pairs, n, id) {
      t := n;
    } else {
      t := AcceptedMapped(gtObjs, predObjs, pairs[..n], id);
      LastExtends(gtObjs, predObjs, pairs, t, id);
    }
  }

  /** The last pair either sets the entry for id or leaves it as the
      earlier pairs made it. */
  lemma AcceptedStep(gtObjs: seq<Detection>, predObjs: seq<Detection>, pairs: seq<Pair>, id: Id)
    requires InRange(pairs, |gtObjs|, |predObjs|) && pairs != []
    ensures var n := |pairs| - 1;
            Get(Accepted(gtObjs, predObjs, pairs), id) ==
              if AcceptedAt(gtObjs, predObjs, pairs, n, id) then Some(gtObjs[pairs[n].0].targetId)
              else Get(Accepted(gtObjs, predObjs, pairs[..n]), id)
  {
  }

  /** The last kept pair of a prefix stays the last one when the next pair
      is not kept for the same id. */
  lemma LastExtends(gtObjs: seq<Detection>, predObjs: seq<Detection>, pairs: seq<Pair>, t: int, id: Id)
    requires pairs != []
    requires LastAcceptedAt(gtObjs, predObjs, pairs[..|pairs| - 1], t, id)
    requires !AcceptedAt(gtObjs, predObjs, pairs, |pairs| - 1, id)
    ensures LastAcceptedAt(gtObjs, predObjs, pairs, t, id)
    ensures pairs[t] == pairs[..|pairs| - 1][t]
  {
    var n := |pairs| - 1;
    PrefixAccepted(gtObjs, predObjs, pairs, n, id);
  }

  /** Pairs before position n are judged alike in the prefix and the whole list. */
  lemma PrefixAccepted(gtObjs: seq<Detection>, predObjs: seq<Detection>, pairs: seq<Pair>, n: nat, id: Id)
    requires n <= |pairs|
    ensures forall t :: 0 <= t < n ==>
              AcceptedAt(gtObjs, predObjs, pairs[..n], t, id) == AcceptedAt(gtObjs, predObjs, pairs, t, id)
  {
    forall t | 0 <= t < n
      ensures AcceptedAt(gtObjs, predObjs, pairs[..n], t, id) == AcceptedAt(gtObjs, predObjs, pairs, t, id)
    {
      assert pairs[..n][t] == pairs[t];
    }
  }

  /** Lines 51-59: one output detection per input detection, id rewritten
      through `mapping`, box kept. */
  function Relabel(predObjs: seq<Detection>, mapping: Dict<Id, Id>): seq<Detection> {
    seq(|predObjs|, k requires 0 <= k < |predObjs| =>
      Detection(GetOr(mapping, predObjs[k].targetId, predObjs[k].targetId), predObjs[k].ltrb))
  }

  /** The detections assign_ids emits for one ground-truth frame. */
  function ReconcileFrame(gtObjs: seq<Detection>, predObjs: seq<Detection>, pairs: seq<Pair>): Result<seq<Detection>, EvalError>
    requires |gtObjs| > 0 && |predObjs| > 0 ==> InRange(pairs, |gtObjs|, |predObjs|)
  {
    if |gtObjs| == 0 || |predObjs| == 0 then Ok(predObjs)
    else if !AllDefined(gtObjs, predObjs) then Err(ZeroUnion)
    else Ok(Relabel(predObjs, Accepted(gtObjs, predObjs, pairs)))
  }

  /** The frame-level promise: same length, same boxes, and each id either
      kept (no kept pair names it) or replaced by the ground-truth id of the
      last kept pair naming it; an empty side copies the frame through; the
      only failure is a zero union somewhere in the cost matrix. */
  lemma ReconcileFrameSpec(gtObjs: seq<Detection>, predObjs: seq<Detection>, pairs: seq<Pair>, k: int)
    requires |gtObjs| > 0 && |predObjs| > 0 ==> InRange(pairs, |gtObjs|, |predObjs|)
    requires 0 <= k < |predObjs|
    ensures (|gtObjs| == 0 || |predObjs| == 0) ==> ReconcileFrame(gtObjs, predObjs, pairs) == Ok(predObjs)
    ensures ReconcileFrame(gtObjs, predObjs, pairs).Err? <==>
              |gtObjs| > 0 && !AllDefined(gtObjs, predObjs)
    ensures ReconcileFrame(gtObjs, predObjs, pairs).Ok? ==>
              var out := ReconcileFrame(gtObjs, predObjs, pairs).value;
              && |out| == |predObjs|
              && out[k].ltrb == predObjs[k].ltrb
              && ((out[k].targetId == predObjs[k].targetId &&
                   forall t :: 0 <= t < |pairs| ==> !AcceptedAt(gtObjs, predObjs, pairs, t, predObjs[k].targetId))
                  || exists t :: LastAcceptedAt(gtObjs, predObjs, pairs, t, predObjs[k].targetId) &&
                                 out[k].targetId == gtObjs[pairs[t].0].targetId)
  {
    if |gtObjs| > 0 && AllDefined(gtObjs, predObjs) {
      AcceptedLookup(gtObjs, predObjs, pairs, predObjs[k].targetId);
    }
  }

  /** The frames assign_ids emits, by ground-truth frame in order. */
  function ReconcileAll(gt: Dataset, pred: Dataset, solve: string -> seq<Pair>): Result<Dataset, EvalError>
    requires SolverContract(gt, pred, solve)
    decreases |gt|
  {
    if gt == [] then Ok([])
    else
      var n := |gt| - 1;
      var rest :- ReconcileAll(gt[..n], pred, solve);
      var name := gt[n].0;
      var p := FrameOf(pred, name);
      var out :- ReconcileFrame(gt[n].1, p, solve(name));
      Ok(if |p| == 0 then rest else rest + [(name, out)])
  }

  /** A frame is in the output exactly when it is a ground-truth frame whose
      predicted list is non-empty (new_pred is a defaultdict). */
  predicate Emitted(gt: Dataset, pred: Dataset, name: string) {
    HasKey(gt, name) && |FrameOf(pred, name)| > 0
  }

  /** assign_ids fails (some iou divides by zero) exactly when a ground-truth
      frame with both lists non-empty has a zero union in its cost matrix. */
  lemma {:induction false} ReconcileAllFails(gt: Dataset, pred: Dataset, solve: string -> seq<Pair>)
    requires SolverContract(gt, pred, solve)
    ensures ReconcileAll(gt, pred, solve).Err? <==>
              exists k :: 0 <= k < |gt| && |gt[k].1| > 0 && |FrameOf(pred, gt[k].0)| > 0 &&
                          !AllDefined(gt[k].1, FrameOf(pred, gt[k].0))
    ensures ReconcileAll(gt, pred, solve).Err? ==> ReconcileAll(gt, pred, solve).error == ZeroUnion
  {
    if gt != [] {
      var n := |gt| - 1;
      var front := gt[..n];
      ReconcileAllFails(front, pred, solve);
      assert forall k :: 0 <= k < n ==> front[k] == gt[k];
    }
  }

  /** The output has distinct frame names and holds exactly the emitted
      frames. */
  lemma {:induction false} ReconcileAllKeys(gt: Dataset, pred: Dataset, solve: string -> seq<Pair>)
    requires DistinctKeys(gt)
    requires SolverContract(gt, pred, solve)
    ensures ReconcileAll(gt, pred, solve).Ok? ==> DistinctKeys(ReconcileAll(gt, pred, solve).value)
    ensures ReconcileAll(gt, pred, solve).Ok? ==>
              forall name :: HasKey(ReconcileAll(gt, pred, solve).value, name) <==> Emitted(gt, pred, name)
  {
    if gt != [] && ReconcileAll(gt, pred, solve).Ok? {
      var n := |gt| - 1;
      var front := gt[..n];
      var name := gt[n].0;
      var p := FrameOf(pred, name);
      DropLast(gt);
      ReconcileAllKeys(front, pred, solve);
      var rest := ReconcileAll(front, pred, solve).value;
      var out := ReconcileAll(gt, pred, solve).value;
      if |p| > 0 {
        var frame := ReconcileFrame(gt[n].1, p, solve(name)).value;
        assert out == rest + [(name, frame)];
        assert !HasKey(rest, name);
        assert out == Put(rest, name, frame);
        PutDistinct(rest, name, frame);
      }
      forall y ensures HasKey(out, y) <==> Emitted(gt, pred, y) {
        assert HasKey(out, y) <==> HasKey(rest, y) || (y == name && |p| > 0) by {
          if |p| > 0 {
            var frame := ReconcileFrame(gt[n].1, p, solve(name)).value;
            HasKeyAppend(rest, name, frame, y);
          }
        }
      }
    }
  }


  /** Each emitted frame holds what ReconcileFrame describes. */
  lemma {:induction false} ReconcileAllContent(gt: Dataset, pred: Dataset, solve: string -> seq<Pair>, k: int)
    requires DistinctKeys(gt)
    requires SolverContract(gt, pred, solve)
    requires 0 <= k < |gt| && |FrameOf(pred, gt[k].0)| > 0
    ensures ReconcileAll(gt, pred, solve).Ok? ==>
              && ReconcileFrame(gt[k].1, FrameOf(pred, gt[k].0), solve(gt[k].0)).Ok?
              && Get(ReconcileAll(gt, pred, solve).value, gt[k].0) ==
                 Some(ReconcileFrame(gt[k].1, FrameOf(pred, gt[k].0), solve(gt[k].0)).value)
  {
    if ReconcileAll(gt, pred, solve).Ok? {
      var n := |gt| - 1;
      var front := gt[..n];
      var name := gt[n].0;
      var p := FrameOf(pred, name);
      DropLast(gt);
      var rest := ReconcileAll(front, pred, solve).value;
      var out := ReconcileAll(gt, pred, solve).value;
      if k == n {
        ReconcileAllKeys(front, pred, solve);
        var frame := ReconcileFrame(gt[n].1, p, solve(name)).value;
        assert out == rest + [(name, frame)];
        GetAppend(rest, name, frame, name);
      } else {
        assert front[k] == gt[k];
        ReconcileAllContent(front, pred, solve, k);
        assert gt[k].0 != name;
        if |p| > 0 {
          var frame := ReconcileFrame(gt[n].1, p, solve(name)).value;
          assert out == rest + [(name, frame)];
          GetAppend(rest, name, frame, gt[k].0);
        }
      }
    }
  }

  /** Number of predicted detections over the ground-truth frames, in order. */
  function VisitedCount(gt: Dataset, pred: Dataset): nat {
    if gt == [] then 0 else VisitedCount(gt[..|gt| - 1], pred) + |FrameOf(pred, gt[|gt| - 1].0)|
  }

  /** No detection is added or dropped: the output holds as many detections
      as the predicted frames that share a name with a ground-truth frame. */
  lemma {:induction false} ReconcileAllCount(gt: Dataset, pred: Dataset, solve: string -> seq<Pair>)
    requires SolverContract(gt, pred, solve)
    ensures ReconcileAll(gt, pred, solve).Ok? ==>
              DetectionCount(ReconcileAll(gt, pred, solve).value) == VisitedCount(gt, pred)
  {
    if gt != [] && ReconcileAll(gt, pred, solve).Ok? {
      var n := |gt| - 1;
      var front := gt[..n];
      ReconcileAllCount(front, pred, solve);
      var rest := ReconcileAll(front, pred, solve).value;
      var p := FrameOf(pred, gt[n].0);
      var out := ReconcileAll(gt, pred, solve).value;
      if |p| > 0 {
        assert out[..|out| - 1] == rest;
        assert |out[|out| - 1].1| == |p|;
      }
    }
  }

  /** Frames that occur only in the predictions play no part: two prediction
      datasets that agree on every ground-truth frame reconcile alike. */
  lemma {:induction false} ReconcileAllLocal(gt: Dataset, pred: Dataset, pred': Dataset, solve: string -> seq<Pair>)
    requires SolverContract(gt, pred, solve) && SolverContract(gt, pred', solve)
    requires forall k :: 0 <= k < |gt| ==> FrameOf(pred, gt[k].0) == FrameOf(pred', gt[k].0)
    ensures ReconcileAll(gt, pred, solve) == ReconcileAll(gt, pred', solve)
  {
    if gt != [] {
      var n := |gt| - 1;
      assert forall k :: 0 <= k < n ==> gt[..n][k] == gt[k];
      ReconcileAllLocal(gt[..n], pred, pred', solve);
    }
  }

  /** Lines 38-42: the cost matrix, one IoU per (gt, pred) cell; `defined` is
      false when some iou call would divide by zero, where Python raises. */
  method CostMatrix(gtObjs: seq<Detection>, predObjs: seq<Detection>) returns (cost: array2<Overlap>, defined: bool)
    ensures fresh(cost) && cost.Length0 == |gtObjs| && cost.Length1 == |predObjs|
    ensures defined <==> AllDefined(gtObjs, predObjs)
    ensures defined ==> forall i, j :: 0 <= i < |gtObjs| && 0 <= j < |predObjs| ==>
                          cost[i, j] == Iou(gtObjs[i].ltrb, predObjs[j].ltrb)
  {
    cost := new Overlap[|gtObjs|, |predObjs|];
    for i := 0 to |gtObjs|
      invariant forall i', j :: 0 <= i' < i && 0 <= j < |predObjs| ==>
                  cost[i', j] == Iou(gtObjs[i'].ltrb, predObjs[j].ltrb) && cost[i', j].union != 0
    {
      for j := 0 to |predObjs|
        invariant forall i', j' :: 0 <= i' < i && 0 <= j' < |predObjs| ==>
                    cost[i', j'] == Iou(gtObjs[i'].ltrb, predObjs[j'].ltrb) && cost[i', j'].union != 0
        invariant forall j' :: 0 <= j' < j ==>
                    cost[i, j'] == Iou(gtObjs[i].ltrb, predObjs[j'].ltrb) && cost[i, j'].union != 0
      {
        var o := Iou(gtObjs[i].ltrb, predObjs[j].ltrb);
        if o.union == 0 {
          defined := false;
          return;
        }
        cost[i, j] := o;
      }
    }
    defined := true;
  }

  /** Lines 46-49: keep each pair whose IoU reaches 0.3, in the solver's order. */
  method AcceptPairs(gtObjs: seq<Detection>, predObjs: seq<Detection>, pairs: seq<Pair>, cost: array2<Overlap>)
      returns (mapping: Dict<Id, Id>)
    requires InRange(pairs, |gtObjs|, |predObjs|)
    requires cost.Length0 == |gtObjs| && cost.Length1 == |predObjs|
    requires forall i, j :: 0 <= i < |gtObjs| && 0 <= j < |predObjs| ==>
               cost[i, j] == Iou(gtObjs[i].ltrb, predObjs[j].ltrb)
    ensures mapping == Accepted(gtObjs, predObjs, pairs)
  {
    mapping := [];
    for t := 0 to |pairs|
      invariant mapping == Accepted(gtObjs, predObjs, pairs[..t])
    {
      var (gtIdx, predIdx) := pairs[t];
      assert pairs[..t + 1][..t] == pairs[..t];
      if AtThreshold(cost[gtIdx, predIdx]) {
        mapping := Put(mapping, predObjs[predIdx].targetId, gtObjs[gtIdx].targetId);
      }
    }
    assert pairs[..|pairs|] == pairs;
  }

  /** Lines 34-35: append every predicted detection unchanged to
      new_pred[name], which appears only if there is at least one. */
  method CopyThrough(newPred: Dataset, name: string, predObjects: seq<Detection>) returns (out: Dataset)
    requires !HasKey(newPred, name)
    ensures out == if |predObjects| == 0 then newPred else newPred + [(name, predObjects)]
  {
    out := newPred;
    for k := 0 to |predObjects|
      invariant out == if k == 0 then newPred else newPred + [(name, predObjects[..k])]
    {
      if k == 0 { AppendNew(newPred, name, predObjects[k]); }
      else { AppendLast(newPred, name, predObjects[..k], predObjects[k]); }
      PrefixSnoc(predObjects, k);
      out := Append(out, name, predObjects[k]);
    }
    assert predObjects[..|predObjects|] == predObjects;
  }

  /** Lines 51-59: append every predicted detection to new_pred[name] with
      its id looked up in assigned_pred_ids and its box kept. */
  method EmitRelabelled(newPred: Dataset, name: string, predObjects: seq<Detection>, mapping: Dict<Id, Id>)
      returns (out: Dataset)
    requires !HasKey(newPred, name)
    ensures out == if |predObjects| == 0 then newPred else newPred + [(name, Relabel(predObjects, mapping))]
  {
    out := newPred;
    for k := 0 to |predObjects|
      invariant out == if k == 0 then newPred else newPred + [(name, Relabel(predObjects[..k], mapping))]
    {
      var obj := predObjects[k];
      var newId := obj.targetId;
      if HasKey(mapping, obj.targetId) {
        newId := Get(mapping, obj.targetId).value;
      }
      assert newId == GetOr(mapping, obj.targetId, obj.targetId);
      var done := Relabel(predObjects[..k], mapping);
      RelabelSnoc(predObjects, mapping, k);
      if k == 0 { AppendNew(newPred, name, Detection(newId, obj.ltrb)); }
      else { AppendLast(newPred, name, done, Detection(newId, obj.ltrb)); }
      out := Append(out, name, Detection(newId, obj.ltrb));
    }
    assert predObjects[..|predObjects|] == predObjects;
  }

  lemma RelabelSnoc(predObjs: seq<Detection>, mapping: Dict<Id, Id>, k: nat)
    requires k < |predObjs|
    ensures Relabel(predObjs[..k + 1], mapping) ==
            Relabel(predObjs[..k], mapping) +
            [Detection(GetOr(mapping, predObjs[k].targetId, predObjs[k].targetId), predObjs[k].ltrb)]
  {
    var a := Relabel(predObjs[..k + 1], mapping);
    var b := Relabel(predObjs[..k], mapping) +
             [Detection(GetOr(mapping, predObjs[k].targetId, predObjs[k].targetId), predObjs[k].ltrb)];
    assert |a| == |b|;
    forall i | 0 <= i < |a| ensures a[i] == b[i] {
      assert predObjs[..k + 1][i] == predObjs[i];
      if i < k { assert predObjs[..k][i] == predObjs[i]; }
    }
  }

  /** assign_ids(gt, pred), with the solver's answers supplied by `solve`. */
  method AssignIds(gt: Dataset, pred: Dataset, solve: string -> seq<Pair>) returns (r: Result<Dataset, EvalError>)
    requires DistinctKeys(gt)
    requires SolverContract(gt, pred, solve)
    ensures r == ReconcileAll(gt, pred, solve)
  {
    var newPred: Dataset := [];
    for f := 0 to |gt|
      invariant ReconcileAll(gt[..f], pred, solve) == Ok(newPred)
    {
      var name, gtObjects := gt[f].0, gt[f].1;
      var predObjects := FrameOf(pred, name);
      assert gt[..f + 1][..f] == gt[..f];
      Unvisited(gt, pred, solve, f);
      if |gtObjects| == 0 || |predObjects| == 0 {
        newPred := CopyThrough(newPred, name, predObjects);
      } else {
        var cost, defined := CostMatrix(gtObjects, predObjects);
        if !defined {
          FailureSticks(gt, pred, solve, f + 1);
          return Err(ZeroUnion);
        }
        var mapping := AcceptPairs(gtObjects, predObjects, solve(name), cost);
        newPred := EmitRelabelled(newPred, name, predObjects, mapping);
      }
    }
    assert gt[..|gt|] == gt;
    r := Ok(newPred);
  }

  /** Once a prefix of the frames fails, the whole run fails. */
  lemma FailureSticks(gt: Dataset, pred: Dataset, solve: string -> seq<Pair>, m: nat)
    requires m <= |gt|
    requires SolverContract(gt, pred, solve)
    requires ReconcileAll(gt[..m], pred, solve).Err?
    ensures ReconcileAll(gt, pred, solve) == Err(ZeroUnion)
  {
    ReconcileAllFails(gt[..m], pred, solve);
    ReconcileAllFails(gt, pred, solve);
    assert forall k :: 0 <= k < m ==> gt[..m][k] == gt[k];
  }

  /** The frame about to be visited has not been emitted yet. */
  lemma Unvisited(gt: Dataset, pred: Dataset, solve: string -> seq<Pair>, f: nat)
    requires DistinctKeys(gt) && f < |gt|
    requires SolverContract(gt, pred, solve)
    requires ReconcileAll(gt[..f], pred, solve).Ok?
    ensures !HasKey(ReconcileAll(gt[..f], pred, solve).value, gt[f].0)
  {
    var front := gt[..f];
    assert forall k :: 0 <= k < f ==> front[k] == gt[k];
    assert DistinctKeys(front);
    ReconcileAllKeys(front, pred, solve);
  }
}
