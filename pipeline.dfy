/** The evaluation as main composes it: reconcile the predicted identities
    against the ground truth, then score the reconciled predictions; and a
    few small concrete datasets worked through both stages. */
module Pipeline {
  import opened Results
  import opened Dict
  import opened Geometry
  import opened Tracking
  import opened Reconcile
  import opened Scoring

  /** Lines 115-117 without the file reading and printing:
      compute_mota_idf1(gt, assign_ids(gt, pred)). */
  function Evaluate(gt: Dataset, pred: Dataset, solve: string -> seq<Pair>): Result<Scores, EvalError>
    requires SolverContract(gt, pred, solve)
  {
    var reconciled :- ReconcileAll(gt, pred, solve);
    Score(gt, reconciled)
  }

  /** assign_ids drops prediction-only frames, so the evaluation reads the
      predictions only at the ground-truth frame names: in particular a
      prediction-only frame never reaches the precision denominator. */
  lemma EvaluateLocal(gt: Dataset, pred: Dataset, pred': Dataset, solve: string -> seq<Pair>)
    requires SolverContract(gt, pred, solve) && SolverContract(gt, pred', solve)
    requires forall k :: 0 <= k < |gt| ==> FrameOf(pred, gt[k].0) == FrameOf(pred', gt[k].0)
    ensures Evaluate(gt, pred, solve) == Evaluate(gt, pred', solve)
  {
    ReconcileAllLocal(gt, pred, pred', solve);
  }

  /** The solver's answer for a frame with one gt and one pred detection. */
  function OnePair(name: string): seq<Pair> {
    [(0, 0)]
  }

  /** A frame holding a single detection. */
  function Single(name: string, d: Detection): Dataset {
    [(name, [d])]
  }

  /** Reconciling one gt detection against one pred detection in the same
      frame: the pred id becomes the gt id when their IoU reaches 0.3, the
      box is kept, and a zero union is an error. */
  lemma SingleReconcile(name: string, g: Detection, p: Detection)
    ensures SolverContract(Single(name, g), Single(name, p), OnePair)
    ensures ReconcileAll(Single(name, g), Single(name, p), OnePair) ==
              if Iou(g.ltrb, p.ltrb).union == 0 then Err(ZeroUnion)
              else if AtThreshold(Iou(g.ltrb, p.ltrb)) then Ok(Single(name, Detection(g.targetId, p.ltrb)))
              else Ok(Single(name, p))
  {
    var gt, pred := Single(name, g), Single(name, p);
    assert gt[..0] == [];
    assert FrameOf(pred, name) == [p];
    assert ReconcileAll(gt[..0], pred, OnePair) == Ok([]);
    var mapping := Accepted([g], [p], [(0, 0)]);
    assert [(0, 0)][..0] == [];
    if AtThreshold(Iou(g.ltrb, p.ltrb)) {
      assert mapping == [(p.targetId, g.targetId)];
      assert GetOr(mapping, p.targetId, p.targetId) == g.targetId;
    } else {
      assert mapping == [];
    }
    var id := if AtThreshold(Iou(g.ltrb, p.ltrb)) then g.targetId else p.targetId;
    ghost var out := Relabel([p], mapping);
    assert out[0] == Detection(id, p.ltrb);
    assert out == [Detection(id, p.ltrb)];
    if Iou(g.ltrb, p.ltrb).union != 0 {
      assert AllDefined([g], [p]);
      assert ReconcileFrame([g], [p], OnePair(name)) == Ok(out);
      var none: Dataset := [];
      assert none + [(name, out)] == Single(name, Detection(id, p.ltrb));
    }
  }

  /** The table of a single detection. */
  lemma SingleTracks(name: string, d: Detection)
    ensures TracksOf(Single(name, d)) == [(name, [(d.targetId, d.ltrb)])]
  {
    var ds := Single(name, d);
    assert ds[..0] == [];
    assert [d][..0] == [];
    assert FrameTable([d]) == [(d.targetId, d.ltrb)];
    var none: Tracks := [];
    assert none + [(name, [(d.targetId, d.ltrb)])] == [(name, [(d.targetId, d.ltrb)])];
  }

  /** Scoring one gt entry against one pred entry of the same frame: a true
      positive when their IoU reaches 0.3, otherwise a miss and a false
      positive. */
  lemma SingleTally(name: string, gid: Id, gb: Box, pid: Id, pb: Box)
    ensures Tallies([(name, [(gid, gb)])], [(name, [(pid, pb)])]) ==
              if Iou(gb, pb).union == 0 then Err(ZeroUnion)
              else if AtThreshold(Iou(gb, pb)) then Ok(Tally(1, 0, 0, [(gid, pid)]))
              else Ok(Tally(0, 1, 1, []))
  {
    var gtT, prT := [(name, [(gid, gb)])], [(name, [(pid, pb)])];
    var gts, preds := [(gid, gb)], [(pid, pb)];
    assert gtT[..0] == [];
    assert GetOr(prT, name, []) == preds;
    assert gts[..0] == [];
    assert preds[..0] == [];
    assert preds[1..] == [];
    assert ScanFrame(gts[..0], preds) == Ok(Scan(0, 0, [], {}));
    assert Tallies(gtT[..0], prT) == Ok(Tally(0, 0, 0, []));
    if Iou(gb, pb).union != 0 {
      if AtThreshold(Iou(gb, pb)) {
        assert FirstMatch(gb, preds) == Ok(Some(pid));
        var nolog: seq<(Id, Id)> := [];
        assert nolog + [(gid, pid)] == [(gid, pid)];
        assert {} + {pid} == {pid};
        assert ScanFrame(gts, preds) == Ok(Scan(1, 0, [(gid, pid)], {pid}));
        assert CountUnmatched(preds, {pid}) == 0;
      } else {
        assert FirstMatch(gb, preds) == Ok(None);
        assert ScanFrame(gts, preds) == Ok(Scan(0, 1, [], {}));
        assert CountUnmatched(preds, {}) == 1;
        var nolog: seq<(Id, Id)> := [];
        assert nolog + nolog == nolog;
        assert FrameTally(gts, preds) == Ok(Tally(0, 1, 1, []));
      }
    }
  }

  /** A well-formed box overlaps itself completely, which passes 0.3. */
  lemma SelfMatch(b: Box)
    requires WellFormed(b)
    ensures Iou(b, b).union > 0 && AtThreshold(Iou(b, b))
  {
    IouSelf(b);
  }

  /** Two well-formed boxes that do not intersect have a positive union and
      an IoU of zero, which fails 0.3. */
  lemma Disjoint(a: Box, b: Box)
    requires WellFormed(a) && WellFormed(b) && Intersection(a, b) == 0
    ensures Iou(a, b).union > 0 && !AtThreshold(Iou(a, b))
  {
    IouSelf(a);
    IouSelf(b);
  }

  /** The solver's answer pairing gt row i with pred column i, for two rows. */
  function Diagonal(name: string): seq<Pair> {
    [(0, 0), (1, 1)]
  }

  /** Two gt targets on disjoint well-formed boxes, and two pred detections
      on the same two boxes that share one id. The diagonal pairs are the
      assignment of greatest total IoU, and both pass 0.3; the second pair
      overwrites the first in assigned_pred_ids, so both pred detections
      come out with the second gt id. */
  lemma RepeatedPredId(name: string, g1: Id, g2: Id, p: Id, a: Box, b: Box)
    requires WellFormed(a) && WellFormed(b) && Intersection(a, b) == 0
    ensures SolverContract([(name, [Detection(g1, a), Detection(g2, b)])],
                           [(name, [Detection(p, a), Detection(p, b)])], Diagonal)
    ensures ReconcileAll([(name, [Detection(g1, a), Detection(g2, b)])],
                         [(name, [Detection(p, a), Detection(p, b)])], Diagonal) ==
              Ok([(name, [Detection(g2, a), Detection(g2, b)])])
  {
    var gts, preds := [Detection(g1, a), Detection(g2, b)], [Detection(p, a), Detection(p, b)];
    var gt, pred := [(name, gts)], [(name, preds)];
    var pairs := Diagonal(name);
    SelfMatch(a);
    SelfMatch(b);
    Disjoint(a, b);
    IouSymmetric(a, b);
    assert AllDefined(gts, preds);
    assert pairs[..1][..0] == [] && pairs[..1] == [(0, 0)];
    assert Accepted(gts, preds, pairs[..1]) == [(p, g1)];
    assert Accepted(gts, preds, pairs) == Put([(p, g1)], p, g2);
    assert Accepted(gts, preds, pairs) == [(p, g2)];
    var out := Relabel(preds, [(p, g2)]);
    assert out[0] == Detection(g2, a) && out[1] == Detection(g2, b);
    assert out == [Detection(g2, a), Detection(g2, b)];
    assert FrameOf(pred, name) == preds;
    assert gt[..0] == [];
    assert ReconcileAll(gt[..0], pred, Diagonal) == Ok([]);
    assert ReconcileFrame(gts, preds, pairs) == Ok(out);
    var none: Dataset := [];
    assert none + [(name, out)] == [(name, out)];
  }

  /** One gt target and one pred target on the same well-formed box in one
      frame: the pred id becomes the gt id, there is one true positive, and
      MOTA = IDF1 = 1. */
  lemma ExactMatch(name: string, gid: Id, pid: Id, b: Box)
    requires WellFormed(b)
    ensures SolverContract(Single(name, Detection(gid, b)), Single(name, Detection(pid, b)), OnePair)
    ensures ReconcileAll(Single(name, Detection(gid, b)), Single(name, Detection(pid, b)), OnePair) ==
              Ok(Single(name, Detection(gid, b)))
    ensures Tallies(TracksOf(Single(name, Detection(gid, b))), TracksOf(Single(name, Detection(gid, b)))) ==
              Ok(Tally(1, 0, 0, [(gid, gid)]))
    ensures Evaluate(Single(name, Detection(gid, b)), Single(name, Detection(pid, b)), OnePair) == Ok(Scores(1.0, 1.0))
  {
    var gt := Single(name, Detection(gid, b));
    SelfMatch(b);
    SingleReconcile(name, Detection(gid, b), Detection(pid, b));
    SingleTracks(name, Detection(gid, b));
    SingleTally(name, gid, b, gid, b);
    var t := Tally(1, 0, 0, [(gid, gid)]);
    assert TableSizes(TracksOf(gt)) == 1;
    Fractions();
    ScoreAt(gt, gt, t, 1, 1, 1.0, 1.0);
  }

  /** One gt target and one pred target on disjoint well-formed boxes in
      one frame: no id is rewritten, there is one miss and one false
      positive, the MOTA expression is 1 - 2/1 = -1, and the code then
      divides by P + R = 0 when forming IDF1. */
  lemma NoOverlap(name: string, gid: Id, pid: Id, a: Box, b: Box)
    requires WellFormed(a) && WellFormed(b) && Intersection(a, b) == 0
    ensures SolverContract(Single(name, Detection(gid, a)), Single(name, Detection(pid, b)), OnePair)
    ensures ReconcileAll(Single(name, Detection(gid, a)), Single(name, Detection(pid, b)), OnePair) ==
              Ok(Single(name, Detection(pid, b)))
    ensures Tallies(TracksOf(Single(name, Detection(gid, a))), TracksOf(Single(name, Detection(pid, b)))) ==
              Ok(Tally(0, 1, 1, []))
    ensures MotaOf(Tally(0, 1, 1, [])) == -1.0
    ensures Evaluate(Single(name, Detection(gid, a)), Single(name, Detection(pid, b)), OnePair) == Err(Idf1Undefined)
  {
    var gt, pred := Single(name, Detection(gid, a)), Single(name, Detection(pid, b));
    Disjoint(a, b);
    SingleReconcile(name, Detection(gid, a), Detection(pid, b));
    SingleTracks(name, Detection(gid, a));
    SingleTracks(name, Detection(pid, b));
    SingleTally(name, gid, a, pid, b);
    assert TableSizes(TracksOf(gt)) == 1;
    assert TableSizes(TracksOf(pred)) == 1;
    var t := Tally(0, 1, 1, []);
    MetricsDefined(t, 1, 1);
    assert Score(gt, pred) == Metrics(t, 1, 1);
  }

  /** The gt table of two detections with distinct ids. */
  lemma PairTracks(name: string, g1: Detection, g2: Detection)
    requires g1.targetId != g2.targetId
    ensures TracksOf([(name, [g1, g2])]) == [(name, [(g1.targetId, g1.ltrb), (g2.targetId, g2.ltrb)])]
  {
    var objs := [g1, g2];
    var gt := [(name, objs)];
    var tab := [(g1.targetId, g1.ltrb), (g2.targetId, g2.ltrb)];
    assert objs[..1] == [g1] && [g1][..0] == [];
    assert FrameTable([g1]) == [(g1.targetId, g1.ltrb)];
    assert !HasKey([(g1.targetId, g1.ltrb)], g2.targetId);
    assert FrameTable(objs) == tab;
    assert gt[..0] == [];
    var none: Tracks := [];
    assert none + [(name, tab)] == [(name, tab)];
  }

  /** Two gt entries that both reach the threshold with the single pred
      entry both match it. */
  lemma PairTally(name: string, gid1: Id, gid2: Id, gb: Box, pid: Id, pb: Box)
    requires AtThreshold(Iou(gb, pb))
    ensures Tallies([(name, [(gid1, gb), (gid2, gb)])], [(name, [(pid, pb)])]) ==
              Ok(Tally(2, 0, 0, [(gid1, pid), (gid2, pid)]))
  {
    var tab, ptab := [(gid1, gb), (gid2, gb)], [(pid, pb)];
    var prT := [(name, ptab)];
    assert GetOr(prT, name, []) == ptab;
    assert ptab[1..] == [];
    assert FirstMatch(gb, ptab) == Ok(Some(pid));
    assert tab[..1] == [(gid1, gb)] && tab[..1][..0] == [];
    var nolog: seq<(Id, Id)> := [];
    assert nolog + [(gid1, pid)] == [(gid1, pid)];
    assert {} + {pid} == {pid};
    assert ScanFrame(tab[..1], ptab) == Ok(Scan(1, 0, [(gid1, pid)], {pid}));
    var log := [(gid1, pid), (gid2, pid)];
    assert [(gid1, pid)] + [(gid2, pid)] == log;
    assert ScanFrame(tab, ptab) == Ok(Scan(2, 0, log, {pid}));
    assert ptab[..0] == [];
    assert CountUnmatched(ptab, {pid}) == 0;
    assert [(name, tab)][..0] == [];
    assert nolog + log == log;
  }

  /** Two gt targets on the same well-formed box and one pred target on
      it: the scan never skips an already matched pred id, so both gt
      entries match it, TP = 2 exceeds the single pred entry, and
      IDF1 = 4/3. */
  lemma GreedyReuse(name: string, gid1: Id, gid2: Id, pid: Id, b: Box)
    requires WellFormed(b) && gid1 != gid2
    ensures var gt, pred := [(name, [Detection(gid1, b), Detection(gid2, b)])], Single(name, Detection(pid, b));
            && Tallies(TracksOf(gt), TracksOf(pred)) == Ok(Tally(2, 0, 0, [(gid1, pid), (gid2, pid)]))
            && Score(gt, pred) == Ok(Scores(1.0, 4.0 / 3.0))
  {
    var gt, pred := [(name, [Detection(gid1, b), Detection(gid2, b)])], Single(name, Detection(pid, b));
    SelfMatch(b);
    PairTracks(name, Detection(gid1, b), Detection(gid2, b));
    SingleTracks(name, Detection(pid, b));
    PairTally(name, gid1, gid2, b, pid, b);
    var t := Tally(2, 0, 0, [(gid1, pid), (gid2, pid)]);
    assert TableSizes([(name, [(gid1, b), (gid2, b)])]) == 2;
    assert TableSizes([(name, [(pid, b)])]) == 1;
    Fractions();
    ScoreAt(gt, pred, t, 1, 2, 1.0, 4.0 / 3.0);
  }

  /** A frame with an empty list adds no table. */
  lemma EmptyFrameTracks(ds: Dataset, name: string)
    ensures TracksOf(ds + [(name, [])]) == TracksOf(ds)
  {
    assert (ds + [(name, [])])[..|ds|] == ds;
  }

  /** A frame with a single detection adds a one-entry table at the end. */
  lemma SingleFrameTracks(ds: Dataset, name: string, d: Detection)
    ensures TracksOf(ds + [(name, [d])]) == TracksOf(ds) + [(name, [(d.targetId, d.ltrb)])]
  {
    assert (ds + [(name, [d])])[..|ds|] == ds;
    assert [d][..0] == [];
    assert FrameTable([d]) == [(d.targetId, d.ltrb)];
  }

  /** The scores of a tally that is defined, given its MOTA and IDF1 in
      closed form. */
  lemma MetricsAt(t: Tally, np: nat, ng: nat, mota: real, idf1: real)
    requires t.tp + t.fn == ng && |t.log| == t.tp
    requires ng > 0 && np > 0 && t.tp > 0
    requires mota == 1.0 - (t.fn + t.fp) as real / ng as real
    requires idf1 == 2.0 * t.tp as real / (np + ng) as real
    ensures Metrics(t, np, ng) == Ok(Scores(mota, idf1))
  {
    MetricsDefined(t, np, ng);
    MetricsValues(t, np, ng);
    var r := Metrics(t, np, ng);
    assert r.Ok? && r.value.mota == mota && r.value.idf1 == idf1;
  }

  /** The MOTA and IDF1 values of the scenarios below. */
  lemma Fractions()
    ensures 1.0 - (0 + 0) as real / 1 as real == 1.0 && 2.0 * 1 as real / (1 + 1) as real == 1.0
    ensures 1.0 - (0 + 0) as real / 2 as real == 1.0 && 2.0 * 2 as real / (1 + 2) as real == 4.0 / 3.0
    ensures 2.0 * 1 as real / (2 + 1) as real == 2.0 / 3.0
  {
  }

  /** Score through a known tally and known totals, when the metrics are
      defined. */
  lemma ScoreAt(gt: Dataset, pred: Dataset, t: Tally, np: nat, ng: nat, mota: real, idf1: real)
    requires Tallies(TracksOf(gt), TracksOf(pred)) == Ok(t)
    requires TableSizes(TracksOf(pred)) == np && TableSizes(TracksOf(gt)) == ng
    requires t.tp + t.fn == ng && |t.log| == t.tp
    requires ng > 0 && np > 0 && t.tp > 0
    requires mota == 1.0 - (t.fn + t.fp) as real / ng as real
    requires idf1 == 2.0 * t.tp as real / (np + ng) as real
    ensures Score(gt, pred) == Ok(Scores(mota, idf1))
  {
    MetricsAt(t, np, ng, mota, idf1);
  }

  /** The tracks of a gt frame f1 with one target and an empty frame f2,
      and of a pred with one target in each. */
  lemma EmptyGtFrameTracks(f1: string, f2: string, g: Detection, p: Detection, q: Detection)
    ensures TracksOf([(f1, [g]), (f2, [])]) == [(f1, [(g.targetId, g.ltrb)])]
    ensures TracksOf([(f1, [p]), (f2, [q])]) == [(f1, [(p.targetId, p.ltrb)]), (f2, [(q.targetId, q.ltrb)])]
  {
    assert [(f1, [g]), (f2, [])] == Single(f1, g) + [(f2, [])];
    assert [(f1, [p]), (f2, [q])] == Single(f1, p) + [(f2, [q])];
    SingleTracks(f1, g);
    SingleTracks(f1, p);
    EmptyFrameTracks(Single(f1, g), f2);
    SingleFrameTracks(Single(f1, p), f2, q);
  }

  /** Only f1 is scanned: one true positive and no false positive. */
  lemma EmptyGtFrameTally(f1: string, f2: string, tab: Table, ptab: Table, qtab: Table, t: Tally)
    requires f1 != f2
    requires Tallies([(f1, tab)], [(f1, ptab)]) == Ok(t)
    ensures Tallies([(f1, tab)], [(f1, ptab), (f2, qtab)]) == Ok(t)
  {
    var gtT, prT := [(f1, tab)], [(f1, ptab), (f2, qtab)];
    assert GetOr(prT, f1, []) == ptab;
    assert GetOr([(f1, ptab)], f1, []) == ptab;
    TalliesLocal(gtT, prT, [(f1, ptab)]);
  }

  /** A gt frame f2 with an empty list gets no gt table, so the pred
      detection there is never scanned and is no false positive; it still
      counts in the pred total, so P = 1/2, R = 1 and IDF1 = 2/3. */
  lemma EmptyGtFrame(f1: string, f2: string, gid: Id, pid: Id, qid: Id, b: Box, c: Box)
    requires f1 != f2 && WellFormed(b)
    ensures var gt, pred := [(f1, [Detection(gid, b)]), (f2, [])], [(f1, [Detection(pid, b)]), (f2, [Detection(qid, c)])];
            && Tallies(TracksOf(gt), TracksOf(pred)) == Ok(Tally(1, 0, 0, [(gid, pid)]))
            && Score(gt, pred) == Ok(Scores(1.0, 2.0 / 3.0))
  {
    var gt, pred := [(f1, [Detection(gid, b)]), (f2, [])], [(f1, [Detection(pid, b)]), (f2, [Detection(qid, c)])];
    var tab, ptab, qtab := [(gid, b)], [(pid, b)], [(qid, c)];
    EmptyGtFrameTracks(f1, f2, Detection(gid, b), Detection(pid, b), Detection(qid, c));
    SelfMatch(b);
    SingleTally(f1, gid, b, pid, b);
    var t := Tally(1, 0, 0, [(gid, pid)]);
    EmptyGtFrameTally(f1, f2, tab, ptab, qtab, t);
    var prT := [(f1, ptab), (f2, qtab)];
    assert TableSizes([(f1, tab)]) == 1;
    assert prT[..1] == [(f1, ptab)];
    assert TableSizes(prT) == 2;
    Fractions();
    ScoreAt(gt, pred, t, 2, 1, 1.0, 2.0 / 3.0);
  }
}
