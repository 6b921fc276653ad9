/** Failure-compatible wrappers, and the errors the evaluation can raise. */
module Results {

  datatype Option<T> = None | Some(value: T) {
    function GetOr(default: T): T {
      if Some? then value else default
    }
  }

  datatype Result<T, E> = Ok(value: T) | Err(error: E) {
    predicate IsFailure() {
      Err?
    }

    function PropagateFailure<U>(): Result<U, E>
      requires Err?
    {
      Err(error)
    }

    function Extract(): T
      requires Ok?
    {
      value
    }
  }

  /** Each constructor names one division of eval.py that raises
      ZeroDivisionError when its denominator is zero. */
  datatype EvalError =
    | ZeroUnion           // iou: areaA + areaB - interArea == 0
    | MotaUndefined       // MOTA: tp + fn == 0
    | PrecisionUndefined  // id_precision: no predicted track entries
    | RecallUndefined     // id_recall: no ground-truth track entries
    | Idf1Undefined       // IDF1: id_precision + id_recall == 0
}
