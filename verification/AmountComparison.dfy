/** How far the evaluator's float64 comparison of an int64 amount agrees with the exact one. */
module AmountComparison {
  import opened Common
  import opened Float64
  import opened GoValues
  import opened Evaluator
  import opened EvaluatorLaws

  /** The evaluator's answer for `amount <op> threshold`. */
  function Compare(lib: Lib, op: string, amount: Int64, threshold: real): Option<bool> {
    ApplyOp(lib, op, Int(amount), Float(Finite(threshold)))
  }

  /** The answer exact arithmetic would give. */
  predicate Exact(op: string, amount: int, threshold: real) {
    Compares(op, amount as real, threshold)
  }

  /** `gt` and `lt` never match falsely; `gte` and `lte` never miss. */
  lemma OneSidedErrors(lib: Lib, op: string, amount: Int64, t: real)
    requires IsComparison(op) && IsFinite64(t)
    ensures Compare(lib, op, amount, t).Some?
    ensures (op == "gt" || op == "lt") ==> (Compare(lib, op, amount, t).value ==> Exact(op, amount, t))
    ensures (op == "gte" || op == "lte") ==> (Exact(op, amount, t) ==> Compare(lib, op, amount, t).value)
  {
    RoundKeepsSide(amount, t);
  }

  /** A comparison is wrong exactly when the threshold is the float a different amount rounds to. */
  lemma WrongExactlyAtTheRounding(lib: Lib, op: string, amount: Int64, t: real)
    requires IsComparison(op) && IsFinite64(t)
    ensures Compare(lib, op, amount, t) == Some(Exact(op, amount, t)) <==>
            !(Round(amount) as real == t && Round(amount) != amount &&
              (op == "gte" || op == "lt" <==> Round(amount) > amount))
  {
    RoundKeepsSide(amount, t);
  }

  lemma ExactUpTo2Pow53(lib: Lib, op: string, amount: Int64, t: real)
    requires IsComparison(op) && IsFinite64(t)
    requires -(PRECISION as int) <= amount <= PRECISION
    ensures Compare(lib, op, amount, t) == Some(Exact(op, amount, t))
  {
    RoundExact(amount);
    RoundKeepsSide(amount, t);
  }

  /** Above 2^53 errors do occur: 2^53 + 1 is taken to be at most 2^53. */
  lemma FirstWrongAmount(lib: Lib)
    ensures IsFinite64(PRECISION as real)
    ensures Compare(lib, "lte", PRECISION + 1, PRECISION as real) == Some(true)
    ensures !Exact("lte", PRECISION + 1, PRECISION as real)
  {
    assert Pow2(1) == 2 * Pow2(0);
    assert IsScaledReal(PRECISION as real, 0x10_0000_0000_0000, 1);
    assert Binade((PRECISION + 1) / 2) == 0;
    assert Round(PRECISION + 1) == PRECISION;
  }

  /**
   Amounts enter the pipeline as float64 and are truncated to int64, and such an amount is
   always compared exactly, whatever its size.
   */
  lemma PipelineAmountsCompareExactly(lib: Lib, op: string, received: real, t: real)
    requires IsComparison(op) && IsFinite64(received) && IsFinite64(t)
    requires MIN_INT64 <= Truncate(received) <= MAX_INT64
    ensures Compare(lib, op, Truncate(received), t) == Some(Exact(op, Truncate(received), t))
  {
    TruncatedFloatIsExact(received);
    WrongExactlyAtTheRounding(lib, op, Truncate(received), t);
  }
}
