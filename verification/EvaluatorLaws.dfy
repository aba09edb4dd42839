/** What the evaluator's semantics guarantees of every condition tree. */
module EvaluatorLaws {
  import opened Common
  import Decimal
  import opened Float64
  import opened GoValues
  import opened Evaluator

  /** Match status, with an error as `None`; the reason is dropped. */
  function Status(v: Verdict): Option<bool> {
    if v.Error? then None else Some(v.matched)
  }

  function Flip(s: Option<bool>): Option<bool> {
    if s.None? then None else Some(!s.value)
  }

  function AndOf(cs: seq<Node>): Node { Obj(map["and" := Arr(cs)]) }
  function OrOf(cs: seq<Node>): Node { Obj(map["or" := Arr(cs)]) }
  function NotOf(c: Node): Node { Obj(map["not" := c]) }

  lemma ListOfNodes(cs: seq<Node>)
    ensures ToNodes(Arr(cs)) == Some(cs)
  {}

  // ---------------------------------------------------------------- short-circuiting

  /** Condition k is the first whose status is not `want`. */
  ghost predicate Decides(lib: Lib, cs: seq<Node>, k: nat, want: bool, ctx: PaymentContext) {
    && k < |cs|
    && Status(Eval(lib, cs[k], ctx)) != Some(want)
    && forall j :: 0 <= j < k ==> Status(Eval(lib, cs[j], ctx)) == Some(want)
  }

  lemma {:induction false} FirstDecides(lib: Lib, cs: seq<Node>, k: nat, ctx: PaymentContext)
    ensures Decides(lib, cs, k, true, ctx) ==> Status(AllOf(EvalEach(lib, cs, ctx))) == Status(Eval(lib, cs[k], ctx))
    ensures Decides(lib, cs, k, false, ctx) ==> AnyOf(EvalEach(lib, cs, ctx)) == Eval(lib, cs[k], ctx)
  {
    if k > 0 && cs != [] {
      FirstDecides(lib, cs[1..], k - 1, ctx);
    }
  }

  lemma {:induction false} NoneDecides(lib: Lib, cs: seq<Node>, want: bool, ctx: PaymentContext)
    ensures (forall j :: 0 <= j < |cs| ==> Status(Eval(lib, cs[j], ctx)) == Some(want)) ||
            exists k: nat :: Decides(lib, cs, k, want, ctx)
    ensures (forall j :: 0 <= j < |cs| ==> Status(Eval(lib, cs[j], ctx)) == Some(want)) ==>
              && (want ==> Status(AllOf(EvalEach(lib, cs, ctx))) == Some(true))
              && (!want ==> Status(AnyOf(EvalEach(lib, cs, ctx))) == Some(false))
  {
    if cs != [] {
      NoneDecides(lib, cs[1..], want, ctx);
      if Status(Eval(lib, cs[0], ctx)) != Some(want) {
        assert Decides(lib, cs, 0, want, ctx);
      } else if k: nat :| Decides(lib, cs[1..], k, want, ctx) {
        assert Decides(lib, cs, k + 1, want, ctx);
      }
    }
  }

  /**
   A conjunction is exactly: an error if its list is malformed or its first non-match is an error,
   a match if every condition matches (so the empty list matches), otherwise no match.
   */
  lemma AndMeaning(lib: Lib, node: Node, ctx: PaymentContext)
    requires "and" in node.fields
    ensures var v, cs := Eval(lib, node, ctx), ToNodes(node.fields["and"]);
      && (cs.None? ==> v.Error?)
      && (cs.Some? ==>
            && (v.Error? <==>
                exists k: nat :: Decides(lib, cs.value, k, true, ctx) && Eval(lib, cs.value[k], ctx).Error?)
            && (v.Matches() <==> forall j :: 0 <= j < |cs.value| ==> Eval(lib, cs.value[j], ctx).Matches()))
  {
    var cs := ToNodes(node.fields["and"]);
    if cs.Some? {
      NoneDecides(lib, cs.value, true, ctx);
      forall k: nat | Decides(lib, cs.value, k, true, ctx)
        ensures Status(Eval(lib, node, ctx)) == Status(Eval(lib, cs.value[k], ctx))
      {
        FirstDecides(lib, cs.value, k, ctx);
      }
    }
  }

  /** A disjunction, dually: the empty list does not match. */
  lemma OrMeaning(lib: Lib, node: Node, ctx: PaymentContext)
    requires "and" !in node.fields && "or" in node.fields
    ensures var v, cs := Eval(lib, node, ctx), ToNodes(node.fields["or"]);
      && (cs.None? ==> v.Error?)
      && (cs.Some? ==>
            && (v.Error? <==>
                exists k: nat :: Decides(lib, cs.value, k, false, ctx) && Eval(lib, cs.value[k], ctx).Error?)
            && (v.Done? && !v.matched <==>
                forall j :: 0 <= j < |cs.value| ==> Status(Eval(lib, cs.value[j], ctx)) == Some(false)))
  {
    var cs := ToNodes(node.fields["or"]);
    if cs.Some? {
      NoneDecides(lib, cs.value, false, ctx);
      forall k: nat | Decides(lib, cs.value, k, false, ctx)
        ensures Status(Eval(lib, node, ctx)) == Status(Eval(lib, cs.value[k], ctx))
      {
        FirstDecides(lib, cs.value, k, ctx);
      }
    }
  }

  /** Nothing after the deciding condition is seen, errors included, as long as it is an object. */
  lemma TailUnseen(lib: Lib, pre: seq<Node>, c: Node, post: seq<Node>, post': seq<Node>, want: bool,
                   ctx: PaymentContext)
    requires Decides(lib, pre + [c], |pre|, want, ctx)
    ensures want ==> Status(Eval(lib, AndOf(pre + [c] + post), ctx)) == Status(Eval(lib, AndOf(pre + [c] + post'), ctx))
    ensures !want ==> Status(Eval(lib, OrOf(pre + [c] + post), ctx)) == Status(Eval(lib, OrOf(pre + [c] + post'), ctx))
  {
    var a, b := pre + [c] + post, pre + [c] + post';
    forall j | 0 <= j <= |pre| ensures a[j] == (pre + [c])[j] == b[j] {}
    assert Decides(lib, a, |pre|, want, ctx) && Decides(lib, b, |pre|, want, ctx);
    FirstDecides(lib, a, |pre|, ctx);
    FirstDecides(lib, b, |pre|, ctx);
    ListOfNodes(a);
    ListOfNodes(b);
  }

  /** A list element that is not an object makes the whole combinator an error, wherever it stands. */
  lemma NonObjectElement(lib: Lib, items: seq<Any>, i: nat, ctx: PaymentContext)
    requires i < |items| && !items[i].Obj?
    ensures Eval(lib, Obj(map["and" := Arr(items)]), ctx) == Error
    ensures Eval(lib, Obj(map["or" := Arr(items)]), ctx) == Error
  {}

  // ---------------------------------------------------------------- operators on strings

  function StrItems(xs: seq<string>): (items: seq<Any>)
    ensures |items| == |xs| && forall i :: 0 <= i < |xs| ==> items[i] == Str(xs[i])
  {
    if xs == [] then [] else [Str(xs[0])] + StrItems(xs[1..])
  }

  lemma MemberOfStrings(lib: Lib, s: string, xs: seq<string>)
    ensures InSlice(lib, Str(s), Arr(StrItems(xs))) == Some(s in xs)
  {
    var items := StrItems(xs);
    if s in xs {
      var i :| 0 <= i < |xs| && xs[i] == s;
      assert AnyStr(lib, items[i]) == s;
    }
    forall i | 0 <= i < |items| ensures AnyStr(lib, items[i]) == xs[i] {}
  }

  /** On strings the operators mean equality, membership and, up to case, containment. */
  lemma {:induction false} StringOperators(lib: Lib, s: string, t: string, xs: seq<string>)
    ensures ApplyOp(lib, "eq", Str(s), Str(t)) == Some(s == t)
    ensures ApplyOp(lib, "neq", Str(s), Str(t)) == Some(s != t)
    ensures ApplyOp(lib, "in", Str(s), Arr(StrItems(xs))) == Some(s in xs)
    ensures ApplyOp(lib, "not_in", Str(s), Arr(StrItems(xs))) == Some(s !in xs)
    ensures ApplyOp(lib, "contains", Str(s), Str(t)) == Some(Contains(lib.lower(s), lib.lower(t)))
  {
    MemberOfStrings(lib, s, xs);
  }

  /** Every value is compared by its string form: nil as "", a boolean by name, a number and the rest as printed. */
  lemma EqualityForms(lib: Lib, v: Any, s: string)
    ensures ApplyOp(lib, "eq", v, Str(s)) == Some(
              match v
              case Nil => s == ""
              case Bool(b) => s == if b then "true" else "false"
              case Float(f) => s == lib.formatFloat(f)
              case Int(i) => s == Decimal.Itoa(i)
              case Str(t) => s == t
              case Arr(_) => s == lib.formatOther(v)
              case Obj(_) => s == lib.formatOther(v))
    ensures ApplyOp(lib, "eq", Str(s), v) == ApplyOp(lib, "eq", v, Str(s))
  {}

  function LeafOf(field: string, op: string, value: Any): Node {
    Obj(map["field" := Str(field), "op" := Str(op), "value" := value])
  }

  /** What a comparison of two reals by the operator comes to. */
  predicate Compares(op: string, x: real, t: real) {
    if op == "gt" then x > t
    else if op == "gte" then x >= t
    else if op == "lt" then x < t
    else x <= t
  }

  /** Where a leaf's operator comes to `answer`, the leaf is that; where it errs, so does the leaf. */
  lemma LeafStatus(lib: Lib, field: string, op: string, value: Any, ctx: PaymentContext)
    ensures Status(Eval(lib, LeafOf(field, op, value), ctx)) == ApplyOp(lib, op, ResolveField(field, ctx), value)
  {
    var f := LeafOf(field, op, value).fields;
    assert "and" !in f && "or" !in f && "not" !in f;
  }

  /** How a number that may be infinite or NaN compares with a real threshold. */
  predicate NumberCompares(op: string, n: F64, t: real) {
    match n
    case Finite(x) => Compares(op, x, t)
    case NegZero => Compares(op, 0.0, t)
    case PosInf => op == "gt" || op == "gte"
    case NegInf => op == "lt" || op == "lte"
    case NaN => false
  }

  /** The same with the number as the threshold. */
  predicate ComparesWithNumber(op: string, x: real, n: F64) {
    match n
    case Finite(t) => Compares(op, x, t)
    case NegZero => Compares(op, x, 0.0)
    case PosInf => op == "lt" || op == "lte"
    case NegInf => op == "gt" || op == "gte"
    case NaN => false
  }

  lemma StringAgainstNumber(lib: Lib, op: string, s: string, t: real)
    requires IsComparison(op)
    ensures var n := lib.parseFloat(s);
            ApplyOp(lib, op, Str(s), Float(Finite(t))) == if n.None? then None else Some(NumberCompares(op, n.value, t))
  {}

  lemma AmountAgainstString(lib: Lib, op: string, amount: Int64, s: string)
    requires IsComparison(op)
    ensures var n := lib.parseFloat(s);
            ApplyOp(lib, op, Int(amount), Str(s)) ==
            if n.None? then None else Some(ComparesWithNumber(op, Round(amount) as real, n.value))
  {}

  /** A metadata string compares as the number it parses to, and the leaf errs exactly if it parses to none. */
  lemma MetadataComparesAsNumber(lib: Lib, key: string, op: string, t: real, ctx: PaymentContext)
    requires op in {"gt", "gte", "lt", "lte"}
    ensures var s := if ctx.metadata.Some? && key in ctx.metadata.value then ctx.metadata.value[key] else "";
            var n := lib.parseFloat(s);
            Status(Eval(lib, LeafOf("metadata." + key, op, Float(Finite(t))), ctx)) ==
            if n.None? then None else Some(NumberCompares(op, n.value, t))
  {
    var s := if ctx.metadata.Some? && key in ctx.metadata.value then ctx.metadata.value[key] else "";
    AbsentFields(ctx, key, "");
    StringAgainstNumber(lib, op, s, t);
    LeafStatus(lib, "metadata." + key, op, Float(Finite(t)), ctx);
  }

  /** A string as the value compares with the amount as the number it parses to; a value that is no number errs. */
  lemma AmountComparesWithValue(lib: Lib, op: string, value: Any, ctx: PaymentContext)
    requires op in {"gt", "gte", "lt", "lte"}
    ensures var status := Status(Eval(lib, LeafOf("amount", op, value), ctx));
      match value
      case Str(s) =>
        status == if lib.parseFloat(s).None? then None
                  else Some(ComparesWithNumber(op, Round(ctx.amount) as real, lib.parseFloat(s).value))
      case Float(n) => status == Some(ComparesWithNumber(op, Round(ctx.amount) as real, n))
      case Int(i) => status == Some(Compares(op, Round(ctx.amount) as real, Round(i) as real))
      case _ => status == None
  {
    LeafStatus(lib, "amount", op, value, ctx);
    if value.Str? {
      AmountAgainstString(lib, op, ctx.amount, value.s);
    }
  }

  /** Membership asks for a list, and an operator outside the known nine errs on every operand. */
  lemma OperatorErrors(lib: Lib, op: string, actual: Any, expected: Any)
    ensures op in {"in", "not_in"} && !expected.Arr? ==> ApplyOp(lib, op, actual, expected) == None
    ensures op !in {"eq", "neq", "gt", "gte", "lt", "lte", "in", "not_in", "contains"} ==>
              ApplyOp(lib, op, actual, expected) == None
  {}

  /** An amount equals exactly one decimal numeral, at any magnitude: `eq` does not go through float64. */
  lemma AmountEqualsItsNumeral(lib: Lib, amount: Int64, n: Int64)
    ensures ApplyOp(lib, "eq", Int(amount), Str(Decimal.Itoa(n))) == Some(amount == n)
  {
    Decimal.AtoiItoa(amount);
    Decimal.AtoiItoa(n);
  }

  // ---------------------------------------------------------------- rewriting

  lemma {:induction false} PointwiseStatus(vs: seq<Verdict>, ws: seq<Verdict>, neg: bool)
    requires |vs| == |ws|
    requires forall i :: 0 <= i < |vs| ==> Status(ws[i]) == if neg then Flip(Status(vs[i])) else Status(vs[i])
    ensures neg ==> Status(AnyOf(ws)) == Flip(Status(AllOf(vs)))
    ensures neg ==> Status(AllOf(ws)) == Flip(Status(AnyOf(vs)))
    ensures !neg ==> Status(AllOf(ws)) == Status(AllOf(vs)) && Status(AnyOf(ws)) == Status(AnyOf(vs))
  {
    if vs != [] {
      PointwiseStatus(vs[1..], ws[1..], neg);
    }
  }

  function Opposite(op: string): Option<string> {
    if op == "eq" then Some("neq") else if op == "neq" then Some("eq")
    else if op == "in" then Some("not_in") else if op == "not_in" then Some("in")
    else if op == "gt" then Some("lte") else if op == "lte" then Some("gt")
    else if op == "lt" then Some("gte") else if op == "gte" then Some("lt")
    else None
  }

  predicate IsLeaf(node: Node) {
    "and" !in node.fields && "or" !in node.fields && "not" !in node.fields
  }

  predicate Swappable(node: Node) {
    && IsLeaf(node)
    && "op" in node.fields && node.fields["op"].Str?
    && Opposite(node.fields["op"].s).Some?
  }

  function Swapped(node: Node): Node
    requires Swappable(node)
  {
    Obj(node.fields["op" := Str(Opposite(node.fields["op"].s).value)])
  }

  /** A comparison leaf both of whose operands are numbers and one of them NaN. */
  predicate NaNLeaf(lib: Lib, node: Node, ctx: PaymentContext) {
    && IsLeaf(node)
    && "field" in node.fields && node.fields["field"].Str?
    && "op" in node.fields && node.fields["op"].Str? && IsComparison(node.fields["op"].s)
    && NaNOperand(lib, ResolveField(node.fields["field"].s, ctx),
                  if "value" in node.fields then node.fields["value"] else Nil)
  }

  /** Both operands are numbers and one of them is NaN. */
  predicate NaNOperand(lib: Lib, actual: Any, expected: Any) {
    var a, e := ToFloat(lib, actual), ToFloat(lib, expected);
    a.Some? && e.Some? && (a.value.NaN? || e.value.NaN?)
  }

  lemma ComparisonOpposites(x: F64, y: F64)
    ensures x.Less(y) == !y.AtMost(x) <==> !(x.NaN? || y.NaN?)
  {}

  predicate IsComparison(op: string) { op == "gt" || op == "gte" || op == "lt" || op == "lte" }

  lemma OppositeNegates(lib: Lib, op: string, actual: Any, expected: Any)
    requires Opposite(op).Some?
    ensures ApplyOp(lib, Opposite(op).value, actual, expected) == Flip(ApplyOp(lib, op, actual, expected)) <==>
            !(IsComparison(op) && NaNOperand(lib, actual, expected))
  {
    if IsComparison(op) {
      ComparisonNegates(lib, op, actual, expected);
    }
  }

  lemma ComparisonNegates(lib: Lib, op: string, actual: Any, expected: Any)
    requires IsComparison(op)
    ensures ApplyOp(lib, Opposite(op).value, actual, expected) == Flip(ApplyOp(lib, op, actual, expected)) <==>
            !NaNOperand(lib, actual, expected)
  {
    var a, e := ToFloat(lib, actual), ToFloat(lib, expected);
    if a.Some? && e.Some? {
      ComparisonOpposites(a.value, e.value);
      ComparisonOpposites(e.value, a.value);
    }
  }

  /** Swapping a leaf's operator negates it exactly when no operand is NaN. */
  lemma SwapNegates(lib: Lib, node: Node, ctx: PaymentContext)
    requires Swappable(node)
    ensures Status(Eval(lib, Swapped(node), ctx)) == Flip(Status(Eval(lib, node, ctx))) <==> !NaNLeaf(lib, node, ctx)
  {
    var f, g := node.fields, Swapped(node).fields;
    assert "and" !in g && "or" !in g && "not" !in g;
    assert "field" in g <==> "field" in f;
    assert "value" in g <==> "value" in f;
    if "field" in f && f["field"].Str? {
      OppositeNegates(lib, f["op"].s, ResolveField(f["field"].s, ctx), if "value" in f then f["value"] else Nil);
    }
  }

  /** `p` holds of every leaf; a malformed combinator is admitted only if not `strict`. */
  predicate AllLeaves(node: Node, p: Node -> bool, strict: bool)
    decreases node
  {
    var f := node.fields;
    if "and" in f then
      var cs := ToNodes(f["and"]);
      if cs.None? then !strict else forall i :: 0 <= i < |cs.value| ==> AllLeaves(cs.value[i], p, strict)
    else if "or" in f then
      var cs := ToNodes(f["or"]);
      if cs.None? then !strict else forall i :: 0 <= i < |cs.value| ==> AllLeaves(cs.value[i], p, strict)
    else if "not" in f then
      if f["not"].Obj? then AllLeaves(f["not"], p, strict) else !strict
    else p(node)
  }

  /** Negation (if `neg`) pushed towards the leaves; malformed combinators stay where they are. */
  function Push(neg: bool, node: Node): Node
    decreases node, 1
  {
    var f := node.fields;
    var kept: Node := if neg then NotOf(node) else node;
    if "and" in f then
      var cs := ToNodes(f["and"]);
      if cs.None? then kept else if neg then OrOf(PushEach(neg, cs.value)) else AndOf(PushEach(neg, cs.value))
    else if "or" in f then
      var cs := ToNodes(f["or"]);
      if cs.None? then kept else if neg then AndOf(PushEach(neg, cs.value)) else OrOf(PushEach(neg, cs.value))
    else if "not" in f then
      if f["not"].Obj? then Push(!neg, f["not"]) else kept
    else if neg && Swappable(node) then Swapped(node)
    else kept
  }

  function PushEach(neg: bool, cs: seq<Node>): (r: seq<Node>)
    ensures |r| == |cs| && forall i :: 0 <= i < |cs| ==> r[i] == Push(neg, cs[i])
    decreases cs, 0
  {
    if cs == [] then [] else [Push(neg, cs[0])] + PushEach(neg, cs[1..])
  }

  /** No leaf whose operator `Push` swaps, one under an odd number of negations, compares with NaN. */
  predicate SwapsSafe(lib: Lib, neg: bool, node: Node, ctx: PaymentContext)
    decreases node
  {
    var f := node.fields;
    if "and" in f then
      var cs := ToNodes(f["and"]);
      cs.Some? ==> forall i :: 0 <= i < |cs.value| ==> SwapsSafe(lib, neg, cs.value[i], ctx)
    else if "or" in f then
      var cs := ToNodes(f["or"]);
      cs.Some? ==> forall i :: 0 <= i < |cs.value| ==> SwapsSafe(lib, neg, cs.value[i], ctx)
    else if "not" in f then
      f["not"].Obj? ==> SwapsSafe(lib, !neg, f["not"], ctx)
    else neg ==> !NaNLeaf(lib, node, ctx)
  }

  /** Pushing negation inward preserves match and error status on every tree, NaN at a swapped comparison apart. */
  lemma {:induction false} PushPreserves(lib: Lib, neg: bool, node: Node, ctx: PaymentContext)
    requires SwapsSafe(lib, neg, node, ctx)
    ensures Status(Eval(lib, Push(neg, node), ctx)) ==
            if neg then Flip(Status(Eval(lib, node, ctx))) else Status(Eval(lib, node, ctx))
    decreases node
  {
    var f := node.fields;
    if "and" in f || "or" in f {
      var cs := ToNodes(if "and" in f then f["and"] else f["or"]);
      if cs.Some? {
        forall i | 0 <= i < |cs.value|
          ensures Status(Eval(lib, Push(neg, cs.value[i]), ctx)) ==
                  if neg then Flip(Status(Eval(lib, cs.value[i], ctx))) else Status(Eval(lib, cs.value[i], ctx))
        {
          PushPreserves(lib, neg, cs.value[i], ctx);
        }
        var ps := PushEach(neg, cs.value);
        ListOfNodes(ps);
        PointwiseStatus(EvalEach(lib, cs.value, ctx), EvalEach(lib, ps, ctx), neg);
      }
    } else if "not" in f {
      if f["not"].Obj? {
        PushPreserves(lib, !neg, f["not"], ctx);
      }
    } else if neg && Swappable(node) {
      SwapNegates(lib, node, ctx);
    }
  }

  /** Nothing below `node` for a negation to be pushed to. */
  predicate Stuck(node: Node) {
    var f := node.fields;
    if "and" in f then ToNodes(f["and"]).None?
    else if "or" in f then ToNodes(f["or"]).None?
    else if "not" in f then !f["not"].Obj?
    else !Swappable(node)
  }

  /** Negations stand only over stuck nodes. */
  predicate IsNormal(node: Node)
    decreases node
  {
    var f := node.fields;
    if "and" in f then
      var cs := ToNodes(f["and"]);
      cs.Some? ==> forall i :: 0 <= i < |cs.value| ==> IsNormal(cs.value[i])
    else if "or" in f then
      var cs := ToNodes(f["or"]);
      cs.Some? ==> forall i :: 0 <= i < |cs.value| ==> IsNormal(cs.value[i])
    else "not" in f && f["not"].Obj? ==> Stuck(f["not"])
  }

  /** A list of conditions is normal if each of them is. */
  lemma NormalLists(cs: seq<Node>)
    ensures IsNormal(AndOf(cs)) <==> forall i :: 0 <= i < |cs| ==> IsNormal(cs[i])
    ensures IsNormal(OrOf(cs)) <==> forall i :: 0 <= i < |cs| ==> IsNormal(cs[i])
  {
    ListOfNodes(cs);
  }

  /** Under a negation stands no combinator of conditions, no negation and no leaf whose operator has an opposite. */
  lemma NormalNegations(cs: seq<Node>, c: Node)
    ensures !IsNormal(NotOf(AndOf(cs))) && !IsNormal(NotOf(OrOf(cs))) && !IsNormal(NotOf(NotOf(c)))
    ensures IsLeaf(c) && IsNormal(NotOf(c)) && "op" in c.fields && c.fields["op"].Str? ==>
              c.fields["op"].s !in {"eq", "neq", "gt", "gte", "lt", "lte", "in", "not_in"}
  {
    ListOfNodes(cs);
  }

  /** `Push` really reaches the leaves: its result is in negation normal form. */
  lemma {:induction false} PushIsNormal(neg: bool, node: Node)
    ensures IsNormal(Push(neg, node))
    decreases node
  {
    var f := node.fields;
    if "and" in f || "or" in f {
      var cs := ToNodes(if "and" in f then f["and"] else f["or"]);
      if cs.Some? {
        forall i | 0 <= i < |cs.value| ensures IsNormal(Push(neg, cs.value[i])) {
          PushIsNormal(neg, cs.value[i]);
        }
        ListOfNodes(PushEach(neg, cs.value));
      }
    } else if "not" in f {
      if f["not"].Obj? {
        PushIsNormal(!neg, f["not"]);
      }
    }
  }

  lemma {:induction false} ConcatStatus(vs: seq<Verdict>, ws: seq<Verdict>)
    ensures Status(AllOf(vs + ws)) == if Status(AllOf(vs)) == Some(true) then Status(AllOf(ws)) else Status(AllOf(vs))
    ensures Status(AnyOf(vs + ws)) == if Status(AnyOf(vs)) == Some(false) then Status(AnyOf(ws)) else Status(AnyOf(vs))
  {
    if vs == [] {
      assert vs + ws == ws;
    } else {
      assert (vs + ws)[1..] == vs[1..] + ws;
      ConcatStatus(vs[1..], ws);
    }
  }

  lemma {:induction false} EvalEachConcat(lib: Lib, a: seq<Node>, b: seq<Node>, ctx: PaymentContext)
    ensures EvalEach(lib, a + b, ctx) == EvalEach(lib, a, ctx) + EvalEach(lib, b, ctx)
  {}

  /** A combinator nested in a combinator of its own kind can be spliced in place. */
  lemma Flatten(lib: Lib, pre: seq<Node>, mid: seq<Node>, post: seq<Node>, ctx: PaymentContext)
    ensures Status(Eval(lib, AndOf(pre + [AndOf(mid)] + post), ctx)) == Status(Eval(lib, AndOf(pre + mid + post), ctx))
    ensures Status(Eval(lib, OrOf(pre + [OrOf(mid)] + post), ctx)) == Status(Eval(lib, OrOf(pre + mid + post), ctx))
  {
    FlattenOne(lib, pre, AndOf(mid), mid, post, ctx);
    FlattenOne(lib, pre, OrOf(mid), mid, post, ctx);
    ListOfNodes(mid);
    ListOfNodes(pre + [AndOf(mid)] + post);
    ListOfNodes(pre + [OrOf(mid)] + post);
    ListOfNodes(pre + mid + post);
  }

  lemma FlattenOne(lib: Lib, pre: seq<Node>, c: Node, mid: seq<Node>, post: seq<Node>, ctx: PaymentContext)
    ensures Status(Eval(lib, c, ctx)) == Status(AllOf(EvalEach(lib, mid, ctx))) ==>
              Status(AllOf(EvalEach(lib, pre + [c] + post, ctx))) == Status(AllOf(EvalEach(lib, pre + mid + post, ctx)))
    ensures Status(Eval(lib, c, ctx)) == Status(AnyOf(EvalEach(lib, mid, ctx))) ==>
              Status(AnyOf(EvalEach(lib, pre + [c] + post, ctx))) == Status(AnyOf(EvalEach(lib, pre + mid + post, ctx)))
  {
    var p, m, q := EvalEach(lib, pre, ctx), EvalEach(lib, mid, ctx), EvalEach(lib, post, ctx);
    var one := EvalEach(lib, [c], ctx);
    EvalEachConcat(lib, pre + [c], post, ctx);
    EvalEachConcat(lib, pre, [c], ctx);
    EvalEachConcat(lib, pre + mid, post, ctx);
    EvalEachConcat(lib, pre, mid, ctx);
    ConcatStatus(p + one, q);
    ConcatStatus(p, one);
    ConcatStatus(p + m, q);
    ConcatStatus(p, m);
    SingleStatus(one[0]);
    assert one == [one[0]];
  }

  lemma SingleStatus(v: Verdict)
    ensures Status(AllOf([v])) == Status(v) && Status(AnyOf([v])) == Status(v)
  {
    assert [v][1..] == [];
  }

  function Nested(key: string, items: seq<Any>): Node { Obj(map[key := Arr(items)]) }

  /** A malformed list spliced in place makes the whole combinator an error. */
  lemma MalformedSplice(lib: Lib, pre: seq<Node>, items: seq<Any>, post: seq<Node>, ctx: PaymentContext)
    requires ToNodes(Arr(items)).None?
    ensures Eval(lib, Nested("and", pre + items + post), ctx) == Error
    ensures Eval(lib, Nested("or", pre + items + post), ctx) == Error
  {
    var i :| 0 <= i < |items| && !items[i].Obj?;
    var all: seq<Any> := pre + items + post;
    assert all[|pre| + i] == items[i];
    NonObjectElement(lib, all, |pre| + i, ctx);
  }

  /** Left nested, it is an error only if it is reached. */
  lemma MalformedNested(lib: Lib, pre: seq<Node>, c: Node, post: seq<Node>, ctx: PaymentContext)
    requires Eval(lib, c, ctx) == Error
    ensures var before := Status(AllOf(EvalEach(lib, pre, ctx)));
            Status(Eval(lib, AndOf(pre + [c] + post), ctx)) == if before == Some(true) then None else before
    ensures var before := Status(AnyOf(EvalEach(lib, pre, ctx)));
            Status(Eval(lib, OrOf(pre + [c] + post), ctx)) == if before == Some(false) then None else before
  {
    var p, q, one := EvalEach(lib, pre, ctx), EvalEach(lib, post, ctx), EvalEach(lib, [c], ctx);
    ListOfNodes(pre + [c] + post);
    EvalEachConcat(lib, pre + [c], post, ctx);
    EvalEachConcat(lib, pre, [c], ctx);
    ConcatStatus(p + one, q);
    ConcatStatus(p, one);
    assert one == [Error];
    SingleStatus(Error);
  }

  /**
   Splicing a nested list keeps the status, whatever the list holds, exactly if it holds only objects or
   the conditions before it do not decide without error: an unreached malformed list becomes an error.
   */
  lemma FlattenExactly(lib: Lib, pre: seq<Node>, items: seq<Any>, post: seq<Node>, ctx: PaymentContext)
    ensures Status(Eval(lib, AndOf(pre + [Nested("and", items)] + post), ctx)) ==
            Status(Eval(lib, Nested("and", pre + items + post), ctx)) <==>
            ToNodes(Arr(items)).Some? || Status(AllOf(EvalEach(lib, pre, ctx))) != Some(false)
    ensures Status(Eval(lib, OrOf(pre + [Nested("or", items)] + post), ctx)) ==
            Status(Eval(lib, Nested("or", pre + items + post), ctx)) <==>
            ToNodes(Arr(items)).Some? || Status(AnyOf(EvalEach(lib, pre, ctx))) != Some(true)
  {
    if ToNodes(Arr(items)).Some? {
      Flatten(lib, pre, items, post, ctx);
    } else {
      MalformedSplice(lib, pre, items, post, ctx);
      MalformedNested(lib, pre, Nested("and", items), post, ctx);
      MalformedNested(lib, pre, Nested("or", items), post, ctx);
    }
  }

  /** Such an unreached list: a condition that never matches, and a null nested after it. */
  lemma FlattenNeedsObjects(lib: Lib, ctx: PaymentContext)
    ensures var never := OrOf([]);
      && Status(Eval(lib, AndOf([never, Nested("and", [Nil])]), ctx)) == Some(false)
      && Status(Eval(lib, Nested("and", [never, Nil]), ctx)) == None
  {
    var never := OrOf([]);
    ListOfNodes([]);
    assert AllOf(EvalEach(lib, [never], ctx)) == AllOf([Eval(lib, never, ctx)]);
    SingleStatus(Eval(lib, never, ctx));
    MalformedNested(lib, [never], Nested("and", [Nil]), [], ctx);
    MalformedSplice(lib, [never], [Nil], [], ctx);
    assert [never] + [Nested("and", [Nil])] + [] == [never, Nested("and", [Nil])];
    var spliced: seq<Any>, written: seq<Any> := [never] + [Nil] + [], [never, Nil];
    assert spliced == written;
  }

  // ---------------------------------------------------------------- dependency and safety

  /** Every leaf of the tree names a field in `fields`. */
  predicate NamesWithin(node: Node, fields: set<string>) {
    AllLeaves(node, (n: Node) => "field" in n.fields && n.fields["field"].Str? ==> n.fields["field"].s in fields, false)
  }

  /** Evaluation, reasons included, depends only on the fields the tree names. */
  lemma {:induction false} DependsOnNamedFields(lib: Lib, node: Node, fields: set<string>, c1: PaymentContext,
                                                c2: PaymentContext)
    requires NamesWithin(node, fields)
    requires forall f :: f in fields ==> ResolveField(f, c1) == ResolveField(f, c2)
    ensures Eval(lib, node, c1) == Eval(lib, node, c2)
    decreases node
  {
    var f := node.fields;
    if "and" in f || "or" in f {
      var cs := ToNodes(if "and" in f then f["and"] else f["or"]);
      if cs.Some? {
        forall i | 0 <= i < |cs.value| ensures Eval(lib, cs.value[i], c1) == Eval(lib, cs.value[i], c2) {
          DependsOnNamedFields(lib, cs.value[i], fields, c1, c2);
        }
        assert EvalEach(lib, cs.value, c1) == EvalEach(lib, cs.value, c2);
      }
    } else if "not" in f && f["not"].Obj? {
      DependsOnNamedFields(lib, f["not"], fields, c1, c2);
    }
  }

  /** The check a rule author can make of a leaf without a payment at hand. */
  predicate StaticLeaf(lib: Lib, node: Node) {
    var f := node.fields;
    && "field" in f && f["field"].Str?
    && "op" in f && f["op"].Str?
    && var expected := if "value" in f then f["value"] else Nil;
       var op := f["op"].s;
       || op in {"eq", "neq", "contains"}
       || (IsComparison(op) && f["field"].s == "amount" && ToFloat(lib, expected).Some?)
       || (op in {"in", "not_in"} && expected.Arr?)
  }

  /** A leaf is free of errors in every context exactly when it passes the static check. */
  lemma StaticLeafExact(lib: Lib, node: Node)
    requires IsLeaf(node) && lib.parseFloat("") == None
    ensures StaticLeaf(lib, node) <==> forall ctx :: Eval(lib, node, ctx).Done?
  {
    var blank := PaymentContext(0, "", "", "", None);
    if StaticLeaf(lib, node) {
      forall ctx: PaymentContext ensures Eval(lib, node, ctx).Done? {
        assert ResolveField("amount", ctx) == Int(ctx.amount);
      }
    } else {
      assert Eval(lib, node, blank).Error?;
    }
  }

  /** A tree whose combinators are well shaped and whose leaves pass the check never errs. */
  lemma {:induction false} StaticCheckSound(lib: Lib, node: Node, ctx: PaymentContext)
    requires AllLeaves(node, (n: Node) => StaticLeaf(lib, n), true)
    ensures Eval(lib, node, ctx).Done?
    decreases node
  {
    var f := node.fields;
    if "and" in f || "or" in f {
      var cs := ToNodes(if "and" in f then f["and"] else f["or"]).value;
      forall i | 0 <= i < |cs| ensures Eval(lib, cs[i], ctx).Done? {
        StaticCheckSound(lib, cs[i], ctx);
      }
      NoErrorIn(EvalEach(lib, cs, ctx));
    } else if "not" in f {
      StaticCheckSound(lib, f["not"], ctx);
    }
  }

  lemma {:induction false} NoErrorIn(vs: seq<Verdict>)
    requires forall i :: 0 <= i < |vs| ==> vs[i].Done?
    ensures AllOf(vs).Done? && AnyOf(vs).Done?
  {
    if vs != [] {
      NoErrorIn(vs[1..]);
    }
  }

  /** On trees the check is not necessary: short-circuiting can hide a leaf in every context. */
  lemma StaticCheckNotNecessary(lib: Lib)
    ensures var node := AndOf([OrOf([]), Obj(map[])]);
      && !AllLeaves(node, (n: Node) => StaticLeaf(lib, n), true)
      && forall ctx :: Eval(lib, node, ctx).Done?
  {
    var cs: seq<Node> := [OrOf([]), Obj(map[])];
    ListOfNodes(cs);
    ListOfNodes([]);
    assert !AllLeaves(cs[1], (n: Node) => StaticLeaf(lib, n), true);
    forall ctx ensures Eval(lib, AndOf(cs), ctx).Done? {
      assert EvalEach(lib, cs, ctx)[0] == Eval(lib, OrOf([]), ctx);
    }
  }
}
