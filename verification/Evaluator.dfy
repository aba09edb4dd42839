/**
 The rule evaluator: a left-to-right three-valued semantics of condition trees, and the
 short-circuiting loops that compute it.
 */
module Evaluator {
  import opened Common
  import opened Float64
  import opened GoValues

  /** An evaluation error, or a match result with its reason. */
  datatype Verdict = Error | Done(matched: bool, reason: string) {
    predicate Matches() { Done? && matched }
  }

  // ---------------------------------------------------------------- semantics

  /** The conditions of a combinator, if it is a list of objects. */
  function ToNodes(raw: Any): (r: Option<seq<Node>>)
    ensures r.Some? ==> raw.Arr? && r.value == raw.items
  {
    if raw.Arr? && forall i :: 0 <= i < |raw.items| ==> raw.items[i].Obj? then
      var ns: seq<Node> := raw.items; Some(ns)
    else None
  }

  /** Conjunction of already evaluated conditions: the first that is not a match decides. */
  function AllOf(vs: seq<Verdict>): Verdict {
    if vs == [] then Done(true, "all conditions matched")
    else if vs[0].Error? then Error
    else if !vs[0].matched then Done(false, "and: failed at: " + vs[0].reason)
    else AllOf(vs[1..])
  }

  /** Disjunction: the first error or match decides. */
  function AnyOf(vs: seq<Verdict>): Verdict {
    if vs == [] then Done(false, "or: no conditions matched")
    else if vs[0].Error? || vs[0].matched then vs[0]
    else AnyOf(vs[1..])
  }

  function Negated(v: Verdict): Verdict {
    if v.Error? then Error else Done(!v.matched, "not(" + v.reason + ")")
  }

  /** The value of a tree: `and` takes precedence over `or`, `or` over `not`, `not` over a leaf. */
  function Eval(lib: Lib, node: Node, ctx: PaymentContext): Verdict
    decreases node, 1
  {
    var f := node.fields;
    if "and" in f then
      var cs := ToNodes(f["and"]);
      if cs.None? then Error else AllOf(EvalEach(lib, cs.value, ctx))
    else if "or" in f then
      var cs := ToNodes(f["or"]);
      if cs.None? then Error else AnyOf(EvalEach(lib, cs.value, ctx))
    else if "not" in f then
      if !f["not"].Obj? then Error else Negated(Eval(lib, f["not"], ctx))
    else EvalLeaf(lib, node, ctx)
  }

  /** Every condition evaluated, with no short-circuit. */
  function EvalEach(lib: Lib, cs: seq<Node>, ctx: PaymentContext): (vs: seq<Verdict>)
    ensures |vs| == |cs|
    ensures forall i :: 0 <= i < |cs| ==> vs[i] == Eval(lib, cs[i], ctx)
    decreases cs, 0
  {
    if cs == [] then [] else [Eval(lib, cs[0], ctx)] + EvalEach(lib, cs[1..], ctx)
  }

  function EvalLeaf(lib: Lib, node: Node, ctx: PaymentContext): Verdict {
    var f := node.fields;
    if "field" !in f || !f["field"].Str? || "op" !in f || !f["op"].Str? then Error
    else
      var field, op := f["field"].s, f["op"].s;
      var expected := if "value" in f then f["value"] else Nil;
      match ApplyOp(lib, op, ResolveField(field, ctx), expected)
      case None => Error
      case Some(matched) => Done(matched, lib.leafReason(field, op, expected))
  }

  function ApplyOp(lib: Lib, op: string, actual: Any, expected: Any): Option<bool> {
    if op == "eq" then Some(AnyStr(lib, actual) == AnyStr(lib, expected))
    else if op == "neq" then Some(AnyStr(lib, actual) != AnyStr(lib, expected))
    else if op == "gt" || op == "gte" || op == "lt" || op == "lte" then
      var a, e := ToFloat(lib, actual), ToFloat(lib, expected);
      if a.None? || e.None? then None
      else if op == "gt" then Some(e.value.Less(a.value))
      else if op == "gte" then Some(e.value.AtMost(a.value))
      else if op == "lt" then Some(a.value.Less(e.value))
      else Some(a.value.AtMost(e.value))
    else if op == "in" then InSlice(lib, actual, expected)
    else if op == "not_in" then
      var r := InSlice(lib, actual, expected);
      if r.None? then None else Some(!r.value)
    else if op == "contains" then
      Some(Contains(lib.lower(AnyStr(lib, actual)), lib.lower(AnyStr(lib, expected))))
    else None
  }

  function InSlice(lib: Lib, actual: Any, expected: Any): Option<bool> {
    if !expected.Arr? then None
    else Some(exists i | 0 <= i < |expected.items| :: AnyStr(lib, expected.items[i]) == AnyStr(lib, actual))
  }

  // ---------------------------------------------------------------- the loops

  /** `evalNode`: dispatch on the first combinator key present. */
  method EvalNode(lib: Lib, node: Node, ctx: PaymentContext) returns (v: Verdict)
    ensures v == Eval(lib, node, ctx)
    decreases node, 0
  {
    if "and" in node.fields {
      v := EvalAnd(lib, node.fields["and"], ctx);
    } else if "or" in node.fields {
      v := EvalOr(lib, node.fields["or"], ctx);
    } else if "not" in node.fields {
      v := EvalNot(lib, node.fields["not"], ctx);
    } else {
      v := LeafVerdict(lib, node, ctx);
    }
  }

  /** `evalAnd`: stops at the first condition that errs or does not match. */
  method EvalAnd(lib: Lib, raw: Any, ctx: PaymentContext) returns (v: Verdict)
    ensures v == var cs := ToNodes(raw);
                 if cs.None? then Error else AllOf(EvalEach(lib, cs.value, ctx))
    decreases raw, 0
  {
    var conds := ToNodeSlice(raw);
    if conds.None? { return Error; }
    ghost var vs := EvalEach(lib, conds.value, ctx);
    var i := 0;
    while i < |conds.value|
      invariant 0 <= i <= |conds.value|
      invariant AllOf(vs) == AllOf(vs[i..])
    {
      var r := EvalNode(lib, conds.value[i], ctx);
      assert vs[i..][0] == r && vs[i..][1..] == vs[i + 1..];
      if r.Error? { return Error; }
      if !r.matched { return Done(false, "and: failed at: " + r.reason); }
      i := i + 1;
    }
    return Done(true, "all conditions matched");
  }

  /** `evalOr`: stops at the first condition that errs or matches. */
  method EvalOr(lib: Lib, raw: Any, ctx: PaymentContext) returns (v: Verdict)
    ensures v == var cs := ToNodes(raw);
                 if cs.None? then Error else AnyOf(EvalEach(lib, cs.value, ctx))
    decreases raw, 0
  {
    var conds := ToNodeSlice(raw);
    if conds.None? { return Error; }
    ghost var vs := EvalEach(lib, conds.value, ctx);
    var i := 0;
    while i < |conds.value|
      invariant 0 <= i <= |conds.value|
      invariant AnyOf(vs) == AnyOf(vs[i..])
    {
      var r := EvalNode(lib, conds.value[i], ctx);
      assert vs[i..][1..] == vs[i + 1..];
      if r.Error? { return Error; }
      if r.matched { return r; }
      i := i + 1;
    }
    return Done(false, "or: no conditions matched");
  }

  method EvalNot(lib: Lib, raw: Any, ctx: PaymentContext) returns (v: Verdict)
    ensures v == if raw.Obj? then Negated(Eval(lib, raw, ctx)) else Error
    ensures v.Done? <==> raw.Obj? && Eval(lib, raw, ctx).Done?
    ensures v.Done? ==> v == Done(!Eval(lib, raw, ctx).matched, "not(" + Eval(lib, raw, ctx).reason + ")")
    decreases raw, 1
  {
    if !raw.Obj? { return Error; }
    var r := EvalNode(lib, raw, ctx);
    v := Negated(r);
  }

  /** `toNodeSlice`: rejects the whole list at its first element that is not an object. */
  method ToNodeSlice(raw: Any) returns (out: Option<seq<Node>>)
    ensures out == ToNodes(raw)
  {
    if !raw.Arr? { return None; }
    var ns: seq<Node> := [];
    var i := 0;
    while i < |raw.items|
      invariant 0 <= i <= |raw.items|
      invariant ns == raw.items[..i]
      invariant forall j :: 0 <= j < i ==> raw.items[j].Obj?
    {
      if !raw.items[i].Obj? { return None; }
      ns := ns + [raw.items[i]];
      i := i + 1;
    }
    assert ns == raw.items;
    out := Some(ns);
  }

  /** `evalLeaf`, with the `in` and `not_in` membership loop. */
  method LeafVerdict(lib: Lib, node: Node, ctx: PaymentContext) returns (v: Verdict)
    ensures v == EvalLeaf(lib, node, ctx)
  {
    var f := node.fields;
    if "field" !in f || !f["field"].Str? || "op" !in f || !f["op"].Str? { return Error; }
    var op := f["op"].s;
    var expected := if "value" in f then f["value"] else Nil;
    var actual := ResolveField(f["field"].s, ctx);
    var applied: Option<bool>;
    if op == "in" || op == "not_in" {
      applied := FindInSlice(lib, actual, expected);
      if applied.Some? && op == "not_in" { applied := Some(!applied.value); }
    } else {
      applied := ApplyOp(lib, op, actual, expected);
    }
    if applied.None? { return Error; }
    v := Done(applied.value, lib.leafReason(f["field"].s, op, expected));
  }

  /** `inSlice`: linear search by string form. */
  method FindInSlice(lib: Lib, actual: Any, expected: Any) returns (found: Option<bool>)
    ensures found.None? <==> !expected.Arr?
    ensures found.Some? ==> (found.value <==>
              exists i :: 0 <= i < |expected.items| && AnyStr(lib, expected.items[i]) == AnyStr(lib, actual))
  {
    if !expected.Arr? { return None; }
    var i := 0;
    while i < |expected.items|
      invariant 0 <= i <= |expected.items|
      invariant forall j :: 0 <= j < i ==> AnyStr(lib, expected.items[j]) != AnyStr(lib, actual)
    {
      if AnyStr(lib, expected.items[i]) == AnyStr(lib, actual) { return Some(true); }
      i := i + 1;
    }
    found := Some(false);
  }
}
