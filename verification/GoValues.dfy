/** The dynamically typed values a rule expression and a payment context are made of. */
module GoValues {
  import opened Common
  import opened Float64
  import Decimal

  /** Go's `any`, as far as decoded JSON and the payment context produce it. */
  datatype Any =
    | Nil
    | Bool(b: bool)
    | Float(f: F64)
    | Int(i: Int64)
    | Str(s: string)
    | Arr(items: seq<Any>)
    | Obj(fields: map<string, Any>)

  /** A decoded JSON object, the `map[string]any` the evaluator recurses on. */
  type Node = a: Any | a.Obj? witness Obj(map[])

  /** Library routines whose text the model does not fix; every result holds for every choice of them. */
  datatype Lib = Lib(
    formatFloat: F64 -> string,        // strconv.FormatFloat(f, 'f', -1, 64)
    formatOther: Any -> string,        // fmt.Sprintf("%v", v)
    parseFloat: string -> Option<F64>, // strconv.ParseFloat(s, 64)
    lower: string -> string,           // strings.ToLower
    leafReason: (string, string, Any) -> string)

  datatype PaymentContext = PaymentContext(
    amount: Int64, currency: string, source: string, destination: string,
    metadata: Option<map<string, string>>)

  function AnyStr(lib: Lib, v: Any): string {
    match v
    case Nil => ""
    case Str(s) => s
    case Float(f) => lib.formatFloat(f)
    case Int(i) => Decimal.Itoa(i)
    case Bool(b) => if b then "true" else "false"
    case _ => lib.formatOther(v)
  }

  /** `toFloat64`: numbers convert, strings parse, anything else is an error. */
  function ToFloat(lib: Lib, v: Any): Option<F64> {
    match v
    case Float(f) => Some(f)
    case Int(i) => Some(Finite(Round(i) as real))
    case Str(s) => lib.parseFloat(s)
    case _ => None
  }

  const METADATA: string := "metadata."

  function ResolveField(field: string, ctx: PaymentContext): Any {
    if METADATA <= field then
      var key := field[|METADATA|..];
      Str(if ctx.metadata.Some? && key in ctx.metadata.value then ctx.metadata.value[key] else "")
    else if field == "amount" then Int(ctx.amount)
    else if field == "currency" then Str(ctx.currency)
    else if field == "source" then Str(ctx.source)
    else if field == "destination" then Str(ctx.destination)
    else Nil
  }

  /** `strings.Contains`. */
  predicate Contains(s: string, t: string) {
    t <= s || (s != "" && Contains(s[1..], t))
  }

  /** A metadata key the context lacks reads as the empty string, a path it does not know as nil. */
  lemma AbsentFields(ctx: PaymentContext, key: string, field: string)
    ensures ctx.metadata.None? || key !in ctx.metadata.value ==> ResolveField("metadata." + key, ctx) == Str("")
    ensures ctx.metadata.Some? && key in ctx.metadata.value ==>
              ResolveField("metadata." + key, ctx) == Str(ctx.metadata.value[key])
    ensures !("metadata." <= field) && field !in {"amount", "currency", "source", "destination"} ==>
              ResolveField(field, ctx) == Nil
  {
    assert ("metadata." + key)[|"metadata."|..] == key;
  }

  /** Each field path reads its own component of the context and no other. */
  lemma FieldsAreSeparate(ctx: PaymentContext, amount: Int64, s: string, m: map<string, string>, field: string)
    ensures ResolveField("amount", ctx.(amount := amount)) == Int(amount)
    ensures ResolveField("currency", ctx.(currency := s)) == Str(s)
    ensures ResolveField("source", ctx.(source := s)) == Str(s)
    ensures ResolveField("destination", ctx.(destination := s)) == Str(s)
    ensures field in m ==> ResolveField(METADATA + field, ctx.(metadata := Some(m))) == Str(m[field])
    ensures field != "amount" ==> ResolveField(field, ctx.(amount := amount)) == ResolveField(field, ctx)
    ensures field != "currency" ==> ResolveField(field, ctx.(currency := s)) == ResolveField(field, ctx)
    ensures field != "source" ==> ResolveField(field, ctx.(source := s)) == ResolveField(field, ctx)
    ensures field != "destination" ==> ResolveField(field, ctx.(destination := s)) == ResolveField(field, ctx)
    ensures !(METADATA <= field) ==> ResolveField(field, ctx.(metadata := Some(m))) == ResolveField(field, ctx)
  {
    assert (METADATA + field)[|METADATA|..] == field;
    assert METADATA[0] != "destination"[0];
  }

  /** Containment is being cut out of the middle. */
  lemma {:induction false} ContainsMeaning(s: string, t: string)
    ensures Contains(s, t) <==> exists a, b :: s == a + t + b
  {
    if t <= s {
      assert s == "" + t + s[|t|..];
    } else if s != "" {
      ContainsMeaning(s[1..], t);
      if Contains(s[1..], t) {
        var a, b :| s[1..] == a + t + b;
        assert s == ([s[0]] + a) + t + b;
      }
      forall a, b | s == a + t + b ensures Contains(s[1..], t) {
        assert a == "" ==> t <= s;
        assert s[1..] == a[1..] + t + b;
      }
    }
  }
}
