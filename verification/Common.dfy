/** Small datatypes and sequence facts shared by the service models. */
module Common {
  datatype Option<+T> = None | Some(value: T)

  datatype Result<+T> = Ok(value: T) | Err(error: StoreError)

  /** The errors the stores return to their handlers, and the handlers' own rejection of a request. */
  datatype StoreError = NotFound | AlreadyExists | ConstraintViolation | InvalidArgument

  // Postgres and Go integer ranges.
  const MIN_INT64: int := -0x8000_0000_0000_0000
  const MAX_INT64: int := 0x7FFF_FFFF_FFFF_FFFF
  const MAX_INT32: int := 0x7FFF_FFFF

  type Int64 = x: int | MIN_INT64 <= x <= MAX_INT64

  function Min(a: int, b: int): int { if a <= b then a else b }
  function Max(a: int, b: int): int { if a <= b then b else a }

  lemma MulMono(a: int, b: int, u: int)
    requires a <= b && u >= 0
    ensures a * u <= b * u
  {}

  /** A quotient is determined by its bounds. */
  lemma DivBounds(n: nat, d: nat, q: nat)
    requires d >= 1 && q * d <= n < (q + 1) * d
    ensures n / d == q
  {
    var k := n / d;
    assert k * d <= n < (k + 1) * d;
    if k < q { MulMono(k + 1, q, d); } else if q < k { MulMono(q + 1, k, d); }
  }

  /** The elements of `s` that satisfy `p`, in order: a SQL `WHERE` over rows in table order. */
  function Filter<T(!new)>(s: seq<T>, p: T -> bool): (r: seq<T>)
    ensures |r| <= |s|
  {
    if s == [] then []
    else
      var init := Filter(s[..|s| - 1], p);
      if p(s[|s| - 1]) then init + [s[|s| - 1]] else init
  }

  lemma {:induction false} FilterMembers<T(!new)>(s: seq<T>, p: T -> bool)
    ensures forall x :: x in Filter(s, p) <==> x in s && p(x)
  {
    if s != [] {
      FilterMembers(s[..|s| - 1], p);
      assert s == s[..|s| - 1] + [s[|s| - 1]];
    }
  }

  lemma {:induction false} FilterNone<T(!new)>(s: seq<T>, p: T -> bool)
    requires forall i :: 0 <= i < |s| ==> !p(s[i])
    ensures Filter(s, p) == []
  {
    if s != [] {
      FilterNone(s[..|s| - 1], p);
    }
  }

  lemma {:induction false} FilterAppend<T(!new)>(s: seq<T>, t: seq<T>, p: T -> bool)
    ensures Filter(s + t, p) == Filter(s, p) + Filter(t, p)
  {
    if t == [] {
      assert s + t == s;
    } else {
      var n := |t| - 1;
      assert (s + t)[..|s + t| - 1] == s + t[..n];
      FilterAppend(s, t[..n], p);
    }
  }

  lemma FilterOne<T(!new)>(x: T, p: T -> bool)
    ensures Filter([x], p) == if p(x) then [x] else []
  {
    assert [x][..0] == [];
  }
}

/** `strconv.Itoa` and `strconv.Atoi`, which carry the page tokens of the audit reader. */
module Decimal {
  import opened Common

  function Digit(d: int): char
    requires 0 <= d < 10
  {
    '0' + d as char
  }

  predicate IsDigit(c: char) { '0' <= c <= '9' }

  predicate AllDigits(s: string) {
    forall c :: c in s ==> IsDigit(c)
  }

  function Digits(n: nat): (s: string)
    ensures s != "" && AllDigits(s)
  {
    if n < 10 then [Digit(n)] else Digits(n / 10) + [Digit(n % 10)]
  }

  function Itoa(n: int): string {
    if n < 0 then "-" + Digits(-n) else Digits(n)
  }

  function DigitsValue(s: string): nat
    requires AllDigits(s)
  {
    if s == "" then 0
    else
      assert IsDigit(s[|s| - 1]);
      DigitsValue(s[..|s| - 1]) * 10 + (s[|s| - 1] - '0') as int
  }

  /** Parses an optionally signed decimal; empty, non-digit and out-of-range input is an error. */
  function Atoi(s: string): Option<Int64> {
    var signed := s != "" && (s[0] == '-' || s[0] == '+');
    var body := if signed then s[1..] else s;
    if body == "" || !AllDigits(body) then None
    else
      var v: int := if signed && s[0] == '-' then -(DigitsValue(body) as int) else DigitsValue(body);
      if MIN_INT64 <= v <= MAX_INT64 then Some(v) else None
  }

  lemma {:induction false} DigitsRoundTrip(n: nat)
    ensures DigitsValue(Digits(n)) == n
  {
    if n >= 10 {
      DigitsRoundTrip(n / 10);
      var s := Digits(n);
      assert s[..|s| - 1] == Digits(n / 10);
    } else {
      assert Digits(n)[..0] == "";
    }
  }

  /** An integer prints as its digits without leading zeros, after a "-" if it is negative. */
  lemma ItoaExactly(n: int)
    ensures 0 <= n < 10 ==> Itoa(n) == ["0123456789"[n]]
    ensures n >= 10 ==> Itoa(n) == Itoa(n / 10) + Itoa(n % 10)
    ensures n < 0 ==> Itoa(n) == "-" + Itoa(-n)
  {}

  /** A token printed by one page request is read back exactly by the next. */
  lemma AtoiItoa(n: Int64)
    ensures Atoi(Itoa(n)) == Some(n)
  {
    var a: int := n;
    var s := Digits(if a < 0 then -a else a);
    DigitsRoundTrip(if a < 0 then -a else a);
    assert IsDigit(s[0]);
    if n < 0 {
      assert Itoa(n)[1..] == s;
    }
  }

  /** Another digit multiplies by ten and adds it. */
  lemma DigitsValueSnoc(s: string, d: int)
    requires AllDigits(s) && 0 <= d < 10
    ensures AllDigits(s + [Digit(d)]) && DigitsValue(s + [Digit(d)]) == 10 * DigitsValue(s) + d
    ensures DigitsValue("") == 0
  {
    assert (s + [Digit(d)])[..|s|] == s;
  }

  /** Digits, signed or not, read as their value if it fits an int64. */
  lemma NumeralsParse(s: string)
    requires s != "" && forall c :: c in s ==> '0' <= c <= '9'
    ensures Atoi(s) == Int64Of(DigitsValue(s))
    ensures Atoi("+" + s) == Int64Of(DigitsValue(s))
    ensures Atoi("-" + s) == Int64Of(-(DigitsValue(s) as int))
  {
    assert s[0] in s;
    var plus, minus := "+" + s, "-" + s;
    assert plus[0] == '+' && plus[1..] == s;
    assert minus[0] == '-' && minus[1..] == s;
  }

  /** Nothing else parses: no empty text, no text with another character, and neither after a sign. */
  lemma OtherTextFails(s: string)
    requires s == "" || exists c :: c in s && !('0' <= c <= '9')
    ensures s == "" || !(s[0] == '-' || s[0] == '+') ==> Atoi(s) == None
    ensures Atoi("+" + s) == None && Atoi("-" + s) == None
  {
    var plus, minus := "+" + s, "-" + s;
    assert plus[0] == '+' && plus[1..] == s;
    assert minus[0] == '-' && minus[1..] == s;
    assert s == "" || !AllDigits(s) by {
      if s != "" {
        var c :| c in s && !('0' <= c <= '9');
        assert !IsDigit(c);
      }
    }
  }

  function Int64Of(v: int): Option<Int64> {
    if -0x8000_0000_0000_0000 <= v <= 0x7FFF_FFFF_FFFF_FFFF then Some(v) else None
  }
}
