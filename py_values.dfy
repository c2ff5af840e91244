/** The Python values that pass through the settings store, Python's `==` on
    them, and the `int(...)` conversion that the `toggle` setting applies. */
module PyValues {
  import opened PyCore

  datatype Value = NoneV | BoolV(b: bool) | IntV(i: int) | StrV(s: string)

  function BoolToInt(b: bool): int { if b then 1 else 0 }

  /** Python `a == b`: `bool` is a subclass of `int`, so `True == 1`; values of
      unrelated types are never equal. */
  predicate PyEq(a: Value, b: Value)
  {
    match (a, b)
    case (BoolV(x), IntV(y)) => BoolToInt(x) == y
    case (IntV(x), BoolV(y)) => x == BoolToInt(y)
    case _ => a == b
  }

  predicate IsDigit(c: char) { '0' <= c <= '9' }

  predicate AllDigits(s: string) { forall i :: 0 <= i < |s| ==> IsDigit(s[i]) }

  /** The number a non-empty run of decimal digits denotes. */
  function DigitsValue(s: string): nat
    requires AllDigits(s)
  {
    if s == [] then 0 else DigitsValue(s[..|s| - 1]) * 10 + (s[|s| - 1] as int - '0' as int)
  }

  /** `int(s)` on a string: an optional sign followed by one or more digits. */
  function ParseInt(s: string): (r: Option<int>)
    ensures r.Some? ==> exists i :: 0 <= i < |s| && IsDigit(s[i])
  {
    if |s| > 0 && (s[0] == '-' || s[0] == '+') then
      if |s| > 1 && AllDigits(s[1..]) then
        assert IsDigit(s[1..][0]);
        Some(if s[0] == '-' then 0 - DigitsValue(s[1..]) as int else DigitsValue(s[1..]))
      else None
    else if |s| > 0 && AllDigits(s) then
      assert IsDigit(s[0]);
      Some(DigitsValue(s))
    else None
  }

  /** `str(n)` for a natural number. */
  function NatToStr(n: nat): (s: string)
    ensures |s| > 0 && AllDigits(s)
  {
    var d := [('0' as int + n % 10) as char];
    if n < 10 then d else NatToStr(n / 10) + d
  }

  /** `str(n)` */
  function IntToStr(n: int): (s: string)
    ensures |s| > 0
  {
    if n < 0 then "-" + NatToStr(-n) else NatToStr(n)
  }

  lemma {:induction false} NatToStrValue(n: nat)
    ensures DigitsValue(NatToStr(n)) == n
  {
    var s := NatToStr(n);
    if n >= 10 {
      NatToStrValue(n / 10);
      assert s[..|s| - 1] == NatToStr(n / 10);
    }
  }

  /** `int(str(n)) == n`: an integer written out as text reads back unchanged. */
  lemma ParseIntToStr(n: int)
    ensures ParseInt(IntToStr(n)) == Some(n)
  {
    if n < 0 {
      NatToStrValue(-n);
      assert IntToStr(n)[1..] == NatToStr(-n);
    } else {
      NatToStrValue(n);
    }
  }

  /** `int(v)`: booleans become 0 or 1, integers stay, strings are parsed and
      `None` is a type error. */
  function PyInt(v: Value): (r: Result<int>)
    ensures v.IntV? ==> r == Ok(v.i)
    ensures v.BoolV? ==> r == Ok(if v.b then 1 else 0)
    ensures v.NoneV? ==> r == Err(TypeError)
    ensures v.StrV? && r.Ok? ==> ParseInt(v.s) == Some(r.value)
    ensures v.StrV? && r.Err? ==> ParseInt(v.s) == None && r.error == ValueError
  {
    match v
    case NoneV => Err(TypeError)
    case BoolV(b) => Ok(BoolToInt(b))
    case IntV(i) => Ok(i)
    case StrV(s) => if ParseInt(s).Some? then Ok(ParseInt(s).value) else Err(ValueError)
  }

  /** `int(int(v)) == int(v)`: the conversion is idempotent. */
  lemma PyIntIdempotent(v: Value)
    requires PyInt(v).Ok?
    ensures PyInt(IntV(PyInt(v).value)) == PyInt(v)
  {
  }

  /** Text that an integer was written as reads back as that integer. */
  lemma PyIntOfText(n: int)
    ensures PyInt(StrV(IntToStr(n))) == Ok(n)
  {
    ParseIntToStr(n);
  }
}
