/** Decimal text for integers: the rendering `fmt.Sprintf("%d", id)` gives an id
    before it is bound into the DELETE statement, the reading the store applies
    when it compares that text with the integer `id` column, and `strconv.Atoi`,
    which the GET flow applies to its query parameters. */
module Decimal {
  import opened TodoModel

  /** The range of Go's `int` and `int64` on a 64-bit platform. */
  const MinInt64: int := -0x8000_0000_0000_0000
  const MaxInt64: int := 0x7fff_ffff_ffff_ffff

  predicate IsDigit(c: char) { '0' <= c <= '9' }

  predicate AllDigits(s: string) { forall i :: 0 <= i < |s| ==> IsDigit(s[i]) }

  function DigitChar(d: nat): (c: char)
    requires d < 10
    ensures IsDigit(c)
  {
    ('0' as int + d) as char
  }

  function DigitValue(c: char): (d: nat)
    requires IsDigit(c)
    ensures d < 10
  {
    c as int - '0' as int
  }

  /** The digits of `n`, most significant first, without leading zeros. */
  function NatDigits(n: nat): (s: string)
    ensures |s| >= 1 && AllDigits(s)
    ensures s[0] == '0' ==> n == 0 && s == "0"
    decreases n
  {
    if n < 10 then [DigitChar(n)] else NatDigits(n / 10) + [DigitChar(n % 10)]
  }

  /** The value of a string of digits read as a base-10 numeral. */
  function DigitsValue(s: string): nat
    requires AllDigits(s)
    decreases |s|
  {
    if s == [] then 0 else 10 * DigitsValue(s[..|s| - 1]) + DigitValue(s[|s| - 1])
  }

  /** fmt.Sprintf("%d", n): an optional minus sign, then the digits of |n|. */
  function Render(n: int): (s: string)
    ensures |s| >= 1
    ensures s[0] == '-' <==> n < 0
    ensures n < 0 ==> |s| >= 2 && AllDigits(s[1..]) && s[1] != '0'
    ensures n >= 0 ==> AllDigits(s) && (s[0] != '0' || s == "0")
  {
    if n < 0 then "-" + NatDigits(-n) else NatDigits(n)
  }

  /** One or more digits, read as a natural number. */
  function ParseNat(s: string): (r: Option<nat>)
    ensures r.Some? <==> |s| >= 1 && AllDigits(s)
  {
    if |s| >= 1 && AllDigits(s) then Some(DigitsValue(s)) else None
  }

  /** An integer numeral: an optional `+` or `-` sign followed by one or more digits.
      This is the text that converts to an INTEGER value in the store, and the syntax
      strconv.Atoi accepts before its range check. */
  function Parse(s: string): (r: Option<int>)
    ensures r.Some? ==> |s| >= 1
    ensures r.Some? && s[0] == '-' ==> r.value <= 0
    ensures r.Some? && s[0] != '-' ==> r.value >= 0
  {
    if |s| >= 1 && (s[0] == '-' || s[0] == '+') then
      match ParseNat(s[1..])
      case None => None
      case Some(v) => Some(if s[0] == '-' then -(v as int) else v as int)
    else
      match ParseNat(s)
      case None => None
      case Some(v) => Some(v)
  }

  /** strconv.Atoi on a 64-bit platform: Parse, then fail when the value does not fit. */
  function Atoi(s: string): (r: Option<int>)
    ensures r.Some? ==> MinInt64 <= r.value <= MaxInt64
    ensures r.Some? ==> Parse(s) == r
    ensures Parse(s).Some? && MinInt64 <= Parse(s).value <= MaxInt64 ==> r == Parse(s)
  {
    match Parse(s)
    case None => None
    case Some(v) => if MinInt64 <= v <= MaxInt64 then Some(v) else None
  }

  lemma {:induction false} DigitsValueOfNatDigits(n: nat)
    ensures DigitsValue(NatDigits(n)) == n
    decreases n
  {
    var s := NatDigits(n);
    if n >= 10 {
      DigitsValueOfNatDigits(n / 10);
      assert s[..|s| - 1] == NatDigits(n / 10);
    }
  }

  /** Reading back what Render wrote gives the same integer. */
  lemma ParseRender(n: int)
    ensures Parse(Render(n)) == Some(n)
  {
    if n < 0 {
      DigitsValueOfNatDigits(-n);
      assert Render(n)[1..] == NatDigits(-n);
    } else {
      DigitsValueOfNatDigits(n);
    }
  }

  /** Render is one-to-one: distinct ids give distinct texts. */
  lemma RenderInjective(a: int, b: int)
    requires Render(a) == Render(b)
    ensures a == b
  {
    ParseRender(a);
    ParseRender(b);
  }

  /** Atoi reads back any rendered int64 unchanged. */
  lemma AtoiRender(n: int)
    requires MinInt64 <= n <= MaxInt64
    ensures Atoi(Render(n)) == Some(n)
  {
    ParseRender(n);
  }

  /** Atoi fails on the empty string, which is what a missing query parameter reads as. */
  lemma AtoiEmpty()
    ensures Atoi("") == None
  {
  }
}
