/** The numeric text codec: the element tokens of the LP file.
    `"%d" % d` is modelled exactly; `"%+f" % f` is a parameter `floatTok` of the
    writers, so every property below holds for any float formatting. */
module TextCodec {
  import opened Wrappers
  import opened Values

  predicate IsDigit(c: char) { '0' <= c <= '9' }

  function DigitChar(d: nat): (c: char)
    requires d < 10
    ensures IsDigit(c) && (c as int) - ('0' as int) == d
  {
    (('0' as int) + d) as char
  }

  /** The decimal digits of `n`, most significant first, without leading zeros. */
  function Digits(n: nat): (s: string)
    ensures |s| >= 1
    ensures forall i :: 0 <= i < |s| ==> IsDigit(s[i])
    ensures s[0] == '0' ==> n == 0
    decreases n
  {
    if n < 10 then [DigitChar(n)] else Digits(n / 10) + [DigitChar(n % 10)]
  }

  /** `"%d" % i`: a leading '-' for negative numbers, no sign otherwise. */
  function IntStr(i: int): (s: string)
    ensures |s| >= 1
    ensures (s[0] == '-') <==> i < 0
    ensures i >= 0 ==> forall k :: 0 <= k < |s| ==> IsDigit(s[k])
  {
    if i < 0 then "-" + Digits(-i) else Digits(i)
  }

  /** Reading a run of decimal digits back, the inverse of Digits. */
  function ParseDigits(s: string): int
  {
    if s == [] then 0 else ParseDigits(s[..|s| - 1]) * 10 + ((s[|s| - 1] as int) - ('0' as int))
  }

  function ParseInt(s: string): int
  {
    if |s| > 0 && s[0] == '-' then -ParseDigits(s[1..]) else ParseDigits(s)
  }

  lemma {:induction false} ParseDigitsOf(n: nat)
    ensures ParseDigits(Digits(n)) == n
    decreases n
  {
    if n >= 10 {
      var s := Digits(n);
      assert s == Digits(n / 10) + [DigitChar(n % 10)];
      assert s[..|s| - 1] == Digits(n / 10);
      ParseDigitsOf(n / 10);
    }
  }

  /** The integer token reads back as the integer it was made from. */
  lemma IntStrRoundTrip(i: int)
    ensures ParseInt(IntStr(i)) == i
  {
    if i < 0 {
      assert IntStr(i)[1..] == Digits(-i);
      ParseDigitsOf(-i);
    } else {
      ParseDigitsOf(i);
    }
  }

  /** Distinct integers give distinct tokens, so a label token names one label. */
  lemma IntStrInjective(i: int, j: int)
    ensures IntStr(i) == IntStr(j) ==> i == j
  {
    IntStrRoundTrip(i);
    IntStrRoundTrip(j);
  }

  /** `to_int_str`: the elementwise integer tokens, keeping shape and order. */
  function ToIntStr(xs: seq<int>): (r: seq<string>)
    ensures |r| == |xs|
    ensures forall i :: 0 <= i < |xs| ==> r[i] == IntStr(xs[i])
  {
    if xs == [] then [] else [IntStr(xs[0])] + ToIntStr(xs[1..])
  }

  /** `to_float_str`: null cells are replaced by 0 (`fillna(0)`) and every cell is
      formatted by `floatTok`, keeping shape and order. */
  function ToFloatStr(floatTok: Float -> string, xs: seq<Option<Float>>): (r: seq<string>)
    ensures |r| == |xs|
    ensures forall i :: 0 <= i < |xs| && xs[i].Some? ==> r[i] == floatTok(xs[i].value)
    ensures forall i :: 0 <= i < |xs| && xs[i].None? ==> r[i] == floatTok(Zero)
  {
    if xs == [] then [] else [floatTok(xs[0].GetOr(Zero))] + ToFloatStr(floatTok, xs[1..])
  }
}
