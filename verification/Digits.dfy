/** Positional notation: the text Python prints for a non-negative integer in
    base 10 or 16, and the number a text denotes. */
module Digits {
  import opened Powers

  datatype Radix = Ten | Sixteen {
    function Base(): (b: nat)
      ensures b == 10 || b == 16
    {
      if Ten? then 10 else 16
    }

    /** The number whose last digit is d and whose other digits denote n. */
    function Append(n: nat, d: nat): nat {
      if Ten? then 10 * n + d else 16 * n + d
    }

    function Front(n: nat): (q: nat)
      ensures q <= n && (n >= Base() ==> q < n)
    {
      if Ten? then n / 10 else n / 16
    }

    function Last(n: nat): (d: nat)
      ensures d < Base() && Append(Front(n), d) == n
    {
      if Ten? then n % 10 else n % 16
    }
  }

  function Digit(d: nat): (c: char)
    requires d < 16
    ensures d < 10 ==> '0' <= c <= '9'
    ensures 10 <= d ==> 'a' <= c <= 'f'
    ensures c == "0123456789abcdef"[d]
  {
    if d < 10 then '0' + d as char else 'a' + (d - 10) as char
  }

  predicate IsDigit(c: char, r: Radix) {
    || '0' <= c <= '9'
    || (r.Sixteen? && ('a' <= c <= 'f' || 'A' <= c <= 'F'))
  }

  function DigitValue(c: char, r: Radix): (d: nat)
    requires IsDigit(c, r)
    ensures d < r.Base()
  {
    if '0' <= c <= '9' then (c - '0') as nat
    else if 'a' <= c <= 'f' then (c - 'a') as nat + 10
    else (c - 'A') as nat + 10
  }

  predicate IsText(s: string, r: Radix) {
    forall i | 0 <= i < |s| :: IsDigit(s[i], r)
  }

  /** `format(n, "x")` for base 16, `str(n)` for base 10. */
  function Text(n: nat, r: Radix): (s: string)
    ensures s != [] && IsText(s, r)
  {
    if n < r.Base() then [Digit(n)] else Text(r.Front(n), r) + [Digit(r.Last(n))]
  }

  /** `int(s, base)` on a text of digits. */
  function Value(s: string, r: Radix): nat
    requires IsText(s, r)
  {
    if s == [] then 0 else r.Append(Value(s[..|s| - 1], r), DigitValue(s[|s| - 1], r))
  }

  /** Reading back what was printed gives the number, and only 0 begins with a zero. */
  lemma {:induction false} ValueOfText(n: nat, r: Radix)
    ensures Value(Text(n, r), r) == n
    ensures Text(n, r)[0] == '0' <==> n == 0
  {
    var s := Text(n, r);
    if n < r.Base() {
      assert s[..|s| - 1] == [];
    } else {
      ValueOfText(r.Front(n), r);
      assert s[..|s| - 1] == Text(r.Front(n), r);
    }
  }

  /** The first m digits of a text denote its number without the digits that follow. */
  lemma {:induction false} ValueOfPrefix(s: string, m: nat, r: Radix)
    requires IsText(s, r) && m <= |s|
    ensures Value(s[..m], r) == Value(s, r) / Power(r.Base(), |s| - m)
    decreases |s|
  {
    if m == |s| {
      assert s[..m] == s;
    } else {
      var front, d := s[..|s| - 1], DigitValue(s[|s| - 1], r);
      assert front[..m] == s[..m];
      ValueOfPrefix(front, m, r);
      var v, p := Value(front, r), Power(r.Base(), |s| - 1 - m);
      assert Value(s, r) == r.Append(v, d);
      hide *;
      AppendIsSum(r, v, d);
      DropDigit(v, d, r.Base(), p);
      PowerStep(r.Base(), |s| - m);
    }
  }

  lemma AppendIsSum(r: Radix, n: nat, d: nat)
    ensures r.Append(n, d) == r.Base() * n + d
  {}

  lemma DropDigit(v: nat, d: nat, b: nat, p: nat)
    requires d < b && p >= 1
    ensures b * p >= 1 && (b * v + d) / (b * p) == v / p
  {
    var q, t := v / p, v % p;
    var rest := b * t + d;
    assert v == p * q + t;
    assert b * v + d == q * (b * p) + rest by {
      assert b * (p * q) == q * (b * p);
    }
    assert rest < b * p by {
      assert b * (t + 1) <= b * p;
    }
    QuotientUnique(b * v + d, q, rest, b * p);
  }

  /** Python's `str(n)` for any integer. */
  function Decimal(n: int): (s: string)
    ensures forall i | 0 <= i < |s| :: s[i] == '-' || IsDigit(s[i], Ten)
  {
    if n < 0 then "-" + Text(-n, Ten) else Text(n, Ten)
  }

  lemma DecimalInjective(m: int, n: int)
    requires Decimal(m) == Decimal(n)
    ensures m == n
  {
    var s, t := Decimal(m), Decimal(n);
    ValueOfText(if m < 0 then -m else m, Ten);
    ValueOfText(if n < 0 then -n else n, Ten);
    assert m < 0 <==> s[0] == '-';
    assert m < 0 ==> s[1..] == Text(-m, Ten);
    assert n < 0 ==> t[1..] == Text(-n, Ten);
  }
}
