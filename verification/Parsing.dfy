/** Credit and quality-level shorthand (`market/parsing.py`). Floating point appears
    as a rounding function `fl` on the reals with relative error at most 2^-53 (round
    to nearest, section 4.3.1 of IEEE 754-2019). */
module Parsing {
  import opened Wrappers
  import opened Collections
  import opened Digits

  // ---- text ----

  predicate IsSpace(c: char) {
    c == ' ' || '\t' <= c <= '\r' || '\U{1C}' <= c <= '\U{1F}'
  }

  /** `str.strip()`. */
  function Strip(s: string): (t: string)
    ensures |t| <= |s|
  {
    if s == "" then ""
    else if IsSpace(s[0]) then Strip(s[1..])
    else if IsSpace(s[|s| - 1]) then Strip(s[..|s| - 1])
    else s
  }

  /** What is left is the middle of the text: only space around it, and none at its ends. */
  lemma {:induction false} StripExact(s: string) returns (i: nat, j: nat)
    ensures i <= j <= |s| && Strip(s) == s[i..j]
    ensures forall k | 0 <= k < |s| && !(i <= k < j) :: IsSpace(s[k])
    ensures Strip(s) != "" ==> !IsSpace(s[i]) && !IsSpace(s[j - 1])
  {
    if s == "" {
      i, j := 0, 0;
    } else if IsSpace(s[0]) {
      i, j := StripExact(s[1..]);
      i, j := i + 1, j + 1;
    } else if IsSpace(s[|s| - 1]) {
      i, j := StripExact(s[..|s| - 1]);
    } else {
      i, j := 0, |s|;
    }
  }

  /** The number of digits a text begins with. */
  function Run(s: string): (n: nat)
    ensures n <= |s| && IsText(s[..n], Ten)
  {
    if s == "" || !IsDigit(s[0], Ten) then 0 else 1 + Run(s[1..])
  }

  lemma {:induction false} RunOfText(s: string, rest: string)
    requires IsText(s, Ten) && (rest == "" || !IsDigit(rest[0], Ten))
    ensures Run(s + rest) == |s|
  {
    if s == "" {
      assert s + rest == rest;
    } else {
      RunOfText(s[1..], rest);
      assert (s + rest)[1..] == s[1..] + rest;
    }
  }

  // ---- ranges ----

  datatype Range = Range(lo: Option<int>, hi: Option<int>)

  /** What `parse_range` promises of its result. */
  predicate Ordered(r: Range) {
    r.lo.Some? && r.hi.Some? ==> r.lo.value <= r.hi.value
  }

  /** One side of a range: None where the source gives up, else its bound. */
  function Side(raw: string, parser: string -> Option<int>): Option<Option<int>> {
    if raw == "" then Some(None)
    else match parser(raw) case None => None case Some(n) => Some(Some(n))
  }

  /** `parse_range`. */
  function ParseRange(spec: string, parser: string -> Option<int>): (r: Option<Range>)
    ensures r.Some? ==> Ordered(r.value) && (r.value.lo.Some? || r.value.hi.Some?)
  {
    var s := Strip(spec);
    var d := IndexOf(s, '-');
    if d == |s| || '-' in s[d + 1..] then None else
      match (Side(Strip(s[..d]), parser), Side(Strip(s[d + 1..]), parser))
      case (Some(lo), Some(hi)) =>
        if lo == None && hi == None then None
        else if lo.Some? && hi.Some? && lo.value > hi.value then None
        else Some(Range(lo, hi))
      case _ => None
  }

  /** A side is what stands before or after the dash, read with the parser unless blank. */
  ghost predicate IsSide(text: string, parser: string -> Option<int>, bound: Option<int>) {
    if Strip(text) == "" then bound == None else bound.Some? && parser(Strip(text)) == bound
  }

  /** A text with one dash, cut there. */
  predicate IsSplit(s: string, a: string, b: string) {
    s == a + "-" + b && '-' !in a && '-' !in b
  }

  /** A text parses to a range exactly when it has one dash, both sides read as the bounds
      of that range, one of them is there, and they are in order. */
  lemma ParseRangeExact(spec: string, parser: string -> Option<int>, range: Range)
    ensures ParseRange(spec, parser) == Some(range) <==>
      && (range.lo.Some? || range.hi.Some?)
      && (range.lo.Some? && range.hi.Some? ==> range.lo.value <= range.hi.value)
      && exists a, b :: IsSplit(Strip(spec), a, b) && IsSide(a, parser, range.lo) && IsSide(b, parser, range.hi)
  {
    hide *;
    var s := Strip(spec);
    if ParseRange(spec, parser) == Some(range) {
      var d := ParsedRange(spec, parser, range);
      OneDash(s, d);
    }
    if a, b :| IsSplit(s, a, b) && IsSide(a, parser, range.lo) && IsSide(b, parser, range.hi) {
      DashAt(s, a, b);
      if (range.lo.Some? || range.hi.Some?) && (range.lo.Some? && range.hi.Some? ==> range.lo.value <= range.hi.value) {
        RangeParses(spec, parser, range, |a|);
      }
    }
  }

  lemma OneDash(s: string, d: nat)
    requires d < |s| && s[d] == '-' && '-' !in s[..d] && '-' !in s[d + 1..]
    ensures IsSplit(s, s[..d], s[d + 1..])
  {}

  lemma DashAt(s: string, a: string, b: string)
    requires IsSplit(s, a, b)
    ensures '-' !in b && |a| < |s| && s[|a|] == '-' && IndexOf(s, '-') == |a| && s[..|a|] == a && s[|a| + 1..] == b
  {
    var d := IndexOf(s, '-');
    assert s[|a|] == '-' && forall k | 0 <= k < |a| :: s[k] == a[k];
    assert forall k | 0 <= k < d :: s[k] == s[..d][k];
  }

  lemma ParsedRange(spec: string, parser: string -> Option<int>, range: Range) returns (d: nat)
    requires ParseRange(spec, parser) == Some(range)
    ensures range.lo.Some? || range.hi.Some?
    ensures range.lo.Some? && range.hi.Some? ==> range.lo.value <= range.hi.value
    ensures d < |Strip(spec)| && Strip(spec)[d] == '-' && '-' !in Strip(spec)[..d] && '-' !in Strip(spec)[d + 1..]
    ensures IsSide(Strip(spec)[..d], parser, range.lo) && IsSide(Strip(spec)[d + 1..], parser, range.hi)
  {
    hide Strip, IndexOf;
    d := IndexOf(Strip(spec), '-');
  }

  lemma RangeParses(spec: string, parser: string -> Option<int>, range: Range, d: nat)
    requires range.lo.Some? || range.hi.Some?
    requires range.lo.Some? && range.hi.Some? ==> range.lo.value <= range.hi.value
    requires d < |Strip(spec)| && IndexOf(Strip(spec), '-') == d && '-' !in Strip(spec)[d + 1..]
    requires IsSide(Strip(spec)[..d], parser, range.lo) && IsSide(Strip(spec)[d + 1..], parser, range.hi)
    ensures ParseRange(spec, parser) == Some(range)
  {
    hide Strip, IndexOf;
  }

  /** `parse_ql`. */
  function ParseQl(value: string): (r: Option<int>)
    ensures r.Some? ==> r.value >= 0
  {
    var s := Strip(value);
    if s == "" || !IsText(s, Ten) then None else Some(Value(s, Ten))
  }

  /** Exactly the texts of digits parse; a printed level parses to itself, whatever space
      surrounds it. */
  lemma ParseQlExact(value: string, n: nat)
    ensures
      var s := Strip(value);
      ParseQl(value).Some? <==> s != "" && forall i | 0 <= i < |s| :: '0' <= s[i] <= '9'
    ensures Strip(value) == Text(n, Ten) ==> ParseQl(value) == Some(n)
  {
    ValueOfText(n, Ten);
  }

  // ---- rounding ----

  /** The largest error of rounding x: a 2^53th part of it. */
  function Ulp(x: real): real {
    x / 9007199254740992.0
  }

  function Abs(x: real): real {
    if x < 0.0 then -x else x
  }

  ghost predicate RoundsToNearest(fl: real -> real) {
    forall x: real :: Abs(fl(x) - x) <= Ulp(Abs(x))
  }

  /** `round(x)`: to the nearest integer, ties to even. */
  function Round(x: real): (n: int)
    ensures -0.5 <= n as real - x <= 0.5
  {
    var f := x.Floor;
    var d := x - f as real;
    if d < 0.5 || (d == 0.5 && f % 2 == 0) then f else f + 1
  }

  lemma RoundHalfEven(n: int)
    ensures Round(n as real + 0.5) == if n % 2 == 0 then n else n + 1
  {
    assert (n as real + 0.5).Floor == n;
  }

  lemma RoundsToNear(x: real, n: int)
    requires -0.5 < x - n as real < 0.5
    ensures Round(x) == n
  {}

  // ---- credits ----

  function Multiplier(unit: string): (m: Option<nat>)
    ensures m.Some? ==> m.value in {1, 1_000, 1_000_000, 1_000_000_000}
  {
    if unit == "" then Some(1)
    else if unit == "k" || unit == "K" then Some(1_000)
    else if unit == "m" || unit == "M" then Some(1_000_000)
    else if unit == "b" || unit == "B" then Some(1_000_000_000)
    else None
  }

  function Pow10(n: nat): (p: nat)
    ensures p >= 1
  {
    if n == 0 then 1 else 10 * Pow10(n - 1)
  }

  /** Digits after the point. */
  function Fraction(digits: string): real
    requires IsText(digits, Ten)
  {
    Value(digits, Ten) as real / Pow10(|digits|) as real
  }

  /** The decimal a text begins with and where it ends: digits, then a point and
      digits when both are there. */
  function Number(s: string): (r: (real, nat))
    ensures r.1 <= |s|
  {
    var w := Run(s);
    var whole := Value(s[..w], Ten) as real;
    var f := if w < |s| && s[w] == '.' then Run(s[w + 1..]) else 0;
    if f == 0 then (whole, w)
    else (whole + Fraction(s[w + 1..][..f]), w + 1 + f)
  }

  /** The decimal and the multiplier of a text that the credit pattern matches. */
  function MatchCredit(s: string): Option<(real, nat)> {
    if Run(s) == 0 then None else
      match Multiplier(LeftStrip(s[Number(s).1..]))
      case None => None
      case Some(m) => Some((Number(s).0, m))
  }

  function LeftStrip(s: string): string {
    if s == "" || !IsSpace(s[0]) then s else LeftStrip(s[1..])
  }

  function Times(x: real, m: nat): real {
    x * m as real
  }

  /** The number of credits of a decimal and a multiplier, with two float operations. */
  function CreditValue(number: real, m: nat, fl: real -> real): int {
    Round(fl(Times(fl(number), m)))
  }

  /** `parse_credits`. */
  function ParseCredits(value: string, fl: real -> real): Option<int> {
    var s := Strip(value);
    if s == "" then None else
      match MatchCredit(s)
      case None => None
      case Some(pair) => Some(CreditValue(pair.0, pair.1, fl))
  }

  lemma Rounded(fl: real -> real, x: real)
    requires RoundsToNearest(fl) && x >= 0.0
    ensures -Ulp(x) <= fl(x) - x <= Ulp(x)
  {
    assert Abs(fl(x) - x) <= Ulp(Abs(x));
  }

  lemma Scaled(v: real, w: real, m: real, e: real)
    requires m >= 0.0 && -e <= w - v <= e
    ensures -(e * m) <= w * m - v * m <= e * m
  {
    assert w * m - v * m == (w - v) * m;
    assert (w - v) * m <= e * m && -e * m <= (w - v) * m;
  }

  lemma TwoErrors(n: real, p: real, q: real)
    requires 0.0 <= n <= 2251799813685247.0
    requires -Ulp(n) <= p - n <= Ulp(n)
    requires -Ulp(p) <= q - p <= Ulp(p)
    ensures -0.5 < q - n < 0.5
  {}

  /** Rounding twice and then to an integer recovers an integer below 2^51. */
  lemma TwoRoundings(fl: real -> real, v: real, m: real, n: nat, p: real)
    requires RoundsToNearest(fl) && v >= 0.0 && m >= 0.0 && v * m == n as real && n < 0x8_0000_0000_0000
    requires p == fl(v) * m
    ensures Round(fl(p)) == n
  {
    hide RoundsToNearest, Ulp, Round;
    Rounded(fl, v);
    ScaledUlp(v, fl(v), m, n as real, p);
    PositiveAfterRounding(n as real, p);
    Rounded(fl, p);
    TwoErrors(n as real, p, fl(p));
    RoundsToNear(fl(p), n);
  }

  lemma PositiveAfterRounding(n: real, p: real)
    requires n >= 0.0 && -Ulp(n) <= p - n
    ensures p >= 0.0
  {}

  /** A relative error keeps its size when the value is scaled. */
  lemma ScaledUlp(v: real, w: real, m: real, vm: real, wm: real)
    requires m >= 0.0 && -Ulp(v) <= w - v <= Ulp(v) && vm == v * m && wm == w * m
    ensures -Ulp(vm) <= wm - vm <= Ulp(vm)
  {
    Scaled(v, w, m, Ulp(v));
    assert Ulp(v) * m == Ulp(v * m);
  }

  /** `parse_credits` is exact whenever the decimal times the multiplier is an integer
      below 2^51. */
  lemma ParseExact(value: string, fl: real -> real, number: real, m: nat, n: nat)
    requires RoundsToNearest(fl) && MatchCredit(Strip(value)) == Some((number, m))
    requires number >= 0.0 && number * m as real == n as real && n < 0x8_0000_0000_0000
    ensures ParseCredits(value, fl) == Some(n)
  {
    hide *;
    ParseMatched(value, fl, number, m);
    CreditExact(fl, number, m, n);
  }

  lemma CreditExact(fl: real -> real, number: real, m: nat, n: nat)
    requires RoundsToNearest(fl) && number >= 0.0 && number * m as real == n as real && n < 0x8_0000_0000_0000
    ensures CreditValue(number, m, fl) == n
  {
    TwoRoundings(fl, number, m as real, n, Times(fl(number), m));
  }

  lemma ParseMatched(value: string, fl: real -> real, number: real, m: nat)
    requires MatchCredit(Strip(value)) == Some((number, m))
    ensures ParseCredits(value, fl) == Some(CreditValue(number, m, fl))
  {
    EmptyDoesNotMatch(Strip(value));
    hide MatchCredit, Strip, CreditValue;
  }

  lemma EmptyDoesNotMatch(s: string)
    requires MatchCredit(s).Some?
    ensures s != ""
  {}

  /** A number of tenths as `round(x, 1)` prints it. */
  function Tenths(t: nat): string {
    Text(t / 10, Ten) + "." + [Digit(t % 10)]
  }

  /** The unit `format_credits` picks for a non-negative amount. */
  function UnitOf(x: nat): (string, nat) {
    if x >= 1_000_000_000 then ("b", 1_000_000_000)
    else if x >= 1_000_000 then ("m", 1_000_000)
    else if x >= 1_000 then ("k", 1_000)
    else ("", 1)
  }

  /** The tenths of a unit printed for an amount. */
  function TenthsOf(x: nat, unit: nat, fl: real -> real): int
    requires unit >= 1
  {
    Round(10.0 * fl(x as real / unit as real))
  }

  /** `format_credits` on integers; the sign is the only thing negative amounts add. */
  function FormatCredits(x: int, fl: real -> real): string {
    var v := if x < 0 then -x else x;
    var (letter, unit) := UnitOf(v);
    var body := if unit == 1 then Text(v, Ten) else
      var t := TenthsOf(v, unit, fl);
      Tenths(if t < 0 then 0 else t) + letter;
    (if x < 0 then "-" else "") + body
  }

  /** r approximates x / 20h, t is 10r rounded: then t stands for x to within half a
      tenth of the unit. The float error never reaches across a tie, because amounts
      are whole. */
  lemma TieSafe(x: nat, h: nat, v: real, r: real, t: int)
    requires h >= 1 && v * (20 * h) as real == x as real && x < 0x20_0000_0000_0000
    requires -Ulp(v) <= r - v <= Ulp(v)
    requires -0.5 <= t as real - 10.0 * r <= 0.5
    ensures x - h <= 2 * h * t <= x + h
  {
    hide Ulp;
    ScaledUlp(v, r, (20 * h) as real, x as real, r * (20 * h) as real);
    SmallUlp(x);
    TenthsTimesHalf(h, r, t, r * (20 * h) as real);
  }

  lemma TenthsTimesHalf(h: nat, r: real, t: int, ru: real)
    requires -0.5 <= t as real - 10.0 * r <= 0.5 && ru == r * (20 * h) as real
    ensures ru - h as real <= (2 * h * t) as real <= ru + h as real
  {
    var half := (2 * h) as real;
    Scaled(10.0 * r, t as real, half, 0.5);
    assert 10.0 * r * half == ru;
    assert t as real * half == (2 * h * t) as real;
    assert 0.5 * half == h as real;
  }

  lemma SmallUlp(x: nat)
    requires x < 0x20_0000_0000_0000
    ensures Ulp(x as real) < 1.0
  {}

  lemma TenthsError(x: nat, unit: nat, fl: real -> real)
    requires RoundsToNearest(fl) && x < 0x20_0000_0000_0000
    requires unit >= 20 && unit % 20 == 0
    ensures var t := TenthsOf(x, unit, fl);
      t >= 0 && x - unit / 20 <= unit / 10 * t <= x + unit / 20
  {
    var h, v := unit / 20, x as real / unit as real;
    var r, t := fl(v), TenthsOf(x, unit, fl);
    Rounded(fl, v);
    assert v * (20 * h) as real == x as real;
    TieSafe(x, h, v, r, t);
    PositiveAfterRounding(v, r);
    assert unit / 10 == 2 * h;
  }

  lemma StripSolid(s: string)
    requires s != "" ==> !IsSpace(s[0]) && !IsSpace(s[|s| - 1])
    ensures Strip(s) == s
  {}

  lemma DecimalSlices(q: string, d: string, letter: string, s: string)
    requires s == q + ("." + (d + letter))
    ensures |s| == |q| + 1 + |d| + |letter| && s[|q|] == '.'
    ensures s[..|q|] == q && s[|q| + 1..] == d + letter && s[|q| + 1..][..|d|] == d
    ensures s[|q| + 1 + |d|..] == letter
  {}

  lemma UnitIsSolid(letter: string, m: nat)
    requires Multiplier(letter) == Some(m) && letter != ""
    ensures LeftStrip(letter) == letter && !IsDigit(letter[0], Ten) && |letter| == 1 && !IsSpace(letter[0])
  {}

  lemma NotADigit(c: char, s: string)
    requires c == '.'
    ensures ("." + s)[0] == c && !IsDigit(c, Ten)
  {}

  lemma NumberWithPoint(s: string, w: nat, f: nat)
    requires Run(s) == w < |s| && s[w] == '.' && Run(s[w + 1..]) == f > 0
    ensures IsText(s[..w], Ten) && IsText(s[w + 1..][..f], Ten)
    ensures Number(s) == (Value(s[..w], Ten) as real + Fraction(s[w + 1..][..f]), w + 1 + f)
  {
    hide Run, Value, Fraction;
  }

  lemma RunsOfDecimal(q: string, d: string, letter: string, s: string)
    requires IsText(q, Ten) && IsText(d, Ten)
    requires letter != "" && !IsDigit(letter[0], Ten) && s == q + ("." + (d + letter))
    ensures Run(s) == |q| < |s| && Run(s[|q| + 1..]) == |d|
  {
    hide *;
    NotADigit('.', d + letter);
    RunOfText(q, "." + (d + letter));
    RunOfText(d, letter);
    DecimalSlices(q, d, letter, s);
  }

  lemma NumberOfDecimal(q: string, d: string, letter: string, s: string)
    requires q != "" && d != "" && IsText(q, Ten) && IsText(d, Ten)
    requires letter != "" && !IsDigit(letter[0], Ten) && s == q + ("." + (d + letter))
    ensures Run(s) == |q| && Number(s) == (Value(q, Ten) as real + Fraction(d), |q| + 1 + |d|)
    ensures |q| + 1 + |d| <= |s| && s[|q| + 1 + |d|..] == letter
  {
    hide *;
    RunsOfDecimal(q, d, letter, s);
    DecimalSlices(q, d, letter, s);
    NumberParts(s, q, d);
  }

  lemma NumberParts(s: string, q: string, d: string)
    requires d != "" && IsText(q, Ten) && IsText(d, Ten)
    requires Run(s) == |q| < |s| && s[|q|] == '.' && Run(s[|q| + 1..]) == |d|
    requires s[..|q|] == q && s[|q| + 1..][..|d|] == d
    ensures Number(s) == (Value(q, Ten) as real + Fraction(d), |q| + 1 + |d|)
  {
    hide *;
    NumberWithPoint(s, |q|, |d|);
  }

  lemma TenthsAreSolid(t: nat, letter: string, m: nat)
    requires Multiplier(letter) == Some(m) && letter != ""
    ensures Strip(Tenths(t) + letter) == Tenths(t) + letter
    ensures Tenths(t) + letter == Text(t / 10, Ten) + ("." + ([Digit(t % 10)] + letter))
  {
    UnitIsSolid(letter, m);
    hide Strip, Multiplier;
    StripSolid(Tenths(t) + letter);
  }

  lemma MatchNumber(s: string, number: real, end: nat, letter: string, m: nat)
    requires Run(s) > 0 && Number(s) == (number, end) && s[end..] == letter
    requires LeftStrip(letter) == letter && Multiplier(letter) == Some(m)
    ensures MatchCredit(s) == Some((number, m))
  {}

  lemma MatchTenths(t: nat, letter: string, m: nat)
    requires Multiplier(letter) == Some(m) && letter != ""
    ensures MatchCredit(Tenths(t) + letter) == Some((t as real / 10.0, m))
    ensures Strip(Tenths(t) + letter) == Tenths(t) + letter
  {
    hide *;
    var q, d := Text(t / 10, Ten), [Digit(t % 10)];
    var s := Tenths(t) + letter;
    TenthsAreSolid(t, letter, m);
    UnitIsSolid(letter, m);
    OneDigit(t % 10);
    NumberOfDecimal(q, d, letter, s);
    ValueOfText(t / 10, Ten);
    assert (t / 10) as real + (t % 10) as real / 10.0 == t as real / 10.0;
    MatchNumber(s, t as real / 10.0, |q| + 1 + |d|, letter, m);
  }

  lemma OneDigit(d: nat)
    requires d < 10
    ensures IsText([Digit(d)], Ten) && Fraction([Digit(d)]) == d as real / 10.0
  {
    var s := [Digit(d)];
    assert Value(s, Ten) == d by { assert s[..0] == []; }
    assert Pow10(1) == 10;
  }

  lemma MatchWhole(x: nat)
    ensures MatchCredit(Text(x, Ten)) == Some((x as real, 1))
    ensures Strip(Text(x, Ten)) == Text(x, Ten)
  {
    var digits := Text(x, Ten);
    StripSolid(digits);
    RunOfText(digits, "");
    assert digits + "" == digits && digits[..|digits|] == digits;
    ValueOfText(x, Ten);
  }

  /** The texts of the credit pattern: digits, perhaps a point and more digits, space, and
      perhaps a letter. */
  ghost predicate IsCredit(s: string, whole: string, tenths: string, space: string, unit: string) {
    && s == whole + ((if tenths == "" then "" else "." + tenths) + (space + unit))
    && whole != "" && IsText(whole, Ten) && IsText(tenths, Ten) && forall i | 0 <= i < |space| :: IsSpace(space[i])
  }

  /** What a text of the pattern denotes. */
  lemma CreditMatches(s: string, whole: string, tenths: string, space: string, unit: string)
    requires IsCredit(s, whole, tenths, space, unit) && unit in ["", "k", "K", "m", "M", "b", "B"]
    ensures
      var m := match unit
        case "" => 1
        case "k" => 1_000 case "K" => 1_000
        case "m" => 1_000_000 case "M" => 1_000_000
        case _ => 1_000_000_000;
      MatchCredit(s) == Some((Value(whole, Ten) as real + Fraction(tenths), m))
  {
    hide IsText, Run, LeftStrip, Fraction, Number, MatchCredit, Value, Multiplier, IsSpace, IsDigit;
    var rest := (if tenths == "" then "" else "." + tenths) + (space + unit);
    var end := space + unit;
    EndOfCredit(space, unit);
    UnitMultiplier(unit);
    NotADigit('.', "");
    LeftStripSpace(space, unit);
    RunOfText(whole, rest);
    assert s[..|whole|] == whole && s[|whole|..] == rest;
    if tenths == "" {
      assert rest == end;
      NoTenths(tenths);
      NumberWithoutPoint(s, |whole|);
      MatchNumberSpace(s, Value(whole, Ten) as real, |whole|, unit);
    } else {
      RunOfText(tenths, end);
      assert s == whole + ("." + (tenths + end));
      DecimalSlices(whole, tenths, end, s);
      NumberWithPoint(s, |whole|, |tenths|);
      MatchNumberSpace(s, Value(whole, Ten) as real + Fraction(tenths), |whole| + 1 + |tenths|, unit);
    }
  }

  /** Nothing else matches. */
  lemma MatchIsCredit(s: string) returns (whole: string, tenths: string, space: string, unit: string)
    requires MatchCredit(s).Some?
    ensures IsCredit(s, whole, tenths, space, unit) && unit in ["", "k", "K", "m", "M", "b", "B"]
  {
    hide IsText, LeftStrip, Run, Number;
    var w, end := Run(s), Number(s).1;
    whole, unit := s[..w], LeftStrip(s[end..]);
    tenths := NumberIsText(s);
    space := LeftSpace(s[end..]);
  }

  lemma NumberIsText(s: string) returns (tenths: string)
    ensures IsText(tenths, Ten)
    ensures s == s[..Run(s)] + ((if tenths == "" then "" else "." + tenths) + s[Number(s).1..])
  {
    hide IsText, Run, Value, Fraction;
    var w := Run(s);
    if w < |s| && s[w] == '.' && Run(s[w + 1..]) > 0 {
      tenths := s[w + 1..][..Run(s[w + 1..])];
    } else {
      tenths := "";
      NoTenths(tenths);
    }
  }

  lemma {:induction false} LeftSpace(s: string) returns (space: string)
    ensures s == space + LeftStrip(s) && forall i | 0 <= i < |space| :: IsSpace(space[i])
  {
    if s == "" || !IsSpace(s[0]) {
      space := "";
    } else {
      space := LeftSpace(s[1..]);
      space := [s[0]] + space;
    }
  }

  lemma EndOfCredit(space: string, unit: string)
    requires (forall i | 0 <= i < |space| :: IsSpace(space[i])) && unit in ["", "k", "K", "m", "M", "b", "B"]
    ensures space + unit == "" || (!IsDigit((space + unit)[0], Ten) && (space + unit)[0] != '.')
    ensures unit == "" || !IsSpace(unit[0])
  {}

  lemma UnitMultiplier(unit: string)
    requires unit in ["", "k", "K", "m", "M", "b", "B"]
    ensures Multiplier(unit) == Some(match unit
        case "" => 1
        case "k" => 1_000 case "K" => 1_000
        case "m" => 1_000_000 case "M" => 1_000_000
        case _ => 1_000_000_000)
  {}

  lemma NoTenths(tenths: string)
    requires tenths == ""
    ensures IsText(tenths, Ten) && Fraction(tenths) == 0.0
  {}

  lemma {:induction false} LeftStripSpace(space: string, rest: string)
    requires (forall i | 0 <= i < |space| :: IsSpace(space[i])) && (rest == "" || !IsSpace(rest[0]))
    ensures LeftStrip(space + rest) == rest
  {
    if space == "" {
      assert space + rest == rest;
    } else {
      assert (space + rest)[1..] == space[1..] + rest;
      LeftStripSpace(space[1..], rest);
    }
  }

  lemma NumberWithoutPoint(s: string, w: nat)
    requires Run(s) == w <= |s| && (w == |s| || s[w] != '.')
    ensures IsText(s[..w], Ten) && Number(s) == (Value(s[..w], Ten) as real, w)
  {}

  lemma MatchNumberSpace(s: string, number: real, end: nat, unit: string)
    requires Run(s) > 0 && Number(s) == (number, end) && LeftStrip(s[end..]) == unit && Multiplier(unit).Some?
    ensures MatchCredit(s) == Some((number, Multiplier(unit).value))
  {}

  lemma UnitFacts(letter: string, unit: nat)
    requires Multiplier(letter) == Some(unit) && letter != ""
    ensures unit >= 20 && unit % 20 == 0 && unit / 20 <= 50_000_000
  {}

  lemma TenthsTimesUnit(t: nat, unit: nat, n: nat)
    requires unit % 10 == 0 && n == unit / 10 * t
    ensures t as real / 10.0 * unit as real == n as real
  {
    assert unit as real == (unit / 10) as real * 10.0;
  }

  /** The amount that printed tenths stand for. */
  lemma AmountOfTenths(x: nat, letter: string, unit: nat, fl: real -> real) returns (n: nat, number: real)
    requires RoundsToNearest(fl) && x < 0x4_0000_0000_0000
    requires Multiplier(letter) == Some(unit) && letter != ""
    ensures unit >= 1 && TenthsOf(x, unit, fl) >= 0
    ensures number == TenthsOf(x, unit, fl) as real / 10.0 && number >= 0.0 && number * unit as real == n as real
    ensures x - unit / 20 <= n <= x + unit / 20 && n < 0x8_0000_0000_0000
  {
    UnitFacts(letter, unit);
    hide *;
    TenthsError(x, unit, fl);
    var t := TenthsOf(x, unit, fl);
    n, number := unit / 10 * t, t as real / 10.0;
    TenthsTimesUnit(t, unit, n);
  }

  lemma PrintedTenths(x: nat, letter: string, unit: nat, fl: real -> real)
    requires RoundsToNearest(fl) && x < 0x4_0000_0000_0000
    requires Multiplier(letter) == Some(unit) && letter != ""
    ensures unit >= 1 && TenthsOf(x, unit, fl) >= 0
    ensures var back := ParseCredits(Tenths(TenthsOf(x, unit, fl)) + letter, fl);
      back.Some? && x - unit / 20 <= back.value <= x + unit / 20
  {
    hide *;
    var n, number := AmountOfTenths(x, letter, unit, fl);
    MatchTenths(TenthsOf(x, unit, fl), letter, unit);
    ParseExact(Tenths(TenthsOf(x, unit, fl)) + letter, fl, number, unit, n);
  }

  /** What is printed: a whole amount below 1000, else tenths of a thousand, a million or
      a billion that are within a twentieth of that unit. */
  lemma PrintedExact(x: int, fl: real -> real)
    requires RoundsToNearest(fl) && 0 <= x < 0x20_0000_0000_0000
    ensures x < 1_000 ==> FormatCredits(x, fl) == Text(x, Ten)
    ensures 1_000 <= x < 1_000_000 ==> exists t: nat ::
              FormatCredits(x, fl) == Tenths(t) + "k" && x - 50 <= 100 * t <= x + 50
    ensures 1_000_000 <= x < 1_000_000_000 ==> exists t: nat ::
              FormatCredits(x, fl) == Tenths(t) + "m" && x - 50_000 <= 100_000 * t <= x + 50_000
    ensures 1_000_000_000 <= x ==> exists t: nat ::
              FormatCredits(x, fl) == Tenths(t) + "b" && x - 50_000_000 <= 100_000_000 * t <= x + 50_000_000
    ensures x > 0 ==> FormatCredits(-x, fl) == "-" + FormatCredits(x, fl)
  {
    hide TenthsOf, Tenths, RoundsToNearest;
    var (letter, unit) := UnitOf(x);
    if unit >= 20 {
      TenthsError(x, unit, fl);
      var t: nat := TenthsOf(x, unit, fl);
      assert FormatCredits(x, fl) == Tenths(t) + letter;
    }
  }

  /** Printing an amount below 2^50 and reading it back is exact below 1000, and else off
      by at most a twentieth of a thousand, a million or a billion. */
  lemma CreditsRoundTrip(x: nat, fl: real -> real)
    requires RoundsToNearest(fl) && x < 0x4_0000_0000_0000
    ensures var back := ParseCredits(FormatCredits(x, fl), fl);
      var off := if x < 1_000 then 0 else if x < 1_000_000 then 50
                 else if x < 1_000_000_000 then 50_000 else 50_000_000;
      back.Some? && x - off <= back.value <= x + off
  {
    var (letter, unit) := UnitOf(x);
    hide MatchCredit, Strip, TenthsOf, Tenths, ParseCredits, RoundsToNearest;
    assert Multiplier(letter) == Some(unit);
    if unit == 1 {
      MatchWhole(x);
      assert FormatCredits(x, fl) == Text(x, Ten);
      ParseExact(Text(x, Ten), fl, x as real, 1, x);
    } else {
      PrintedTenths(x, letter, unit, fl);
      assert FormatCredits(x, fl) == Tenths(TenthsOf(x, unit, fl)) + letter;
    }
  }
}
