/** Byte strings, the fixed-width integers the source packs into them with
    `struct`, and their hexadecimal text. */
module Bytes {
  import opened Wrappers
  import Digits

  type byte = x: nat | x < 0x100

  type bytes = seq<byte>

  /** `struct.pack(">H", n)`. */
  function Pack16(n: nat): (b: bytes)
    requires n < 0x1_0000
    ensures |b| == 2
  {
    [n / 0x100, n % 0x100]
  }

  /** `struct.unpack(">H", b)`. */
  function Unpack16(b: bytes): (n: nat)
    requires |b| == 2
    ensures n < 0x1_0000
  {
    var hi: nat, lo: nat := b[0], b[1];
    hi * 0x100 + lo
  }

  lemma Pack16Inverse(n: nat)
    requires n < 0x1_0000
    ensures Unpack16(Pack16(n)) == n
  {}

  lemma Unpack16Inverse(b: bytes)
    requires |b| == 2
    ensures Pack16(Unpack16(b)) == b
  {}

  /** `struct.pack(">I", n)`. */
  function Pack32(n: nat): (b: bytes)
    requires n < 0x1_0000_0000
    ensures |b| == 4
  {
    Pack16(n / 0x1_0000) + Pack16(n % 0x1_0000)
  }

  /** `struct.unpack(">I", b)`. */
  function Unpack32(b: bytes): (n: nat)
    requires |b| == 4
    ensures n < 0x1_0000_0000
  {
    Unpack16(b[..2]) * 0x1_0000 + Unpack16(b[2..])
  }

  /** The most significant byte comes first. */
  lemma Unpack32Exact(b: bytes)
    requires |b| == 4
    ensures
      var b0: nat, b1: nat, b2: nat, b3: nat := b[0], b[1], b[2], b[3];
      Unpack32(b) == 0x100_0000 * b0 + 0x1_0000 * b1 + 0x100 * b2 + b3
  {
    assert b[2..][0] == b[2] && b[2..][1] == b[3];
  }

  lemma Pack32Inverse(n: nat)
    requires n < 0x1_0000_0000
    ensures Unpack32(Pack32(n)) == n
  {
    hide Pack16, Unpack16;
    var hi, lo := Pack16(n / 0x1_0000), Pack16(n % 0x1_0000);
    assert (hi + lo)[..2] == hi && (hi + lo)[2..] == lo;
    Pack16Inverse(n / 0x1_0000);
    Pack16Inverse(n % 0x1_0000);
  }

  lemma Unpack32Inverse(b: bytes)
    requires |b| == 4
    ensures Pack32(Unpack32(b)) == b
  {
    hide Pack16, Unpack16;
    Unpack16Inverse(b[..2]);
    Unpack16Inverse(b[2..]);
    TwoHalves(Unpack16(b[..2]), Unpack16(b[2..]));
    assert b == b[..2] + b[2..];
  }

  lemma TwoHalves(hi: nat, lo: nat)
    requires lo < 0x1_0000
    ensures (hi * 0x1_0000 + lo) / 0x1_0000 == hi && (hi * 0x1_0000 + lo) % 0x1_0000 == lo
  {}

  /** One word of `struct.unpack("<4I", ...)`: the first byte is the least significant. */
  function UnpackLittle32(b: bytes): (n: nat)
    requires |b| == 4
    ensures n < 0x1_0000_0000
  {
    Unpack32([b[3], b[2], b[1], b[0]])
  }

  /** `struct.pack("<I", n)`. */
  function PackLittle32(n: nat): (b: bytes)
    requires n < 0x1_0000_0000
    ensures |b| == 4
  {
    var p := Pack32(n);
    [p[3], p[2], p[1], p[0]]
  }

  lemma UnpackLittle32Exact(b: bytes)
    requires |b| == 4
    ensures
      var b0: nat, b1: nat, b2: nat, b3: nat := b[0], b[1], b[2], b[3];
      UnpackLittle32(b) == b0 + 0x100 * b1 + 0x1_0000 * b2 + 0x100_0000 * b3
  {
    hide Unpack32;
    Unpack32Exact([b[3], b[2], b[1], b[0]]);
  }

  lemma PackLittle32Inverse(n: nat)
    requires n < 0x1_0000_0000
    ensures UnpackLittle32(PackLittle32(n)) == n
  {
    Pack32Inverse(n);
    var p := Pack32(n);
    assert [p[0], p[1], p[2], p[3]] == p;
  }

  lemma UnpackLittle32Inverse(b: bytes)
    requires |b| == 4
    ensures PackLittle32(UnpackLittle32(b)) == b
  {
    Unpack32Inverse([b[3], b[2], b[1], b[0]]);
  }

  /** `bytes.hex()`: two lowercase digits a byte. */
  function ToHex(b: bytes): (s: string)
    ensures |s| == 2 * |b|
    ensures Digits.IsText(s, Digits.Sixteen)
  {
    if b == [] then "" else [Digits.Digit(b[0] / 16), Digits.Digit(b[0] % 16)] + ToHex(b[1..])
  }

  /** `bytes.fromhex(s)` for a text without white space; None where it raises. */
  function FromHex(s: string): (r: Option<bytes>)
    ensures r.Some? ==> |s| == 2 * |r.value|
    ensures |s| % 2 == 0 && Digits.IsText(s, Digits.Sixteen) ==> r.Some?
  {
    if s == "" then Some([])
    else if |s| == 1 || !Digits.IsText(s[..2], Digits.Sixteen) then None
    else
      var b := Digits.DigitValue(s[0], Digits.Sixteen) * 16 + Digits.DigitValue(s[1], Digits.Sixteen);
      match FromHex(s[2..])
      case None => None
      case Some(rest) => Some([b] + rest)
  }

  lemma HexPair(n: nat)
    requires n < 0x100
    ensures
      var hi, lo := Digits.Digit(n / 16), Digits.Digit(n % 16);
      && Digits.IsDigit(hi, Digits.Sixteen) && Digits.IsDigit(lo, Digits.Sixteen)
      && Digits.DigitValue(hi, Digits.Sixteen) * 16 + Digits.DigitValue(lo, Digits.Sixteen) == n
  {}

  lemma ToHexUnfold(b: bytes)
    requires b != []
    ensures ToHex(b) == [Digits.Digit(b[0] / 16), Digits.Digit(b[0] % 16)] + ToHex(b[1..])
  {
    hide Digits.Digit;
  }

  lemma FromHexUnfold(hi: char, lo: char, s: string)
    requires Digits.IsDigit(hi, Digits.Sixteen) && Digits.IsDigit(lo, Digits.Sixteen)
    ensures
      var n := Digits.DigitValue(hi, Digits.Sixteen) * 16 + Digits.DigitValue(lo, Digits.Sixteen);
      FromHex([hi, lo] + s) == match FromHex(s) case None => None case Some(rest) => Some([n] + rest)
  {
    hide Digits.DigitValue, Digits.IsDigit;
    var t := [hi, lo] + s;
    assert t[..2] == [hi, lo] && t[2..] == s;
    assert Digits.IsText([hi, lo], Digits.Sixteen);
  }

  lemma NoHex()
    ensures FromHex(ToHex([])) == Some([]) && ToHex([]) == []
  {}

  lemma {:induction false} FromHexOfHex(b: bytes)
    ensures FromHex(ToHex(b)) == Some(b)
  {
    hide *;
    if b != [] {
      var rest := b[1..];
      HexPair(b[0]);
      ToHexUnfold(b);
      FromHexUnfold(Digits.Digit(b[0] / 16), Digits.Digit(b[0] % 16), ToHex(rest));
      FromHexOfHex(rest);
      assert b == [b[0]] + rest;
    } else {
      NoHex();
    }
  }

  lemma {:induction false} ToHexConcat(a: bytes, b: bytes)
    ensures ToHex(a + b) == ToHex(a) + ToHex(b)
  {
    hide *;
    if a == [] {
      assert a + b == b;
      NoHex();
    } else {
      ToHexUnfold(a);
      ToHexUnfold(a + b);
      ToHexConcat(a[1..], b);
      assert (a + b)[1..] == a[1..] + b;
    }
  }
}
