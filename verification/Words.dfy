/** 32-bit words as integers: addition and subtraction wrap, exclusive or works on
    the binary digits. */
module Words {
  import opened Powers

  const WORD: nat := 0x1_0000_0000

  type word = x: nat | x < 0x1_0000_0000

  function Plus(x: word, y: word): word {
    (x + y) % WORD
  }

  function Minus(x: word, y: word): word {
    (x - y) % WORD
  }

  lemma MinusPlus(x: word, y: word)
    ensures Minus(Plus(x, y), y) == x && Plus(Minus(x, y), y) == x
  {}

  function Left4(x: word): word {
    x * 16 % WORD
  }

  function Right5(x: word): word {
    x / 32
  }

  /** Python's `a ^ b` on non-negative integers. */
  function Xor(a: nat, b: nat): nat
    decreases a + b
  {
    if a == 0 && b == 0 then 0 else (a + b) % 2 + 2 * Xor(a / 2, b / 2)
  }

  /** The last binary digit of a ^ b, and the other digits. */
  lemma XorStep(a: nat, b: nat)
    ensures Xor(a, b) / 2 == Xor(a / 2, b / 2) && Xor(a, b) % 2 == (a + b) % 2
  {}

  /** The digit of weight 2^i. */
  function Bit(x: nat, i: nat): nat {
    x / Pow2(i) % 2
  }

  lemma BitStep(x: nat, i: nat)
    ensures Bit(x, i) == if i == 0 then x % 2 else Bit(x / 2, i - 1)
  {
    if i > 0 {
      HalfFirst(x, Pow2(i - 1));
    }
  }

  /** Every binary digit of a ^ b is 1 exactly when those of a and b differ. */
  lemma {:induction false} XorDigits(a: nat, b: nat, i: nat)
    ensures Bit(Xor(a, b), i) == (Bit(a, i) + Bit(b, i)) % 2
    decreases i
  {
    hide *;
    XorStep(a, b);
    BitStep(a, i);
    BitStep(b, i);
    BitStep(Xor(a, b), i);
    if i == 0 {
      LastDigits(a, b, Xor(a, b));
    } else {
      XorDigits(a / 2, b / 2, i - 1);
    }
  }

  lemma LastDigits(a: nat, b: nat, c: nat)
    requires c % 2 == (a + b) % 2
    ensures c % 2 == (a % 2 + b % 2) % 2
  {}

  lemma HalfFirst(x: nat, p: nat)
    requires p >= 1
    ensures x / (2 * p) == x / 2 / p
  {
    var q, t := x / 2 / p, x / 2 % p;
    assert x / 2 == q * p + t;
    QuotientUnique(x, q, 2 * t + x % 2, 2 * p) by {
      assert x == 2 * (x / 2) + x % 2;
      assert q * (2 * p) == 2 * (q * p);
    }
  }

  lemma ParityOfSum(a: nat, b: nat, c: nat)
    requires c % 2 == (a + b) % 2
    ensures (c + b) % 2 == a % 2
  {}

  lemma SameHalves(x: nat, y: nat)
    requires x / 2 == y / 2 && x % 2 == y % 2
    ensures x == y
  {}

  lemma {:induction false} XorTwice(a: nat, b: nat)
    ensures Xor(Xor(a, b), b) == a
    decreases a + b
  {
    if a == 0 && b == 0 {
      assert Xor(0, 0) == 0;
    } else {
      hide Xor;
      var c := Xor(a, b);
      XorStep(a, b);
      XorStep(c, b);
      XorTwice(a / 2, b / 2);
      ParityOfSum(a, b, c);
      SameHalves(Xor(c, b), a);
    }
  }

  lemma {:induction false} XorBound(a: nat, b: nat, n: nat)
    requires a < Pow2(n) && b < Pow2(n)
    ensures Xor(a, b) < Pow2(n)
    decreases n
  {
    if n > 0 && (a != 0 || b != 0) {
      XorBound(a / 2, b / 2, n - 1);
    }
  }

  function WordXor(x: word, y: word): word {
    assert Pow2(32) == WORD by {
      assert Pow2(8) == 0x100;
      assert Pow2(16) == 0x1_0000;
      assert Pow2(24) == 0x100_0000;
    }
    XorBound(x, y, 32);
    Xor(x, y)
  }

  lemma WordXorTwice(x: word, y: word)
    ensures WordXor(WordXor(x, y), y) == x
  {
    XorTwice(x, y);
  }
}
