/** The block permutation and its chaining (`aochat/crypto.py`), against two
    published forms: the TEA round on 32-bit words and CBC mode with a zero
    initial vector (section 6.2 of NIST SP 800-38A). */
module Cipher {
  import opened Words

  datatype Key = Key(k1: word, k2: word, k3: word, k4: word)

  datatype Block = Block(w0: word, w1: word)

  const DELTA: word := 0x9E3779B9
  const ROUNDS: nat := 32
  const ZERO: Block := Block(0, 0)

  function Xor(a: Block, b: Block): Block {
    Block(WordXor(a.w0, b.w0), WordXor(a.w1, b.w1))
  }

  // ---- the reference: TEA ----

  function Mix(w: word, sum: word, ka: word, kb: word): word {
    WordXor(WordXor(Plus(Left4(w), ka), Plus(w, sum)), Plus(Right5(w), kb))
  }

  function Round(v: Block, sum: word, k: Key): Block {
    var w0 := Plus(v.w0, Mix(v.w1, sum, k.k1, k.k2));
    Block(w0, Plus(v.w1, Mix(w0, sum, k.k3, k.k4)))
  }

  function Unround(v: Block, sum: word, k: Key): Block {
    var w1 := Minus(v.w1, Mix(v.w0, sum, k.k3, k.k4));
    Block(Minus(v.w0, Mix(w1, sum, k.k1, k.k2)), w1)
  }

  function Sum(n: nat): word {
    if n == 0 then 0 else Plus(Sum(n - 1), DELTA)
  }

  function Rounds(v: Block, n: nat, k: Key): Block {
    if n == 0 then v else Round(Rounds(v, n - 1, k), Sum(n), k)
  }

  /** The same rounds taken back, last one first. */
  function Unrounds(v: Block, n: nat, k: Key): Block
    decreases n, v
  {
    if n == 0 then v else Unrounds(Unround(v, Sum(n), k), n - 1, k)
  }

  function Tea(v: Block, k: Key): Block {
    Rounds(v, ROUNDS, k)
  }

  function Untea(v: Block, k: Key): Block {
    Unrounds(v, ROUNDS, k)
  }

  /** The published term: ((w << 4) + ka) ^ (w + sum) ^ ((w >> 5) + kb) on 32 bits. */
  lemma MixExact(w: word, sum: word, ka: word, kb: word)
    ensures Mix(w, sum, ka, kb) == Words.Xor(Words.Xor((w * 16 + ka) % 0x1_0000_0000, (w + sum) % 0x1_0000_0000),
                                             (w / 32 + kb) % 0x1_0000_0000)
  {
    hide Words.Xor;
    AddAfterWrap(w * 16, ka);
  }

  lemma {:induction false} SumIs(n: nat)
    ensures Sum(n) == n * 0x9E3779B9 % 0x1_0000_0000
  {
    if n > 0 {
      SumIs(n - 1);
      AddAfterWrap((n - 1) * 0x9E3779B9, 0x9E3779B9);
    }
  }

  lemma AddAfterWrap(a: nat, b: nat)
    ensures (a % 0x1_0000_0000 + b) % 0x1_0000_0000 == (a + b) % 0x1_0000_0000
  {}

  /** The rounds of the published cipher: n goes from 0 to 31, and the first half of the key
      mixes into the first word, the second half into the second. */
  lemma RoundExact(v: Block, n: nat, k: Key)
    ensures
      var before, after := Rounds(v, n, k), Rounds(v, n + 1, k);
      var sum := (n + 1) * 0x9E3779B9 % 0x1_0000_0000;
      && after.w0 == (before.w0 + Mix(before.w1, sum, k.k1, k.k2)) % 0x1_0000_0000
      && after.w1 == (before.w1 + Mix(after.w0, sum, k.k3, k.k4)) % 0x1_0000_0000
    ensures Rounds(v, 0, k) == v && Tea(v, k) == Rounds(v, 32, k)
  {
    hide Mix;
    SumIs(n + 1);
  }

  lemma UnroundRound(v: Block, sum: word, k: Key)
    ensures Unround(Round(v, sum, k), sum, k) == v
    ensures Round(Unround(v, sum, k), sum, k) == v
  {
    var r, u := Round(v, sum, k), Unround(v, sum, k);
    MinusPlus(v.w1, Mix(r.w0, sum, k.k3, k.k4));
    MinusPlus(v.w0, Mix(v.w1, sum, k.k1, k.k2));
    MinusPlus(v.w1, Mix(v.w0, sum, k.k3, k.k4));
    MinusPlus(v.w0, Mix(u.w1, sum, k.k1, k.k2));
  }

  lemma {:induction false} UnroundsRounds(v: Block, n: nat, k: Key)
    ensures Unrounds(Rounds(v, n, k), n, k) == v
    decreases n
  {
    hide Round, Unround, Sum;
    if n > 0 {
      UnroundRound(Rounds(v, n - 1, k), Sum(n), k);
      UnroundsRounds(v, n - 1, k);
    }
  }

  lemma {:induction false} RoundsUnrounds(v: Block, n: nat, k: Key)
    ensures Rounds(Unrounds(v, n, k), n, k) == v
    decreases n
  {
    hide Round, Unround, Sum;
    if n > 0 {
      UnroundRound(v, Sum(n), k);
      RoundsUnrounds(Unround(v, Sum(n), k), n - 1, k);
    }
  }

  /** For every key the permutation is a bijection on blocks: it has a two-sided inverse. */
  lemma PermutationIsBijective(v: Block, k: Key)
    ensures Untea(Tea(v, k), k) == v
    ensures Tea(Untea(v, k), k) == v
  {
    UnroundsRounds(v, ROUNDS, k);
    RoundsUnrounds(v, ROUNDS, k);
  }

  lemma TeaInjective(v: Block, w: Block, k: Key)
    ensures Tea(v, k) == Tea(w, k) <==> v == w
  {
    PermutationIsBijective(v, k);
    PermutationIsBijective(w, k);
  }

  // ---- the source's form: integers cut back by masks ----

  /** The bits masked off after a shift are never set. */
  lemma MasksKeepEverything(b: word)
    ensures b * 16 % WORD % 16 == 0 && b / 32 % 0x0800_0000 == b / 32
  {
    var q := b * 16 / WORD;
    assert b * 16 % WORD == 16 * (b - q * 0x1000_0000);
  }

  /** One half of a round as the source writes it: every term masked to 32 bits, the
      bits a shift brings in masked off. */
  method Terms(b: nat, c: nat, ka: nat, kb: nat) returns (t: nat)
    requires b < WORD && c < WORD && ka < WORD && kb < WORD
    ensures t == Mix(b, c, ka, kb)
  {
    var shifted := b * 16 % WORD;
    shifted := shifted - shifted % 16;
    MasksKeepEverything(b);
    var term1 := (shifted + ka) % WORD;
    term1 := WordXor(term1, (b + c) % WORD);
    var dropped := b / 32 % 0x0800_0000;
    var term2 := (dropped + kb) % WORD;
    t := WordXor(term1, term2);
  }

  /** `_permute`. */
  method Permute(v: Block, k: Key) returns (r: Block)
    ensures r == Tea(v, k)
  {
    hide Mix;
    var a: nat, b: nat, c: nat := v.w0, v.w1, 0;
    for i := 0 to ROUNDS
      invariant a < WORD && b < WORD && c < WORD
      invariant Block(a, b) == Rounds(v, i, k) && c == Sum(i)
    {
      ghost var before := Block(a, b);
      c := (c + DELTA) % WORD;
      assert c == Sum(i + 1);
      var t := Terms(b, c, k.k1, k.k2);
      a := (a + t) % WORD;
      t := Terms(a, c, k.k3, k.k4);
      b := (b + t) % WORD;
      assert Block(a, b) == Round(before, Sum(i + 1), k);
    }
    r := Block(a, b);
  }

  // ---- chaining ----

  /** The block chained into the one that follows c. */
  function Last(c: seq<Block>): Block {
    if c == [] then ZERO else c[|c| - 1]
  }

  function Encrypt(plain: seq<Block>, k: Key): (c: seq<Block>)
    ensures |c| == |plain|
  {
    if plain == [] then [] else
      var front := Encrypt(plain[..|plain| - 1], k);
      front + [Tea(Xor(plain[|plain| - 1], Last(front)), k)]
  }

  /** CBC decryption, block by block: not part of the source, which only encrypts. */
  function Decrypt(cipher: seq<Block>, k: Key): (p: seq<Block>)
    ensures |p| == |cipher|
  {
    seq(|cipher|, i requires 0 <= i < |cipher| => Xor(Untea(cipher[i], k), Last(cipher[..i])))
  }

  lemma {:induction false} EncryptPrefix(plain: seq<Block>, k: Key, i: nat)
    requires i <= |plain|
    ensures Encrypt(plain, k)[..i] == Encrypt(plain[..i], k)
    decreases |plain|
  {
    hide Tea, Xor, Last;
    if i == |plain| {
      assert plain[..i] == plain;
    } else {
      var front := plain[..|plain| - 1];
      EncryptPrefix(front, k, i);
      assert front[..i] == plain[..i];
    }
  }

  /** The defining equation of CBC mode, at every block. */
  lemma {:induction false} EncryptIsCbc(plain: seq<Block>, k: Key, i: nat)
    requires i < |plain|
    ensures
      var c := Encrypt(plain, k);
      var prev := if i == 0 then Block(0, 0) else c[i - 1];
      c[i] == Tea(Block(WordXor(plain[i].w0, prev.w0), WordXor(plain[i].w1, prev.w1)), k)
  {
    hide Tea;
    var c, upto := Encrypt(plain, k), plain[..i + 1];
    EncryptPrefix(plain, k, i);
    EncryptPrefix(plain, k, i + 1);
    assert upto[..i] == plain[..i];
    assert c[i] == Encrypt(upto, k)[i];
  }

  lemma EncryptAppend(plain: seq<Block>, b: Block, k: Key)
    ensures Encrypt(plain + [b], k) == Encrypt(plain, k) + [Tea(Xor(b, Last(Encrypt(plain, k))), k)]
  {
    assert (plain + [b])[..|plain|] == plain;
  }

  lemma EncryptNext(plain: seq<Block>, k: Key, i: nat)
    requires i < |plain|
    ensures
      var done := Encrypt(plain[..i], k);
      Encrypt(plain[..i + 1], k) == done + [Tea(Xor(plain[i], Last(done)), k)]
  {
    assert plain[..i + 1] == plain[..i] + [plain[i]];
    EncryptAppend(plain[..i], plain[i], k);
  }

  lemma DecryptAppend(cipher: seq<Block>, b: Block, k: Key)
    ensures Decrypt(cipher + [b], k) == Decrypt(cipher, k) + [Xor(Untea(b, k), Last(cipher))]
  {
    hide Untea, Xor;
    var whole := cipher + [b];
    assert whole[..|cipher|] == cipher;
    forall i | 0 <= i < |cipher|
      ensures Decrypt(whole, k)[i] == Decrypt(cipher, k)[i]
    {
      assert whole[..i] == cipher[..i];
    }
  }

  lemma XorTwice(a: Block, b: Block)
    ensures Xor(Xor(a, b), b) == a
  {
    WordXorTwice(a.w0, b.w0);
    WordXorTwice(a.w1, b.w1);
  }

  /** One block there and back, in both orders. */
  lemma ChainStep(b: Block, prev: Block, k: Key)
    ensures Tea(Xor(Xor(Untea(b, k), prev), prev), k) == b
    ensures Xor(Untea(Tea(Xor(b, prev), k), k), prev) == b
  {
    XorTwice(Untea(b, k), prev);
    XorTwice(b, prev);
    PermutationIsBijective(b, k);
    PermutationIsBijective(Xor(b, prev), k);
  }

  /** The matching decryptor undoes the encryption, for every number of blocks. */
  lemma {:induction false} DecryptEncrypt(plain: seq<Block>, k: Key)
    ensures Decrypt(Encrypt(plain, k), k) == plain
  {
    if plain != [] {
      var front, b := plain[..|plain| - 1], plain[|plain| - 1];
      var c := Encrypt(front, k);
      assert plain == front + [b];
      DecryptEncrypt(front, k);
      EncryptAppend(front, b, k);
      DecryptAppend(c, Tea(Xor(b, Last(c)), k), k);
      ChainStep(b, Last(c), k);
    }
  }

  /** Every block sequence is a ciphertext: encryption is onto as well. */
  lemma {:induction false} EncryptDecrypt(cipher: seq<Block>, k: Key)
    ensures Encrypt(Decrypt(cipher, k), k) == cipher
  {
    if cipher != [] {
      var front, b := cipher[..|cipher| - 1], cipher[|cipher| - 1];
      assert cipher == front + [b];
      EncryptDecrypt(front, k);
      DecryptAppend(front, b, k);
      EncryptAppend(Decrypt(front, k), Xor(Untea(b, k), Last(front)), k);
      ChainStep(b, Last(front), k);
    }
  }

  /** Ciphertext block i depends on plaintext blocks 0..i only, and after a common
      prefix it tells the two plaintext blocks apart. */
  lemma BlockDependsOnPrefix(p: seq<Block>, q: seq<Block>, k: Key, i: nat)
    requires i < |p| && i < |q| && p[..i] == q[..i]
    ensures Encrypt(p, k)[i] == Encrypt(q, k)[i] <==> p[i] == q[i]
  {
    hide Tea, WordXor, Encrypt;
    EncryptIsCbc(p, k, i);
    EncryptIsCbc(q, k, i);
    EncryptPrefix(p, k, i);
    EncryptPrefix(q, k, i);
    var prev := Last(Encrypt(p[..i], k));
    assert Encrypt(p, k)[i] == Tea(Xor(p[i], prev), k);
    assert Encrypt(q, k)[i] == Tea(Xor(q[i], prev), k);
    TeaInjective(Xor(p[i], prev), Xor(q[i], prev), k);
    XorTwice(p[i], prev);
    XorTwice(q[i], prev);
  }

  /** Two ciphertext blocks are equal exactly when their chained inputs are. */
  lemma EqualBlocks(plain: seq<Block>, k: Key, i: nat, j: nat)
    requires i < |plain| && j < |plain|
    ensures
      var c := Encrypt(plain, k);
      c[i] == c[j] <==>
      Xor(plain[i], if i == 0 then ZERO else c[i - 1]) == Xor(plain[j], if j == 0 then ZERO else c[j - 1])
  {
    hide Tea, WordXor, Encrypt;
    var c := Encrypt(plain, k);
    EncryptIsCbc(plain, k, i);
    EncryptIsCbc(plain, k, j);
    TeaInjective(Xor(plain[i], if i == 0 then ZERO else c[i - 1]), Xor(plain[j], if j == 0 then ZERO else c[j - 1]), k);
  }
}
