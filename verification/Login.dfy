/** The login key of `aochat/crypto.py`: a half Diffie-Hellman exchange, the padded
    login blob and its encryption; and the server's side, which the repository does
    not contain, as specification. */
module Login {
  import opened Wrappers
  import opened Bytes
  import opened Cipher
  import opened Collections
  import opened Digits
  import opened Powers

  /** What `generate_login_key` and `aochat_crypt` can raise. */
  datatype Error = KeyLength | PlainLength | KeyText | LengthField

  /** The fixed numbers: `DH_G`, `DH_N` and the server's public `DH_Y`. */
  datatype Exchange = Exchange(g: nat, n: nat, y: nat)

  // ---- words and bytes ----

  function Word(b: bytes, i: nat): Words.word
    requires 4 * i + 4 <= |b|
  {
    UnpackLittle32(b[4 * i..4 * i + 4])
  }

  function BlockOf(eight: bytes): Block
    requires |eight| == 8
  {
    Block(UnpackLittle32(eight[..4]), UnpackLittle32(eight[4..]))
  }

  function BlockBytes(b: Block): (s: bytes)
    ensures |s| == 8
  {
    PackLittle32(b.w0) + PackLittle32(b.w1)
  }

  lemma BlockBytesInverse(b: Block)
    ensures BlockOf(BlockBytes(b)) == b
  {
    var s := BlockBytes(b);
    assert s[..4] == PackLittle32(b.w0) && s[4..] == PackLittle32(b.w1);
    PackLittle32Inverse(b.w0);
    PackLittle32Inverse(b.w1);
  }

  lemma BlockOfInverse(eight: bytes)
    requires |eight| == 8
    ensures BlockBytes(BlockOf(eight)) == eight
  {
    UnpackLittle32Inverse(eight[..4]);
    UnpackLittle32Inverse(eight[4..]);
    assert eight == eight[..4] + eight[4..];
  }

  /** Block i of a byte string is its words 2i and 2i + 1. */
  lemma BlockIsTwoWords(b: bytes, i: nat)
    requires 8 * i + 8 <= |b|
    ensures BlockOf(b[8 * i..8 * i + 8]) == Block(Word(b, 2 * i), Word(b, 2 * i + 1))
  {
    var eight := b[8 * i..8 * i + 8];
    assert eight[..4] == b[4 * (2 * i)..4 * (2 * i) + 4];
    assert eight[4..] == b[4 * (2 * i + 1)..4 * (2 * i + 1) + 4];
  }

  function BlocksOf(b: bytes): (s: seq<Block>)
    requires |b| % 8 == 0
    ensures |s| == |b| / 8
  {
    if b == [] then [] else [BlockOf(b[..8])] + BlocksOf(b[8..])
  }

  function BytesOf(s: seq<Block>): (b: bytes)
    ensures |b| == 8 * |s|
  {
    if s == [] then [] else BlockBytes(s[0]) + BytesOf(s[1..])
  }

  lemma {:induction false} BlocksOfAt(b: bytes, i: nat)
    requires |b| % 8 == 0 && 8 * i + 8 <= |b|
    ensures BlocksOf(b)[i] == BlockOf(b[8 * i..8 * i + 8])
  {
    hide *;
    BlocksUnfold(b);
    if i > 0 {
      var k := 8 * (i - 1);
      assert |b[8..]| % 8 == 0 && k + 8 <= |b[8..]|;
      BlocksOfAt(b[8..], i - 1);
      SliceAfterDrop(b, k);
    }
  }

  lemma BlocksUnfold(b: bytes)
    requires |b| % 8 == 0 && b != []
    ensures BlocksOf(b) == [BlockOf(b[..8])] + BlocksOf(b[8..])
  {
    hide BlockOf;
  }

  lemma SliceAfterDrop(b: bytes, k: nat)
    requires k + 16 <= |b|
    ensures b[8..][k..k + 8] == b[k + 8..k + 16]
  {}

  lemma {:induction false} BlocksOfBytesOf(s: seq<Block>)
    ensures BlocksOf(BytesOf(s)) == s
  {
    if s != [] {
      var b := BytesOf(s);
      BlocksOfBytesOf(s[1..]);
      BlockBytesInverse(s[0]);
      assert b[..8] == BlockBytes(s[0]) && b[8..] == BytesOf(s[1..]);
    }
  }

  lemma {:induction false} BytesOfBlocksOf(b: bytes)
    requires |b| % 8 == 0
    ensures BytesOf(BlocksOf(b)) == b
  {
    if b != [] {
      BytesOfBlocksOf(b[8..]);
      BlockOfInverse(b[..8]);
      assert b == b[..8] + b[8..];
    }
  }

  lemma {:induction false} BytesOfConcat(s: seq<Block>, t: seq<Block>)
    ensures BytesOf(s + t) == BytesOf(s) + BytesOf(t)
  {
    hide *;
    if s == [] {
      assert s + t == t;
      NoBlocks();
    } else {
      BytesUnfold(s);
      BytesUnfold(s + t);
      BytesOfConcat(s[1..], t);
      assert (s + t)[1..] == s[1..] + t;
    }
  }

  lemma NoBlocks()
    ensures BytesOf([]) == []
  {}

  lemma BytesUnfold(s: seq<Block>)
    requires s != []
    ensures BytesOf(s) == BlockBytes(s[0]) + BytesOf(s[1..])
  {
    hide BlockBytes;
  }

  // ---- keys ----

  /** The first 32 hex digits of the shared number, padded with zeros on the left. */
  function KeyDigits(k: nat): (s: string)
    ensures |s| == 32 && IsText(s, Sixteen)
  {
    var h := Text(k, Sixteen);
    if |h| < 32 then seq(32 - |h|, _ => '0') + h else h[..32]
  }

  /** As a number, the key digits are the leading 32 digits of the shared number: what is
      left of it without the n - 32 digits that follow. */
  lemma KeyDigitsLeading(k: nat)
    ensures
      var n := |Text(k, Sixteen)|;
      Value(KeyDigits(k), Sixteen) == if n <= 32 then k else k / Power(16, n - 32)
  {
    hide Text, Value, IsText;
    var h := Text(k, Sixteen);
    ValueOfText(k, Sixteen);
    if |h| < 32 {
      ZerosInFront(32 - |h|, h);
    } else {
      ValueOfPrefix(h, 32, Sixteen);
      assert |h| == 32 ==> h[..32] == h;
    }
  }

  lemma {:induction false} ZerosInFront(n: nat, s: string)
    requires IsText(s, Sixteen)
    ensures IsText(seq(n, _ => '0') + s, Sixteen)
    ensures Value(seq(n, _ => '0') + s, Sixteen) == Value(s, Sixteen)
    decreases n, |s|
  {
    var zeros := seq(n, _ => '0');
    var t := zeros + s;
    if s != [] {
      assert t[..|t| - 1] == zeros + s[..|s| - 1];
      ZerosInFront(n, s[..|s| - 1]);
    } else if n > 0 {
      var fewer := seq(n - 1, _ => '0');
      assert t[..|t| - 1] == fewer + s;
      ZerosInFront(n - 1, s);
    }
  }

  function KeyOf(key: bytes): Key
    requires |key| == 16
  {
    Key(Word(key, 0), Word(key, 1), Word(key, 2), Word(key, 3))
  }

  /** Little-endian words, four bytes to a key word. */
  lemma KeyWords(key: bytes, i: nat)
    requires |key| == 16 && i < 4
    ensures
      var k := KeyOf(key);
      var b0: nat, b1: nat, b2: nat, b3: nat := key[4 * i], key[4 * i + 1], key[4 * i + 2], key[4 * i + 3];
      [k.k1, k.k2, k.k3, k.k4][i] == b0 + 0x100 * b1 + 0x1_0000 * b2 + 0x100_0000 * b3
  {
    hide UnpackLittle32;
    UnpackLittle32Exact(key[4 * i..4 * i + 4]);
  }

  function Seal(plain: bytes, k: Key): (c: bytes)
    requires |plain| % 8 == 0
    ensures |c| == |plain|
  {
    BytesOf(Encrypt(BlocksOf(plain), k))
  }

  function Unseal(c: bytes, k: Key): (plain: bytes)
    requires |c| % 8 == 0
    ensures |plain| == |c|
  {
    BytesOf(Decrypt(BlocksOf(c), k))
  }

  lemma UnsealSeal(plain: bytes, k: Key)
    requires |plain| % 8 == 0
    ensures Unseal(Seal(plain, k), k) == plain
  {
    BlocksOfBytesOf(Encrypt(BlocksOf(plain), k));
    DecryptEncrypt(BlocksOf(plain), k);
    BytesOfBlocksOf(plain);
  }

  lemma SealUnseal(c: bytes, k: Key)
    requires |c| % 8 == 0
    ensures Seal(Unseal(c, k), k) == c
  {
    BlocksOfBytesOf(Decrypt(BlocksOf(c), k));
    EncryptDecrypt(BlocksOf(c), k);
    BytesOfBlocksOf(c);
  }

  /** The ciphertext text for given key digits and plaintext. */
  function Crypted(keyHex: string, plain: bytes): string
    requires |keyHex| == 32 && IsText(keyHex, Sixteen) && |plain| % 8 == 0
  {
    ToHex(Seal(plain, KeyOf(FromHex(keyHex).value)))
  }

  /** `aochat_crypt`. */
  method AochatCrypt(keyHex: string, plain: bytes) returns (r: Result<string, Error>)
    ensures r.Err? && r.error == KeyLength <==> |keyHex| != 32
    ensures r.Err? && r.error == PlainLength <==> |keyHex| == 32 && |plain| % 8 != 0
    ensures r.Ok? <==> |keyHex| == 32 && |plain| % 8 == 0 && FromHex(keyHex).Some?
    ensures r.Ok? && IsText(keyHex, Sixteen) ==> r.value == Crypted(keyHex, plain)
  {
    if |keyHex| != 32 {
      return Err(KeyLength);
    }
    if |plain| % 8 != 0 {
      return Err(PlainLength);
    }
    var keyBytes := FromHex(keyHex);
    if keyBytes == None {
      return Err(KeyText);
    }
    var keyWords := KeyOf(keyBytes.value);
    ghost var blocks := BlocksOf(plain);
    ghost var done: seq<Block> := [];
    var prev := ZERO;
    var outHex := "";
    for i := 0 to |plain| / 8
      invariant done == Encrypt(blocks[..i], keyWords) && prev == Last(done)
      invariant outHex == ToHex(BytesOf(done))
    {
      var now := Xor(Block(Word(plain, 2 * i), Word(plain, 2 * i + 1)), prev);
      prev := Permute(now, keyWords);
      outHex := outHex + ToHex(PackLittle32(prev.w0));
      outHex := outHex + ToHex(PackLittle32(prev.w1));
      WordsOfBlock(plain, i);
      EncryptNext(blocks, keyWords, i);
      AppendHex(done, prev);
      done := done + [prev];
    }
    assert blocks[..|plain| / 8] == blocks;
    return Ok(outHex);
  }

  lemma WordsOfBlock(plain: bytes, i: nat)
    requires |plain| % 8 == 0 && 8 * i + 8 <= |plain|
    ensures BlocksOf(plain)[i] == Block(Word(plain, 2 * i), Word(plain, 2 * i + 1))
  {
    BlocksOfAt(plain, i);
    BlockIsTwoWords(plain, i);
  }

  lemma AppendHex(s: seq<Block>, b: Block)
    ensures ToHex(BytesOf(s + [b])) == ToHex(BytesOf(s)) + ToHex(PackLittle32(b.w0)) + ToHex(PackLittle32(b.w1))
  {
    BytesOfConcat(s, [b]);
    assert BytesOf([b]) == BlockBytes(b);
    ToHexConcat(BytesOf(s), BlockBytes(b));
    ToHexConcat(PackLittle32(b.w0), PackLittle32(b.w1));
  }

  // ---- the blob ----

  /** Random prefix, big-endian length, login string, spaces up to a whole block. */
  function Blob(prefix: bytes, login: bytes): (b: bytes)
    requires |prefix| == 8 && |login| < 0x1_0000_0000
    ensures |b| % 8 == 0 && 12 + |login| <= |b| < 20 + |login|
    ensures b[..8] == prefix && b[8..12] == Pack32(|login|) && b[12..12 + |login|] == login
    ensures forall i | 12 + |login| <= i < |b| :: b[i] == 0x20
  {
    var pad := Padding(8 + 4 + |login|);
    Layout(prefix, Pack32(|login|), login, pad);
    prefix + Pack32(|login|) + login + pad
  }

  function Padding(length: nat): (pad: bytes)
    ensures (length + |pad|) % 8 == 0 && |pad| < 8
    ensures forall i | 0 <= i < |pad| :: pad[i] == 0x20
  {
    seq((8 - length % 8) % 8, _ => 0x20)
  }

  lemma Layout(prefix: bytes, length: bytes, login: bytes, pad: bytes)
    requires |prefix| == 8 && |length| == 4
    ensures
      var b := prefix + length + login + pad;
      b[..8] == prefix && b[8..12] == length && b[12..12 + |login|] == login && b[12 + |login|..] == pad
  {}

  /** User name, server seed and password, with a bar between them. */
  function LoginString(seed: bytes, username: bytes, password: bytes): (login: bytes)
    ensures |login| == |username| + |seed| + |password| + 2
    ensures login[..|username|] == username && login[|username|] == '|' as nat
    ensures login[|username| + 1..|username| + 1 + |seed|] == seed && login[|username| + 1 + |seed|] == '|' as nat
    ensures login[|username| + |seed| + 2..] == password
  {
    username + [0x7C] + seed + [0x7C] + password
  }

  /** `generate_login_key`, with the two random draws as inputs. */
  method GenerateLoginKey(dh: Exchange, x: nat, prefix: bytes, seed: bytes, username: bytes, password: bytes)
    returns (r: Result<string, Error>)
    requires dh.n >= 1 && |prefix| == 8
    ensures r == if |LoginString(seed, username, password)| >= 0x1_0000_0000 then Err(LengthField)
                 else Ok(LoginKey(dh, x, Blob(prefix, LoginString(seed, username, password))))
    ensures r.Ok? ==> forall y: nat :: ModPower(dh.g, y, dh.n) == dh.y ==>
      ServerRecover(dh.n, y, r.value) == Some(LoginString(seed, username, password))
  {
    hide ModPower, ServerRecover, Crypted, LoginString;
    var dhX := ModPower(dh.g, x, dh.n);
    var dhK := ModPower(dh.y, x, dh.n);
    var keyHex := Text(dhK, Sixteen);
    if |keyHex| < 32 {
      keyHex := seq(32 - |keyHex|, _ => '0') + keyHex;
    } else {
      keyHex := keyHex[..32];
    }
    var login := LoginString(seed, username, password);
    if |login| >= 0x1_0000_0000 {
      return Err(LengthField);
    }
    var length := 8 + 4 + |login|;
    var pad: bytes := seq((8 - length % 8) % 8, _ => 0x20);
    assert pad == Padding(length);
    var plain := prefix + Pack32(|login|) + login + pad;
    assert plain == Blob(prefix, login);
    var crypted := AochatCrypt(keyHex, plain);
    assert crypted == Ok(Crypted(KeyDigits(dhK), plain));
    r := Ok(Text(dhX, Sixteen) + "-" + crypted.value);
    forall y: nat | ModPower(dh.g, y, dh.n) == dh.y
      ensures ServerRecover(dh.n, y, r.value) == Some(login)
    {
      ServerRecoversLogin(dh, x, y, prefix, login);
    }
  }

  /** The text sent to the server. */
  function LoginKey(dh: Exchange, x: nat, blob: bytes): string
    requires dh.n >= 1 && |blob| % 8 == 0
  {
    Text(ModPower(dh.g, x, dh.n), Sixteen) + "-" + Crypted(KeyDigits(ModPower(dh.y, x, dh.n)), blob)
  }

  /** Before the dash the hex digits of g^x modulo n; after it the hex text of a ciphertext
      that decrypts to the blob under the leading digits of y^x modulo n. */
  lemma LoginKeyText(dh: Exchange, x: nat, blob: bytes)
    requires dh.n >= 1 && |blob| % 8 == 0
    ensures
      var key, digits := LoginKey(dh, x, blob), KeyDigits(Power(dh.y, x) % dh.n);
      var d := IndexOf(key, '-');
      && d < |key| && key[..d] == Text(Power(dh.g, x) % dh.n, Sixteen)
      && FromHex(key[d + 1..]).Some? && FromHex(digits).Some?
      && |FromHex(key[d + 1..]).value| % 8 == 0
      && Unseal(FromHex(key[d + 1..]).value, KeyOf(FromHex(digits).value)) == blob
  {
    hide Unseal, Seal, KeyOf, KeyDigits, Power;
    var left, digits := Text(ModPower(dh.g, x, dh.n), Sixteen), KeyDigits(ModPower(dh.y, x, dh.n));
    var right := Crypted(digits, blob);
    var text, k := left + "-" + right, KeyOf(FromHex(digits).value);
    DashAfter(left, right);
    assert text[..|left|] == left && text[|left| + 1..] == right;
    FromHexOfHex(Seal(blob, k));
    UnsealSeal(blob, k);
  }

  // ---- the server ----

  lemma {:induction false} DashAfter(a: string, b: string)
    requires '-' !in a
    ensures IndexOf(a + "-" + b, '-') == |a|
  {
    var s := a + "-" + b;
    if a != "" {
      DashAfter(a[1..], b);
      assert s[1..] == a[1..] + "-" + b;
      assert s[0] == a[0];
    }
  }

  /** What the holder of the secret exponent y reads out of a login key. */
  function ServerRecover(n: nat, y: nat, loginKey: string): Option<bytes>
    requires n >= 1
  {
    var d := IndexOf(loginKey, '-');
    if d == |loginKey| || !IsText(loginKey[..d], Sixteen) then None else
      match FromHex(loginKey[d + 1..])
      case None => None
      case Some(c) =>
        if |c| % 8 != 0 || |c| < 12 then None else
          var shared := ModPower(Value(loginKey[..d], Sixteen), y, n);
          var plain := Unseal(c, KeyOf(FromHex(KeyDigits(shared)).value));
          var length := Unpack32(plain[8..12]);
          if 12 + length > |plain| then None else Some(plain[12..12 + length])
  }

  /** For every exponent, random prefix and login string, the server recovers exactly
      the login string. */
  lemma ServerRecoversLogin(dh: Exchange, x: nat, y: nat, prefix: bytes, login: bytes)
    requires dh.n >= 1 && ModPower(dh.g, y, dh.n) == dh.y
    requires |prefix| == 8 && |login| < 0x1_0000_0000
    ensures ServerRecover(dh.n, y, LoginKey(dh, x, Blob(prefix, login))) == Some(login)
  {
    hide ModPower, Blob, Unseal, Seal, KeyOf, KeyDigits;
    var plain := Blob(prefix, login);
    var sent := ModPower(dh.g, x, dh.n);
    var left, digits := Text(sent, Sixteen), KeyDigits(ModPower(dh.y, x, dh.n));
    var right := Crypted(digits, plain);
    var text := left + "-" + right;
    var k := KeyOf(FromHex(digits).value);
    DashAfter(left, right);
    assert text[..|left|] == left && text[|left| + 1..] == right;
    ValueOfText(sent, Sixteen);
    SharedSecret(dh.g, x, y, dh.n);
    FromHexOfHex(Seal(plain, k));
    UnsealSeal(plain, k);
    Pack32Inverse(|login|);
  }
}
