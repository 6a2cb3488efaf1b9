/** Cookie encryption: sidecar/internal/chromeimport/cookies.go, over an abstract block cipher and
    an abstract pseudo-random function. CBC mode is section 6.2 of NIST SP 800-38A, the padding
    section 6.3 of RFC 5652, the key derivation section 5.2 of RFC 8018. */
module Cookies {
  import opened Octets
  import opened Options

  datatype Error = NotV10 | BadLength | BadKey | BadPadding

  datatype Result<T> = Ok(value: T) | Err(error: Error)

  /** AES block size. */
  const BLOCK: nat := 16

  /** Sixteen spaces. */
  const IV: Bytes := seq(BLOCK, _ => 32)

  /** "v10" */
  const PREFIX: Bytes := [118, 49, 48]

  // ---- CBC over an abstract block permutation ----

  datatype Cipher = Cipher(enc: Bytes -> Bytes, dec: Bytes -> Bytes)

  ghost predicate Permutes(c: Cipher) {
    forall b: Bytes :: |b| == BLOCK ==>
      |c.enc(b)| == BLOCK && |c.dec(b)| == BLOCK && c.dec(c.enc(b)) == b && c.enc(c.dec(b)) == b
  }

  ghost predicate Blocks(data: Bytes) { |data| % BLOCK == 0 }

  ghost function CbcEncrypt(c: Cipher, iv: Bytes, plain: Bytes): (r: Bytes)
    requires Permutes(c) && |iv| == BLOCK && Blocks(plain)
    ensures |r| == |plain|
    decreases |plain|
  {
    if plain == [] then []
    else
      var first := c.enc(Xor(plain[..BLOCK], iv));
      first + CbcEncrypt(c, first, plain[BLOCK..])
  }

  ghost function CbcDecrypt(c: Cipher, iv: Bytes, data: Bytes): (r: Bytes)
    requires Permutes(c) && |iv| == BLOCK && Blocks(data)
    ensures |r| == |data|
    decreases |data|
  {
    if data == [] then []
    else Xor(c.dec(data[..BLOCK]), iv) + CbcDecrypt(c, data[..BLOCK], data[BLOCK..])
  }

  lemma CbcEncryptCons(c: Cipher, iv: Bytes, head: Bytes, rest: Bytes)
    requires Permutes(c) && |iv| == BLOCK && |head| == BLOCK && Blocks(rest)
    ensures var first := c.enc(Xor(head, iv));
            CbcEncrypt(c, iv, head + rest) == first + CbcEncrypt(c, first, rest)
  {
    assert (head + rest)[..BLOCK] == head && (head + rest)[BLOCK..] == rest;
  }

  lemma CbcDecryptCons(c: Cipher, iv: Bytes, head: Bytes, rest: Bytes)
    requires Permutes(c) && |iv| == BLOCK && |head| == BLOCK && Blocks(rest)
    ensures CbcDecrypt(c, iv, head + rest) == Xor(c.dec(head), iv) + CbcDecrypt(c, head, rest)
  {
    assert (head + rest)[..BLOCK] == head && (head + rest)[BLOCK..] == rest;
  }

  lemma FirstBlock(data: Bytes)
    requires data != [] && Blocks(data)
    ensures |data| >= BLOCK && Blocks(data[BLOCK..]) && data == data[..BLOCK] + data[BLOCK..]
  {
  }

  lemma {:induction false} DecryptAfterEncrypt(c: Cipher, iv: Bytes, plain: Bytes)
    requires Permutes(c) && |iv| == BLOCK && Blocks(plain)
    ensures CbcDecrypt(c, iv, CbcEncrypt(c, iv, plain)) == plain
    decreases |plain|
  {
    if plain != [] {
      FirstBlock(plain);
      var head, rest := plain[..BLOCK], plain[BLOCK..];
      var first := c.enc(Xor(head, iv));
      CbcEncryptCons(c, iv, head, rest);
      CbcDecryptCons(c, iv, first, CbcEncrypt(c, first, rest));
      XorTwice(head, iv);
      DecryptAfterEncrypt(c, first, rest);
    }
  }

  lemma {:induction false} EncryptAfterDecrypt(c: Cipher, iv: Bytes, data: Bytes)
    requires Permutes(c) && |iv| == BLOCK && Blocks(data)
    ensures CbcEncrypt(c, iv, CbcDecrypt(c, iv, data)) == data
    decreases |data|
  {
    if data != [] {
      FirstBlock(data);
      var head, rest := data[..BLOCK], data[BLOCK..];
      CbcDecryptCons(c, iv, head, rest);
      CbcEncryptCons(c, iv, Xor(c.dec(head), iv), CbcDecrypt(c, head, rest));
      XorTwice(c.dec(head), iv);
      EncryptAfterDecrypt(c, head, rest);
    }
  }

  /** Block k of a text. */
  function BlockOf(data: Bytes, k: nat): Bytes
    requires (k + 1) * BLOCK <= |data|
  {
    data[k * BLOCK..(k + 1) * BLOCK]
  }

  lemma TailBlock(data: Bytes, k: nat)
    requires Blocks(data) && 1 <= k && (k + 1) * BLOCK <= |data|
    ensures k * BLOCK <= |data[BLOCK..]| && BlockOf(data[BLOCK..], k - 1) == BlockOf(data, k)
  {
  }

  /** Each cipher block is the encryption of its plain block xored with the cipher block before it,
      the first one with the IV. */
  lemma {:induction false} ChainsBlocks(c: Cipher, iv: Bytes, plain: Bytes, k: nat)
    requires Permutes(c) && |iv| == BLOCK && Blocks(plain) && (k + 1) * BLOCK <= |plain|
    ensures var cipher := CbcEncrypt(c, iv, plain);
            BlockOf(cipher, k) == c.enc(Xor(BlockOf(plain, k), if k == 0 then iv else BlockOf(cipher, k - 1)))
    decreases |plain|
  {
    FirstBlock(plain);
    var cipher := CbcEncrypt(c, iv, plain);
    var first := c.enc(Xor(plain[..BLOCK], iv));
    assert cipher[..BLOCK] == first && cipher[BLOCK..] == CbcEncrypt(c, first, plain[BLOCK..]);
    if k > 0 {
      ChainsBlocks(c, first, plain[BLOCK..], k - 1);
      TailBlock(plain, k);
      TailBlock(cipher, k);
      if k > 1 {
        TailBlock(cipher, k - 1);
      }
    }
  }

  // ---- Padding ----

  function PadLen(length: nat, blockSize: nat): (pad: nat)
    requires 0 < blockSize
    ensures 1 <= pad <= blockSize && (length + pad) % blockSize == 0
  {
    PadReaches(length, blockSize);
    blockSize - length % blockSize
  }

  lemma PadReaches(length: nat, blockSize: nat)
    requires 0 < blockSize
    ensures (length + (blockSize - length % blockSize)) % blockSize == 0
  {
    var q := length / blockSize;
    assert length + (blockSize - length % blockSize) == (q + 1) * blockSize;
    MultipleMod(q + 1, blockSize);
  }

  lemma TimesAtLeast(k: int, m: int)
    requires 0 < m
    ensures k >= 1 ==> k * m >= m
    ensures k <= -1 ==> k * m <= -m
    ensures k >= 2 ==> k * m >= 2 * m
  {
    if k >= 1 {
      assert k * m == m + (k - 1) * m;
    } else if k <= -1 {
      assert k * m == -m + (k + 1) * m;
    }
  }

  lemma MultipleMod(q: nat, m: nat)
    requires 0 < m
    ensures (q * m) % m == 0
  {
    var x := q * m;
    var d, r := x / m, x % m;
    assert x == d * m + r;
    assert (q - d) * m == r;
    TimesAtLeast(q - d, m);
  }

  /** The pad length, truncated to a byte, as often as it says. */
  function Padded(data: Bytes, blockSize: nat): Bytes
    requires 0 < blockSize
  {
    var pad := PadLen(|data|, blockSize);
    data + seq(pad, _ => (pad % 256) as bv8)
  }

  method PadPKCS7(data: Bytes, blockSize: nat) returns (out: array<bv8>)
    requires 0 < blockSize
    ensures fresh(out) && out[..] == Padded(data, blockSize)
  {
    var pad := PadLen(|data|, blockSize);
    out := new bv8[|data| + pad];
    for i := 0 to |data|
      invariant out[..i] == data[..i]
    {
      out[i] := data[i];
    }
    for i := |data| to out.Length
      invariant out[..|data|] == data
      invariant forall k :: |data| <= k < i ==> out[k] == (pad % 256) as bv8
    {
      out[i] := (pad % 256) as bv8;
    }
    assert out[..] == out[..|data|] + out[|data|..];
  }

  function Unpadded(data: Bytes, blockSize: nat): Result<Bytes>
    requires 0 < blockSize
  {
    if data == [] || |data| % blockSize != 0 then Err(BadPadding)
    else
      var pad := data[|data| - 1] as nat;
      if pad == 0 || pad > blockSize || pad > |data| then Err(BadPadding)
      else Ok(data[..|data| - pad])
  }

  lemma PaddedLength(data: Bytes, blockSize: nat)
    requires 0 < blockSize
    ensures |Padded(data, blockSize)| > |data| && |Padded(data, blockSize)| % blockSize == 0
  {
  }

  /** Unpadding gives the data back exactly when the pad length fits in a byte. */
  lemma UnpadAfterPad(data: Bytes, blockSize: nat)
    requires 0 < blockSize
    ensures Unpadded(Padded(data, blockSize), blockSize) == Ok(data) <==> PadLen(|data|, blockSize) < 256
  {
    var padded, pad := Padded(data, blockSize), PadLen(|data|, blockSize);
    ByteBack(pad % 256);
    assert padded[|padded| - 1] == (pad % 256) as bv8;
    assert padded[..|data|] == data;
  }

  lemma PadIsInjective(a: Bytes, b: Bytes, blockSize: nat)
    requires 0 < blockSize <= 255 && Padded(a, blockSize) == Padded(b, blockSize)
    ensures a == b
  {
    UnpadAfterPad(a, blockSize);
    UnpadAfterPad(b, blockSize);
  }

  /** All bytes the last byte counts as padding are equal to it. */
  ghost predicate UniformPadding(data: Bytes) {
    data != [] &&
    forall k :: |data| - data[|data| - 1] as nat <= k < |data| && 0 <= k ==> data[k] == data[|data| - 1]
  }

  lemma ModShift(a: nat, pad: nat, m: nat)
    requires 0 < m && 1 <= pad <= m && (a + pad) % m == 0
    ensures PadLen(a, m) == pad
  {
    var r := a % m;
    var q, q' := a / m, (a + pad) / m;
    assert a == q * m + r && a + pad == q' * m;
    assert r + pad == (q' - q) * m;
    TimesAtLeast(q' - q, m);
  }

  lemma PadAgain(data: Bytes, blockSize: nat)
    requires 0 < blockSize && Unpadded(data, blockSize).Ok?
    ensures var last := data[|data| - 1];
            Padded(Unpadded(data, blockSize).value, blockSize)
            == data[..|data| - last as nat] + seq(last as nat, _ => last)
  {
    var pad := data[|data| - 1] as nat;
    ModShift(|data| - pad, pad, blockSize);
    assert pad as bv8 == data[|data| - 1];
  }

  /** The check looks at the last byte only: what it accepts is the padding of its result exactly
      when the padding bytes are uniform. */
  lemma PadAfterUnpad(data: Bytes, blockSize: nat)
    requires 0 < blockSize && Unpadded(data, blockSize).Ok?
    ensures Padded(Unpadded(data, blockSize).value, blockSize) == data <==> UniformPadding(data)
  {
    var last := data[|data| - 1];
    PadAgain(data, blockSize);
    SameTail(data, |data| - last as nat, last);
  }

  lemma SameTail<X>(s: seq<X>, from: nat, x: X)
    requires from <= |s|
    ensures s[..from] + seq(|s| - from, _ => x) == s <==> forall k :: from <= k < |s| ==> s[k] == x
  {
    var t := s[..from] + seq(|s| - from, _ => x);
    assert forall k :: from <= k < |s| ==> t[k] == x;
  }

  /** Accepted as two bytes of padding, of which the first is a 9. */
  lemma NonUniformAccepted() returns (data: Bytes)
    ensures |data| == BLOCK && !UniformPadding(data)
    ensures Unpadded(data, BLOCK) == Ok(data[..14]) && Padded(data[..14], BLOCK) != data
  {
    data := seq(14, _ => 0) + [9, 2];
    assert data[15] == 2 && data[14] == 9 && (2 as bv8) as nat == 2;
    PadAfterUnpad(data, BLOCK);
  }

  // ---- Cookies ----

  ghost function Encrypted(newCipher: Bytes -> Option<Cipher>, key: Bytes, plaintext: Bytes): Result<Bytes>
    requires forall k :: newCipher(k).Some? ==> Permutes(newCipher(k).value)
  {
    if newCipher(key).None? then Err(BadKey)
    else
      PaddedLength(plaintext, BLOCK);
      Ok(PREFIX + CbcEncrypt(newCipher(key).value, IV, Padded(plaintext, BLOCK)))
  }

  ghost function Decrypted(newCipher: Bytes -> Option<Cipher>, key: Bytes, encrypted: Bytes): Result<Bytes>
    requires forall k :: newCipher(k).Some? ==> Permutes(newCipher(k).value)
  {
    if |encrypted| < 3 || encrypted[..3] != PREFIX then Err(NotV10)
    else
      var data := encrypted[3..];
      if data == [] || |data| % BLOCK != 0 then Err(BadLength)
      else if newCipher(key).None? then Err(BadKey)
      else Unpadded(CbcDecrypt(newCipher(key).value, IV, data), BLOCK)
  }

  /** Every plaintext comes back, under every key the cipher accepts. */
  lemma DecryptEncrypted(newCipher: Bytes -> Option<Cipher>, key: Bytes, plaintext: Bytes)
    requires forall k :: newCipher(k).Some? ==> Permutes(newCipher(k).value)
    ensures newCipher(key).Some? ==>
              Encrypted(newCipher, key, plaintext).Ok? &&
              Decrypted(newCipher, key, Encrypted(newCipher, key, plaintext).value) == Ok(plaintext)
  {
    if newCipher(key).Some? {
      var padded := Padded(plaintext, BLOCK);
      PaddedLength(plaintext, BLOCK);
      var data := CbcEncrypt(newCipher(key).value, IV, padded);
      assert (PREFIX + data)[..3] == PREFIX && (PREFIX + data)[3..] == data;
      DecryptAfterEncrypt(newCipher(key).value, IV, padded);
      UnpadAfterPad(plaintext, BLOCK);
    }
  }

  /** A value that decrypts is the encryption of its plaintext exactly when its padding is uniform. */
  lemma EncryptDecrypted(newCipher: Bytes -> Option<Cipher>, key: Bytes, encrypted: Bytes)
    requires forall k :: newCipher(k).Some? ==> Permutes(newCipher(k).value)
    requires Decrypted(newCipher, key, encrypted).Ok?
    ensures Encrypted(newCipher, key, Decrypted(newCipher, key, encrypted).value) == Ok(encrypted) <==>
            UniformPadding(CbcDecrypt(newCipher(key).value, IV, encrypted[3..]))
  {
    var c, data := newCipher(key).value, encrypted[3..];
    var plain := CbcDecrypt(c, IV, data);
    var body := Unpadded(plain, BLOCK).value;
    PadAfterUnpad(plain, BLOCK);
    PaddedLength(body, BLOCK);
    EncryptAfterDecrypt(c, IV, data);
    assert encrypted == PREFIX + data;
    if Encrypted(newCipher, key, body) == Ok(encrypted) {
      var again := CbcEncrypt(c, IV, Padded(body, BLOCK));
      assert (PREFIX + again)[3..] == again;
      DecryptAfterEncrypt(c, IV, Padded(body, BLOCK));
    }
  }

  lemma ReEncrypted(newCipher: Bytes -> Option<Cipher>, key: Bytes, plain: Bytes, encrypted: Bytes)
    requires (forall k :: newCipher(k).Some? ==> Permutes(newCipher(k).value)) && newCipher(key).Some?
    requires plain != [] && Blocks(plain) && Unpadded(plain, BLOCK).Ok? && !UniformPadding(plain)
    requires encrypted == PREFIX + CbcEncrypt(newCipher(key).value, IV, plain)
    ensures Decrypted(newCipher, key, encrypted) == Unpadded(plain, BLOCK)
    ensures Encrypted(newCipher, key, Unpadded(plain, BLOCK).value) != Ok(encrypted)
  {
    var data := CbcEncrypt(newCipher(key).value, IV, plain);
    DecryptAfterEncrypt(newCipher(key).value, IV, plain);
    assert encrypted[..3] == PREFIX && encrypted[3..] == data;
    EncryptDecrypted(newCipher, key, encrypted);
  }

  /** Under every key the cipher accepts, some value decrypts to a plaintext whose encryption it is not. */
  lemma DecryptsButIsNoEncryption(newCipher: Bytes -> Option<Cipher>, key: Bytes) returns (encrypted: Bytes)
    requires (forall k :: newCipher(k).Some? ==> Permutes(newCipher(k).value)) && newCipher(key).Some?
    ensures Decrypted(newCipher, key, encrypted).Ok?
    ensures Encrypted(newCipher, key, Decrypted(newCipher, key, encrypted).value) != Ok(encrypted)
  {
    var plain := NonUniformAccepted();
    encrypted := PREFIX + CbcEncrypt(newCipher(key).value, IV, plain);
    ReEncrypted(newCipher, key, plain, encrypted);
  }

  /** An encrypted cookie starts with "v10", and then with the encryption of its first padded block
      xored with sixteen spaces. */
  lemma CookieStarts(newCipher: Bytes -> Option<Cipher>, key: Bytes, plaintext: Bytes)
    requires (forall k :: newCipher(k).Some? ==> Permutes(newCipher(k).value)) && newCipher(key).Some?
    ensures Encrypted(newCipher, key, plaintext).Ok?
    ensures var cookie, padded := Encrypted(newCipher, key, plaintext).value, Padded(plaintext, 16);
            |cookie| >= 19 && |padded| >= 16 && cookie[..3] == [118, 49, 48] &&
            cookie[3..19] == newCipher(key).value.enc(
                               Xor(padded[..16], [32, 32, 32, 32, 32, 32, 32, 32, 32, 32, 32, 32, 32, 32, 32, 32]))
  {
    var padded := Padded(plaintext, BLOCK);
    PaddedLength(plaintext, BLOCK);
    FirstBlock(padded);
    SixteenSpaces();
    var data := CbcEncrypt(newCipher(key).value, IV, padded);
    assert (PREFIX + data)[..3] == PREFIX && (PREFIX + data)[3..19] == data[..16];
  }

  lemma SixteenSpaces()
    ensures IV == [32, 32, 32, 32, 32, 32, 32, 32, 32, 32, 32, 32, 32, 32, 32, 32]
  {
  }

  /** Why a value is refused before it is decrypted: it does not start with "v10", what follows is
      not a positive number of whole blocks, or the key is not one. */
  lemma RefusalsExactly(newCipher: Bytes -> Option<Cipher>, key: Bytes, encrypted: Bytes)
    requires forall k :: newCipher(k).Some? ==> Permutes(newCipher(k).value)
    ensures var r := Decrypted(newCipher, key, encrypted);
            var v10 := |encrypted| >= 3 && encrypted[0] == 118 && encrypted[1] == 49 && encrypted[2] == 48;
            var whole := |encrypted| > 3 && (|encrypted| - 3) % 16 == 0;
            (r == Err(NotV10) <==> !v10) &&
            (r == Err(BadLength) <==> v10 && !whole) &&
            (r == Err(BadKey) <==> v10 && whole && newCipher(key).None?)
  {
    if |encrypted| >= 3 {
      assert encrypted[..3] == [encrypted[0], encrypted[1], encrypted[2]];
      assert |encrypted[3..]| == |encrypted| - 3;
    }
  }
}
