/** pbkdf2SHA1 of sidecar/internal/chromeimport/cookies.go against section 5.2 of RFC 8018, over
    an abstract pseudo-random function of 20-byte results. */
module KeyDerivation {
  import opened Octets

  /** hLen, the size of a SHA-1 digest. */
  const HASH_LEN: nat := 20

  type Prf = (Bytes, Bytes) -> Bytes

  ghost predicate Sized(prf: Prf) {
    forall key, text :: |prf(key, text)| == HASH_LEN
  }

  function Octet(n: nat): bv8 {
    (n % 256) as bv8
  }

  /** INT(i): the low four octets of i, most significant first. */
  function Int4(i: nat): Bytes {
    [Octet(i / 16777216), Octet(i / 65536), Octet(i / 256), Octet(i)]
  }

  /** U_n of the chain for block i. */
  ghost function U(prf: Prf, password: Bytes, salt: Bytes, i: nat, n: nat): (u: Bytes)
    requires Sized(prf) && n >= 1
    ensures |u| == HASH_LEN
  {
    if n == 1 then prf(password, salt + Int4(i)) else prf(password, U(prf, password, salt, i, n - 1))
  }

  /** F(P, S, c, i) = U_1 xor U_2 xor ... xor U_c. */
  ghost function F(prf: Prf, password: Bytes, salt: Bytes, c: nat, i: nat): (t: Bytes)
    requires Sized(prf) && c >= 1
    ensures |t| == HASH_LEN
  {
    if c == 1 then U(prf, password, salt, i, 1)
    else Xor(F(prf, password, salt, c - 1, i), U(prf, password, salt, i, c))
  }

  /** T_1 || T_2 || ... || T_l. */
  ghost function T(prf: Prf, password: Bytes, salt: Bytes, c: nat, l: nat): (t: Bytes)
    requires Sized(prf) && c >= 1
    ensures |t| == l * HASH_LEN
  {
    if l == 0 then [] else T(prf, password, salt, c, l - 1) + F(prf, password, salt, c, l)
  }

  /** l = CEIL (dkLen / hLen) */
  function BlockCount(keyLen: nat): (l: nat)
    ensures l * HASH_LEN >= keyLen && (l > 0 ==> (l - 1) * HASH_LEN < keyLen)
  {
    (keyLen + HASH_LEN - 1) / HASH_LEN
  }

  ghost function DerivedKey(prf: Prf, password: Bytes, salt: Bytes, c: nat, keyLen: nat): (dk: Bytes)
    requires Sized(prf) && c >= 1
    ensures |dk| == keyLen
  {
    T(prf, password, salt, c, BlockCount(keyLen))[..keyLen]
  }

  /** The source runs one iteration also when asked for none or fewer. */
  function Iterations(iter: int): (c: nat)
    ensures c >= 1
  {
    if iter < 1 then 1 else iter
  }

  method Pbkdf2(prf: Prf, password: Bytes, salt: Bytes, iter: int, keyLen: nat) returns (dk: Bytes)
    requires Sized(prf)
    ensures dk == DerivedKey(prf, password, salt, Iterations(iter), keyLen)
  {
    var numBlocks := (keyLen + HASH_LEN - 1) / HASH_LEN;
    ghost var c := Iterations(iter);
    dk := [];
    var block := 1;
    while block <= numBlocks
      invariant 1 <= block <= numBlocks + 1
      invariant dk == T(prf, password, salt, c, block - 1)
    {
      var t := Block(prf, password, salt, iter, block);
      assert T(prf, password, salt, c, block) == dk + F(prf, password, salt, c, block);
      dk := dk + t[..];
      block := block + 1;
    }
    assert block - 1 == BlockCount(keyLen);
    dk := dk[..keyLen];
  }

  /** The body of the loop over blocks. */
  method Block(prf: Prf, password: Bytes, salt: Bytes, iter: int, block: nat) returns (t: array<bv8>)
    requires Sized(prf)
    ensures fresh(t) && t[..] == F(prf, password, salt, Iterations(iter), block)
  {
    var u := prf(password, salt + Int4(block));
    t := new bv8[|u|](k requires 0 <= k < |u| => u[k]);
    assert t[..] == u;
    var n := 2;
    while n <= iter
      invariant 2 <= n && (n <= iter + 1 || n == 2)
      invariant u == U(prf, password, salt, block, n - 1)
      invariant fresh(t) && t[..] == F(prf, password, salt, n - 1, block)
    {
      u := prf(password, u);
      XorInto(t, u);
      n := n + 1;
    }
  }

  /** "saltysalt", and the cost and key size Chrome uses on macOS. */
  const SALT: Bytes := [115, 97, 108, 116, 121, 115, 97, 108, 116]
  const ITERATIONS := 1003
  const KEY_LEN: nat := 16

  /** The key fits in one digest, so it is the front of the first block. */
  method DeriveKey(prf: Prf, password: Bytes) returns (key: Bytes)
    requires Sized(prf)
    ensures |key| == 16 && key == F(prf, password, [115, 97, 108, 116, 121, 115, 97, 108, 116], 1003, 1)[..16]
  {
    key := Pbkdf2(prf, password, SALT, ITERATIONS, KEY_LEN);
    OneBlock(prf, password, SALT, ITERATIONS, KEY_LEN);
  }

  lemma OneBlock(prf: Prf, password: Bytes, salt: Bytes, c: nat, keyLen: nat)
    requires Sized(prf) && c >= 1 && 1 <= keyLen <= HASH_LEN
    ensures DerivedKey(prf, password, salt, c, keyLen) == F(prf, password, salt, c, 1)[..keyLen]
  {
    assert BlockCount(keyLen) == 1;
    assert T(prf, password, salt, c, 1) == [] + F(prf, password, salt, c, 1);
  }

  /** The innermost loop: t ^= u in place. */
  method XorInto(t: array<bv8>, u: Bytes)
    requires t.Length == |u|
    modifies t
    ensures t[..] == Xor(old(t[..]), u)
  {
    for i := 0 to t.Length
      invariant forall k :: 0 <= k < i ==> t[k] == old(t[k]) ^ u[k]
      invariant forall k :: i <= k < t.Length ==> t[k] == old(t[k])
    {
      t[i] := t[i] ^ u[i];
    }
  }

  /** The xor of a non-empty list of strings of one length. */
  ghost function XorAll(us: seq<Bytes>): (t: Bytes)
    requires us != [] && forall k :: 0 <= k < |us| ==> |us[k]| == 20
    ensures |t| == 20
  {
    if |us| == 1 then us[0] else Xor(XorAll(us[..|us| - 1]), us[|us| - 1])
  }

  /** U_1, ..., U_c of block i: the first applies the function to the salt and the block number, each
      other one to the one before it. */
  ghost predicate IsChain(prf: Prf, password: Bytes, salt: Bytes, i: nat, us: seq<Bytes>) {
    us != [] && us[0] == prf(password, salt + Int4(i)) &&
    forall k :: 0 < k < |us| ==> us[k] == prf(password, us[k - 1])
  }

  lemma {:induction false} ChainIsU(prf: Prf, password: Bytes, salt: Bytes, i: nat, us: seq<Bytes>, n: nat)
    requires Sized(prf) && IsChain(prf, password, salt, i, us) && 1 <= n <= |us|
    ensures us[n - 1] == U(prf, password, salt, i, n)
  {
    if n > 1 {
      ChainIsU(prf, password, salt, i, us, n - 1);
    }
  }

  /** Every block is the xor of its whole chain. */
  lemma {:induction false} BlockIsXorOfChain(prf: Prf, password: Bytes, salt: Bytes, i: nat, us: seq<Bytes>)
    requires Sized(prf) && IsChain(prf, password, salt, i, us)
    ensures forall k :: 0 <= k < |us| ==> |us[k]| == 20
    ensures F(prf, password, salt, |us|, i) == XorAll(us)
    decreases |us|
  {
    var n := |us|;
    ChainIsU(prf, password, salt, i, us, n);
    if n > 1 {
      var front := us[..n - 1];
      assert forall k :: 0 <= k < n - 1 ==> front[k] == us[k];
      BlockIsXorOfChain(prf, password, salt, i, front);
    }
  }

  lemma OctetValue(n: nat)
    ensures Octet(n) as nat == n % 256
  {
    ByteBack(n % 256);
  }

  /** The four octets are the block number modulo 2^32, big-endian. */
  lemma Int4Value(i: nat)
    ensures var b := Int4(i);
            b[0] as nat * 16777216 + b[1] as nat * 65536 + b[2] as nat * 256 + b[3] as nat == i % 4294967296
  {
    OctetValue(i / 16777216);
    OctetValue(i / 65536);
    OctetValue(i / 256);
    OctetValue(i);
    BytesOf(i);
  }

  lemma BytesOf(i: nat)
    ensures (i / 16777216 % 256) * 16777216 + (i / 65536 % 256) * 65536 + (i / 256 % 256) * 256 + i % 256
            == i % 4294967296
  {
    assert i / 256 / 256 == i / 65536 && i / 65536 / 256 == i / 16777216 && i / 16777216 / 256 == i / 4294967296;
  }

  lemma {:induction false} TPrefix(prf: Prf, password: Bytes, salt: Bytes, c: nat, l: nat, m: nat)
    requires Sized(prf) && c >= 1 && l <= m
    ensures T(prf, password, salt, c, l) <= T(prf, password, salt, c, m)
  {
    if l < m {
      TPrefix(prf, password, salt, c, l, m - 1);
    }
  }

  lemma BlockCountMonotone(a: nat, b: nat)
    requires a <= b
    ensures BlockCount(a) <= BlockCount(b)
  {
  }

  /** A shorter key is a prefix of a longer one. */
  lemma ShorterKeyIsPrefix(prf: Prf, password: Bytes, salt: Bytes, c: nat, a: nat, b: nat)
    requires Sized(prf) && c >= 1 && a <= b
    ensures DerivedKey(prf, password, salt, c, a) == DerivedKey(prf, password, salt, c, b)[..a]
  {
    BlockCountMonotone(a, b);
    TPrefix(prf, password, salt, c, BlockCount(a), BlockCount(b));
  }

  /** Byte k of the key is byte k % 20 of block k / 20 + 1. */
  lemma KeyByte(prf: Prf, password: Bytes, salt: Bytes, c: nat, keyLen: nat, k: nat)
    requires Sized(prf) && c >= 1 && k < keyLen
    ensures DerivedKey(prf, password, salt, c, keyLen)[k]
            == F(prf, password, salt, c, k / HASH_LEN + 1)[k % HASH_LEN]
  {
    var i := k / HASH_LEN + 1;
    assert i <= BlockCount(keyLen);
    TPrefix(prf, password, salt, c, i, BlockCount(keyLen));
    var t := T(prf, password, salt, c, i);
    assert t == T(prf, password, salt, c, i - 1) + F(prf, password, salt, c, i);
    assert T(prf, password, salt, c, BlockCount(keyLen))[k] == t[k];
  }
}
