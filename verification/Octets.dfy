/** Byte strings, for the cookie code of sidecar/internal/chromeimport/cookies.go. */
module Octets {
  type Bytes = seq<bv8>

  lemma NextByte(x: bv8)
    requires x != 255
    ensures (x + 1) as nat == x as nat + 1
  {
  }

  lemma {:induction false} ByteOf(p: nat) returns (x: bv8)
    requires p < 256
    ensures x as nat == p
  {
    if p == 0 {
      x := 0;
    } else {
      var y := ByteOf(p - 1);
      NextByte(y);
      x := y + 1;
    }
  }

  lemma SameByte(x: bv8)
    ensures (x as nat) as bv8 == x
  {
  }

  lemma ByteBack(p: nat)
    requires p < 256
    ensures (p as bv8) as nat == p
  {
    var x := ByteOf(p);
    SameByte(x);
  }

  function Xor(a: Bytes, b: Bytes): (r: Bytes)
    requires |a| == |b|
    ensures |r| == |a|
  {
    seq(|a|, i requires 0 <= i < |a| => a[i] ^ b[i])
  }

  lemma XorBack(x: bv8, y: bv8)
    ensures (x ^ y) ^ y == x
  {
  }

  lemma XorTwice(a: Bytes, b: Bytes)
    requires |a| == |b|
    ensures Xor(Xor(a, b), b) == a
  {
    forall i | 0 <= i < |a|
      ensures Xor(Xor(a, b), b)[i] == a[i]
    {
      XorBack(a[i], b[i]);
    }
  }
}
