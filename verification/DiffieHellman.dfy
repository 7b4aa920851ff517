/**
 * A group in which the commutativity asked of X25519 is a theorem: exponentiation modulo a
 * fixed prime, on 32-byte little-endian keys. It shows that the assumption of the honest
 * registration theorem can be met, by a function that like X25519 rejects the zero secret.
 */
module DiffieHellman {
  import opened Net
  import opened RelayFrames

  const MODULUS: nat := 1_000_003
  const GENERATOR: nat := 2

  function Pow(b: nat, e: nat): nat {
    if e == 0 then 1 else b * Pow(b, e - 1)
  }

  lemma {:induction false} PowAdds(b: nat, m: nat, n: nat)
    ensures Pow(b, m + n) == Pow(b, m) * Pow(b, n)
  {
    if m > 0 {
      PowAdds(b, m - 1, n);
      MulAssociates(b, Pow(b, m - 1), Pow(b, n));
    }
  }

  lemma MulAssociates(a: nat, b: nat, c: nat)
    ensures a * (b * c) == (a * b) * c
  {
  }

  lemma {:induction false} PowOfPow(b: nat, m: nat, n: nat)
    ensures Pow(Pow(b, m), n) == Pow(b, m * n)
  {
    if n > 0 {
      PowOfPow(b, m, n - 1);
      PowAdds(b, m, m * (n - 1));
      assert m + m * (n - 1) == m * n;
    } else {
      assert m * n == 0;
    }
  }

  lemma MulMod(a: nat, b: nat)
    ensures (a % MODULUS) * b % MODULUS == a * b % MODULUS
  {
    var q, r := a / MODULUS, a % MODULUS;
    assert a * b == (q * MODULUS + r) * b == MODULUS * (q * b) + r * b;
  }

  lemma {:induction false} PowMod(b: nat, e: nat)
    ensures Pow(b % MODULUS, e) % MODULUS == Pow(b, e) % MODULUS
  {
    if e > 0 {
      PowMod(b, e - 1);
      var p, q := Pow(b % MODULUS, e - 1), Pow(b, e - 1);
      MulMod(b, p);
      MulMod(p, b);
      MulMod(q, b);
      assert b * p == p * b && q * b == b * q;
    }
  }

  // ---------------------------------------------------------------- keys as numbers

  function Decode(b: seq<byte>): nat {
    if |b| == 0 then 0 else b[0] + 0x100 * Decode(b[1..])
  }

  function Encode(n: nat, len: nat): (b: seq<byte>)
    ensures |b| == len
  {
    if len == 0 then [] else [n % 0x100] + Encode(n / 0x100, len - 1)
  }

  lemma {:induction false} DecodeEncode(n: nat, len: nat)
    requires n < Pow(0x100, len)
    ensures Decode(Encode(n, len)) == n
  {
    if len > 0 {
      DecodeEncode(n / 0x100, len - 1);
      assert Encode(n, len)[1..] == Encode(n / 0x100, len - 1);
    }
  }

  lemma {:induction false} ResidueDecodes(n: nat)
    requires n < MODULUS
    ensures Decode(Encode(n, KEY_LEN)) == n
  {
    assert Pow(0x100, 3) == 0x1_00_00_00;
    PowAdds(0x100, 3, 29);
    PowPositive(0x100, 29);
    assert Pow(0x100, 32) >= 0x1_00_00_00;
    DecodeEncode(n, KEY_LEN);
  }

  lemma {:induction false} PowPositive(b: nat, e: nat)
    requires b > 0
    ensures Pow(b, e) > 0
  {
    if e > 0 {
      PowPositive(b, e - 1);
    }
  }

  function ModExp(priv: Key, pub: Key): Option<Key> {
    var r := Pow(Decode(pub), Decode(priv)) % MODULUS;
    if r == 0 then None else Some(Encode(r, KEY_LEN))
  }

  function Group(hmac: (Key, seq<byte>) -> Mac): Crypto {
    Crypto(ModExp, Encode(GENERATOR, KEY_LEN), hmac)
  }

  lemma {:induction false} SharedSecret(c: Crypto, a: Key, b: Key)
    requires c.x25519 == ModExp && c.base == Encode(GENERATOR, KEY_LEN)
    requires PublicKey(c, b).Some?
    ensures c.x25519(a, PublicKey(c, b).value) ==
              var r := Pow(GENERATOR, Decode(b) * Decode(a)) % MODULUS;
              if r == 0 then None else Some(Encode(r, KEY_LEN))
  {
    ResidueDecodes(GENERATOR);
    var x := Pow(GENERATOR, Decode(b));
    ResidueDecodes(x % MODULUS);
    PowMod(x, Decode(a));
    PowOfPow(GENERATOR, Decode(b), Decode(a));
  }

  /** In this group Diffie-Hellman commutes, for every pair of private keys. */
  lemma GroupCommutes(hmac: (Key, seq<byte>) -> Mac)
    ensures Commutes(Group(hmac))
  {
    var c := Group(hmac);
    forall a: Key, b: Key | PublicKey(c, a).Some? && PublicKey(c, b).Some?
      ensures c.x25519(a, PublicKey(c, b).value) == c.x25519(b, PublicKey(c, a).value)
    {
      SharedSecret(c, a, b);
      SharedSecret(c, b, a);
      assert Decode(a) * Decode(b) == Decode(b) * Decode(a);
    }
  }
}
