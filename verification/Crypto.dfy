/** What the handshake is written against and the model is given: the cryptographic primitives, as functions, with the
    laws it relies on, and one choice of the packet dispatcher. One instance, over modular exponentiation, satisfies
    the laws. */
module Crypto {
  import opened Bytes

  // A Diffie-Hellman secret, as a DiffieHellmanHelper draws it.
  type Secret = nat

  datatype Primitives = Primitives(
    dhPublic: Secret -> ByteArray,                // get_public_key
    dhShared: (Secret, ByteArray) -> ByteArray,   // get_shared_secret
    sha256: ByteArray -> ByteArray,               // SHA::ComputeHash
    sign: ByteArray -> ByteArray,                 // Signer::sign_hash under the server's private key
    verify: (ByteArray, ByteArray) -> bool,       // Verifier::verify_hash under the client's public key
    responseId: ByteArray,                        // the bytes of DHKeyExchangeResponsePacket::static_unique_id
    keepsEarly: bool                              // a packet that nothing waits for yet is kept, not dropped
  ) {
    // Both ends compute the same shared secret.
    ghost predicate Commutes() {
      forall a, b :: dhShared(a, dhPublic(b)) == dhShared(b, dhPublic(a))
    }

    // No two byte strings have the same hash.
    ghost predicate HashInjective() {
      forall x: ByteArray, y: ByteArray {:trigger sha256(x), sha256(y)} :: sha256(x) == sha256(y) ==> x == y
    }

    // The client's public key belongs to the server's private key.
    ghost predicate KeysMatch() {
      forall h :: verify(h, sign(h))
    }
  }

  function ModPow(base: nat, exponent: nat, p: nat): (r: nat)
    requires p > 0
    ensures r < p
  {
    if exponent == 0 then 1 % p else (base * ModPow(base, exponent - 1, p)) % p
  }

  lemma ModUnique(x: int, p: int, q: int, r: int)
    requires 0 <= r < p && x == p * q + r
    ensures x % p == r
  {
    var d := q - x / p;
    assert p * d == p * q - p * (x / p) == x % p - r;
    MulBound(p, d);
    assert d == 0;
  }

  // Reducing a factor does not change a product modulo p.
  lemma ModMul(x: nat, y: nat, p: nat)
    requires p > 0
    ensures (x * (y % p)) % p == (x * y) % p
  {
    var q, s := y / p, x * (y % p);
    assert y == p * q + y % p;
    assert x * y == x * (p * q) + s == p * (x * q) + s;
    assert s == p * (s / p) + s % p;
    assert x * y == p * (x * q + s / p) + s % p by {
      assert p * (x * q + s / p) == p * (x * q) + p * (s / p);
    }
    ModUnique(x * y, p, x * q + s / p, s % p);
  }

  lemma ModAssociative(a: nat, b: nat, c: nat, p: nat)
    requires p > 0
    ensures (a * ((b * c) % p)) % p == (((a * b) % p) * c) % p
  {
    ModMul(a, b * c, p);
    ModMul(c, a * b, p);
    assert a * (b * c) == c * (a * b);
    assert c * ((a * b) % p) == ((a * b) % p) * c;
  }

  // base^(m+n) = base^m * base^n, modulo p.
  lemma {:induction false} ModPowAdd(base: nat, m: nat, n: nat, p: nat)
    requires p > 0
    ensures ModPow(base, m + n, p) == (ModPow(base, m, p) * ModPow(base, n, p)) % p
  {
    var x, y := ModPow(base, m, p), ModPow(base, n, p);
    if m == 0 {
      ModMul(y, 1, p);
      ModUnique(y, p, 0, y);
      assert x * y == y * (1 % p) && y * 1 == y;
    } else {
      var z := ModPow(base, m - 1, p);
      ModPowAdd(base, m - 1, n, p);
      ModAssociative(base, z, y, p);
    }
  }

  // (base^m)^n = base^(m*n), modulo p.
  lemma {:induction false} ModPowMul(base: nat, m: nat, n: nat, p: nat)
    requires p > 0
    ensures ModPow(ModPow(base, m, p), n, p) == ModPow(base, m * n, p)
  {
    if n == 0 {
      assert m * n == 0;
    } else {
      ModPowMul(base, m, n - 1, p);
      ModPowAdd(base, m, m * (n - 1), p);
      assert m * n == m + m * (n - 1);
    }
  }

  // The Diffie-Hellman law for the multiplicative group.
  lemma ModPowCommutes(g: nat, a: Secret, b: Secret, p: nat)
    requires p > 0
    ensures ModPow(ModPow(g, b, p), a, p) == ModPow(ModPow(g, a, p), b, p)
  {
    ModPowMul(g, b, a, p);
    ModPowMul(g, a, b, p);
    assert a * b == b * a;
  }

  // A number as a byte string, of that many zero bytes.
  function Unary(n: nat): ByteArray {
    seq(n, _ => 0)
  }

  // Diffie-Hellman modulo p with generator g; the hash is the identity and a signature is the hash it signs.
  function ModularPrimitives(g: nat, p: nat, keepsEarly: bool): Primitives
    requires p > 0
  {
    Primitives(
      a => Unary(ModPow(g, a, p)),
      (a, key: ByteArray) => Unary(ModPow(|key|, a, p)),
      (bytes: ByteArray) => bytes,
      (hash: ByteArray) => hash,
      (hash: ByteArray, signature: ByteArray) => signature == hash,
      [],
      keepsEarly)
  }

  // The laws the protocol is proved under can be met.
  lemma LawsCanBeMet(g: nat, p: nat, keepsEarly: bool)
    requires p > 0
    ensures ModularPrimitives(g, p, keepsEarly).Commutes() && ModularPrimitives(g, p, keepsEarly).KeysMatch()
    ensures ModularPrimitives(g, p, keepsEarly).HashInjective()
  {
    var prims := ModularPrimitives(g, p, keepsEarly);
    forall a, b
      ensures prims.dhShared(a, prims.dhPublic(b)) == prims.dhShared(b, prims.dhPublic(a))
    {
      ModPowCommutes(g, a, b, p);
    }
  }
}
