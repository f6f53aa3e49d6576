/** Key agreement: `core/src/diffie_hellman.rs`. */
module DiffieHellman {
  import opened Wrappers
  import BigEndian

  function Pow(base: nat, exp: nat): nat {
    if exp == 0 then 1 else base * Pow(base, exp - 1)
  }

  // ----- powers -----

  lemma {:induction false} PowAdd(b: nat, m: nat, n: nat)
    ensures Pow(b, m + n) == Pow(b, m) * Pow(b, n)
    decreases m
  {
    if m == 0 {
    } else {
      PowAdd(b, m - 1, n);
      assert b * (Pow(b, m - 1) * Pow(b, n)) == (b * Pow(b, m - 1)) * Pow(b, n);
    }
  }

  lemma {:induction false} PowMul(b: nat, m: nat, n: nat)
    ensures Pow(Pow(b, m), n) == Pow(b, m * n)
    decreases n
  {
    if n == 0 {
    } else {
      PowMul(b, m, n - 1);
      PowAdd(b, m, m * (n - 1));
      assert m + m * (n - 1) == m * n;
    }
  }

  // ----- congruence -----

  /** `a` and `b` leave the same remainder. */
  ghost predicate Congruent(a: nat, b: nat, m: nat)
    requires 0 < m
  {
    a % m == b % m
  }

  lemma RemainderUnique(n: int, m: nat, q: int, r: nat)
    requires 0 < m && n == m * q + r && r < m
    ensures n % m == r
  {
    var d := n / m - q;
    assert m * d == r - n % m;
    if d < 0 {
      MulAtMost(m, d, -1);
    } else if 0 < d {
      MulAtMost(m, 1, d);
    }
  }

  /** Reducing a factor does not change the remainder of a product. */
  lemma MulMod(a: nat, b: nat, m: nat)
    requires 0 < m
    ensures ((a % m) * b) % m == (a * b) % m
  {
    var q, r := a / m, a % m;
    var s := r * b;
    assert a == m * q + r;
    assert a * b == m * (q * b) + s;
    assert s == m * (s / m) + s % m;
    assert m * (q * b) + m * (s / m) == m * (q * b + s / m);
    RemainderUnique(a * b, m, q * b + s / m, s % m);
  }

  lemma CongruentMul(a: nat, a': nat, b: nat, b': nat, m: nat)
    requires 0 < m && Congruent(a, a', m) && Congruent(b, b', m)
    ensures Congruent(a * b, a' * b', m)
  {
    MulMod(a, b, m);
    MulMod(a', b, m);
    MulMod(b, a', m);
    MulMod(b', a', m);
    assert a' * b == b * a' && a' * b' == b' * a';
  }

  lemma {:induction false} CongruentPow(a: nat, a': nat, n: nat, m: nat)
    requires 0 < m && Congruent(a, a', m)
    ensures Congruent(Pow(a, n), Pow(a', n), m)
    decreases n
  {
    if n == 0 {
    } else {
      CongruentPow(a, a', n - 1, m);
      CongruentMul(a, a', Pow(a, n - 1), Pow(a', n - 1), m);
    }
  }

  // ----- square and multiply -----

  /** What the loop comes to: the remainder of the power, except that an empty product is never reduced. */
  ghost function PowMValue(base: nat, exp: nat, modulus: nat): nat
    requires 0 < modulus
  {
    if exp == 0 then 1 else Pow(base, exp) % modulus
  }

  method PowM(base0: nat, exp0: nat, modulus: nat) returns (result: nat)
    requires 0 < modulus
    ensures result == PowMValue(base0, exp0, modulus)
  {
    var base: nat, exp: nat := base0, exp0;
    ghost var target := Pow(base0, exp0);
    result := 1;
    while exp != 0
      invariant Congruent(result * Pow(base, exp), target, modulus)
      invariant exp0 == 0 ==> exp == 0 && result == 1
      invariant exp == 0 < exp0 ==> result < modulus
      decreases exp
    {
      ghost var was := result;
      if exp % 2 == 1 {
        result := (result * base) % modulus;
      }
      SquareStep(was, base, exp, modulus, result);
      exp := exp / 2;
      base := (base * base) % modulus;
    }
    EmptyProduct(result, base, target, modulus);
  }

  lemma EmptyProduct(result: nat, base: nat, target: nat, m: nat)
    requires 0 < m && Congruent(result * Pow(base, 0), target, m)
    ensures result < m ==> result == target % m
  {
    if result < m {
      RemainderUnique(result, m, 0, result);
    }
  }

  /** One turn of the loop keeps what the product comes to. */
  lemma SquareStep(result: nat, base: nat, exp: nat, m: nat, result': nat)
    requires 0 < m && 0 < exp
    requires result' == if exp % 2 == 1 then (result * base) % m else result
    ensures Congruent(result' * Pow((base * base) % m, exp / 2), result * Pow(base, exp), m)
  {
    var half, square := exp / 2, base * base;
    var p, p' := Pow(square, half), Pow(square % m, half);
    assert p == Pow(base, 2 * half) by {
      PowSquare(base);
      PowMul(base, 2, half);
    }
    ModMod(square, m);
    CongruentPow(square % m, square, half, m);
    if exp % 2 == 1 {
      assert Pow(base, exp) == base * p;
      OddStep(result, base, p', p, m);
    } else {
      CongruentMul(result, result, p', p, m);
    }
  }

  lemma OddStep(result: nat, base: nat, p': nat, p: nat, m: nat)
    requires 0 < m && Congruent(p', p, m)
    ensures Congruent(((result * base) % m) * p', result * (base * p), m)
  {
    var x := result * base;
    ModMod(x, m);
    CongruentMul(x % m, x, p', p, m);
    MulAssociates(result, base, p);
  }

  lemma ModMod(x: nat, m: nat)
    requires 0 < m
    ensures Congruent(x % m, x, m)
  {
    RemainderUnique(x % m, m, 0, x % m);
  }

  lemma PowSquare(b: nat)
    ensures Pow(b, 2) == b * b
  {
    assert Pow(b, 2) == b * Pow(b, 1) && Pow(b, 1) == b * Pow(b, 0);
  }

  lemma MulAssociates(a: nat, b: nat, c: nat)
    ensures a * (b * c) == (a * b) * c
  {
  }

  /** The one family of inputs on which the loop's answer is not the remainder: anything to the power 0, modulo 1. */
  lemma PowMIsRemainder(base: nat, exp: nat, modulus: nat)
    requires 0 < modulus
    ensures PowMValue(base, exp, modulus) == Pow(base, exp) % modulus <==> !(exp == 0 && modulus == 1)
  {
    if 1 < modulus {
      RemainderUnique(1, modulus, 0, 1);
    }
  }

  /** Modulo 1 there is only 0, and the loop returns the 1 it starts from. */
  lemma EmptyProductUnreduced(base: nat)
    ensures PowMValue(base, 0, 1) == 1 && Pow(base, 0) % 1 == 0
  {
  }

  // ----- the shared secret -----

  const DH_GENERATOR: nat := 2

  const DH_PRIME_BYTES: seq<byte> := [
    0xff, 0xff, 0xff, 0xff, 0xff, 0xff, 0xff, 0xff, 0xc9, 0x0f, 0xda, 0xa2, 0x21, 0x68, 0xc2, 0x34,
    0xc4, 0xc6, 0x62, 0x8b, 0x80, 0xdc, 0x1c, 0xd1, 0x29, 0x02, 0x4e, 0x08, 0x8a, 0x67, 0xcc, 0x74,
    0x02, 0x0b, 0xbe, 0xa6, 0x3b, 0x13, 0x9b, 0x22, 0x51, 0x4a, 0x08, 0x79, 0x8e, 0x34, 0x04, 0xdd,
    0xef, 0x95, 0x19, 0xb3, 0xcd, 0x3a, 0x43, 0x1b, 0x30, 0x2b, 0x0a, 0x6d, 0xf2, 0x5f, 0x14, 0x37,
    0x4f, 0xe1, 0x35, 0x6d, 0x6d, 0x51, 0xc2, 0x45, 0xe4, 0x85, 0xb5, 0x76, 0x62, 0x5e, 0x7e, 0xc6,
    0xf4, 0x4c, 0x42, 0xe9, 0xa6, 0x3a, 0x36, 0x20, 0xff, 0xff, 0xff, 0xff, 0xff, 0xff, 0xff, 0xff]

  /** The 768-bit modulus of the First Oakley Group. */
  function DhPrime(): (p: nat)
    ensures 1 < p
  {
    LeadingByte(DH_PRIME_BYTES);
    BigEndian.Value(DH_PRIME_BYTES)
  }

  lemma {:induction false} LeadingByte(b: seq<byte>)
    requires b != []
    ensures b[0] <= BigEndian.Value(b)
  {
    if 1 < |b| {
      LeadingByte(b[..|b| - 1]);
    }
  }

  class DhLocalKeys {
    const privateKey: nat
    const publicKey: nat

    ghost predicate Valid() {
      publicKey == PowMValue(DH_GENERATOR, privateKey, DhPrime())
    }

    /** Any private key; the source draws 95 random bytes for it. */
    constructor (privateKey: nat)
      ensures Valid() && this.privateKey == privateKey
      ensures publicKey == Pow(2, privateKey) % DhPrime()
    {
      this.privateKey := privateKey;
      var key := PowM(DH_GENERATOR, privateKey, DhPrime());
      PowMIsRemainder(DH_GENERATOR, privateKey, DhPrime());
      this.publicKey := key;
    }

    function PublicKey(): seq<byte> {
      BigEndian.Minimal(publicKey)
    }

    method SharedSecret(remoteKey: seq<byte>) returns (secret: seq<byte>)
      ensures secret == SecretOf(DhPrime(), privateKey, remoteKey)
      ensures secret == BigEndian.Minimal(Pow(BigEndian.Value(remoteKey), privateKey) % DhPrime())
    {
      PowMIsRemainder(BigEndian.Value(remoteKey), privateKey, DhPrime());
      var shared := PowM(BigEndian.Value(remoteKey), privateKey, DhPrime());
      secret := BigEndian.Minimal(shared);
    }
  }

  /** The bytes a side arrives at from its private key and the public key the other side sent. */
  ghost function SecretOf(p: nat, privateKey: nat, remoteKey: seq<byte>): seq<byte>
    requires 0 < p
  {
    BigEndian.Minimal(PowMValue(BigEndian.Value(remoteKey), privateKey, p))
  }

  lemma RemainderPower(g: nat, b: nat, a: nat, p: nat)
    requires 0 < p
    ensures Pow(Pow(g, b) % p, a) % p == Pow(g, b * a) % p
  {
    ModMod(Pow(g, b), p);
    CongruentPow(Pow(g, b) % p, Pow(g, b), a, p);
    PowMul(g, b, a);
  }

  lemma SecretIsPower(g: nat, p: nat, a: nat, b: nat)
    requires 1 < p
    ensures SecretOf(p, a, BigEndian.Minimal(PowMValue(g, b, p))) == BigEndian.Minimal(Pow(g, b * a) % p)
  {
    BigEndian.ValueOfMinimal(PowMValue(g, b, p));
    PowMIsRemainder(g, b, p);
    PowMIsRemainder(Pow(g, b) % p, a, p);
    RemainderPower(g, b, a, p);
  }

  /** Both sides arrive at the same bytes, whatever their private keys, in every group with a modulus above 1. */
  lemma SecretsAgree(g: nat, p: nat, a: nat, b: nat)
    requires 1 < p
    ensures SecretOf(p, a, BigEndian.Minimal(PowMValue(g, b, p))) == SecretOf(p, b, BigEndian.Minimal(PowMValue(g, a, p)))
  {
    SecretIsPower(g, p, a, b);
    SecretIsPower(g, p, b, a);
    assert a * b == b * a;
  }

  /** The exchange as the session runs it: each side hands the other its public key. */
  method Exchange(a: DhLocalKeys, b: DhLocalKeys) returns (secretA: seq<byte>, secretB: seq<byte>)
    requires a.Valid() && b.Valid()
    ensures secretA == secretB
  {
    SecretsAgree(DH_GENERATOR, DhPrime(), a.privateKey, b.privateKey);
    secretA := a.SharedSecret(b.PublicKey());
    secretB := b.SharedSecret(a.PublicKey());
  }
}
