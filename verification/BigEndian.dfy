/** Numbers as bytes, most significant first. */
module BigEndian {
  import opened Wrappers

  function Pow256(k: nat): (p: nat)
    ensures 1 <= p
  {
    if k == 0 then 1 else 256 * Pow256(k - 1)
  }

  function Value(b: seq<byte>): nat {
    if b == [] then 0 else 256 * Value(b[..|b| - 1]) + b[|b| - 1]
  }

  /** Exactly k bytes. */
  function Fixed(n: nat, k: nat): (b: seq<byte>)
    ensures |b| == k
    decreases k, n
  {
    if k == 0 then [] else Fixed(n / 256, k - 1) + [n % 256]
  }

  /** As few bytes as the number needs, and one for zero. */
  function Minimal(n: nat): (b: seq<byte>)
    ensures b != []
  {
    if n < 256 then [n] else Minimal(n / 256) + [n % 256]
  }

  lemma Split256(n: nat, p: nat)
    ensures n == 256 * (n / 256) + n % 256 && n % 256 < 256
    ensures n < 256 * p ==> n / 256 < p
  {
  }

  lemma Join256(q: nat, d: byte, n: nat)
    requires n == 256 * q + d
    ensures n / 256 == q && n % 256 == d
  {
  }

  lemma {:induction false} ValueOfFixed(n: nat, k: nat)
    requires n < Pow256(k)
    ensures Value(Fixed(n, k)) == n
  {
    if k == 0 {
    } else {
      Split256(n, Pow256(k - 1));
      ValueOfFixed(n / 256, k - 1);
      assert Fixed(n, k)[..k - 1] == Fixed(n / 256, k - 1);
    }
  }

  lemma {:induction false} FixedOfValue(b: seq<byte>)
    ensures Value(b) < Pow256(|b|) && Fixed(Value(b), |b|) == b
  {
    if b == [] {
    } else {
      var init := b[..|b| - 1];
      FixedOfValue(init);
      Join256(Value(init), b[|b| - 1], Value(b));
      assert b == init + [b[|b| - 1]];
    }
  }

  lemma {:induction false} ValueOfMinimal(n: nat)
    ensures Value(Minimal(n)) == n
  {
    if n < 256 {
      assert Value([n]) == 256 * Value([]) + n;
    } else {
      Split256(n, n);
      ValueOfMinimal(n / 256);
      assert Minimal(n)[..|Minimal(n)| - 1] == Minimal(n / 256);
    }
  }

  /** The order of the bytes: the first counts most. */
  lemma FourBytes(a: byte, b: byte, c: byte, d: byte)
    ensures Value([a, b, c, d]) == 0x100_0000 * a + 0x1_0000 * b + 0x100 * c + d
  {
    var s := [a, b, c, d];
    assert s[..3] == [a, b, c] && s[..3][..2] == [a, b] && s[..2][..1] == [a] && s[..1][..0] == [];
    assert Value([a]) == a;
    assert Value([a, b]) == 256 * Value([a]) + b;
    assert Value([a, b, c]) == 256 * Value([a, b]) + c;
  }

  /** No byte is spent on a leading zero. */
  lemma {:induction false} MinimalIsShort(n: nat)
    requires 0 < n
    ensures Minimal(n)[0] != 0
  {
    if n < 256 {
    } else {
      MinimalIsShort(n / 256);
    }
  }
}
