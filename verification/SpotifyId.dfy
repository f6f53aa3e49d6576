/** Spotify ids: the base62 conversions of `core/src/spotify_id.rs`. */
module SpotifyIds {
  import opened Wrappers

  const SIZE_BASE62: nat := 22

  const TWO_32: nat := 0x1_0000_0000
  const TWO_64: nat := 0x1_0000_0000_0000_0000
  const TWO_96: nat := 0x1_0000_0000_0000_0000_0000_0000
  const TWO_128: nat := 0x1_0000_0000_0000_0000_0000_0000_0000_0000

  type digit = d: nat | d < 62

  // ----- plain positional notation -----

  function Pow62(k: nat): (p: nat)
    ensures 1 <= p
  {
    if k == 0 then 1 else 62 * Pow62(k - 1)
  }

  /**
   * The value of digits stored least significant first, as the conversion buffer holds them, with
   * `top` standing above them for whatever they do not hold yet.
   */
  ghost function Value(ds: seq<byte>, top: nat): nat {
    if ds == [] then top else ds[0] + 62 * Value(ds[1..], top)
  }

  /** The digit table, `0-9a-zA-Z`, as the ASCII bytes it holds. */
  function DigitByte(d: digit): byte {
    if d < 10 then 48 + d else if d < 36 then 97 + (d - 10) else 65 + (d - 36)
  }

  /** The digit a byte stands for, if it is one of the 62. */
  function DigitOf(c: byte): Option<digit> {
    if 48 <= c <= 57 then Some(c - 48)
    else if 97 <= c <= 122 then Some(c - 97 + 10)
    else if 65 <= c <= 90 then Some(c - 65 + 36)
    else None
  }

  /** The digits run from 0 to 9, from a to z and from A to Z, in this order, and there are no others. */
  lemma DigitsAre(d: digit, c: byte)
    ensures DigitByte(0) == '0' as int && DigitByte(9) == '9' as int && DigitByte(10) == 'a' as int
    ensures DigitByte(35) == 'z' as int && DigitByte(36) == 'A' as int && DigitByte(61) == 'Z' as int
    ensures d < 61 && d != 9 && d != 35 ==> DigitByte(d + 1) == DigitByte(d) + 1
    ensures DigitOf(c) == Some(d) <==> c == DigitByte(d)
  {
  }

  /** The k-digit base62 numeral of n, most significant digit first: one division per digit. */
  ghost function Numeral(n: nat, k: nat): seq<byte>
    decreases k, n
  {
    if k == 0 then [] else Numeral(n / 62, k - 1) + [DigitByte(n % 62)]
  }

  ghost predicate AllDigits(s: seq<byte>) {
    forall i :: 0 <= i < |s| ==> DigitOf(s[i]).Some?
  }

  /** The value of a numeral, most significant digit first. */
  ghost function NumeralValue(s: seq<byte>): nat
    requires AllDigits(s)
  {
    if s == [] then 0 else 62 * NumeralValue(s[..|s| - 1]) + DigitOf(s[|s| - 1]).value
  }

  // ----- numerals and values are inverse to each other -----

  lemma Split62(n: nat, p: nat)
    ensures n == 62 * (n / 62) + n % 62 && n % 62 < 62
    ensures n < 62 * p ==> n / 62 < p
  {
  }

  lemma Join62(q: nat, d: nat, n: nat)
    requires d < 62 && n == 62 * q + d
    ensures n / 62 == q && n % 62 == d
  {
  }

  lemma {:induction false} NumeralOfValue(s: seq<byte>)
    requires AllDigits(s)
    ensures Numeral(NumeralValue(s), |s|) == s && NumeralValue(s) < Pow62(|s|)
  {
    if s == [] {
    } else {
      var init, d := s[..|s| - 1], DigitOf(s[|s| - 1]).value;
      NumeralOfValue(init);
      Join62(NumeralValue(init), d, NumeralValue(s));
      assert s == init + [DigitByte(d)];
    }
  }

  lemma ValueOfSnoc(init: seq<byte>, d: digit)
    requires AllDigits(init)
    ensures AllDigits(init + [DigitByte(d)])
    ensures NumeralValue(init + [DigitByte(d)]) == 62 * NumeralValue(init) + d
  {
    assert (init + [DigitByte(d)])[..|init|] == init;
  }

  lemma {:induction false} ValueOfNumeral(n: nat, k: nat)
    requires n < Pow62(k)
    ensures AllDigits(Numeral(n, k)) && |Numeral(n, k)| == k && NumeralValue(Numeral(n, k)) == n
  {
    if k == 0 {
    } else {
      Split62(n, Pow62(k - 1));
      ValueOfNumeral(n / 62, k - 1);
      ValueOfSnoc(Numeral(n / 62, k - 1), n % 62);
    }
  }

  lemma Pow62Of22()
    ensures TWO_128 < Pow62(22)
  {
    assert Pow62(11) == 52036560683837093888;
    assert Pow62(22) == 52036560683837093888 * 52036560683837093888;
  }

  // ----- the limb-by-limb conversion -----

  type u64 = x: nat | x < TWO_64

  /** The last digit may as well be counted into what stands above the others. */
  lemma {:induction false} ValueSnoc(ds: seq<byte>, d: byte, top: nat)
    ensures Value(ds + [d], top) == Value(ds, d + 62 * top)
  {
    if ds == [] {
      assert ([] + [d])[1..] == [];
    } else {
      ValueSnoc(ds[1..], d, top);
      assert (ds + [d])[1..] == ds[1..] + [d];
    }
  }

  /** Anything left above k digits makes the value at least 62^k. */
  lemma {:induction false} ValueAtLeast(ds: seq<byte>, top: nat)
    requires 0 < top
    ensures Pow62(|ds|) <= Value(ds, top)
  {
    if ds == [] {
    } else {
      ValueAtLeast(ds[1..], top);
    }
  }

  lemma RoomForDigit(ds: seq<byte>, carry: nat)
    requires |ds| <= 22 && 0 < carry && Value(ds, carry) < TWO_128
    ensures |ds| < 22
  {
    ValueAtLeast(ds, carry);
    Pow62Of22();
  }

  /** One turn of the carry loop: the carry takes in a digit, scaled by 2^32, and gives out another. */
  lemma CarryStep(carry: nat, digit: nat, sum: nat, rest: nat)
    requires sum == carry + digit * TWO_32
    ensures carry + TWO_32 * (digit + 62 * rest) == sum % 62 + 62 * (sum / 62 + TWO_32 * rest)
  {
    Split62(sum, TWO_32);
  }

  /** The last of the digits may as well stand above the others. */
  lemma ValueMove(done: seq<byte>, done': seq<byte>, above: nat, above': nat)
    requires done' != [] && done'[..|done'| - 1] == done && above == done'[|done'| - 1] + 62 * above'
    ensures Value(done', above') == Value(done, above)
  {
    var d := done'[|done'| - 1];
    assert done' == done + [d];
    ValueSnoc(done, d, above');
  }

  /** A conversion buffer whose digits from `i` on are still untouched. */
  ghost predicate IsBuffer(ds: seq<byte>, i: nat) {
    && i <= |ds| == SIZE_BASE62
    && forall j :: 0 <= j < |ds| ==> ds[j] < 62 && (i <= j ==> ds[j] == 0)
  }

  /** The first inner loop: multiplies the digits by 2^32 and adds a limb, in 64-bit arithmetic. */
  method ScaleDigits(dst: array<byte>, i: nat, limb: u64) returns (carry: u64)
    requires IsBuffer(dst[..], i) && limb < TWO_32
    modifies dst
    ensures IsBuffer(dst[..], i)
    ensures Value(dst[..i], carry) == old(Value(dst[..i], 0)) * TWO_32 + limb
  {
    ghost var was := dst[..i];
    ghost var target := Value(was, 0) * TWO_32 + limb;
    carry := limb;
    ghost var above := target;
    for j := 0 to i
      invariant carry < TWO_32 && above == carry + TWO_32 * Value(was[j..], 0)
      invariant IsBuffer(dst[..], i) && dst[j..i] == was[j..]
      invariant Value(dst[..j], above) == target
    {
      ghost var done, rest, before := dst[..j], was[j..], carry;
      assert dst[j] == rest[0] && rest[1..] == was[j + 1..];
      var sum: u64 := carry + dst[j] * TWO_32;
      Split62(sum, TWO_32);
      CarryStep(carry, dst[j], sum, Value(rest[1..], 0));
      carry, dst[j] := sum / 62, sum % 62;
      assert dst[..j + 1][..j] == done;
      ghost var above' := carry + TWO_32 * Value(rest[1..], 0);
      ValueMove(done, dst[..j + 1], above, above');
      above := above';
    }
  }

  /** The second inner loop: moves what is left of the carry into fresh digits, and never runs out of them. */
  method SpillCarry(dst: array<byte>, start: nat, carry0: u64) returns (i: nat)
    requires IsBuffer(dst[..], start) && Value(dst[..start], carry0) < TWO_128
    modifies dst
    ensures start <= i && IsBuffer(dst[..], i)
    ensures Value(dst[..i], 0) == old(Value(dst[..start], carry0))
  {
    var carry := carry0;
    i := start;
    while carry > 0
      invariant start <= i && IsBuffer(dst[..], i)
      invariant Value(dst[..i], carry) == old(Value(dst[..start], carry0))
      decreases carry
    {
      ghost var done := dst[..i];
      RoomForDigit(done, carry);
      ValueSnoc(done, carry % 62, carry / 62);
      dst[i] := carry % 62;
      carry := carry / 62;
      i := i + 1;
      assert dst[..i] == done + [dst[i - 1]];
    }
  }

  lemma {:induction false} TrailingZeros(ds: seq<byte>, k: nat)
    requires k <= |ds| && forall j :: k <= j < |ds| ==> ds[j] == 0
    ensures Value(ds, 0) == Value(ds[..k], 0)
    decreases |ds|
  {
    if k < |ds| {
      var init := ds[..|ds| - 1];
      TrailingZeros(init, k);
      assert ds == init + [0] && init[..k] == ds[..k];
      ValueSnoc(init, 0, 0);
    } else {
      assert ds[..k] == ds;
    }
  }

  /** A buffer of digits, read from its far end, is the numeral of its value. */
  lemma {:induction false} ReversedBuffer(ds: seq<byte>, s: seq<byte>)
    requires |s| == |ds|
    requires forall j :: 0 <= j < |ds| ==> ds[j] < 62 && s[|ds| - 1 - j] == DigitByte(ds[j])
    ensures s == Numeral(Value(ds, 0), |ds|)
  {
    if ds == [] {
    } else {
      var init := s[..|s| - 1];
      ReversedBuffer(ds[1..], init);
      assert s == init + [DigitByte(ds[0])];
      assert (ds[0] + 62 * Value(ds[1..], 0)) / 62 == Value(ds[1..], 0);
    }
  }

  /** The k most significant of the four 32-bit limbs of an id, as one number. */
  ghost function TopLimbs(id: nat, k: nat): nat
    requires k <= 4
  {
    match k
    case 0 => id / TWO_128
    case 1 => id / TWO_96
    case 2 => id / TWO_64
    case 3 => id / TWO_32
    case 4 => id
  }

  lemma TopLimbsStep(id: nat, k: nat, unit: nat)
    requires id < TWO_128 && k < 4 && unit == [TWO_96, TWO_64, TWO_32, 1][k]
    ensures TopLimbs(id, k) * TWO_32 + (id / unit) % TWO_32 == TopLimbs(id, k + 1) < TWO_128
  {
    assert id / unit == TopLimbs(id, k + 1);
  }

  method ToBase62(id: nat) returns (s: seq<byte>)
    requires id < TWO_128
    ensures s == Numeral(id, SIZE_BASE62)
  {
    var dst := new byte[22](_ => 0);
    var i: nat := 0;
    var units: seq<nat> := [TWO_96, TWO_64, TWO_32, 1];
    for k := 0 to 4
      invariant IsBuffer(dst[..], i) && Value(dst[..i], 0) == TopLimbs(id, k)
    {
      var limb: u64 := (id / units[k]) % TWO_32;
      TopLimbsStep(id, k, units[k]);
      var carry := ScaleDigits(dst, i, limb);
      i := SpillCarry(dst, i, carry);
    }
    TrailingZeros(dst[..], i);
    assert dst[..][..i] == dst[..i];
    s := [];
    for k := 0 to 22
      invariant |s| == k
      invariant forall j :: 0 <= j < k ==> s[j] == DigitByte(dst[21 - j])
    {
      s := s + [DigitByte(dst[21 - k])];
    }
    ReversedBuffer(dst[..], s);
  }

  // ----- parsing -----

  /** What `from_base62` accepts, and the value it gives. */
  ghost function Parsed(src: seq<byte>): Option<nat> {
    if |src| == SIZE_BASE62 && AllDigits(src) && NumeralValue(src) < TWO_128
    then Some(NumeralValue(src))
    else None
  }

  /** A prefix that is already too large cannot be brought back by what follows. */
  lemma {:induction false} PrefixValue(s: seq<byte>, k: nat)
    requires AllDigits(s) && k <= |s|
    ensures NumeralValue(s[..k]) <= NumeralValue(s)
    decreases |s|
  {
    if k < |s| {
      PrefixValue(s[..|s| - 1], k);
      assert s[..|s| - 1][..k] == s[..k];
    } else {
      assert s[..k] == s;
    }
  }

  method FromBase62(src: seq<byte>) returns (r: Option<nat>)
    ensures r == Parsed(src)
  {
    if |src| != SIZE_BASE62 {
      return None;
    }
    var dst: nat := 0;
    for i := 0 to |src|
      invariant AllDigits(src[..i]) && dst == NumeralValue(src[..i]) < TWO_128
    {
      assert src[..i + 1][..i] == src[..i];
      var p := DigitOf(src[i]);
      if p.None? {
        return None;
      }
      assert AllDigits(src[..i + 1]);
      if TWO_128 <= dst * 62 || TWO_128 <= dst * 62 + p.value {
        if AllDigits(src) {
          PrefixValue(src, i + 1);
        }
        return None;
      }
      dst := dst * 62 + p.value;
    }
    assert src[..|src|] == src;
    return Some(dst);
  }

  // ----- the two conversions are inverse to each other -----

  lemma ParseOfNumeral(id: nat)
    requires id < TWO_128
    ensures Parsed(Numeral(id, SIZE_BASE62)) == Some(id)
  {
    Pow62Of22();
    ValueOfNumeral(id, SIZE_BASE62);
  }

  lemma NumeralOfParse(src: seq<byte>)
    requires Parsed(src).Some?
    ensures Numeral(Parsed(src).value, SIZE_BASE62) == src && Parsed(src).value < TWO_128
  {
    NumeralOfValue(src);
  }
}
