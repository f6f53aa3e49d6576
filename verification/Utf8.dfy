/** What the decoders of `Text` invert: UTF-8 as section 3 of RFC 3629 writes it. */
module Utf8 {
  import opened Wrappers
  import opened Text

  function EncodeChar(c: char): (b: seq<byte>)
    ensures b != []
  {
    var x := c as int;
    if x < 0x80 then [x]
    else if x < 0x800 then [0xC0 + x / 64, 0x80 + x % 64]
    else if x < 0x1_0000 then [0xE0 + x / 64 / 64, 0x80 + x / 64 % 64, 0x80 + x % 64]
    else [0xF0 + x / 64 / 64 / 64, 0x80 + x / 64 / 64 % 64, 0x80 + x / 64 % 64, 0x80 + x % 64]
  }

  function Encode(s: string): seq<byte> {
    if s == [] then [] else EncodeChar(s[0]) + Encode(s[1..])
  }

  // ----- one character -----

  lemma DecodeTwo(s: seq<byte>, a: nat, b: nat)
    requires 2 <= a < 32 && b < 64 && 2 <= |s| && s[0] == 0xC0 + a && s[1] == 0x80 + b
    ensures DecodeOne(s) == Valid(a * 64 + b, 2)
  {
    assert Continue(s, 2, 0, a * 64 + b) == Valid(a * 64 + b, 2);
  }

  lemma DecodeThree(s: seq<byte>, a: nat, b: nat, c: nat)
    requires a < 16 && b < 64 && c < 64 && (a == 0 ==> 32 <= b) && (a == 13 ==> b < 32)
    requires 3 <= |s| && s[0] == 0xE0 + a && s[1] == 0x80 + b && s[2] == 0x80 + c
    ensures DecodeOne(s) == Valid((a * 64 + b) * 64 + c, 3)
  {
    var y := a * 64 + b;
    assert Continue(s, 3, 0, y * 64 + c) == Valid(y * 64 + c, 3);
    assert Continue(s, 2, 1, y) == Valid(y * 64 + c, 3);
  }

  lemma DecodeFour(s: seq<byte>, a: nat, b: nat, c: nat, d: nat)
    requires a < 5 && b < 64 && c < 64 && d < 64 && (a == 0 ==> 16 <= b) && (a == 4 ==> b < 16)
    requires 4 <= |s| && s[0] == 0xF0 + a && s[1] == 0x80 + b && s[2] == 0x80 + c && s[3] == 0x80 + d
    ensures DecodeOne(s) == Valid(((a * 64 + b) * 64 + c) * 64 + d, 4)
  {
    var z := a * 64 + b;
    var y := z * 64 + c;
    assert Continue(s, 4, 0, y * 64 + d) == Valid(y * 64 + d, 4);
    assert Continue(s, 3, 1, y) == Valid(y * 64 + d, 4);
    assert Continue(s, 2, 2, z) == Valid(y * 64 + d, 4);
  }

  lemma DecodeEncoded(c: char, rest: seq<byte>)
    ensures DecodeOne(EncodeChar(c) + rest) == Valid(c as int, |EncodeChar(c)|) && ToChar(c as int) == c
  {
    var s, x := EncodeChar(c) + rest, c as int;
    if x < 0x80 {
    } else if x < 0x800 {
      DecodeTwo(s, x / 64, x % 64);
    } else if x < 0x1_0000 {
      DecodeThree(s, x / 64 / 64, x / 64 % 64, x % 64);
    } else {
      DecodeFour(s, x / 64 / 64 / 64, x / 64 / 64 % 64, x / 64 % 64, x % 64);
    }
  }

  // ----- whole strings -----

  /** Both decoders give back every string. */
  lemma {:induction false} DecodersInvert(s: string)
    ensures Lossy(Encode(s)) == s && FromUtf8(Encode(s)) == Some(s)
  {
    if s == [] {
    } else {
      var first, rest := EncodeChar(s[0]), Encode(s[1..]);
      DecodeEncoded(s[0], rest);
      DecodersInvert(s[1..]);
      assert (first + rest)[|first|..] == rest;
      assert s == [s[0]] + s[1..];
    }
  }

  lemma {:induction false} EncodeConcat(a: string, b: string)
    ensures Encode(a + b) == Encode(a) + Encode(b)
  {
    if a == [] {
      assert a + b == b;
    } else {
      EncodeConcat(a[1..], b);
      assert (a + b)[1..] == a[1..] + b;
      Reassociate(EncodeChar(a[0]), Encode(a[1..]), Encode(b));
    }
  }

  /** A byte below 128 stands for itself and for nothing else. */
  lemma {:induction false} EncodeAvoids(s: string, b: byte)
    requires b < 0x80 && forall i :: 0 <= i < |s| ==> s[i] as int != b
    ensures forall i :: 0 <= i < |Encode(s)| ==> Encode(s)[i] != b
  {
    if s == [] {
    } else {
      EncodeAvoids(s[1..], b);
      assert forall i :: 0 <= i < |EncodeChar(s[0])| ==> EncodeChar(s[0])[i] != b;
    }
  }

  // ----- nothing else is accepted -----

  lemma ContinueOne(s: seq<byte>, i: nat, n: nat, code: nat) returns (d: nat)
    requires 0 < i <= |s| && 0 < n && Continue(s, i, n, code).Valid?
    ensures i < |s| && d < 64 && s[i] == 0x80 + d
    ensures Continue(s, i, n, code) == Continue(s, i + 1, n - 1, code * 64 + d)
  {
    d := s[i] - 0x80;
  }

  lemma Digits64(q: nat, r: nat, n: nat)
    requires r < 64 && n == q * 64 + r
    ensures n / 64 == q && n % 64 == r
  {
  }

  lemma EncodeTwo(a: nat, b: nat)
    requires 2 <= a < 32 && b < 64
    ensures EncodeChar(ToChar(a * 64 + b)) == [0xC0 + a, 0x80 + b]
  {
    Digits64(a, b, a * 64 + b);
  }

  lemma EncodeThree(a: nat, b: nat, c: nat)
    requires a < 16 && b < 64 && c < 64 && (a == 0 ==> 32 <= b) && (a == 13 ==> b < 32)
    ensures EncodeChar(ToChar((a * 64 + b) * 64 + c)) == [0xE0 + a, 0x80 + b, 0x80 + c]
  {
    var y := a * 64 + b;
    Digits64(a, b, y);
    Digits64(y, c, y * 64 + c);
  }

  lemma EncodeFour(a: nat, b: nat, c: nat, d: nat)
    requires a < 5 && b < 64 && c < 64 && d < 64 && (a == 0 ==> 16 <= b) && (a == 4 ==> b < 16)
    ensures EncodeChar(ToChar(((a * 64 + b) * 64 + c) * 64 + d)) == [0xF0 + a, 0x80 + b, 0x80 + c, 0x80 + d]
  {
    var z := a * 64 + b;
    var y := z * 64 + c;
    Digits64(a, b, z);
    Digits64(z, c, y);
    Digits64(y, d, y * 64 + d);
  }

  lemma DecodedTwo(s: seq<byte>)
    requires s != [] && 0x80 <= s[0] < 0xE0 && DecodeOne(s).Valid?
    ensures var r := DecodeOne(s); s[..r.width] == EncodeChar(ToChar(r.code))
  {
    var a: int := s[0] - 0xC0;
    var b := ContinueOne(s, 1, 1, a);
    EncodeTwo(a, b);
  }

  lemma DecodedThree(s: seq<byte>)
    requires s != [] && 0xE0 <= s[0] < 0xF0 && DecodeOne(s).Valid?
    ensures var r := DecodeOne(s); s[..r.width] == EncodeChar(ToChar(r.code))
  {
    var a: int := s[0] - 0xE0;
    var b := ContinueOne(s, 1, 2, a);
    var c := ContinueOne(s, 2, 1, a * 64 + b);
    EncodeThree(a, b, c);
  }

  lemma DecodedFour(s: seq<byte>)
    requires s != [] && 0xF0 <= s[0] && DecodeOne(s).Valid?
    ensures var r := DecodeOne(s); s[..r.width] == EncodeChar(ToChar(r.code))
  {
    var a: int := s[0] - 0xF0;
    var b := ContinueOne(s, 1, 3, a);
    var c := ContinueOne(s, 2, 2, a * 64 + b);
    var d := ContinueOne(s, 3, 1, (a * 64 + b) * 64 + c);
    EncodeFour(a, b, c, d);
  }

  /** What is decoded was encoded: no overlong form, no surrogate, nothing past the last plane. */
  lemma DecodedIsEncoded(s: seq<byte>)
    requires s != [] && DecodeOne(s).Valid?
    ensures var r := DecodeOne(s); s[..r.width] == EncodeChar(ToChar(r.code))
  {
    if s[0] < 0x80 {
    } else if s[0] < 0xE0 {
      DecodedTwo(s);
    } else if s[0] < 0xF0 {
      DecodedThree(s);
    } else {
      DecodedFour(s);
    }
  }

  lemma AcceptedStep(b: seq<byte>) returns (c: char, rest: seq<byte>)
    requires b != [] && FromUtf8(b).Some?
    ensures b == EncodeChar(c) + rest && |rest| < |b|
    ensures FromUtf8(rest).Some? && FromUtf8(b).value == [c] + FromUtf8(rest).value
  {
    var r := DecodeOne(b);
    DecodedIsEncoded(b);
    c, rest := ToChar(r.code), b[r.width..];
    assert b == b[..r.width] + rest;
  }

  /** The strict decoder accepts exactly what some string encodes to. */
  lemma {:induction false} AcceptedIsEncoded(b: seq<byte>)
    requires FromUtf8(b).Some?
    ensures Encode(FromUtf8(b).value) == b
    decreases |b|
  {
    if b == [] {
    } else {
      var c, rest := AcceptedStep(b);
      AcceptedIsEncoded(rest);
      EncodeCons(c, FromUtf8(rest).value);
    }
  }

  lemma EncodeCons(c: char, rest: string)
    ensures Encode([c] + rest) == EncodeChar(c) + Encode(rest)
  {
    assert ([c] + rest)[1..] == rest;
  }

  // ----- what the lossy decoder makes of anything else -----

  /** A byte that begins no character counts as one that could not be read, and nothing else is lost. */
  lemma StrayByte(b: byte, rest: seq<byte>)
    requires 0x80 <= b < 0xC2 || 0xF5 <= b
    ensures Lossy([b] + rest) == ['\U{FFFD}'] + Lossy(rest) && FromUtf8([b] + rest).None?
  {
    assert ([b] + rest)[1..] == rest;
  }

  /** So does a beginning that is not gone on with: what comes instead is read on its own. */
  lemma BrokenOff(lead: byte, rest: seq<byte>)
    requires 0xC2 <= lead < 0xF5 && (rest == [] || rest[0] < 0x80 || 0xC0 <= rest[0])
    ensures Lossy([lead] + rest) == ['\U{FFFD}'] + Lossy(rest) && FromUtf8([lead] + rest).None?
  {
    var s := [lead] + rest;
    assert s[1..] == rest;
    assert DecodeOne(s) == Invalid(1);
  }
}
