/**
 * The text primitives the AirPlay parsers lean on, as Rust's standard library defines them: UTF-8 decoding
 * (strict and lossy), trimming, line splitting and number parsing.
 */
module Text {
  import opened Wrappers

  // ----- UTF-8 -----

  /** What a byte string starts with: a scalar value, or a maximal ill-formed stretch. */
  datatype Scalar = Valid(code: nat, width: nat) | Invalid(width: nat)

  const REPLACEMENT: char := '\U{FFFD}'

  /** Every code the decoder calls valid is a scalar value, and stands for itself. */
  function ToChar(code: nat): char {
    if code < 0xD800 || 0xE000 <= code < 0x11_0000 then code as char else REPLACEMENT
  }

  /** Takes in `n` continuation bytes from index `i` on. */
  function Continue(s: seq<byte>, i: nat, n: nat, code: nat): (r: Scalar)
    requires 0 < i <= |s|
    ensures 0 < r.width <= |s|
    decreases n
  {
    if n == 0 then Valid(code, i)
    else if i < |s| && 0x80 <= s[i] < 0xC0 then Continue(s, i + 1, n - 1, code * 64 + (s[i] - 0x80) as int)
    else Invalid(i)
  }

  /** The second byte of a longer form must exclude overlong forms, surrogates and what is past the last plane. */
  predicate IsSecond(lead: byte, s: seq<byte>) {
    && 1 < |s| && 0x80 <= s[1] < 0xC0
    && (lead == 0xE0 ==> 0xA0 <= s[1]) && (lead == 0xED ==> s[1] < 0xA0)
    && (lead == 0xF0 ==> 0x90 <= s[1]) && (lead == 0xF4 ==> s[1] < 0x90)
  }

  function DecodeOne(s: seq<byte>): (r: Scalar)
    requires s != []
    ensures 0 < r.width <= |s|
  {
    var lead := s[0];
    if lead < 0x80 then Valid(lead, 1)
    else if 0xC2 <= lead < 0xE0 then Continue(s, 1, 1, lead - 0xC0)
    else if 0xE0 <= lead < 0xF5 && !IsSecond(lead, s) then Invalid(1)
    else if 0xE0 <= lead < 0xF0 then Continue(s, 1, 2, lead - 0xE0)
    else if 0xF0 <= lead < 0xF5 then Continue(s, 1, 3, lead - 0xF0)
    else Invalid(1)
  }

  /** `String::from_utf8_lossy`: each ill-formed stretch becomes one replacement character. */
  function Lossy(s: seq<byte>): string
    decreases |s|
  {
    if s == [] then []
    else
      match DecodeOne(s)
      case Valid(code, width) => [ToChar(code)] + Lossy(s[width..])
      case Invalid(width) => [REPLACEMENT] + Lossy(s[width..])
  }

  /** `str::from_utf8`. */
  function FromUtf8(s: seq<byte>): Option<string>
    decreases |s|
  {
    if s == [] then Some([])
    else
      match DecodeOne(s)
      case Invalid(_) => None
      case Valid(code, width) =>
        match FromUtf8(s[width..])
        case None => None
        case Some(rest) => Some([ToChar(code)] + rest)
  }

  // ----- trimming and splitting -----

  /** `char::is_whitespace`. */
  predicate IsWhitespace(c: char) {
    var x := c as int;
    || 9 <= x <= 13 || x == 0x20 || x == 0x85 || x == 0xA0 || x == 0x1680 || 0x2000 <= x <= 0x200A
    || x == 0x2028 || x == 0x2029 || x == 0x202F || x == 0x205F || x == 0x3000
  }

  function TrimStart(s: string): string {
    if s != [] && IsWhitespace(s[0]) then TrimStart(s[1..]) else s
  }

  function TrimEnd(s: string): string {
    if s != [] && IsWhitespace(s[|s| - 1]) then TrimEnd(s[..|s| - 1]) else s
  }

  function Trim(s: string): string {
    TrimEnd(TrimStart(s))
  }

  /** What comes before the first `c`, and what comes after it if there is one. */
  function SplitOnce(s: string, c: char): (r: (string, Option<string>))
    ensures r.1.Some? ==> |r.1.value| < |s|
  {
    if s == [] then ([], None)
    else if s[0] == c then ([], Some(s[1..]))
    else
      var (head, tail) := SplitOnce(s[1..], c);
      ([s[0]] + head, tail)
  }

  function Split(s: string, c: char): seq<string>
    decreases |s|
  {
    var (head, tail) := SplitOnce(s, c);
    match tail
    case None => [head]
    case Some(rest) => [head] + Split(rest, c)
  }

  function StripCr(s: string): string {
    if s != [] && s[|s| - 1] == '\r' then s[..|s| - 1] else s
  }

  /** `str::lines`. */
  function Lines(s: string): seq<string>
    decreases |s|
  {
    if s == [] then []
    else
      var (head, tail) := SplitOnce(s, '\n');
      match tail
      case None => [head]
      case Some(rest) => [StripCr(head)] + Lines(rest)
  }

  /** The first whitespace-free stretch of a string that does not start with whitespace, and the rest. */
  function FirstWord(s: string): (r: (string, string))
    ensures |r.0| + |r.1| == |s|
    ensures s != [] && !IsWhitespace(s[0]) ==> r.0 != []
  {
    if s == [] || IsWhitespace(s[0]) then ([], s)
    else
      var (word, rest) := FirstWord(s[1..]);
      ([s[0]] + word, rest)
  }

  /** `split_whitespace().nth(1)`. */
  function SecondWord(s: string): Option<string> {
    var rest := TrimStart(FirstWord(TrimStart(s)).1);
    if rest == [] then None else Some(FirstWord(rest).0)
  }

  function LowerAscii(c: char): char {
    if 'A' <= c <= 'Z' then (c as int + 32) as char else c
  }

  predicate EqIgnoreAsciiCase(a: string, b: string) {
    |a| == |b| && forall i :: 0 <= i < |a| ==> LowerAscii(a[i]) == LowerAscii(b[i])
  }

  // ----- numbers -----

  function DigitValue(c: char, radix: nat): Option<nat> {
    var x := c as int;
    var d := if '0' <= c <= '9' then x - 48
             else if 'a' <= c <= 'z' then x - 87
             else if 'A' <= c <= 'Z' then x - 55
             else 36;
    if d < radix then Some(d) else None
  }

  function DigitsValue(s: string, radix: nat): Option<nat> {
    if s == [] then Some(0)
    else
      match (DigitsValue(s[..|s| - 1], radix), DigitValue(s[|s| - 1], radix))
      case (Some(high), Some(low)) => Some(high * radix + low)
      case _ => None
  }

  /** `from_str_radix` of an unsigned type: an optional plus sign, then at least one digit. */
  function ParseUnsigned(s: string, radix: nat): Option<nat> {
    var digits := if s != [] && s[0] == '+' then s[1..] else s;
    if digits == [] then None else DigitsValue(digits, radix)
  }
}
