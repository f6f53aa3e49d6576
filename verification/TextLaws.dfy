/** What the primitives of `Text` give back of what was put together, stated on the characters themselves. */
module TextLaws {
  import opened Wrappers
  import opened Text

  // ----- letter case -----

  /** The other case of an ASCII letter. */
  function Flip(c: char): char {
    if 'a' <= c <= 'z' then (c as int - 32) as char
    else if 'A' <= c <= 'Z' then (c as int + 32) as char
    else c
  }

  /** The string with the case of some of its letters changed. */
  function Recased(s: string, flips: seq<bool>): (r: string)
    ensures |r| == |s| && forall i :: 0 <= i < |s| ==> r[i] == s[i] || r[i] == Flip(s[i])
  {
    if s == [] then []
    else if flips == [] then s
    else
      var rest := Recased(s[1..], flips[1..]);
      assert forall i :: 0 < i < |s| ==> s[i] == s[1..][i - 1];
      [if flips[0] then Flip(s[0]) else s[0]] + rest
  }

  /** Two strings are the same but for case exactly if letter by letter they are equal or the two cases of one letter. */
  lemma EqualButForCase(a: string, b: string)
    ensures EqIgnoreAsciiCase(a, b) <==> |a| == |b| && forall i :: 0 <= i < |a| ==> a[i] == b[i] || a[i] == Flip(b[i])
  {
  }

  lemma RecasedIsEqual(s: string, flips: seq<bool>)
    ensures EqIgnoreAsciiCase(Recased(s, flips), s)
  {
    EqualButForCase(Recased(s, flips), s);
  }

  // ----- blanks -----

  predicate Blank(s: string) {
    forall i :: 0 <= i < |s| ==> s[i] == ' ' || s[i] == '\t'
  }

  /** Begins and ends with something. */
  predicate Tight(s: string) {
    s != [] && !IsWhitespace(s[0]) && !IsWhitespace(s[|s| - 1])
  }

  lemma {:induction false} TrimStartPadded(before: string, s: string)
    requires Blank(before) && s != [] && !IsWhitespace(s[0])
    ensures TrimStart(before + s) == s
  {
    if before == [] {
      assert before + s == s;
    } else {
      TrimStartPadded(before[1..], s);
      assert (before + s)[1..] == before[1..] + s;
    }
  }

  lemma {:induction false} TrimEndPadded(s: string, after: string)
    requires Blank(after) && s != [] && !IsWhitespace(s[|s| - 1])
    ensures TrimEnd(s + after) == s
    decreases |after|
  {
    if after == [] {
      assert s + after == s;
    } else {
      TrimEndPadded(s, after[..|after| - 1]);
      assert (s + after)[..|s + after| - 1] == s + after[..|after| - 1];
    }
  }

  lemma TrimPadded(before: string, s: string, after: string)
    requires Blank(before) && Tight(s) && Blank(after)
    ensures Trim(before + s + after) == s
  {
    Reassociate(before, s, after);
    TrimStartPadded(before, s + after);
    TrimEndPadded(s, after);
  }

  // ----- splitting -----

  predicate Lacks(s: string, c: char) {
    forall i :: 0 <= i < |s| ==> s[i] != c
  }

  lemma {:induction false} SplitOnceAt(s: string, c: char, rest: string)
    requires Lacks(s, c)
    ensures SplitOnce(s + [c] + rest, c) == (s, Some(rest))
  {
    var all := s + [c] + rest;
    if s == [] {
      assert all[1..] == rest;
    } else {
      SplitOnceAt(s[1..], c, rest);
      assert all[1..] == s[1..] + [c] + rest;
      assert [s[0]] + s[1..] == s;
    }
  }

  lemma {:induction false} SplitOnceAbsent(s: string, c: char)
    requires Lacks(s, c)
    ensures SplitOnce(s, c) == (s, None)
  {
    if s == [] {
    } else {
      SplitOnceAbsent(s[1..], c);
      assert s == [s[0]] + s[1..];
    }
  }

  function Joined(parts: seq<string>, sep: string): string
    requires parts != []
  {
    if |parts| == 1 then parts[0] else parts[0] + sep + Joined(parts[1..], sep)
  }

  /** Splitting gives back the parts, whatever they are. */
  lemma {:induction false} SplitJoined(parts: seq<string>, c: char)
    requires parts != [] && forall i :: 0 <= i < |parts| ==> Lacks(parts[i], c)
    ensures Split(Joined(parts, [c]), c) == parts
  {
    if |parts| == 1 {
      SplitOnceAbsent(parts[0], c);
    } else {
      SplitOnceAt(parts[0], c, Joined(parts[1..], [c]));
      SplitJoined(parts[1..], c);
    }
  }

  /** The lines of a text that ends each but the last with a carriage return and a line feed. */
  lemma {:induction false} LinesJoined(parts: seq<string>)
    requires parts != [] && forall i :: 0 <= i < |parts| ==> parts[i] != [] && Lacks(parts[i], '\n')
    ensures Joined(parts, "\r\n") != [] && Lines(Joined(parts, "\r\n")) == parts
  {
    if |parts| == 1 {
      SplitOnceAbsent(parts[0], '\n');
    } else {
      var rest := Joined(parts[1..], "\r\n");
      LinesJoined(parts[1..]);
      var head := parts[0] + ['\r'];
      assert Joined(parts, "\r\n") == head + ['\n'] + rest;
      SplitOnceAt(head, '\n', rest);
      assert StripCr(head) == parts[0];
    }
  }

  // ----- words -----

  predicate Solid(s: string) {
    s != [] && forall i :: 0 <= i < |s| ==> !IsWhitespace(s[i])
  }

  lemma {:induction false} FirstWordOf(s: string, rest: string)
    requires (forall i :: 0 <= i < |s| ==> !IsWhitespace(s[i])) && (rest == [] || IsWhitespace(rest[0]))
    ensures FirstWord(s + rest) == (s, rest)
  {
    if s == [] {
      assert s + rest == rest;
    } else {
      FirstWordOf(s[1..], rest);
      assert (s + rest)[1..] == s[1..] + rest;
      assert [s[0]] + s[1..] == s;
    }
  }

  /** The second of the words of a line, whatever comes after it. */
  lemma SecondWordOf(first: string, second: string, rest: string)
    requires Solid(first) && Solid(second) && (rest == [] || IsWhitespace(rest[0]))
    ensures SecondWord(first + [' '] + second + rest) == Some(second)
  {
    var tail := [' '] + (second + rest);
    assert first + [' '] + second + rest == first + tail;
    FirstWordOf(first, tail);
    TrimStartPadded([' '], second + rest);
    FirstWordOf(second, rest);
  }

  // ----- numbers -----

  /** Decimal digits, most significant first. */
  function Decimal(n: nat): (s: string)
    ensures s != []
  {
    if n < 10 then [(48 + n) as char] else Decimal(n / 10) + [(48 + n % 10) as char]
  }

  lemma {:induction false} DecimalDigits(n: nat)
    ensures forall i :: 0 <= i < |Decimal(n)| ==> '0' <= Decimal(n)[i] <= '9'
  {
    if n < 10 {
    } else {
      DecimalDigits(n / 10);
    }
  }

  lemma {:induction false} DecimalValue(n: nat)
    ensures DigitsValue(Decimal(n), 10) == Some(n)
  {
    var s := Decimal(n);
    if n < 10 {
      assert s[..0] == [];
      assert DigitsValue([], 10) == Some(0);
    } else {
      DecimalValue(n / 10);
      assert s[..|s| - 1] == Decimal(n / 10);
    }
  }

  lemma ParsesDecimal(n: nat)
    ensures ParseUnsigned(Decimal(n), 10) == Some(n) && Solid(Decimal(n)) && Tight(Decimal(n))
  {
    DecimalDigits(n);
    DecimalValue(n);
  }

  /** A leading plus sign is allowed. */
  lemma ParsesSigned(n: nat)
    ensures ParseUnsigned(['+'] + Decimal(n), 10) == Some(n)
  {
    DecimalValue(n);
    assert (['+'] + Decimal(n))[1..] == Decimal(n);
  }

  lemma {:induction false} DigitsOrNothing(s: string, i: nat)
    requires i < |s| && !('0' <= s[i] <= '9')
    ensures DigitsValue(s, 10).None?
  {
    if i == |s| - 1 {
    } else {
      DigitsOrNothing(s[..|s| - 1], i);
    }
  }

  /** Anything but digits is no number, apart from a leading plus sign. */
  lemma NotDecimal(s: string, i: nat)
    requires i < |s| && !('0' <= s[i] <= '9') && s[0] != '+'
    ensures ParseUnsigned(s, 10).None?
  {
    DigitsOrNothing(s, i);
  }
}
