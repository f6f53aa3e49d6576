/** What the HTTP reader of `airplay/src/dacp.rs` gives back of a response, stated on what was written. */
module DacpLaws {
  import opened Wrappers
  import opened Text
  import opened TextLaws
  import opened Utf8
  import opened Dacp

  // ----- writing a response -----

  datatype Header = Header(name: string, value: string)

  datatype Message = Message(version: string, status: nat, reason: string, headers: seq<Header>)

  predicate OneLine(s: string) {
    Lacks(s, '\r') && Lacks(s, '\n')
  }

  predicate IsHeader(h: Header) {
    Lacks(h.name, ':') && OneLine(h.name) && OneLine(h.value)
  }

  predicate IsMessage(m: Message) {
    && Solid(m.version) && m.status < 65536
    && OneLine(m.reason) && (m.reason == [] || m.reason[0] == ' ')
    && forall i :: 0 <= i < |m.headers| ==> IsHeader(m.headers[i])
  }

  function HeaderLine(h: Header): string {
    h.name + [':'] + h.value
  }

  function HeaderLines(hs: seq<Header>): (r: seq<string>)
    ensures |r| == |hs| && forall i :: 0 <= i < |hs| ==> r[i] == HeaderLine(hs[i])
  {
    seq(|hs|, i requires 0 <= i < |hs| => HeaderLine(hs[i]))
  }

  function StatusLine(m: Message): string {
    m.version + [' '] + Decimal(m.status) + m.reason
  }

  /** A first line, header lines, and what separates them. */
  function HeadText(first: string, hs: seq<Header>): string {
    Joined([first] + HeaderLines(hs), "\r\n")
  }

  function TextOf(m: Message): string {
    HeadText(StatusLine(m), m.headers)
  }

  /** Everything up to the body. */
  function EncodeHead(m: Message): seq<byte> {
    Encode(TextOf(m)) + BLANK_LINE
  }

  // ----- where the head ends -----

  predicate AreLines(parts: seq<string>) {
    parts != [] && forall i :: 0 <= i < |parts| ==> parts[i] != [] && OneLine(parts[i])
  }

  lemma EncodeJoined(parts: seq<string>)
    requires 1 < |parts|
    ensures Encode(Joined(parts, "\r\n")) == Encode(parts[0]) + CRLF + Encode(Joined(parts[1..], "\r\n"))
  {
    var rest := Joined(parts[1..], "\r\n");
    EncodeConcat(parts[0] + "\r\n", rest);
    EncodeConcat(parts[0], "\r\n");
    assert "\r\n"[1..] == "\n" && "\n"[1..] == "";
    assert Encode("\n") == [10] + Encode("");
    assert Encode("\r\n") == CRLF;
  }

  lemma LineBytes(part: string)
    requires part != [] && OneLine(part)
    ensures Encode(part) != [] && forall i :: 0 <= i < |Encode(part)| ==> Encode(part)[i] != 13
  {
    EncodeAvoids(part, 13);
  }

  /** No blank line within a line, or where one that is not empty follows it. */
  lemma NoBlankAt(line: seq<byte>, tail: seq<byte>, q: nat)
    requires (forall i :: 0 <= i < |line| ==> line[i] != 13) && tail != [] && tail[0] != 13
    requires |line| + 2 <= q ==> !OccursAt(tail, BLANK_LINE, q - |line| - 2)
    ensures !OccursAt(line + CRLF + tail, BLANK_LINE, q)
  {
    var bytes := line + CRLF + tail;
    if |line| + 2 <= q {
      OccursLater(line + CRLF, tail, BLANK_LINE, q - |line| - 2);
    } else if q + 4 <= |bytes| {
      var window := bytes[q..q + 4];
      assert window[0] == bytes[q] && window[2] == bytes[q + 2];
    }
  }

  lemma NoBlankInLast(line: seq<byte>, rest: seq<byte>, q: nat)
    requires (forall i :: 0 <= i < |line| ==> line[i] != 13) && q < |line|
    ensures !OccursAt(line + (BLANK_LINE + rest), BLANK_LINE, q)
  {
    var bytes := line + (BLANK_LINE + rest);
    if q + 4 <= |bytes| {
      assert bytes[q..q + 4][0] == bytes[q];
    }
  }

  lemma {:induction false} BlankLineAfter(parts: seq<string>, rest: seq<byte>, q: nat)
    requires AreLines(parts) && q < |Encode(Joined(parts, "\r\n"))|
    ensures !OccursAt(Encode(Joined(parts, "\r\n")) + (BLANK_LINE + rest), BLANK_LINE, q)
  {
    var line := Encode(parts[0]);
    LineBytes(parts[0]);
    if |parts| == 1 {
      NoBlankInLast(line, rest, q);
    } else {
      var below := Encode(Joined(parts[1..], "\r\n"));
      EncodeJoined(parts);
      FirstByte(parts[1..]);
      Reassociate(line + CRLF, below, BLANK_LINE + rest);
      if |line| + 2 <= q {
        BlankLineAfter(parts[1..], rest, q - |line| - 2);
      }
      NoBlankAt(line, below + (BLANK_LINE + rest), q);
    }
  }

  lemma FirstByte(parts: seq<string>)
    requires AreLines(parts)
    ensures var b := Encode(Joined(parts, "\r\n")); b != [] && b[0] != 13
  {
    LineBytes(parts[0]);
    if 1 < |parts| {
      EncodeJoined(parts);
    }
  }

  lemma OccursLater(front: seq<byte>, bytes: seq<byte>, pat: seq<byte>, p: nat)
    ensures OccursAt(front + bytes, pat, |front| + p) == OccursAt(bytes, pat, p)
  {
    if p + |pat| <= |bytes| {
      assert (front + bytes)[|front| + p..|front| + p + |pat|] == bytes[p..p + |pat|];
    }
  }

  /** The head is found whole, whatever follows it, and reads as it was written. */
  lemma HeadFound(parts: seq<string>, rest: seq<byte>)
    requires AreLines(parts)
    ensures var text := Joined(parts, "\r\n");
            && Response(Encode(text) + BLANK_LINE + rest) == Said(text, rest)
            && (MessageComplete(Encode(text) + BLANK_LINE + rest) <==> Settled(text, rest))
  {
    var text := Joined(parts, "\r\n");
    var head := Encode(text);
    var bytes := head + BLANK_LINE + rest;
    var e := |head|;
    assert bytes == head + (BLANK_LINE + rest);
    assert bytes[e..e + 4] == BLANK_LINE;
    forall q | 0 <= q < e
      ensures !OccursAt(bytes, BLANK_LINE, q)
    {
      BlankLineAfter(parts, rest, q);
    }
    FindUnique(bytes, BLANK_LINE, e);
    DecodersInvert(text);
    assert bytes[..e] == head && bytes[e + 4..] == rest;
  }

  // ----- what the head says -----

  predicate FirstNamed(hs: seq<Header>, i: nat, wanted: string) {
    && i < |hs| && EqIgnoreAsciiCase(hs[i].name, wanted)
    && forall j :: 0 <= j < i ==> !EqIgnoreAsciiCase(hs[j].name, wanted)
  }

  predicate NoneNamed(hs: seq<Header>, wanted: string) {
    forall j :: 0 <= j < |hs| ==> !EqIgnoreAsciiCase(hs[j].name, wanted)
  }

  lemma HeaderSplit(h: Header)
    requires IsHeader(h)
    ensures SplitOnce(HeaderLine(h), ':') == (h.name, Some(h.value)) && HeaderLine(h) != [] && OneLine(HeaderLine(h))
  {
    SplitOnceAt(h.name, ':', h.value);
  }

  lemma HeaderLinesTail(hs: seq<Header>)
    requires hs != []
    ensures HeaderLines(hs)[1..] == HeaderLines(hs[1..])
  {
  }

  /** The first header of a name decides, and its value is read without the blanks around it. */
  lemma {:induction false} HeaderFound(hs: seq<Header>, i: nat, wanted: string)
    requires (forall j :: 0 <= j < |hs| ==> IsHeader(hs[j])) && FirstNamed(hs, i, wanted)
    ensures HeaderValue(HeaderLines(hs), wanted) == Some(Trim(hs[i].value))
  {
    HeaderSplit(hs[0]);
    if i == 0 {
    } else {
      HeaderLinesTail(hs);
      HeaderFound(hs[1..], i - 1, wanted);
    }
  }

  lemma {:induction false} HeaderAbsent(hs: seq<Header>, wanted: string)
    requires (forall j :: 0 <= j < |hs| ==> IsHeader(hs[j])) && NoneNamed(hs, wanted)
    ensures HeaderValue(HeaderLines(hs), wanted).None?
  {
    if hs == [] {
    } else {
      HeaderSplit(hs[0]);
      HeaderLinesTail(hs);
      HeaderAbsent(hs[1..], wanted);
    }
  }

  lemma LinesOfHead(first: string, hs: seq<Header>)
    requires first != [] && OneLine(first) && forall i :: 0 <= i < |hs| ==> IsHeader(hs[i])
    ensures AreLines([first] + HeaderLines(hs))
    ensures Lines(HeadText(first, hs)) == [first] + HeaderLines(hs)
  {
    forall i | 0 <= i < |hs|
      ensures HeaderLine(hs[i]) != [] && OneLine(HeaderLine(hs[i]))
    {
      HeaderSplit(hs[i]);
    }
    LinesJoined([first] + HeaderLines(hs));
  }

  lemma StatusLineIs(m: Message)
    requires IsMessage(m)
    ensures StatusLine(m) != [] && OneLine(StatusLine(m)) && SecondWord(StatusLine(m)) == Some(Decimal(m.status))
  {
    ParsesDecimal(m.status);
    DecimalDigits(m.status);
    SecondWordOf(m.version, Decimal(m.status), m.reason);
  }

  /** A written response is read as its status, its head and its body, framed as its header lines say. */
  lemma ResponseRead(m: Message, rest: seq<byte>)
    requires IsMessage(m)
    ensures var framing := FramingOf(m.status, HeaderLines(m.headers));
            && Response(EncodeHead(m) + rest) == Some(Reply(m.status, TextOf(m), BodyOf(framing, rest)))
            && (MessageComplete(EncodeHead(m) + rest) <==> BodyComplete(framing, rest))
  {
    var lines := [StatusLine(m)] + HeaderLines(m.headers);
    StatusLineIs(m);
    LinesOfHead(StatusLine(m), m.headers);
    HeadFound(lines, rest);
    ParsesDecimal(m.status);
    assert lines[1..] == HeaderLines(m.headers);
    assert ParseHead(TextOf(m)) == Some(Head(m.status, FramingOf(m.status, HeaderLines(m.headers))));
  }

  // ----- the four framings -----

  predicate Bodiless(status: nat) {
    100 <= status <= 199 || status == 204 || status == 304
  }

  /** Interim, No Content and Not Modified responses have no body, whatever their headers and the bytes behind them. */
  lemma BodilessResponse(m: Message, rest: seq<byte>)
    requires IsMessage(m) && Bodiless(m.status)
    ensures Response(EncodeHead(m) + rest) == Some(Reply(m.status, TextOf(m), [])) && MessageComplete(EncodeHead(m) + rest)
  {
    ResponseRead(m, rest);
  }

  /** One of a list of transfer codings, with blanks around it. */
  datatype Coding = Coding(before: string, name: string, after: string)

  predicate IsCoding(c: Coding) {
    Blank(c.before) && Blank(c.after) && Tight(c.name) && Lacks(c.name, ',')
  }

  function CodingText(c: Coding): string {
    c.before + c.name + c.after
  }

  function CodingTexts(cs: seq<Coding>): (r: seq<string>)
    ensures |r| == |cs| && forall i :: 0 <= i < |cs| ==> r[i] == CodingText(cs[i])
  {
    seq(|cs|, i requires 0 <= i < |cs| => CodingText(cs[i]))
  }

  predicate AreCodings(cs: seq<Coding>) {
    cs != [] && forall i :: 0 <= i < |cs| ==> IsCoding(cs[i])
  }

  function ListText(cs: seq<Coding>): string
    requires cs != []
  {
    Joined(CodingTexts(cs), ",")
  }

  lemma CodingTrims(c: Coding)
    requires IsCoding(c)
    ensures Trim(CodingText(c)) == c.name && Lacks(CodingText(c), ',')
  {
    TrimPadded(c.before, c.name, c.after);
  }

  lemma SplitList(cs: seq<Coding>)
    requires AreCodings(cs)
    ensures Split(ListText(cs), ',') == CodingTexts(cs)
  {
    forall i | 0 <= i < |cs|
      ensures Lacks(CodingTexts(cs)[i], ',')
    {
      CodingTrims(cs[i]);
    }
    SplitJoined(CodingTexts(cs), ',');
  }

  ghost predicate HasChunked(cs: seq<Coding>) {
    exists i :: 0 <= i < |cs| && EqIgnoreAsciiCase(cs[i].name, "chunked")
  }

  /** A list of codings names chunked exactly if one of them is that word, in whatever case. */
  lemma NamesChunkedExactly(cs: seq<Coding>)
    requires AreCodings(cs)
    ensures NamesChunked(ListText(cs)) <==> HasChunked(cs)
  {
    SplitList(cs);
    forall i | 0 <= i < |cs|
      ensures Trim(CodingTexts(cs)[i]) == cs[i].name
    {
      CodingTrims(cs[i]);
    }
    if NamesChunked(ListText(cs)) {
      var v :| v in Split(ListText(cs), ',') && EqIgnoreAsciiCase(Trim(v), "chunked");
      var i :| 0 <= i < |cs| && CodingTexts(cs)[i] == v;
      assert EqIgnoreAsciiCase(cs[i].name, "chunked");
    }
    if i :| 0 <= i < |cs| && EqIgnoreAsciiCase(cs[i].name, "chunked") {
      assert CodingTexts(cs)[i] in Split(ListText(cs), ',');
    }
  }

  /** The value of a header that lists codings: nothing but the blanks around it is left out when it is read. */
  predicate ListsCodings(value: string, before: string, cs: seq<Coding>, after: string) {
    && AreCodings(cs) && cs[0].before == "" && cs[|cs| - 1].after == ""
    && Blank(before) && Blank(after) && value == before + ListText(cs) + after
  }

  lemma JoinedEnds(parts: seq<string>, sep: string)
    requires parts != [] && parts[0] != [] && parts[|parts| - 1] != []
    ensures var j := Joined(parts, sep);
            var end := parts[|parts| - 1];
            j != [] && j[0] == parts[0][0] && j[|j| - 1] == end[|end| - 1]
  {
    JoinedLast(parts, sep);
  }

  lemma {:induction false} JoinedLast(parts: seq<string>, sep: string)
    requires parts != [] && parts[|parts| - 1] != []
    ensures var j := Joined(parts, sep);
            var end := parts[|parts| - 1];
            j != [] && j[|j| - 1] == end[|end| - 1]
  {
    if |parts| == 1 {
    } else {
      JoinedLast(parts[1..], sep);
    }
  }

  lemma ListTrims(value: string, before: string, cs: seq<Coding>, after: string)
    requires ListsCodings(value, before, cs, after)
    ensures Trim(value) == ListText(cs)
  {
    var first, end := cs[0], cs[|cs| - 1];
    assert CodingTexts(cs)[0] == first.name + first.after;
    assert CodingTexts(cs)[|cs| - 1] == end.before + end.name;
    JoinedEnds(CodingTexts(cs), ",");
    TrimPadded(before, ListText(cs), after);
  }

  /** The transfer coding the headers declare: what the first header of that name lists, if there is one. */
  ghost predicate DeclaresCodings(hs: seq<Header>, i: nat, before: string, cs: seq<Coding>, after: string) {
    FirstNamed(hs, i, "transfer-encoding") && ListsCodings(hs[i].value, before, cs, after)
  }

  ghost predicate SaysChunked(hs: seq<Header>) {
    exists i, before, cs, after :: DeclaresCodings(hs, i, before, cs, after) && HasChunked(cs)
  }

  ghost predicate NeverSaysChunked(hs: seq<Header>) {
    || NoneNamed(hs, "transfer-encoding")
    || exists i, before, cs, after :: DeclaresCodings(hs, i, before, cs, after) && !HasChunked(cs)
  }

  predicate AreHeaders(hs: seq<Header>) {
    forall j :: 0 <= j < |hs| ==> IsHeader(hs[j])
  }

  lemma CodingRead(hs: seq<Header>)
    requires AreHeaders(hs)
    ensures var v := HeaderValue(HeaderLines(hs), "transfer-encoding");
            && (SaysChunked(hs) ==> v.Some? && NamesChunked(v.value))
            && (NeverSaysChunked(hs) ==> !(v.Some? && NamesChunked(v.value)))
  {
    if i, before, cs, after :| DeclaresCodings(hs, i, before, cs, after) && HasChunked(cs) {
      CodingDeclared(hs, i, before, cs, after);
    }
    if NoneNamed(hs, "transfer-encoding") {
      HeaderAbsent(hs, "transfer-encoding");
    } else if i, before, cs, after :| DeclaresCodings(hs, i, before, cs, after) && !HasChunked(cs) {
      CodingDeclared(hs, i, before, cs, after);
    }
  }

  lemma CodingDeclared(hs: seq<Header>, i: nat, before: string, cs: seq<Coding>, after: string)
    requires AreHeaders(hs) && DeclaresCodings(hs, i, before, cs, after)
    ensures var v := HeaderValue(HeaderLines(hs), "transfer-encoding");
            v.Some? && (NamesChunked(v.value) <==> HasChunked(cs))
  {
    HeaderFound(hs, i, "transfer-encoding");
    ListTrims(hs[i].value, before, cs, after);
    NamesChunkedExactly(cs);
  }

  /**
   * A chunked response, whatever else its headers say: the data of its chunks once the last has come, with anything
   * behind it left out, and nothing before that.
   */
  lemma ChunkedResponse(m: Message, pieces: seq<Piece>, end: Piece, rest: seq<byte>)
    requires IsMessage(m) && !Bodiless(m.status) && SaysChunked(m.headers) && Sendable(pieces, end)
    ensures var whole := EncodeHead(m) + (EncodeChunks(pieces, end) + rest);
            Response(whole) == Some(Reply(m.status, TextOf(m), DataOf(pieces))) && MessageComplete(whole)
  {
    ResponseRead(m, EncodeChunks(pieces, end) + rest);
    CodingRead(m.headers);
    DechunkEncoded(pieces, end, rest);
  }

  lemma UnfinishedChunkedResponse(m: Message, pieces: seq<Piece>, end: Piece, k: nat)
    requires IsMessage(m) && !Bodiless(m.status) && SaysChunked(m.headers)
    requires Sendable(pieces, end) && k < |EncodeChunks(pieces, end)|
    ensures var part := EncodeHead(m) + EncodeChunks(pieces, end)[..k];
            Response(part) == Some(Reply(m.status, TextOf(m), [])) && !MessageComplete(part)
  {
    ResponseRead(m, EncodeChunks(pieces, end)[..k]);
    CodingRead(m.headers);
    DechunkPrefix([], pieces, end, k);
  }

  /** The first Content-Length, in decimal digits with blanks around them. */
  ghost predicate SaysLength(hs: seq<Header>, n: nat) {
    exists i, before, after :: DeclaresLength(hs, i, before, after, n)
  }

  ghost predicate DeclaresLength(hs: seq<Header>, i: nat, before: string, after: string, n: nat) {
    && FirstNamed(hs, i, "content-length") && Blank(before) && Blank(after)
    && hs[i].value == before + Decimal(n) + after
  }

  lemma LengthRead(hs: seq<Header>, n: nat)
    requires AreHeaders(hs) && SaysLength(hs, n)
    ensures var v := HeaderValue(HeaderLines(hs), "content-length"); v.Some? && ParseUnsigned(v.value, 10) == Some(n)
  {
    var i, before, after :| DeclaresLength(hs, i, before, after, n);
    HeaderFound(hs, i, "content-length");
    ParsesDecimal(n);
    TrimPadded(before, Decimal(n), after);
  }

  /** A response of a declared length: that many of the bytes behind the head, or as many as came. */
  lemma LengthResponse(m: Message, n: nat, rest: seq<byte>)
    requires IsMessage(m) && !Bodiless(m.status) && NeverSaysChunked(m.headers) && SaysLength(m.headers, n)
    ensures var whole := EncodeHead(m) + rest;
            && Response(whole) == Some(Reply(m.status, TextOf(m), if n <= |rest| then rest[..n] else rest))
            && (MessageComplete(whole) <==> n <= |rest|)
  {
    ResponseRead(m, rest);
    CodingRead(m.headers);
    LengthRead(m.headers, n);
  }

  /** No Content-Length, or a first one that is no number. */
  ghost predicate SaysNoLength(hs: seq<Header>) {
    || NoneNamed(hs, "content-length")
    || exists i, before, v, after :: DeclaresNonsense(hs, i, before, v, after)
  }

  ghost predicate DeclaresNonsense(hs: seq<Header>, i: nat, before: string, v: string, after: string) {
    && FirstNamed(hs, i, "content-length") && Blank(before) && Blank(after) && Tight(v) && v[0] != '+'
    && hs[i].value == before + v + after && exists k :: 0 <= k < |v| && !('0' <= v[k] <= '9')
  }

  lemma NoLengthRead(hs: seq<Header>)
    requires AreHeaders(hs) && SaysNoLength(hs)
    ensures var v := HeaderValue(HeaderLines(hs), "content-length"); !(v.Some? && ParseUnsigned(v.value, 10).Some?)
  {
    if NoneNamed(hs, "content-length") {
      HeaderAbsent(hs, "content-length");
    } else {
      var i, before, v, after :| DeclaresNonsense(hs, i, before, v, after);
      HeaderFound(hs, i, "content-length");
      TrimPadded(before, v, after);
      var k :| 0 <= k < |v| && !('0' <= v[k] <= '9');
      NotDecimal(v, k);
    }
  }

  /** A response that declares nothing of the kind: everything up to the close, and never complete before it. */
  lemma UntilCloseResponse(m: Message, rest: seq<byte>)
    requires IsMessage(m) && !Bodiless(m.status) && NeverSaysChunked(m.headers) && SaysNoLength(m.headers)
    ensures var whole := EncodeHead(m) + rest;
            Response(whole) == Some(Reply(m.status, TextOf(m), rest)) && !MessageComplete(whole)
  {
    ResponseRead(m, rest);
    CodingRead(m.headers);
    NoLengthRead(m.headers);
  }

  // ----- responses that are none -----

  /** A second word that is no 16-bit number is no status, and there is nothing to wait for. */
  lemma UnreadableStatus(version: string, word: string, reason: string, hs: seq<Header>, rest: seq<byte>)
    requires Solid(version) && Solid(word) && AreHeaders(hs)
    requires OneLine(reason) && (reason == [] || reason[0] == ' ')
    requires || (word[0] != '+' && exists k :: 0 <= k < |word| && !('0' <= word[k] <= '9'))
             || exists n :: 65536 <= n && word == Decimal(n)
    ensures var bytes := Encode(HeadText(version + [' '] + word + reason, hs)) + BLANK_LINE + rest;
            Response(bytes) == None && MessageComplete(bytes)
  {
    var first := version + [' '] + word + reason;
    SecondWordOf(version, word, reason);
    LinesOfHead(first, hs);
    HeadFound([first] + HeaderLines(hs), rest);
    if word[0] != '+' && exists k :: 0 <= k < |word| && !('0' <= word[k] <= '9') {
      var k :| 0 <= k < |word| && !('0' <= word[k] <= '9');
      NotDecimal(word, k);
    } else {
      var n :| 65536 <= n && word == Decimal(n);
      ParsesDecimal(n);
    }
    assert ParseHead(HeadText(first, hs)).None?;
  }

  /** Before the blank line has come there is no response. */
  lemma NoHeadYet(bytes: seq<byte>)
    requires forall q: nat :: !OccursAt(bytes, [13, 10, 13, 10], q)
    ensures Response(bytes) == None && !MessageComplete(bytes)
  {
    FindAbsent(bytes, BLANK_LINE);
  }
}
