/** The DACP client's HTTP reader and its reply parsers: `airplay/src/dacp.rs`. */
module Dacp {
  import opened Wrappers
  import opened Text
  import opened TextLaws
  import opened Utf8
  import opened Dmap

  const CRLF: seq<byte> := [13, 10]
  const BLANK_LINE: seq<byte> := [13, 10, 13, 10]

  // ----- searching -----

  predicate OccursAt(bytes: seq<byte>, pat: seq<byte>, p: nat) {
    p + |pat| <= |bytes| && bytes[p..p + |pat|] == pat
  }

  /** The first occurrence of a pattern at or after `from`. */
  function FindFrom(bytes: seq<byte>, pat: seq<byte>, from: nat): (r: Option<nat>)
    ensures r.Some? ==> from <= r.value && r.value + |pat| <= |bytes|
    decreases |bytes| - from
  {
    if |bytes| < from + |pat| then None
    else if OccursAt(bytes, pat, from) then Some(from)
    else FindFrom(bytes, pat, from + 1)
  }

  function Find(bytes: seq<byte>, pat: seq<byte>): Option<nat> {
    FindFrom(bytes, pat, 0)
  }

  lemma {:induction false} FindFromUnique(bytes: seq<byte>, pat: seq<byte>, from: nat, p: nat)
    requires from <= p && OccursAt(bytes, pat, p) && forall q :: from <= q < p ==> !OccursAt(bytes, pat, q)
    ensures FindFrom(bytes, pat, from) == Some(p)
    decreases p - from
  {
    if from < p {
      FindFromUnique(bytes, pat, from + 1, p);
    }
  }

  lemma FindUnique(bytes: seq<byte>, pat: seq<byte>, p: nat)
    requires OccursAt(bytes, pat, p) && forall q :: 0 <= q < p ==> !OccursAt(bytes, pat, q)
    ensures Find(bytes, pat) == Some(p)
  {
    FindFromUnique(bytes, pat, 0, p);
  }

  lemma {:induction false} FindFromFirst(bytes: seq<byte>, pat: seq<byte>, from: nat)
    ensures FindFrom(bytes, pat, from).Some? ==>
              var p := FindFrom(bytes, pat, from).value;
              OccursAt(bytes, pat, p) && forall q :: from <= q < p ==> !OccursAt(bytes, pat, q)
    ensures FindFrom(bytes, pat, from).None? ==> forall q: nat :: from <= q ==> !OccursAt(bytes, pat, q)
    decreases |bytes| - from
  {
    if from + |pat| <= |bytes| && !OccursAt(bytes, pat, from) {
      FindFromFirst(bytes, pat, from + 1);
    }
  }

  lemma FindAbsent(bytes: seq<byte>, pat: seq<byte>)
    requires forall q: nat :: !OccursAt(bytes, pat, q)
    ensures Find(bytes, pat).None?
  {
    FindFromFirst(bytes, pat, 0);
  }

  /** What has been found stays found where it was when more bytes arrive. */
  lemma FindStable(bytes: seq<byte>, pat: seq<byte>, more: seq<byte>)
    requires Find(bytes, pat).Some?
    ensures Find(bytes + more, pat) == Find(bytes, pat)
  {
    var p := Find(bytes, pat).value;
    FindFromFirst(bytes, pat, 0);
    forall q | 0 <= q <= p
      ensures OccursAt(bytes + more, pat, q) <==> OccursAt(bytes, pat, q)
    {
      assert (bytes + more)[q..q + |pat|] == bytes[q..q + |pat|];
    }
    FindUnique(bytes + more, pat, p);
  }

  // ----- chunked bodies -----

  /** The size in a chunk header: hexadecimal, before any extensions. */
  function ChunkSize(header: seq<byte>): Option<nat> {
    match FromUtf8(header)
    case None => None
    case Some(text) => ParseUnsigned(Trim(SplitOnce(text, ';').0), 16)
  }

  datatype Step = NeedMore | Last | Chunk(data: seq<byte>, rest: seq<byte>)

  /** What a chunked body starts with: a whole chunk, the end of the body, or not enough to tell. */
  function ReadChunk(bytes: seq<byte>): (r: Step)
    ensures r.Chunk? ==> |r.rest| < |bytes|
  {
    match Find(bytes, CRLF)
    case None => NeedMore
    case Some(lineEnd) =>
      match ChunkSize(bytes[..lineEnd])
      case None => NeedMore
      case Some(size) =>
        var start := lineEnd + 2;
        var end := start + size;
        if size == 0 then Last
        else if |bytes| < end + 2 then NeedMore
        else Chunk(bytes[start..end], bytes[end + 2..])
  }

  /** What the rest of a chunked body adds to the data read so far; nothing as long as more has to be read. */
  function DechunkFrom(body: seq<byte>, bytes: seq<byte>): Option<seq<byte>>
    decreases |bytes|
  {
    match ReadChunk(bytes)
    case NeedMore => None
    case Last => Some(body)
    case Chunk(data, rest) => DechunkFrom(body + data, rest)
  }

  function Dechunked(bytes: seq<byte>): Option<seq<byte>> {
    DechunkFrom([], bytes)
  }

  method DecodeChunked(input: seq<byte>) returns (r: Option<seq<byte>>)
    ensures r == Dechunked(input)
  {
    var bytes, body := input, [];
    ghost var all := Dechunked(input);
    while true
      invariant DechunkFrom(body, bytes) == all
      decreases |bytes|
    {
      var lineEnd := Find(bytes, CRLF);
      if lineEnd.None? {
        return None;
      }
      var size := ChunkSize(bytes[..lineEnd.value]);
      if size.None? {
        return None;
      }
      var start := lineEnd.value + 2;
      if size.value == 0 {
        return Some(body);
      }
      var end := start + size.value;
      if |bytes| < end || |bytes| < end + 2 {
        return None;
      }
      DechunkStep(body, bytes, start, end);
      body := body + bytes[start..end];
      bytes := bytes[end + 2..];
    }
  }

  lemma DechunkStep(body: seq<byte>, bytes: seq<byte>, start: nat, end: nat)
    requires 2 <= start < end && end + 2 <= |bytes| && Find(bytes, CRLF) == Some(start - 2)
    requires ChunkSize(bytes[..start - 2]) == Some(end - start)
    ensures DechunkFrom(body, bytes) == DechunkFrom(body + bytes[start..end], bytes[end + 2..])
  {
    assert ReadChunk(bytes) == Chunk(bytes[start..end], bytes[end + 2..]);
  }

  lemma ReadChunkStable(bytes: seq<byte>, more: seq<byte>)
    requires !ReadChunk(bytes).NeedMore?
    ensures ReadChunk(bytes + more)
         == if ReadChunk(bytes).Last? then Last else Chunk(ReadChunk(bytes).data, ReadChunk(bytes).rest + more)
  {
    FindStable(bytes, CRLF, more);
    var lineEnd := Find(bytes, CRLF).value;
    assert (bytes + more)[..lineEnd] == bytes[..lineEnd];
    var size := ChunkSize(bytes[..lineEnd]).value;
    var start, end := lineEnd + 2, lineEnd + 2 + size;
    if size != 0 {
      assert (bytes + more)[end + 2..] == bytes[end + 2..] + more;
      assert (bytes + more)[start..end] == bytes[start..end];
    }
  }

  /** Once a chunked body is complete, further bytes change nothing. */
  lemma {:induction false} DechunkedStable(body: seq<byte>, bytes: seq<byte>, more: seq<byte>)
    requires DechunkFrom(body, bytes).Some?
    ensures DechunkFrom(body, bytes + more) == DechunkFrom(body, bytes)
    decreases |bytes|
  {
    ReadChunkStable(bytes, more);
    var step := ReadChunk(bytes);
    if step.Chunk? {
      DechunkedStable(body + step.data, step.rest, more);
    }
  }

  // ----- a chunk encoder -----

  function HexDigit(d: nat): char
    requires d < 16
  {
    if d < 10 then (48 + d) as char else (87 + d) as char
  }

  function Hex(n: nat): (h: string)
    ensures h != []
  {
    if n < 16 then [HexDigit(n)] else Hex(n / 16) + [HexDigit(n % 16)]
  }

  /** A chunk, and what its sender is free to choose: the case of the digits, blanks around them, and extensions. */
  datatype Piece = Piece(data: seq<byte>, flips: seq<bool>, before: string, after: string, extension: string)

  predicate IsPiece(p: Piece) {
    && Blank(p.before) && Blank(p.after) && Lacks(p.extension, '\r')
    && (p.extension == [] || p.extension[0] == ';')
  }

  function SizeLine(p: Piece): string {
    p.before + Recased(Hex(|p.data|), p.flips) + p.after + p.extension
  }

  function EncodeChunk(p: Piece): seq<byte> {
    Encode(SizeLine(p)) + CRLF + p.data + CRLF
  }

  /** Every chunk, then the zero-size line that ends the body. */
  function EncodeChunks(pieces: seq<Piece>, end: Piece): seq<byte> {
    if pieces == [] then Encode(SizeLine(end)) + CRLF else EncodeChunk(pieces[0]) + EncodeChunks(pieces[1..], end)
  }

  function DataOf(pieces: seq<Piece>): seq<byte> {
    if pieces == [] then [] else pieces[0].data + DataOf(pieces[1..])
  }

  /** A body that can be sent in chunks: each holds something but the one that ends it. */
  predicate Sendable(pieces: seq<Piece>, end: Piece) {
    && (forall i :: 0 <= i < |pieces| ==> IsPiece(pieces[i]) && pieces[i].data != [])
    && IsPiece(end) && end.data == []
  }

  function Flatten<T>(parts: seq<seq<T>>): seq<T> {
    if parts == [] then [] else parts[0] + Flatten(parts[1..])
  }

  lemma HexDigitIs(d: nat)
    requires d < 16
    ensures '0' <= HexDigit(d) <= '9' || 'a' <= HexDigit(d) <= 'f'
    ensures DigitValue(HexDigit(d), 16) == DigitValue(Flip(HexDigit(d)), 16) == Some(d)
  {
  }

  lemma {:induction false} HexDigits(n: nat)
    ensures forall i :: 0 <= i < |Hex(n)| ==> '0' <= Hex(n)[i] <= '9' || 'a' <= Hex(n)[i] <= 'f'
  {
    HexDigitIs(n % 16);
    if n < 16 {
    } else {
      HexDigits(n / 16);
    }
  }

  lemma HexLast(n: nat, c: char)
    requires var h := Hex(n); c == h[|h| - 1] || c == Flip(h[|h| - 1])
    ensures DigitValue(c, 16) == Some(n % 16)
  {
    HexDigitIs(n % 16);
  }

  lemma {:induction false} HexValue(n: nat, text: string)
    requires |text| == |Hex(n)| && forall i :: 0 <= i < |text| ==> text[i] == Hex(n)[i] || text[i] == Flip(Hex(n)[i])
    ensures DigitsValue(text, 16) == Some(n)
  {
    var last := |text| - 1;
    HexLast(n, text[last]);
    if n < 16 {
      assert DigitsValue(text[..last], 16) == Some(0);
    } else {
      HexValue(n / 16, text[..last]);
    }
  }

  /** The digits of a size line, in whatever case. */
  lemma SizeDigits(n: nat, flips: seq<bool>)
    ensures var digits := Recased(Hex(n), flips);
            && Tight(digits) && Lacks(digits, ';') && Lacks(digits, '\r')
            && ParseUnsigned(digits, 16) == Some(n)
  {
    HexDigits(n);
    HexValue(n, Recased(Hex(n), flips));
  }

  /** What stands before the extensions of a size line, blanks and all. */
  lemma SizePart(p: Piece, padded: string)
    requires IsPiece(p) && padded == p.before + Recased(Hex(|p.data|), p.flips) + p.after
    ensures SplitOnce(SizeLine(p), ';').0 == padded
  {
    SizeDigits(|p.data|, p.flips);
    assert Lacks(padded, ';');
    if p.extension == [] {
      assert SizeLine(p) == padded;
      SplitOnceAbsent(padded, ';');
    } else {
      assert SizeLine(p) == padded + [';'] + p.extension[1..];
      SplitOnceAt(padded, ';', p.extension[1..]);
    }
  }

  /** A size line reads back as the size it was written from. */
  lemma ChunkSizeOfLine(p: Piece)
    requires IsPiece(p)
    ensures ChunkSize(Encode(SizeLine(p))) == Some(|p.data|)
  {
    var digits := Recased(Hex(|p.data|), p.flips);
    DecodersInvert(SizeLine(p));
    SizePart(p, p.before + digits + p.after);
    SizeDigits(|p.data|, p.flips);
    TrimPadded(p.before, digits, p.after);
  }

  lemma SizeLineAvoids(p: Piece)
    requires IsPiece(p)
    ensures forall i :: 0 <= i < |Encode(SizeLine(p))| ==> Encode(SizeLine(p))[i] != 13
  {
    SizeDigits(|p.data|, p.flips);
    EncodeAvoids(SizeLine(p), 13);
  }

  /** A line without a carriage return ends at its own CRLF, whatever follows. */
  lemma LineEnds(line: seq<byte>, rest: seq<byte>)
    requires forall i :: 0 <= i < |line| ==> line[i] != 13
    ensures Find(line + CRLF + rest, CRLF) == Some(|line|)
  {
    var bytes := line + CRLF + rest;
    var e := |line|;
    assert bytes[e..e + 2] == CRLF;
    forall q | 0 <= q < e
      ensures !OccursAt(bytes, CRLF, q)
    {
      assert bytes[q] == line[q];
      assert q + 2 <= |bytes| ==> bytes[q..q + 2][0] == bytes[q];
    }
    FindUnique(bytes, CRLF, e);
  }

  lemma ReadEncodedChunk(p: Piece, rest: seq<byte>)
    requires IsPiece(p) && p.data != []
    ensures ReadChunk(EncodeChunk(p) + rest) == Chunk(p.data, rest)
  {
    var bytes := EncodeChunk(p) + rest;
    var h := Encode(SizeLine(p));
    assert bytes == h + CRLF + (p.data + CRLF + rest);
    SizeLineAvoids(p);
    LineEnds(h, p.data + CRLF + rest);
    ChunkSizeOfLine(p);
    assert bytes[..|h|] == h;
    assert bytes[|h| + 2..|h| + 2 + |p.data|] == p.data;
    assert bytes[|h| + 2 + |p.data| + 2..] == rest;
  }

  lemma ReadEncodedEnd(end: Piece, rest: seq<byte>)
    requires IsPiece(end) && end.data == []
    ensures ReadChunk(Encode(SizeLine(end)) + CRLF + rest) == Last
  {
    var h := Encode(SizeLine(end));
    SizeLineAvoids(end);
    LineEnds(h, rest);
    ChunkSizeOfLine(end);
    assert (h + CRLF + rest)[..|h|] == h;
  }

  lemma {:induction false} DechunkFromEncoded(body: seq<byte>, pieces: seq<Piece>, end: Piece, trailer: seq<byte>)
    requires Sendable(pieces, end)
    ensures DechunkFrom(body, EncodeChunks(pieces, end) + trailer) == Some(body + DataOf(pieces))
    decreases |pieces|
  {
    if pieces == [] {
      ReadEncodedEnd(end, trailer);
      assert body + [] == body;
    } else {
      var rest := EncodeChunks(pieces[1..], end);
      Reassociate(EncodeChunk(pieces[0]), rest, trailer);
      ReadEncodedChunk(pieces[0], rest + trailer);
      DechunkFromEncoded(body + pieces[0].data, pieces[1..], end, trailer);
      Reassociate(body, pieces[0].data, DataOf(pieces[1..]));
    }
  }

  /** Decoding inverts encoding for every list of non-empty chunks, whatever bytes they hold and however it is written. */
  lemma DechunkEncoded(pieces: seq<Piece>, end: Piece, trailer: seq<byte>)
    requires Sendable(pieces, end)
    ensures Dechunked(EncodeChunks(pieces, end) + trailer) == Some(DataOf(pieces))
  {
    DechunkFromEncoded([], pieces, end, trailer);
    assert [] + DataOf(pieces) == DataOf(pieces);
  }

  /** A size line cut short holds no CRLF yet. */
  lemma CutLine(line: seq<byte>, k: nat)
    requires (forall i :: 0 <= i < |line| ==> line[i] != 13) && k < |line| + 2
    ensures Find((line + CRLF)[..k], CRLF).None?
  {
    var bytes := (line + CRLF)[..k];
    forall q: nat
      ensures !OccursAt(bytes, CRLF, q)
    {
      if q + 2 <= |bytes| {
        assert bytes[q] == line[q];
        assert bytes[q..q + 2][0] == bytes[q];
      }
    }
    FindAbsent(bytes, CRLF);
  }

  /** A chunk cut short anywhere asks for more. */
  lemma ReadCutChunk(p: Piece, k: nat)
    requires IsPiece(p) && p.data != [] && k < |EncodeChunk(p)|
    ensures ReadChunk(EncodeChunk(p)[..k]).NeedMore?
  {
    var h := Encode(SizeLine(p));
    var bytes := EncodeChunk(p)[..k];
    SizeLineAvoids(p);
    if k < |h| + 2 {
      assert bytes == (h + CRLF)[..k];
      CutLine(h, k);
    } else {
      var part := (p.data + CRLF)[..k - |h| - 2];
      assert bytes == h + CRLF + part;
      LineEnds(h, part);
      ChunkSizeOfLine(p);
      assert bytes[..|h|] == h;
    }
  }

  /** Every prefix that ends before the terminating zero-size line does asks for more. */
  lemma {:induction false} DechunkPrefix(body: seq<byte>, pieces: seq<Piece>, end: Piece, k: nat)
    requires Sendable(pieces, end) && k < |EncodeChunks(pieces, end)|
    ensures DechunkFrom(body, EncodeChunks(pieces, end)[..k]).None?
    decreases |pieces|
  {
    var bytes := EncodeChunks(pieces, end)[..k];
    if pieces == [] {
      SizeLineAvoids(end);
      CutLine(Encode(SizeLine(end)), k);
    } else {
      var first, rest := EncodeChunk(pieces[0]), EncodeChunks(pieces[1..], end);
      if k < |first| {
        assert bytes == first[..k];
        ReadCutChunk(pieces[0], k);
      } else {
        assert bytes == first + rest[..k - |first|];
        ReadEncodedChunk(pieces[0], rest[..k - |first|]);
        DechunkPrefix(body + pieces[0].data, pieces[1..], end, k - |first|);
      }
    }
  }

  // ----- the reply to a request -----

  /** Section 6.3 of RFC 9112, from the rule that overrides the others to the one of last resort. */
  datatype Framing = Empty | Chunked | Length(n: nat) | UntilClose

  datatype Head = Head(status: nat, framing: Framing)

  datatype Reply = Reply(status: nat, headers: string, body: seq<byte>)

  /** Section 6.4.1 of RFC 9110: an interim, a No Content and a Not Modified response end with their headers. */
  predicate StatusHasNoBody(status: nat) {
    100 <= status <= 199 || status == 204 || status == 304
  }

  /** The trimmed value of the first header line with a name. */
  function HeaderValue(lines: seq<string>, wanted: string): Option<string> {
    if lines == [] then None
    else
      match SplitOnce(lines[0], ':')
      case (name, Some(value)) =>
        if EqIgnoreAsciiCase(name, wanted) then Some(Trim(value)) else HeaderValue(lines[1..], wanted)
      case _ => HeaderValue(lines[1..], wanted)
  }

  predicate NamesChunked(value: string) {
    exists v :: v in Split(value, ',') && EqIgnoreAsciiCase(Trim(v), "chunked")
  }

  function FramingOf(status: nat, lines: seq<string>): Framing {
    var chunked := HeaderValue(lines, "transfer-encoding");
    var length := HeaderValue(lines, "content-length");
    if StatusHasNoBody(status) then Empty
    else if chunked.Some? && NamesChunked(chunked.value) then Chunked
    else if length.Some? && ParseUnsigned(length.value, 10).Some? then Length(ParseUnsigned(length.value, 10).value)
    else UntilClose
  }

  /** The status line and the headers; nothing if there is no status to read, which is a 16-bit number. */
  function ParseHead(headers: string): Option<Head> {
    var lines := Lines(headers);
    if lines == [] then None
    else
      match SecondWord(lines[0])
      case None => None
      case Some(code) =>
        match ParseUnsigned(code, 10)
        case None => None
        case Some(status) =>
          if status < 0x1_0000 then Some(Head(status, FramingOf(status, lines[1..]))) else None
  }

  predicate BodyComplete(framing: Framing, body: seq<byte>) {
    match framing
    case Empty => true
    case Chunked => Dechunked(body).Some?
    case Length(n) => n <= |body|
    case UntilClose => false
  }

  function BodyOf(framing: Framing, body: seq<byte>): seq<byte> {
    match framing
    case Empty => []
    case Chunked => (match Dechunked(body) case Some(b) => b case None => [])
    case Length(n) => if n <= |body| then body[..n] else body
    case UntilClose => body
  }

  /** What the headers and the bytes after the blank line say. */
  function Said(headers: string, body: seq<byte>): Option<Reply> {
    match ParseHead(headers)
    case None => None
    case Some(head) => Some(Reply(head.status, headers, BodyOf(head.framing, body)))
  }

  predicate Settled(headers: string, body: seq<byte>) {
    match ParseHead(headers)
    case None => true
    case Some(head) => BodyComplete(head.framing, body)
  }

  /** What a whole response says, all its bytes at hand. */
  function Response(bytes: seq<byte>): Option<Reply> {
    match Find(bytes, BLANK_LINE)
    case None => None
    case Some(headerEnd) => Said(Lossy(bytes[..headerEnd]), bytes[headerEnd + 4..])
  }

  /** The bytes so far settle what the response says. */
  predicate MessageComplete(bytes: seq<byte>) {
    match Find(bytes, BLANK_LINE)
    case None => false
    case Some(headerEnd) => Settled(Lossy(bytes[..headerEnd]), bytes[headerEnd + 4..])
  }

  /** The header and body parts of a response, once the blank line between them is found. */
  lemma ResponseParts(bytes: seq<byte>, headerEnd: nat, headers: string)
    requires Find(bytes, BLANK_LINE) == Some(headerEnd) && headerEnd + 4 <= |bytes|
    requires headers == Lossy(bytes[..headerEnd])
    ensures ParseHead(headers).None? ==> Response(bytes) == None && MessageComplete(bytes)
    ensures ParseHead(headers).Some? ==>
              var Head(status, framing) := ParseHead(headers).value;
              && Response(bytes) == Some(Reply(status, headers, BodyOf(framing, bytes[headerEnd + 4..])))
              && (MessageComplete(bytes) <==> BodyComplete(framing, bytes[headerEnd + 4..]))
  {
  }

  lemma SaidStable(headers: string, body: seq<byte>, more: seq<byte>)
    requires Settled(headers, body)
    ensures Said(headers, body + more) == Said(headers, body)
  {
    match ParseHead(headers)
    case None =>
    case Some(head) =>
      match head.framing
      case Empty =>
      case Chunked => DechunkedStable([], body, more);
      case Length(n) => assert (body + more)[..n] == body[..n];
  }

  lemma HeadStable(bytes: seq<byte>, more: seq<byte>)
    requires Find(bytes, BLANK_LINE).Some?
    ensures Find(bytes + more, BLANK_LINE) == Find(bytes, BLANK_LINE)
    ensures var e := Find(bytes, BLANK_LINE).value;
            && (bytes + more)[..e] == bytes[..e]
            && (bytes + more)[e + 4..] == bytes[e + 4..] + more
  {
    FindStable(bytes, BLANK_LINE, more);
  }

  /** Bytes that arrive after the message is complete change nothing. */
  lemma ResponseStable(bytes: seq<byte>, more: seq<byte>)
    requires MessageComplete(bytes)
    ensures Response(bytes + more) == Response(bytes)
  {
    HeadStable(bytes, more);
    var e := Find(bytes, BLANK_LINE).value;
    SaidStable(Lossy(bytes[..e]), bytes[e + 4..], more);
  }

  lemma {:induction false} FlattenSplit<T>(parts: seq<seq<T>>, i: nat)
    requires i <= |parts|
    ensures Flatten(parts) == Flatten(parts[..i]) + Flatten(parts[i..])
  {
    if i == 0 {
      assert parts[0..] == parts;
    } else {
      FlattenSplit(parts[1..], i - 1);
      assert parts[1..][..i - 1] == parts[..i][1..] && parts[1..][i - 1..] == parts[i..];
      Reassociate(parts[0], Flatten(parts[..i][1..]), Flatten(parts[i..]));
    }
  }

  lemma FlattenSnoc<T>(parts: seq<seq<T>>, i: nat)
    requires i < |parts|
    ensures Flatten(parts[..i + 1]) == Flatten(parts[..i]) + parts[i]
  {
    FlattenSplit(parts[..i + 1], i);
    assert parts[..i + 1][..i] == parts[..i] && parts[..i + 1][i..] == [parts[i]];
    assert Flatten([parts[i]]) == parts[i] + [];
  }

  /** No read before the `used`-th completed the message. */
  ghost predicate Needed(arrivals: seq<seq<byte>>, used: nat)
    requires used <= |arrivals|
  {
    forall j :: 0 <= j < used ==> !MessageComplete(Flatten(arrivals[..j]))
  }

  /** The first read loop: until the blank line that ends the headers. */
  method ReadHead(arrivals: seq<seq<byte>>) returns (raw: seq<byte>, used: nat, headerEnd: Option<nat>)
    ensures used <= |arrivals| && raw == Flatten(arrivals[..used]) && Needed(arrivals, used)
    ensures headerEnd == Find(raw, BLANK_LINE)
    ensures headerEnd.None? ==> used == |arrivals|
  {
    raw, used := [], 0;
    headerEnd := Find(raw, BLANK_LINE);
    while headerEnd.None? && used < |arrivals|
      invariant used <= |arrivals| && raw == Flatten(arrivals[..used]) && Needed(arrivals, used)
      invariant headerEnd == Find(raw, BLANK_LINE)
      decreases |arrivals| - used
    {
      FlattenSnoc(arrivals, used);
      raw := raw + arrivals[used];
      used := used + 1;
      headerEnd := Find(raw, BLANK_LINE);
    }
  }

  /** The second read loop: until the framing says the body is complete. */
  method ReadBody(arrivals: seq<seq<byte>>, raw0: seq<byte>, used0: nat, headerEnd: nat, framing: Framing)
    returns (raw: seq<byte>, used: nat)
    requires used0 <= |arrivals| && raw0 == Flatten(arrivals[..used0]) && Needed(arrivals, used0)
    requires Find(raw0, BLANK_LINE) == Some(headerEnd) && headerEnd + 4 <= |raw0|
    requires ParseHead(Lossy(raw0[..headerEnd])).Some?
    requires ParseHead(Lossy(raw0[..headerEnd])).value.framing == framing
    ensures used <= |arrivals| && raw == Flatten(arrivals[..used]) && Needed(arrivals, used)
    ensures Find(raw, BLANK_LINE) == Some(headerEnd) && headerEnd + 4 <= |raw| && raw[..headerEnd] == raw0[..headerEnd]
    ensures used < |arrivals| ==> BodyComplete(framing, raw[headerEnd + 4..])
  {
    raw, used := raw0, used0;
    while !BodyComplete(framing, raw[headerEnd + 4..]) && used < |arrivals|
      invariant used <= |arrivals| && raw == Flatten(arrivals[..used]) && Needed(arrivals, used)
      invariant Find(raw, BLANK_LINE) == Some(headerEnd) && headerEnd + 4 <= |raw| && raw[..headerEnd] == raw0[..headerEnd]
      decreases |arrivals| - used
    {
      HeadStable(raw, arrivals[used]);
      FlattenSnoc(arrivals, used);
      raw := raw + arrivals[used];
      used := used + 1;
    }
  }

  /** What `get` does once the headers are in: parses them, reads the body and frames it. */
  method ReadReply(arrivals: seq<seq<byte>>, raw0: seq<byte>, used0: nat, headerEnd: nat)
    returns (reply: Option<Reply>, used: nat)
    requires used0 <= |arrivals| && raw0 == Flatten(arrivals[..used0]) && Needed(arrivals, used0)
    requires Find(raw0, BLANK_LINE) == Some(headerEnd) && headerEnd + 4 <= |raw0|
    ensures reply == Response(Flatten(arrivals))
    ensures used <= |arrivals| && Needed(arrivals, used)
    ensures used < |arrivals| ==> MessageComplete(Flatten(arrivals[..used]))
  {
    var raw;
    var headers := Lossy(raw0[..headerEnd]);
    var head := ParseHead(headers);
    reply := None;
    if head.None? {
      used := used0;
      NothingToReply(arrivals, used, headerEnd);
    } else {
      raw, used := ReadBody(arrivals, raw0, used0, headerEnd, head.value.framing);
      ReplyOfPrefix(arrivals, used, headerEnd, headers);
      reply := Some(Reply(head.value.status, headers, BodyOf(head.value.framing, raw[headerEnd + 4..])));
    }
  }

  /**
   * `arrivals` are the non-empty reads the connection yields before it is closed, times out or fails, which the
   * loops treat alike. The reply is that of the concatenated bytes, however they were cut into reads, and the
   * loops stop at the first read that completes the message.
   */
  method Get(arrivals: seq<seq<byte>>) returns (reply: Option<Reply>, used: nat)
    requires forall i :: 0 <= i < |arrivals| ==> arrivals[i] != []
    ensures reply == Response(Flatten(arrivals))
    ensures used <= |arrivals| && Needed(arrivals, used)
    ensures used < |arrivals| ==> MessageComplete(Flatten(arrivals[..used]))
  {
    var raw, headerEnd;
    raw, used, headerEnd := ReadHead(arrivals);
    reply := None;
    if headerEnd.None? {
      assert arrivals[..used] == arrivals;
    } else {
      reply, used := ReadReply(arrivals, raw, used, headerEnd.value);
    }
  }

  lemma NothingToReply(arrivals: seq<seq<byte>>, used: nat, headerEnd: nat)
    requires used <= |arrivals|
    requires var raw := Flatten(arrivals[..used]);
             && Find(raw, BLANK_LINE) == Some(headerEnd) && headerEnd + 4 <= |raw|
             && ParseHead(Lossy(raw[..headerEnd])).None?
    ensures Response(Flatten(arrivals)) == None && MessageComplete(Flatten(arrivals[..used]))
  {
    var raw := Flatten(arrivals[..used]);
    ResponseParts(raw, headerEnd, Lossy(raw[..headerEnd]));
    ResponseOfPrefix(arrivals, used);
  }

  lemma ReplyOfPrefix(arrivals: seq<seq<byte>>, used: nat, headerEnd: nat, headers: string)
    requires used <= |arrivals|
    requires var raw := Flatten(arrivals[..used]);
             && Find(raw, BLANK_LINE) == Some(headerEnd) && headerEnd + 4 <= |raw|
             && headers == Lossy(raw[..headerEnd]) && ParseHead(headers).Some?
             && (used < |arrivals| ==> BodyComplete(ParseHead(headers).value.framing, raw[headerEnd + 4..]))
    ensures var raw, head := Flatten(arrivals[..used]), ParseHead(headers).value;
            Response(Flatten(arrivals)) == Some(Reply(head.status, headers, BodyOf(head.framing, raw[headerEnd + 4..])))
    ensures used < |arrivals| ==> MessageComplete(Flatten(arrivals[..used]))
  {
    ResponseParts(Flatten(arrivals[..used]), headerEnd, headers);
    ResponseOfPrefix(arrivals, used);
  }

  lemma ResponseOfPrefix(arrivals: seq<seq<byte>>, used: nat)
    requires used <= |arrivals|
    requires used < |arrivals| ==> MessageComplete(Flatten(arrivals[..used]))
    ensures Response(Flatten(arrivals)) == Response(Flatten(arrivals[..used]))
  {
    if used == |arrivals| {
      assert arrivals[..used] == arrivals;
    } else {
      FlattenSplit(arrivals, used);
      ResponseStable(Flatten(arrivals[..used]), Flatten(arrivals[used..]));
    }
  }

  // ----- `playstatusupdate` replies -----

  const CMST: seq<byte> := [99, 109, 115, 116]
  const CAPS: seq<byte> := [99, 97, 112, 115]
  const CANN: seq<byte> := [99, 97, 110, 110]
  const CANA: seq<byte> := [99, 97, 110, 97]
  const CANL: seq<byte> := [99, 97, 110, 108]
  const CAST: seq<byte> := [99, 97, 115, 116]
  const CANT: seq<byte> := [99, 97, 110, 116]

  datatype PlayStatus = PlayStatus(
    playing: Option<bool>,
    title: Option<string>,
    artist: Option<string>,
    album: Option<string>,
    durationMs: Option<nat>,
    positionMs: Option<nat>)

  const NO_STATUS: PlayStatus := PlayStatus(None, None, None, None, None, None)

  function IsPlayingValue(value: seq<byte>): Option<bool> {
    if value == [] then None else Some(value[0] == 4)
  }

  /** What the items of a status container say: last one wins, and the position is the length less the time left. */
  function StatusOf(items: seq<Item>): PlayStatus {
    var total, remaining := LastU32(items, CAST), LastU32(items, CANT);
    PlayStatus(
      (match LastValue(items, CAPS) case None => None case Some(v) => IsPlayingValue(v)),
      LastText(items, CANN),
      LastText(items, CANA),
      LastText(items, CANL),
      if LastU32(items, ASTM).Some? then LastU32(items, ASTM) else total,
      if total.None? || remaining.None? then None
      else if remaining.value <= total.value then Some(total.value - remaining.value)
      else Some(0))
  }

  function PlayStatusOf(body: seq<byte>): PlayStatus {
    match ReadItem(body)
    case Some(Read(Item(tag, value), _)) => if tag == CMST then StatusOf(Items(value)) else NO_STATUS
    case None => NO_STATUS
  }

  /** The loop's variables: the status so far, the length and the time left. */
  datatype Walk = Walk(status: PlayStatus, total: Option<nat>, remaining: Option<nat>)

  function WalkOf(items: seq<Item>): Walk {
    Walk(StatusOf(items).(durationMs := LastU32(items, ASTM), positionMs := None), LastU32(items, CAST), LastU32(items, CANT))
  }

  function WalkStep(w: Walk, item: Item): Walk {
    if item.tag == CAPS then w.(status := w.status.(playing := IsPlayingValue(item.value)))
    else if item.tag == CANN then w.(status := w.status.(title := Some(Lossy(item.value))))
    else if item.tag == CANA then w.(status := w.status.(artist := Some(Lossy(item.value))))
    else if item.tag == CANL then w.(status := w.status.(album := Some(Lossy(item.value))))
    else if item.tag == ASTM then w.(status := w.status.(durationMs := ReadU32(item.value)))
    else if item.tag == CAST then w.(total := ReadU32(item.value))
    else if item.tag == CANT then w.(remaining := ReadU32(item.value))
    else w
  }

  lemma WalkFolds(items: seq<Item>, item: Item)
    ensures WalkStep(WalkOf(items), item) == WalkOf(items + [item])
  {
    LastValueSnoc(items, item, CAPS);
    LastValueSnoc(items, item, CANN);
    LastValueSnoc(items, item, CANA);
    LastValueSnoc(items, item, CANL);
    LastValueSnoc(items, item, ASTM);
    LastValueSnoc(items, item, CAST);
    LastValueSnoc(items, item, CANT);
  }

  method ParsePlayStatus(body: seq<byte>) returns (status: PlayStatus)
    ensures status == PlayStatusOf(body)
  {
    var outer := ReadItem(body);
    if outer.None? || outer.value.item.tag != CMST {
      return NO_STATUS;
    }
    var rest := outer.value.item.value;
    var walk := Walk(NO_STATUS, None, None);
    ghost var all, done := Items(rest), [];
    var read := ReadItem(rest);
    while read.Some?
      invariant read == ReadItem(rest)
      invariant all == done + Items(rest)
      invariant walk == WalkOf(done)
      decreases |rest|
    {
      WalkFolds(done, read.value.item);
      ItemsStep(done, rest);
      walk := WalkStep(walk, read.value.item);
      done := done + [read.value.item];
      rest := read.value.rest;
      read := ReadItem(rest);
    }
    assert all == done;
    status := walk.status;
    if walk.total.Some? && walk.remaining.Some? {
      var total, remaining := walk.total.value, walk.remaining.value;
      status := status.(positionMs := Some(if remaining <= total then total - remaining else 0));
    }
    if status.durationMs.None? {
      status := status.(durationMs := walk.total);
    }
  }

  /** A status container reads back as the items it was built from, whatever follows it. */
  lemma PlayStatusRoundTrip(items: seq<Item>, last: Item, k: nat, rest: seq<byte>)
    requires forall i :: 0 <= i < |items| ==> IsItem(items[i])
    requires IsItem(last) && k < |EncodeItem(last)| && |EncodeItems(items) + EncodeItem(last)[..k]| < TWO_32
    ensures PlayStatusOf(EncodeItem(Item(CMST, EncodeItems(items) + EncodeItem(last)[..k])) + rest) == StatusOf(items)
  {
    ReadEncoded(Item(CMST, EncodeItems(items) + EncodeItem(last)[..k]), rest);
    ItemsWithTruncatedTail(items, last, k);
  }
}
