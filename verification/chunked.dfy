/** Request bodies as the broker reads them: fixed-length, and the chunked transfer coding of section 7.1 of RFC 9112. */
module RequestBody {
  import opened Bytes
  import opened Wrappers

  const CHUNK_SIZE := 65536
  const MAX_LINE := 8192

  /** The outcome of reading one body: what was passed on, and the position after an accepted body. */
  datatype Decoded = Accepted(payload: ByteString, next: nat) | Rejected(payload: ByteString)

  // ----- Lines -----

  /** Where `readline(limit)` stops: after the first LF, after `limit` bytes, or at the end of input. */
  function LineEnd(data: ByteString, at: nat, limit: nat): (end: nat)
    requires at <= |data|
    ensures at <= end <= |data| && end <= at + limit
    decreases limit
  {
    if limit == 0 || at == |data| then at
    else if data[at] == LF then at + 1
    else LineEnd(data, at + 1, limit - 1)
  }

  predicate Terminated(line: ByteString) {
    2 <= |line| <= MAX_LINE && line[|line| - 2] == CR && line[|line| - 1] == LF
  }

  predicate IsSpace(b: Byte) {
    b == 32 || 9 <= b <= 13
  }

  function HexDigit(b: Byte): (d: Option<nat>)
    ensures d.Some? ==> d.value < 16
  {
    if 48 <= b <= 57 then Some(b as int - 48)
    else if 65 <= b <= 70 then Some(b as int - 55)
    else if 97 <= b <= 102 then Some(b as int - 87)
    else None
  }

  predicate AllHex(s: ByteString) {
    forall i :: 0 <= i < |s| ==> HexDigit(s[i]).Some?
  }

  function HexValue(s: ByteString): nat
    requires AllHex(s)
  {
    if s == [] then 0 else 16 * HexValue(s[..|s| - 1]) + HexDigit(s[|s| - 1]).value
  }

  /** The part of a line before its first semicolon. */
  function BeforeSemicolon(line: ByteString, i: nat := 0): (s: ByteString)
    requires i <= |line|
    ensures i <= |s| <= |line| && s == line[..|s|]
    decreases |line| - i
  {
    if i == |line| || line[i] == 59 then line[..i] else BeforeSemicolon(line, i + 1)
  }

  function StripRight(s: ByteString): ByteString {
    if s != [] && IsSpace(s[|s| - 1]) then StripRight(s[..|s| - 1]) else s
  }

  function StripLeft(s: ByteString): ByteString {
    if s != [] && IsSpace(s[0]) then StripLeft(s[1..]) else s
  }

  /** The size a chunk line announces, if the line is acceptable. */
  function ParseSize(line: ByteString): Option<nat> {
    var text := StripLeft(StripRight(BeforeSemicolon(line)));
    if !Terminated(line) || text == [] || !AllHex(text) then None else Some(HexValue(text))
  }

  // ----- What a body decodes to -----

  /** Position after the trailer section starting at `at`, if it is acceptable. */
  function AfterTrailers(data: ByteString, at: nat): (next: Option<nat>)
    requires at <= |data|
    ensures next.Some? ==> at < next.value <= |data|
    decreases |data| - at
  {
    var end := LineEnd(data, at, MAX_LINE + 1);
    if data[at..end] == CRLF then Some(end)
    else if !Terminated(data[at..end]) then None
    else AfterTrailers(data, end)
  }

  /** Decoding from position `at`, after `before` has been passed on. */
  function Decode(data: ByteString, at: nat, before: ByteString): Decoded
    requires at <= |data|
    decreases |data| - at
  {
    var end := LineEnd(data, at, MAX_LINE + 1);
    match ParseSize(data[at..end])
    case None => Rejected(before)
    case Some(0) =>
      (match AfterTrailers(data, end)
       case None => Rejected(before)
       case Some(next) => Accepted(before, next))
    case Some(size) =>
      if |data| < end + size then Rejected(before + data[end..])
      else
        var read := before + data[end..end + size];
        if end + size + 2 <= |data| && data[end + size..end + size + 2] == CRLF
        then Decode(data, end + size + 2, read)
        else Rejected(read)
  }

  /** One turn of the decoder. */
  lemma DecodeOne(data: ByteString, at: nat, before: ByteString)
    requires at <= |data|
    ensures var end := LineEnd(data, at, MAX_LINE + 1);
            match ParseSize(data[at..end])
            case None => Decode(data, at, before) == Rejected(before)
            case Some(size) =>
              if size == 0 then Decode(data, at, before) == if AfterTrailers(data, end).Some? then Accepted(before, AfterTrailers(data, end).value) else Rejected(before)
              else if |data| < end + size then Decode(data, at, before) == Rejected(before + data[end..])
              else var read := before + data[end..end + size];
                   Decode(data, at, before) == if end + size + 2 <= |data| && data[end + size..end + size + 2] == CRLF
                                               then Decode(data, end + size + 2, read) else Rejected(read)
  {
  }

  // ----- Encodings, as section 7.1 of RFC 9112 writes them -----

  const LOWER := "0123456789abcdef"
  const UPPER := "0123456789ABCDEF"

  /** The digit that stands for `d`, in either case. */
  ghost predicate StandsFor(b: Byte, d: nat)
    requires d < 16
  {
    b as int == LOWER[d] as int || b as int == UPPER[d] as int
  }

  /** `text` writes `n` in hexadecimal, in either case and with any number of leading zeros: its last digit is the remainder of dividing by sixteen, and what stands before it writes the quotient. */
  ghost predicate Writes(text: ByteString, n: nat) {
    if text == [] then n == 0 else StandsFor(text[|text| - 1], n % 16) && Writes(text[..|text| - 1], n / 16)
  }

  /** A number in hexadecimal, without leading zeros. */
  function ToHex(n: nat, alphabet: string): (text: ByteString)
    requires alphabet in {LOWER, UPPER}
    ensures text != []
  {
    (if n < 16 then [] else ToHex(n / 16, alphabet)) + [alphabet[n % 16] as int as Byte]
  }

  lemma ZerosWrite(zeros: nat)
    ensures Writes(seq(zeros, _ => 48), 0)
  {
    if zeros > 0 {
      assert seq(zeros, _ => 48 as Byte)[..zeros - 1] == seq(zeros - 1, _ => 48 as Byte);
      ZerosWrite(zeros - 1);
    }
  }

  lemma WritesMore(front: ByteString, digit: Byte, n: nat)
    requires Writes(front, n / 16) && StandsFor(digit, n % 16)
    ensures Writes(front + [digit], n)
  {
    assert (front + [digit])[..|front|] == front;
  }

  lemma {:induction false} ToHexWrites(n: nat, alphabet: string, zeros: nat)
    requires alphabet in {LOWER, UPPER}
    ensures Writes(seq(zeros, _ => 48) + ToHex(n, alphabet), n)
  {
    hide Writes;
    var front, digit := seq(zeros, _ => 48 as Byte), alphabet[n % 16] as int as Byte;
    if n < 16 {
      ZerosWrite(zeros);
      assert front + ToHex(n, alphabet) == front + [digit];
      WritesMore(front, digit, n);
    } else {
      ToHexWrites(n / 16, alphabet, zeros);
      assert front + ToHex(n, alphabet) == front + ToHex(n / 16, alphabet) + [digit];
      WritesMore(front + ToHex(n / 16, alphabet), digit, n);
    }
  }

  lemma DigitExact(b: Byte, d: nat)
    requires d < 16
    ensures HexDigit(b) == Some(d) <==> StandsFor(b, d)
  {
  }

  /** A text is read as the number it writes, and as none if it writes none. */
  lemma {:induction false} HexExact(text: ByteString, n: nat)
    ensures Writes(text, n) <==> AllHex(text) && HexValue(text) == n
  {
    if text != [] {
      var front, last := text[..|text| - 1], text[|text| - 1];
      assert text == front + [last];
      HexExact(front, n / 16);
      DigitExact(last, n % 16);
      assert AllHex(text) <==> AllHex(front) && HexDigit(last).Some?;
    }
  }

  /** A chunk: its size in hexadecimal, optional white space, an optional extension and its data. The last chunk has none. */
  datatype Chunk = Chunk(size: ByteString, padding: ByteString, extension: ByteString, data: ByteString) {
    ghost predicate Valid() {
      && size != [] && Writes(size, |data|)
      && (forall i :: 0 <= i < |padding| ==> padding[i] == 32 || padding[i] == 9)
      && (extension != [] ==> extension[0] == 59)
      && LF !in extension
      && |Line()| <= MAX_LINE
    }

    function Line(): ByteString {
      size + padding + extension + CRLF
    }
  }

  ghost predicate ValidTrailers(trailers: seq<ByteString>) {
    forall t <- trailers :: t != [] && LF !in t && |t| + 2 <= MAX_LINE
  }

  function EncodeTrailers(trailers: seq<ByteString>): ByteString {
    if trailers == [] then CRLF else (trailers[0] + CRLF) + EncodeTrailers(trailers[1..])
  }

  function Encode(chunks: seq<Chunk>, last: Chunk, trailers: seq<ByteString>): ByteString {
    if chunks == [] then last.Line() + EncodeTrailers(trailers)
    else (chunks[0].Line() + (chunks[0].data + CRLF)) + Encode(chunks[1..], last, trailers)
  }

  function Payload(chunks: seq<Chunk>): ByteString {
    if chunks == [] then [] else chunks[0].data + Payload(chunks[1..])
  }

  ghost predicate ValidMessage(chunks: seq<Chunk>, last: Chunk, trailers: seq<ByteString>) {
    && (forall c <- chunks :: c.Valid() && c.data != [])
    && last.Valid() && last.data == []
    && ValidTrailers(trailers)
  }

  // ----- Lines read back -----

  /** `part` stands in `data` at `at`. */
  ghost predicate Holds(data: ByteString, at: nat, part: ByteString) {
    at + |part| <= |data| && data[at..at + |part|] == part
  }

  /** A complete line is read to its end and no further. */
  lemma {:induction false} WholeLine(data: ByteString, at: nat, line: ByteString, limit: nat)
    requires 0 < |line| <= limit && Holds(data, at, line)
    requires line[|line| - 1] == LF && LF !in line[..|line| - 1]
    ensures LineEnd(data, at, limit) == at + |line|
    decreases |line|
  {
    assert data[at] == data[at..at + |line|][0] == line[0];
    if |line| > 1 {
      assert line[0] == line[..|line| - 1][0];
      var rest := line[1..];
      assert data[at + 1..at + 1 + |rest|] == data[at..at + |line|][1..];
      forall i | 0 <= i < |rest| - 1
        ensures rest[i] != LF
      {
        assert rest[i] == line[..|line| - 1][i + 1];
      }
      WholeLine(data, at + 1, rest, limit - 1);
    }
  }

  lemma {:induction false} StripRightSpaces(s: ByteString, spaces: ByteString)
    requires s != [] && !IsSpace(s[|s| - 1])
    requires forall i :: 0 <= i < |spaces| ==> IsSpace(spaces[i])
    ensures StripRight(s + spaces) == s
  {
    if spaces == [] {
      assert s + spaces == s;
    } else {
      assert (s + spaces)[..|s + spaces| - 1] == s + spaces[..|spaces| - 1];
      StripRightSpaces(s, spaces[..|spaces| - 1]);
    }
  }

  lemma {:induction false} SemicolonStops(line: ByteString, i: nat, k: nat)
    requires i <= k <= |line|
    requires forall j :: i <= j < k ==> line[j] != 59
    requires k < |line| ==> line[k] == 59
    ensures BeforeSemicolon(line, i) == line[..k]
    decreases k - i
  {
    if i < k {
      SemicolonStops(line, i + 1, k);
    }
  }

  lemma HexIsNoSpace(s: ByteString, i: nat)
    requires AllHex(s) && i < |s|
    ensures !IsSpace(s[i]) && s[i] != 59 && s[i] != LF
  {
    assert HexDigit(s[i]).Some?;
  }

  lemma LineAsParts(c: Chunk)
    requires c.Valid()
    ensures var n := |c.size| + |c.padding|;
            && (forall i :: 0 <= i < n ==> c.Line()[i] != 59 && c.Line()[i] != LF)
            && c.Line()[..n] == c.size + c.padding
            && (c.extension != [] ==> c.Line()[n] == 59)
            && (c.extension == [] ==> c.Line() == c.size + (c.padding + CRLF))
  {
    var n := |c.size| + |c.padding|;
    HexExact(c.size, |c.data|);
    forall i | 0 <= i < n
      ensures c.Line()[i] != 59 && c.Line()[i] != LF
    {
      if i < |c.size| {
        HexIsNoSpace(c.size, i);
      }
    }
  }

  /** Tabs, line feeds, vertical tabs, form feeds, carriage returns and spaces. */
  ghost predicate Spaces(s: ByteString) {
    forall i :: 0 <= i < |s| ==> s[i] in {9, 10, 11, 12, 13, 32}
  }

  /** A line that announces `n`: a text that writes it, with white space around it and anything after a semicolon. */
  ghost predicate Announces(line: ByteString, before: ByteString, text: ByteString, after: ByteString, rest: ByteString, n: nat) {
    && Terminated(line) && line == before + text + after + rest
    && Spaces(before) && Spaces(after) && text != [] && Writes(text, n)
    && (rest != [] ==> rest[0] == 59)
  }

  /** Exactly such lines are accepted, as announcing that number. */
  lemma SizeLineExact(line: ByteString, n: nat)
    ensures ParseSize(line) == Some(n) <==> exists before, text, after, rest :: Announces(line, before, text, after, rest, n)
  {
    if ParseSize(line) == Some(n) {
      var before, text, after, rest := SizeLineParts(line, n);
      assert Announces(line, before, text, after, rest, n);
    } else {
      forall before, text, after, rest | Announces(line, before, text, after, rest, n)
        ensures false
      {
        AnnouncedIsRead(line, before, text, after, rest, n);
      }
    }
  }

  lemma AnnouncedIsRead(line: ByteString, before: ByteString, text: ByteString, after: ByteString, rest: ByteString, n: nat)
    requires Announces(line, before, text, after, rest, n)
    ensures ParseSize(line) == Some(n)
  {
    HexExact(text, n);
    HexIsNoSpace(text, |text| - 1);
    HexIsNoSpace(text, 0);
    var k := |before + text + after|;
    forall j | 0 <= j < k
      ensures line[j] != 59
    {
      if |before| <= j < |before + text| {
        HexIsNoSpace(text, j - |before|);
      }
    }
    SemicolonStops(line, 0, k);
    assert line[..k] == (before + text) + after;
    StripRightSpaces(before + text, after);
    StripLeftSpaces(before, text);
  }

  lemma {:induction false} StripLeftSpaces(spaces: ByteString, s: ByteString)
    requires Spaces(spaces) && (s != [] ==> !IsSpace(s[0]))
    ensures StripLeft(spaces + s) == s
  {
    if spaces == [] {
      assert spaces + s == s;
    } else {
      assert (spaces + s)[1..] == spaces[1..] + s;
      StripLeftSpaces(spaces[1..], s);
    }
  }

  lemma {:induction false} BeforeSemicolonEnds(line: ByteString, i: nat)
    requires i <= |line|
    ensures var s := BeforeSemicolon(line, i); |s| < |line| ==> line[|s|] == 59
    decreases |line| - i
  {
    if i < |line| && line[i] != 59 {
      BeforeSemicolonEnds(line, i + 1);
    }
  }

  lemma {:induction false} StripRightLeaves(s: ByteString) returns (spaces: ByteString)
    ensures s == StripRight(s) + spaces && Spaces(spaces)
  {
    if s != [] && IsSpace(s[|s| - 1]) {
      var rest := StripRightLeaves(s[..|s| - 1]);
      spaces := rest + [s[|s| - 1]];
      assert s == s[..|s| - 1] + [s[|s| - 1]];
    } else {
      spaces := [];
    }
  }

  lemma {:induction false} StripLeftLeaves(s: ByteString) returns (spaces: ByteString)
    ensures s == spaces + StripLeft(s) && Spaces(spaces)
  {
    if s != [] && IsSpace(s[0]) {
      var rest := StripLeftLeaves(s[1..]);
      spaces := [s[0]] + rest;
      assert s == [s[0]] + s[1..];
    } else {
      spaces := [];
    }
  }

  lemma SizeLineParts(line: ByteString, n: nat) returns (before: ByteString, text: ByteString, after: ByteString, rest: ByteString)
    requires ParseSize(line) == Some(n)
    ensures Announces(line, before, text, after, rest, n)
  {
    var head := BeforeSemicolon(line);
    rest := line[|head|..];
    BeforeSemicolonEnds(line, 0);
    after := StripRightLeaves(head);
    before := StripLeftLeaves(StripRight(head));
    text := StripLeft(StripRight(head));
    HexExact(text, n);
    assert line == head + rest && head == before + text + after;
  }

  /** Every size whose line fits can be announced, in either case and with leading zeros. */
  lemma EverySizeIsRead(n: nat, alphabet: string, zeros: nat)
    requires alphabet in {LOWER, UPPER} && zeros + |ToHex(n, alphabet)| + 2 <= MAX_LINE
    ensures ParseSize(seq(zeros, _ => 48) + ToHex(n, alphabet) + CRLF) == Some(n)
  {
    var text := seq(zeros, _ => 48 as Byte) + ToHex(n, alphabet);
    ToHexWrites(n, alphabet, zeros);
    assert Announces(text + CRLF, [], text, CRLF, [], n);
    AnnouncedIsRead(text + CRLF, [], text, CRLF, [], n);
  }

  /** The size line of a valid chunk announces exactly the length of its data. */
  lemma SizeOfLine(c: Chunk)
    requires c.Valid()
    ensures ParseSize(c.Line()) == Some(|c.data|)
  {
    var line, n := c.Line(), |c.data|;
    if c.extension != [] {
      assert Announces(line, [], c.size, c.padding, c.extension + CRLF, n);
      AnnouncedIsRead(line, [], c.size, c.padding, c.extension + CRLF, n);
    } else {
      assert Announces(line, [], c.size, c.padding + CRLF, [], n);
      AnnouncedIsRead(line, [], c.size, c.padding + CRLF, [], n);
    }
  }

  lemma LineHasOneLf(c: Chunk)
    requires c.Valid()
    ensures c.Line()[|c.Line()| - 1] == LF && LF !in c.Line()[..|c.Line()| - 1]
  {
    LineAsParts(c);
    var line, n := c.Line(), |c.size| + |c.padding|;
    forall i | 0 <= i < |line| - 1
      ensures line[i] != LF
    {
      if n <= i < n + |c.extension| {
        assert line[i] == c.extension[i - n];
      }
    }
  }

  /** Reading a chunk's size line, whatever follows it. */
  lemma ReadSizeLine(data: ByteString, at: nat, c: Chunk)
    requires c.Valid() && Holds(data, at, c.Line())
    ensures var end := LineEnd(data, at, MAX_LINE + 1);
            end == at + |c.Line()| && ParseSize(data[at..end]) == Some(|c.data|)
  {
    LineHasOneLf(c);
    WholeLine(data, at, c.Line(), MAX_LINE + 1);
    SizeOfLine(c);
  }

  // ----- Decoding undoes encoding -----

  lemma SplitHolds(data: ByteString, at: nat, first: ByteString, second: ByteString)
    requires Holds(data, at, first + second)
    ensures Holds(data, at, first) && Holds(data, at + |first|, second)
  {
    var both := data[at..at + |first + second|];
    assert data[at..at + |first|] == both[..|first|];
    assert data[at + |first|..at + |first| + |second|] == both[|first|..];
  }

  lemma ReadTrailerLine(data: ByteString, at: nat, body: ByteString)
    requires LF !in body && |body| + 2 <= MAX_LINE && Holds(data, at, body + CRLF)
    ensures var end := LineEnd(data, at, MAX_LINE + 1);
            && end == at + |body| + 2
            && data[at..end] == body + CRLF && Terminated(data[at..end])
  {
    var line := body + CRLF;
    assert forall i :: 0 <= i < |line| - 1 ==> line[i] != LF;
    WholeLine(data, at, line, MAX_LINE + 1);
  }

  lemma OneTrailer(data: ByteString, at: nat, body: ByteString)
    requires body != [] && LF !in body && |body| + 2 <= MAX_LINE && Holds(data, at, body + CRLF)
    ensures AfterTrailers(data, at) == AfterTrailers(data, at + |body| + 2)
  {
    ReadTrailerLine(data, at, body);
    assert |body + CRLF| != |CRLF|;
  }

  lemma {:induction false} TrailersRead(data: ByteString, at: nat, trailers: seq<ByteString>)
    requires ValidTrailers(trailers) && Holds(data, at, EncodeTrailers(trailers))
    ensures AfterTrailers(data, at) == Some(at + |EncodeTrailers(trailers)|)
    decreases |trailers|
  {
    hide LineEnd, Terminated, Holds;
    if trailers == [] {
      assert [] + CRLF == CRLF;
      ReadTrailerLine(data, at, []);
    } else {
      var body, rest := trailers[0], EncodeTrailers(trailers[1..]);
      assert body in trailers;
      SplitHolds(data, at, body + CRLF, rest);
      OneTrailer(data, at, body);
      TrailersRead(data, at + |body| + 2, trailers[1..]);
    }
  }

  lemma ChunkRead(data: ByteString, at: nat, c: Chunk, before: ByteString)
    requires c.Valid() && c.data != [] && Holds(data, at, c.Line() + (c.data + CRLF))
    ensures Decode(data, at, before) == Decode(data, at + |c.Line()| + |c.data| + 2, before + c.data)
  {
    hide LineEnd, ParseSize, Chunk.Line, Chunk.Valid;
    SplitHolds(data, at, c.Line(), c.data + CRLF);
    SplitHolds(data, at + |c.Line()|, c.data, CRLF);
    ReadSizeLine(data, at, c);
  }

  lemma LastRead(data: ByteString, at: nat, last: Chunk, trailers: seq<ByteString>, before: ByteString)
    requires last.Valid() && last.data == [] && ValidTrailers(trailers)
    requires Holds(data, at, last.Line() + EncodeTrailers(trailers))
    ensures Decode(data, at, before) == Accepted(before, at + |last.Line() + EncodeTrailers(trailers)|)
  {
    hide LineEnd, ParseSize, Chunk.Line, Chunk.Valid, AfterTrailers, EncodeTrailers, ValidTrailers;
    SplitHolds(data, at, last.Line(), EncodeTrailers(trailers));
    ReadSizeLine(data, at, last);
    TrailersRead(data, at + |last.Line()|, trailers);
  }

  /** Decoding an encoded body yields exactly its payload and consumes exactly its encoding, whatever follows it on the connection. */
  lemma {:induction false} DecodeEncode(data: ByteString, at: nat, chunks: seq<Chunk>, last: Chunk,
                                        trailers: seq<ByteString>, before: ByteString)
    requires ValidMessage(chunks, last, trailers) && Holds(data, at, Encode(chunks, last, trailers))
    ensures Decode(data, at, before)
            == Accepted(before + Payload(chunks), at + |Encode(chunks, last, trailers)|)
    decreases |chunks|
  {
    hide Decode, Chunk.Line, Chunk.Valid, Holds, EncodeTrailers, ValidTrailers;
    if chunks == [] {
      LastRead(data, at, last, trailers, before);
      assert before + Payload(chunks) == before;
    } else {
      var c := chunks[0];
      SplitHolds(data, at, c.Line() + (c.data + CRLF), Encode(chunks[1..], last, trailers));
      ChunkRead(data, at, c, before);
      DecodeEncode(data, at + |c.Line()| + |c.data| + 2, chunks[1..], last, trailers, before + c.data);
      assert before + c.data + Payload(chunks[1..]) == before + Payload(chunks);
    }
  }

  // ----- No proper prefix is accepted -----

  /** `data` ends strictly inside `part`, which starts at `at`. */
  ghost predicate EndsInside(data: ByteString, at: nat, part: ByteString) {
    at <= |data| < at + |part| && data[at..] == part[..|data| - at]
  }

  lemma SplitInside(data: ByteString, at: nat, first: ByteString, second: ByteString)
    requires EndsInside(data, at, first + second)
    ensures EndsInside(data, at, first)
            || (Holds(data, at, first) && EndsInside(data, at + |first|, second))
  {
    var rest := data[at..];
    if |data| < at + |first| {
      assert (first + second)[..|data| - at] == first[..|data| - at];
    } else {
      assert data[at..at + |first|] == rest[..|first|] == first;
      assert data[at + |first|..] == rest[|first|..];
      assert (first + second)[..|data| - at][|first|..] == second[..|data| - at - |first|];
    }
  }

  lemma LineCut(data: ByteString, at: nat, line: ByteString)
    requires 0 < |line| && LF !in line[..|line| - 1] && EndsInside(data, at, line)
    ensures var got := data[at..LineEnd(data, at, MAX_LINE + 1)]; !Terminated(got) && got != CRLF
  {
    forall i | at <= i < |data|
      ensures data[i] != LF
    {
      assert data[i] == data[at..][i - at] == line[..|line| - 1][i - at];
    }
  }

  lemma {:induction false} TrailersCut(data: ByteString, at: nat, trailers: seq<ByteString>)
    requires ValidTrailers(trailers) && EndsInside(data, at, EncodeTrailers(trailers))
    ensures AfterTrailers(data, at) == None
    decreases |trailers|
  {
    hide LineEnd, Terminated, EndsInside, Holds;
    if trailers == [] {
      LineCut(data, at, CRLF);
    } else {
      var line := trailers[0] + CRLF;
      assert trailers[0] in trailers;
      SplitInside(data, at, line, EncodeTrailers(trailers[1..]));
      assert forall i :: 0 <= i < |line| - 1 ==> line[i] != LF;
      if EndsInside(data, at, line) {
        LineCut(data, at, line);
      } else {
        OneTrailer(data, at, trailers[0]);
        TrailersCut(data, at + |line|, trailers[1..]);
      }
    }
  }

  lemma ChunkCut(data: ByteString, at: nat, c: Chunk, before: ByteString)
    requires c.Valid() && c.data != [] && EndsInside(data, at, c.Line() + (c.data + CRLF))
    ensures Decode(data, at, before).Rejected?
  {
    SplitInside(data, at, c.Line(), c.data + CRLF);
    if EndsInside(data, at, c.Line()) {
      LineHasOneLf(c);
      LineCut(data, at, c.Line());
    } else {
      ReadSizeLine(data, at, c);
    }
  }

  lemma LastCut(data: ByteString, at: nat, last: Chunk, trailers: seq<ByteString>, before: ByteString)
    requires last.Valid() && last.data == [] && ValidTrailers(trailers)
    requires EndsInside(data, at, last.Line() + EncodeTrailers(trailers))
    ensures Decode(data, at, before).Rejected?
  {
    hide LineEnd, Chunk.Line, Chunk.Valid, AfterTrailers, EncodeTrailers, ValidTrailers, Terminated;
    SplitInside(data, at, last.Line(), EncodeTrailers(trailers));
    if EndsInside(data, at, last.Line()) {
      LineHasOneLf(last);
      LineCut(data, at, last.Line());
    } else {
      ReadSizeLine(data, at, last);
      TrailersCut(data, at + |last.Line()|, trailers);
    }
  }

  /** Every proper prefix of an encoding is rejected. */
  lemma {:induction false} PrefixRejected(data: ByteString, at: nat, chunks: seq<Chunk>, last: Chunk,
                                          trailers: seq<ByteString>, before: ByteString)
    requires ValidMessage(chunks, last, trailers) && EndsInside(data, at, Encode(chunks, last, trailers))
    ensures Decode(data, at, before).Rejected?
    decreases |chunks|
  {
    hide Decode, Chunk.Line, Chunk.Valid, Holds, EndsInside, EncodeTrailers, ValidTrailers;
    if chunks == [] {
      LastCut(data, at, last, trailers, before);
    } else {
      var c := chunks[0];
      SplitInside(data, at, c.Line() + (c.data + CRLF), Encode(chunks[1..], last, trailers));
      if EndsInside(data, at, c.Line() + (c.data + CRLF)) {
        ChunkCut(data, at, c, before);
      } else {
        ChunkRead(data, at, c, before);
        PrefixRejected(data, at + |c.Line()| + |c.data| + 2, chunks[1..], last, trailers, before + c.data);
      }
    }
  }

  // ----- The reader -----

  /** What a fixed-length body decodes to. */
  function DecodeFixed(data: ByteString, at: nat, length: nat): Decoded
    requires at <= |data|
  {
    if at + length <= |data| then Accepted(data[at..at + length], at + length) else Rejected(data[at..])
  }

  /** The request side of one connection; reads block until they are full or the peer is done. */
  class Connection {
    const input: ByteString
    var position: nat

    constructor (input: ByteString)
      ensures this.input == input && position == 0
    {
      this.input := input;
      position := 0;
    }

    ghost predicate Valid()
      reads this
    {
      position <= |input|
    }

    method ReadLine(limit: nat) returns (line: ByteString)
      requires Valid()
      modifies this
      ensures Valid() && position == LineEnd(input, old(position), limit)
      ensures line == input[old(position)..position]
    {
      var end := LineEnd(input, position, limit);
      line := input[position..end];
      position := end;
    }

    method Read(count: nat) returns (bytes: ByteString)
      requires Valid()
      modifies this
      ensures Valid()
      ensures position == if old(position) + count <= |input| then old(position) + count else |input|
      ensures bytes == input[old(position)..position]
    {
      var end := if position + count <= |input| then position + count else |input|;
      bytes := input[position..end];
      position := end;
    }

    /** Passes on `size` bytes in pieces of at most CHUNK_SIZE. */
    method Relay(size: nat, yielded: seq<ByteString>) returns (out: seq<ByteString>, ok: bool)
      requires Valid()
      modifies this
      ensures Valid()
      ensures match DecodeFixed(input, old(position), size)
              case Accepted(bytes, next) => ok && position == next && Concat(out) == Concat(yielded) + bytes
              case Rejected(bytes) => !ok && Concat(out) == Concat(yielded) + bytes
      ensures |yielded| <= |out| && out[..|yielded|] == yielded
      ensures forall i :: |yielded| <= i < |out| ==> 0 < |out[i]| <= CHUNK_SIZE
    {
      var remaining := size;
      out := yielded;
      ghost var start := position;
      assert Concat(yielded) == Concat(yielded) + input[start..start];
      while remaining > 0
        invariant Valid() && start <= position && 0 <= remaining <= size && position + remaining == start + size
        invariant Concat(out) == Concat(yielded) + input[start..position]
        invariant |yielded| <= |out| && out[..|yielded|] == yielded
        invariant forall i :: |yielded| <= i < |out| ==> 0 < |out[i]| <= CHUNK_SIZE
      {
        ghost var from := position;
        var chunk := Read(if remaining <= CHUNK_SIZE then remaining else CHUNK_SIZE);
        if chunk == [] {
          assert input[start..position] == input[start..];
          return out, false;
        }
        ConcatAppend(out, chunk);
        assert input[start..from] + input[from..position] == input[start..position];
        out := out + [chunk];
        remaining := remaining - |chunk|;
      }
      ok := true;
    }

    method SkipTrailers() returns (ok: bool)
      requires Valid()
      modifies this
      ensures Valid()
      ensures ok <==> AfterTrailers(input, old(position)).Some?
      ensures ok ==> position == AfterTrailers(input, old(position)).value
    {
      while true
        invariant Valid() && AfterTrailers(input, position) == AfterTrailers(input, old(position))
        decreases |input| - position
      {
        var trailer := ReadLine(MAX_LINE + 1);
        if trailer == CRLF {
          return true;
        }
        if !Terminated(trailer) {
          return false;
        }
      }
    }

    /** `_body`: the pieces passed on, and whether the body was well formed. */
    method Body(length: Option<nat>, chunked: bool) returns (yielded: seq<ByteString>, ok: bool)
      requires Valid()
      modifies this
      ensures Valid()
      ensures !chunked ==>
                match DecodeFixed(input, old(position), if length.Some? then length.value else 0)
                case Accepted(bytes, next) => ok && position == next && Concat(yielded) == bytes
                case Rejected(bytes) => !ok && Concat(yielded) == bytes
      ensures chunked ==>
                match Decode(input, old(position), [])
                case Accepted(bytes, next) => ok && position == next && Concat(yielded) == bytes
                case Rejected(bytes) => !ok && Concat(yielded) == bytes
      ensures forall piece <- yielded :: 0 < |piece| <= CHUNK_SIZE
    {
      if !chunked {
        yielded, ok := Relay(if length.Some? then length.value else 0, []);
      } else {
        yielded, ok := ChunkedBody();
      }
    }

    method ChunkedBody() returns (yielded: seq<ByteString>, ok: bool)
      requires Valid()
      modifies this
      ensures Valid()
      ensures match Decode(input, old(position), [])
              case Accepted(bytes, next) => ok && position == next && Concat(yielded) == bytes
              case Rejected(bytes) => !ok && Concat(yielded) == bytes
      ensures forall piece <- yielded :: 0 < |piece| <= CHUNK_SIZE
    {
      hide LineEnd, ParseSize, AfterTrailers, Decode;
      yielded := [];
      while true
        invariant Valid()
        invariant Decode(input, position, Concat(yielded)) == Decode(input, old(position), [])
        invariant forall piece <- yielded :: 0 < |piece| <= CHUNK_SIZE
        decreases |input| - position
      {
        DecodeOne(input, position, Concat(yielded));
        var line := ReadLine(MAX_LINE + 1);
        var announced := ParseSize(line);
        if announced == None {
          return yielded, false;
        }
        if announced.value == 0 {
          ok := SkipTrailers();
          return yielded, ok;
        }
        yielded, ok := Relay(announced.value, yielded);
        if !ok {
          return yielded, false;
        }
        var end := Read(2);
        if end != CRLF {
          return yielded, false;
        }
      }
    }
  }
}
