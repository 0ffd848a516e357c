/** Reading the answers of the Docker daemon: the head of an HTTP/1.1 response, and
    bodies sent in chunks. */
module Chunked {
  import opened Wrappers

  const CR: byte := 13
  const LF: byte := 10
  const SPACE: byte := 32
  const COLON: byte := 58
  const SEMICOLON: byte := 59
  const PLUS: byte := 43

  const CRLF: Bytes := [CR, LF]

  datatype Error = NoLineEnding | BadSize | ShortChunk | NoEndOfHead | BadStatusLine

  predicate IsSpace(b: byte) { 9 <= b <= 13 || b == SPACE }

  function TrimStart(s: Bytes): (r: Bytes)
    ensures |r| <= |s|
  {
    if s != [] && IsSpace(s[0]) then TrimStart(s[1..]) else s
  }

  function TrimEnd(s: Bytes): Bytes {
    if s != [] && IsSpace(s[|s| - 1]) then TrimEnd(s[..|s| - 1]) else s
  }

  function Trim(s: Bytes): Bytes { TrimEnd(TrimStart(s)) }

  /** Where `s` first holds a line end, or its length. */
  function LineEnd(s: Bytes): (n: nat)
    ensures n <= |s|
    ensures n < |s| ==> n + 2 <= |s| && s[n] == CR && s[n + 1] == LF
  {
    if |s| < 2 then |s|
    else if s[0] == CR && s[1] == LF then 0
    else 1 + LineEnd(s[1..])
  }

  /** Where `s` first holds that byte, or its length. */
  function Before(s: Bytes, b: byte): (n: nat)
    ensures n <= |s|
    ensures n < |s| ==> s[n] == b
  {
    if s == [] || s[0] == b then 0 else 1 + Before(s[1..], b)
  }

  // ------------------------------------------------------------ sizes

  function Digit(b: byte): Option<nat> {
    if 48 <= b <= 57 then Some((b - 48) as int)
    else if 97 <= b <= 102 then Some((b - 87) as int)
    else if 65 <= b <= 70 then Some((b - 55) as int)
    else None
  }

  function Digits(s: Bytes): Option<nat> {
    if s == [] then Some(0)
    else
      match (Digits(s[..|s| - 1]), Digit(s[|s| - 1]))
      case (Some(high), Some(low)) => Some(16 * high + low)
      case _ => None
  }

  const MAX_SIZE := 0xFFFF_FFFF_FFFF_FFFF

  /** `usize::from_str_radix(s, 16)`. */
  function HexValue(s: Bytes): Option<nat> {
    var digits := if s != [] && s[0] == PLUS then s[1..] else s;
    var value := if digits == [] then None else Digits(digits);
    if value.Some? && value.value <= MAX_SIZE then value else None
  }

  /** The size a chunk line announces, its extensions ignored. */
  function SizeOf(line: Bytes): Option<nat> {
    HexValue(Trim(line[..Before(line, SEMICOLON)]))
  }

  function HexDigit(n: nat): byte
    requires n < 16
  {
    if n < 10 then (48 + n) as byte else (87 + n) as byte
  }

  function Hex(n: nat): (r: Bytes)
    ensures r != []
  {
    if n < 16 then [HexDigit(n)] else Hex(n / 16) + [HexDigit(n % 16)]
  }

  lemma {:induction false} HexReads(n: nat)
    ensures Digits(Hex(n)) == Some(n)
    ensures forall k :: 0 <= k < |Hex(n)| ==> Digit(Hex(n)[k]).Some?
  {
    if n < 16 {
      assert Hex(n)[..0] == [];
    } else {
      HexReads(n / 16);
      var s := Hex(n);
      assert s[..|s| - 1] == Hex(n / 16);
      assert n == 16 * (n / 16) + n % 16;
    }
  }

  /** White space and then an extension, which starts with a semicolon; or nothing. */
  ghost predicate IsExtension(ext: Bytes) {
    exists k :: 0 <= k <= |ext| && (forall i :: 0 <= i < k ==> IsSpace(ext[i])) && (k == |ext| || ext[k] == SEMICOLON)
  }

  lemma {:induction false} BeforeConcat(a: Bytes, b: byte, rest: Bytes)
    requires forall k :: 0 <= k < |a| ==> a[k] != b
    requires rest == [] || rest[0] == b
    ensures Before(a + rest, b) == |a|
  {
    if a != [] {
      assert (a + rest)[1..] == a[1..] + rest;
      BeforeConcat(a[1..], b, rest);
    } else {
      assert a + rest == rest;
    }
  }

  lemma {:induction false} TrimEndStops(s: Bytes, spaces: Bytes)
    requires s != [] && !IsSpace(s[|s| - 1]) && forall k :: 0 <= k < |spaces| ==> IsSpace(spaces[k])
    ensures TrimEnd(s + spaces) == s
    decreases |spaces|
  {
    if spaces == [] {
      assert s + spaces == s;
    } else {
      assert (s + spaces)[..|s + spaces| - 1] == s + spaces[..|spaces| - 1];
      TrimEndStops(s, spaces[..|spaces| - 1]);
    }
  }

  lemma HexIsPlain(n: nat)
    ensures forall k :: 0 <= k < |Hex(n)| ==>
      !IsSpace(Hex(n)[k]) && Hex(n)[k] != SEMICOLON && Hex(n)[k] != PLUS && Hex(n)[k] != CR
  {
    HexReads(n);
    hide Hex;
    assert forall k :: 0 <= k < |Hex(n)| ==> Digit(Hex(n)[k]).Some?;
  }

  lemma SpacedSizeReads(n: nat, spaces: Bytes)
    requires n <= MAX_SIZE && forall k :: 0 <= k < |spaces| ==> IsSpace(spaces[k])
    ensures HexValue(Trim(Hex(n) + spaces)) == Some(n)
  {
    HexIsPlain(n);
    HexReads(n);
    hide Hex;
    hide Digits;
    hide IsSpace;
    var size := Hex(n) + spaces;
    assert size[0] == Hex(n)[0];
    assert TrimStart(size) == size;
    TrimEndStops(Hex(n), spaces);
  }

  /** A size written in hexadecimal, with any extension after it, is read back. */
  lemma SizeReads(n: nat, ext: Bytes)
    requires n <= MAX_SIZE && IsExtension(ext)
    ensures SizeOf(Hex(n) + ext) == Some(n)
  {
    HexIsPlain(n);
    hide Hex;
    hide HexValue;
    hide Trim;
    var k :| 0 <= k <= |ext| && (forall i :: 0 <= i < k ==> IsSpace(ext[i])) && (k == |ext| || ext[k] == SEMICOLON);
    var spaces, rest := ext[..k], ext[k..];
    var size := Hex(n) + spaces;
    assert Hex(n) + ext == size + rest;
    forall i | 0 <= i < |size| ensures size[i] != SEMICOLON {
      if i >= |Hex(n)| {
        assert size[i] == ext[i - |Hex(n)|] && IsSpace(ext[i - |Hex(n)|]);
      }
    }
    BeforeConcat(size, SEMICOLON, rest);
    assert (size + rest)[..|size|] == size;
    SpacedSizeReads(n, spaces);
  }

  // ------------------------------------------------------------ chunks

  function Prepend(out: Bytes, rest: Result<Bytes, Error>): Result<Bytes, Error> {
    match rest
    case Ok(more) => Ok(out + more)
    case Err(error) => Err(error)
  }

  /** What a body sent in chunks holds. */
  function Dechunked(body: Bytes): Result<Bytes, Error>
    decreases |body|
  {
    var n := LineEnd(body);
    if n == |body| then Err(NoLineEnding)
    else
      match SizeOf(body[..n])
      case None => Err(BadSize)
      case Some(size) =>
        var rest := body[n + 2..];
        if size == 0 then Ok([])
        else if |rest| < size then Err(ShortChunk)
        else Prepend(rest[..size], Dechunked(if size + 2 <= |rest| then rest[size + 2..] else []))
  }

  method Dechunk(body: Bytes) returns (r: Result<Bytes, Error>)
    ensures r == Dechunked(body)
  {
    hide LineEnd;
    hide SizeOf;
    hide Prepend;
    var out: Bytes := [];
    var rest := body;
    PrependNothing(Dechunked(body));
    while true
      invariant Dechunked(body) == Prepend(out, Dechunked(rest))
      decreases |rest|
    {
      PrependEnds(out);
      var n := LineEnd(rest);
      if n == |rest| {
        return Err(NoLineEnding);
      }
      var size := SizeOf(rest[..n]);
      if size.None? {
        return Err(BadSize);
      }
      ghost var whole := rest;
      rest := rest[n + 2..];
      if size.value == 0 {
        return Ok(out);
      }
      if |rest| < size.value {
        return Err(ShortChunk);
      }
      ghost var next := if size.value + 2 <= |rest| then rest[size.value + 2..] else [];
      PrependTwice(out, rest[..size.value], Dechunked(next));
      out := out + rest[..size.value];
      rest := if size.value + 2 <= |rest| then rest[size.value + 2..] else [];
    }
  }

  lemma PrependNothing(rest: Result<Bytes, Error>)
    ensures Prepend([], rest) == rest
  {
    if rest.Ok? {
      assert [] + rest.value == rest.value;
    }
  }

  lemma PrependEnds(out: Bytes)
    ensures Prepend(out, Ok([])) == Ok(out)
    ensures forall e :: Prepend(out, Err(e)) == Err(e)
  {
    assert out + [] == out;
  }

  lemma PrependTwice(a: Bytes, b: Bytes, rest: Result<Bytes, Error>)
    ensures Prepend(a, Prepend(b, rest)) == Prepend(a + b, rest)
  {
    if rest.Ok? {
      assert a + (b + rest.value) == a + b + rest.value;
    }
  }

  /** A chunk: the line that announces it, and its bytes. */
  datatype Chunk = Chunk(line: Bytes, data: Bytes)

  ghost predicate Announces(line: Bytes, size: nat) {
    LineEnd(line) == |line| && SizeOf(line) == Some(size)
  }

  ghost predicate Sound(chunks: seq<Chunk>) {
    forall k :: 0 <= k < |chunks| ==> chunks[k].data != [] && Announces(chunks[k].line, |chunks[k].data|)
  }

  function Encoded(chunks: seq<Chunk>, last: Bytes): Bytes {
    if chunks == [] then last + CRLF
    else chunks[0].line + CRLF + chunks[0].data + CRLF + Encoded(chunks[1..], last)
  }

  function Content(chunks: seq<Chunk>): Bytes {
    if chunks == [] then [] else chunks[0].data + Content(chunks[1..])
  }

  lemma {:induction false} LineEndConcat(line: Bytes, rest: Bytes)
    requires LineEnd(line) == |line|
    ensures LineEnd(line + CRLF + rest) == |line|
    decreases |line|
  {
    var s := line + CRLF + rest;
    if line != [] {
      assert s[1..] == line[1..] + CRLF + rest;
      if |line| == 1 {
        assert LineEnd(line[1..]) == 0;
      }
      LineEndConcat(line[1..], rest);
    }
  }

  lemma ChunkReads(line: Bytes, data: Bytes, rest: Bytes)
    requires data != [] && Announces(line, |data|)
    ensures Dechunked(line + CRLF + data + CRLF + rest) == Prepend(data, Dechunked(rest))
  {
    var body := line + CRLF + data + CRLF + rest;
    var after := data + CRLF + rest;
    assert body == line + CRLF + after;
    LineEndConcat(line, after);
    assert body[..|line|] == line && body[|line| + 2..] == after;
    assert after[..|data|] == data && after[|data| + 2..] == rest;
  }

  lemma LastReads(line: Bytes, trailer: Bytes)
    requires Announces(line, 0)
    ensures Dechunked(line + CRLF + trailer) == Ok([])
  {
    LineEndConcat(line, trailer);
    assert (line + CRLF + trailer)[..|line|] == line;
  }

  /** Whatever the bytes of the chunks, line ends included, and whatever the lines that
      announce them, the body is put together again; what follows the last chunk is not
      read. */
  lemma {:induction false} EncodedReads(chunks: seq<Chunk>, last: Bytes, trailer: Bytes)
    requires Sound(chunks) && Announces(last, 0)
    ensures Dechunked(Encoded(chunks, last) + trailer) == Ok(Content(chunks))
    decreases |chunks|
  {
    hide Announces;
    hide Dechunked;
    if chunks == [] {
      LastReads(last, trailer);
    } else {
      var rest := Encoded(chunks[1..], last) + trailer;
      var head := chunks[0].line + CRLF + chunks[0].data + CRLF;
      assert Encoded(chunks, last) + trailer == head + rest;
      EncodedReads(chunks[1..], last, trailer);
      ChunkReads(chunks[0].line, chunks[0].data, rest);
    }
  }

  lemma {:induction false} NoLineEndConcat(a: Bytes, b: Bytes)
    requires LineEnd(b) == |b| && forall k :: 0 <= k < |a| ==> a[k] != CR
    ensures LineEnd(a + b) == |a + b|
  {
    if a == [] {
      assert a + b == b;
    } else {
      assert (a + b)[1..] == a[1..] + b;
      NoLineEndConcat(a[1..], b);
    }
  }

  /** The line the standard asks for: the size in hexadecimal, then extensions without a
      line end. */
  lemma StandardLineAnnounces(n: nat, ext: Bytes)
    requires n <= MAX_SIZE && IsExtension(ext) && LineEnd(ext) == |ext|
    ensures Announces(Hex(n) + ext, n)
  {
    HexIsPlain(n);
    NoLineEndConcat(Hex(n), ext);
    SizeReads(n, ext);
  }

  // ------------------------------------------------------------ a response cut short

  lemma {:induction false} CutLine(line: Bytes, n: nat)
    requires LineEnd(line) == |line| && n < |line + CRLF|
    ensures LineEnd((line + CRLF)[..n]) == n
    decreases |line|
  {
    var s := (line + CRLF)[..n];
    if line == [] {
      assert |s| < 2;
    } else if n > 0 {
      assert s[1..] == (line[1..] + CRLF)[..n - 1];
      if |line| == 1 {
        assert LineEnd(line[1..]) == 0;
      }
      CutLine(line[1..], n - 1);
    }
  }

  lemma CutLineFails(line: Bytes, rest: Bytes, n: nat)
    requires LineEnd(line) == |line| && n < |line| + 2
    ensures Dechunked((line + CRLF + rest)[..n]) == Err(NoLineEnding)
  {
    assert (line + CRLF + rest)[..n] == (line + CRLF)[..n];
    CutLine(line, n);
  }

  lemma CutDataFails(line: Bytes, data: Bytes, n: nat)
    requires data != [] && Announces(line, |data|) && n < |data| + 2
    ensures Dechunked(line + CRLF + (data + CRLF)[..n]).Err?
  {
    var after := (data + CRLF)[..n];
    var body := line + CRLF + after;
    LineEndConcat(line, after);
    assert body[..|line|] == line && body[|line| + 2..] == after;
    assert Dechunked([]).Err?;
  }

  /** A chunked body cut anywhere before the end of its last chunk is an error: a
      connection that drops is never mistaken for a shorter answer. */
  lemma {:induction false} CutBodyFails(chunks: seq<Chunk>, last: Bytes, n: nat)
    requires Sound(chunks) && Announces(last, 0) && n < |Encoded(chunks, last)|
    ensures Dechunked(Encoded(chunks, last)[..n]).Err?
    decreases |chunks|
  {
    hide Dechunked;
    if chunks == [] {
      assert (last + CRLF + [])[..n] == (last + CRLF)[..n];
      CutLineFails(last, [], n);
    } else {
      hide Announces;
      var line, data := chunks[0].line, chunks[0].data;
      var rest := Encoded(chunks[1..], last);
      var body := Encoded(chunks, last);
      var size := |line| + 2 + |data| + 2;
      CutWhere(line, data, rest, n);
      if n < |line| + 2 {
        AnnouncesIsLine(line, |data|);
        CutLineFails(line, data + CRLF + rest, n);
      } else if n < size {
        CutDataFails(line, data, n - |line| - 2);
      } else {
        ChunkReads(line, data, rest[..n - size]);
        CutBodyFails(chunks[1..], last, n - size);
      }
    }
  }

  lemma CutWhere(line: Bytes, data: Bytes, rest: Bytes, n: nat)
    requires n <= |line| + |data| + |rest| + 4
    ensures var body, size := line + CRLF + data + CRLF + rest, |line| + |data| + 4;
            && body == line + CRLF + (data + CRLF + rest)
            && (|line| + 2 <= n <= size ==> body[..n] == line + CRLF + (data + CRLF)[..n - |line| - 2])
            && (n >= size ==> body[..n] == line + CRLF + data + CRLF + rest[..n - size])
  {
  }

  lemma AnnouncesIsLine(line: Bytes, size: nat)
    requires Announces(line, size)
    ensures LineEnd(line) == |line|
  {
  }

  // ------------------------------------------------------------ the head

  datatype Response = Response(status: nat, body: Bytes)

  /** Where the blank line that ends the head starts, or the length. */
  function HeadEnd(s: Bytes): (n: nat)
    ensures n <= |s|
    ensures n < |s| ==> n + 4 <= |s| && s[n..n + 4] == CRLF + CRLF
  {
    if |s| < 4 then |s|
    else if s[..4] == CRLF + CRLF then 0
    else 1 + HeadEnd(s[1..])
  }

  /** The lines of a head, a carriage return at the end of one dropped. */
  function Lines(s: Bytes): (r: seq<Bytes>)
  {
    if s == [] then []
    else
      var n := Before(s, LF);
      var line := if n > 0 && n < |s| && s[n - 1] == CR then s[..n - 1] else s[..n];
      [line] + if n == |s| then [] else Lines(s[n + 1..])
  }

  function Token(s: Bytes): (n: nat)
    ensures n <= |s|
  {
    if s == [] || IsSpace(s[0]) then 0 else 1 + Token(s[1..])
  }

  /** The second word of a line. */
  function SecondWord(line: Bytes): Bytes {
    var s := TrimStart(line);
    var rest := TrimStart(s[Token(s)..]);
    rest[..Token(rest)]
  }

  function Decimal(s: Bytes): Option<nat> {
    if s == [] then Some(0)
    else
      match Decimal(s[..|s| - 1])
      case None => None
      case Some(high) => if 48 <= s[|s| - 1] <= 57 then Some(10 * high + (s[|s| - 1] - 48) as int) else None
  }

  /** `str::parse::<u16>`. */
  function StatusOf(word: Bytes): Option<nat> {
    var digits := if word != [] && word[0] == PLUS then word[1..] else word;
    var value := if digits == [] then None else Decimal(digits);
    if value.Some? && value.value < 0x1_0000 then value else None
  }

  function LowerByte(b: byte): byte { if 65 <= b <= 90 then b + 32 else b }

  function Lower(s: Bytes): (r: Bytes)
    ensures |r| == |s|
  {
    seq(|s|, i requires 0 <= i < |s| => LowerByte(s[i]))
  }

  predicate Contains(s: Bytes, part: Bytes) {
    part <= s || (s != [] && Contains(s[1..], part))
  }

  /** "transfer-encoding" and "chunked", as bytes. */
  const TRANSFER_ENCODING: Bytes := [116, 114, 97, 110, 115, 102, 101, 114, 45, 101, 110, 99, 111, 100, 105, 110, 103]
  const CHUNKED: Bytes := [99, 104, 117, 110, 107, 101, 100]

  predicate AsksChunks(header: Bytes) {
    var n := Before(header, COLON);
    n < |header| && Lower(header[..n]) == TRANSFER_ENCODING && Contains(Lower(header[n + 1..]), CHUNKED)
  }

  predicate AnyAsksChunks(headers: seq<Bytes>) {
    exists k :: 0 <= k < |headers| && AsksChunks(headers[k])
  }

  function Parsed(response: Bytes): Result<Response, Error> {
    var n := HeadEnd(response);
    if n == |response| then Err(NoEndOfHead)
    else
      var lines, body := Lines(response[..n]), response[n + 4..];
      if lines == [] then Err(BadStatusLine)
      else
        match StatusOf(SecondWord(lines[0]))
        case None => Err(BadStatusLine)
        case Some(status) =>
          if AnyAsksChunks(lines[1..]) then
            match Dechunked(body)
            case Err(error) => Err(error)
            case Ok(content) => Ok(Response(status, content))
          else Ok(Response(status, body))
  }

  method ParseResponse(response: Bytes) returns (r: Result<Response, Error>)
    ensures r == Parsed(response)
  {
    hide SecondWord;
    hide StatusOf;
    hide AsksChunks;
    var n := HeadEnd(response);
    if n == |response| {
      return Err(NoEndOfHead);
    }
    var lines, body := Lines(response[..n]), response[n + 4..];
    if lines == [] {
      return Err(BadStatusLine);
    }
    var status := StatusOf(SecondWord(lines[0]));
    if status.None? {
      return Err(BadStatusLine);
    }
    var chunked := false;
    for i := 1 to |lines|
      invariant chunked <==> exists k :: 0 <= k < i - 1 && AsksChunks(lines[1..][k])
    {
      assert lines[1..][i - 1] == lines[i];
      chunked := chunked || AsksChunks(lines[i]);
    }
    if chunked {
      var content := Dechunk(body);
      return if content.Err? then Err(content.error) else Ok(Response(status.value, content.value));
    }
    return Ok(Response(status.value, body));
  }

  // ------------------------------------------------------------ what a head says

  /** The same letters, in capitals or not; `small` has none. */
  predicate SameLetters(s: Bytes, small: Bytes) {
    && |s| == |small|
    && forall k | 0 <= k < |s| :: if 65 <= s[k] <= 90 then small[k] == s[k] + 32 else small[k] == s[k]
  }

  predicate HoldsAt(s: Bytes, small: Bytes, k: int) {
    0 <= k <= |s| - |small| && SameLetters(s[k..k + |small|], small)
  }

  /** The header is named transfer-encoding and speaks of chunks, capitals aside. */
  ghost predicate SaysChunked(header: Bytes) {
    exists n :: NamedUpTo(header, n) && Holds(header[n + 1..], CHUNKED)
  }

  ghost predicate Holds(s: Bytes, small: Bytes) {
    exists k :: HoldsAt(s, small, k)
  }

  predicate NamedUpTo(header: Bytes, n: int) {
    0 <= n < |header| && header[n] == COLON && SameLetters(header[..n], TRANSFER_ENCODING)
  }

  lemma LowerIsSame(s: Bytes, small: Bytes)
    ensures Lower(s) == small <==> SameLetters(s, small)
  {
    if SameLetters(s, small) {
      assert forall k :: 0 <= k < |s| ==> Lower(s)[k] == small[k];
    }
  }

  lemma HoldsFirst(s: Bytes, small: Bytes)
    ensures HoldsAt(s, small, 0) <==> small <= Lower(s)
  {
    if |small| <= |s| {
      LowerIsSame(s[..|small|], small);
      assert Lower(s)[..|small|] == Lower(s[..|small|]);
    }
  }

  lemma HoldsLater(s: Bytes, small: Bytes, k: nat)
    requires s != []
    ensures HoldsAt(s, small, k + 1) <==> HoldsAt(s[1..], small, k)
  {
    if k + 1 <= |s| - |small| {
      assert s[1..][k..k + |small|] == s[k + 1..k + 1 + |small|];
    }
  }

  lemma {:induction false} ContainsSomewhere(s: Bytes, small: Bytes)
    ensures Contains(Lower(s), small) <==> Holds(s, small)
    decreases |s|
  {
    HoldsFirst(s, small);
    if s != [] {
      ContainsSomewhere(s[1..], small);
      assert Lower(s)[1..] == Lower(s[1..]);
      hide Lower;
      assert forall k :: HoldsAt(s, small, k) || HoldsAt(s[1..], small, k) ==> k >= 0;
      hide HoldsAt;
      if Holds(s[1..], small) {
        var k :| HoldsAt(s[1..], small, k);
        HoldsLater(s, small, k);
      }
      if Holds(s, small) {
        var k :| HoldsAt(s, small, k);
        if k > 0 {
          HoldsLater(s, small, k - 1);
        }
      }
    }
  }

  lemma NameEndsAtColon(header: Bytes, n: nat)
    requires NamedUpTo(header, n)
    ensures Before(header, COLON) == n
  {
    assert forall c | c in TRANSFER_ENCODING :: c != COLON;
    forall k | 0 <= k < n ensures header[..n][k] != COLON {
      assert TRANSFER_ENCODING[k] in TRANSFER_ENCODING;
    }
    BeforeStops(header[..n], COLON, header[n + 1..]);
    assert header == header[..n] + [COLON] + header[n + 1..];
  }

  /** A body is decoded exactly when a header says that it is chunked. */
  lemma AsksExactlyWhenSaid(header: Bytes)
    ensures AsksChunks(header) <==> SaysChunked(header)
  {
    var n := Before(header, COLON);
    if n < |header| {
      LowerIsSame(header[..n], TRANSFER_ENCODING);
      ContainsSomewhere(header[n + 1..], CHUNKED);
      assert AsksChunks(header) <==> NamedUpTo(header, n) && Holds(header[n + 1..], CHUNKED);
    }
    if SaysChunked(header) {
      var m :| NamedUpTo(header, m) && Holds(header[m + 1..], CHUNKED);
      NameEndsAtColon(header, m);
    }
  }

  /** Three digits are the status they write. */
  lemma StatusReads(hundreds: byte, tens: byte, ones: byte)
    requires 48 <= hundreds <= 57 && 48 <= tens <= 57 && 48 <= ones <= 57
    ensures StatusOf([hundreds, tens, ones])
            == Some(100 * (hundreds - 48) as int + 10 * (tens - 48) as int + (ones - 48) as int)
  {
    var word := [hundreds, tens, ones];
    assert Decimal([]) == Some(0);
    assert Decimal([hundreds]) == Some((hundreds - 48) as int);
    assert [hundreds, tens][..1] == [hundreds];
    assert Decimal([hundreds, tens]) == Some(10 * (hundreds - 48) as int + (tens - 48) as int);
    assert word[..2] == [hundreds, tens] && word[0] != PLUS;
  }

  // ------------------------------------------------------------ responses as they are sent

  predicate IsLine(line: Bytes) {
    line != [] && forall k :: 0 <= k < |line| ==> line[k] != CR && line[k] != LF
  }

  function Head(lines: seq<Bytes>): Bytes {
    if lines == [] then [] else lines[0] + CRLF + Head(lines[1..])
  }

  /** The lines, then a blank one, then the body. */
  function Sent(lines: seq<Bytes>, body: Bytes): Bytes {
    Head(lines) + CRLF + body
  }

  predicate AreLines(lines: seq<Bytes>) {
    forall k :: 0 <= k < |lines| ==> IsLine(lines[k])
  }

  lemma {:induction false} HeadEndOfLine(line: Bytes, rest: Bytes)
    requires forall k :: 0 <= k < |line| ==> line[k] != CR
    requires |rest| >= 4
    ensures HeadEnd(line + rest) == |line| + HeadEnd(rest)
  {
    if line == [] {
      assert line + rest == rest;
    } else {
      assert (line + rest)[1..] == line[1..] + rest;
      assert (line + rest)[..4][0] != CR;
      HeadEndOfLine(line[1..], rest);
    }
  }

  lemma HeadEndSkips(line: Bytes, rest: Bytes)
    requires forall k :: 0 <= k < |line| ==> line[k] != CR
    requires |rest| >= 3 && rest[0] != CR
    ensures HeadEnd(line + CRLF + rest) == |line| + 2 + HeadEnd(rest)
  {
    hide HeadEnd;
    assert line + CRLF + rest == line + (CRLF + rest);
    HeadEndOfLine(line, CRLF + rest);
    HeadEndOfEnd(rest);
  }

  lemma HeadEndOfEnd(rest: Bytes)
    requires |rest| >= 3 && rest[0] != CR
    ensures HeadEnd(CRLF + rest) == 2 + HeadEnd(rest)
  {
    var tail := CRLF + rest;
    assert tail[..4][2] != CR && (CRLF + CRLF)[2] == CR;
    var next := tail[1..];
    assert next == [LF] + rest && next[..4][0] != CR && next[1..] == rest;
  }

  lemma HeadEndStops(line: Bytes, body: Bytes)
    requires forall k :: 0 <= k < |line| ==> line[k] != CR
    ensures HeadEnd(line + CRLF + CRLF + body) == |line|
  {
    var tail := CRLF + CRLF + body;
    assert line + CRLF + CRLF + body == line + tail;
    HeadEndOfLine(line, tail);
    assert tail[..4] == CRLF + CRLF;
  }

  /** The head ends at the first blank line. */
  lemma {:induction false} HeadEndOfLines(lines: seq<Bytes>, body: Bytes)
    requires AreLines(lines) && lines != []
    ensures HeadEnd(Sent(lines, body)) == |Head(lines)| - 2
    decreases |lines|
  {
    hide HeadEnd;
    assert IsLine(lines[0]);
    if |lines| == 1 {
      assert Head(lines) == lines[0] + CRLF;
      HeadEndStops(lines[0], body);
    } else {
      var rest := Sent(lines[1..], body);
      assert Sent(lines, body) == lines[0] + CRLF + rest;
      SentStarts(lines[1..], body);
      HeadEndSkips(lines[0], rest);
      HeadEndOfLines(lines[1..], body);
    }
  }

  lemma SentStarts(lines: seq<Bytes>, body: Bytes)
    requires AreLines(lines) && lines != []
    ensures |Sent(lines, body)| >= 3 && Sent(lines, body)[0] != CR
  {
    assert IsLine(lines[0]);
    assert Sent(lines, body)[0] == lines[0][0];
  }

  lemma {:induction false} BeforeStops(a: Bytes, b: byte, rest: Bytes)
    requires forall k :: 0 <= k < |a| ==> a[k] != b
    ensures Before(a + [b] + rest, b) == |a|
    ensures Before(a, b) == |a|
  {
    if a == [] {
      assert a + [b] + rest == [b] + rest;
    } else {
      assert (a + [b] + rest)[1..] == a[1..] + [b] + rest;
      BeforeStops(a[1..], b, rest);
    }
  }

  lemma OnlyLine(line: Bytes)
    requires IsLine(line)
    ensures Lines(line) == [line]
  {
    BeforeStops(line, LF, []);
    assert line[..|line|] == line;
  }

  lemma FirstLine(line: Bytes, rest: Bytes)
    requires IsLine(line)
    ensures Lines(line + CRLF + rest) == [line] + Lines(rest)
  {
    var s := line + CRLF + rest;
    var before := line + [CR];
    assert s == before + [LF] + rest;
    BeforeStops(before, LF, rest);
    assert s[|before| - 1] == CR && s[..|before| - 1] == line && s[|before| + 1..] == rest;
  }

  lemma {:induction false} LinesOfHead(lines: seq<Bytes>, last: Bytes)
    requires AreLines(lines) && IsLine(last)
    ensures Lines(Head(lines) + last) == lines + [last]
    decreases |lines|
  {
    hide Lines;
    if lines == [] {
      OnlyLine(last);
      assert Head(lines) + last == last && lines + [last] == [last];
    } else {
      hide IsLine;
      var rest := Head(lines[1..]) + last;
      assert Head(lines) + last == lines[0] + CRLF + rest;
      FirstLine(lines[0], rest);
      LinesOfHead(lines[1..], last);
      assert lines + [last] == [lines[0]] + (lines[1..] + [last]);
    }
  }

  lemma {:induction false} HeadConcat(a: seq<Bytes>, b: seq<Bytes>)
    ensures Head(a + b) == Head(a) + Head(b)
  {
    if a == [] {
      assert a + b == b;
    } else {
      assert (a + b)[1..] == a[1..] + b;
      HeadConcat(a[1..], b);
    }
  }

  lemma HeadLines(lines: seq<Bytes>, body: Bytes)
    requires AreLines(lines) && lines != []
    ensures var n := HeadEnd(Sent(lines, body));
            && n < |Sent(lines, body)|
            && Lines(Sent(lines, body)[..n]) == lines && Sent(lines, body)[n + 4..] == body
  {
    var last, others := lines[|lines| - 1], lines[..|lines| - 1];
    assert lines == others + [last];
    HeadConcat(others, [last]);
    assert Head([last]) == last + CRLF + Head([]);
    assert Head(lines) == Head(others) + last + CRLF;
    HeadEndOfLines(lines, body);
    LinesOfHead(others, last);
    var n := HeadEnd(Sent(lines, body));
    assert Sent(lines, body)[..n] == Head(others) + last;
    assert Sent(lines, body)[n + 4..] == body;
  }

  /** A status line: a version, the three digits of the status, and a reason. */
  function StatusLine(version: Bytes, digits: Bytes, reason: Bytes): Bytes {
    version + [SPACE] + digits + [SPACE] + reason
  }

  predicate IsWord(s: Bytes) {
    s != [] && forall k :: 0 <= k < |s| ==> !IsSpace(s[k])
  }

  lemma {:induction false} TokenConcat(word: Bytes, rest: Bytes)
    requires forall k :: 0 <= k < |word| ==> !IsSpace(word[k])
    requires rest == [] || IsSpace(rest[0])
    ensures Token(word + rest) == |word|
  {
    if word == [] {
      assert word + rest == rest;
    } else {
      assert (word + rest)[1..] == word[1..] + rest;
      TokenConcat(word[1..], rest);
    }
  }

  lemma SecondWordReads(version: Bytes, digits: Bytes, reason: Bytes)
    requires IsWord(version) && IsWord(digits)
    ensures SecondWord(StatusLine(version, digits, reason)) == digits
  {
    var tail := [SPACE] + reason;
    var rest := digits + tail;
    var line := StatusLine(version, digits, reason);
    assert line == version + ([SPACE] + rest);
    assert TrimStart(line) == line;
    TokenConcat(version, [SPACE] + rest);
    assert line[|version|..] == [SPACE] + rest;
    assert ([SPACE] + rest)[1..] == rest;
    assert TrimStart([SPACE] + rest) == TrimStart(rest) == rest;
    TokenConcat(digits, tail);
    assert rest[..|digits|] == digits;
  }

  /** Status and body are recovered from a response as a server sends it, the body sent
      plain or, when a header says so, in chunks. */
  lemma ResponseReads(version: Bytes, digits: Bytes, reason: Bytes, headers: seq<Bytes>, body: Bytes)
    requires IsWord(version) && IsWord(digits) && StatusOf(digits).Some?
    requires AreLines([StatusLine(version, digits, reason)] + headers)
    ensures Parsed(Sent([StatusLine(version, digits, reason)] + headers, body))
            == if !AnyAsksChunks(headers) then Ok(Response(StatusOf(digits).value, body))
               else if Dechunked(body).Err? then Err(Dechunked(body).error)
               else Ok(Response(StatusOf(digits).value, Dechunked(body).value))
  {
    hide StatusLine;
    hide SecondWord;
    hide StatusOf;
    hide AnyAsksChunks;
    hide Sent;
    hide AreLines;
    hide Lines;
    hide HeadEnd;
    hide Dechunked;
    hide IsWord;
    var lines := [StatusLine(version, digits, reason)] + headers;
    HeadLines(lines, body);
    SecondWordReads(version, digits, reason);
    assert lines[1..] == headers;
  }

  /** The two together: any chunks, any announcing lines, any other headers. */
  lemma ChunkedResponseReads(
      version: Bytes, digits: Bytes, reason: Bytes, headers: seq<Bytes>, chunks: seq<Chunk>, last: Bytes,
      trailer: Bytes)
    requires IsWord(version) && IsWord(digits) && StatusOf(digits).Some?
    requires AreLines([StatusLine(version, digits, reason)] + headers) && AnyAsksChunks(headers)
    requires Sound(chunks) && Announces(last, 0)
    ensures Parsed(Sent([StatusLine(version, digits, reason)] + headers, Encoded(chunks, last) + trailer))
            == Ok(Response(StatusOf(digits).value, Content(chunks)))
  {
    hide *;
    EncodedReads(chunks, last, trailer);
    ResponseReads(version, digits, reason, headers, Encoded(chunks, last) + trailer);
  }
}
