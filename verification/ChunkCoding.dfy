/** The chunked transfer coding (section 7.1 of RFC 9112): what a sender may write, and the byte
    machine with which papp_io.c reads it. */
module ChunkCoding {
  import opened Bytes

  const LF: byte := 10
  const CR: byte := 13
  const SEMICOLON: byte := 59
  const CRLF: seq<byte> := [13, 10]

  // ---- Hexadecimal ----

  predicate IsHex(c: byte) { 48 <= c <= 57 || 65 <= c <= 70 || 97 <= c <= 102 }

  function HexDigit(c: byte): nat
    requires IsHex(c)
  {
    if c <= 57 then c - 48 else if c <= 70 then c - 65 + 10 else c - 97 + 10
  }

  predicate AllHex(s: seq<byte>) { forall i | 0 <= i < |s| :: IsHex(s[i]) }

  /** The number that some digits go on from `from`. */
  function HexValue(from: nat, digits: seq<byte>): nat
    requires AllHex(digits)
    decreases |digits|
  {
    if digits == [] then from else HexValue(from * 16 + HexDigit(digits[0]), digits[1..])
  }

  // ---- The grammar ----

  predicate NoLineEnd(s: seq<byte>) { LF !in s && CR !in s }

  /** Bad white space, then a semicolon, then anything within the line; or nothing. */
  predicate IsExtension(s: seq<byte>)
  {
    NoLineEnd(s)
    && (s != [] ==> s[0] == SEMICOLON || ((s[0] == 32 || s[0] == 9) && s[1..] != [] && IsExtension(s[1..])))
  }

  datatype Chunk = Chunk(digits: seq<byte>, extension: seq<byte>, data: seq<byte>)
  {
    /** chunk = chunk-size [ chunk-ext ] CRLF chunk-data CRLF */
    predicate Valid()
    {
      && digits != [] && AllHex(digits) && HexValue(0, digits) == |data|
      && IsExtension(extension)
    }

    function Line(): seq<byte> { digits + extension + CRLF }
  }

  /** Chunks with data, the last chunk without any, and trailer lines. */
  datatype Coding = Coding(chunks: seq<Chunk>, last: Chunk, trailers: seq<seq<byte>>)
  {
    predicate Valid()
    {
      && (forall c | c in chunks :: c.Valid() && c.data != [])
      && last.Valid() && last.data == []
      && forall t | t in trailers :: t != [] && NoLineEnd(t)
    }

    function Bytes(): seq<byte> { EncodeChunks(chunks) + last.Line() + EncodeLines(trailers) + CRLF }

    function Body(): seq<byte> { Data(chunks) }
  }

  function EncodeChunks(chunks: seq<Chunk>): seq<byte>
  {
    if chunks == [] then [] else chunks[0].Line() + chunks[0].data + CRLF + EncodeChunks(chunks[1..])
  }

  function Data(chunks: seq<Chunk>): seq<byte>
  {
    if chunks == [] then [] else chunks[0].data + Data(chunks[1..])
  }

  function EncodeLines(lines: seq<seq<byte>>): seq<byte>
  {
    if lines == [] then [] else lines[0] + CRLF + EncodeLines(lines[1..])
  }

  // ---- papp_io.c's machine ----

  datatype ChunkState = Size | Ext | DataBytes | DataEnd | Trailer | TrailerLine | Over

  datatype Decoder = Decoder(state: ChunkState, left: nat)

  const START := Decoder(Size, 0)

  /** One byte outside the chunk data. */
  function Frame(d: Decoder, c: byte): Decoder
  {
    match d.state
    case Size =>
      if IsHex(c) then Decoder(Size, d.left * 16 + HexDigit(c))
      else if c == SEMICOLON then Decoder(Ext, d.left)
      else if c == LF then Decoder(if d.left > 0 then DataBytes else Trailer, d.left)
      else d
    case Ext => if c == LF then Decoder(if d.left > 0 then DataBytes else Trailer, d.left) else d
    case DataEnd => if c == LF then Decoder(Size, 0) else d
    case Trailer => if c == LF then Decoder(Over, d.left) else if c != CR then Decoder(TrailerLine, d.left) else d
    case TrailerLine => if c == LF then Decoder(Trailer, d.left) else d
    case _ => d
  }

  /** `n` bytes of chunk data taken. */
  function TakeData(d: Decoder, n: nat): Decoder
    requires n <= d.left
  {
    Decoder(if n == d.left then DataEnd else DataBytes, d.left - n)
  }

  predicate InData(d: Decoder) { d.state == DataBytes && d.left > 0 }

  /** The body bytes the machine gets out of some input. */
  function Decode(d: Decoder, s: seq<byte>): seq<byte>
    decreases |s|
  {
    if s == [] || d.state == Over then []
    else if InData(d) then [s[0]] + Decode(TakeData(d, 1), s[1..])
    else Decode(Frame(d, s[0]), s[1..])
  }

  /** The machine's state after some input, and the input it leaves unread once the body is over. */
  function After(d: Decoder, s: seq<byte>): (Decoder, seq<byte>)
    decreases |s|
  {
    if s == [] || d.state == Over then (d, s)
    else if InData(d) then After(TakeData(d, 1), s[1..])
    else After(Frame(d, s[0]), s[1..])
  }

  /** Decoding can stop anywhere and go on with the next bytes. */
  lemma {:induction false} DecodeConcat(d: Decoder, s: seq<byte>, t: seq<byte>)
    requires After(d, s).0.state != Over
    ensures After(d, s).1 == [] && After(d, s + t) == After(After(d, s).0, t)
    ensures Decode(d, s + t) == Decode(d, s) + Decode(After(d, s).0, t)
    decreases |s|
  {
    if s == [] {
      assert s + t == t;
    } else {
      assert (s + t)[1..] == s[1..] + t;
      if InData(d) {
        DecodeConcat(TakeData(d, 1), s[1..], t);
      } else {
        DecodeConcat(Frame(d, s[0]), s[1..], t);
      }
    }
  }

  /** Chunk data is delivered as it is, however much of it is taken at a time. */
  lemma {:induction false} DecodeData(d: Decoder, s: seq<byte>, n: nat)
    requires InData(d) && 0 < n <= |s| && n <= d.left
    ensures Decode(d, s) == s[..n] + Decode(TakeData(d, n), s[n..])
    ensures After(d, s) == After(TakeData(d, n), s[n..])
    decreases n
  {
    if n > 1 {
      DecodeData(TakeData(d, 1), s[1..], n - 1);
      assert s[1..][n - 1..] == s[n..] && s[..n] == [s[0]] + s[1..][..n - 1];
    } else {
      assert s[..1] == [s[0]];
    }
  }

  // ---- The machine reads every coding ----

  lemma {:induction false} DecodeDigits(from: nat, digits: seq<byte>, rest: seq<byte>)
    requires AllHex(digits)
    ensures Decode(Decoder(Size, from), digits + rest) == Decode(Decoder(Size, HexValue(from, digits)), rest)
    ensures After(Decoder(Size, from), digits + rest) == After(Decoder(Size, HexValue(from, digits)), rest)
    decreases |digits|
  {
    if digits == [] {
      assert digits + rest == rest;
    } else {
      assert (digits + rest)[1..] == digits[1..] + rest;
      DecodeDigits(from * 16 + HexDigit(digits[0]), digits[1..], rest);
    }
  }

  /** The state behind the line of a chunk size. */
  function AfterLine(left: nat): Decoder { Decoder(if left > 0 then DataBytes else Trailer, left) }

  lemma {:induction false} DecodeExtension(d: Decoder, ext: seq<byte>, rest: seq<byte>)
    requires (d.state == Ext && NoLineEnd(ext)) || (d.state == Size && IsExtension(ext))
    ensures Decode(d, ext + CRLF + rest) == Decode(AfterLine(d.left), rest)
    ensures After(d, ext + CRLF + rest) == After(AfterLine(d.left), rest)
    decreases |ext|
  {
    var s := ext + CRLF + rest;
    if ext == [] {
      assert s[1..] == [LF] + rest && s[1..][1..] == rest;
      assert Frame(d, CR) == d && Frame(d, LF) == AfterLine(d.left);
      assert After(d, s) == After(d, s[1..]) && Decode(d, s) == Decode(d, s[1..]);
    } else {
      assert s[0] == ext[0] && s[1..] == ext[1..] + CRLF + rest;
      DecodeExtension(Frame(d, ext[0]), ext[1..], rest);
    }
  }

  lemma DecodeLine(c: Chunk, rest: seq<byte>)
    requires c.Valid()
    ensures Decode(START, c.Line() + rest) == Decode(AfterLine(|c.data|), rest)
    ensures After(START, c.Line() + rest) == After(AfterLine(|c.data|), rest)
  {
    hide Decode, After;
    assert c.Line() + rest == c.digits + (c.extension + CRLF + rest);
    DecodeDigits(0, c.digits, c.extension + CRLF + rest);
    DecodeExtension(Decoder(Size, |c.data|), c.extension, rest);
  }

  lemma DecodeDataEnd(rest: seq<byte>)
    ensures Decode(Decoder(DataEnd, 0), CRLF + rest) == Decode(START, rest)
    ensures After(Decoder(DataEnd, 0), CRLF + rest) == After(START, rest)
  {
    var s := CRLF + rest;
    assert s[1..][1..] == rest;
    assert After(Decoder(DataEnd, 0), s[1..]) == After(START, rest);
    assert Decode(Decoder(DataEnd, 0), s[1..]) == Decode(START, rest);
  }

  lemma DecodeChunk(c: Chunk, more: seq<byte>)
    requires c.Valid() && c.data != []
    ensures Decode(START, c.Line() + (c.data + (CRLF + more))) == c.data + Decode(START, more)
    ensures After(START, c.Line() + (c.data + (CRLF + more))) == After(START, more)
  {
    hide Decode, After;
    var s := c.data + (CRLF + more);
    DecodeLine(c, s);
    DecodeData(AfterLine(|c.data|), s, |c.data|);
    assert s[..|c.data|] == c.data && s[|c.data|..] == CRLF + more;
    DecodeDataEnd(more);
  }

  lemma {:induction false} DecodeChunks(chunks: seq<Chunk>, rest: seq<byte>)
    requires forall c | c in chunks :: c.Valid() && c.data != []
    ensures Decode(START, EncodeChunks(chunks) + rest) == Data(chunks) + Decode(START, rest)
    ensures After(START, EncodeChunks(chunks) + rest) == After(START, rest)
    decreases |chunks|
  {
    hide Decode, After;
    if chunks == [] {
      assert EncodeChunks(chunks) + rest == rest;
    } else {
      var c, more := chunks[0], EncodeChunks(chunks[1..]) + rest;
      assert EncodeChunks(chunks) + rest == c.Line() + (c.data + (CRLF + more));
      DecodeChunk(c, more);
      assert forall d | d in chunks[1..] :: d in chunks;
      DecodeChunks(chunks[1..], rest);
    }
  }

  lemma {:induction false} SkipTrailerLine(line: seq<byte>, rest: seq<byte>)
    requires NoLineEnd(line)
    ensures Decode(Decoder(TrailerLine, 0), line + CRLF + rest) == Decode(Decoder(Trailer, 0), rest)
    ensures After(Decoder(TrailerLine, 0), line + CRLF + rest) == After(Decoder(Trailer, 0), rest)
    decreases |line|
  {
    var s := line + CRLF + rest;
    if line == [] {
      assert s[1..][1..] == rest;
      assert After(Decoder(TrailerLine, 0), s[1..]) == After(Decoder(Trailer, 0), rest);
      assert Decode(Decoder(TrailerLine, 0), s[1..]) == Decode(Decoder(Trailer, 0), rest);
    } else {
      assert s[1..] == line[1..] + CRLF + rest;
      SkipTrailerLine(line[1..], rest);
    }
  }

  lemma {:induction false} DecodeTrailers(lines: seq<seq<byte>>, rest: seq<byte>)
    requires forall t | t in lines :: t != [] && NoLineEnd(t)
    ensures Decode(Decoder(Trailer, 0), EncodeLines(lines) + CRLF + rest) == []
    ensures After(Decoder(Trailer, 0), EncodeLines(lines) + CRLF + rest) == (Decoder(Over, 0), rest)
    decreases |lines|
  {
    var s := EncodeLines(lines) + CRLF + rest;
    if lines == [] {
      assert s == CRLF + rest && s[1..][1..] == rest;
      assert After(Decoder(Trailer, 0), s[1..]) == (Decoder(Over, 0), rest);
      assert Decode(Decoder(Trailer, 0), s[1..]) == [];
    } else {
      var t, more := lines[0], EncodeLines(lines[1..]) + CRLF + rest;
      assert t in lines && t[0] in t && (forall c | c in t[1..] :: c in t);
      assert s == t + CRLF + more;
      assert s[1..] == t[1..] + CRLF + more;
      assert Frame(Decoder(Trailer, 0), s[0]) == Decoder(TrailerLine, 0);
      SkipTrailerLine(t[1..], more);
      assert forall l | l in lines[1..] :: l in lines;
      DecodeTrailers(lines[1..], rest);
    }
  }

  /** Any coding of any body, with extensions and trailers, gives back exactly that body, and the
      machine stops right behind it. */
  lemma DecodeCoding(coding: Coding, rest: seq<byte>)
    requires coding.Valid()
    ensures Decode(START, coding.Bytes() + rest) == coding.Body()
    ensures After(START, coding.Bytes() + rest) == (Decoder(Over, 0), rest)
  {
    var tail := EncodeLines(coding.trailers) + CRLF + rest;
    assert coding.Bytes() + rest == EncodeChunks(coding.chunks) + (coding.last.Line() + tail);
    hide Decode, After;
    DecodeChunks(coding.chunks, coding.last.Line() + tail);
    DecodeLine(coding.last, tail);
    DecodeTrailers(coding.trailers, rest);
  }
}
