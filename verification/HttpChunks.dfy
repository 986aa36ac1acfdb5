/** papp_http.c's chunked decoder reads every coding whose size lines it understands, and so agrees
    with papp_io.c's. */
module HttpChunks {
  import opened Bytes
  import opened Wrappers
  import opened ChunkCoding
  import opened HttpText
  import opened HttpFeed

  function Min(a: nat, b: nat): nat { if a < b then a else b }

  /** A line buffer after some bytes without a line feed. */
  function AddAll(line: seq<byte>, s: seq<byte>): seq<byte>
    decreases |s|
  {
    if s == [] then line else AddAll(AddToLine(line, s[0]), s[1..])
  }

  /** It keeps the first MAX_LINE of them. */
  lemma {:induction false} AddPlain(line: seq<byte>, s: seq<byte>)
    requires CR !in s && |line| <= MAX_LINE
    ensures AddAll(line, s) == (line + s)[..Min(|line + s|, MAX_LINE)]
    ensures AddAll(line, s + [CR]) == AddAll(line, s)
    decreases |s|
  {
    if s == [] {
      assert line + s == line && ([CR])[1..] == [] && s + [CR] == [CR];
      assert AddAll(AddToLine(line, CR), []) == line;
    } else {
      assert s[0] in s && forall c | c in s[1..] :: c in s;
      assert (s + [CR])[1..] == s[1..] + [CR];
      AddPlain(AddToLine(line, s[0]), s[1..]);
      if |line| < MAX_LINE {
        assert line + [s[0]] + s[1..] == line + s;
      } else {
        assert (line + s[1..])[..MAX_LINE] == line == (line + s)[..MAX_LINE];
      }
    }
  }

  /** In the framing of a chunked body. */
  predicate Framing(r: Response) { r.final == None && r.stage == Body && r.body == Chunks && r.chunk != ReadData }

  lemma {:induction false} EatLineBytes(q: Request, r: Response, s: seq<byte>)
    requires r.final == None && (r.stage != Body || Framing(r)) && LF !in s
    ensures EatAll(q, r, s) == r.(line := AddAll(r.line, s))
    decreases |s|
  {
    if s != [] {
      assert s[0] in s && forall c | c in s[1..] :: c in s;
      EatLineBytes(q, r.(line := AddToLine(r.line, s[0])), s[1..]);
    }
  }

  /** A line and its end. */
  lemma EatLine(q: Request, r: Response, s: seq<byte>, rest: seq<byte>)
    requires r.final == None && (r.stage != Body || Framing(r)) && NoLineEnd(s) && r.line == []
    ensures var kept := s[..Min(|s|, MAX_LINE)];
      EatAll(q, r, s + CRLF + rest)
        == EatAll(q, if r.stage == Body then ChunkLine(r, kept) else TakeLine(q, r, kept), rest)
  {
    var kept := s[..Min(|s|, MAX_LINE)];
    assert s + CRLF + rest == (s + [CR]) + ([LF] + rest);
    EatConcat(q, r, s + [CR], [LF] + rest);
    assert LF !in s + [CR];
    EatLineBytes(q, r, s + [CR]);
    AddPlain([], s);
    assert [] + s == s;
    var t := r.(line := kept);
    assert ([LF] + rest)[1..] == rest;
    assert EatAll(q, t, [LF] + rest) == EatAll(q, Eat(q, t, LF), rest);
    assert t.(line := []) == r;
    hide TakeLine, ChunkLine;
  }

  // ---- The size line ----

  /** The chunk's size is below 2^32, and all its digits are kept unless it is 0. */
  predicate SizeUnderstood(c: Chunk)
    requires c.Valid()
  {
    |c.data| < TWO_TO_32 && (|c.digits| <= MAX_LINE || c.data == [])
  }

  /** What the code makes of the digits it keeps. */
  function SizeRead(c: Chunk): nat
    requires c.Valid()
  {
    var v := HexValue(0, c.digits[..Min(|c.digits|, MAX_LINE)]);
    if v >= TWO_TO_32 then TWO_TO_32 - 1 else v
  }

  lemma {:induction false} PrefixOfHex(digits: seq<byte>, tail: seq<byte>)
    requires AllHex(digits) && (tail != [] ==> !IsHex(tail[0]))
    ensures HexPrefix(CString(digits + tail)) == digits
    decreases |digits|
  {
    if digits == [] {
      assert digits + tail == tail;
    } else {
      assert (digits + tail)[1..] == digits[1..] + tail;
      PrefixOfHex(digits[1..], tail);
    }
  }

  lemma {:induction false} HexGrows(from: nat, digits: seq<byte>, n: nat)
    requires AllHex(digits) && n <= |digits|
    ensures HexValue(from, digits[..n]) <= HexValue(from, digits) && from <= HexValue(from, digits)
    decreases |digits|
  {
    if digits != [] {
      var next := from * 16 + HexDigit(digits[0]);
      if n > 0 {
        assert digits[..n][1..] == digits[1..][..n - 1];
        HexGrows(next, digits[1..], n - 1);
      } else {
        assert digits[..0] == [];
        HexGrows(next, digits[1..], 0);
      }
    }
  }

  lemma {:induction false} HexSplit(from: nat, digits: seq<byte>, n: nat)
    requires AllHex(digits) && n <= |digits|
    ensures HexValue(from, digits) == HexValue(HexValue(from, digits[..n]), digits[n..])
    decreases |digits|
  {
    if n > 0 {
      assert digits[..n][1..] == digits[1..][..n - 1] && digits[n..] == digits[1..][n - 1..];
      HexSplit(from * 16 + HexDigit(digits[0]), digits[1..], n - 1);
    } else {
      assert digits[0..] == digits;
    }
  }

  /** strtoul sees the digits of a size line, and nothing else. */
  lemma ParseDigits(digits: seq<byte>, tail: seq<byte>)
    requires digits != [] && AllHex(digits) && (tail != [] ==> !IsHex(tail[0]) && tail[0] != 120 && tail[0] != 88)
    ensures var v := HexValue(0, digits); ParseHex(digits + tail) == Some(if v >= TWO_TO_32 then TWO_TO_32 - 1 else v)
  {
    PrefixOfHex(digits, tail);
    NoPrefix(digits, tail);
    hide HexPrefix, CString, HexValue, SkipSpace, AllHex, IsHex;
  }

  /** No blank, no sign and no "0x" comes before them. */
  lemma NoPrefix(digits: seq<byte>, tail: seq<byte>)
    requires digits != [] && AllHex(digits) && (tail != [] ==> !IsHex(tail[0]) && tail[0] != 120 && tail[0] != 88)
    ensures var s := CString(digits + tail);
      s != [] && SkipSpace(s) == s && s[0] != 43 && s[0] != 45 && (|s| > 1 ==> s[1] != 120 && s[1] != 88)
  {
    var x := digits + tail;
    assert x[0] == digits[0] && IsHex(x[0]);
    assert CString(x) == [x[0]] + CString(x[1..]);
    if |x| > 1 {
      assert x[1] == if |digits| > 1 then digits[1] else tail[0];
      assert x[1..][0] == x[1];
    }
    hide HexPrefix, HexValue;
  }

  /** A size that loses digits, or is cut off at 2^32 - 1, is read too small, unless it is 0. */
  lemma SizeNeverGrows(c: Chunk)
    requires c.Valid()
    ensures if SizeUnderstood(c) then SizeRead(c) == |c.data| else SizeRead(c) < |c.data|
  {
    var n := Min(|c.digits|, MAX_LINE);
    var v := HexValue(0, c.digits[..n]);
    HexGrows(0, c.digits, n);
    if n < |c.digits| {
      HexSplit(0, c.digits, n);
      var cut := c.digits[n..];
      HexGrows(v * 16 + HexDigit(cut[0]), cut[1..], 0);
    } else {
      assert c.digits[..n] == c.digits;
    }
  }

  /** A chunk's size is read right exactly when it is understood, and else too small. */
  lemma SizeLine(c: Chunk)
    requires c.Valid()
    ensures var line := c.digits + c.extension;
      ParseHex(line[..Min(|line|, MAX_LINE)]) == Some(SizeRead(c))
    ensures SizeRead(c) == |c.data| <==> SizeUnderstood(c)
    ensures SizeRead(c) <= |c.data|
  {
    SizeNeverGrows(c);
    var line := c.digits + c.extension;
    var n := Min(|c.digits|, MAX_LINE);
    var digits, tail := c.digits[..n], line[..Min(|line|, MAX_LINE)][n..];
    assert line[..Min(|line|, MAX_LINE)] == digits + tail;
    assert tail != [] ==> tail[0] == c.extension[0];
    ParseDigits(digits, tail);
  }

  // ---- The whole coding ----

  predicate Understood(coding: Coding)
    requires coding.Valid()
  {
    forall c | c in coding.chunks :: SizeUnderstood(c)
  }

  /** At the start of a chunk. */
  predicate AtChunk(r: Response) { Framing(r) && r.chunk == ReadSize && r.line == [] && r.remaining == 0 }

  /** Behind the size line of a chunk. */
  function SizeTaken(r: Response, c: Chunk): Response
    requires c.Valid()
  {
    if SizeRead(c) == 0 then r.(chunk := ReadTrailer) else r.(remaining := SizeRead(c), chunk := ReadData)
  }

  lemma EatSize(q: Request, r: Response, c: Chunk, rest: seq<byte>)
    requires AtChunk(r) && c.Valid()
    ensures EatAll(q, r, c.Line() + rest) == EatAll(q, SizeTaken(r, c), rest)
  {
    var line := c.digits + c.extension;
    SizeLine(c);
    hide EatAll, Eat, ParseHex, SizeRead, SizeUnderstood;
    assert ChunkLine(r, line[..Min(|line|, MAX_LINE)]) == SizeTaken(r, c);
    assert c.Line() + rest == line + CRLF + rest;
    EatLine(q, r, line, rest);
  }

  lemma EatChunk(q: Request, r: Response, c: Chunk, rest: seq<byte>)
    requires AtChunk(r) && c.Valid() && c.data != [] && SizeUnderstood(c)
    ensures AtChunk(r.(data := r.data + c.data))
    ensures EatAll(q, r, c.Line() + c.data + CRLF + rest) == EatAll(q, r.(data := r.data + c.data), rest)
  {
    var more := c.data + (CRLF + rest);
    assert c.Line() + c.data + CRLF + rest == c.Line() + more;
    SizeNeverGrows(c);
    hide EatAll, Eat, SizeRead, SizeUnderstood;
    EatSize(q, r, c, more);
    var r1 := SizeTaken(r, c);
    EatConcat(q, r1, c.data, CRLF + rest);
    EatPiece(q, r1, c.data);
    var r2 := Deliver(r1, c.data);
    assert r2 == r.(data := r.data + c.data, chunk := ReadDataEnd);
    EatLine(q, r2, [], rest);
    assert [] + CRLF + rest == CRLF + rest;
  }

  lemma {:induction false} EatChunks(q: Request, r: Response, chunks: seq<Chunk>, rest: seq<byte>)
    requires AtChunk(r) && forall c | c in chunks :: c.Valid() && c.data != [] && SizeUnderstood(c)
    ensures AtChunk(r.(data := r.data + Data(chunks)))
    ensures EatAll(q, r, EncodeChunks(chunks) + rest) == EatAll(q, r.(data := r.data + Data(chunks)), rest)
    decreases |chunks|
  {
    hide EatAll, SizeUnderstood;
    if chunks == [] {
      assert EncodeChunks(chunks) + rest == rest && r.data + Data(chunks) == r.data;
    } else {
      var c, more := chunks[0], EncodeChunks(chunks[1..]) + rest;
      assert EncodeChunks(chunks) + rest == c.Line() + c.data + CRLF + more;
      EatChunk(q, r, c, more);
      assert forall d | d in chunks[1..] :: d in chunks;
      EatChunks(q, r.(data := r.data + c.data), chunks[1..], rest);
      assert r.data + c.data + Data(chunks[1..]) == r.data + Data(chunks);
    }
  }

  lemma {:induction false} EatTrailers(q: Request, r: Response, lines: seq<seq<byte>>, rest: seq<byte>)
    requires Framing(r) && r.chunk == ReadTrailer && r.line == []
    requires forall t | t in lines :: t != [] && NoLineEnd(t)
    ensures EatAll(q, r, EncodeLines(lines) + rest) == EatAll(q, r, rest)
    decreases |lines|
  {
    hide EatAll;
    if lines == [] {
      assert EncodeLines(lines) + rest == rest;
    } else {
      var t, more := lines[0], EncodeLines(lines[1..]) + rest;
      assert EncodeLines(lines) + rest == t + CRLF + more && t in lines;
      EatLine(q, r, t, more);
      assert t[..Min(|t|, MAX_LINE)] != [];
      assert forall l | l in lines[1..] :: l in lines;
      EatTrailers(q, r, lines[1..], rest);
    }
  }

  /** A coding without its final empty line. */
  function Head(coding: Coding): seq<byte>
  {
    EncodeChunks(coding.chunks) + coding.last.Line() + EncodeLines(coding.trailers)
  }

  lemma EatHead(q: Request, r: Response, coding: Coding, rest: seq<byte>)
    requires AtChunk(r) && coding.Valid() && Understood(coding)
    ensures EatAll(q, r, Head(coding) + rest)
      == EatAll(q, r.(data := r.data + coding.Body(), chunk := ReadTrailer), rest)
  {
    var tail := EncodeLines(coding.trailers) + rest;
    var r1 := r.(data := r.data + coding.Body());
    SizeNeverGrows(coding.last);
    assert Head(coding) + rest == EncodeChunks(coding.chunks) + (coding.last.Line() + tail);
    hide EatAll, Eat, SizeRead, SizeUnderstood;
    EatChunks(q, r, coding.chunks, coding.last.Line() + tail);
    EatSize(q, r1, coding.last, tail);
    EatTrailers(q, r1.(chunk := ReadTrailer), coding.trailers, rest);
  }

  /** Any coding of any body whose sizes are understood, with extensions and trailers, is delivered as that
      body, and the response ends exactly with its last byte: what follows is not looked at, and before that
      byte the response is not over. */
  lemma EatCoding(q: Request, r: Response, coding: Coding, rest: seq<byte>)
    requires AtChunk(r) && coding.Valid() && Understood(coding)
    ensures var t := EatAll(q, r, coding.Bytes() + rest);
      t.data == r.data + coding.Body() && t.headers == r.headers && t.final == Some(Finished)
    ensures coding.Bytes() != [] && EatAll(q, r, coding.Bytes()[..|coding.Bytes()| - 1]).final == None
  {
    var r1 := r.(data := r.data + coding.Body(), chunk := ReadTrailer);
    assert coding.Bytes() == Head(coding) + CRLF;
    assert coding.Bytes() + rest == Head(coding) + ([] + CRLF + rest);
    assert coding.Bytes()[..|coding.Bytes()| - 1] == Head(coding) + [CR];
    EatHead(q, r, coding, [] + CRLF + rest);
    EatHead(q, r, coding, [CR]);
    EatLineBytes(q, r1, [CR]);
    hide EatAll, Eat, Head, Understood;
    EatLine(q, r1, [], rest);
    EatNoMore(q, r1.(final := Some(Finished)), rest);
  }

  // ---- Which codings are delivered as they come ----

  lemma {:induction false} DataGrows(q: Request, r: Response, s: seq<byte>)
    ensures r.data <= EatAll(q, r, s).data && |EatAll(q, r, s).data| <= |r.data| + |s|
    decreases |s|
  {
    hide Eat;
    if s != [] {
      EatGrows(q, r, s[0]);
      DataGrows(q, Eat(q, r, s[0]), s[1..]);
    }
  }

  lemma {:induction false} DecodeGrows(d: Decoder, s: seq<byte>, t: seq<byte>)
    ensures Decode(d, s) <= Decode(d, s + t)
    decreases |s|
  {
    if s != [] && d.state != Over {
      assert (s + t)[1..] == s[1..] + t;
      DecodeGrows(if InData(d) then TakeData(d, 1) else Frame(d, s[0]), s[1..], t);
    }
  }

  /** Both have delivered the same of these bytes. */
  predicate Same(q: Request, r: Response, d: Decoder, s: seq<byte>) { EatAll(q, r, s).data == r.data + Decode(d, s) }

  /** Bytes with which neither delivers anything: nor does it anywhere within them. */
  lemma SameBetween(q: Request, r: Response, d: Decoder, s: seq<byte>, t: seq<byte>, n: nat)
    requires Same(q, r, d, s) && Same(q, r, d, s + t) && Decode(d, s + t) == Decode(d, s) && n <= |t|
    ensures Same(q, r, d, s + t[..n])
  {
    assert s + t == (s + t[..n]) + t[n..];
    EatConcat(q, r, s, t[..n]);
    EatConcat(q, r, s + t[..n], t[n..]);
    DataGrows(q, EatAll(q, r, s), t[..n]);
    DataGrows(q, EatAll(q, r, s + t[..n]), t[n..]);
    DecodeGrows(d, s, t[..n]);
    DecodeGrows(d, s + t[..n], t[n..]);
  }

  /** The size line and some of the data of a chunk that is understood. */
  lemma SameInData(q: Request, r: Response, c: Chunk, n: nat)
    requires AtChunk(r) && c.Valid() && c.data != [] && SizeUnderstood(c) && n <= |c.data|
    ensures Same(q, r, START, c.Line() + c.data[..n]) && Decode(START, c.Line() + c.data[..n]) == c.data[..n]
  {
    var part, r1 := c.data[..n], SizeTaken(r, c);
    SizeNeverGrows(c);
    DecodeLine(c, part);
    assert n == 0 ==> EatAll(q, r1, part) == r1 && r.data + part == r.data && Decode(AfterLine(|c.data|), part) == part;
    hide EatAll, Eat, SizeRead;
    EatSize(q, r, c, part);
    if n > 0 {
      EatPiece(q, r1, part);
      DecodeData(AfterLine(|c.data|), part, n);
      assert part[n..] == [] && part[..n] == part && Decode(TakeData(AfterLine(|c.data|), n), []) == [];
    }
  }

  /** Within the size line nothing is delivered. */
  lemma SameInLine(q: Request, r: Response, c: Chunk, n: nat)
    requires AtChunk(r) && c.Valid() && c.data != [] && SizeUnderstood(c) && n <= |c.Line()|
    ensures Same(q, r, START, [] + c.Line()[..n])
  {
    assert Same(q, r, START, []) && Decode(START, []) == [];
    assert c.data[..0] == [] && c.Line() + [] == c.Line() == [] + c.Line();
    hide EatAll, Decode, SizeUnderstood;
    SameInData(q, r, c, 0);
    SameBetween(q, r, START, [], c.Line(), n);
  }

  /** Behind the data of a chunk that is understood, within the line end. */
  lemma SameAtEnd(q: Request, r: Response, c: Chunk, m: nat)
    requires AtChunk(r) && c.Valid() && c.data != [] && SizeUnderstood(c) && m <= |CRLF|
    ensures Same(q, r, START, (c.Line() + c.data) + CRLF[..m])
  {
    var all := c.Line() + c.data + CRLF;
    var r1 := r.(data := r.data + c.data);
    assert Decode(START, []) == [] && EatAll(q, r1, []) == r1;
    hide EatAll, Decode, SizeUnderstood;
    assert all + [] == all == c.Line() + (c.data + (CRLF + [])) && c.data[..|c.data|] == c.data;
    SameInData(q, r, c, |c.data|);
    EatChunk(q, r, c, []);
    DecodeChunk(c, []);
    SameBetween(q, r, START, c.Line() + c.data, CRLF, m);
  }

  /** Anywhere within a chunk that is understood. */
  lemma SameInChunk(q: Request, r: Response, c: Chunk, n: nat)
    requires AtChunk(r) && c.Valid() && c.data != [] && SizeUnderstood(c) && n <= |c.Line() + c.data + CRLF|
    ensures Same(q, r, START, (c.Line() + c.data + CRLF)[..n])
  {
    var all, l := c.Line() + c.data + CRLF, |c.Line()|;
    hide SizeUnderstood, Same;
    if n <= l {
      assert all[..n] == c.Line()[..n] == [] + c.Line()[..n];
      SameInLine(q, r, c, n);
    } else if n <= l + |c.data| {
      assert all[..n] == c.Line() + c.data[..n - l];
      SameInData(q, r, c, n - l);
    } else {
      assert all[..n] == (c.Line() + c.data) + CRLF[..n - l - |c.data|];
      SameAtEnd(q, r, c, n - l - |c.data|);
    }
  }

  /** Anywhere within the last chunk and the trailers. */
  lemma SameInTail(q: Request, r: Response, coding: Coding, n: nat)
    requires AtChunk(r) && coding.Valid() && coding.chunks == [] && n <= |coding.Bytes()|
    ensures Same(q, r, START, coding.Bytes()[..n])
  {
    var all := coding.Bytes();
    assert all + [] == all == [] + all && all[..n] == [] + all[..n];
    assert Same(q, r, START, []);
    EatCoding(q, r, coding, []);
    DecodeCoding(coding, []);
    assert r.data + [] == r.data;
    SameBetween(q, r, START, [], all, n);
  }

  /** A coding cut behind its first chunk. */
  function Behind(coding: Coding): Coding
    requires coding.chunks != []
  {
    coding.(chunks := coding.chunks[1..])
  }

  lemma BehindBytes(coding: Coding)
    requires coding.Valid() && coding.chunks != []
    ensures var c := coding.chunks[0]; coding.Bytes() == (c.Line() + c.data + CRLF) + Behind(coding).Bytes()
  {
    hide Chunk.Line, EncodeLines, Coding.Valid;
    var c := coding.chunks[0];
    var tail := coding.last.Line() + EncodeLines(coding.trailers) + CRLF;
    assert coding.Bytes() == EncodeChunks(coding.chunks) + tail;
    assert Behind(coding).Bytes() == EncodeChunks(coding.chunks[1..]) + tail;
  }

  /** Behind a chunk that is understood the two are where they were before it. */
  lemma SameBehind(q: Request, r: Response, c: Chunk, part: seq<byte>)
    requires AtChunk(r) && c.Valid() && c.data != [] && SizeUnderstood(c)
    ensures AtChunk(r.(data := r.data + c.data))
    ensures Same(q, r, START, (c.Line() + c.data + CRLF) + part) <==> Same(q, r.(data := r.data + c.data), START, part)
  {
    hide EatAll, Decode, SizeUnderstood;
    assert c.Line() + (c.data + (CRLF + part)) == (c.Line() + c.data + CRLF) + part == c.Line() + c.data + CRLF + part;
    EatChunk(q, r, c, part);
    DecodeChunk(c, part);
    assert r.data + c.data + Decode(START, part) == r.data + (c.data + Decode(START, part));
  }

  /** Every coding that is understood is delivered as it comes. */
  lemma {:induction false} SameAnywhere(q: Request, r: Response, coding: Coding, n: nat)
    requires AtChunk(r) && coding.Valid() && Understood(coding) && n <= |coding.Bytes()|
    ensures Same(q, r, START, coding.Bytes()[..n])
    decreases |coding.chunks|
  {
    if coding.chunks == [] {
      SameInTail(q, r, coding, n);
    } else {
      BehindBytes(coding);
      var c := coding.chunks[0];
      var first, more := c.Line() + c.data + CRLF, Behind(coding).Bytes();
      hide Same, Understood, SizeUnderstood;
      if n <= |first| {
        assert coding.Bytes()[..n] == first[..n];
        SameInChunk(q, r, c, n);
      } else {
        assert coding.Bytes()[..n] == first + more[..n - |first|];
        SameBehind(q, r, c, more[..n - |first|]);
        SameAnywhere(q, r.(data := r.data + c.data), Behind(coding), n - |first|);
      }
    }
  }

  /** A byte of the framing is no data. */
  lemma FramingSilent(q: Request, r: Response, c: byte)
    requires Framing(r)
    ensures Eat(q, r, c).data == r.data
  {
    hide ParseHex;
  }

  /** As much data as the size read. */
  lemma DataTaken(q: Request, r: Response, data: seq<byte>)
    requires r.final == None && r.stage == Body && r.body == Chunks
    requires if data == [] then r.chunk == ReadTrailer else r.chunk == ReadData && r.remaining == |data|
    ensures var s := EatAll(q, r, data); Framing(s) && |s.data| == |r.data| + |data|
  {
    if data != [] {
      hide EatAll;
      EatPiece(q, r, data);
    }
  }

  /** Of more data than the size read, what is beyond does not all get through. */
  lemma DataLost(q: Request, r: Response, k: nat, data: seq<byte>)
    requires r.final == None && r.stage == Body && r.body == Chunks && k < |data|
    requires if k == 0 then r.chunk == ReadTrailer else r.chunk == ReadData && r.remaining == k
    ensures |EatAll(q, r, data).data| < |r.data| + |data|
  {
    hide EatAll, Eat;
    DataTaken(q, r, data[..k]);
    EatNextByte(q, r, data, k);
    FramingSilent(q, EatAll(q, r, data[..k]), data[k]);
    EatSplit(q, r, data, k + 1);
    DataGrows(q, EatAll(q, r, data[..k + 1]), data[k + 1..]);
  }

  /** A chunk whose size is not understood: when its data has all come, some of it has not been delivered. */
  lemma DataMissing(q: Request, r: Response, c: Chunk)
    requires AtChunk(r) && c.Valid() && !SizeUnderstood(c)
    ensures |EatAll(q, r, c.Line() + c.data).data| < |r.data| + |c.data|
    ensures Decode(START, c.Line() + c.data) == c.data
  {
    DecodeLine(c, c.data);
    DecodeData(AfterLine(|c.data|), c.data, |c.data|);
    assert c.data[|c.data|..] == [] && c.data[..|c.data|] == c.data;
    SizeNeverGrows(c);
    hide EatAll, SizeRead;
    EatSize(q, r, c, c.data);
    DataLost(q, SizeTaken(r, c), SizeRead(c), c.data);
  }

  /** At every byte of the coding what has been delivered is what papp_io.c's machine has delivered. */
  ghost predicate InStep(q: Request, r: Response, coding: Coding)
  {
    forall n: nat | n <= |coding.Bytes()| :: Same(q, r, START, coding.Bytes()[..n])
  }

  /** In a coding that is not understood the two part. */
  lemma {:induction false} Parts(q: Request, r: Response, coding: Coding) returns (n: nat)
    requires AtChunk(r) && coding.Valid() && !Understood(coding)
    ensures n <= |coding.Bytes()| && !Same(q, r, START, coding.Bytes()[..n])
    decreases |coding.chunks|
  {
    BehindBytes(coding);
    var c := coding.chunks[0];
    var first, more := c.Line() + c.data + CRLF, Behind(coding).Bytes();
    hide Understood, SizeUnderstood;
    if SizeUnderstood(c) {
      n := Parts(q, r.(data := r.data + c.data), Behind(coding));
      SameBehind(q, r, c, more[..n]);
      n := n + |first|;
      assert coding.Bytes()[..n] == first + more[..n - |first|];
    } else {
      n := |c.Line() + c.data|;
      assert coding.Bytes()[..n] == c.Line() + c.data;
      DataMissing(q, r, c);
    }
  }

  /** A coding is delivered as it comes exactly when its sizes are understood. */
  lemma InStepExact(q: Request, r: Response, coding: Coding)
    requires AtChunk(r) && coding.Valid()
    ensures InStep(q, r, coding) <==> Understood(coding)
  {
    hide Same, Understood;
    if Understood(coding) {
      forall n: nat | n <= |coding.Bytes()| ensures Same(q, r, START, coding.Bytes()[..n]) {
        SameAnywhere(q, r, coding, n);
      }
    } else {
      var n := Parts(q, r, coding);
    }
  }

  // ---- Codings that are not ----

  function Zeros(n: nat): seq<byte> { seq(n, i => 48) }

  /** So many zeros in front of a digit or two: AllHex, and of the value of what follows. */
  lemma {:induction false} ZerosValue(n: nat, digits: seq<byte>)
    requires AllHex(digits)
    ensures AllHex(Zeros(n) + digits) && HexValue(0, Zeros(n) + digits) == HexValue(0, digits)
    decreases n
  {
    if n == 0 {
      assert Zeros(0) + digits == digits;
    } else {
      assert (Zeros(n) + digits)[1..] == Zeros(n - 1) + digits && (Zeros(n) + digits)[0] == 48;
      ZerosValue(n - 1, digits);
    }
  }

  const LAST := Chunk([48], [], [])

  /** A chunk of one byte whose size has a line of zeros in front. */
  const PADDED := Coding([Chunk(Zeros(MAX_LINE) + [49], [], [7])], LAST, [])

  /** Its size is read as 0, its data and the last chunk as trailers: the response ends well, at the right
      byte, and without its body. */
  lemma PaddedSize(q: Request, r: Response)
    requires AtChunk(r)
    ensures PADDED.Valid() && PADDED.Body() == [7]
    ensures EatAll(q, r, PADDED.Bytes()) == r.(chunk := ReadTrailer, final := Some(Finished))
  {
    var c := PADDED.chunks[0];
    PaddedValid();
    assert c.digits[..MAX_LINE] == Zeros(MAX_LINE) == Zeros(MAX_LINE) + [];
    ZerosValue(MAX_LINE, []);
    var lines: seq<seq<byte>> := [[7], [48]];
    var r1 := r.(chunk := ReadTrailer);
    assert SizeTaken(r, c) == r1;
    PaddedBytes();
    hide EatAll, Eat, ParseHex, Zeros, EncodeLines;
    EatSize(q, r, c, EncodeLines(lines) + CRLF);
    EatTrailers(q, r1, lines, CRLF);
    EatLine(q, r1, [], []);
    assert [] + CRLF + [] == CRLF;
    EatNoMore(q, r1.(final := Some(Finished)), []);
  }

  lemma PaddedValid()
    ensures PADDED.Valid() && PADDED.Body() == [7]
  {
    ZerosValue(MAX_LINE, [49]);
    assert Data(PADDED.chunks) == [7] + Data([]);
  }

  lemma PaddedBytes()
    ensures PADDED.Bytes() == PADDED.chunks[0].Line() + (EncodeLines([[7], [48]]) + CRLF)
  {
    var chunks := PADDED.chunks;
    assert chunks[1..] == [] && EncodeChunks([]) == [];
    assert EncodeChunks(chunks) == chunks[0].Line() + [7] + CRLF + EncodeChunks(chunks[1..]);
    assert EncodeLines([[7], [48]]) == [7] + CRLF + EncodeLines([[48]]);
    assert EncodeLines([[48]]) == [48] + CRLF + EncodeLines([]);
    assert LAST.Line() == [48] + CRLF;
  }

  /** A line and a size line, within the data of a chunk. */
  const ECHO: seq<byte> := [48, 13, 10, 49, 51, 13, 10]

  const SHARED: seq<byte> := ECHO + ECHO[..5]

  /** Twenty bytes of data, of whose size 14 the code keeps the 1. */
  const LUCKY := Coding([Chunk(Zeros(MAX_LINE - 1) + [49, 52], [], [9] + ECHO + SHARED)], LAST, [[49, 51], [48]])

  /** What the code makes of that behind the first byte and its line: a chunk of nineteen. */
  const RESUMED := Coding([Chunk([49, 51], [], SHARED + [13, 10, 48, 13, 10, 49, 51])], LAST, [])

  lemma LuckyValid()
    ensures LUCKY.Valid() && LUCKY.Body() == [9] + ECHO + SHARED && SizeRead(LUCKY.chunks[0]) == 1
  {
    ZerosValue(MAX_LINE - 1, [49, 52]);
    ZerosValue(MAX_LINE - 1, [49]);
    hide Zeros, AllHex;
    assert [49, 52][1..] == [52];
    assert LUCKY.chunks[0].digits[..MAX_LINE] == Zeros(MAX_LINE - 1) + [49];
    assert Data(LUCKY.chunks) == LUCKY.chunks[0].data + Data([]);
  }

  lemma ResumedValid()
    ensures RESUMED.Valid() && Understood(RESUMED) && [9] + RESUMED.Body() == [9] + ECHO + SHARED
  {
    assert [49, 51][1..] == [51];
    assert Data(RESUMED.chunks) == RESUMED.chunks[0].data + Data([]);
    var more: seq<byte> := [13, 10, 48, 13, 10, 49, 51];
    assert SHARED + more == ECHO + (ECHO[..5] + more);
    assert ECHO[..5] + more == ECHO + ECHO[..5];
    assert [9] + ECHO + SHARED == [9] + (ECHO + SHARED);
  }

  lemma Echoed(shared: seq<byte>)
    ensures ([9] + ECHO + shared) + (CRLF + [48, 13, 10, 49, 51, 13, 10, 48, 13, 10, 13, 10])
      == [9, 48, 13, 10]
        + ([49, 51, 13, 10] + ((shared + [13, 10, 48, 13, 10, 49, 51]) + (CRLF + [48, 13, 10, 13, 10])))
  {
    var back := [13, 10, 48, 13, 10, 49, 51, 13, 10, 48, 13, 10, 13, 10];
    assert CRLF + [48, 13, 10, 49, 51, 13, 10, 48, 13, 10, 13, 10] == back;
    assert [13, 10, 48, 13, 10, 49, 51] + (CRLF + [48, 13, 10, 13, 10]) == back;
    assert (shared + [13, 10, 48, 13, 10, 49, 51]) + (CRLF + [48, 13, 10, 13, 10]) == shared + back;
    assert [9] + ECHO == [9, 48, 13, 10] + [49, 51, 13, 10];
  }

  lemma LuckyTails()
    ensures LAST.Line() + EncodeLines([[49, 51], [48]]) + CRLF == [48, 13, 10, 49, 51, 13, 10, 48, 13, 10, 13, 10]
    ensures LAST.Line() + EncodeLines([]) + CRLF == [48, 13, 10, 13, 10]
  {
    var trailers: seq<seq<byte>> := [[49, 51], [48]];
    assert trailers[1..] == [[48]] && trailers[1..][1..] == [];
    assert EncodeLines(trailers) == [49, 51] + CRLF + EncodeLines([[48]]) && EncodeLines([[48]]) == [48] + CRLF + [];
    assert LAST.Line() == [48] + CRLF;
  }

  lemma OneChunk(c: Chunk, last: Chunk, trailers: seq<seq<byte>>)
    ensures Coding([c], last, trailers).Bytes()
      == c.Line() + (c.data + (CRLF + (last.Line() + EncodeLines(trailers) + CRLF)))
  {
    assert [c][1..] == [] && EncodeChunks([]) == [];
    assert EncodeChunks([c]) == c.Line() + c.data + CRLF + [];
  }

  lemma LuckyBytes()
    ensures LUCKY.Bytes() == LUCKY.chunks[0].Line() + ([9, 48, 13, 10] + RESUMED.Bytes())
  {
    hide Zeros, Chunk.Line, EncodeLines;
    OneChunk(LUCKY.chunks[0], LAST, LUCKY.trailers);
    OneChunk(RESUMED.chunks[0], LAST, []);
    LuckyTails();
    ResumedLine();
    Echoed(SHARED);
  }

  lemma ResumedLine()
    ensures RESUMED.chunks[0].Line() == [49, 51, 13, 10]
  {}

  lemma LuckyStart(q: Request, r: Response, s: seq<byte>)
    requires AtChunk(r) && LUCKY.Valid() && SizeRead(LUCKY.chunks[0]) == 1
    ensures AtChunk(r.(data := r.data + [9]))
    ensures EatAll(q, r, LUCKY.chunks[0].Line() + ([9, 48, 13, 10] + s)) == EatAll(q, r.(data := r.data + [9]), s)
  {
    var r1 := r.(remaining := 1, chunk := ReadData);
    var r2 := r.(data := r.data + [9], chunk := ReadDataEnd);
    hide EatAll, Eat, ParseHex, SizeRead;
    EatSize(q, r, LUCKY.chunks[0], [9, 48, 13, 10] + s);
    assert [9, 48, 13, 10] + s == [9] + ([48] + CRLF + s);
    EatConcat(q, r1, [9], [48] + CRLF + s);
    EatPiece(q, r1, [9]);
    EatLine(q, r2, [48], s);
  }

  /** With a size that is read wrong the whole may still come out right, if the data happens to look like the
      framing: delivered complete, and ended at its last byte. Only within it do the decoders part. */
  lemma LuckyCoding(q: Request, r: Response)
    requires AtChunk(r)
    ensures LUCKY.Valid() && !Understood(LUCKY) && !InStep(q, r, LUCKY)
    ensures EatAll(q, r, LUCKY.Bytes()).data == r.data + LUCKY.Body()
    ensures EatAll(q, r, LUCKY.Bytes()).final == Some(Finished)
    ensures EatAll(q, r, LUCKY.Bytes()[..|LUCKY.Bytes()| - 1]).final == None
  {
    hide EatAll, Decode, Zeros, InStep, Coding.Bytes, Coding.Body, Chunk.Line;
    LuckyValid();
    ResumedValid();
    LuckyUnread();
    InStepExact(q, r, LUCKY);
    LuckyBytes();
    var s, t := RESUMED.Bytes(), r.(data := r.data + [9]);
    LuckyStart(q, r, s);
    EatCoding(q, t, RESUMED, []);
    assert s + [] == s;
    LuckyStart(q, r, s[..|s| - 1]);
    var front := LUCKY.chunks[0].Line();
    assert (front + ([9, 48, 13, 10] + s))[..|front| + 3 + |s|] == front + ([9, 48, 13, 10] + s[..|s| - 1]);
    assert r.data + [9] + RESUMED.Body() == r.data + ([9] + RESUMED.Body());
  }

  lemma LuckyUnread()
    requires LUCKY.Valid()
    ensures !Understood(LUCKY)
  {
    assert LUCKY.chunks[0] in LUCKY.chunks && |LUCKY.chunks[0].digits| == MAX_LINE + 1;
  }
  // ---- A whole response ----

  function Cut(line: seq<byte>): seq<byte> { line[..Min(|line|, MAX_LINE)] }

  /** The header lines taken one after another. */
  function Heard(q: Request, r: Response, lines: seq<seq<byte>>): Response
    decreases |lines|
  {
    if lines == [] then r else Heard(q, TakeLine(q, r, Cut(lines[0])), lines[1..])
  }

  predicate HeaderLines(lines: seq<seq<byte>>)
  {
    forall l | l in lines :: l != [] && NoLineEnd(l) && l[0] != SPACE && l[0] != TAB
  }

  /** What the header lines leave: each passed on, cut at MAX_LINE and without its trailing blanks. */
  function PassedOn(lines: seq<seq<byte>>): seq<seq<byte>>
  {
    if lines == [] then [] else [TrimEnd(Cut(lines[0]))] + PassedOn(lines[1..])
  }

  lemma {:induction false} EatHeaders(q: Request, r: Response, lines: seq<seq<byte>>, rest: seq<byte>)
    requires r.stage == Headers && r.final == None && r.line == [] && HeaderLines(lines)
    ensures var t := Heard(q, r, lines);
      && t.stage == Headers && t.final == None && t.line == []
      && t.headers == r.headers + PassedOn(lines) && t.data == r.data && t.code == r.code
      && t.body == r.body && t.remaining == r.remaining
      && EatAll(q, r, EncodeLines(lines) + rest) == EatAll(q, t, rest)
    decreases |lines|
  {
    hide EatAll, Interpret, TrimEnd;
    if lines == [] {
      assert EncodeLines(lines) + rest == rest && r.headers + PassedOn(lines) == r.headers;
    } else {
      var l, more := lines[0], EncodeLines(lines[1..]) + rest;
      assert EncodeLines(lines) + rest == l + CRLF + more && l in lines;
      EatLine(q, r, l, more);
      var text := TrimEnd(Cut(l));
      var t := r.(headers := r.headers + [text]);
      InterpretFacts(t, text);
      assert TakeLine(q, r, Cut(l)) == Interpret(t, text);
      assert forall k | k in lines[1..] :: k in lines;
      EatHeaders(q, Interpret(t, text), lines[1..], rest);
      assert r.headers + [text] + PassedOn(lines[1..]) == r.headers + PassedOn(lines);
    }
  }

  lemma StatusStarts(line: seq<byte>)
    ensures var r := StatusLine(EMPTY, line);
      && r.line == [] && r.headers == [] && r.data == [] && r.remaining == 0 && r.body == NoBody
      && (r.stage == Headers ==> r.final == None && 100 <= r.code <= 999)
  {
    hide CString, Find, ParseDecimal, Starts, Ascii;
  }

  function ResponseBytes(status: seq<byte>, lines: seq<seq<byte>>, body: seq<byte>): seq<byte>
  {
    status + CRLF + (EncodeLines(lines) + (CRLF + body))
  }

  /** Where the status line leaves off, and where the blank line after the headers does. */
  function Begun(status: seq<byte>): Response { StatusLine(EMPTY, Cut(status)) }

  function Opened(q: Request, status: seq<byte>, lines: seq<seq<byte>>): Response
  {
    HeadersDone(q, Heard(q, Begun(status), lines))
  }

  /** A response line by line, up to its body. */
  predicate WellOpened(status: seq<byte>, lines: seq<seq<byte>>)
  {
    NoLineEnd(status) && HeaderLines(lines) && Begun(status).stage == Headers && Begun(status).code >= 200
  }

  lemma EatOpening(q: Request, status: seq<byte>, lines: seq<seq<byte>>, body: seq<byte>)
    requires WellOpened(status, lines)
    ensures EatAll(q, EMPTY, ResponseBytes(status, lines, body)) == EatAll(q, Opened(q, status, lines), body)
  {
    StatusStarts(Cut(status));
    EatLine(q, EMPTY, status, EncodeLines(lines) + (CRLF + body));
    hide EatAll, StatusLine, HeadersDone, Heard, Interpret;
    EatHeaders(q, Begun(status), lines, CRLF + body);
    EatBlank(q, Heard(q, Begun(status), lines), body);
  }

  lemma EatBlank(q: Request, r: Response, rest: seq<byte>)
    requires r.stage == Headers && r.final == None && r.line == [] && r.code >= 200
    ensures EatAll(q, r, CRLF + rest) == EatAll(q, HeadersDone(q, r), rest)
  {
    assert [] + CRLF + rest == CRLF + rest;
    hide EatAll, HeadersDone, Interpret, StatusLine;
    EatLine(q, r, [], rest);
  }

  lemma OpenedState(q: Request, status: seq<byte>, lines: seq<seq<byte>>)
    requires WellOpened(status, lines)
    ensures var u := Opened(q, status, lines);
      u.headers == PassedOn(lines) && u.data == [] && (u.body == Chunks ==> AtChunk(u))
  {
    hide EatAll, StatusLine, Heard, Interpret, TakeLine, HeaderLines, NoLineEnd, PassedOn;
    StatusStarts(Cut(status));
    EatHeaders(q, Begun(status), lines, []);
    assert [] + PassedOn(lines) == PassedOn(lines);
  }

  lemma BodyLast(status: seq<byte>, lines: seq<seq<byte>>, body: seq<byte>, rest: seq<byte>)
    requires body != []
    ensures var s := ResponseBytes(status, lines, body);
      && s + rest == ResponseBytes(status, lines, body + rest)
      && s != [] && s[..|s| - 1] == ResponseBytes(status, lines, body[..|body| - 1])
  {
    hide EncodeLines;
    var front := status + CRLF + (EncodeLines(lines) + CRLF);
    assert forall b: seq<byte> :: ResponseBytes(status, lines, b) == front + b;
    assert front + body + rest == front + (body + rest);
    assert (front + body)[..|front + body| - 1] == front + body[..|body| - 1];
  }

  lemma EatBody(q: Request, status: seq<byte>, lines: seq<seq<byte>>, body: seq<byte>, rest: seq<byte>)
    requires WellOpened(status, lines) && body != []
    ensures var s, u := ResponseBytes(status, lines, body), Opened(q, status, lines);
      && EatAll(q, EMPTY, s + rest) == EatAll(q, u, body + rest)
      && s != [] && EatAll(q, EMPTY, s[..|s| - 1]) == EatAll(q, u, body[..|body| - 1])
  {
    hide EatAll, Opened, ResponseBytes, WellOpened;
    BodyLast(status, lines, body, rest);
    EatOpening(q, status, lines, body + rest);
    EatOpening(q, status, lines, body[..|body| - 1]);
  }

  /** A chunked response, cut into any segments: its header lines, its body, and a good end at its last byte. */
  lemma ChunkedResponse(q: Request, status: seq<byte>, lines: seq<seq<byte>>, coding: Coding, rest: seq<byte>)
    requires WellOpened(status, lines) && Opened(q, status, lines).body == Chunks
    requires coding.Valid() && Understood(coding)
    ensures var s := ResponseBytes(status, lines, coding.Bytes());
      var t := EatAll(q, EMPTY, s + rest);
      && t.headers == PassedOn(lines) && t.data == coding.Body() && t.final == Some(Finished)
      && s != [] && EatAll(q, EMPTY, s[..|s| - 1]).final == None
  {
    hide EatAll, Opened, Understood, ResponseBytes, WellOpened, PassedOn;
    OpenedState(q, status, lines);
    EatCoding(q, Opened(q, status, lines), coding, rest);
    EatBody(q, status, lines, coding.Bytes(), rest);
    assert [] + coding.Body() == coding.Body();
  }

  /** The two decoders deliver the same byte by byte, whatever comes behind, and both stop at the coding's last
      byte, if every size is understood; if not, they do not. */
  lemma DecodersAgree(q: Request, r: Response, coding: Coding, rest: seq<byte>)
    requires AtChunk(r) && r.data == [] && coding.Valid()
    ensures Understood(coding) ==> EatAll(q, r, coding.Bytes() + rest).data == Decode(START, coding.Bytes() + rest)
    ensures Understood(coding) ==> EatAll(q, r, coding.Bytes() + rest).final == Some(Finished)
    ensures After(START, coding.Bytes() + rest) == (Decoder(Over, 0), rest)
    ensures (forall n: nat | n <= |coding.Bytes()| ::
      EatAll(q, r, coding.Bytes()[..n]).data == Decode(START, coding.Bytes()[..n])) <==> Understood(coding)
  {
    hide EatAll, Decode, Understood;
    if Understood(coding) {
      EatCoding(q, r, coding, rest);
    }
    DecodeCoding(coding, rest);
    assert [] + coding.Body() == coding.Body();
    InStepExact(q, r, coding);
    assert forall s: seq<byte> :: [] + s == s;
  }
}
