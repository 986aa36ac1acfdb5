/** How ports/netsurf/papp_http.c reads a response: `feed` takes whatever bytes a receive brings,
    byte by byte through the status and header lines and then in pieces through the body. The
    reference eats one byte at a time, so it cannot depend on how the bytes were cut. */
module HttpFeed {
  import opened Bytes
  import opened Wrappers
  import opened ChunkCoding
  import opened HttpText

  const MAX_LINE := 8192

  datatype Stage = Status | Headers | Body
  datatype BodyMode = NoBody | Length | Chunks | ToClose
  datatype Chunking = ReadSize | ReadData | ReadDataEnd | ReadTrailer

  /** The last message of a fetch. */
  datatype Final =
    | Finished
    | NotModified
    | Redirect(location: seq<byte>)
    | Auth(realm: Option<seq<byte>>)
    | Failed(why: string)

  /** What was asked, and whether the video player takes media. */
  datatype Request = Request(post: bool, only2xx: bool, proxy: bool, handsOff: bool)

  /** The response as far as it has been read, and what has been passed on of it. */
  datatype Response = Response(
    stage: Stage, line: seq<byte>, code: int, connClose: bool, contentLength: int, chunked: bool,
    location: Option<seq<byte>>, realm: Option<seq<byte>>, media: bool,
    body: BodyMode, remaining: nat, chunk: Chunking,
    headers: seq<seq<byte>>, data: seq<byte>, final: Option<Final>)

  const EMPTY := Response(Status, [], 0, false, -1, false, None, None, false, NoBody, 0, ReadSize, [], [], None)

  // ---- Lines ----

  /** The status line. */
  function StatusLine(r: Response, line: seq<byte>): Response
  {
    var s := CString(line);
    var sp := Find(s, SPACE);
    var code := if sp.Some? then ParseDecimal(sp.value[1..], LONG_MAX) else 0;
    if !Starts(s, Ascii("HTTP/")) then r.(final := Some(Failed("did not answer with HTTP")))
    else if code < 100 || code > 999 then r.(code := code, final := Some(Failed("sent a bad status line")))
    else r.(code := code, connClose := Starts(s, Ascii("HTTP/1.0")), stage := Headers)
  }

  /** The quoted realm of a WWW-Authenticate header. */
  function Realm(v: seq<byte>): Option<seq<byte>>
  {
    var at := FindNoCase(v, Ascii("realm=\""));
    if at == None then None
    else
      var rest := at.value[7..];
      var end := Find(rest, QUOTE);
      if end == None then None else Some(rest[..|rest| - |end.value|])
  }

  /** What a header line means for the rest of the response. */
  function Interpret(r: Response, line: seq<byte>): Response
  {
    var location := HeaderValue(line, Ascii("location"));
    var length := HeaderValue(line, Ascii("content-length"));
    var coding := HeaderValue(line, Ascii("transfer-encoding"));
    var connection := HeaderValue(line, Ascii("connection"));
    var kind := HeaderValue(line, Ascii("content-type"));
    var auth := HeaderValue(line, Ascii("www-authenticate"));
    if location.Some? then r.(location := location)
    else if length.Some? then
      var n := ParseDecimal(length.value, LLONG_MAX);
      r.(contentLength := if n < 0 then -1 else n)
    else if coding.Some? then r.(chunked := FindNoCase(coding.value, Ascii("chunked")).Some?)
    else if connection.Some? then
      if FindNoCase(connection.value, Ascii("close")).Some? then r.(connClose := true)
      else if FindNoCase(connection.value, Ascii("keep-alive")).Some? then r.(connClose := false)
      else r
    else if kind.Some? then
      r.(media := StartsNoCase(kind.value, Ascii("video/")) || StartsNoCase(kind.value, Ascii("audio/")))
    else if auth.Some? && Realm(auth.value).Some? then r.(realm := Realm(auth.value))
    else r
  }

  /** The blank line after the headers. */
  function HeadersDone(q: Request, r: Response): Response
  {
    var code := r.code;
    if code == 304 && !q.post then r.(body := NoBody, final := Some(NotModified))
    else if 300 <= code < 400 && r.location.Some? then r.(final := Some(Redirect(r.location.value)))
    else if code == 401 then r.(final := Some(Auth(r.realm)))
    else if 200 <= code < 300 && r.media && !q.post && q.handsOff then
      r.(final := Some(Failed("playing it in the video player")))
    else if q.only2xx && (code < 200 || code > 299) then r.(final := Some(Failed("not a success")))
    else if code == 204 || code == 304 then r.(body := NoBody, stage := Body, final := Some(Finished))
    else if r.chunked then r.(body := Chunks, chunk := ReadSize, stage := Body)
    else if r.contentLength >= 0 then
      r.(body := Length, remaining := r.contentLength, stage := Body,
         final := if r.contentLength == 0 then Some(Finished) else None)
    else r.(body := ToClose, stage := Body)
  }

  /** header_line */
  function TakeLine(q: Request, r: Response, line: seq<byte>): Response
  {
    if r.stage == Status then StatusLine(r, line)
    else if line == [] then
      if 100 <= r.code < 200 then r.(stage := Status) else HeadersDone(q, r)
    else if line[0] == SPACE || line[0] == TAB then r
    else
      var text := TrimEnd(line);
      Interpret(r.(headers := r.headers + [text]), text)
  }

  // ---- The body, a byte at a time ----

  /** strtoul in base 16, up to 2^32 - 1; None without a digit. */
  function ParseHex(line: seq<byte>): Option<nat>
  {
    var s := SkipSpace(CString(line));
    var t := if s != [] && (s[0] == 43 || s[0] == 45) then s[1..] else s;
    var u := if |t| > 2 && t[0] == 48 && (t[1] == 120 || t[1] == 88) && IsHex(t[2]) then t[2..] else t;
    var digits := HexPrefix(u);
    if digits == [] then None
    else
      var v := HexValue(0, digits);
      if v >= TWO_TO_32 then Some(TWO_TO_32 - 1)
      else Some(if s[0] == 45 && v > 0 then TWO_TO_32 - v else v)
  }

  function HexPrefix(s: seq<byte>): (p: seq<byte>)
    ensures AllHex(p)
  {
    if s == [] || !IsHex(s[0]) then [] else [s[0]] + HexPrefix(s[1..])
  }

  function AddToLine(line: seq<byte>, c: byte): seq<byte>
  {
    if c != CR && |line| < MAX_LINE then line + [c] else line
  }

  /** The end of a line of the chunk framing. */
  function ChunkLine(r: Response, line: seq<byte>): Response
  {
    match r.chunk
    case ReadSize =>
      var size := ParseHex(line);
      if size == None then r.(final := Some(Failed("sent a bad chunk")))
      else if size.value == 0 then r.(chunk := ReadTrailer)
      else r.(remaining := size.value, chunk := ReadData)
    case ReadDataEnd => r.(chunk := ReadSize)
    case ReadTrailer => if line == [] then r.(final := Some(Finished)) else r
    case ReadData => r
  }

  /** `n` bytes of the body delivered. */
  function Deliver(r: Response, bytes: seq<byte>): Response
    requires r.body == Length || r.body == Chunks ==> |bytes| <= r.remaining
  {
    var t := r.(data := r.data + bytes);
    match r.body
    case Length =>
      t.(remaining := r.remaining - |bytes|, final := if r.remaining == |bytes| then Some(Finished) else r.final)
    case Chunks =>
      t.(remaining := r.remaining - |bytes|, chunk := if r.remaining == |bytes| then ReadDataEnd else r.chunk)
    case _ => t
  }

  /** One byte of a response. */
  function Eat(q: Request, r: Response, c: byte): Response
  {
    if r.final.Some? then r
    else if r.stage != Body then
      if c == LF then TakeLine(q, r.(line := []), r.line) else r.(line := AddToLine(r.line, c))
    else
      match r.body
      case ToClose => Deliver(r, [c])
      case Length => if r.remaining > 0 then Deliver(r, [c]) else r
      case Chunks =>
        if r.chunk == ReadData then (if r.remaining > 0 then Deliver(r, [c]) else r)
        else if c == LF then ChunkLine(r.(line := []), r.line)
        else r.(line := AddToLine(r.line, c))
      case NoBody => r
  }

  function EatAll(q: Request, r: Response, s: seq<byte>): Response
    decreases |s|
  {
    if s == [] then r else EatAll(q, Eat(q, r, s[0]), s[1..])
  }

  /** Cutting the bytes anywhere makes no difference. */
  lemma {:induction false} EatConcat(q: Request, r: Response, s: seq<byte>, t: seq<byte>)
    ensures EatAll(q, r, s + t) == EatAll(q, EatAll(q, r, s), t)
    decreases |s|
  {
    if s == [] {
      assert s + t == t;
    } else {
      assert (s + t)[1..] == s[1..] + t;
      EatConcat(q, Eat(q, r, s[0]), s[1..], t);
    }
  }

  lemma {:induction false} EatNoMore(q: Request, r: Response, s: seq<byte>)
    requires r.final.Some?
    ensures EatAll(q, r, s) == r
    decreases |s|
  {
    if s != [] { EatNoMore(q, r, s[1..]); }
  }

  /** While a body is being read there is something left of it. */
  predicate Reading(r: Response)
  {
    && (r.stage == Body && r.final == None ==>
         && r.body != NoBody && (r.body == Length ==> r.remaining > 0)
         && (r.body == Chunks && r.chunk == ReadData ==> r.remaining > 0))
    && |r.line| <= MAX_LINE && r.contentLength >= -1
  }

  /** Body bytes in one piece are as good as one at a time. */
  lemma {:induction false} EatPiece(q: Request, r: Response, s: seq<byte>)
    requires r.final == None && r.stage == Body
    requires r.body == ToClose || (r.body == Length && 0 < |s| <= r.remaining)
      || (r.body == Chunks && r.chunk == ReadData && 0 < |s| <= r.remaining)
    ensures EatAll(q, r, s) == Deliver(r, s)
    decreases |s|
  {
    if s == [] {
      assert r.data + s == r.data;
    } else {
      var t := Deliver(r, [s[0]]);
      assert Eat(q, r, s[0]) == t;
      assert [s[0]] + s[1..] == s && r.data + [s[0]] + s[1..] == r.data + s;
      if |s| > 1 {
        EatPiece(q, t, s[1..]);
      } else {
        assert EatAll(q, t, s[1..]) == t;
      }
    }
  }

  lemma HeaderKeepsReading(q: Request, r: Response, line: seq<byte>)
    requires Reading(r) && r.final == None && r.stage != Body
    ensures Reading(TakeLine(q, r.(line := []), line))
    ensures TakeLine(q, r.(line := []), line).line == []
  {
    hide Interpret, StatusLine;
    if r.stage == Status {
      StatusFacts(r.(line := []), line);
    } else if line != [] {
      var text := TrimEnd(line);
      InterpretFacts(r.(line := [], headers := r.headers + [text]), text);
    }
  }

  /** At most one header line, or one byte of the body, more has been passed on. */
  predicate Grows(r: Response, t: Response, c: byte)
  {
    || (t.headers == r.headers && (t.data == r.data || t.data == r.data + [c]))
    || (|t.headers| == |r.headers| + 1 && t.headers[..|r.headers|] == r.headers && t.data == r.data)
  }

  lemma EatGrows(q: Request, r: Response, c: byte)
    ensures Grows(r, Eat(q, r, c), c)
  {
    if r.final == None && r.stage != Body && c == LF {
      TakeLineGrows(q, r.(line := []), r.line, c);
    }
    hide TakeLine, ParseHex;
  }

  lemma TakeLineGrows(q: Request, r: Response, line: seq<byte>, c: byte)
    ensures Grows(r, TakeLine(q, r, line), c)
  {
    if r.stage == Status {
      hide CString, Find, ParseDecimal, Starts, Ascii;
    } else if line == [] {
      hide CString, Find, ParseDecimal, Starts, Ascii, Interpret, StatusLine;
    } else {
      var text := TrimEnd(line);
      InterpretFacts(r.(headers := r.headers + [text]), text);
      hide Interpret, TrimEnd, HeadersDone, StatusLine;
    }
  }

  /** Any byte leaves something to be read, or the end. */
  lemma EatKeepsReading(q: Request, r: Response, c: byte)
    requires Reading(r) && r.final == None
    ensures Reading(Eat(q, r, c))
  {
    if r.stage != Body {
      if c == LF { HeaderKeepsReading(q, r, r.line); }
      hide TakeLine;
    } else if r.body == Chunks && r.chunk != ReadData {
      EatFraming(q, r, c);
    }
    hide TakeLine, ChunkLine;
  }

  lemma StatusFacts(r: Response, line: seq<byte>)
    ensures var t := StatusLine(r, line);
      t.line == r.line && t.contentLength == r.contentLength && (t.stage == r.stage || t.stage == Headers)
  {
    hide CString, Find, ParseDecimal, Starts, Ascii;
  }

  lemma InterpretFacts(r: Response, line: seq<byte>)
    ensures var t := Interpret(r, line);
      && t.line == r.line && t.stage == r.stage && t.final == r.final
      && (r.contentLength >= -1 ==> t.contentLength >= -1)
      && t.headers == r.headers && t.data == r.data && t.code == r.code && t.body == r.body
      && t.remaining == r.remaining
  {
    hide HeaderValue, FindNoCase, StartsNoCase, Realm, ParseDecimal, Ascii;
  }

  /** The part of an http_ctx that reads a response; `sock` tells whether it holds its connection, and `kept`
      whether it put that into the pool. */
  class Fetch {
    const request: Request
    var r: Response
    var trailing: bool
    var sock: bool
    var kept: bool
    var gotBytes: bool

    constructor (request: Request)
      ensures this.request == request && r == EMPTY && !trailing && sock && !kept && !gotBytes
    {
      this.request, r, trailing, sock, kept, gotBytes := request, EMPTY, false, true, false, false;
    }

    ghost predicate Reads() reads this`r, this`sock, this`kept { Reading(r) && r.final == None && sock && !kept }

    /** body_done and headers_done's pooling, then close_conn. */
    method EndFetch()
      requires r.final.Some? && sock && !kept
      modifies this`sock, this`kept
      ensures !sock
      ensures kept <==>
        r.final.value in {Finished, NotModified} && !r.connClose && !trailing && r.body != ToClose && !request.proxy
    {
      if r.final.value in {Finished, NotModified} && !r.connClose && !trailing && r.body != ToClose && !request.proxy {
        kept := true;
      }
      sock := false;
    }

    /** One line break in the status line and headers; `left` bytes follow it in the same receive. */
    method HeaderLine(left: nat)
      requires Reads() && r.stage != Body
      modifies this`r, this`trailing, this`sock, this`kept
      ensures r == Eat(request, old(r), LF)
      ensures r.final == None ==> Reads()
      ensures r.final.Some? && kept ==> left == 0
    {
      hide TakeLine;
      var line := r.line;
      if line == [] && left > 0 {
        trailing := true;
      }
      HeaderKeepsReading(request, r, line);
      ghost var was := r;
      r := TakeLine(request, r.(line := []), line);
      if r.final.Some? {
        PoolsOnlyAtBlank(request, was, line);
        EndFetch();
      }
    }

    /** body_bytes: transfer decoding; false once the fetch is over. */
    method BodyBytes(p: seq<byte>) returns (more: bool)
      requires Reads() && r.stage == Body && p != []
      modifies this`r, this`trailing, this`sock, this`kept
      ensures r == EatAll(request, old(r), p) && more == (r.final == None)
      ensures more ==> Reads()
      ensures kept ==> NothingLeft(request, old(r), p)
    {
      match r.body {
        case ToClose =>
          EatPiece(request, r, p);
          r := Deliver(r, p);
          return true;
        case Length =>
          var take := if |p| < r.remaining then |p| else r.remaining;
          ghost var start := r;
          EatPiece(request, r, p[..take]);
          EatSplit(request, start, p, take);
          r := Deliver(r, p[..take]);
          if r.final.Some? {
            EatNoMore(request, r, p[take..]);
            trailing := |p| > take;
            EndFetch();
            EndsAtPiece(request, start, p, take);
            return false;
          }
          assert p[take..] == [];
          return true;
        case Chunks =>
          more := ChunkBytes(p);
          return more;
        case NoBody =>
          assert false;
      }
    }

    /** The chunked part of body_bytes. */
    method ChunkBytes(p: seq<byte>) returns (more: bool)
      requires Reads() && r.stage == Body && r.body == Chunks && p != []
      modifies this`r, this`trailing, this`sock, this`kept
      ensures r == EatAll(request, old(r), p) && more == (r.final == None)
      ensures more ==> Reads()
      ensures kept ==> NothingLeft(request, old(r), p)
    {
      hide Eat, ChunkLine, Deliver, Reading;
      var i := 0;
      assert p[..0] == [];
      while i < |p|
        invariant 0 <= i <= |p| && Reads() && r.stage == Body && r.body == Chunks
        invariant r == EatAll(request, old(r), p[..i])
      {
        ChunkFacts(r);
        if r.chunk == ReadData {
          var n := |p| - i;
          var take := if n < r.remaining then n else r.remaining;
          EatPiece(request, r, p[i..i + take]);
          EatNext(request, old(r), p, i, take);
          DeliverFacts(r, p[i..i + take]);
          r := Deliver(r, p[i..i + take]);
          i := i + take;
          continue;
        }
        var c := p[i];
        EatNextByte(request, old(r), p, i);
        EatFraming(request, r, c);
        i := i + 1;
        if c != LF {
          r := r.(line := AddToLine(r.line, c));
          continue;
        }
        var line := r.line;
        r := r.(line := []);
        r := ChunkLine(r, line);
        if r.final.Some? {
          trailing := |p| - i > 0;
          EatSplit(request, old(r), p, i);
          EatNoMore(request, r, p[i..]);
          EndFetch();
          if kept { assert p[..i - 1] == p[..|p| - 1]; }
          return false;
        }
      }
      assert p[..i] == p;
      return true;
    }

    /** feed: everything the server sent. */
    method Feed(p: seq<byte>) returns (more: bool)
      requires Reads() && p != []
      modifies this
      ensures r == EatAll(request, old(r), p) && more == (r.final == None)
      ensures more ==> Reads()
      ensures kept ==> NothingLeft(request, old(r), p)
      ensures gotBytes
    {
      gotBytes := true;
      var i := 0;
      assert p[..0] == [];
      while i < |p| && r.stage != Body
        invariant 0 <= i <= |p| && Reads() && gotBytes
        invariant r == EatAll(request, old(r), p[..i])
      {
        var c := p[i];
        EatNextByte(request, old(r), p, i);
        i := i + 1;
        if c == LF {
          HeaderLine(|p| - i);
          if r.final.Some? {
            EatSplit(request, old(r), p, i);
            EatNoMore(request, r, p[i..]);
            if kept { assert p[..i - 1] == p[..|p| - 1]; }
            return false;
          }
        } else {
          r := r.(line := AddToLine(r.line, c));
        }
      }
      EatSplit(request, old(r), p, i);
      if i < |p| {
        ghost var was := r;
        more := BodyBytes(p[i..]);
        if kept { LeftInRest(request, old(r), p, i); }
      } else {
        assert p[i..] == [];
        more := true;
      }
    }

    /** The receive loop of `step`, over receives of any number and any sizes. A connection goes back to the
        pool only if the response ended with the last byte of a receive. */
    method ReceiveAll(segments: seq<seq<byte>>)
      requires Reads() && forall s | s in segments :: s != []
      modifies this
      ensures r == EatAll(request, old(r), Flatten(segments))
      ensures r.final == None ==> Reads()
      ensures kept ==> exists n :: EndsWith(request, old(r), segments, n)
    {
      var i := 0;
      assert segments[..0] == [];
      while i < |segments|
        invariant 0 <= i <= |segments| && Reads()
        invariant r == EatAll(request, old(r), Flatten(segments[..i]))
      {
        ghost var was := r;
        assert segments[i] in segments;
        FlattenNext(segments, i);
        EatConcat(request, old(r), Flatten(segments[..i]), segments[i]);
        var more := Feed(segments[i]);
        i := i + 1;
        if !more {
          FlattenConcat(segments[..i], segments[i..]);
          assert segments == segments[..i] + segments[i..];
          EatConcat(request, old(r), Flatten(segments[..i]), Flatten(segments[i..]));
          EatNoMore(request, r, Flatten(segments[i..]));
          if kept {
            LeftBehind(request, old(r), Flatten(segments[..i - 1]), segments[i - 1]);
            assert EndsWith(request, old(r), segments, i);
          }
          return;
        }
      }
      assert segments[..i] == segments;
    }
  }

  function Flatten(segments: seq<seq<byte>>): seq<byte>
  {
    if segments == [] then [] else segments[0] + Flatten(segments[1..])
  }

  lemma {:induction false} FlattenConcat(a: seq<seq<byte>>, b: seq<seq<byte>>)
    ensures Flatten(a + b) == Flatten(a) + Flatten(b)
    decreases |a|
  {
    if a == [] {
      assert a + b == b;
    } else {
      assert (a + b)[1..] == a[1..] + b;
      FlattenConcat(a[1..], b);
    }
  }

  lemma FlattenNext(segments: seq<seq<byte>>, i: nat)
    requires i < |segments|
    ensures Flatten(segments[..i + 1]) == Flatten(segments[..i]) + segments[i]
  {
    assert segments[..i + 1] == segments[..i] + [segments[i]];
    FlattenConcat(segments[..i], [segments[i]]);
    assert Flatten([segments[i]]) == segments[i] + Flatten([]);
  }

  /** The response ended with the last byte of receive `n`, counted from 1. */
  ghost predicate EndsWith(q: Request, r: Response, segments: seq<seq<byte>>, n: nat)
  {
    0 < n <= |segments| && NothingLeft(q, r, Flatten(segments[..n])) && EatAll(q, r, Flatten(segments[..n])).final.Some?
  }

  lemma LeftBehind(q: Request, r: Response, front: seq<byte>, p: seq<byte>)
    requires NothingLeft(q, EatAll(q, r, front), p)
    ensures NothingLeft(q, r, front + p)
  {
    var all := front + p;
    assert all[..|front|] == front && all[|front|..] == p;
    LeftInRest(q, r, all, |front|);
  }

  /** The last of these bytes is the one that ended the response. */
  ghost predicate NothingLeft(q: Request, r: Response, p: seq<byte>)
  {
    p != [] && EatAll(q, r, p[..|p| - 1]).final == None
  }

  lemma EatSplit(q: Request, r: Response, p: seq<byte>, i: nat)
    requires i <= |p|
    ensures EatAll(q, r, p) == EatAll(q, EatAll(q, r, p[..i]), p[i..])
  {
    assert p == p[..i] + p[i..];
    EatConcat(q, r, p[..i], p[i..]);
  }

  lemma EatNext(q: Request, r: Response, p: seq<byte>, i: nat, n: nat)
    requires i + n <= |p|
    ensures EatAll(q, r, p[..i + n]) == EatAll(q, EatAll(q, r, p[..i]), p[i..i + n])
  {
    assert p[..i + n] == p[..i] + p[i..i + n];
    EatConcat(q, r, p[..i], p[i..i + n]);
  }

  lemma EatNextByte(q: Request, r: Response, p: seq<byte>, i: nat)
    requires i < |p|
    ensures EatAll(q, r, p[..i + 1]) == Eat(q, EatAll(q, r, p[..i]), p[i])
  {
    EatNext(q, r, p, i, 1);
    var t := EatAll(q, r, p[..i]);
    assert p[i..i + 1] == [p[i]] && [p[i]][1..] == [];
    assert EatAll(q, t, [p[i]]) == EatAll(q, Eat(q, t, p[i]), []);
  }

  lemma ChunkFacts(r: Response)
    requires Reading(r) && r.final == None && r.stage == Body && r.body == Chunks
    ensures r.chunk == ReadData ==> r.remaining > 0
  {}

  lemma DeliverFacts(r: Response, s: seq<byte>)
    requires Reading(r) && r.final == None && r.stage == Body && r.body == Chunks && r.chunk == ReadData
    requires 0 < |s| <= r.remaining
    ensures var t := Deliver(r, s); Reading(t) && t.final == None && t.stage == Body && t.body == Chunks
  {}

  lemma EatFraming(q: Request, r: Response, c: byte)
    requires Reading(r) && r.final == None && r.stage == Body && r.body == Chunks && r.chunk != ReadData
    ensures var t := Eat(q, r, c);
      && t == (if c == LF then ChunkLine(r.(line := []), r.line) else r.(line := AddToLine(r.line, c)))
      && t.stage == Body && t.body == Chunks && Reading(t) && (c != LF ==> t.final == None)
  {}

  /** A body of a known length ends exactly with its last byte. */
  lemma EndsAtPiece(q: Request, r: Response, p: seq<byte>, take: nat)
    requires r.final == None && r.stage == Body && r.body == Length && take == r.remaining && 0 < take <= |p|
    ensures |p| == take ==> NothingLeft(q, r, p)
  {
    if |p| == take && take > 1 {
      EatPiece(q, r, p[..take - 1]);
    }
  }

  lemma LeftInRest(q: Request, r: Response, p: seq<byte>, i: nat)
    requires i < |p| && NothingLeft(q, EatAll(q, r, p[..i]), p[i..])
    ensures NothingLeft(q, r, p)
  {
    var m := |p| - 1;
    EatSplit(q, r, p[..m], i);
    assert p[..m][..i] == p[..i] && p[..m][i..] == p[i..][..|p[i..]| - 1];
  }

  /** A fetch ends well only at a blank line, while it is still in its headers. */
  lemma PoolsOnlyAtBlank(q: Request, r: Response, line: seq<byte>)
    requires r.final == None && r.stage != Body
    ensures var t := TakeLine(q, r.(line := []), line);
      t.final.Some? && t.final.value in {Finished, NotModified} ==> line == []
  {
    if r.stage == Headers && line != [] {
      var text := TrimEnd(line);
      InterpretFacts(r.(line := [], headers := r.headers + [text]), text);
    }
    hide Interpret, HeadersDone;
  }
}
