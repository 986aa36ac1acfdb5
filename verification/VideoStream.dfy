/** The HTTP input stream of ports/video/papp_io.c: range requests, body decoding and the
    read-ahead ring, against a server that holds one fixed resource. */
module VideoStream {
  import opened Bytes
  import opened ChunkCoding

  const RING_BYTES := 4 * 1024 * 1024
  const KEEP_BEHIND := 512 * 1024
  const FILL_CHUNK := 64 * 1024
  const SKIP_TCP := 256 * 1024
  const SKIP_TLS := 1024 * 1024
  const RAW_BYTES := 16384
  const PREFETCH_MOST := 256 * 1024

  /** What the transport does when it is asked for bytes: some of what the server has sent, nothing
      yet, nothing for too long (or an abort), the end of the connection, or a failure. */
  datatype Event = Arrives(n: nat) | Nothing | TimedOut | PeerClosed | Failed

  /** The outcome of a request after any redirects: none, or a status, the numbers of its headers
      (-1 where missing), the body bytes already received with the headers, and those to come. */
  datatype Answer =
    | NoAnswer
    | Answer(status: int, rangeStart: int, rangeTotal: int, length: int, chunked: bool,
             received: seq<byte>, rest: seq<byte>)

  /** The transfer-coded bytes deliver `data`. */
  ghost predicate Carries(chunked: bool, length: int, bytes: seq<byte>, data: seq<byte>)
  {
    if chunked then exists c: Coding, junk :: c.Valid() && c.Bytes() + junk == bytes && c.Body() == data
    else if length >= 0 then length <= |bytes| && data == bytes[..length]
    else data == bytes
  }

  ghost predicate CarriesFrom(a: Answer, res: seq<byte>, at: nat, end: nat)
    requires a.Answer?
  {
    at <= end <= |res| && Carries(a.chunked, a.length, a.received + a.rest, res[at..end])
  }

  function RangeStart(a: Answer, from: nat): nat
    requires a.Answer?
  {
    if a.rangeStart >= 0 then a.rangeStart else from
  }

  /** A truthful answer to a request for the resource from offset `from` on. */
  ghost predicate Truthful(res: seq<byte>, from: nat, a: Answer)
  {
    a.Answer? ==>
      && a.length >= -1
      && (a.status == 206 ==>
        && a.rangeTotal in {-1, |res|}
        && exists end: nat :: CarriesFrom(a, res, RangeStart(a, from), end))
      && (a.status == 200 ==> CarriesFrom(a, res, 0, |res|) && (a.chunked || a.length in {-1, |res|}))
      && (a.status == 416 ==> from >= |res|)
  }

  /** An answer as a server gives it that keeps to the range asked for: 416 exactly from the end on,
      else a 206 with at least one byte from the offset on. */
  ghost predicate Serves(res: seq<byte>, from: nat, a: Answer)
  {
    && a.Answer?
    && (from >= |res| ==> a.status == 416)
    && (from < |res| ==>
      && a.status == 206 && RangeStart(a, from) == from
      && exists end: nat :: from < end && CarriesFrom(a, res, from, end))
  }

  // ---- What a connection will still deliver ----

  function Promise(chunked: bool, d: Decoder, bodyLeft: int, pending: seq<byte>): seq<byte>
  {
    if chunked then Decode(d, pending)
    else if 0 <= bodyLeft <= |pending| then pending[..bodyLeft]
    else pending
  }

  /** A fresh connection promises what its answer carries. */
  lemma CarriedBytes(a: Answer, res: seq<byte>, at: nat, end: nat)
    requires a.Answer? && a.length >= -1 && CarriesFrom(a, res, at, end)
    ensures Promise(a.chunked, START, if a.chunked then -1 else a.length, a.received + a.rest) == res[at..end]
    ensures Matches(res, at, res[at..end])
  {
    if a.chunked {
      var c: Coding, junk :| c.Valid() && c.Bytes() + junk == a.received + a.rest && c.Body() == res[at..end];
      DecodeCoding(c, junk);
    }
  }

  /** What a truthful answer means for the connection: where it starts, and what it promises. */
  lemma AnswerPromises(res: seq<byte>, from: nat, a: Answer) returns (at: nat, end: nat)
    requires Truthful(res, from, a) && a.Answer?
    ensures a.status == 206 ==> a.rangeTotal in {-1, |res|} && at == RangeStart(a, from)
    ensures a.status == 200 ==> (a.chunked || a.length in {-1, |res|}) && at == 0 && end == |res|
    ensures a.status == 416 ==> from >= |res|
    ensures a.length >= -1 && at <= end <= |res|
    ensures var promise := Promise(a.chunked, START, if a.chunked then -1 else a.length, a.received + a.rest);
      a.status in {200, 206} ==> Matches(res, at, promise) && |promise| == end - at
  {
    at, end := 0, |res|;
    if a.status == 206 {
      end :| CarriesFrom(a, res, RangeStart(a, from), end);
      at := RangeStart(a, from);
    }
    if a.status in {200, 206} {
      CarriedBytes(a, res, at, end);
    }
  }

  /** What such a server sends holds at least one byte. */
  lemma ServedByte(res: seq<byte>, from: nat, a: Answer)
    requires Serves(res, from, a) && from < |res| && a.length >= -1
    ensures Promise(a.chunked, START, if a.chunked then -1 else a.length, a.received + a.rest) != []
  {
    var end: nat :| from < end && CarriesFrom(a, res, from, end);
    CarriedBytes(a, res, from, end);
  }

  /** `future` is what the resource holds from `at` on. */
  ghost predicate Matches(res: seq<byte>, at: nat, future: seq<byte>)
  {
    at + |future| <= |res| && future == res[at..at + |future|]
  }

  lemma MatchAdvances(res: seq<byte>, at: nat, future: seq<byte>, take: nat)
    requires Matches(res, at, future) && take <= |future|
    ensures Matches(res, at + take, future[take..]) && future[..take] == res[at..at + take]
  {}

  lemma PlainAdvances(d: Decoder, bodyLeft: int, pending: seq<byte>, take: nat)
    requires take <= |pending| && bodyLeft >= -1 && bodyLeft != 0 && (bodyLeft > 0 ==> take <= bodyLeft)
    ensures var p := Promise(false, d, bodyLeft, pending);
      && take <= |p| && pending[..take] == p[..take]
      && Promise(false, d, if bodyLeft > 0 then bodyLeft - take else bodyLeft, pending[take..]) == p[take..]
  {}

  lemma NothingLeft(d: Decoder, pending: seq<byte>)
    ensures Promise(false, d, 0, pending) == []
  {}

  lemma ChunkAdvances(left: nat, bodyLeft: int, pending: seq<byte>, take: nat)
    requires 0 < take <= |pending| && take <= left
    ensures var p := Promise(true, Decoder(DataBytes, left), bodyLeft, pending);
      && take <= |p| && pending[..take] == p[..take]
      && Promise(true, TakeData(Decoder(DataBytes, left), take), bodyLeft, pending[take..]) == p[take..]
  {
    hide Decode;
    DecodeData(Decoder(DataBytes, left), pending, take);
  }

  lemma FramingAdvances(d: Decoder, bodyLeft: int, pending: seq<byte>)
    requires pending != [] && d.state != DataBytes && d.state != Over
    ensures Promise(true, Frame(d, pending[0]), bodyLeft, pending[1..]) == Promise(true, d, bodyLeft, pending)
    ensures Frame(d, pending[0]).state == Over ==> Promise(true, d, bodyLeft, pending) == []
    ensures d.left >= 0 && Frame(d, pending[0]).state == DataBytes ==> Frame(d, pending[0]).left > 0
  {}

  // ---- The ring's content ----

  function Max(a: int, b: int): int { if a > b then a else b }

  function Cell(k: nat): nat { k % RING_BYTES }

  /** The ring holds the resource's bytes over [start, end). */
  ghost predicate RingHolds(ring: seq<byte>, res: seq<byte>, start: nat, end: nat)
  {
    && |ring| == RING_BYTES
    && start <= end <= start + RING_BYTES
    && (start < end ==> end <= |res|)
    && forall k | start <= k < end :: ring[Cell(k)] == res[k]
  }

  lemma RingLength(ring: seq<byte>, res: seq<byte>, start: nat, end: nat)
    requires RingHolds(ring, res, start, end)
    ensures |ring| == RING_BYTES && start <= end <= start + RING_BYTES
  {}

  lemma CellOffset(end: nat, k: nat)
    requires end <= k < end + RING_BYTES && Cell(end) + (k - end) < RING_BYTES
    ensures Cell(k) == Cell(end) + (k - end)
  {}

  lemma CellAfter(k: nat, i: nat)
    requires i <= RING_BYTES
    ensures Cell(k + i) == if Cell(k) + i < RING_BYTES then Cell(k) + i else Cell(k) + i - RING_BYTES
  {}

  /** Offsets less than a ring apart use different cells. */
  lemma CellsDiffer(j: nat, k: nat)
    requires j < k < j + RING_BYTES
    ensures Cell(j) != Cell(k)
  {}

  lemma RingGrows(before: seq<byte>, after: seq<byte>, res: seq<byte>, start: nat, end: nat, n: nat)
    requires RingHolds(before, res, start, end) && |after| == RING_BYTES
    requires 0 < n && Cell(end) + n <= RING_BYTES && end + n <= |res|
    requires forall i | 0 <= i < RING_BYTES && !(Cell(end) <= i < Cell(end) + n) :: after[i] == before[i]
    requires after[Cell(end)..Cell(end) + n] == res[end..end + n]
    ensures RingHolds(after, res, Max(start, end + n - RING_BYTES), end + n)
  {
    forall k | Max(start, end + n - RING_BYTES) <= k < end + n ensures after[Cell(k)] == res[k] {
      if k >= end {
        CellOffset(end, k);
        assert after[Cell(end)..Cell(end) + n][k - end] == res[end..end + n][k - end];
      } else {
        var c := Cell(k);
        if Cell(end) <= c < Cell(end) + n {
          CellOffset(end, end + (c - Cell(end)));
          CellsDiffer(k, end + (c - Cell(end)));
        }
        assert after[c] == before[c];
      }
    }
  }

  /** What the ring holds from `pos` on, in its two physical pieces. */
  lemma RingSlice(ring: seq<byte>, res: seq<byte>, start: nat, end: nat, pos: nat, n: nat)
    requires RingHolds(ring, res, start, end) && start <= pos && pos + n <= end && n > 0
    ensures var first := if RING_BYTES - Cell(pos) < n then RING_BYTES - Cell(pos) else n;
      && pos + n <= |res| && 0 <= n - first <= RING_BYTES && Cell(pos) + first <= RING_BYTES
      && ring[Cell(pos)..Cell(pos) + first] + ring[..n - first] == res[pos..pos + n]
  {
    var first := if RING_BYTES - Cell(pos) < n then RING_BYTES - Cell(pos) else n;
    var s := ring[Cell(pos)..Cell(pos) + first] + ring[..n - first];
    forall i | 0 <= i < n ensures s[i] == ring[Cell(pos + i)] == res[pos + i] {
      CellAfter(pos, i);
      hide Cell;
    }
    hide Cell;
    assert s == res[pos..pos + n];
  }

  lemma OneTaken(raw: seq<byte>, off: nat, wire: seq<byte>)
    requires off < |raw|
    ensures var pending := raw[off..] + wire; pending[0] == raw[off] && pending[1..] == raw[off + 1..] + wire
  {}

  class Stream {
    ghost const res: seq<byte>
    /** The answer to a request, by the number of requests that can still be made. */
    const server: (nat, nat) -> Answer
    const tls: bool
    /** Nobody raises the abort flag. */
    const quiet: bool
    const ring: array<byte>

    // The network
    /** How many requests are answered before connecting fails. */
    var requestsLeft: nat
    var net: seq<Event>
    var wire: seq<byte>
    /** Some connection broke before its end, or some answer did not run to the resource's end. */
    ghost var lost: bool

    // papp_stream
    var pos: nat
    var size: int
    var seekable: bool
    var connected: bool
    var connPos: nat
    var connEof: bool
    var bodyLeft: int
    var chunked: bool
    var chunkState: ChunkState
    var chunkLeft: nat
    var ringStart: nat
    var ringEnd: nat
    var raw: seq<byte>
    var rawOff: nat

    // ---- Invariants ----

    function Pending(): seq<byte>
      requires rawOff <= |raw|
      reads this`raw, this`rawOff, this`wire
    {
      raw[rawOff..] + wire
    }

    function Machine(): Decoder reads this`chunkState, this`chunkLeft { Decoder(chunkState, chunkLeft) }

    function Future(): seq<byte>
      requires rawOff <= |raw|
      reads this`raw, this`rawOff, this`wire, this`chunked, this`chunkState, this`chunkLeft, this`bodyLeft
    {
      Promise(chunked, Machine(), bodyLeft, Pending())
    }

    predicate Open() reads this`connected, this`connEof { connected && !connEof }

    /** The connection delivers the resource from connPos on; nothing lost means it reaches the end. */
    ghost predicate ConnValid()
      reads this`raw, this`rawOff, this`wire, this`lost, this`connected, this`connPos, this`connEof
      reads this`chunked, this`chunkState, this`chunkLeft, this`bodyLeft
    {
      && (Open() ==>
        && rawOff <= |raw| && bodyLeft >= -1
        && (chunked ==> chunkState != Over && (chunkState == DataBytes ==> chunkLeft > 0))
        && Matches(res, connPos, Future()))
      && (!lost ==> connected && connPos + (if connEof then 0 else |Future()|) >= |res|)
    }

    ghost predicate RingValid()
      reads this`ringStart, this`ringEnd, ring
    {
      RingHolds(ring[..], res, ringStart, ringEnd)
    }

    ghost predicate Valid()
      reads this, ring
    {
      && ConnValid() && RingValid()
      && size >= -1
      && (Open() && connPos != ringEnd ==> 0 <= size <= ringEnd)
      && (!lost ==> connPos == ringEnd && (size == -1 || size >= |res|))
    }

    ghost predicate TruthfulServer()
    {
      forall n, from :: Truthful(res, from, server(n, from))
    }

    ghost predicate ServingServer()
    {
      forall n, from :: Serves(res, from, server(n, from))
    }

    /** No 206 answer gives the resource's size: Content-Range: bytes a-b/ followed by a star. */
    ghost predicate UntellingServer()
    {
      forall n, from :: var a := server(n, from); a.Answer? && a.status == 206 ==> a.rangeTotal < 0
    }

    /** Every 206 answer gives it. */
    ghost predicate TellingServer()
    {
      forall n, from :: var a := server(n, from); a.Answer? && a.status == 206 ==> a.rangeTotal >= 0
    }

    /** The connection still brings bytes of the body. */
    ghost predicate Due()
      reads this`raw, this`rawOff, this`wire, this`connected, this`connEof
      reads this`chunked, this`chunkState, this`chunkLeft, this`bodyLeft
    {
      Open() && rawOff <= |raw| && Future() != []
    }

    /** The position is past the resource's end, but before the size the stream has for it. */
    ghost predicate Overshot() reads this`seekable, this`pos, this`size { seekable && |res| <= pos < size }

    /** The ring's end is at the resource's end or past it, but before the size: no request brings more. */
    ghost predicate Endless()
      reads this`seekable, this`size, this`ringEnd
    {
      seekable && |res| <= ringEnd < size
    }

    /** What is known of a seekable stream's size is not too much. */
    ghost predicate SizeTold() reads this`seekable, this`size { seekable ==> 0 <= size <= |res| }

    // ---- Body decoding ----

    /** tp_recv: > 0 bytes, 0 nothing yet, -1 closed by the peer, -2 failed, -3 nothing for too long. */
    method Receive() returns (n: int)
      requires ConnValid() && Open() && rawOff == |raw|
      modifies this`net, this`raw, this`rawOff, this`wire, this`lost
      ensures |net| < |old(net)| || (net == old(net) && n == -3)
      ensures old(lost) ==> lost
      ensures n > 0 ==> ConnValid() && Future() == old(Future()) && rawOff < |raw| && lost == old(lost)
      ensures n == 0 || n == -3 ==> ConnValid() && Future() == old(Future()) && rawOff == |raw| && lost == old(lost)
      ensures n == -1 || n == -2 ==> unchanged(`raw, `rawOff, `wire) && (!lost ==> Future() == [] && !old(lost))
      ensures n >= -3
    {
      if net == [] {
        return -3;
      }
      var e := net[0];
      net := net[1..];
      match e
      case Arrives(count) =>
        if wire == [] {
          return 0;
        }
        n := if count == 0 then 1 else count;
        n := if n > RAW_BYTES then RAW_BYTES else n;
        n := if n > |wire| then |wire| else n;
        hide Promise;
        assert raw[rawOff..] + wire == wire[..n][0..] + wire[n..];
        raw, rawOff, wire := wire[..n], 0, wire[n..];
      case Nothing => n := 0;
      case TimedOut => n := -3;
      case PeerClosed =>
        n := -1;
        lost := lost || Future() != [];
      case Failed =>
        n := -2;
        lost := lost || Future() != [];
    }

    /** memcpy(ring + at, raw + raw_off, take) */
    method CopyOut(at: nat, take: nat)
      requires ring.Length == RING_BYTES && at + take <= RING_BYTES && rawOff + take <= |raw|
      modifies ring
      ensures ring[at..at + take] == raw[rawOff..rawOff + take]
      ensures forall i | 0 <= i < RING_BYTES && !(at <= i < at + take) :: ring[i] == old(ring[i])
    {
      forall i | at <= i < at + take {
        ring[i] := raw[rawOff + i - at];
      }
    }

    method TakePlain(at: nat, take: nat)
      requires ConnValid() && Open() && !chunked && bodyLeft != 0
      requires ring.Length == RING_BYTES && at + take <= RING_BYTES
      requires 0 < take <= |raw| - rawOff && (bodyLeft > 0 ==> take <= bodyLeft)
      modifies this`rawOff, this`connPos, this`bodyLeft, ring
      ensures ConnValid() && connPos == old(connPos) + take <= |res|
      ensures ring[at..at + take] == res[old(connPos)..connPos]
      ensures forall i | 0 <= i < RING_BYTES && !(at <= i < at + take) :: ring[i] == old(ring[i])
    {
      hide Promise, Matches;
      ghost var future, pending := Future(), Pending();
      PlainAdvances(Machine(), bodyLeft, pending, take);
      MatchAdvances(res, connPos, future, take);
      assert pending[..take] == raw[rawOff..rawOff + take];
      CopyOut(at, take);
      rawOff := rawOff + take;
      connPos := connPos + take;
      if bodyLeft > 0 {
        bodyLeft := bodyLeft - take;
      }
      assert pending[take..] == Pending();
    }

    method TakeChunk(at: nat, take: nat)
      requires ConnValid() && Open() && chunked && chunkState == DataBytes
      requires ring.Length == RING_BYTES && at + take <= RING_BYTES
      requires 0 < take <= |raw| - rawOff && take <= chunkLeft
      modifies this`rawOff, this`connPos, this`chunkLeft, this`chunkState, ring
      ensures ConnValid() && connPos == old(connPos) + take <= |res|
      ensures ring[at..at + take] == res[old(connPos)..connPos]
      ensures forall i | 0 <= i < RING_BYTES && !(at <= i < at + take) :: ring[i] == old(ring[i])
    {
      hide Promise, Matches;
      ghost var future, pending := Future(), Pending();
      ChunkAdvances(chunkLeft, bodyLeft, pending, take);
      MatchAdvances(res, connPos, future, take);
      CopyOut(at, take);
      rawOff := rawOff + take;
      connPos := connPos + take;
      chunkLeft := chunkLeft - take;
      if chunkLeft == 0 {
        chunkState := DataEnd;
      }
      assert pending[take..] == Pending() && pending[..take] == ring[at..at + take];
    }

    /** One byte of chunk framing; true at the end of the body. */
    method FrameByte() returns (over: bool)
      requires ConnValid() && Open() && chunked && chunkState != DataBytes && rawOff < |raw|
      modifies this`rawOff, this`chunkState, this`chunkLeft, this`connEof
      ensures ConnValid() && connEof == over && (!over ==> rawOff == old(rawOff) + 1)
      ensures if over then old(Future()) == [] else rawOff <= |raw| && Future() == old(Future())
    {
      hide Promise, Matches;
      ghost var d, pending := Machine(), Pending();
      FramingAdvances(d, bodyLeft, pending);
      var c := raw[rawOff];
      OneTaken(raw, rawOff, wire);
      rawOff := rawOff + 1;
      over := false;
      match chunkState {
        case Size =>
          if IsHex(c) {
            chunkLeft := chunkLeft * 16 + HexDigit(c);
          } else if c == SEMICOLON {
            chunkState := Ext;
          } else if c == LF {
            chunkState := if chunkLeft > 0 then DataBytes else Trailer;
          }
        case Ext =>
          if c == LF {
            chunkState := if chunkLeft > 0 then DataBytes else Trailer;
          }
        case DataEnd =>
          if c == LF {
            chunkState, chunkLeft := Size, 0;
          }
        case Trailer =>
          if c == LF {
            connEof, over := true, true;
          } else if c != CR {
            chunkState := TrailerLine;
          }
        case TrailerLine =>
          if c == LF {
            chunkState := Trailer;
          }
        case _ =>
      }
      assert Frame(d, c) == Decoder(if over then Over else chunkState, chunkLeft);
    }

    /** Receives and skips chunk framing until body bytes are at hand: 1 when they are, 0 none ready,
        -1 the end of this body, -2 failed. */
    method AwaitData(wait: bool) returns (r: int)
      requires ConnValid()
      modifies this`net, this`raw, this`rawOff, this`wire, this`lost, this`connEof, this`chunkState, this`chunkLeft
      ensures ConnValid() && (old(lost) ==> lost) && -2 <= r <= 1
      ensures r == 1 ==> Open() && rawOff < |raw| && lost == old(lost) && connEof == old(connEof)
      ensures r == 1 ==> if chunked then chunkState == DataBytes else bodyLeft != 0
      ensures r == -1 ==> !Open()
      ensures r == 0 ==> !wait
      ensures connEof == old(connEof) || (connEof && r < 0)
      ensures |net| <= |old(net)| && (r == -1 && old(Due()) ==> |net| < |old(net)|)
      ensures !old(Open()) ==> r == -1 && net == old(net) && connEof == old(connEof)
    {
      hide Promise, Matches;
      while true
        invariant ConnValid() && connEof == old(connEof) && lost == old(lost)
        invariant Open() ==> Future() == old(Future())
        invariant |net| <= |old(net)| && (!Open() ==> net == old(net))
        decreases |net|, |raw| - rawOff
      {
        if connEof || !connected {
          return -1;
        }
        if !chunked && bodyLeft == 0 {
          NothingLeft(Machine(), Pending());
          connEof := true;
          return -1;
        }
        if rawOff == |raw| {
          var got := Receive();
          if got == 0 {
            if !wait {
              return 0;
            }
            continue;
          }
          if got == -3 {
            return if wait then -2 else 0;
          }
          if got < 0 {
            connEof := true;
            return if got == -1 then -1 else -2;
          }
        }
        if !chunked || chunkState == DataBytes {
          return 1;
        }
        var over := FrameByte();
        if over {
          return -1;
        }
      }
    }

    /** body_read into ring + at: > 0 bytes, 0 none ready, -1 the end of this body, -2 failed. */
    method BodyRead(at: nat, max: nat, wait: bool) returns (n: int)
      requires ConnValid() && ring.Length == RING_BYTES && at + max <= RING_BYTES
      modifies this`net, this`raw, this`rawOff, this`wire, this`lost, this`connPos, this`connEof
      modifies this`bodyLeft, this`chunkState, this`chunkLeft, ring
      ensures ConnValid() && (old(lost) ==> lost)
      ensures n > 0 ==> Open() && n <= max && connPos == old(connPos) + n <= |res| && lost == old(lost)
      ensures n > 0 ==> ring[at..at + n] == res[connPos - n..connPos]
      ensures n <= 0 ==> connPos == old(connPos)
      ensures n == -1 ==> !Open()
      ensures n == 0 ==> max == 0 || !wait
      ensures connEof == old(connEof) || (connEof && n < 0)
      ensures forall i | 0 <= i < RING_BYTES && !(at <= i < at + n) :: ring[i] == old(ring[i])
      ensures |net| <= |old(net)| && (n == -1 && old(Due()) ==> |net| < |old(net)|)
      ensures max > 0 && !old(Open()) ==> n == -1 && net == old(net) && connEof == old(connEof)
    {
      hide Due, Promise, Matches;
      if max == 0 {
        return 0;
      }
      n := AwaitData(wait);
      if n != 1 {
        return n;
      }
      hide ConnValid;
      var avail := |raw| - rawOff;
      n := if avail < max then avail else max;
      if !chunked {
        if bodyLeft >= 0 && n > bodyLeft {
          n := bodyLeft;
        }
        TakePlain(at, n);
      } else {
        if n > chunkLeft {
          n := chunkLeft;
        }
        TakeChunk(at, n);
      }
    }

    // ---- The ring ----

    ghost predicate FillValid()
      reads this, ring
    {
      ConnValid() && ring.Length == RING_BYTES && RingValid() && (Open() ==> connPos == ringEnd)
    }

    /** One receive into the ring at ringEnd, up to its physical end. */
    method RingStep(most: nat, wait: bool) returns (n: int)
      requires FillValid() && most > 0
      modifies this`net, this`raw, this`rawOff, this`wire, this`lost, this`connPos, this`connEof
      modifies this`bodyLeft, this`chunkState, this`chunkLeft, this`ringStart, this`ringEnd, ring
      ensures FillValid() && (old(lost) ==> lost) && n <= most
      ensures ringEnd == old(ringEnd) + (if n > 0 then n else 0)
      ensures connPos == old(connPos) + (if n > 0 then n else 0)
      ensures ringStart == if n > 0 then Max(old(ringStart), ringEnd - RING_BYTES) else old(ringStart)
      ensures n == -1 ==> !Open()
      ensures n == 0 ==> !wait
      ensures |net| <= |old(net)| && (n == -1 && old(Due()) ==> |net| < |old(net)|)
      ensures !old(Open()) ==> n == -1 && net == old(net) && connEof == old(connEof)
      ensures n > 0 ==> ringEnd <= |res|
    {
      hide Promise, Matches, RingHolds;
      RingLength(ring[..], res, ringStart, ringEnd);
      ghost var before := ring[..];
      var at := Cell(ringEnd);
      var room := RING_BYTES - at;
      if room > most {
        room := most;
      }
      n := BodyRead(at, room, wait);
      if n > 0 {
        RingGrows(before, ring[..], res, ringStart, ringEnd, n);
        ringEnd := ringEnd + n;
        if ringEnd - ringStart > RING_BYTES {
          ringStart := ringEnd - RING_BYTES;
        }
      } else {
        assert ring[..] == before;
      }
    }

    /** ring_fill: receives at ringEnd; bytes added, 0 none ready, -1 end, -2 failed. */
    method RingFill(want: nat, wait: bool) returns (added: int)
      requires FillValid()
      modifies this`net, this`raw, this`rawOff, this`wire, this`lost, this`connPos, this`connEof
      modifies this`bodyLeft, this`chunkState, this`chunkLeft, this`ringStart, this`ringEnd, ring
      ensures FillValid() && (old(lost) ==> lost) && added <= want
      ensures ringEnd == old(ringEnd) + (if added > 0 then added else 0)
      ensures connPos == old(connPos) + (if added > 0 then added else 0)
      ensures ringStart == if added > 0 then Max(old(ringStart), ringEnd - RING_BYTES) else old(ringStart)
      ensures added == -1 ==> !Open()
      ensures added == 0 ==> want == 0 || !wait
      ensures |net| <= |old(net)| && (added == -1 && old(Due()) ==> |net| < |old(net)|)
      ensures want > 0 && !old(Open()) ==> added == -1 && net == old(net) && connEof == old(connEof)
      ensures added > 0 ==> ringEnd <= |res|
    {
      hide FillValid, Due;
      added := 0;
      while added < want
        invariant 0 <= added <= want && FillValid() && (old(lost) ==> lost)
        invariant |net| <= |old(net)| && (added > 0 ==> ringEnd <= |res| && old(Open()))
        invariant added == 0 ==> net == old(net) && connEof == old(connEof)
        invariant added == 0 ==> Due() == old(Due()) && Open() == old(Open())
        invariant ringEnd == old(ringEnd) + added && connPos == old(connPos) + added
        invariant ringStart == if added > 0 then Max(old(ringStart), ringEnd - RING_BYTES) else old(ringStart)
      {
        var n := RingStep(want - added, wait && added == 0);
        if n <= 0 {
          return if added > 0 then added else n;
        }
        added := added + n;
      }
    }

    // ---- Requests ----

    ghost predicate SizeValid() reads this`size, this`lost { size >= -1 && (!lost ==> size == -1 || size >= |res|) }

    lemma ServerIsTruthful(n: nat, from: nat)
      requires TruthfulServer()
      ensures Truthful(res, from, server(n, from))
    {}

    /** What is known of each answer of the special servers. */
    lemma AnswerOf(n: nat, from: nat)
      ensures var a := server(n, from);
        && (UntellingServer() && a.Answer? && a.status == 206 ==> a.rangeTotal < 0)
        && (TellingServer() && a.Answer? && a.status == 206 ==> a.rangeTotal >= 0)
      ensures var a := server(n, from);
        ServingServer() ==> Serves(res, from, a) && a.Answer? && a.status == (if from < |res| then 206 else 416)
      ensures var a := server(n, from);
        ServingServer() && from < |res| ==> RangeStart(a, from) == from
    {}

    /** The state after a 416 answer. */
    ghost predicate Refused(from: nat, before: int)
      reads this`connEof, this`connected, this`connPos, this`size
    {
      connected && connEof && connPos == from && size == if before < 0 then from else before
    }

    /** The state after a 206 answer. */
    ghost predicate Partial(a: Answer, at: nat, before: int)
      reads this`raw, this`rawOff, this`connEof, this`connected, this`connPos, this`size, this`seekable
    {
      && connected && !connEof && connPos == at && rawOff <= |raw| && seekable
      && (a.Answer? ==> size == if a.rangeTotal >= 0 then |res| else before)
    }

    /** The connection starts with the answer's body, which is the resource from `at` on. */
    method Begin(a: Answer, at: nat, ghost end: nat)
      requires a.Answer? && a.length >= -1 && at <= end <= |res| && (!lost ==> end == |res|)
      requires var promise := Promise(a.chunked, START, if a.chunked then -1 else a.length, a.received + a.rest);
        Matches(res, at, promise) && |promise| == end - at
      modifies this`raw, this`rawOff, this`wire, this`connected, this`connPos, this`connEof
      modifies this`bodyLeft, this`chunked, this`chunkState, this`chunkLeft
      ensures ConnValid() && connected && !connEof && connPos == at && rawOff <= |raw| && |Future()| == end - at
    {
      hide Promise, Matches;
      raw, rawOff, wire, chunked, bodyLeft := a.received, 0, a.rest, a.chunked, if a.chunked then -1 else a.length;
      connected, connPos, connEof, chunkState, chunkLeft := true, at, false, Size, 0;
      assert Pending() == a.received + a.rest;
    }

    lemma Closed()
      requires !Open() && (!lost ==> connected && connPos >= |res|)
      ensures ConnValid()
    {}

    /** What http_request makes of the status and the headers. */
    method Accept(a: Answer, from: nat, ghost at: nat, ghost end: nat) returns (ok: bool)
      requires a.Answer? && a.length >= -1 && at <= end <= |res| && SizeValid() && !connected
      requires a.status == 206 ==> a.rangeTotal in {-1, |res|} && at == RangeStart(a, from)
      requires a.status == 200 ==> (a.chunked || a.length in {-1, |res|}) && at == 0 && end == |res|
      requires a.status == 416 ==> from >= |res|
      requires var promise := Promise(a.chunked, START, if a.chunked then -1 else a.length, a.received + a.rest);
        a.status in {200, 206} ==> Matches(res, at, promise) && |promise| == end - at
      modifies this`raw, this`rawOff, this`wire, this`lost, this`connected, this`connPos, this`connEof
      modifies this`bodyLeft, this`chunked, this`chunkState, this`chunkLeft, this`seekable, this`size
      ensures ConnValid() && SizeValid() && (old(lost) ==> lost)
      ensures ok == connected && (!ok ==> lost && size == old(size))
      ensures a.status == 206 ==> ok && Partial(a, at, old(size))
      ensures a.status == 206 ==> |Future()| == end - at
      ensures a.status == 416 ==> ok && Refused(from, old(size)) && seekable == old(seekable)
      ensures a.status != 206 ==> (seekable ==> old(seekable))
      ensures size == old(size) || size == |res| || (old(size) < 0 && size >= |res|)
    {
      hide Promise, Matches, ConnValid;
      if a.status == 206 {
        seekable := true;
        if a.rangeTotal >= 0 {
          size := a.rangeTotal;
        }
        lost := lost || end < |res|;
        Begin(a, RangeStart(a, from), end);
        return true;
      }
      if a.status == 200 {
        if from > 0 {
          seekable := false;
        }
        if !a.chunked && a.length >= 0 {
          size := a.length;
        }
        Begin(a, 0, end);
        return true;
      }
      if a.status == 416 {
        raw, rawOff, wire, chunked, bodyLeft := a.received, 0, a.rest, a.chunked, 0;
        connected, connPos, connEof, chunkState, chunkLeft := true, from, true, Size, 0;
        if size < 0 {
          size := from;
        }
        Closed();
        return true;
      }
      lost := true;
      Closed();
      return false;
    }

    /** One request and its answer, after any redirects. */
    method Ask(from: nat) returns (ok: bool, ghost a: Answer)
      requires TruthfulServer() && SizeValid()
      modifies this`requestsLeft, this`raw, this`rawOff, this`wire, this`lost, this`connected, this`connPos
      modifies this`connEof
      modifies this`bodyLeft, this`chunked, this`chunkState, this`chunkLeft, this`seekable, this`size
      ensures ConnValid() && SizeValid() && (old(lost) ==> lost)
      ensures ok == connected && (!ok ==> lost && size == old(size))
      ensures if old(requestsLeft) == 0 then a == NoAnswer && requestsLeft == 0
        else requestsLeft == old(requestsLeft) - 1 && a == server(requestsLeft, from)
      ensures a.NoAnswer? ==> !ok && seekable == old(seekable)
      ensures a.Answer? && a.status == 206 ==> ok && Partial(a, RangeStart(a, from), old(size))
      ensures a.Answer? && a.status == 206 && Serves(res, from, a) && from < |res| ==> Future() != []
      ensures a.Answer? && a.status == 416 ==> ok && Refused(from, old(size)) && seekable == old(seekable)
      ensures a.Answer? && a.status != 206 ==> (seekable ==> old(seekable))
      ensures size == old(size) || size == |res| || (old(size) < 0 && size >= |res|)
    {
      hide Promise, Matches, TruthfulServer, Truthful, Serves, ConnValid;
      connected, a := false, NoAnswer;
      if requestsLeft == 0 {
        lost, ok := true, false;
        Closed();
        return;
      }
      requestsLeft := requestsLeft - 1;
      var answer := server(requestsLeft, from);
      a := answer;
      ServerIsTruthful(requestsLeft, from);
      if answer.NoAnswer? {
        lost, ok := true, false;
        Closed();
        return;
      }
      ghost var at, end := AnswerPromises(res, from, a);
      if Serves(res, from, a) && from < |res| {
        ServedByte(res, from, a);
      }
      ok := Accept(answer, from, at, end);
    }

    /** http_request: on success the connection is at the body's first byte, offset connPos. */
    method HttpRequest(from: nat) returns (ok: bool)
      requires TruthfulServer() && SizeValid()
      modifies this`requestsLeft, this`raw, this`rawOff, this`wire, this`lost, this`connected, this`connPos
      modifies this`connEof
      modifies this`bodyLeft, this`chunked, this`chunkState, this`chunkLeft, this`seekable, this`size
      ensures ConnValid() && SizeValid() && (old(lost) ==> lost)
      ensures ok == connected && (!ok ==> lost && size == old(size))
      ensures ok ==> requestsLeft < old(requestsLeft)
      ensures old(requestsLeft) - 1 <= requestsLeft <= old(requestsLeft)
      ensures size == old(size) || size == |res| || (old(size) < 0 && size >= |res|)
      ensures ServingServer() && old(requestsLeft) > 0 ==>
        ok && connPos == from && requestsLeft == old(requestsLeft) - 1
      ensures ServingServer() && ok && from < |res| ==> Due() && seekable && (size == |res| || size == old(size))
      ensures ServingServer() && ok && from >= |res| ==> Refused(from, old(size))
      ensures ServingServer() && (!ok || from >= |res|) ==> seekable == old(seekable)
      ensures ServingServer() && UntellingServer() && from < |res| ==> size == old(size)
      ensures TellingServer() && old(SizeTold()) ==> SizeTold()
    {
      hide Promise, Matches, TruthfulServer, ServingServer, UntellingServer, TellingServer, Serves;
      hide ConnValid, SizeValid;
      ghost var a;
      ok, a := Ask(from);
      AnswerOf(requestsLeft, from);
    }

    /** Opens the resource; `connected` tells whether the first request succeeded. */
    constructor (ghost res: seq<byte>, server: (nat, nat) -> Answer, tls: bool, quiet: bool, requests: nat,
        net: seq<Event>)
      requires forall n, from :: Truthful(res, from, server(n, from))
      ensures this.res == res && this.server == server && this.tls == tls && this.quiet == quiet
      ensures Valid() && TruthfulServer() && pos == 0 && fresh(ring)
      ensures ServingServer() && requests > 0 ==> connected && requestsLeft == requests - 1 && connPos == 0 == ringEnd
      ensures ServingServer() && requests > 0 && res != [] ==> seekable
      ensures ServingServer() && UntellingServer() && requests > 0 && res != [] ==> size == -1
      ensures TellingServer() ==> SizeTold()
    {
      this.res, this.server, this.tls, this.quiet := res, server, tls, quiet;
      ring := new byte[RING_BYTES];
      requestsLeft, this.net, wire, lost := requests, net, [], false;
      pos, size, seekable, connected, connPos, connEof := 0, -1, false, false, 0, false;
      bodyLeft, chunked, chunkState, chunkLeft := -1, false, Size, 0;
      ringStart, ringEnd, raw, rawOff := 0, 0, [], 0;
      new;
      var ok := HttpRequest(0);
      ringStart, ringEnd := connPos, connPos;
    }

    // ---- Reading, seeking, prefetching ----

    /** Between the steps of a read: as Valid, with any open connection at the ring's end. */
    ghost predicate ReadValid()
      reads this, ring
    {
      && FillValid() && SizeValid()
      && (!lost ==> connPos == ringEnd)
    }

    /** Whether the abort flag is up when it is looked at. */
    method Aborted() returns (aborted: bool)
      ensures quiet ==> !aborted
    {
      var raised: bool := *;
      return raised && !quiet;
    }

    /** The open connection is at the ring's end and at most a skip before the position. */
    predicate Reachable()
      reads this`connected, this`connEof, this`connPos, this`ringEnd, this`pos
    {
      Open() && connPos == ringEnd && ringEnd <= pos && pos - ringEnd <= if tls then SKIP_TLS else SKIP_TCP
    }

    /** The stream's size is no number between the resource's and the position. */
    ghost predicate SizeFits()
      reads this`size, this`pos, this`ringEnd
    {
      size <= |res| || size > pos || size <= ringEnd
    }

    lemma EmptyRing(cells: seq<byte>, res: seq<byte>, at: nat)
      requires |cells| == RING_BYTES
      ensures RingHolds(cells, res, at, at)
    {}

    lemma RingWithin(cells: seq<byte>, res: seq<byte>, start: nat, end: nat)
      requires RingHolds(cells, res, start, end)
      ensures start < end ==> end <= |res|
    {}

    lemma NothingLostAtEnd()
      requires ConnValid() && !Open()
      ensures !lost ==> connPos >= |res|
    {}

    /** Asks for the rest of a body that ended early; an answer from another offset is no use. */
    method Resume() returns (resumed: bool)
      requires TruthfulServer() && SizeValid() && size >= 0
      modifies this`requestsLeft, this`raw, this`rawOff, this`wire, this`lost, this`connected, this`connPos
      modifies this`connEof
      modifies this`bodyLeft, this`chunked, this`chunkState, this`chunkLeft, this`seekable, this`size
      ensures ConnValid() && SizeValid() && (old(lost) ==> lost)
      ensures resumed ==> connPos == ringEnd && requestsLeft < old(requestsLeft)
      ensures !resumed ==> lost
      ensures old(requestsLeft) - 1 <= requestsLeft <= old(requestsLeft)
      ensures size == old(size) || size == |res|
      ensures ServingServer() ==> if old(requestsLeft) > 0 then resumed else !resumed && requestsLeft == 0
      ensures ServingServer() && resumed && ringEnd < |res| ==> Due() && seekable
      ensures ServingServer() && resumed && ringEnd >= |res| ==> connEof && size == old(size)
      ensures ServingServer() && (!resumed || ringEnd >= |res|) ==> seekable == old(seekable)
      ensures ServingServer() && UntellingServer() ==> size == old(size)
      ensures TellingServer() && old(SizeTold()) ==> SizeTold()
    {
      hide Promise, Matches, TruthfulServer, ServingServer, UntellingServer, TellingServer;
      var ok := HttpRequest(ringEnd);
      resumed := ok && connPos == ringEnd;
      lost := lost || !resumed;
    }

    /** Where a read stands is as it was. */
    twostate predicate Same()
      reads this
    {
      && ringStart == old(ringStart) && ringEnd == old(ringEnd) && size == old(size) && seekable == old(seekable)
      && connEof == old(connEof) && Open() == old(Open()) && net == old(net)
    }

    /** A request that is answered but has not brought a byte yet. */
    ghost function Owed(): nat
      reads this`raw, this`rawOff, this`wire, this`connected, this`connEof
      reads this`chunked, this`chunkState, this`chunkLeft, this`bodyLeft
    {
      if Due() then 1 else 0
    }

    /** The body ended early, or its length was never given: the rest is asked for, or the stream ends here. */
    method Further() returns (further: bool)
      requires FillValid() && SizeValid() && TruthfulServer() && !Open() && (size < 0 || ringEnd < size)
      requires !lost ==> connPos == ringEnd && ringEnd >= |res|
      modifies this`requestsLeft, this`raw, this`rawOff, this`wire, this`lost, this`connected, this`connPos
      modifies this`connEof
      modifies this`bodyLeft, this`chunked, this`chunkState, this`chunkLeft, this`seekable, this`size
      ensures (if further then ReadValid() else Valid()) && (old(lost) ==> lost)
      ensures further ==> requestsLeft < old(requestsLeft)
      ensures !further ==> size == ringEnd && (pos >= ringEnd ==> pos >= |res| || lost)
      ensures old(requestsLeft) - 1 <= requestsLeft <= old(requestsLeft)
      ensures size == old(size) || size == |res| || (!further && size == ringEnd)
      ensures ServingServer() ==> seekable == old(seekable)
      ensures ServingServer() && quiet && old(seekable && size > ringEnd) ==> further == (old(requestsLeft) > 0)
      ensures ServingServer() && quiet && old(seekable && size > ringEnd) && !further ==> requestsLeft == 0
      ensures ServingServer() && further && ringEnd < |res| ==> Due()
      ensures ServingServer() && further && ringEnd >= |res| ==> old(Endless()) && connEof && size == old(size)
      ensures ServingServer() && UntellingServer() && further ==> size == old(size)
      ensures TellingServer() && old(SizeTold()) ==> SizeTold()
    {
      hide ConnValid, RingValid, TruthfulServer, ServingServer, UntellingServer, TellingServer, Due;
      var aborted := Aborted();
      if seekable && size > ringEnd && !aborted {
        further := Resume();
        if further {
          return;
        }
      }
      size := ringEnd;
      return false;
    }

    /** One turn of the loop that receives until the ring reaches beyond pos: 1 to go on, 0 at the end,
        -1 on an error. */
    method Turn() returns (r: int)
      requires ReadValid() && TruthfulServer() && ringStart <= pos && ringEnd <= pos
      modifies this`requestsLeft, this`net, this`raw, this`rawOff, this`wire, this`lost, this`connected, this`connPos
      modifies this`connEof, this`bodyLeft, this`chunked, this`chunkState, this`chunkLeft, this`seekable, this`size
      modifies this`ringStart, this`ringEnd, ring
      ensures (if r == 1 then ReadValid() else Valid()) && (old(lost) ==> lost) && -1 <= r <= 1
      ensures ringStart <= pos && old(ringEnd) <= ringEnd && (ringEnd > old(ringEnd) ==> ringEnd <= |res|)
      ensures r == 1 && ringEnd > old(ringEnd) ==> requestsLeft == old(requestsLeft)
      ensures r == 1 && ringEnd == old(ringEnd) ==> requestsLeft < old(requestsLeft)
      ensures old(requestsLeft) - 1 <= requestsLeft <= old(requestsLeft) && |net| <= |old(net)|
      // The end
      ensures r == 0 ==> pos >= |res| || lost
      ensures r == 0 ==> 0 <= size <= ringEnd <= pos && (size == ringEnd || size == old(size))
      ensures size == old(size) || size == |res| || (r == 0 && size == ringEnd)
      ensures old(!Open() && 0 <= size <= ringEnd) ==> r == 0 && Same() && requestsLeft == old(requestsLeft)
      ensures r == -1 ==> old(Open())
      // Which turns ask again, and what they get
      ensures ServingServer() ==> seekable == old(seekable)
      ensures ServingServer() && quiet && old(seekable && size > ringEnd) && r == 0 ==> requestsLeft == 0
      ensures ServingServer() && quiet && old(Endless() && connEof && requestsLeft > 0) ==>
        r == 1 && Same() && requestsLeft == old(requestsLeft) - 1
      ensures ServingServer() && r == 1 && !old(Endless()) ==>
        old(requestsLeft) - requestsLeft + old(Owed()) <= ringEnd - old(ringEnd) + |old(net)| - |net| + Owed()
      ensures ServingServer() && UntellingServer() && r == 1 ==> size == old(size)
      ensures TellingServer() && old(SizeTold()) ==> SizeTold()
    {
      hide ConnValid, RingValid, TruthfulServer, ServingServer, UntellingServer, TellingServer, Due;
      var n := RingFill(FILL_CHUNK, true);
      if n == -1 {
        NothingLostAtEnd();
        if size < 0 || ringEnd < size {
          var further := Further();
          return if further then 1 else 0;
        }
        return 0;
      }
      return if n < 0 then -1 else 1;
    }

    /** Receives until the ring reaches beyond pos, asking again where a body ended early: 1 when it
        does, 0 at the end, -1 on an error. */
    method AdvanceTo() returns (r: int)
      requires ReadValid() && TruthfulServer() && ringStart <= pos
      modifies this`requestsLeft, this`net, this`raw, this`rawOff, this`wire, this`lost, this`connected, this`connPos
      modifies this`connEof, this`bodyLeft, this`chunked, this`chunkState, this`chunkLeft, this`seekable, this`size
      modifies this`ringStart, this`ringEnd, ring
      ensures Valid() && (old(lost) ==> lost) && -1 <= r <= 1
      ensures r == 1 ==> ringStart <= pos < ringEnd
      ensures r == 0 ==> pos >= |res| || lost
      ensures r == 0 ==> 0 <= size <= ringEnd <= pos && (size == ringEnd || size == old(size) || size == |res|)
      ensures size == old(size) || size == |res| || (r == 0 && size == ringEnd)
      ensures requestsLeft <= old(requestsLeft) && |net| <= |old(net)|
      ensures old(!Open() && 0 <= size <= ringEnd <= pos) ==> r == 0 && Same() && requestsLeft == old(requestsLeft)
      // How often it asks
      ensures ServingServer() && old(SizeFits() && !Overshot()) ==>
        old(requestsLeft) - requestsLeft <= |res| + |old(net)| - |net| + 2
      ensures ServingServer() && quiet && old(Endless() && connEof && ringEnd <= pos) ==> r == 0 && requestsLeft == 0
      ensures ServingServer() && UntellingServer() && quiet && old(Overshot() && ringEnd <= pos) ==>
        r == -1 || (r == 0 && requestsLeft == 0)
      ensures ServingServer() && quiet && old(seekable && size >= |res| > pos) && r == 0 ==> requestsLeft == 0
      ensures TellingServer() && old(SizeTold()) ==> SizeTold()
    {
      hide ConnValid, RingHolds, TruthfulServer, ServingServer, UntellingServer, TellingServer, Due;
      while ringEnd <= pos
        invariant ReadValid() && (old(lost) ==> lost) && ringStart <= pos
        invariant old(ringEnd) <= ringEnd && (ringEnd > old(ringEnd) ==> ringEnd <= |res|)
        invariant requestsLeft <= old(requestsLeft) && |net| <= |old(net)|
        invariant size == old(size) || size == |res|
        invariant old(!Open() && 0 <= size <= ringEnd <= pos) ==> Same() && requestsLeft == old(requestsLeft)
        invariant ServingServer() ==> seekable == old(seekable)
        invariant ServingServer() && old(SizeFits() && !Overshot()) ==> SizeFits() && !Overshot()
        invariant ServingServer() && old(SizeFits() && !Overshot()) ==>
          old(requestsLeft) - requestsLeft + old(Owed()) <= ringEnd - old(ringEnd) + |old(net)| - |net| + Owed()
        invariant ServingServer() && quiet && old(Endless() && connEof && ringEnd <= pos) ==> Same()
        invariant ServingServer() && UntellingServer() ==> size == old(size)
        invariant TellingServer() && old(SizeTold()) ==> SizeTold()
        decreases requestsLeft, pos + 1 - ringEnd
      {
        r := Turn();
        if r != 1 {
          return;
        }
      }
      return 1;
    }

    /** Asks again when the position is neither in the ring nor within reach: 1 to go on, or -1. */
    method Reposition() returns (r: int)
      requires Valid() && TruthfulServer() && !(ringStart <= pos < ringEnd) && (size < 0 || pos < size)
      modifies this`requestsLeft, this`raw, this`rawOff, this`wire, this`lost, this`connected, this`connPos
      modifies this`connEof
      modifies this`bodyLeft, this`chunked, this`chunkState, this`chunkLeft, this`seekable, this`size
      modifies this`ringStart, this`ringEnd
      ensures (if r == 1 then ReadValid() && ringStart <= pos else Valid()) && (old(lost) ==> lost) && r in {-1, 1}
      ensures old(requestsLeft) - 1 <= requestsLeft <= old(requestsLeft)
      ensures r == 1 ==> ringEnd <= pos
      ensures size == old(size) || size == |res| || (old(size) < 0 && size >= |res|)
      ensures ServingServer() && r == 1 && !old(Overshot()) ==> SizeFits() && !Overshot()
      ensures ServingServer() && r == 1 && old(seekable) ==> seekable
      ensures ServingServer() && r == -1 && old(seekable) ==> requestsLeft == old(requestsLeft) == 0
      ensures ServingServer() && r == 1 && old(seekable && !Reachable()) ==>
        ringEnd == pos && requestsLeft == old(requestsLeft) - 1 && (pos >= |res| ==> Refused(pos, old(size)))
      ensures ServingServer() && UntellingServer() && r == 1 && old(Overshot()) ==> Overshot()
      ensures TellingServer() && old(SizeTold()) ==> SizeTold()
    {
      hide ConnValid, RingHolds, TruthfulServer, ServingServer, UntellingServer, TellingServer, Due;
      RingLength(ring[..], res, ringStart, ringEnd);
      if Reachable() {
        return 1;
      }
      if !seekable && pos < ringStart {
        return -1;
      }
      if seekable || !connected || connEof {
        var ok := HttpRequest(pos);
        if !ok {
          return -1;
        }
        ringStart, ringEnd := connPos, connPos;
        EmptyRing(ring[..], res, connPos);
        if connPos > pos {
          return -1;
        }
      }
      return 1;
    }

    /** papp_stream_read: bytes of the resource at pos, 0 at its end, or -1. */
    method Read(buf: array<byte>, count: nat) returns (r: int)
      requires Valid() && TruthfulServer() && count <= buf.Length && buf != ring
      modifies this, ring, buf
      ensures Valid() && (old(lost) ==> lost)
      ensures -1 <= r <= count
      ensures r > 0 ==> pos == old(pos) + r <= |res| && buf[..r] == res[old(pos)..pos]
      ensures r <= 0 ==> pos == old(pos)
      // The end: told right, or given up by this very call
      ensures r == 0 ==> count == 0 || pos >= |res| || lost
      ensures r == 0 ==> count == 0 || 0 <= size <= pos
      ensures r == 0 && pos < |res| ==> count == 0 || old(0 <= size <= pos) || size == ringEnd
      ensures 0 <= size < |res| && size != old(size) ==> r == 0 && size == ringEnd
      ensures ServingServer() && quiet && old(seekable && size >= |res| > pos) && count > 0 && r == 0 ==>
        requestsLeft == 0
      ensures ServingServer() && quiet ==>
        old(seekable && |res| <= pos && size < 0 && !Reachable() && requestsLeft > 0) ==>
        r == 0 && size == pos && connEof && seekable && requestsLeft == old(requestsLeft) - 1
      // When it returns
      ensures ServingServer() && !old(Overshot()) ==>
        old(requestsLeft) - requestsLeft <= |res| + |old(net)| - |net| + 3
      ensures ServingServer() && quiet && old(Overshot() && !Reachable()) ==> requestsLeft == 0
      ensures ServingServer() && UntellingServer() && quiet && old(Overshot()) ==> r == -1 || requestsLeft == 0
      ensures ServingServer() && quiet && !old(Reachable()) && old(requestsLeft) > |res| + |old(net)| + 3 ==>
        (requestsLeft > 0 <==> !old(Overshot()))
      ensures TellingServer() && old(SizeTold()) ==> SizeTold()
    {
      hide ConnValid, RingHolds, TruthfulServer, ServingServer, UntellingServer, TellingServer;
      var aborted := Aborted();
      if aborted {
        return -1;
      }
      if size >= 0 && pos >= size {
        return 0;
      }
      var inRing := ringStart <= pos < ringEnd;
      RingWithin(ring[..], res, ringStart, ringEnd);
      if !inRing {
        r := Reposition();
        if r != 1 {
          return;
        }
        r := AdvanceTo();
        if r != 1 {
          return;
        }
      }
      if count == 0 {
        return 0;
      }
      r := CopyFromRing(buf, count);
    }

    /** The two memcpys out of the ring. */
    method CopyFromRing(buf: array<byte>, count: nat) returns (n: nat)
      requires Valid() && ringStart <= pos < ringEnd && 0 < count <= buf.Length && buf != ring
      modifies this`pos, buf
      ensures Valid() && 0 < n <= count
      ensures pos == old(pos) + n <= |res| && buf[..n] == res[old(pos)..pos]
    {
      hide ConnValid, RingHolds;
      RingLength(ring[..], res, ringStart, ringEnd);
      var have := ringEnd - pos;
      n := if count < have then count else have;
      RingSlice(ring[..], res, ringStart, ringEnd, pos, n);
      CopyAround(buf, Cell(pos), n);
      pos := pos + n;
    }

    /** n bytes from the ring's cell `at` on, around its end. */
    method CopyAround(buf: array<byte>, at: nat, n: nat)
      requires buf != ring && ring.Length == RING_BYTES && at < RING_BYTES && n <= RING_BYTES && n <= buf.Length
      modifies buf
      ensures var first := if RING_BYTES - at < n then RING_BYTES - at else n;
        buf[..n] == ring[..][at..at + first] + ring[..][..n - first]
    {
      var first := if RING_BYTES - at < n then RING_BYTES - at else n;
      CopyPart(buf, 0, at, first);
      if n > first {
        CopyPart(buf, first, 0, n - first);
      }
      assert buf[..n] == buf[..first] + buf[first..n];
      assert ring[..][at..at + first] == ring[at..at + first] && ring[..][..n - first] == ring[..n - first];
    }

    /** memcpy(buf + to, ring + at, n) */
    method CopyPart(buf: array<byte>, to: nat, at: nat, n: nat)
      requires buf != ring && to + n <= buf.Length && at + n <= ring.Length
      modifies buf
      ensures buf[to..to + n] == ring[at..at + n] && buf[..to] == old(buf[..to])
    {
      forall i | 0 <= i < n {
        buf[to + i] := ring[at + i];
      }
    }

    method Seek(newPos: int) returns (r: int)
      requires Valid()
      modifies this`pos
      ensures Valid()
      ensures r == if newPos < 0 || (!seekable && newPos < ringStart) then -1 else 0
      ensures pos == if r == 0 then newPos else old(pos)
    {
      if newPos < 0 {
        return -1;
      }
      if !seekable && newPos < ringStart {
        return -1;
      }
      pos := newPos;
      return 0;
    }

    /** The ring has the byte at offset k. */
    predicate Held(k: int) reads this`ringStart, this`ringEnd { ringStart <= k < ringEnd }

    /** papp_stream_prefetch: the read position stays, and so does all the ring held from it on and
        KEEP_BEHIND bytes before it. */
    method Prefetch()
      requires Valid()
      modifies this`net, this`raw, this`rawOff, this`wire, this`lost, this`connPos, this`connEof
      modifies this`bodyLeft, this`chunkState, this`chunkLeft, this`ringStart, this`ringEnd, ring
      ensures Valid() && (old(lost) ==> lost)
      ensures old(ringEnd) <= ringEnd && ringStart <= Max(old(ringStart), pos - KEEP_BEHIND)
      ensures forall k | pos - KEEP_BEHIND <= k && old(Held(k)) :: Held(k)
    {
      hide ConnValid, RingHolds;
      if !connected || connEof || connPos != ringEnd || pos < ringStart || pos > ringEnd {
        return;
      }
      var room := RING_BYTES - KEEP_BEHIND - (ringEnd - pos);
      if room <= 0 {
        return;
      }
      if room > PREFETCH_MOST {
        room := PREFETCH_MOST;
      }
      RingLength(ring[..], res, ringStart, ringEnd);
      var n := RingFill(room, false);
    }
  }

  // ---- A read that never returns ----

  const ONE_BYTE: seq<byte> := [7]

  /** Holds one byte, and does not give the size with it. */
  function OneByteServer(n: nat, from: nat): Answer
  {
    if from == 0 then Answer(206, 0, -1, 1, false, ONE_BYTE, []) else Answer(416, -1, -1, 0, false, [], [])
  }

  lemma OneByteServes(n: nat, from: nat)
    ensures var a := OneByteServer(n, from); Truthful(ONE_BYTE, from, a) && Serves(ONE_BYTE, from, a)
  {
    var a := OneByteServer(n, from);
    if from == 0 {
      assert CarriesFrom(a, ONE_BYTE, 0, 1);
      assert CarriesFrom(a, ONE_BYTE, RangeStart(a, from), 1);
    }
  }

  lemma OneByteKind(s: Stream)
    requires s.res == ONE_BYTE && s.server == OneByteServer
    ensures s.ServingServer() && s.UntellingServer()
  {
    forall n, from ensures Serves(s.res, from, s.server(n, from)) {
      OneByteServes(n, from);
    }
  }

  /** A read far past the end takes its position for the size; a read at the end then asks for as long as
      it is answered, whatever the budget of requests. */
  method AsksForEver(budget: nat) returns (s: Stream, first: int, left: nat, last: int)
    requires budget >= 2
    ensures fresh(s) && first == 0 && left == budget - 2 && s.requestsLeft == 0 && last <= 0
  {
    hide Stream.Valid, Stream.TruthfulServer, Stream.ServingServer, Stream.UntellingServer, Stream.TellingServer;
    hide Serves, Truthful, OneByteServer;
    forall n, from ensures Truthful(ONE_BYTE, from, OneByteServer(n, from)) {
      OneByteServes(n, from);
    }
    s := new Stream(ONE_BYTE, OneByteServer, false, true, budget, []);
    OneByteKind(s);
    var buf := new byte[1];
    var moved := s.Seek(300000);
    first := s.Read(buf, 1);
    moved := s.Seek(1);
    left := s.requestsLeft;
    assert s.Overshot() && !s.Reachable();
    last := s.Read(buf, 1);
  }
}
