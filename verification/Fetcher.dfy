/** The code of ports/netsurf/papp_http.c's fetches: polls, callbacks, aborts, retries and the pool of kept
    connections, over everything the network, the loader and NetSurf may do. Each step keeps
    `Connections.Inv`. What is outside the code is left open with `*`: what a socket or a lookup answers,
    how late it is, and what NetSurf does in a callback. */
module Fetcher {
  import opened Bytes
  import opened Wrappers
  import opened HttpFeed
  import opened ChunkCoding
  import opened Connections

  const MAX_READ_PER_POLL := 48 * 1024

  datatype Opened = Got | Refused | Busy

  /** What asking for the server's address brings (dns_cached, dns_start and dns_result). */
  datatype Lookup = Found | Begun | Looking | Unknown | TooLong

  /** What a callback, or anything else during a step of fetch `id`, leaves alone. */
  predicate Called(s: State, t: State, id: nat)
  {
    && s.list <= t.list && t.keep == s.keep && t.open == s.open && t.tlsOpen == s.tlsOpen
    && t.h.conns == s.h.conns && t.h.ledger == s.h.ledger && t.h.busy == s.h.busy
    && id in s.ctx && id in t.ctx && s.next <= t.next
    && t.ctx[id] == s.ctx[id].(started := t.ctx[id].started, aborted := t.ctx[id].aborted)
    && id in s.h.said && id in t.h.said && t.h.said[id] == s.h.said[id]
    && id in s.h.trips && id in t.h.trips && t.h.trips[id] == s.h.trips[id]
  }

  lemma CalledSelf(s: State, id: nat)
    requires Inv(s) && id in s.ctx
    ensures Called(s, s, id)
  {
    OnLastTrip(s, id);
    hide Inv;
  }

  lemma CalledAdd(s: State, t: State, id: nat, c: Ctx)
    requires Called(s, t, id) && t.next !in t.ctx
    ensures Called(s, Add(t, c), id)
  {}

  lemma CalledSet(s: State, t: State, id: nat, i: nat, c: Ctx)
    requires Called(s, t, id) && i in t.ctx && c == t.ctx[i].(started := c.started, aborted := c.aborted)
    ensures Called(s, SetCtx(t, i, c), id)
  {}

  /** A message sent, and what a callback leaves alone. */
  predicate Spoke(s: State, t: State, id: nat, msg: Msg)
  {
    && s.list <= t.list && t.keep == s.keep && t.open == s.open && t.tlsOpen == s.tlsOpen
    && t.h.conns == s.h.conns && t.h.ledger == s.h.ledger && t.h.busy == s.h.busy
    && id in s.ctx && id in t.ctx
    && t.ctx[id] == s.ctx[id].(started := t.ctx[id].started, aborted := t.ctx[id].aborted,
                               dead := t.ctx[id].dead, locked := false)
    && id in s.h.said && id in t.h.said && t.h.said[id] == s.h.said[id] + [msg]
    && id in s.h.trips && id in t.h.trips && t.h.trips[id] == s.h.trips[id]
  }

  lemma CloseMark(s: State, id: nat)
    requires Inv(s) && id in s.ctx && id in s.h.busy && (s.ctx[id].sock.Some? ==> s.ctx[id].gotBytes)
    ensures Inv(SetCtx(s, id, s.ctx[id].(r := s.ctx[id].r.(connClose := true))))
  {
    hide Inv;
    SetKeepsInv(s, id, s.ctx[id].(r := s.ctx[id].r.(connClose := true)));
  }

  /** A response that ends with the last piece of a receive ends with its last byte. */
  lemma EndsReceive(q: Request, r: Response, now: Response, p: seq<byte>, i: nat)
    requires i < |p| && now == EatAll(q, r, p[..i]) && now.final == None && IsPiece(now, p[i..])
    ensures NothingLeft(q, r, p)
  {
    PieceEndsLast(q, now, p[i..]);
    LeftInRest(q, r, p, i);
  }

  /** Bytes behind the end of a response change nothing. */
  lemma EatOver(q: Request, r: Response, p: seq<byte>, i: nat)
    requires i <= |p|
    ensures EatAll(q, r, p[..i]).final.Some? ==> EatAll(q, r, p) == EatAll(q, r, p[..i])
  {
    EatSplit(q, r, p, i);
    if EatAll(q, r, p[..i]).final.Some? { EatNoMore(q, EatAll(q, r, p[..i]), p[i..]); }
  }

  lemma EatNothing(q: Request, r: Response, p: seq<byte>)
    ensures EatAll(q, r, p[..0]) == r
  {}

  lemma CalledDead(s: State, t: State, u: State, id: nat, msg: Msg)
    requires id in s.ctx && !s.ctx[id].dead && t == SetCtx(s, id, s.ctx[id].(locked := true)) && id in t.h.said
    requires Called(Say(t, id, msg), u, id)
    ensures id in u.ctx && !u.ctx[id].dead
  {}

  lemma SpokeAfter(s: State, u: State, id: nat, msg: Msg, aborted: bool)
    requires Inv(s) && id in s.ctx && !s.ctx[id].dead && id in s.h.said && id in s.h.trips
    requires id in u.ctx && Called(Say(SetCtx(s, id, s.ctx[id].(locked := true)), id, msg), u, id)
    ensures Spoke(s, SetCtx(u, id, u.ctx[id].(locked := false, dead := aborted)), id, msg)
  {
    hide Inv;
  }

  predicate IsKept(keep: seq<Option<Kept>>, x: Handle, server: Server)
  {
    exists k | 0 <= k < |keep| :: keep[k].Some? && keep[k].value.handle == x && keep[k].value.server == server
  }

  lemma KeptHere(keep: seq<Option<Kept>>, k: nat)
    requires k < |keep| && keep[k].Some?
    ensures IsKept(keep, keep[k].value.handle, keep[k].value.server)
  {}

  /** The server keeps the connection open and nothing is left on it. */
  predicate Clean(c: Ctx) { !c.r.connClose && !c.trailing && c.r.body != ToClose && !c.request.proxy }

  /** NetSurf has been told a response, and once it is over how it ended; or it aborted the fetch. */
  predicate Passed(before: seq<Msg>, after: seq<Msg>, r: Response, now: Response, c: Ctx, more: bool)
  {
    || (!more && c.aborted)
    || (&& (Told(before, r) ==> Told(after, now))
        && (!more <==> now.final.Some?)
        && (!more ==> after != [] && after[|after| - 1] == Last(now.final.value)))
  }

  /** Body bytes that are delivered together. */
  predicate InBody(r: Response, p: seq<byte>)
  {
    && r.stage == Body && p != []
    && (r.body == ToClose || ((r.body == Length || (r.body == Chunks && r.chunk == ReadData)) && |p| <= r.remaining))
  }

  /** What the code takes at a time: a byte of the headers or the framing, or as much of the body as is there. */
  predicate IsPiece(r: Response, p: seq<byte>) { |p| == 1 || InBody(r, p) }

  /** How long the next piece of some bytes is. */
  function PieceLength(r: Response, left: nat): (n: nat)
    requires left > 0 && Reading(r) && r.final == None
    ensures 0 < n <= left && forall p: seq<byte> | |p| == n :: IsPiece(r, p)
  {
    if r.stage != Body || (r.body == Chunks && r.chunk != ReadData) then 1
    else if r.body == ToClose || left < r.remaining then left
    else r.remaining
  }

  /** At most one header line, or this piece of the body, more has been passed on. */
  predicate GrowsBy(r: Response, t: Response, p: seq<byte>)
  {
    || (t.headers == r.headers && (t.data == r.data || t.data == r.data + p))
    || (|t.headers| == |r.headers| + 1 && t.headers[..|r.headers|] == r.headers && t.data == r.data)
  }

  lemma EatOne(q: Request, r: Response, p: seq<byte>)
    requires |p| == 1
    ensures EatAll(q, r, p) == Eat(q, r, p[0])
  {
    hide Eat;
    assert p[1..] == [] && EatAll(q, Eat(q, r, p[0]), p[1..]) == Eat(q, r, p[0]);
  }

  /** A piece leaves something to be read, or the end. */
  lemma PieceFacts(q: Request, r: Response, p: seq<byte>)
    requires Reading(r) && r.final == None && IsPiece(r, p)
    ensures var t := EatAll(q, r, p); Reading(t) && GrowsBy(r, t, p)
  {
    hide Eat, EatAll;
    if InBody(r, p) {
      EatPiece(q, r, p);
    } else {
      EatOne(q, r, p);
      EatKeepsReading(q, r, p[0]);
      EatGrows(q, r, p[0]);
      assert p == [p[0]];
    }
  }

  /** Nothing ends before the last byte of a piece. */
  lemma PieceEndsLast(q: Request, r: Response, p: seq<byte>)
    requires r.final == None && IsPiece(r, p)
    ensures NothingLeft(q, r, p)
  {
    hide Eat;
    var front := p[..|p| - 1];
    if front != [] {
      EatPiece(q, r, front);
    }
  }

  lemma ToldGrown(said: seq<Msg>, was: Response, r: Response, p: seq<byte>)
    requires GrowsBy(was, r, p) && Told(said, was)
    ensures |r.headers| > |was.headers| ==> Told(said + [Header(r.headers[|r.headers| - 1])], r)
    ensures |r.headers| <= |was.headers| && |r.data| > |was.data| ==> Told(said + [Data(p)], r)
    ensures |r.headers| <= |was.headers| && |r.data| <= |was.data| ==> Told(said, r)
  {
    TellMore(said, Data(p));
    if |r.headers| > |was.headers| {
      TellMore(said, Header(r.headers[|r.headers| - 1]));
    }
  }

  /** Whether bytes are left over: at an empty line, unless a body takes them, and at the end of a body. */
  predicate Trailing(was: Response, now: Response, p: seq<byte>, left: nat, trailing: bool)
  {
    if now.final.Some? && was.stage == Body then left > 0
    else trailing || (was.stage != Body && p == [LF] && was.line == [] && left > 0)
  }

  /** A response that ends well and leaves nothing over ends with the last byte of its receive. */
  lemma CleanEnd(q: Request, was: Response, p: seq<byte>, left: nat, trailing: bool)
    requires was.final == None && IsPiece(was, p)
    ensures var now := EatAll(q, was, p);
      now.final.Some? && now.final.value in {Finished, NotModified} && !Trailing(was, now, p, left, trailing) ==>
        left == 0
  {
    if was.stage != Body {
      EatOne(q, was, p);
      if p[0] == LF { PoolsOnlyAtBlank(q, was, was.line); }
      assert p == [p[0]];
    }
    hide TakeLine, EatAll;
  }

  lemma PassedAborted(before: seq<Msg>, after: seq<Msg>, was: Response, now: Response, c: Ctx)
    requires c.aborted
    ensures Passed(before, after, was, now, c, false)
  {}

  lemma PassedOn(before: seq<Msg>, told: seq<Msg>, after: seq<Msg>, was: Response, now: Response, c: Ctx, more: bool)
    requires Told(before, was) ==> Told(told, now)
    requires more == (now.final == None) && after == if more then told else told + [Last(now.final.value)]
    ensures Passed(before, after, was, now, c, more)
  {
    if !more { ToldLast(told, now); }
    hide Told;
  }

  lemma ToldLast(said: seq<Msg>, r: Response)
    requires r.final.Some?
    ensures Told(said, r) ==> Told(said + [Last(r.final.value)], r)
  {
    TellMore(said, Last(r.final.value));
  }

  class Fetcher {
    var list: seq<nat>
    var ctx: map<nat, Ctx>
    var keep: seq<Option<Kept>>
    var tlsOpen: int
    var next: nat
    var polling: bool
    /** The loader's open handles. */
    var open: set<Handle>
    /** How many more fetches NetSurf will set up. */
    var toStart: nat
    ghost var h: History

    ghost function Now(): State
      reads this
    {
      State(list, ctx, keep, tlsOpen, next, open, h)
    }

    ghost predicate Valid()
      reads this
    {
      Inv(Now()) && h.busy == {}
    }

    constructor (toStart: nat)
      ensures Valid() && !polling
    {
      list, ctx, keep, tlsOpen, next, open := [], map[], seq(KEEP_MAX, i => None), 0, 0, {};
      this.toStart, polling := toStart, false;
      h := History(map[], [], map[], map[], map[], {}, {});
    }

    // ---- NetSurf's calls ----

    /** http_setup */
    method Setup(server: Server, request: Request, req: seq<byte>, handoff: bool)
      requires Inv(Now()) && toStart > 0
      modifies this`list, this`ctx, this`next, this`toStart, this`h
      ensures old(next) in ctx && NewFetch(ctx[old(next)]) && Now() == Add(old(Now()), ctx[old(next)]) && Inv(Now())
      ensures old(next) !in old(ctx) && toStart == old(toStart) - 1
    {
      hide Inv;
      var c := Ctx(server, request, req, handoff && !request.post, false, false, false, false,
                   Resolve, None, false, 0, false, EMPTY, false);
      ghost var s := Now();
      AddKeepsInv(s, c);
      ctx := ctx[next := c];
      list := list + [next];
      next, toStart := next + 1, toStart - 1;
      h := Add(s, c).h;
    }

    /** http_start */
    method Start(id: nat)
      requires Inv(Now()) && id in ctx
      modifies this`ctx
      ensures Now() == SetCtx(old(Now()), id, old(ctx[id]).(started := true)) && Inv(Now())
    {
      hide Inv;
      ghost var s := Now();
      ctx := ctx[id := ctx[id].(started := true)];
      FlagKeepsInv(s, id, ctx[id]);
    }

    /** Whatever NetSurf does when it is called back: it starts, sets up and aborts fetches. */
    method React(id: nat)
      requires Inv(Now()) && polling && id in ctx
      modifies this`list, this`ctx, this`next, this`toStart, this`h
      ensures Inv(Now()) && Called(old(Now()), Now(), id) && toStart + |list| == old(toStart + |list|)
    {
      hide Inv, Called;
      ghost var s := Now();
      CalledSelf(s, id);
      var n: nat := *;
      while n > 0
        invariant Inv(Now()) && Called(s, Now(), id) && toStart + |list| == old(toStart + |list|)
      {
        ghost var before := Now();
        var i: nat, what: nat := *, *;
        if what == 0 && toStart > 0 {
          var server: Server, request: Request, req: seq<byte>, handoff: bool := *, *, *, *;
          Setup(server, request, req, handoff);
          CalledAdd(s, before, id, ctx[before.next]);
        } else if what == 1 && i in ctx {
          Start(i);
          CalledSet(s, before, id, i, ctx[i]);
        } else if what == 2 && i in ctx {
          Mark(i);
          CalledSet(s, before, id, i, ctx[i]);
        }
        n := n - 1;
      }
    }

    /** http_abort during a poll: the poll loop cleans up. */
    method Mark(id: nat)
      requires Inv(Now()) && id in ctx
      modifies this`ctx
      ensures Now() == SetCtx(old(Now()), id, old(ctx[id]).(aborted := true)) && Inv(Now())
    {
      hide Inv;
      ghost var s := Now();
      ctx := ctx[id := ctx[id].(aborted := true)];
      FlagKeepsInv(s, id, ctx[id]);
    }

    // ---- Connections ----

    /** close_conn */
    method CloseConn(id: nat)
      requires Inv(Now()) && id in ctx && (id in h.busy || ctx[id].dead)
      modifies this`ctx, this`open, this`tlsOpen, this`h
      ensures Inv(Now()) && ctx == old(ctx[id := ctx[id].(sock := None)])
      ensures h.said == old(h.said) && h.trips == old(h.trips) && h.busy == old(h.busy)
      ensures old(ctx[id]).sock.Some? ==> FetchHasConnHere(old(Now()), id) && Now() == CloseFetch(old(Now()), id)
      ensures old(ctx[id]).sock == None ==> Now() == old(Now())
    {
      hide Inv;
      ghost var s := Now();
      if ctx[id].sock.Some? {
        CloseFetchKeepsInv(s, id);
        var x := ctx[id].sock.value;
        open := open - {x};
        if x.tls && tlsOpen > 0 {
          tlsOpen := tlsOpen - 1;
        }
        ctx := ctx[id := ctx[id].(sock := None)];
        h := CloseFetch(s, id).h;
      } else {
        assert ctx[id := ctx[id].(sock := None)] == ctx;
      }
    }

    /** keep_close */
    method KeepClose(k: nat)
      requires Inv(Now()) && k < |keep| && keep[k].Some?
      modifies this`keep, this`open, this`tlsOpen, this`h
      ensures Inv(Now()) && SlotHasConn(old(Now()), k) && Now() == CloseSlot(old(Now()), k)
      ensures |keep| == KEEP_MAX && h.busy == old(h.busy)
      ensures old(keep[k]).value.handle.tls ==> tlsOpen == old(tlsOpen) - 1
    {
      hide Inv;
      ghost var s := Now();
      SlotConn(s, k);
      CloseSlotKeepsInv(s, k);
      if keep[k].value.handle.tls { TlsPositive(s, k); }
      var x := keep[k].value.handle;
      open := open - {x};
      if x.tls && tlsOpen > 0 {
        tlsOpen := tlsOpen - 1;
      }
      keep := keep[k := None];
      h := CloseSlot(s, k).h;
    }

    /** drop_kept_tls: the oldest kept TLS connection is closed. */
    method DropKeptTls() returns (dropped: bool)
      requires Inv(Now())
      modifies this`keep, this`open, this`tlsOpen, this`h
      ensures Inv(Now()) && h.busy == old(h.busy) && h.said == old(h.said) && h.trips == old(h.trips)
      ensures h.asked == old(h.asked)
      ensures dropped ==> tlsOpen < TLS_MAX
      ensures dropped <==> exists k: nat | k < |old(keep)| :: old(keep)[k].Some? && old(keep)[k].value.handle.tls
      ensures !dropped ==> Now() == old(Now())
    {
      hide Inv;
      AtMostTls(Now());
      var oldest: Option<nat> := None;
      for k := 0 to |keep|
        invariant oldest.Some? ==> oldest.value < k && keep[oldest.value].Some? && keep[oldest.value].value.handle.tls
        invariant oldest == None ==> forall j: nat | j < k :: keep[j].Some? ==> !keep[j].value.handle.tls
      {
        if keep[k].Some? && keep[k].value.handle.tls
          && (oldest == None || keep[k].value.since < keep[oldest.value].value.since) {
          oldest := Some(k);
        }
      }
      if oldest == None {
        return false;
      }
      KeepClose(oldest.value);
      return true;
    }

    /** The slot keep_put uses: a free one, or the oldest. */
    method PickSlot() returns (slot: nat)
      requires |keep| == KEEP_MAX
      ensures slot < KEEP_MAX
      ensures keep[slot] == None ||
        forall k: nat | k < KEEP_MAX :: keep[k].Some? && keep[slot].value.since <= keep[k].value.since
    {
      slot := 0;
      var k := 0;
      while k < |keep| && keep[slot].Some?
        invariant 0 <= k <= |keep| && 0 <= slot < |keep|
        invariant keep[slot] == None
          || forall j: nat | j < k :: keep[j].Some? && keep[slot].value.since <= keep[j].value.since
      {
        if keep[k] == None || keep[k].value.since < keep[slot].value.since {
          slot := k;
        }
        k := k + 1;
      }
    }

    /** keep_put: into a free slot, or over the oldest. */
    method KeepPut(id: nat)
      requires Inv(Now()) && id in ctx && ctx[id].sock.Some? && id in h.busy
      modifies this`ctx, this`keep, this`open, this`tlsOpen, this`h
      ensures Inv(Now()) && ctx == old(ctx[id := ctx[id].(sock := None)])
      ensures h.said == old(h.said) && h.trips == old(h.trips) && h.busy == old(h.busy)
      ensures old(ctx[id]).sock.value in open && IsKept(keep, old(ctx[id]).sock.value, old(ctx[id]).server)
    {
      hide Inv, IsKept;
      SlotCount(Now());
      var slot := PickSlot();
      if keep[slot].Some? {
        KeepClose(slot);
      }
      ghost var s := Now();
      var since: int := *;
      GiveSlotKeepsInv(s, id, slot, since);
      keep := keep[slot := Some(Kept(ctx[id].sock.value, ctx[id].server, since))];
      ctx := ctx[id := ctx[id].(sock := None)];
      h := GiveSlot(s, id, slot, since).h;
      SlotOpen(Now(), slot);
      KeptHere(keep, slot);
    }

    /** keep_take: a kept connection to the fetch's server. */
    method KeepTake(id: nat) returns (taken: bool)
      requires Inv(Now()) && Waiting(Now(), id) && !ctx[id].request.post
      modifies this`ctx, this`keep, this`h
      ensures Inv(Now())
      ensures taken ==> id in ctx && h.busy == old(h.busy)
      ensures taken ==> ctx[id] == old(ctx[id]).(sock := ctx[id].sock, reused := true, phase := Send)
      ensures taken ==> exists k: nat :: CanTake(old(Now()), id, k) && Now() == TakeSlot(old(Now()), id, k)
      ensures !taken ==> Now() == old(Now())
      ensures !taken ==> forall k: nat | k < |keep| :: keep[k].Some? ==>
        !SameServer(keep[k].value.server, ctx[id].server)
    {
      hide Inv;
      var k := 0;
      while k < |keep|
        invariant 0 <= k <= |keep|
        invariant forall j: nat | j < k :: keep[j].Some? ==> !SameServer(keep[j].value.server, ctx[id].server)
      {
        if keep[k].Some? && SameServer(keep[k].value.server, ctx[id].server) {
          ghost var s := Now();
          SlotConn(s, k);
          TakeSlotKeepsInv(s, id, k);
          var x := keep[k].value.handle;
          keep := keep[k := None];
          ctx := ctx[id := ctx[id].(sock := Some(x), reused := true, phase := Send)];
          h := TakeSlot(s, id, k).h;
          return true;
        }
        k := k + 1;
      }
      return false;
    }

    /** keep_check: kept connections that idled too long, or that the server closed. */
    method KeepCheck()
      requires Inv(Now())
      modifies this`keep, this`open, this`tlsOpen, this`h
      ensures Inv(Now()) && h.busy == old(h.busy)
    {
      hide Inv;
      SlotCount(Now());
      var k := 0;
      while k < KEEP_MAX
        invariant Inv(Now()) && h.busy == old(h.busy) && 0 <= k && |keep| == KEEP_MAX
      {
        var stale: bool := *;
        if keep[k].Some? && stale {
          KeepClose(k);
        }
        k := k + 1;
      }
    }

    /** The transport's open: at most TLS_MAX sessions, a kept one given up for a new one. */
    method Open(id: nat) returns (r: Opened)
      requires Inv(Now()) && Waiting(Now(), id) && !ctx[id].reused
      modifies this`ctx, this`keep, this`open, this`tlsOpen, this`h
      ensures Inv(Now()) && h.busy == old(h.busy)
      ensures r == Got ==>
        id in ctx && ctx[id] == old(ctx[id]).(sock := ctx[id].sock, phase := Connecting) && ctx[id].sock.Some?
      ensures r != Got ==> ctx == old(ctx) && h.said == old(h.said) && h.trips == old(h.trips)
      ensures r == Busy ==> Now() == old(Now()) && ctx[id].server.tls && tlsOpen == TLS_MAX
      ensures r == Busy ==> forall k: nat | k < |keep| :: keep[k].Some? ==> !keep[k].value.handle.tls
    {
      hide Inv;
      AtMostTls(Now());
      var c := ctx[id];
      if c.server.tls && tlsOpen >= TLS_MAX {
        var dropped := DropKeptTls();
        if !dropped {
          return Busy;
        }
      }
      var n: int := *;
      if n < 0 || Handle(c.server.tls, n) in open {
        return Refused;
      }
      var x := Handle(c.server.tls, n);
      ghost var s := Now();
      OpenForKeepsInv(s, id, x);
      open := open + {x};
      if x.tls {
        tlsOpen := tlsOpen + 1;
      }
      ctx := ctx[id := c.(sock := Some(x), phase := Connecting)];
      h := OpenFor(s, id, x).h;
      return Got;
    }

    // ---- Messages to NetSurf ----

    /** send_msg: false when NetSurf aborted the fetch from inside the callback. */
    method SendMsg(id: nat, msg: Msg) returns (ok: bool)
      requires Inv(Now()) && polling && id in ctx && !ctx[id].dead && !ctx[id].aborted
      requires id in h.said && NoLast(h.said[id]) && (msg.Last? ==> id in h.busy)
      modifies this`list, this`ctx, this`next, this`toStart, this`h
      ensures Inv(Now()) && Spoke(old(Now()), Now(), id, msg) && toStart + |list| == old(toStart + |list|)
      ensures ok == !ctx[id].dead && ctx[id].dead == ctx[id].aborted
    {
      hide Inv, NoLast, Called, Spoke;
      ghost var s := Now();
      OnLastTrip(s, id);
      ctx := ctx[id := ctx[id].(locked := true)];
      FlagKeepsInv(s, id, ctx[id]);
      ghost var t := Now();
      SayKeepsInv(t, id, msg);
      h := Say(t, id, msg).h;
      React(id);
      ghost var u := Now();
      CalledDead(s, t, u, id, msg);
      SpokeAfter(s, u, id, msg, ctx[id].aborted);
      ctx := ctx[id := ctx[id].(locked := false, dead := ctx[id].aborted)];
      FlagKeepsInv(u, id, ctx[id]);
      return !ctx[id].dead;
    }

    /** finish_with: the connection is closed and the last message sent. */
    method FinishWith(id: nat, final: Final)
      requires Inv(Now()) && polling && id in ctx && !ctx[id].dead && !ctx[id].aborted && h.busy <= {id}
      requires id in h.said && NoLast(h.said[id])
      modifies this`list, this`ctx, this`next, this`toStart, this`open, this`tlsOpen, this`h
      ensures Inv(Now()) && h.busy == {} && id in ctx && ctx[id].dead && ctx[id].sock == None
      ensures old(list) <= list && toStart + |list| == old(toStart + |list|)
      ensures id in h.said && h.said[id] == old(h.said[id]) + [Last(final)]
      ensures open == old(if ctx[id].sock.Some? then open - {ctx[id].sock.value} else open)
    {
      hide Inv, NoLast;
      ghost var s := Now();
      BeginKeepsInv(s, id);
      h := Begin(s, id).h;
      CloseConn(id);
      var ok := SendMsg(id, Last(final));
      ghost var t := Now();
      ctx := ctx[id := ctx[id].(dead := true)];
      FlagKeepsInv(t, id, ctx[id]);
      ghost var u := Now();
      OnLastTrip(u, id);
      SettleKeepsInv(u, id);
      h := Settle(u, id).h;
    }

    /** body_done and the 304 in headers_done: a connection with nothing left on it is kept. */
    method Complete(id: nat, final: Final)
      requires Inv(Now()) && polling && id in ctx && !ctx[id].dead && !ctx[id].aborted && h.busy == {id}
      requires ctx[id].sock.Some?
      requires id in h.said && NoLast(h.said[id])
      modifies this`list, this`ctx, this`next, this`toStart, this`keep, this`open, this`tlsOpen, this`h
      ensures Inv(Now()) && h.busy == {} && id in ctx && ctx[id].dead && ctx[id].sock == None
      ensures old(list) <= list && toStart + |list| == old(toStart + |list|)
      ensures id in h.said && h.said[id] == old(h.said[id]) + [Last(final)]
      ensures old(ctx[id]).sock.value in open <==> Clean(old(ctx[id]))
    {
      hide Inv, NoLast;
      var c := ctx[id];
      if Clean(c) {
        KeepPut(id);
      }
      FinishWith(id, final);
    }

    /** retry_fresh: on a new connection, when a kept one never answered. */
    method RetryFresh(id: nat) returns (again: bool)
      requires Inv(Now()) && id in ctx && !ctx[id].dead && h.busy == {} && ctx[id].sock.Some?
      modifies this`ctx, this`open, this`tlsOpen, this`h
      ensures Inv(Now()) && h.busy == {} && again == old(ctx[id].reused && !ctx[id].gotBytes)
      ensures again ==> ctx == old(ctx[id := ctx[id].(sock := None, reused := false, reqSent := 0, phase := Resolve)])
      ensures !again ==> Now() == old(Now())
      ensures again ==> open == old(open) - {old(ctx[id]).sock.value}
    {
      hide Inv;
      if !ctx[id].reused || ctx[id].gotBytes {
        return false;
      }
      ghost var s := Now();
      StillUnheard(s, id);
      OnLastTrip(s, id);
      BeginKeepsInv(s, id);
      h := Begin(s, id).h;
      CloseConn(id);
      ghost var t := Now();
      ctx := ctx[id := ctx[id].(reused := false, reqSent := 0, phase := Resolve)];
      RewindKeepsInv(t, id);
      ghost var u := Now();
      SettleKeepsInv(u, id);
      h := Settle(u, id).h;
      return true;
    }

    /** closed_by_server: again, the end of the body, or a failure. */
    method ClosedByServer(id: nat)
      requires Running(id)
      requires ctx[id].sock.Some?
      modifies this`list, this`ctx, this`next, this`toStart, this`keep, this`open, this`tlsOpen, this`h
      ensures Inv(Now()) && h.busy == {} && old(list) <= list && toStart + |list| == old(toStart + |list|)
      ensures if old(ctx[id].reused && !ctx[id].gotBytes) then Again(id)
        else Ended(id, if old(ctx[id].r.stage) == Body then Finished else Failed("closed the connection"))
      ensures old(ctx[id]).sock.value !in open
    {
      hide Inv, NoLast;
      SockOpen(Now(), id);
      var again := RetryFresh(id);
      if again {
        return;
      }
      if ctx[id].r.stage == Body {
        EndBody(id);
      } else {
        Fail(id, "closed the connection");
      }
    }

    /** The connection's end is the body's: it is not kept. */
    method EndBody(id: nat)
      requires Running(id) && ctx[id].sock.Some? && ctx[id].r.stage == Body
      modifies this`list, this`ctx, this`next, this`toStart, this`keep, this`open, this`tlsOpen, this`h
      ensures Inv(Now()) && h.busy == {} && old(list) <= list && toStart + |list| == old(toStart + |list|)
      ensures Ended(id, Finished) && old(ctx[id]).sock.value !in open
    {
      hide Inv, NoLast;
      ghost var s := Now();
      OnLastTrip(s, id);
      BeginKeepsInv(s, id);
      h := Begin(s, id).h;
      ghost var t := Now();
      ctx := ctx[id := ctx[id].(r := ctx[id].r.(connClose := true))];
      CloseMark(t, id);
      Complete(id, Finished);
    }

    /** A fetch that is over, with this its last message. */
    ghost predicate Ended(id: nat, final: Final)
      reads this
    {
      && id in ctx && ctx[id].dead && ctx[id].sock == None
      && id in h.said && h.said[id] != [] && h.said[id][|h.said[id]| - 1] == Last(final)
    }

    /** A fetch that begins its request again, on a new connection. */
    ghost predicate Again(id: nat)
      reads this
    {
      id in ctx && !ctx[id].dead && ctx[id].phase == Resolve && ctx[id].sock == None && ctx[id].reqSent == 0
    }

    /** A fetch that is being stepped. */
    ghost predicate Running(id: nat)
      reads this
    {
      Inv(Now()) && polling && h.busy == {} && id in ctx && !ctx[id].dead && !ctx[id].aborted
    }

    /** Something came back on the connection. */
    method Hear(id: nat)
      requires Running(id) && ctx[id].sock.Some?
      modifies this`ctx, this`h
      ensures Running(id) && ctx == old(ctx[id := ctx[id].(gotBytes := true)]) && h.said == old(h.said)
      ensures id in h.said
    {
      hide Inv, NoLast, Reading;
      ghost var s := Now();
      OnLastTrip(s, id);
      TravelKeepsInv(s, id, ctx[id].reqSent, true);
      ctx := ctx[id := ctx[id].(gotBytes := true)];
      h := Travel(s, id, ctx[id].reqSent, true).h;
    }

    /** feed: the response and the fetch's messages, for what one receive brought. */
    method Feed(id: nat, p: seq<byte>) returns (more: bool)
      requires Running(id) && ctx[id].phase == Receive && p != []
      modifies this`list, this`ctx, this`next, this`toStart, this`keep, this`open, this`tlsOpen, this`h
      ensures Inv(Now()) && h.busy == {} && old(list) <= list && toStart + |list| == old(toStart + |list|)
      ensures id in ctx && more == !ctx[id].dead
      ensures more ==> !ctx[id].aborted && ctx[id].phase == Receive
      ensures more ==> ctx[id].r == EatAll(old(ctx[id].request), old(ctx[id].r), p)
      ensures id in old(h.said) && id in h.said
      ensures Passed(old(h.said[id]), h.said[id], old(ctx[id].r), EatAll(old(ctx[id].request), old(ctx[id].r), p),
                     ctx[id], more)
      ensures old(ctx[id]).sock.Some?
      ensures !more && !ctx[id].aborted && old(ctx[id]).sock.value in open ==>
        NothingLeft(old(ctx[id].request), old(ctx[id].r), p)
    {
      hide Inv, NoLast, Reading, EatAll, Told, IsPiece, PieceLength, NothingLeft;
      ghost var r0 := ctx[id].r;
      OnLastTrip(Now(), id);
      Hear(id);
      var i := 0;
      EatNothing(ctx[id].request, r0, p);
      while i < |p|
        invariant 0 <= i <= |p| && Running(id) && old(list) <= list && toStart + |list| == old(toStart + |list|)
        invariant ctx[id].phase == Receive && ctx[id].gotBytes && ctx[id].request == old(ctx[id].request)
        invariant ctx[id].sock == old(ctx[id].sock) && (i > 0 ==> EatAll(ctx[id].request, r0, p[..i]).final == None)
        invariant ctx[id].r == EatAll(ctx[id].request, r0, p[..i])
        invariant id in h.said && (old(Told(h.said[id], ctx[id].r)) ==> Told(h.said[id], ctx[id].r))
      {
        OnLastTrip(Now(), id);
        var n := PieceLength(ctx[id].r, |p| - i);
        EatNext(ctx[id].request, r0, p, i, n);
        EatOver(ctx[id].request, r0, p, i + n);
        ghost var before := ctx[id].r;
        i := i + n;
        more := Take(id, p[i - n..i], |p| - i);
        if !more {
          if i == |p| { EndsReceive(old(ctx[id].request), r0, before, p, i - n); }
          return;
        }
      }
      assert p[..i] == p;
      OnLastTrip(Now(), id);
      return true;
    }

    /** One piece of the response; `left` more bytes came with it. */
    method Take(id: nat, p: seq<byte>, left: nat) returns (more: bool)
      requires Running(id) && ctx[id].phase == Receive && ctx[id].gotBytes && IsPiece(ctx[id].r, p)
      modifies this`list, this`ctx, this`next, this`toStart, this`keep, this`open, this`tlsOpen, this`h
      ensures Inv(Now()) && h.busy == {} && old(list) <= list && toStart + |list| == old(toStart + |list|)
      ensures id in ctx && more == !ctx[id].dead && (more ==> !ctx[id].aborted)
      ensures more ==> ctx[id].phase == Receive && ctx[id].gotBytes && ctx[id].request == old(ctx[id].request)
      ensures more ==> ctx[id].r == EatAll(old(ctx[id].request), old(ctx[id].r), p)
      ensures id in old(h.said) && id in h.said
      ensures Passed(old(h.said[id]), h.said[id], old(ctx[id].r), EatAll(old(ctx[id].request), old(ctx[id].r), p),
                     ctx[id], more)
      ensures old(ctx[id]).sock.Some? && (more ==> ctx[id].sock == old(ctx[id].sock))
      ensures !more && !ctx[id].aborted && old(ctx[id]).sock.value in open ==> left == 0
    {
      hide Inv, NoLast, Reading, EatAll, Told, Trailing, GrowsBy, Passed, IsPiece;
      OnLastTrip(Now(), id);
      var q, was := ctx[id].request, ctx[id].r;
      ghost var before := h.said[id];
      var r := EatAll(q, was, p);
      PieceFacts(q, was, p);
      more := TellGrown(id, r, p);
      if !more {
        PassedAborted(before, h.said[id], was, r, ctx[id]);
        return;
      }
      ghost var told := h.said[id];
      var trailing := Trailing(was, r, p, left, ctx[id].trailing);
      CleanEnd(q, was, p, left, ctx[id].trailing);
      more := Record(id, r, trailing);
      PassedOn(before, told, h.said[id], was, r, ctx[id], more);
    }

    /** The header line or the piece of the body by which the response grows to `r`. */
    method TellGrown(id: nat, r: Response, p: seq<byte>) returns (ok: bool)
      requires Running(id) && GrowsBy(ctx[id].r, r, p)
      modifies this`list, this`ctx, this`next, this`toStart, this`h
      ensures Inv(Now()) && h.busy == {} && old(list) <= list && toStart + |list| == old(toStart + |list|)
      ensures id in ctx && ok == !ctx[id].dead == !ctx[id].aborted
      ensures ok ==> ctx[id] == old(ctx[id]).(started := ctx[id].started, locked := ctx[id].locked)
      ensures id in old(h.said) && id in h.said && (Told(old(h.said[id]), old(ctx[id].r)) ==> Told(h.said[id], r))
    {
      hide Inv, NoLast, Told, GrowsBy, Reading;
      OnLastTrip(Now(), id);
      var was := ctx[id].r;
      if Told(h.said[id], was) { ToldGrown(h.said[id], was, r, p); }
      if |r.headers| <= |was.headers| && |r.data| <= |was.data| {
        return true;
      }
      var msg := if |r.headers| > |was.headers| then Header(r.headers[|r.headers| - 1]) else Data(p);
      ok := Tell(id, msg);
    }

    /** A message that is not the last one. */
    method Tell(id: nat, msg: Msg) returns (ok: bool)
      requires Running(id) && !msg.Last?
      modifies this`list, this`ctx, this`next, this`toStart, this`h
      ensures Inv(Now()) && h.busy == {} && old(list) <= list && toStart + |list| == old(toStart + |list|)
      ensures id in ctx && ok == !ctx[id].dead == !ctx[id].aborted
      ensures ok ==> ctx[id] == old(ctx[id]).(started := ctx[id].started, locked := false)
      ensures id in old(h.said) && id in h.said && h.said[id] == old(h.said[id]) + [msg]
    {
      hide Inv, NoLast;
      OnLastTrip(Now(), id);
      ok := SendMsg(id, msg);
    }

    /** The response after a byte, and the end of the fetch when that was the last one. */
    method Record(id: nat, r: Response, trailing: bool) returns (more: bool)
      requires Running(id) && ctx[id].phase == Receive && ctx[id].gotBytes && Reading(r)
      modifies this`list, this`ctx, this`next, this`toStart, this`keep, this`open, this`tlsOpen, this`h
      ensures Inv(Now()) && h.busy == {} && old(list) <= list && toStart + |list| == old(toStart + |list|)
      ensures id in ctx && more == !ctx[id].dead
      ensures more ==> ctx == old(ctx[id := ctx[id].(r := r, trailing := trailing)])
      ensures more == (r.final == None) && id in old(h.said) && id in h.said
      ensures h.said[id] == if more then old(h.said[id]) else old(h.said[id]) + [Last(r.final.value)]
      ensures old(ctx[id]).sock.Some?
      ensures !more && old(ctx[id]).sock.value in open ==> r.final.value in {Finished, NotModified} && !trailing
    {
      hide Inv, NoLast, Reading;
      ghost var t := Now();
      OnLastTrip(t, id);
      if r.final == None {
        ctx := ctx[id := ctx[id].(r := r, trailing := trailing)];
        SetKeepsInv(t, id, ctx[id]);
        return true;
      }
      BeginKeepsInv(t, id);
      h := Begin(t, id).h;
      ghost var u := Now();
      ctx := ctx[id := ctx[id].(r := r, trailing := trailing)];
      SetKeepsInv(u, id, ctx[id]);
      if r.final.value == Finished || r.final.value == NotModified {
        Complete(id, r.final.value);
      } else {
        FinishWith(id, r.final.value);
      }
      return false;
    }

    // ---- One step of a fetch ----

    method Fail(id: nat, why: string)
      requires Running(id)
      modifies this`list, this`ctx, this`next, this`toStart, this`open, this`tlsOpen, this`h
      ensures Inv(Now()) && h.busy == {} && old(list) <= list && toStart + |list| == old(toStart + |list|)
      ensures id in ctx && Ended(id, Failed(why))
      ensures open == old(if ctx[id].sock.Some? then open - {ctx[id].sock.value} else open)
    {
      hide Inv, NoLast;
      OnLastTrip(Now(), id);
      FinishWith(id, Failed(why));
    }

    method SetPhase(id: nat, phase: Phase)
      requires Running(id) && (HasConn(phase) <==> HasConn(ctx[id].phase))
      modifies this`ctx
      ensures Running(id) && ctx == old(ctx[id := ctx[id].(phase := phase)])
    {
      hide Inv, NoLast, Reading;
      ghost var s := Now();
      OnLastTrip(s, id);
      ctx := ctx[id := ctx[id].(phase := phase)];
      SetKeepsInv(s, id, ctx[id]);
    }

    /** ST_RESOLVE; true to go on to the next state. */
    method StepResolve(id: nat, services: bool, lookup: Lookup) returns (on: bool)
      requires Running(id) && ctx[id].phase == Resolve
      modifies this`list, this`ctx, this`next, this`toStart, this`keep, this`open, this`tlsOpen, this`h
      ensures Inv(Now()) && h.busy == {} && old(list) <= list && toStart + |list| == old(toStart + |list|)
      ensures id in ctx && (on ==> services && !ctx[id].dead && !ctx[id].aborted && ctx[id].phase in {Connect, Send})
      ensures on && ctx[id].phase == Connect ==> lookup == Found && !ctx[id].reused
      ensures on && ctx[id].phase == Send ==> ctx[id].reused && !ctx[id].request.post && !ctx[id].request.proxy
      ensures !services ==> Ended(id, Failed("no services for this"))
      ensures !on && services ==> lookup != Found
      ensures !on && services && lookup == Looking ==> Now() == old(Now())
      ensures !on && services && lookup == Unknown ==> Ended(id, Failed("could not find the server"))
      ensures !on && services && lookup == TooLong ==> Ended(id, Failed("looking up timed out"))
    {
      hide Inv, NoLast, TakeSlot, CanTake, SameServer, Ended;
      if !services {
        Fail(id, "no services for this");
        return false;
      }
      OnLastTrip(Now(), id);
      if !ctx[id].request.post && !ctx[id].request.proxy {
        var taken := KeepTake(id);
        if taken {
          return true;
        }
      }
      on := StepLookup(id, lookup);
    }

    /** ST_RESOLVE without a kept connection */
    method StepLookup(id: nat, lookup: Lookup) returns (on: bool)
      requires Running(id) && ctx[id].phase == Resolve
      modifies this`list, this`ctx, this`next, this`toStart, this`open, this`tlsOpen, this`h
      ensures Inv(Now()) && h.busy == {} && old(list) <= list && toStart + |list| == old(toStart + |list|)
      ensures id in ctx && on == (lookup == Found)
      ensures on ==> !ctx[id].dead && !ctx[id].aborted && ctx[id].phase == Connect && !ctx[id].reused
      ensures lookup == Looking ==> Now() == old(Now())
      ensures lookup == Unknown ==> Ended(id, Failed("could not find the server"))
      ensures lookup == TooLong ==> Ended(id, Failed("looking up timed out"))
    {
      hide Inv, NoLast;
      OnLastTrip(Now(), id);
      match lookup {
        case Found => SetPhase(id, Connect); return true;
        case Begun => var ok := Tell(id, Progress); return false;
        case Looking => return false;
        case Unknown => Fail(id, "could not find the server"); return false;
        case TooLong => Fail(id, "looking up timed out"); return false;
      }
    }

    /** ST_CONNECT; `late` when the time to wait for a session or to retry is over. */
    method StepConnect(id: nat, late: bool) returns (on: bool)
      requires Running(id) && ctx[id].phase == Connect
      modifies this`list, this`ctx, this`next, this`toStart, this`keep, this`open, this`tlsOpen, this`h
      ensures Inv(Now()) && h.busy == {} && old(list) <= list && toStart + |list| == old(toStart + |list|)
      ensures on ==> id in ctx && !ctx[id].dead && !ctx[id].aborted && ctx[id].phase == Connecting
      ensures !on ==> id in ctx && (ctx[id].dead || (!late && ctx == old(ctx)))
    {
      hide Inv, NoLast;
      OnLastTrip(Now(), id);
      var got := Open(id);
      if got != Got {
        if late {
          Fail(id, "no connection in time");
        }
        return false;
      }
      on := Tell(id, Progress);
    }

    /** ST_CONNECTING; `ready` as the transport says. */
    method StepConnecting(id: nat, ready: int, late: bool) returns (on: bool)
      requires Running(id) && ctx[id].phase == Connecting
      modifies this`list, this`ctx, this`next, this`toStart, this`open, this`tlsOpen, this`h
      ensures Inv(Now()) && h.busy == {} && old(list) <= list && toStart + |list| == old(toStart + |list|)
      ensures id in ctx && on == (ready > 0)
      ensures on ==> ctx == old(ctx[id := ctx[id].(phase := Send)])
      ensures ready < 0 ==> Ended(id, Failed("could not connect"))
      ensures ready == 0 && late ==> Ended(id, Failed("connecting timed out"))
      ensures ready == 0 && !late ==> Now() == old(Now())
    {
      hide Inv;
      if ready < 0 {
        Fail(id, "could not connect");
        return false;
      }
      if ready == 0 {
        if late {
          Fail(id, "connecting timed out");
        }
        return false;
      }
      SetPhase(id, Send);
      return true;
    }

    /** The connection is lost: again on a new one, or the end. */
    method Lost(id: nat)
      requires Running(id) && ctx[id].sock.Some?
      modifies this`list, this`ctx, this`next, this`toStart, this`open, this`tlsOpen, this`h
      ensures Inv(Now()) && h.busy == {} && old(list) <= list && toStart + |list| == old(toStart + |list|)
      ensures if old(ctx[id].reused && !ctx[id].gotBytes) then Again(id) else Ended(id, Failed("lost the connection"))
    {
      hide Inv;
      var again := RetryFresh(id);
      if !again {
        Fail(id, "lost the connection");
      }
    }

    /** ST_SEND; `late` when nothing was taken for too long. */
    method StepSend(id: nat, late: bool) returns (on: bool)
      requires Running(id) && ctx[id].phase == Send
      modifies this`list, this`ctx, this`next, this`toStart, this`open, this`tlsOpen, this`h
      ensures Inv(Now()) && h.busy == {} && old(list) <= list && toStart + |list| == old(toStart + |list|)
      ensures id in ctx && (on ==> !ctx[id].dead && !ctx[id].aborted && ctx[id].phase == Receive)
      ensures on ==> ctx[id].reqSent == |ctx[id].req|
      ensures !on ==>
        || Again(id) || Ended(id, Failed("lost the connection")) || Ended(id, Failed("sending timed out"))
        || (!late && id in ctx && ctx[id].phase == Send && ctx[id].reqSent < |ctx[id].req|)
      ensures Again(id) ==> old(ctx[id].reused && !ctx[id].gotBytes)
    {
      hide Inv, NoLast;
      OnLastTrip(Now(), id);
      while ctx[id].reqSent < |ctx[id].req|
        invariant Running(id) && ctx[id].phase == Send && ctx[id].sock.Some? && ctx[id].reqSent <= |ctx[id].req|
        invariant ctx[id].reused == old(ctx[id].reused) && ctx[id].gotBytes == old(ctx[id].gotBytes)
        invariant old(list) == list && toStart == old(toStart)
        decreases |ctx[id].req| - ctx[id].reqSent
      {
        var n: int := *;
        if n < 0 {
          Lost(id);
          return false;
        }
        if n == 0 {
          break;
        }
        var sent := ctx[id].reqSent + n;
        if sent > |ctx[id].req| {
          sent := |ctx[id].req|;
        }
        SendTo(id, sent);
      }
      if ctx[id].reqSent < |ctx[id].req| {
        if late {
          Fail(id, "sending timed out");
        }
        return false;
      }
      SetPhase(id, Receive);
      return true;
    }

    /** The connection takes the request up to `sent`. */
    method SendTo(id: nat, sent: nat)
      requires Running(id) && ctx[id].sock.Some? && ctx[id].reqSent <= sent <= |ctx[id].req|
      modifies this`ctx, this`h
      ensures Running(id) && ctx == old(ctx[id := ctx[id].(reqSent := sent)])
      ensures id in h.trips && h.trips[id] != [] && h.trips[id][|h.trips[id]| - 1].sent == ctx[id].req[..sent]
      ensures id in old(h.trips) && old(h.trips[id]) != []
      ensures old(h.trips[id])[|old(h.trips[id])| - 1].sent + ctx[id].req[old(ctx[id].reqSent)..sent] ==
        ctx[id].req[..sent]
    {
      hide Inv, NoLast;
      ghost var s := Now();
      OnLastTrip(s, id);
      TravelKeepsInv(s, id, sent, ctx[id].gotBytes);
      ctx := ctx[id := ctx[id].(reqSent := sent)];
      h := Travel(s, id, sent, ctx[id].gotBytes).h;
      SentSoFar(s, id);
      SentSoFar(Now(), id);
      assert s.ctx[id].req[..s.ctx[id].reqSent] + s.ctx[id].req[s.ctx[id].reqSent..sent] == s.ctx[id].req[..sent];
    }

    /** ST_STATUS, ST_HEADERS and ST_BODY; `late` when nothing came for too long. */
    method StepReceive(id: nat, late: bool)
      requires Running(id) && ctx[id].phase == Receive
      modifies this`list, this`ctx, this`next, this`toStart, this`keep, this`open, this`tlsOpen, this`h
      ensures Inv(Now()) && h.busy == {} && old(list) <= list && toStart + |list| == old(toStart + |list|)
      ensures id in ctx && (ctx[id].dead || Again(id) || (!late && ctx[id].phase == Receive))
    {
      hide Inv, NoLast;
      var total := 0;
      while total < MAX_READ_PER_POLL
        invariant Running(id) && ctx[id].phase == Receive && old(list) <= list
        invariant toStart + |list| == old(toStart + |list|)
      {
        OnLastTrip(Now(), id);
        var n: int, p: seq<byte> := *, *;
        if n == -2 {
          break;
        }
        if n < 0 {
          Lost(id);
          return;
        }
        if p == [] {
          ClosedByServer(id);
          return;
        }
        total := total + |p|;
        var more := Feed(id, p);
        if !more {
          return;
        }
      }
      if late {
        Fail(id, "stopped sending");
      }
    }

    /** step: through the states as far as they go. */
    method Step(id: nat)
      requires Running(id)
      modifies this`list, this`ctx, this`next, this`toStart, this`keep, this`open, this`tlsOpen, this`h
      ensures Inv(Now()) && h.busy == {} && old(list) <= list && toStart + |list| == old(toStart + |list|)
      ensures id in ctx
      ensures old(ctx[id].handoff) ==> Ended(id, Failed("Playing it in the Video Player"))
    {
      hide Inv, Again;
      if ctx[id].handoff {
        Fail(id, "Playing it in the Video Player");
        return;
      }
      hide Ended;
      var on := StepOpen(id);
      if on {
        StepTalk(id);
      }
    }

    /** The states before a connection is there. */
    method StepOpen(id: nat) returns (on: bool)
      requires Running(id)
      modifies this`list, this`ctx, this`next, this`toStart, this`keep, this`open, this`tlsOpen, this`h
      ensures Inv(Now()) && h.busy == {} && old(list) <= list && toStart + |list| == old(toStart + |list|)
      ensures id in ctx && (on ==> !ctx[id].dead && !ctx[id].aborted && ctx[id].phase in {Send, Receive})
    {
      hide Inv, Ended, Again;
      var services: bool, lookup: Lookup, ready: int, late: bool := *, *, *, *;
      if ctx[id].phase == Resolve {
        on := StepResolve(id, services, lookup);
        if !on { return; }
      }
      if ctx[id].phase == Connect {
        on := StepConnect(id, late);
        if !on { return; }
      }
      if ctx[id].phase == Connecting {
        on := StepConnecting(id, ready, late);
        if !on { return; }
      }
      return true;
    }

    /** The states on a connection. */
    method StepTalk(id: nat)
      requires Running(id) && ctx[id].phase in {Send, Receive}
      modifies this`list, this`ctx, this`next, this`toStart, this`keep, this`open, this`tlsOpen, this`h
      ensures Inv(Now()) && h.busy == {} && old(list) <= list && toStart + |list| == old(toStart + |list|)
      ensures id in ctx && (ctx[id].dead || Again(id) || ctx[id].phase in {Send, Receive})
    {
      hide Inv, NoLast;
      var late: bool := *;
      if ctx[id].phase == Send {
        var on := StepSend(id, late);
        if !on { return; }
      }
      StepReceive(id, late);
    }

    // ---- The whole fetcher ----

    /** release and http_free; NetSurf may start queued fetches. */
    method Free(id: nat)
      requires Valid() && id in ctx
      modifies this`list, this`ctx, this`open, this`tlsOpen, this`h
      ensures Valid() && id !in ctx && |list| == old(|list|) - 1
    {
      hide Inv;
      ghost var s := Now();
      BeginKeepsInv(s, id);
      h := Begin(s, id).h;
      CloseConn(id);
      ghost var t := Now();
      RemoveKeepsInv(t, id);
      ctx := ctx - {id};
      list := Without(list, id);
      ghost var u := Now();
      ForgetBusy(u, id);
      h := h.(busy := {});
      StartSome();
    }

    method StartSome()
      requires Valid()
      modifies this`ctx
      ensures Valid() && ctx.Keys == old(ctx.Keys)
    {
      hide Inv;
      var n: nat := *;
      while n > 0
        invariant Valid() && ctx.Keys == old(ctx.Keys)
      {
        var i: nat := *;
        if i in ctx {
          Start(i);
        }
        n := n - 1;
      }
    }

    /** http_abort: cleaned up at once, unless a poll is under way. */
    method Abort(id: nat)
      requires Valid() && id in ctx
      modifies this`list, this`ctx, this`open, this`tlsOpen, this`h
      ensures Valid() && (polling || old(ctx[id]).locked ==> id in ctx && ctx[id].aborted)
      ensures !polling && !old(ctx[id]).locked ==> id !in ctx
    {
      hide Inv;
      if polling || ctx[id].locked {
        Mark(id);
      } else {
        Free(id);
      }
    }

    /** http_poll */
    method Poll()
      requires Valid() && !polling
      modifies this
      ensures Valid() && !polling && forall i <- ctx :: !ctx[i].dead && !ctx[i].aborted
    {
      hide Inv;
      polling := true;
      KeepCheck();
      var k := 0;
      while k < |list|
        invariant Valid() && polling && k <= |list|
        decreases toStart + |list| - k
      {
        StepAt(k);
        k := k + 1;
      }
      polling := false;
      CleanUp();
    }

    /** The poll loop's turn of one fetch. */
    method StepAt(k: nat)
      requires Valid() && polling && k < |list|
      modifies this`list, this`ctx, this`next, this`toStart, this`keep, this`open, this`tlsOpen, this`h
      ensures Valid() && |old(list)| <= |list| && toStart + |list| == old(toStart + |list|)
    {
      hide Inv;
      var id := list[k];
      ListedHere(Now(), k);
      if !ctx[id].dead {
        if ctx[id].aborted {
          ghost var s := Now();
          ctx := ctx[id := ctx[id].(dead := true)];
          FlagKeepsInv(s, id, ctx[id]);
        } else if ctx[id].started {
          Step(id);
        }
      }
    }

    /** Finished, failed and aborted fetches go back to NetSurf. */
    method CleanUp()
      requires Valid() && !polling
      modifies this`list, this`ctx, this`open, this`tlsOpen, this`h
      ensures Valid() && forall i <- ctx :: !ctx[i].dead && !ctx[i].aborted
    {
      hide Inv;
      while true
        invariant Valid()
        decreases |list|
      {
        var k := 0;
        while k < |list| && list[k] in ctx && !ctx[list[k]].dead && !ctx[list[k]].aborted
          invariant 0 <= k <= |list|
          invariant forall j | 0 <= j < k :: list[j] in ctx && !ctx[list[j]].dead && !ctx[list[j]].aborted
        {
          k := k + 1;
        }
        AllListed(Now());
        if k == |list| {
          return;
        }
        Free(list[k]);
      }
    }

    /** Any run: setups, starts, aborts and polls, in any order. */
    method Run(steps: nat)
      requires Valid() && !polling
      modifies this
      ensures Valid() && !polling
      ensures AllRules(Now())
    {
      hide Inv, AllRules;
      var n := steps;
      while n > 0
        invariant Valid() && !polling
      {
        var what: nat, i: nat := *, *;
        if what == 0 && toStart > 0 {
          var server: Server, request: Request, req: seq<byte>, handoff: bool := *, *, *, *;
          Setup(server, request, req, handoff);
        } else if what == 1 && i in ctx {
          Start(i);
        } else if what == 2 && i in ctx {
          Abort(i);
        } else {
          Poll();
        }
        n := n - 1;
      }
      RulesHold(Now());
    }
  }
}
