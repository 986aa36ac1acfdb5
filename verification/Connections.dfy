/** The connections of ports/netsurf/papp_http.c's fetches, as values: who holds each open transport
    handle, what each fetch has sent, heard and said so far, and the rules every run keeps. Fetcher.dfy
    has the code that keeps them. */
module Connections {
  import opened Bytes
  import opened Wrappers
  import opened HttpText
  import opened HttpFeed

  const TLS_MAX := 3
  const KEEP_MAX := 4

  datatype Server = Server(tls: bool, host: seq<byte>, port: nat)

  function LowerAll(s: seq<byte>): seq<byte> { seq(|s|, i requires 0 <= i < |s| => Lower(s[i])) }

  /** The same transport and port, and the same host but for case. */
  predicate SameServer(a: Server, b: Server)
  {
    a.tls == b.tls && a.port == b.port && LowerAll(a.host) == LowerAll(b.host)
  }

  datatype Handle = Handle(tls: bool, h: nat)
  datatype Phase = Resolve | Connect | Connecting | Send | Receive

  /** struct http_ctx, its response part as in HttpFeed. */
  datatype Ctx = Ctx(
    server: Server, request: Request, req: seq<byte>, handoff: bool,
    started: bool, aborted: bool, dead: bool, locked: bool, phase: Phase,
    sock: Option<Handle>, reused: bool, reqSent: nat, gotBytes: bool, r: Response, trailing: bool)

  /** A slot of s_keep in use. */
  datatype Kept = Kept(handle: Handle, server: Server, since: int)

  datatype Msg = Progress | Header(line: seq<byte>) | Data(bytes: seq<byte>) | Last(final: Final)

  /** The header lines and the body NetSurf was told. */
  function HeadersTold(said: seq<Msg>): seq<seq<byte>>
  {
    if said == [] then []
    else HeadersTold(said[..|said| - 1]) + match said[|said| - 1] case Header(line) => [line] case _ => []
  }

  function DataTold(said: seq<Msg>): seq<byte>
  {
    if said == [] then []
    else DataTold(said[..|said| - 1]) + match said[|said| - 1] case Data(bytes) => bytes case _ => []
  }

  predicate Told(said: seq<Msg>, r: Response) { HeadersTold(said) == r.headers && DataTold(said) == r.data }

  lemma TellMore(said: seq<Msg>, m: Msg)
    ensures HeadersTold(said + [m]) == HeadersTold(said) + (if m.Header? then [m.line] else [])
    ensures DataTold(said + [m]) == DataTold(said) + (if m.Data? then m.bytes else [])
  {
    assert (said + [m])[..|said|] == said;
  }

  // ---- What a run leaves behind ----

  datatype Owner = ByFetch(id: nat) | BySlot(slot: nat)

  /** An open handle: the how manyth connection it is, who holds it, and where it leads. */
  datatype Conn = Conn(serial: nat, owner: Owner, server: Server)

  /** A connection ever opened, and how often it was closed. */
  datatype Opening = Opening(handle: Handle, closes: nat)

  /** One sending of a request: on which connection, whether that was a kept one, the bytes sent, and whether
      any byte came back. */
  datatype Trip = Trip(serial: nat, to: Server, reused: bool, sent: seq<byte>, heard: bool)

  datatype Asked = Asked(server: Server, post: bool, req: seq<byte>)

  /** `late` are the fetches that were told something after NetSurf had aborted them. */
  datatype History = History(
    conns: map<Handle, Conn>, ledger: seq<Opening>,
    asked: map<nat, Asked>, said: map<nat, seq<Msg>>, trips: map<nat, seq<Trip>>,
    busy: set<nat>, late: set<nat>)

  /** Everything: s_list with its records, s_keep, s_tls_open, next_id, the loader's open handles. `busy` are the
      fetches in the middle of finish_with, body_done or retry_fresh. */
  datatype State = State(
    list: seq<nat>, ctx: map<nat, Ctx>, keep: seq<Option<Kept>>, tlsOpen: int, next: nat, open: set<Handle>,
    h: History)

  // ---- The rules ----

  predicate Distinct(list: seq<nat>) { forall a, b :: 0 <= a < b < |list| ==> list[a] != list[b] }

  predicate Listed(list: seq<nat>, ctx: map<nat, Ctx>, next: nat)
  {
    && Distinct(list) && (forall i <- list :: i < next) && (forall i <- list :: i in ctx)
    && forall i <- ctx :: i in list
  }

  predicate HolderHas(ctx: map<nat, Ctx>, keep: seq<Option<Kept>>, x: Handle, owner: Owner)
  {
    match owner
    case ByFetch(i) => i in ctx && ctx[i].sock == Some(x)
    case BySlot(k) => k < |keep| && keep[k].Some? && keep[k].value.handle == x
  }

  predicate FetchHolds(i: nat, c: Ctx, conns: map<Handle, Conn>)
  {
    c.sock.Some? ==>
      && c.sock.value in conns && conns[c.sock.value].owner == ByFetch(i)
      && SameServer(conns[c.sock.value].server, c.server)
  }

  predicate SlotHolds(k: nat, kept: Option<Kept>, conns: map<Handle, Conn>)
  {
    kept.Some? ==>
      && kept.value.handle in conns && conns[kept.value.handle].owner == BySlot(k)
      && SameServer(conns[kept.value.handle].server, kept.value.server)
  }

  /** Every open handle has exactly one holder, and it leads to that holder's server. */
  predicate Held(ctx: map<nat, Ctx>, keep: seq<Option<Kept>>, conns: map<Handle, Conn>)
  {
    && |keep| == KEEP_MAX
    && (forall x <- conns :: HolderHas(ctx, keep, x, conns[x].owner) && conns[x].server.tls == x.tls)
    && (forall i <- ctx :: FetchHolds(i, ctx[i], conns))
    && (forall k: nat | k < |keep| :: SlotHolds(k, keep[k], conns))
  }

  function TlsOf(conns: map<Handle, Conn>): set<Handle> { set x | x in conns && x.tls }

  predicate Counted(conns: map<Handle, Conn>, open: set<Handle>, tlsOpen: int)
  {
    open == conns.Keys && tlsOpen == |TlsOf(conns)| && tlsOpen <= TLS_MAX
  }

  predicate OpenNow(o: Opening, k: nat, conns: map<Handle, Conn>) { o.handle in conns && conns[o.handle].serial == k }

  /** Every connection ever opened is open now or was closed exactly once. */
  predicate Ledgered(conns: map<Handle, Conn>, ledger: seq<Opening>)
  {
    && (forall k: nat | k < |ledger| :: ledger[k].closes == if OpenNow(ledger[k], k, conns) then 0 else 1)
    && forall x <- conns :: conns[x].serial < |ledger| && ledger[conns[x].serial].handle == x
  }

  /** No last message but at the end. */
  predicate LastOnce(said: seq<Msg>) { forall k | 0 <= k < |said| - 1 :: !said[k].Last? }

  predicate NoLast(said: seq<Msg>) { forall m <- said :: !m.Last? }

  predicate Spoken(ctx: map<nat, Ctx>, said: map<nat, seq<Msg>>, busy: set<nat>, next: nat)
  {
    && (forall i: nat | i < next :: i in said) && (forall i <- said :: LastOnce(said[i]))
    && forall i <- ctx :: i in said && (!ctx[i].dead && i !in busy ==> NoLast(said[i]))
  }

  /** A request is sent again only after a kept connection on which nothing came back, and a POST never; no
      byte is sent twice on one connection, and all go to the server asked. */
  predicate GoodTrips(a: Asked, trips: seq<Trip>)
  {
    && (forall t <- trips :: t.sent <= a.req && SameServer(t.to, a.server))
    && (forall k | 0 <= k < |trips| - 1 :: trips[k].reused && !trips[k].heard)
    && (a.post ==> |trips| <= 1 && forall t <- trips :: !t.reused)
  }

  /** A fetch without a connection that may still get one has heard nothing. */
  predicate Unheard(c: Ctx, trips: seq<Trip>)
  {
    && c.reqSent == 0 && !c.gotBytes && !c.reused && c.r == EMPTY && !c.trailing
    && (forall t <- trips :: t.reused && !t.heard) && (c.request.post ==> trips == [])
  }

  /** A fetch with a connection is on its last trip. */
  predicate OnTrip(c: Ctx, trips: seq<Trip>, conns: map<Handle, Conn>)
    requires c.sock.Some?
  {
    && trips != [] && c.sock.value in conns && c.reqSent <= |c.req|
    && trips[|trips| - 1]
         == Trip(conns[c.sock.value].serial, conns[c.sock.value].server, c.reused, c.req[..c.reqSent], c.gotBytes)
    && (!c.gotBytes ==> c.r == EMPTY && !c.trailing)
  }

  predicate HasConn(p: Phase) { p == Connecting || p == Send || p == Receive }

  predicate TravelOk(i: nat, c: Ctx, a: Asked, trips: seq<Trip>, conns: map<Handle, Conn>, busy: set<nat>)
  {
    && a == Asked(c.server, c.request.post, c.req)
    && (c.sock.Some? ==> OnTrip(c, trips, conns))
    && (!c.dead && i !in busy ==> (HasConn(c.phase) <==> c.sock.Some?) && (c.sock == None ==> Unheard(c, trips)))
    && (!c.dead && i !in busy ==> c.r.final == None && Reading(c.r))
  }

  predicate Travelled(ctx: map<nat, Ctx>, h: History, next: nat)
  {
    && (forall i: nat | i < next :: i in h.asked && i in h.trips && GoodTrips(h.asked[i], h.trips[i]))
    && forall i <- ctx :: i in h.asked && i in h.trips && TravelOk(i, ctx[i], h.asked[i], h.trips[i], h.conns, h.busy)
  }

  predicate Inv(s: State)
  {
    && Listed(s.list, s.ctx, s.next) && Held(s.ctx, s.keep, s.h.conns) && Counted(s.h.conns, s.open, s.tlsOpen)
    && Ledgered(s.h.conns, s.h.ledger) && Spoken(s.ctx, s.h.said, s.h.busy, s.next) && Travelled(s.ctx, s.h, s.next)
    && s.h.late == {}
  }

  // ---- Steps ----

  /** Nothing that a connection or a trip depends on. */
  predicate SameTravel(c: Ctx, d: Ctx)
  {
    && d.server == c.server && d.request == c.request && d.req == c.req && d.sock == c.sock
    && d.reused == c.reused && d.reqSent == c.reqSent && d.gotBytes == c.gotBytes
  }

  function SetCtx(s: State, id: nat, c: Ctx): State { s.(ctx := s.ctx[id := c]) }

  predicate CanSet(s: State, id: nat, c: Ctx)
  {
    && id in s.ctx && SameTravel(s.ctx[id], c)
    && (!c.gotBytes && c.sock.Some? ==> c.r == s.ctx[id].r && c.trailing == s.ctx[id].trailing)
    && (!c.dead && id !in s.h.busy ==>
          && !s.ctx[id].dead && (HasConn(c.phase) <==> c.sock.Some?)
          && (c.sock == None ==> c.r == EMPTY && !c.trailing)
          && c.r.final == None && Reading(c.r))
  }

  lemma SetKeepsInv(s: State, id: nat, c: Ctx)
    requires Inv(s) && CanSet(s, id, c)
    ensures Inv(SetCtx(s, id, c))
  {
    hide Listed, Counted, Ledgered, GoodTrips, LastOnce, SameServer, Reading;
    assert Listed(s.list, s.ctx[id := c], s.next) by { ListedSet(s.list, s.ctx, s.next, id, c); }
    assert Held(s.ctx[id := c], s.keep, s.h.conns) by { HeldSet(s.ctx, s.keep, s.h.conns, id, c); }
    assert Spoken(s.ctx[id := c], s.h.said, s.h.busy, s.next) by { hide Held, Travelled; }
    assert Travelled(s.ctx[id := c], s.h, s.next) by { hide Held, Spoken; }
  }

  lemma ListedSet(list: seq<nat>, ctx: map<nat, Ctx>, next: nat, id: nat, c: Ctx)
    requires Listed(list, ctx, next) && id in ctx
    ensures Listed(list, ctx[id := c], next)
  {
    hide Distinct;
  }

  lemma HeldSet(ctx: map<nat, Ctx>, keep: seq<Option<Kept>>, conns: map<Handle, Conn>, id: nat, c: Ctx)
    requires Held(ctx, keep, conns) && id in ctx && c.sock == ctx[id].sock && c.server == ctx[id].server
    ensures Held(ctx[id := c], keep, conns)
  {
    hide SameServer, SlotHolds;
    var now := ctx[id := c];
    forall x | x in conns ensures HolderHas(now, keep, x, conns[x].owner) {
      assert HolderHas(ctx, keep, x, conns[x].owner);
    }
    forall i | i in now ensures FetchHolds(i, now[i], conns) { assert FetchHolds(i, ctx[i], conns); }
  }

  /** Marks on a record change nothing else. */
  lemma FlagKeepsInv(s: State, id: nat, c: Ctx)
    requires Inv(s) && id in s.ctx && (s.ctx[id].dead ==> c.dead)
    requires c == s.ctx[id].(started := c.started, aborted := c.aborted, locked := c.locked, dead := c.dead)
    ensures Inv(SetCtx(s, id, c))
  {
    OnLastTrip(s, id);
    hide Inv;
    SetKeepsInv(s, id, c);
  }

  /** The loader closes a handle, and tls_close counts it. */
  function CloseHandle(s: State, x: Handle): State
    requires x in s.h.conns && s.h.conns[x].serial < |s.h.ledger|
  {
    var k := s.h.conns[x].serial;
    var o := s.h.ledger[k];
    s.(open := s.open - {x},
       tlsOpen := if x.tls && s.tlsOpen > 0 then s.tlsOpen - 1 else s.tlsOpen,
       h := s.h.(conns := s.h.conns - {x}, ledger := s.h.ledger[k := o.(closes := o.closes + 1)]))
  }

  lemma CountedClose(s: State, x: Handle)
    requires Counted(s.h.conns, s.open, s.tlsOpen) && x in s.h.conns && s.h.conns[x].serial < |s.h.ledger|
    ensures var t := CloseHandle(s, x); Counted(t.h.conns, t.open, t.tlsOpen)
  {
    assert TlsOf(s.h.conns - {x}) == TlsOf(s.h.conns) - {x};
    if x.tls { assert x in TlsOf(s.h.conns); }
  }

  lemma LedgeredClose(conns: map<Handle, Conn>, ledger: seq<Opening>, x: Handle)
    requires Ledgered(conns, ledger) && x in conns
    ensures var k := conns[x].serial; Ledgered(conns - {x}, ledger[k := ledger[k].(closes := ledger[k].closes + 1)])
  {}

  /** close_conn */
  function CloseFetch(s: State, id: nat): State
    requires id in s.ctx && s.ctx[id].sock.Some?
    requires s.ctx[id].sock.value in s.h.conns && s.h.conns[s.ctx[id].sock.value].serial < |s.h.ledger|
  {
    SetCtx(CloseHandle(s, s.ctx[id].sock.value), id, s.ctx[id].(sock := None))
  }

  lemma FetchHasConn(s: State, id: nat)
    requires Inv(s) && id in s.ctx && s.ctx[id].sock.Some?
    ensures s.ctx[id].sock.value in s.h.conns && s.h.conns[s.ctx[id].sock.value].serial < |s.h.ledger|
  {
    hide Listed, Counted, Spoken, Travelled, SlotHolds, SameServer, HolderHas;
    assert FetchHolds(id, s.ctx[id], s.h.conns);
  }

  lemma HeldCloseFetch(ctx: map<nat, Ctx>, keep: seq<Option<Kept>>, conns: map<Handle, Conn>, id: nat)
    requires Held(ctx, keep, conns) && id in ctx && ctx[id].sock.Some?
    ensures Held(ctx[id := ctx[id].(sock := None)], keep, conns - {ctx[id].sock.value})
  {
    hide SameServer;
    var x := ctx[id].sock.value;
    var now, left := ctx[id := ctx[id].(sock := None)], conns - {x};
    assert FetchHolds(id, ctx[id], conns);
    forall y | y in left ensures HolderHas(now, keep, y, left[y].owner) {
      assert HolderHas(ctx, keep, y, conns[y].owner);
    }
    forall i | i in now ensures FetchHolds(i, now[i], left) { assert FetchHolds(i, ctx[i], conns); }
    forall k: nat | k < |keep| ensures SlotHolds(k, keep[k], left) { assert SlotHolds(k, keep[k], conns); }
  }

  /** What happens to one connection is nothing to the trips on others. */
  predicate SameForOthers(ctx: map<nat, Ctx>, id: nat, conns: map<Handle, Conn>, now: map<Handle, Conn>)
  {
    forall i <- ctx | i != id && ctx[i].sock.Some? && ctx[i].sock.value in conns ::
      ctx[i].sock.value in now && now[ctx[i].sock.value] == conns[ctx[i].sock.value]
  }

  lemma TravelledStep(ctx: map<nat, Ctx>, h: History, next: nat, id: nat, c: Ctx, now: History)
    requires Travelled(ctx, h, next) && id in ctx && (forall i | i != id :: i in now.busy <==> i in h.busy)
    requires SameForOthers(ctx, id, h.conns, now.conns) && now.asked == h.asked
    requires now.trips == h.trips || (id in now.trips && now.trips == h.trips[id := now.trips[id]])
    requires id in now.asked && id in now.trips && GoodTrips(now.asked[id], now.trips[id])
    requires TravelOk(id, c, now.asked[id], now.trips[id], now.conns, now.busy)
    ensures Travelled(ctx[id := c], now, next)
  {
    hide GoodTrips, Unheard, SameServer, Reading;
    var all := ctx[id := c];
    forall i | i in all
      ensures i in now.asked && i in now.trips && TravelOk(i, all[i], now.asked[i], now.trips[i], now.conns, now.busy)
    {
      if i != id { assert TravelOk(i, ctx[i], h.asked[i], h.trips[i], h.conns, h.busy); }
    }
  }

  lemma OthersFetch(s: State, id: nat)
    requires Held(s.ctx, s.keep, s.h.conns) && id in s.ctx && s.ctx[id].sock.Some?
    ensures SameForOthers(s.ctx, id, s.h.conns, s.h.conns - {s.ctx[id].sock.value})
  {
    hide SameServer, HolderHas, SlotHolds;
    assert FetchHolds(id, s.ctx[id], s.h.conns);
    forall i | i in s.ctx && i != id && s.ctx[i].sock.Some? ensures s.ctx[i].sock != s.ctx[id].sock {
      assert FetchHolds(i, s.ctx[i], s.h.conns);
    }
  }

  predicate FetchHasConnHere(s: State, id: nat)
    requires id in s.ctx && s.ctx[id].sock.Some?
  {
    s.ctx[id].sock.value in s.h.conns && s.h.conns[s.ctx[id].sock.value].serial < |s.h.ledger|
  }

  lemma CloseFetchTravelled(s: State, id: nat)
    requires Inv(s) && id in s.ctx && s.ctx[id].sock.Some? && (id in s.h.busy || s.ctx[id].dead)
    requires FetchHasConnHere(s, id)
    ensures var t := CloseFetch(s, id); Travelled(t.ctx, t.h, t.next)
  {
    var x, c := s.ctx[id].sock.value, s.ctx[id].(sock := None);
    var t := CloseFetch(s, id);
    hide Counted, Ledgered, Spoken, Listed, GoodTrips, SameServer, Reading, SameForOthers, OnTrip, Unheard;
    OthersFetch(s, id);
    hide Held;
    assert TravelOk(id, s.ctx[id], s.h.asked[id], s.h.trips[id], s.h.conns, s.h.busy);
    TravelledStep(s.ctx, s.h, s.next, id, c, t.h);
  }

  lemma CloseFetchSpoken(s: State, id: nat)
    requires Inv(s) && id in s.ctx && s.ctx[id].sock.Some? && FetchHasConnHere(s, id)
    ensures var t := CloseFetch(s, id); Spoken(t.ctx, t.h.said, t.h.busy, t.next)
  {
    hide Counted, Ledgered, Listed, Held, Travelled, LastOnce, NoLast;
  }

  lemma CloseFetchOpen(s: State, id: nat)
    requires Inv(s) && id in s.ctx && s.ctx[id].sock.Some? && FetchHasConnHere(s, id)
    ensures var t := CloseFetch(s, id);
      && Listed(t.list, t.ctx, t.next) && Held(t.ctx, t.keep, t.h.conns)
      && Counted(t.h.conns, t.open, t.tlsOpen) && Ledgered(t.h.conns, t.h.ledger) && t.h.late == {}
  {
    hide Counted, Ledgered, Held, Listed, Spoken, Travelled;
    var x, c := s.ctx[id].sock.value, s.ctx[id].(sock := None);
    ListedSet(s.list, s.ctx, s.next, id, c);
    HeldCloseFetch(s.ctx, s.keep, s.h.conns, id);
    CountedClose(s, x);
    LedgeredClose(s.h.conns, s.h.ledger, x);
  }

  lemma CloseFetchKeepsInv(s: State, id: nat)
    requires Inv(s) && id in s.ctx && s.ctx[id].sock.Some? && (id in s.h.busy || s.ctx[id].dead)
    ensures FetchHasConnHere(s, id) && Inv(CloseFetch(s, id))
  {
    hide Counted, Ledgered, Held, Listed, Spoken, Travelled, CloseFetch;
    FetchHasConn(s, id);
    CloseFetchOpen(s, id);
    CloseFetchSpoken(s, id);
    CloseFetchTravelled(s, id);
  }

  // ---- Kept connections ----

  /** keep_close */
  function CloseSlot(s: State, k: nat): State
    requires SlotHasConn(s, k)
  {
    CloseHandle(s, s.keep[k].value.handle).(keep := s.keep[k := None])
  }

  predicate SlotHasConn(s: State, k: nat)
  {
    && k < |s.keep| && s.keep[k].Some? && s.keep[k].value.handle in s.h.conns
    && s.h.conns[s.keep[k].value.handle].serial < |s.h.ledger|
  }

  lemma SlotConn(s: State, k: nat)
    requires Inv(s) && k < |s.keep| && s.keep[k].Some?
    ensures SlotHasConn(s, k) && SameServer(s.h.conns[s.keep[k].value.handle].server, s.keep[k].value.server)
    ensures |s.keep| == KEEP_MAX
  {
    hide Listed, Counted, Spoken, Travelled, FetchHolds, SameServer, HolderHas;
    assert SlotHolds(k, s.keep[k], s.h.conns);
  }

  lemma HeldCloseSlot(ctx: map<nat, Ctx>, keep: seq<Option<Kept>>, conns: map<Handle, Conn>, k: nat)
    requires Held(ctx, keep, conns) && k < |keep| && keep[k].Some?
    ensures Held(ctx, keep[k := None], conns - {keep[k].value.handle})
  {
    hide SameServer;
    var x := keep[k].value.handle;
    var slots, left := keep[k := None], conns - {x};
    assert SlotHolds(k, keep[k], conns);
    forall y | y in left ensures HolderHas(ctx, slots, y, left[y].owner) {
      assert HolderHas(ctx, keep, y, conns[y].owner);
    }
    forall i | i in ctx ensures FetchHolds(i, ctx[i], left) { assert FetchHolds(i, ctx[i], conns); }
    forall j: nat | j < |slots| ensures SlotHolds(j, slots[j], left) { assert SlotHolds(j, keep[j], conns); }
  }

  /** A kept connection is nobody's trip. */
  lemma OthersSlot(s: State, k: nat)
    requires Held(s.ctx, s.keep, s.h.conns) && SlotHasConn(s, k)
    ensures forall i <- s.ctx | s.ctx[i].sock.Some? :: s.ctx[i].sock.value != s.keep[k].value.handle
  {
    hide SameServer, HolderHas;
    assert SlotHolds(k, s.keep[k], s.h.conns);
    forall i | i in s.ctx && s.ctx[i].sock.Some? ensures s.ctx[i].sock.value != s.keep[k].value.handle {
      assert FetchHolds(i, s.ctx[i], s.h.conns);
    }
  }

  /** Nothing happens to the trips while none of their connections changes. */
  lemma TravelledSame(ctx: map<nat, Ctx>, h: History, next: nat, conns: map<Handle, Conn>, ledger: seq<Opening>)
    requires Travelled(ctx, h, next)
    requires forall i <- ctx | ctx[i].sock.Some? && ctx[i].sock.value in h.conns ::
      ctx[i].sock.value in conns && conns[ctx[i].sock.value] == h.conns[ctx[i].sock.value]
    ensures Travelled(ctx, h.(conns := conns, ledger := ledger), next)
  {
    hide GoodTrips, Unheard, SameServer, Reading;
    forall i | i in ctx ensures TravelOk(i, ctx[i], h.asked[i], h.trips[i], conns, h.busy) {
      assert TravelOk(i, ctx[i], h.asked[i], h.trips[i], h.conns, h.busy);
    }
  }

  lemma CloseSlotKeepsInv(s: State, k: nat)
    requires Inv(s) && SlotHasConn(s, k)
    ensures Inv(CloseSlot(s, k))
  {
    hide Counted, Ledgered, Held, Listed, Spoken, Travelled;
    var x := s.keep[k].value.handle;
    HeldCloseSlot(s.ctx, s.keep, s.h.conns, k);
    CountedClose(s, x);
    LedgeredClose(s.h.conns, s.h.ledger, x);
    OthersSlot(s, k);
    TravelledSame(s.ctx, s.h, s.next, CloseSlot(s, k).h.conns, CloseSlot(s, k).h.ledger);
  }

  /** keep_put into a free slot */
  function GiveSlot(s: State, id: nat, k: nat, since: int): State
    requires id in s.ctx && s.ctx[id].sock.Some? && s.ctx[id].sock.value in s.h.conns && k < |s.keep|
  {
    var c := s.ctx[id];
    var x := c.sock.value;
    SetCtx(s, id, c.(sock := None)).(
      keep := s.keep[k := Some(Kept(x, c.server, since))],
      h := s.h.(conns := s.h.conns[x := s.h.conns[x].(owner := BySlot(k))]))
  }

  lemma HeldGive(ctx: map<nat, Ctx>, keep: seq<Option<Kept>>, conns: map<Handle, Conn>, id: nat, k: nat, since: int)
    requires Held(ctx, keep, conns) && id in ctx && ctx[id].sock.Some? && k < |keep| && keep[k] == None
    requires ctx[id].sock.value in conns
    ensures var x := ctx[id].sock.value;
      Held(ctx[id := ctx[id].(sock := None)], keep[k := Some(Kept(x, ctx[id].server, since))],
           conns[x := conns[x].(owner := BySlot(k))])
  {
    hide SameServer;
    var x := ctx[id].sock.value;
    var all, slots := ctx[id := ctx[id].(sock := None)], keep[k := Some(Kept(x, ctx[id].server, since))];
    var now := conns[x := conns[x].(owner := BySlot(k))];
    assert FetchHolds(id, ctx[id], conns);
    forall y | y in now ensures HolderHas(all, slots, y, now[y].owner) {
      assert HolderHas(ctx, keep, y, conns[y].owner);
    }
    forall i | i in all ensures FetchHolds(i, all[i], now) { assert FetchHolds(i, ctx[i], conns); }
    forall j: nat | j < |slots| ensures SlotHolds(j, slots[j], now) { assert SlotHolds(j, keep[j], conns); }
  }

  /** A connection that changes hands stays the same one. */
  lemma SameConns(conns: map<Handle, Conn>, ledger: seq<Opening>, open: set<Handle>, tlsOpen: int,
                  x: Handle, owner: Owner)
    requires Ledgered(conns, ledger) && Counted(conns, open, tlsOpen) && x in conns
    ensures var now := conns[x := conns[x].(owner := owner)]; Ledgered(now, ledger) && Counted(now, open, tlsOpen)
  {
    var now := conns[x := conns[x].(owner := owner)];
    assert now.Keys == conns.Keys && TlsOf(now) == TlsOf(conns);
    forall k: nat | k < |ledger| ensures OpenNow(ledger[k], k, now) == OpenNow(ledger[k], k, conns) {}
  }

  lemma GiveTravelled(s: State, id: nat, k: nat, since: int)
    requires Inv(s) && id in s.ctx && s.ctx[id].sock.Some? && FetchHasConnHere(s, id) && k < |s.keep| && id in s.h.busy
    ensures var t := GiveSlot(s, id, k, since); Travelled(t.ctx, t.h, t.next)
  {
    var c := s.ctx[id].(sock := None);
    var t := GiveSlot(s, id, k, since);
    hide Counted, Ledgered, Spoken, Listed, GoodTrips, SameServer, Reading, OnTrip, Unheard;
    OthersFetch(s, id);
    hide Held;
    assert TravelOk(id, s.ctx[id], s.h.asked[id], s.h.trips[id], s.h.conns, s.h.busy);
    TravelledStep(s.ctx, s.h, s.next, id, c, t.h);
  }

  lemma GiveOpen(s: State, id: nat, k: nat, since: int)
    requires Inv(s) && id in s.ctx && s.ctx[id].sock.Some? && FetchHasConnHere(s, id) && k < |s.keep|
    requires s.keep[k] == None
    ensures var t := GiveSlot(s, id, k, since);
      && Listed(t.list, t.ctx, t.next) && Held(t.ctx, t.keep, t.h.conns)
      && Counted(t.h.conns, t.open, t.tlsOpen) && Ledgered(t.h.conns, t.h.ledger) && t.h.late == {}
  {
    hide Counted, Ledgered, Held, Listed, Spoken, Travelled;
    ListedSet(s.list, s.ctx, s.next, id, s.ctx[id].(sock := None));
    HeldGive(s.ctx, s.keep, s.h.conns, id, k, since);
    SameConns(s.h.conns, s.h.ledger, s.open, s.tlsOpen, s.ctx[id].sock.value, BySlot(k));
  }

  lemma GiveSpoken(s: State, id: nat, k: nat, since: int)
    requires Inv(s) && id in s.ctx && s.ctx[id].sock.Some? && FetchHasConnHere(s, id) && k < |s.keep|
    ensures var t := GiveSlot(s, id, k, since); Spoken(t.ctx, t.h.said, t.h.busy, t.next)
  {
    hide Counted, Ledgered, Held, Listed, Travelled, LastOnce, NoLast;
  }

  lemma GiveSlotKeepsInv(s: State, id: nat, k: nat, since: int)
    requires Inv(s) && id in s.ctx && s.ctx[id].sock.Some? && id in s.h.busy && k < |s.keep| && s.keep[k] == None
    ensures FetchHasConnHere(s, id) && Inv(GiveSlot(s, id, k, since))
  {
    hide Counted, Ledgered, Held, Listed, Travelled, Spoken, GiveSlot;
    FetchHasConn(s, id);
    GiveOpen(s, id, k, since);
    GiveSpoken(s, id, k, since);
    GiveTravelled(s, id, k, since);
  }

  /** keep_take, and a new trip on the connection. */
  function TakeSlot(s: State, id: nat, k: nat): State
    requires id in s.ctx && id in s.h.trips && SlotHasConn(s, k)
  {
    var x := s.keep[k].value.handle;
    var conn := s.h.conns[x];
    SetCtx(s, id, s.ctx[id].(sock := Some(x), reused := true, phase := Send)).(
      keep := s.keep[k := None],
      h := s.h.(conns := s.h.conns[x := conn.(owner := ByFetch(id))],
                trips := s.h.trips[id := s.h.trips[id] + [Trip(conn.serial, conn.server, true, [], false)]]))
  }

  /** A fetch that may get a connection, and the one it gets leads to its server. */
  predicate CanTake(s: State, id: nat, k: nat)
  {
    && Waiting(s, id) && !s.ctx[id].request.post
    && SlotHasConn(s, k) && SameServer(s.keep[k].value.server, s.ctx[id].server)
    && SameServer(s.h.conns[s.keep[k].value.handle].server, s.keep[k].value.server)
  }

  predicate Waiting(s: State, id: nat)
  {
    && id in s.ctx && !s.ctx[id].dead && id !in s.h.busy && !HasConn(s.ctx[id].phase) && s.ctx[id].sock == None
    && id in s.h.trips && id in s.h.asked && id < s.next
  }

  lemma HeldTake(ctx: map<nat, Ctx>, keep: seq<Option<Kept>>, conns: map<Handle, Conn>, id: nat, k: nat)
    requires Held(ctx, keep, conns) && id in ctx && ctx[id].sock == None && k < |keep| && keep[k].Some?
    requires keep[k].value.handle in conns && SameServer(conns[keep[k].value.handle].server, ctx[id].server)
    ensures var x := keep[k].value.handle;
      Held(ctx[id := ctx[id].(sock := Some(x), reused := true, phase := Send)], keep[k := None],
           conns[x := conns[x].(owner := ByFetch(id))])
  {
    hide SameServer;
    var x := keep[k].value.handle;
    var all, slots := ctx[id := ctx[id].(sock := Some(x), reused := true, phase := Send)], keep[k := None];
    var now := conns[x := conns[x].(owner := ByFetch(id))];
    assert SlotHolds(k, keep[k], conns);
    forall y | y in now ensures HolderHas(all, slots, y, now[y].owner) {
      assert HolderHas(ctx, keep, y, conns[y].owner);
    }
    forall i | i in all ensures FetchHolds(i, all[i], now) { assert FetchHolds(i, ctx[i], conns); }
    forall j: nat | j < |slots| ensures SlotHolds(j, slots[j], now) { assert SlotHolds(j, keep[j], conns); }
  }

  /** A fetch that gets a connection is on its next trip. */
  lemma NewTripOk(id: nat, c: Ctx, a: Asked, trips: seq<Trip>, conns: map<Handle, Conn>, now: map<Handle, Conn>,
                  busy: set<nat>, d: Ctx)
    requires TravelOk(id, c, a, trips, conns, busy) && GoodTrips(a, trips)
    requires !c.dead && id !in busy && c.sock == None
    requires d.sock.Some? && d.sock.value in now && HasConn(d.phase)
    requires d == c.(sock := d.sock, reused := d.reused, phase := d.phase) && (a.post ==> !d.reused)
    requires SameServer(now[d.sock.value].server, c.server)
    ensures var conn := now[d.sock.value];
      var more := trips + [Trip(conn.serial, conn.server, d.reused, [], false)];
      GoodTrips(a, more) && TravelOk(id, d, a, more, now, busy)
  {
    var conn := now[d.sock.value];
    hide GoodTrips, SameServer, Reading;
    assert d.req[..0] == [];
  }

  lemma TakeTravelled(s: State, id: nat, k: nat)
    requires Inv(s) && CanTake(s, id, k)
    ensures var t := TakeSlot(s, id, k); Travelled(t.ctx, t.h, t.next)
  {
    var t := TakeSlot(s, id, k);
    var x, c := s.keep[k].value.handle, s.ctx[id];
    hide Counted, Ledgered, Spoken, Listed, Held, SameServer, GoodTrips, TravelOk, SameForOthers;
    assert t.ctx[id] == c.(sock := Some(x), reused := true, phase := Send);
    hide TakeSlot;
    NewTripOk(id, c, s.h.asked[id], s.h.trips[id], s.h.conns, t.h.conns, s.h.busy, t.ctx[id]);
    TravelledStep(s.ctx, s.h, s.next, id, t.ctx[id], t.h);
  }

  lemma TakeSpoken(s: State, id: nat, k: nat)
    requires Inv(s) && CanTake(s, id, k)
    ensures var t := TakeSlot(s, id, k); Spoken(t.ctx, t.h.said, t.h.busy, t.next) && Listed(t.list, t.ctx, t.next)
  {
    hide Counted, Ledgered, Held, Travelled, LastOnce, NoLast, SameServer, Distinct;
  }

  lemma TakeOpen(s: State, id: nat, k: nat)
    requires Inv(s) && CanTake(s, id, k)
    ensures var t := TakeSlot(s, id, k);
      && Held(t.ctx, t.keep, t.h.conns) && Counted(t.h.conns, t.open, t.tlsOpen)
      && Ledgered(t.h.conns, t.h.ledger) && t.h.late == {}
  {
    hide Counted, Ledgered, Held, Travelled, Spoken, Listed;
    var x := s.keep[k].value.handle;
    HeldTake(s.ctx, s.keep, s.h.conns, id, k);
    SameConns(s.h.conns, s.h.ledger, s.open, s.tlsOpen, x, ByFetch(id));
  }

  lemma TakeSlotKeepsInv(s: State, id: nat, k: nat)
    requires Inv(s) && CanTake(s, id, k)
    ensures Inv(TakeSlot(s, id, k))
  {
    hide Counted, Ledgered, Held, Listed, Travelled, Spoken, TakeSlot;
    TakeTravelled(s, id, k);
    TakeSpoken(s, id, k);
    TakeOpen(s, id, k);
  }

  // ---- New connections, requests and answers ----

  /** A transport's open succeeded: a new connection, and a new trip on it. */
  function OpenFor(s: State, id: nat, x: Handle): State
    requires id in s.ctx && id in s.h.trips
  {
    var c := s.ctx[id];
    var serial := |s.h.ledger|;
    SetCtx(s, id, c.(sock := Some(x), phase := Connecting)).(
      open := s.open + {x},
      tlsOpen := if x.tls then s.tlsOpen + 1 else s.tlsOpen,
      h := s.h.(conns := s.h.conns[x := Conn(serial, ByFetch(id), c.server)],
                ledger := s.h.ledger + [Opening(x, 0)],
                trips := s.h.trips[id := s.h.trips[id] + [Trip(serial, c.server, c.reused, [], false)]]))
  }

  predicate CanOpen(s: State, id: nat, x: Handle)
  {
    && Waiting(s, id) && x !in s.open && x.tls == s.ctx[id].server.tls
    && !s.ctx[id].reused && (x.tls ==> s.tlsOpen < TLS_MAX)
  }

  lemma HeldOpen(ctx: map<nat, Ctx>, keep: seq<Option<Kept>>, conns: map<Handle, Conn>, id: nat, x: Handle, serial: nat)
    requires Held(ctx, keep, conns) && id in ctx && ctx[id].sock == None && x !in conns && x.tls == ctx[id].server.tls
    ensures Held(ctx[id := ctx[id].(sock := Some(x), phase := Connecting)], keep,
                 conns[x := Conn(serial, ByFetch(id), ctx[id].server)])
  {
    var all := ctx[id := ctx[id].(sock := Some(x), phase := Connecting)];
    var now := conns[x := Conn(serial, ByFetch(id), ctx[id].server)];
    forall y | y in now ensures HolderHas(all, keep, y, now[y].owner) {
      if y != x { assert HolderHas(ctx, keep, y, conns[y].owner); }
    }
    forall i | i in all ensures FetchHolds(i, all[i], now) { assert FetchHolds(i, ctx[i], conns); }
    forall j: nat | j < |keep| ensures SlotHolds(j, keep[j], now) { assert SlotHolds(j, keep[j], conns); }
  }

  lemma CountedOpen(conns: map<Handle, Conn>, open: set<Handle>, tlsOpen: int, x: Handle, conn: Conn)
    requires Counted(conns, open, tlsOpen) && x !in open && (x.tls ==> tlsOpen < TLS_MAX)
    ensures Counted(conns[x := conn], open + {x}, if x.tls then tlsOpen + 1 else tlsOpen)
  {
    var now := conns[x := conn];
    assert now.Keys == conns.Keys + {x};
    assert TlsOf(now) == if x.tls then TlsOf(conns) + {x} else TlsOf(conns);
    assert x !in TlsOf(conns);
  }

  lemma LedgeredOpen(conns: map<Handle, Conn>, ledger: seq<Opening>, x: Handle, conn: Conn)
    requires Ledgered(conns, ledger) && x !in conns && conn.serial == |ledger|
    ensures Ledgered(conns[x := conn], ledger + [Opening(x, 0)])
  {
    var now, more := conns[x := conn], ledger + [Opening(x, 0)];
    forall k: nat | k < |more| ensures more[k].closes == if OpenNow(more[k], k, now) then 0 else 1 {
      if k < |ledger| { assert OpenNow(ledger[k], k, now) == OpenNow(ledger[k], k, conns); }
    }
  }

  lemma OpenOpen(s: State, id: nat, x: Handle)
    requires Inv(s) && CanOpen(s, id, x)
    ensures var t := OpenFor(s, id, x);
      && Held(t.ctx, t.keep, t.h.conns) && Counted(t.h.conns, t.open, t.tlsOpen)
      && Ledgered(t.h.conns, t.h.ledger) && t.h.late == {}
  {
    assert x !in s.h.conns by { hide Held, Ledgered, Travelled, Spoken, Listed; }
    hide Counted, Ledgered, Held, Travelled, Spoken, Listed;
    var conn := Conn(|s.h.ledger|, ByFetch(id), s.ctx[id].server);
    HeldOpen(s.ctx, s.keep, s.h.conns, id, x, |s.h.ledger|);
    CountedOpen(s.h.conns, s.open, s.tlsOpen, x, conn);
    LedgeredOpen(s.h.conns, s.h.ledger, x, conn);
  }

  lemma OpenSpoken(s: State, id: nat, x: Handle)
    requires Inv(s) && CanOpen(s, id, x)
    ensures var t := OpenFor(s, id, x); Spoken(t.ctx, t.h.said, t.h.busy, t.next) && Listed(t.list, t.ctx, t.next)
  {
    hide Counted, Ledgered, Held, Travelled, LastOnce, NoLast, SameServer, Distinct;
  }

  lemma OthersOpen(ctx: map<nat, Ctx>, id: nat, conns: map<Handle, Conn>, x: Handle, conn: Conn)
    requires x !in conns
    ensures SameForOthers(ctx, id, conns, conns[x := conn])
  {}

  lemma OpenTravelled(s: State, id: nat, x: Handle)
    requires Inv(s) && CanOpen(s, id, x)
    ensures var t := OpenFor(s, id, x); Travelled(t.ctx, t.h, t.next)
  {
    var t := OpenFor(s, id, x);
    var c := s.ctx[id];
    assert x !in s.h.conns by { hide Held, Ledgered, Travelled, Spoken, Listed; }
    hide Counted, Ledgered, Spoken, Listed, Held, SameServer, GoodTrips, TravelOk, SameForOthers;
    OthersOpen(s.ctx, id, s.h.conns, x, Conn(|s.h.ledger|, ByFetch(id), c.server));
    assert t.ctx[id] == c.(sock := Some(x), phase := Connecting);
    hide OpenFor;
    NewTripOk(id, c, s.h.asked[id], s.h.trips[id], s.h.conns, t.h.conns, s.h.busy, t.ctx[id]);
    TravelledStep(s.ctx, s.h, s.next, id, t.ctx[id], t.h);
  }

  lemma OpenForKeepsInv(s: State, id: nat, x: Handle)
    requires Inv(s) && CanOpen(s, id, x)
    ensures Inv(OpenFor(s, id, x))
  {
    hide Counted, Ledgered, Held, Listed, Travelled, Spoken, OpenFor;
    OpenTravelled(s, id, x);
    OpenSpoken(s, id, x);
    OpenOpen(s, id, x);
  }

  /** What goes on the wire behind what went before, and what came back: the request's bytes from where the
      fetch stands up to `sent`, and whether anything was received. */
  function Travel(s: State, id: nat, sent: nat, heard: bool): State
    requires id in s.ctx && id in s.h.trips && s.h.trips[id] != [] && s.ctx[id].reqSent <= sent <= |s.ctx[id].req|
  {
    var c, trips := s.ctx[id], s.h.trips[id];
    var last := trips[|trips| - 1];
    SetCtx(s, id, c.(reqSent := sent, gotBytes := heard)).(
      h := s.h.(trips := s.h.trips[id := trips[|trips| - 1 :=
                  last.(sent := last.sent + c.req[c.reqSent..sent], heard := heard)]]))
  }

  predicate CanTravel(s: State, id: nat, sent: nat, heard: bool)
  {
    && id in s.ctx && !s.ctx[id].dead && id !in s.h.busy && s.ctx[id].sock.Some?
    && id in s.h.trips && s.h.trips[id] != [] && s.ctx[id].reqSent <= sent <= |s.ctx[id].req|
    && (s.ctx[id].gotBytes ==> heard) && id < s.next
  }

  /** What went out on a connection, piece by piece, is the beginning of the request: each byte once, in order. */
  lemma LastTripOk(id: nat, c: Ctx, a: Asked, trips: seq<Trip>, conns: map<Handle, Conn>, busy: set<nat>, sent: nat,
                   heard: bool)
    requires TravelOk(id, c, a, trips, conns, busy) && GoodTrips(a, trips) && trips != []
    requires !c.dead && id !in busy && c.sock.Some? && c.reqSent <= sent <= |c.req| && (c.gotBytes ==> heard)
    ensures var last := trips[|trips| - 1];
      var more := trips[|trips| - 1 := last.(sent := last.sent + c.req[c.reqSent..sent], heard := heard)];
      && last.sent + c.req[c.reqSent..sent] == c.req[..sent]
      && GoodTrips(a, more) && TravelOk(id, c.(reqSent := sent, gotBytes := heard), a, more, conns, busy)
  {
    hide SameServer, Reading;
    var m := |trips| - 1;
    assert trips[m].sent == c.req[..c.reqSent];
    assert c.req[..c.reqSent] + c.req[c.reqSent..sent] == c.req[..sent];
    var more := trips[m := trips[m].(sent := c.req[..sent], heard := heard)];
    assert trips[m] in trips;
    assert forall t <- more :: t in trips || t == more[m];
  }

  lemma TravelTravelled(s: State, id: nat, sent: nat, heard: bool)
    requires Inv(s) && CanTravel(s, id, sent, heard)
    ensures var t := Travel(s, id, sent, heard); Travelled(t.ctx, t.h, t.next)
  {
    var t := Travel(s, id, sent, heard);
    var c := s.ctx[id];
    assert SameForOthers(s.ctx, id, s.h.conns, s.h.conns);
    hide Counted, Ledgered, Spoken, Listed, Held, SameServer, GoodTrips, TravelOk, SameForOthers;
    assert t.ctx[id] == c.(reqSent := sent, gotBytes := heard);
    LastTripOk(id, c, s.h.asked[id], s.h.trips[id], s.h.conns, s.h.busy, sent, heard);
    TravelledStep(s.ctx, s.h, s.next, id, t.ctx[id], t.h);
  }

  lemma TravelOpen(s: State, id: nat, sent: nat, heard: bool)
    requires Inv(s) && CanTravel(s, id, sent, heard)
    ensures var t := Travel(s, id, sent, heard);
      && Listed(t.list, t.ctx, t.next) && Held(t.ctx, t.keep, t.h.conns)
      && Counted(t.h.conns, t.open, t.tlsOpen) && Ledgered(t.h.conns, t.h.ledger) && t.h.late == {}
  {
    hide Counted, Ledgered, Held, Listed, Travelled, Spoken;
    var c := s.ctx[id].(reqSent := sent, gotBytes := heard);
    ListedSet(s.list, s.ctx, s.next, id, c);
    HeldSet(s.ctx, s.keep, s.h.conns, id, c);
  }

  lemma TravelSpoken(s: State, id: nat, sent: nat, heard: bool)
    requires Inv(s) && CanTravel(s, id, sent, heard)
    ensures var t := Travel(s, id, sent, heard); Spoken(t.ctx, t.h.said, t.h.busy, t.next)
  {
    hide Counted, Ledgered, Held, Listed, Travelled, LastOnce, NoLast;
  }

  lemma TravelKeepsInv(s: State, id: nat, sent: nat, heard: bool)
    requires Inv(s) && CanTravel(s, id, sent, heard)
    ensures Inv(Travel(s, id, sent, heard))
  {
    hide Counted, Ledgered, Held, Listed, Travelled, Spoken, Travel;
    TravelTravelled(s, id, sent, heard);
    TravelOpen(s, id, sent, heard);
    TravelSpoken(s, id, sent, heard);
  }

  /** What has gone out on a fetch's connection. */
  lemma SentSoFar(s: State, id: nat)
    requires Inv(s) && id in s.ctx && s.ctx[id].sock.Some?
    ensures id in s.h.trips && s.h.trips[id] != [] && s.ctx[id].reqSent <= |s.ctx[id].req|
    ensures s.h.trips[id][|s.h.trips[id]| - 1].sent == s.ctx[id].req[..s.ctx[id].reqSent]
  {
    hide Counted, Ledgered, Held, Listed, Spoken, GoodTrips, SameServer, Reading, Unheard;
    assert TravelOk(id, s.ctx[id], s.h.asked[id], s.h.trips[id], s.h.conns, s.h.busy);
  }

  /** retry_fresh: a kept connection that never answered leaves a fetch as it was before it. */
  lemma StillUnheard(s: State, id: nat)
    requires Inv(s) && id in s.ctx && !s.ctx[id].dead && id !in s.h.busy && s.ctx[id].sock.Some?
    requires s.ctx[id].reused && !s.ctx[id].gotBytes
    ensures id in s.h.trips && (forall t <- s.h.trips[id] :: t.reused && !t.heard) && !s.ctx[id].request.post
    ensures s.ctx[id].r == EMPTY && !s.ctx[id].trailing
  {
    OnLastTrip(s, id);
    hide Counted, Ledgered, Held, Listed, Spoken, SameServer, Reading;
    var c, trips := s.ctx[id], s.h.trips[id];
    assert TravelOk(id, c, s.h.asked[id], trips, s.h.conns, s.h.busy) && GoodTrips(s.h.asked[id], trips);
    assert trips[|trips| - 1] in trips;
    forall t | t in trips ensures t.reused && !t.heard {
      var k :| 0 <= k < |trips| && trips[k] == t;
    }
  }

  function Rewind(s: State, id: nat): State
    requires id in s.ctx
  {
    SetCtx(s, id, s.ctx[id].(reused := false, reqSent := 0, phase := Resolve))
  }

  lemma RewindKeepsInv(s: State, id: nat)
    requires Inv(s) && id in s.ctx && s.ctx[id].sock == None && id in s.h.busy
    ensures Inv(Rewind(s, id))
  {
    var c := s.ctx[id].(reused := false, reqSent := 0, phase := Resolve);
    hide Counted, Ledgered, GoodTrips, LastOnce, NoLast, SameServer, Held, Listed, Reading;
    ListedSet(s.list, s.ctx, s.next, id, c);
    HeldSet(s.ctx, s.keep, s.h.conns, id, c);
    assert Spoken(s.ctx[id := c], s.h.said, s.h.busy, s.next) by { hide Travelled; }
    hide Spoken;
    assert Travelled(s.ctx[id := c], s.h, s.next);
  }

  lemma OnLastTrip(s: State, id: nat)
    requires Inv(s) && id in s.ctx
    ensures id in s.h.trips && id in s.h.asked && id in s.h.said && id < s.next
    ensures s.ctx[id].sock.Some? ==> s.h.trips[id] != []
    ensures s.ctx[id].sock.Some? ==>
      s.ctx[id].reqSent <= |s.ctx[id].req| && (!s.ctx[id].gotBytes ==> s.ctx[id].r == EMPTY)
    ensures !s.ctx[id].dead && id !in s.h.busy ==>
      NoLast(s.h.said[id]) && (HasConn(s.ctx[id].phase) <==> s.ctx[id].sock.Some?)
    ensures !s.ctx[id].dead && id !in s.h.busy ==> s.ctx[id].r.final == None && Reading(s.ctx[id].r)
    ensures !s.ctx[id].dead && id !in s.h.busy && s.ctx[id].sock == None ==> Unheard(s.ctx[id], s.h.trips[id])
  {
    hide Counted, Ledgered, Held, GoodTrips, LastOnce, SameServer, Reading, Unheard, NoLast;
    assert TravelOk(id, s.ctx[id], s.h.asked[id], s.h.trips[id], s.h.conns, s.h.busy);
  }

  // ---- Messages, and the life of a fetch ----

  function Say(s: State, id: nat, m: Msg): State
    requires id in s.h.said && id in s.ctx
  {
    s.(h := s.h.(said := s.h.said[id := s.h.said[id] + [m]],
                 late := s.h.late + if s.ctx[id].aborted then {id} else {}))
  }

  lemma SaidMore(said: seq<Msg>, m: Msg)
    requires NoLast(said)
    ensures LastOnce(said + [m]) && (!m.Last? ==> NoLast(said + [m]))
  {
    assert forall k | 0 <= k < |said| :: (said + [m])[k] == said[k] && said[k] in said;
    assert forall n <- said + [m] :: n in said || n == m;
  }

  lemma SpokenMore(ctx: map<nat, Ctx>, said: map<nat, seq<Msg>>, busy: set<nat>, next: nat, id: nat, now: seq<Msg>)
    requires Spoken(ctx, said, busy, next) && LastOnce(now) && (NoLast(now) || id in busy)
    ensures Spoken(ctx, said[id := now], busy, next)
  {
    hide LastOnce, NoLast;
  }

  lemma SayKeepsInv(s: State, id: nat, m: Msg)
    requires Inv(s) && id in s.ctx && !s.ctx[id].aborted
    requires id in s.h.said && NoLast(s.h.said[id]) && (m.Last? ==> id in s.h.busy)
    ensures Inv(Say(s, id, m))
    ensures !m.Last? ==> NoLast(Say(s, id, m).h.said[id])
  {
    hide Counted, Ledgered, Held, Listed, Spoken, TravelOk, GoodTrips, NoLast, LastOnce;
    SaidMore(s.h.said[id], m);
    SpokenMore(s.ctx, s.h.said, s.h.busy, s.next, id, s.h.said[id] + [m]);
    assert Travelled(s.ctx, Say(s, id, m).h, s.next);
  }

  function Begin(s: State, id: nat): State { s.(h := s.h.(busy := s.h.busy + {id})) }

  lemma BeginKeepsInv(s: State, id: nat)
    requires Inv(s)
    ensures Inv(Begin(s, id))
  {
    hide Counted, Ledgered, Held, Listed;
    assert Spoken(s.ctx, s.h.said, Begin(s, id).h.busy, s.next) by { hide Travelled, LastOnce, NoLast; }
    hide Spoken;
    assert Travelled(s.ctx, Begin(s, id).h, s.next) by { hide GoodTrips, OnTrip, Unheard, Reading; }
  }

  function Settle(s: State, id: nat): State { s.(h := s.h.(busy := s.h.busy - {id})) }

  /** A fetch may leave finish_with dead, or retry_fresh as if it had not begun. */
  predicate CanSettle(s: State, id: nat)
  {
    && id in s.ctx && id in s.h.said && id in s.h.trips
    && (s.ctx[id].dead
        || (&& s.ctx[id].sock == None && !HasConn(s.ctx[id].phase) && NoLast(s.h.said[id])
            && Unheard(s.ctx[id], s.h.trips[id])))
  }

  lemma SettleKeepsInv(s: State, id: nat)
    requires Inv(s) && CanSettle(s, id)
    ensures Inv(Settle(s, id))
  {
    hide Counted, Ledgered, Held, Listed;
    assert Spoken(s.ctx, s.h.said, Settle(s, id).h.busy, s.next) by { hide Travelled, LastOnce, NoLast; }
    hide Spoken;
    assert Travelled(s.ctx, Settle(s, id).h, s.next) by { hide GoodTrips, OnTrip; }
  }

  /** http_setup */
  function Add(s: State, c: Ctx): State
  {
    SetCtx(s, s.next, c).(
      list := s.list + [s.next], next := s.next + 1,
      h := s.h.(asked := s.h.asked[s.next := Asked(c.server, c.request.post, c.req)],
                said := s.h.said[s.next := []], trips := s.h.trips[s.next := []]))
  }

  predicate NewFetch(c: Ctx)
  {
    c == Ctx(c.server, c.request, c.req, c.handoff, false, false, false, false,
             Resolve, None, false, 0, false, EMPTY, false)
  }

  lemma AddListed(list: seq<nat>, ctx: map<nat, Ctx>, next: nat, c: Ctx)
    requires Listed(list, ctx, next)
    ensures Listed(list + [next], ctx[next := c], next + 1) && next !in ctx
  {
    assert forall i <- ctx :: i in list && i < next;
    var more := list + [next];
    forall a, b | 0 <= a < b < |more| ensures more[a] != more[b] {
      assert list[a] in list;
    }
  }

  lemma HeldAdd(ctx: map<nat, Ctx>, keep: seq<Option<Kept>>, conns: map<Handle, Conn>, id: nat, c: Ctx)
    requires Held(ctx, keep, conns) && id !in ctx && c.sock == None
    ensures Held(ctx[id := c], keep, conns)
  {
    hide SameServer, SlotHolds;
    var now := ctx[id := c];
    forall x | x in conns ensures HolderHas(now, keep, x, conns[x].owner) {
      assert HolderHas(ctx, keep, x, conns[x].owner);
    }
    forall i | i in now ensures FetchHolds(i, now[i], conns) { if i != id { assert FetchHolds(i, ctx[i], conns); } }
  }

  lemma AddTravelled(s: State, c: Ctx)
    requires Inv(s) && NewFetch(c) && s.next !in s.ctx
    ensures var t := Add(s, c); Travelled(t.ctx, t.h, t.next)
  {
    hide Counted, Ledgered, Held, Listed, Spoken, SameServer, OnTrip;
    var t := Add(s, c);
    assert GoodTrips(t.h.asked[s.next], []) && Unheard(c, []) && Reading(EMPTY);
    hide GoodTrips, Unheard, Reading;
    forall i | i in t.ctx
      ensures i in t.h.asked && i in t.h.trips && TravelOk(i, t.ctx[i], t.h.asked[i], t.h.trips[i], t.h.conns, t.h.busy)
    {
      if i != s.next { assert TravelOk(i, s.ctx[i], s.h.asked[i], s.h.trips[i], s.h.conns, s.h.busy); }
    }
  }

  lemma AddKeepsInv(s: State, c: Ctx)
    requires Inv(s) && NewFetch(c)
    ensures Inv(Add(s, c)) && s.next !in s.ctx
  {
    hide Counted, Ledgered, Held, Listed, Travelled;
    AddListed(s.list, s.ctx, s.next, c);
    HeldAdd(s.ctx, s.keep, s.h.conns, s.next, c);
    AddTravelled(s, c);
    assert Spoken(Add(s, c).ctx, Add(s, c).h.said, s.h.busy, s.next + 1);
  }

  function Without(list: seq<nat>, id: nat): (r: seq<nat>)
    ensures forall i :: i in r <==> i in list && i != id
  {
    if list == [] then [] else (if list[0] == id then [] else [list[0]]) + Without(list[1..], id)
  }

  /** http_free, after release */
  function Remove(s: State, id: nat): State { s.(ctx := s.ctx - {id}, list := Without(s.list, id)) }

  lemma {:induction false} WithoutDistinct(list: seq<nat>, id: nat)
    requires Distinct(list)
    ensures Distinct(Without(list, id)) && |Without(list, id)| == if id in list then |list| - 1 else |list|
  {
    if list != [] {
      assert Distinct(list[1..]) by {
        forall a, b | 0 <= a < b < |list[1..]| ensures list[1..][a] != list[1..][b] {
          assert list[a + 1] != list[b + 1];
        }
      }
      WithoutDistinct(list[1..], id);
      assert list[0] !in list[1..];
      var rest := Without(list[1..], id);
      if list[0] != id {
        assert Without(list, id) == [list[0]] + rest;
        assert list[0] !in rest;
      } else {
        assert Without(list, id) == rest;
      }
    }
  }

  lemma HeldRemove(ctx: map<nat, Ctx>, keep: seq<Option<Kept>>, conns: map<Handle, Conn>, id: nat)
    requires Held(ctx, keep, conns) && id in ctx && ctx[id].sock == None
    ensures Held(ctx - {id}, keep, conns)
  {
    hide SameServer, SlotHolds;
    var now := ctx - {id};
    forall x | x in conns ensures HolderHas(now, keep, x, conns[x].owner) {
      assert HolderHas(ctx, keep, x, conns[x].owner);
    }
    forall i | i in now ensures FetchHolds(i, now[i], conns) { assert FetchHolds(i, ctx[i], conns); }
  }

  lemma RemoveListed(list: seq<nat>, ctx: map<nat, Ctx>, next: nat, id: nat)
    requires Listed(list, ctx, next) && id in ctx
    ensures Listed(Without(list, id), ctx - {id}, next) && |Without(list, id)| == |list| - 1
  {
    WithoutDistinct(list, id);
    hide Distinct, Without;
  }

  lemma RemoveKeepsInv(s: State, id: nat)
    requires Inv(s) && id in s.ctx && s.ctx[id].sock == None
    ensures Inv(Remove(s, id)) && |Remove(s, id).list| == |s.list| - 1
  {
    hide Listed, Counted, Ledgered, Held, GoodTrips, LastOnce, NoLast, TravelOk, Without;
    RemoveListed(s.list, s.ctx, s.next, id);
    HeldRemove(s.ctx, s.keep, s.h.conns, id);
    assert Spoken(s.ctx - {id}, s.h.said, s.h.busy, s.next);
    assert Travelled(s.ctx - {id}, s.h, s.next);
  }

  // ---- What it comes to ----

  lemma SockOpen(s: State, id: nat)
    requires Inv(s) && id in s.ctx && s.ctx[id].sock.Some?
    ensures s.ctx[id].sock.value in s.open
  {
    assert FetchHolds(id, s.ctx[id], s.h.conns);
  }

  lemma SlotOpen(s: State, k: nat)
    requires Inv(s) && k < |s.keep| && s.keep[k].Some?
    ensures s.keep[k].value.handle in s.open
  {
    assert SlotHolds(k, s.keep[k], s.h.conns);
  }

  lemma SlotCount(s: State)
    requires Inv(s)
    ensures |s.keep| == KEEP_MAX
  {}

  lemma AtMostTls(s: State)
    requires Inv(s)
    ensures 0 <= s.tlsOpen <= TLS_MAX
  {}

  lemma TlsPositive(s: State, k: nat)
    requires Inv(s) && SlotHasConn(s, k) && s.keep[k].value.handle.tls
    ensures s.tlsOpen > 0
  {
    assert s.keep[k].value.handle in TlsOf(s.h.conns);
  }

  lemma ForgetBusy(s: State, id: nat)
    requires Inv(s) && s.h.busy <= {id} && id !in s.ctx
    ensures Inv(s.(h := s.h.(busy := {})))
  {
    hide Counted, Ledgered, Held, Listed, GoodTrips, LastOnce, NoLast, OnTrip, Unheard, Reading;
    assert Spoken(s.ctx, s.h.said, {}, s.next) by { hide Travelled; }
    hide Spoken;
    forall i | i in s.ctx ensures TravelOk(i, s.ctx[i], s.h.asked[i], s.h.trips[i], s.h.conns, {}) {
      assert TravelOk(i, s.ctx[i], s.h.asked[i], s.h.trips[i], s.h.conns, s.h.busy);
    }
  }

  lemma ListedHere(s: State, k: nat)
    requires Inv(s) && k < |s.list|
    ensures s.list[k] in s.ctx
  {}

  lemma AllListed(s: State)
    requires Inv(s)
    ensures (forall i <- s.ctx :: i in s.list) && forall i <- s.list :: i in s.ctx
  {}

  /** An open handle is held by exactly one fetch or kept in exactly one slot, and leads to its holder's server. */
  ghost predicate OneHolder(s: State, x: Handle)
  {
    exists o :: HolderHas(s.ctx, s.keep, x, o) && forall p | HolderHas(s.ctx, s.keep, x, p) :: p == o
  }

  /** The handles somebody holds. */
  function HeldHandles(s: State): set<Handle>
  {
    (set i | i in s.ctx && s.ctx[i].sock.Some? :: s.ctx[i].sock.value)
    + (set k | 0 <= k < |s.keep| && s.keep[k].Some? :: s.keep[k].value.handle)
  }

  function Closings(ledger: seq<Opening>): nat
  {
    if ledger == [] then 0 else ledger[|ledger| - 1].closes + Closings(ledger[..|ledger| - 1])
  }

  /** What every run keeps. */
  ghost predicate AllRules(s: State)
  {
    && s.open == HeldHandles(s) && (forall x <- s.open :: OneHolder(s, x))
    && s.tlsOpen == |set x | x in HeldHandles(s) && x.tls| && s.tlsOpen <= TLS_MAX
    && (forall o <- s.h.ledger :: o.closes <= 1)
    && Closings(s.h.ledger) + |s.open| == |s.h.ledger|
    && (forall i: nat | i < s.next :: i in s.h.said && LastOnce(s.h.said[i])) && s.h.late == {}
    && (forall i: nat | i < s.next :: i in s.h.asked && i in s.h.trips && GoodTrips(s.h.asked[i], s.h.trips[i]))
  }

  lemma Holder(s: State, x: Handle)
    requires Inv(s) && x in s.open
    ensures OneHolder(s, x) && x in HeldHandles(s)
  {
    hide Listed, Ledgered, Spoken, Travelled, SameServer;
    assert x in s.h.conns;
    var o := s.h.conns[x].owner;
    assert HolderHas(s.ctx, s.keep, x, o);
    forall p | HolderHas(s.ctx, s.keep, x, p) ensures p == o {
      match p {
        case ByFetch(i) => assert FetchHolds(i, s.ctx[i], s.h.conns);
        case BySlot(k) => assert SlotHolds(k, s.keep[k], s.h.conns);
      }
    }
  }

  lemma HeldAreOpen(s: State)
    requires Inv(s)
    ensures s.open == HeldHandles(s)
  {
    hide Listed, Ledgered, Spoken, Travelled, SameServer, OneHolder;
    forall x | x in s.open ensures x in HeldHandles(s) { Holder(s, x); }
    forall x | x in HeldHandles(s) ensures x in s.open {
      if i :| i in s.ctx && s.ctx[i].sock == Some(x) {
        assert FetchHolds(i, s.ctx[i], s.h.conns);
      } else {
        var k: nat :| k < |s.keep| && s.keep[k].Some? && s.keep[k].value.handle == x;
        assert SlotHolds(k, s.keep[k], s.h.conns);
      }
    }
  }

  function OpenBelow(conns: map<Handle, Conn>, n: nat): set<Handle> { set x | x in conns && conns[x].serial < n }

  lemma {:induction false} Counts(conns: map<Handle, Conn>, ledger: seq<Opening>, n: nat)
    requires Ledgered(conns, ledger) && n <= |ledger|
    decreases n
    ensures Closings(ledger[..n]) + |OpenBelow(conns, n)| == n
  {
    if n == 0 {
      assert OpenBelow(conns, 0) == {};
    } else {
      Counts(conns, ledger, n - 1);
      assert ledger[..n][..n - 1] == ledger[..n - 1] && ledger[..n][n - 1] == ledger[n - 1];
      OneMoreBelow(conns, ledger, n);
      hide OpenBelow, Ledgered;
    }
  }

  lemma OneMoreBelow(conns: map<Handle, Conn>, ledger: seq<Opening>, n: nat)
    requires Ledgered(conns, ledger) && 0 < n <= |ledger|
    ensures |OpenBelow(conns, n)| == |OpenBelow(conns, n - 1)| + (1 - ledger[n - 1].closes)
  {
    var o := ledger[n - 1];
    if OpenNow(o, n - 1, conns) {
      assert OpenBelow(conns, n) == OpenBelow(conns, n - 1) + {o.handle};
      assert o.handle !in OpenBelow(conns, n - 1);
    } else {
      assert OpenBelow(conns, n) == OpenBelow(conns, n - 1);
    }
  }

  lemma AllCounted(conns: map<Handle, Conn>, ledger: seq<Opening>)
    requires Ledgered(conns, ledger)
    ensures Closings(ledger) + |conns.Keys| == |ledger| && forall o <- ledger :: o.closes <= 1
  {
    Counts(conns, ledger, |ledger|);
    assert ledger[..|ledger|] == ledger && OpenBelow(conns, |ledger|) == conns.Keys;
    hide OpenNow;
    forall o | o in ledger ensures o.closes <= 1 {
      var k: nat :| k < |ledger| && ledger[k] == o;
    }
  }

  lemma RulesHold(s: State)
    requires Inv(s)
    ensures AllRules(s)
  {
    hide Listed, Held, Ledgered, OneHolder, GoodTrips, LastOnce, HeldHandles, TravelOk, Closings;
    HeldAreOpen(s);
    AllCounted(s.h.conns, s.h.ledger);
    forall x | x in s.open ensures OneHolder(s, x) { Holder(s, x); }
    assert (set x | x in s.open && x.tls) == TlsOf(s.h.conns);
  }
}
