/** The frame slots of ports/video/papp_player.c. The video task and the main task pass slot numbers
    through two single-producer single-consumer rings; every load and store of a shared variable is a
    step of its own, and a seek may bump the serial between any two of them. */
module FrameSlots {
  import opened Wrappers

  const NSLOTS := 4
  const CELLS := 5

  /** idxq_t, with its counters as unbounded numbers. */
  datatype IdxQ = IdxQ(idx: seq<nat>, head: nat, tail: nat)

  datatype Frame = Frame(pts: int, serial: int)

  /** The video task from a decoded frame `f` to its place in the ready queue; `slot` is -1 for none. */
  datatype Video =
    | Decoding
    | HeldLoaded(f: Frame, slot: int)
    | Seeking(f: Frame, slot: int)
    | NotStopped(f: Frame)
    | TailLoaded(f: Frame, t: nat)
    | Found(f: Frame, t: nat)
    | IdxLoaded(f: Frame, t: nat, slot: int)
    | Taken(f: Frame, slot: int)
    | Emptied(f: Frame, slot: int)
    | Current(f: Frame, slot: int)
    | Filled(f: Frame, slot: int)
    | PushHead(f: Frame, slot: int, h: nat)
    | PushRoom(f: Frame, slot: int, h: nat)
    | PushStored(f: Frame, slot: int, h: nat)
    | Keeping(slot: int)

  /** The main task from looking at the ready queue to giving the slot back. */
  datatype Main =
    | Looking
    | PeekTail(mt: nat)
    | PeekFound(mt: nat)
    | Peeked(idx: nat)
    | NextPeeked(idx: nat, next: nat)
    | Dropping(idx: nat)
    | Owning(idx: nat)
    | BackHead(idx: nat, h: nat)
    | BackRoom(idx: nat, h: nat)
    | BackStored(idx: nat, h: nat)

  datatype Player = Player(
    freeq: IdxQ, readyq: IdxQ, held: int, serial: int, stop: bool, slots: seq<Option<Frame>>,
    video: Video, main: Main, pushFailed: bool, queued: seq<Frame>)

  /** What the two tasks and the demuxer do; `choice` is what the main task decides about the frame it looks at. */
  datatype Action = Decoded(f: Frame) | VideoStep | MainStep(choice: Choice) | Bump | Stop

  datatype Choice = Leave | Drop | LookAtNext

  function Init(): Player
  {
    Player(IdxQ([0, 1, 2, 3, 0], 4, 0), IdxQ([0, 0, 0, 0, 0], 0, 0), -1, 0, false,
           [None, None, None, None], Decoding, Looking, false, [])
  }

  function Contents(q: IdxQ): seq<nat>
    requires |q.idx| == CELLS && q.tail <= q.head
  {
    seq(q.head - q.tail, i requires 0 <= i < q.head - q.tail => q.idx[(q.tail + i) % CELLS])
  }

  function Store(q: IdxQ, h: nat, v: nat): IdxQ
    requires |q.idx| == CELLS
  {
    q.(idx := q.idx[h % CELLS := v])
  }

  predicate Shaped(p: Player) { |p.freeq.idx| == CELLS && |p.readyq.idx| == CELLS && |p.slots| == NSLOTS }

  predicate IsSlot(i: int) { 0 <= i < NSLOTS }

  function VideoNext(p: Player): Player
    requires Shaped(p)
  {
    match p.video
    case Decoding => p
    case HeldLoaded(f, slot) => p.(held := -1, video := Seeking(f, slot))
    case Seeking(f, slot) =>
      if slot >= 0 then p.(video := Taken(f, slot))
      else if p.stop then p.(video := Decoding)
      else p.(video := NotStopped(f))
    case NotStopped(f) =>
      if f.serial != p.serial then p.(video := Decoding) else p.(video := TailLoaded(f, p.freeq.tail))
    case TailLoaded(f, t) => if t == p.freeq.head then p.(video := Seeking(f, -1)) else p.(video := Found(f, t))
    case Found(f, t) => p.(video := IdxLoaded(f, t, p.freeq.idx[t % CELLS]))
    case IdxLoaded(f, t, slot) => p.(freeq := p.freeq.(tail := t + 1), video := Seeking(f, slot))
    case Taken(f, slot) =>
      if IsSlot(slot) then p.(slots := p.slots[slot := None], video := Emptied(f, slot)) else p
    case Emptied(f, slot) => if f.serial == p.serial then p.(video := Current(f, slot)) else p.(video := Keeping(slot))
    case Current(f, slot) =>
      if IsSlot(slot) then p.(slots := p.slots[slot := Some(f)], video := Filled(f, slot)) else p
    case Filled(f, slot) => p.(video := PushHead(f, slot, p.readyq.head))
    case PushHead(f, slot, h) =>
      if h - p.readyq.tail > NSLOTS then p.(video := Decoding, pushFailed := true)
      else p.(video := PushRoom(f, slot, h))
    case PushRoom(f, slot, h) =>
      if slot >= 0 then p.(readyq := Store(p.readyq, h, slot), video := PushStored(f, slot, h)) else p
    case PushStored(f, slot, h) =>
      p.(readyq := p.readyq.(head := h + 1), video := Decoding, queued := p.queued + [f])
    case Keeping(slot) => p.(held := slot, video := Decoding)
  }

  function MainNext(p: Player, choice: Choice): Player
    requires Shaped(p)
  {
    match p.main
    case Looking => p.(main := PeekTail(p.readyq.tail))
    case PeekTail(t) => if t == p.readyq.head then p.(main := Looking) else p.(main := PeekFound(t))
    case PeekFound(t) => p.(main := Peeked(p.readyq.idx[p.readyq.tail % CELLS]))
    case Peeked(idx) =>
      // A frame of an older serial is dropped; of the current one the clock decides.
      if IsSlot(idx) && p.slots[idx].Some? && p.slots[idx].value.serial != p.serial then p.(main := Dropping(idx))
      else if choice == Leave then p.(main := Looking)
      else if choice == LookAtNext && p.readyq.head - p.readyq.tail > 1 then
        p.(main := NextPeeked(idx, p.readyq.idx[(p.readyq.tail + 1) % CELLS]))
      else p.(main := Dropping(idx))
    case NextPeeked(idx, next) => p.(main := Dropping(idx))
    case Dropping(idx) => p.(readyq := p.readyq.(tail := p.readyq.tail + 1), main := Owning(idx))
    case Owning(idx) => p.(main := BackHead(idx, p.freeq.head))
    case BackHead(idx, h) =>
      if h - p.freeq.tail > NSLOTS then p.(main := Looking, pushFailed := true) else p.(main := BackRoom(idx, h))
    case BackRoom(idx, h) => p.(freeq := Store(p.freeq, h, idx), main := BackStored(idx, h))
    case BackStored(idx, h) => p.(freeq := p.freeq.(head := h + 1), main := Looking)
  }

  predicate Enabled(p: Player, a: Action)
  {
    match a
    case Decoded(_) => p.video.Decoding?
    case VideoStep => !p.video.Decoding?
    case _ => true
  }

  function Next(p: Player, a: Action): Player
    requires Shaped(p) && Enabled(p, a)
  {
    match a
    case Decoded(f) => p.(video := HeldLoaded(f, p.held))
    case VideoStep => VideoNext(p)
    case MainStep(choice) => MainNext(p, choice)
    case Bump => p.(serial := p.serial + 1)
    case Stop => p.(stop := true)
  }

  // ---- Owners ----

  /** The slot the video task has to itself, if any. */
  function VideoOwns(v: Video): seq<nat>
  {
    var slot := match v
      case HeldLoaded(_, s) => s
      case Seeking(_, s) => s
      case Taken(_, s) => s
      case Emptied(_, s) => s
      case Current(_, s) => s
      case Filled(_, s) => s
      case PushHead(_, s, _) => s
      case PushRoom(_, s, _) => s
      case PushStored(_, s, _) => s
      case Keeping(s) => s
      case _ => -1;
    if slot >= 0 then [slot] else []
  }

  function MainOwns(m: Main): seq<nat>
  {
    match m
    case Owning(i) => [i]
    case BackHead(i, _) => [i]
    case BackRoom(i, _) => [i]
    case BackStored(i, _) => [i]
    case _ => []
  }

  /** held_slot counts until the video task has taken it over. */
  function HeldOwns(p: Player): seq<nat> { if p.held >= 0 && !p.video.HeldLoaded? then [p.held] else [] }

  /** Every slot, once for each owner it has. */
  function Owned(p: Player): multiset<nat>
    requires Shaped(p) && p.freeq.tail <= p.freeq.head && p.readyq.tail <= p.readyq.head
  {
    multiset(Contents(p.freeq)) + multiset(Contents(p.readyq)) + multiset(HeldOwns(p))
    + multiset(VideoOwns(p.video)) + multiset(MainOwns(p.main))
  }

  const EACH_ONCE: multiset<nat> := multiset{0, 1, 2, 3}

  /** What the video task has loaded is still so. */
  ghost predicate VideoOk(v: Video, held: int, freeq: IdxQ, readyq: IdxQ, slots: seq<Option<Frame>>)
    requires |freeq.idx| == CELLS && |readyq.idx| == CELLS && |slots| == NSLOTS
  {
    match v
    case Decoding => true
    case HeldLoaded(_, s) => s == held
    case TailLoaded(_, t) => held == -1 && t == freeq.tail
    case Found(_, t) => held == -1 && t == freeq.tail < freeq.head
    case IdxLoaded(_, t, s) => held == -1 && t == freeq.tail < freeq.head && s == freeq.idx[t % CELLS]
    case Seeking(_, s) => held == -1 && (s == -1 || IsSlot(s))
    case NotStopped(_) => held == -1
    case Taken(_, s) => held == -1 && IsSlot(s)
    case Emptied(_, s) => held == -1 && IsSlot(s)
    case Current(_, s) => held == -1 && IsSlot(s)
    case Keeping(s) => held == -1 && IsSlot(s)
    case Filled(f, s) => held == -1 && IsSlot(s) && slots[s] == Some(f)
    case PushHead(f, s, h) => held == -1 && IsSlot(s) && slots[s] == Some(f) && h == readyq.head
    case PushRoom(f, s, h) => held == -1 && IsSlot(s) && slots[s] == Some(f) && h == readyq.head
    case PushStored(f, s, h) =>
      held == -1 && IsSlot(s) && slots[s] == Some(f) && h == readyq.head && readyq.idx[h % CELLS] == s
  }

  /** And what the main task has loaded. */
  ghost predicate MainOk(m: Main, freeq: IdxQ, readyq: IdxQ)
    requires |freeq.idx| == CELLS && |readyq.idx| == CELLS
  {
    match m
    case Looking => true
    case PeekTail(t) => t == readyq.tail
    case PeekFound(t) => t == readyq.tail < readyq.head
    case Peeked(i) => readyq.tail < readyq.head && i == readyq.idx[readyq.tail % CELLS]
    case NextPeeked(i, n) =>
      && readyq.tail + 1 < readyq.head && i == readyq.idx[readyq.tail % CELLS]
      && n == readyq.idx[(readyq.tail + 1) % CELLS]
    case Dropping(i) => readyq.tail < readyq.head && i == readyq.idx[readyq.tail % CELLS]
    case Owning(i) => true
    case BackHead(_, h) => h == freeq.head
    case BackRoom(_, h) => h == freeq.head
    case BackStored(i, h) => h == freeq.head && freeq.idx[h % CELLS] == i
  }

  /** A ready slot still holds the frame it was queued with, and they come in that order. */
  ghost predicate FramesOk(readyq: IdxQ, slots: seq<Option<Frame>>, queued: seq<Frame>)
    requires |readyq.idx| == CELLS && |slots| == NSLOTS
  {
    && |queued| == readyq.head
    && forall i | readyq.tail <= i < readyq.head ::
         var s := readyq.idx[i % CELLS]; s < NSLOTS && slots[s] == Some(queued[i])
  }

  predicate QueueOk(q: IdxQ) { |q.idx| == CELLS && q.tail <= q.head <= q.tail + NSLOTS }

  ghost predicate Inv(p: Player)
  {
    && QueueOk(p.freeq) && QueueOk(p.readyq) && |p.slots| == NSLOTS
    && -1 <= p.held < NSLOTS && !p.pushFailed
    && Owned(p) == EACH_ONCE
    && VideoOk(p.video, p.held, p.freeq, p.readyq, p.slots) && MainOk(p.main, p.freeq, p.readyq)
    && FramesOk(p.readyq, p.slots, p.queued)
  }

  lemma InitInv()
    ensures Inv(Init())
  {
    var p := Init();
    assert Contents(p.freeq) == [0, 1, 2, 3];
    assert Contents(p.readyq) == [];
  }

  // ---- What the queue operations do to the contents ----

  lemma Publish(q: IdxQ, v: nat)
    requires |q.idx| == CELLS && q.tail <= q.head <= q.tail + NSLOTS && q.idx[q.head % CELLS] == v
    ensures Contents(q.(head := q.head + 1)) == Contents(q) + [v]
  {}

  lemma StoreUnseen(q: IdxQ, v: nat)
    requires |q.idx| == CELLS && q.tail <= q.head <= q.tail + NSLOTS
    ensures Contents(Store(q, q.head, v)) == Contents(q)
    ensures Store(q, q.head, v).idx[q.head % CELLS] == v
    ensures forall i | q.tail <= i < q.head :: Store(q, q.head, v).idx[i % CELLS] == q.idx[i % CELLS]
  {
    forall i | q.tail <= i < q.head ensures i % CELLS != q.head % CELLS {}
  }

  lemma DropOne(q: IdxQ)
    requires |q.idx| == CELLS && q.tail < q.head
    ensures Contents(q) == [q.idx[q.tail % CELLS]] + Contents(q.(tail := q.tail + 1))
  {}

  lemma EachOnce(s: nat)
    ensures EACH_ONCE[s] == (if s < NSLOTS then 1 else 0) && |EACH_ONCE| == NSLOTS
  {}

  /** Five multisets that together hold each slot once. */
  lemma Counted(f: multiset<nat>, r: multiset<nat>, h: multiset<nat>, v: multiset<nat>, m: multiset<nat>, s: nat)
    requires f + r + h + v + m == EACH_ONCE
    ensures |f| + |r| + |h| + |v| + |m| == NSLOTS
    ensures f[s] + r[s] + h[s] + v[s] + m[s] == if s < NSLOTS then 1 else 0
  {
    EachOnce(s);
    hide EACH_ONCE;
    var all := f + r + h + v + m;
    assert all[s] == f[s] + r[s] + h[s] + v[s] + m[s];
  }

  /** With each slot owned once, the two queues and their users share four. */
  lemma FourInAll(p: Player)
    requires Inv(p)
    ensures p.freeq.head - p.freeq.tail + p.readyq.head - p.readyq.tail
         + |HeldOwns(p)| + |VideoOwns(p.video)| + |MainOwns(p.main)| == NSLOTS
  {
    hide VideoOk, MainOk, FramesOk, VideoOwns, MainOwns, HeldOwns, EACH_ONCE;
    Lengths(p);
    hide Contents;
    Counted(multiset(Contents(p.freeq)), multiset(Contents(p.readyq)), multiset(HeldOwns(p)),
      multiset(VideoOwns(p.video)), multiset(MainOwns(p.main)), 0);
  }

  /** Nothing is in two places. */
  lemma OnceEach(p: Player, s: nat)
    requires Inv(p)
    ensures s in Contents(p.readyq) ==> s < NSLOTS && s !in VideoOwns(p.video) && s !in MainOwns(p.main)
    ensures s in Contents(p.freeq) ==> s < NSLOTS && s !in VideoOwns(p.video) && s !in MainOwns(p.main)
    ensures s in VideoOwns(p.video) ==> s < NSLOTS && s !in MainOwns(p.main)
    ensures s in MainOwns(p.main) ==> s < NSLOTS
    ensures s in HeldOwns(p) ==> s < NSLOTS
  {
    var f, r, h, v, m := multiset(Contents(p.freeq)), multiset(Contents(p.readyq)), multiset(HeldOwns(p)),
      multiset(VideoOwns(p.video)), multiset(MainOwns(p.main));
    assert s in r <==> s in Contents(p.readyq);
    assert s in f <==> s in Contents(p.freeq);
    assert s in v <==> s in VideoOwns(p.video);
    assert s in m <==> s in MainOwns(p.main);
    assert s in h <==> s in HeldOwns(p);
    hide Contents, VideoOk, MainOk, FramesOk, VideoOwns, MainOwns, HeldOwns, EACH_ONCE;
    Counted(f, r, h, v, m, s);
  }

  lemma Lengths(p: Player)
    requires QueueOk(p.freeq) && QueueOk(p.readyq)
    ensures |Contents(p.freeq)| == p.freeq.head - p.freeq.tail && |Contents(p.readyq)| == p.readyq.head - p.readyq.tail
  {}

  /** A step that touches neither ring: the video task's own slot stays with it or goes to held_slot. */
  ghost predicate VideoQuiet(p: Player, n: Player)
    requires QueueOk(p.freeq) && QueueOk(p.readyq) && |p.slots| == NSLOTS
  {
    && n.freeq == p.freeq && n.readyq == p.readyq && n.main == p.main && n.queued == p.queued
    && HeldOwns(n) + VideoOwns(n.video) == HeldOwns(p) + VideoOwns(p.video)
    && -1 <= n.held < NSLOTS && |n.slots| == NSLOTS && !n.pushFailed
    && VideoOk(n.video, n.held, n.freeq, n.readyq, n.slots)
    && forall s | 0 <= s < NSLOTS && s !in VideoOwns(p.video) :: n.slots[s] == p.slots[s]
  }

  lemma Acquiring(p: Player)
    requires Inv(p)
    requires p.video.HeldLoaded? || p.video.Seeking? || p.video.NotStopped? || p.video.TailLoaded? || p.video.Found?
    ensures VideoQuiet(p, VideoNext(p))
  {
    hide MainOk, FramesOk, EACH_ONCE, MainOwns, Contents, Owned;
  }

  lemma Filling(p: Player)
    requires Inv(p) && (p.video.Taken? || p.video.Emptied? || p.video.Current? || p.video.Filled? || p.video.Keeping?)
    ensures VideoQuiet(p, VideoNext(p))
  {
    hide MainOk, FramesOk, EACH_ONCE, MainOwns, Contents, Owned;
  }

  /** A push always finds room: the slot it pushes is one of the four. */
  lemma FindingRoom(p: Player)
    requires Inv(p) && p.video.PushHead?
    ensures VideoQuiet(p, VideoNext(p)) && !VideoNext(p).pushFailed
  {
    hide MainOk, FramesOk, EACH_ONCE, MainOwns, Contents, Owned;
    ReadyRoom(p);
  }

  lemma ReadyRoom(p: Player)
    requires Inv(p)
    ensures VideoOwns(p.video) != [] ==> p.readyq.head - p.readyq.tail < NSLOTS
    ensures MainOwns(p.main) != [] ==> p.freeq.head - p.freeq.tail < NSLOTS
  {
    hide VideoOk, MainOk, FramesOk, VideoOwns, MainOwns, HeldOwns, Contents, Owned, EACH_ONCE;
    FourInAll(p);
  }

  // ---- The invariant holds in every run ----

  lemma QuietKeepsFrames(p: Player, n: Player)
    requires Inv(p) && VideoQuiet(p, n)
    ensures FramesOk(n.readyq, n.slots, n.queued)
  {
    forall i | n.readyq.tail <= i < n.readyq.head
      ensures var s := n.readyq.idx[i % CELLS]; s < NSLOTS && n.slots[s] == Some(n.queued[i])
    {
      var s := p.readyq.idx[i % CELLS];
      InContents(p.readyq, i);
      OnceEach(p, s);
      assert s < NSLOTS && p.slots[s] == Some(p.queued[i]);
    }
  }

  lemma InContents(q: IdxQ, i: nat)
    requires QueueOk(q) && q.tail <= i < q.head
    ensures q.idx[i % CELLS] in Contents(q)
  {
    assert Contents(q)[i - q.tail] == q.idx[i % CELLS];
  }

  lemma QuietKeepsInv(p: Player, n: Player)
    requires Inv(p) && VideoQuiet(p, n)
    ensures Inv(n)
  {
    QuietKeepsFrames(p, n);
    hide VideoOk, MainOk, FramesOk, EACH_ONCE, MainOwns, Contents, VideoOwns, HeldOwns;
    var f, r, m := Contents(p.freeq), Contents(p.readyq), MainOwns(p.main);
    assert multiset(HeldOwns(n)) + multiset(VideoOwns(n.video)) == multiset(HeldOwns(n) + VideoOwns(n.video));
    assert multiset(HeldOwns(p)) + multiset(VideoOwns(p.video)) == multiset(HeldOwns(p) + VideoOwns(p.video));
    Regroup(multiset(f), multiset(r), multiset(HeldOwns(p)), multiset(VideoOwns(p.video)), multiset(m),
      multiset(HeldOwns(n)), multiset(VideoOwns(n.video)));
  }

  lemma Regroup(f: multiset<nat>, r: multiset<nat>, h: multiset<nat>, v: multiset<nat>, m: multiset<nat>,
                h': multiset<nat>, v': multiset<nat>)
    requires h + v == h' + v'
    ensures f + r + h + v + m == f + r + h' + v' + m
  {
    assert f + r + h + v + m == f + r + (h + v) + m;
    assert f + r + h' + v' + m == f + r + (h' + v') + m;
  }

  lemma PopStep(p: Player)
    requires Shaped(p) && p.video.IdxLoaded?
    ensures VideoNext(p) == p.(freeq := p.freeq.(tail := p.video.t + 1), video := Seeking(p.video.f, p.video.slot))
  {}

  lemma FirstTaken(q: IdxQ)
    requires |q.idx| == CELLS && q.tail < q.head
    ensures multiset(Contents(q)) == multiset([q.idx[q.tail % CELLS]]) + multiset(Contents(q.(tail := q.tail + 1)))
    ensures q.idx[q.tail % CELLS] in Contents(q)
  {
    DropOne(q);
    hide Contents;
    assert q.idx[q.tail % CELLS] in [q.idx[q.tail % CELLS]];
  }

  /** The video task's stores do not touch what the main task has loaded. */
  lemma MainUnaffected(m: Main, freeq: IdxQ, readyq: IdxQ, freeq': IdxQ, readyq': IdxQ)
    requires |freeq.idx| == |freeq'.idx| == CELLS && |readyq.idx| == |readyq'.idx| == CELLS
    requires MainOk(m, freeq, readyq)
    requires freeq'.head == freeq.head && freeq'.idx == freeq.idx
    requires readyq'.tail == readyq.tail && readyq.head <= readyq'.head
    requires forall i | readyq.tail <= i < readyq.head :: readyq'.idx[i % CELLS] == readyq.idx[i % CELLS]
    ensures MainOk(m, freeq', readyq')
  {}

  lemma PoppedSlot(p: Player)
    requires Inv(p) && p.video.IdxLoaded?
    ensures p.held == -1 && p.video.t == p.freeq.tail < p.freeq.head
    ensures p.video.slot == p.freeq.idx[p.freeq.tail % CELLS] && 0 <= p.video.slot < NSLOTS
    ensures VideoOwns(p.video) == [] && HeldOwns(p) == []
  {
    FirstTaken(p.freeq);
    OnceEach(p, p.freeq.idx[p.freeq.tail % CELLS]);
    hide MainOk, FramesOk, EACH_ONCE, MainOwns, Contents, Owned;
  }

  lemma SeekingWith(f: Frame, s: int, held: int, freeq: IdxQ, readyq: IdxQ, slots: seq<Option<Frame>>)
    requires |freeq.idx| == CELLS && |readyq.idx| == CELLS && |slots| == NSLOTS && held == -1 && IsSlot(s)
    ensures VideoOk(Seeking(f, s), held, freeq, readyq, slots) && VideoOwns(Seeking(f, s)) == [s]
  {}

  /** iq_pop: the oldest free slot becomes the video task's. */
  lemma PopKeepsInv(p: Player)
    requires Inv(p) && p.video.IdxLoaded?
    ensures Inv(VideoNext(p))
  {
    hide VideoNext, VideoOk, VideoOwns, MainOk, FramesOk, EACH_ONCE, MainOwns, Contents;
    PopStep(p);
    PoppedSlot(p);
    FirstTaken(p.freeq);
    var n, s := VideoNext(p), p.video.slot;
    SeekingWith(p.video.f, s, p.held, n.freeq, n.readyq, n.slots);
    MainUnaffected(p.main, p.freeq, p.readyq, n.freeq, n.readyq);
    assert HeldOwns(n) == [];
  }

  // iq_push by the video task

  lemma StoreStep(p: Player)
    requires Shaped(p) && p.video.PushRoom? && p.video.slot >= 0
    ensures VideoNext(p) == p.(readyq := Store(p.readyq, p.video.h, p.video.slot),
      video := PushStored(p.video.f, p.video.slot, p.video.h))
  {}

  lemma PublishStep(p: Player)
    requires Shaped(p) && p.video.PushStored?
    ensures VideoNext(p) ==
      p.(readyq := p.readyq.(head := p.video.h + 1), video := Decoding, queued := p.queued + [p.video.f])
  {}

  lemma PushingFacts(p: Player)
    requires Inv(p) && (p.video.PushRoom? || p.video.PushStored?)
    ensures var v := p.video; var s := v.slot;
      && p.held == -1 && IsSlot(s) && p.slots[s] == Some(v.f) && v.h == p.readyq.head
      && (v.PushStored? ==> p.readyq.idx[v.h % CELLS] == s)
      && VideoOwns(v) == [s] && HeldOwns(p) == []
  {
    hide MainOk, FramesOk, EACH_ONCE, MainOwns, Contents, Owned;
  }

  lemma StoredWith(f: Frame, s: int, h: nat, held: int, freeq: IdxQ, readyq: IdxQ, slots: seq<Option<Frame>>)
    requires |freeq.idx| == CELLS && |readyq.idx| == CELLS && |slots| == NSLOTS && held == -1 && IsSlot(s)
    requires slots[s] == Some(f) && h == readyq.head && readyq.idx[h % CELLS] == s
    ensures VideoOk(PushStored(f, s, h), held, freeq, readyq, slots) && VideoOwns(PushStored(f, s, h)) == [s]
  {}

  lemma StoreKeepsFrames(readyq: IdxQ, v: nat, slots: seq<Option<Frame>>, queued: seq<Frame>)
    requires QueueOk(readyq) && |slots| == NSLOTS && FramesOk(readyq, slots, queued)
    ensures FramesOk(Store(readyq, readyq.head, v), slots, queued)
  {
    StoreUnseen(readyq, v);
  }

  lemma StoreKeepsInv(p: Player)
    requires Inv(p) && p.video.PushRoom?
    ensures Inv(VideoNext(p))
  {
    hide VideoNext, VideoOk, VideoOwns, MainOk, FramesOk, EACH_ONCE, MainOwns, Contents, HeldOwns;
    PushingFacts(p);
    ReadyRoom(p);
    StoreStep(p);
    StoreUnseen(p.readyq, p.video.slot);
    StoreKeepsFrames(p.readyq, p.video.slot, p.slots, p.queued);
    var n := VideoNext(p);
    StoredWith(p.video.f, p.video.slot, p.video.h, p.held, n.freeq, n.readyq, n.slots);
    MainUnaffected(p.main, p.freeq, p.readyq, n.freeq, n.readyq);
    SameHeld(p, n);
  }

  lemma SameHeld(p: Player, n: Player)
    requires p.held == n.held == -1
    ensures HeldOwns(p) == HeldOwns(n) == []
  {}

  lemma DecodingOwns(held: int, freeq: IdxQ, readyq: IdxQ, slots: seq<Option<Frame>>)
    requires |freeq.idx| == CELLS && |readyq.idx| == CELLS && |slots| == NSLOTS
    ensures VideoOk(Decoding, held, freeq, readyq, slots) && VideoOwns(Decoding) == []
  {}

  lemma PublishKeepsFrames(readyq: IdxQ, slots: seq<Option<Frame>>, queued: seq<Frame>, f: Frame, s: nat)
    requires QueueOk(readyq) && |slots| == NSLOTS && FramesOk(readyq, slots, queued)
    requires s < NSLOTS && readyq.idx[readyq.head % CELLS] == s && slots[s] == Some(f)
    ensures FramesOk(readyq.(head := readyq.head + 1), slots, queued + [f])
  {}

  lemma PublishKeepsInv(p: Player)
    requires Inv(p) && p.video.PushStored?
    ensures Inv(VideoNext(p))
  {
    hide VideoNext, VideoOk, VideoOwns, MainOk, FramesOk, EACH_ONCE, MainOwns, Contents, HeldOwns;
    PushingFacts(p);
    ReadyRoom(p);
    PublishStep(p);
    Publish(p.readyq, p.video.slot);
    PublishKeepsFrames(p.readyq, p.slots, p.queued, p.video.f, p.video.slot);
    var n := VideoNext(p);
    DecodingOwns(p.held, n.freeq, n.readyq, n.slots);
    MainUnaffected(p.main, p.freeq, p.readyq, n.freeq, n.readyq);
    SameHeld(p, n);
    MoveLast(Contents(p.readyq), p.video.slot, multiset(Contents(p.freeq)), multiset(MainOwns(p.main)));
  }

  lemma MoveLast(r: seq<nat>, s: nat, f: multiset<nat>, m: multiset<nat>)
    ensures f + multiset(r) + multiset([]) + multiset([s]) + m ==
      f + multiset(r + [s]) + multiset([]) + multiset([]) + m
  {
    assert multiset(r + [s]) == multiset(r) + multiset([s]);
  }

  lemma InvShape(p: Player)
    requires Inv(p)
    ensures Shaped(p) && QueueOk(p.freeq) && QueueOk(p.readyq)
  {}

  lemma VideoKeepsInv(p: Player)
    requires Inv(p) && !p.video.Decoding?
    ensures Inv(VideoNext(p))
  {
    InvShape(p);
    hide Inv, VideoNext, VideoQuiet;
    match p.video
    case IdxLoaded(_, _, _) => PopKeepsInv(p);
    case PushRoom(_, _, _) => StoreKeepsInv(p);
    case PushStored(_, _, _) => PublishKeepsInv(p);
    case PushHead(_, _, _) => FindingRoom(p); QuietKeepsInv(p, VideoNext(p));
    case HeldLoaded(_, _) => Acquiring(p); QuietKeepsInv(p, VideoNext(p));
    case Seeking(_, _) => Acquiring(p); QuietKeepsInv(p, VideoNext(p));
    case NotStopped(_) => Acquiring(p); QuietKeepsInv(p, VideoNext(p));
    case TailLoaded(_, _) => Acquiring(p); QuietKeepsInv(p, VideoNext(p));
    case Found(_, _) => Acquiring(p); QuietKeepsInv(p, VideoNext(p));
    case Taken(_, _) => Filling(p); QuietKeepsInv(p, VideoNext(p));
    case Emptied(_, _) => Filling(p); QuietKeepsInv(p, VideoNext(p));
    case Current(_, _) => Filling(p); QuietKeepsInv(p, VideoNext(p));
    case Filled(_, _) => Filling(p); QuietKeepsInv(p, VideoNext(p));
    case Keeping(_) => Filling(p); QuietKeepsInv(p, VideoNext(p));
  }

  // The main task

  /** A step of the main task that touches neither ring. */
  ghost predicate MainQuiet(p: Player, n: Player)
    requires QueueOk(p.freeq) && QueueOk(p.readyq)
  {
    n == p.(main := n.main) && MainOwns(n.main) == MainOwns(p.main) && MainOk(n.main, p.freeq, p.readyq)
  }

  lemma Peeking(p: Player, choice: Choice)
    requires Inv(p) && (p.main.Looking? || p.main.PeekTail? || p.main.PeekFound?)
    ensures MainQuiet(p, MainNext(p, choice))
  {
    hide VideoOk, FramesOk, EACH_ONCE, VideoOwns, Contents, Owned, HeldOwns;
  }

  lemma Deciding(p: Player, choice: Choice)
    requires Inv(p) && (p.main.Peeked? || p.main.NextPeeked?)
    ensures MainQuiet(p, MainNext(p, choice))
  {
    hide VideoOk, FramesOk, EACH_ONCE, VideoOwns, Contents, Owned, HeldOwns;
  }

  lemma FindingRoomBack(p: Player, choice: Choice)
    requires Inv(p) && (p.main.Owning? || p.main.BackHead?)
    ensures MainQuiet(p, MainNext(p, choice)) && !MainNext(p, choice).pushFailed
  {
    hide VideoOk, FramesOk, EACH_ONCE, VideoOwns, Contents, Owned, HeldOwns;
    ReadyRoom(p);
  }

  lemma MainQuietKeepsInv(p: Player, n: Player)
    requires Inv(p) && MainQuiet(p, n)
    ensures Inv(n)
  {
    hide VideoOk, MainOk, FramesOk, EACH_ONCE, MainOwns, VideoOwns, Contents, HeldOwns;
    SameHeldOwners(p, n);
  }

  lemma MainStepKeepsInv(p: Player, choice: Choice)
    requires Inv(p)
    ensures Shaped(p) && Inv(MainNext(p, choice))
  {
    InvShape(p);
    hide Inv, MainNext, MainQuiet;
    if p.main.Dropping? {
      DropKeepsInv(p, choice);
    } else if p.main.BackRoom? {
      BackStoreKeepsInv(p, choice);
    } else if p.main.BackStored? {
      BackPublishKeepsInv(p, choice);
    } else {
      if p.main.Owning? || p.main.BackHead? {
        FindingRoomBack(p, choice);
      } else if p.main.Peeked? || p.main.NextPeeked? {
        Deciding(p, choice);
      } else {
        Peeking(p, choice);
      }
      MainQuietKeepsInv(p, MainNext(p, choice));
    }
  }

  lemma DropStep(p: Player, choice: Choice)
    requires Shaped(p) && p.main.Dropping?
    ensures MainNext(p, choice) == p.(readyq := p.readyq.(tail := p.readyq.tail + 1), main := Owning(p.main.idx))
  {}

  lemma BackStoreStep(p: Player, choice: Choice)
    requires Shaped(p) && p.main.BackRoom?
    ensures MainNext(p, choice) ==
      p.(freeq := Store(p.freeq, p.main.h, p.main.idx), main := BackStored(p.main.idx, p.main.h))
  {}

  lemma BackPublishStep(p: Player, choice: Choice)
    requires Shaped(p) && p.main.BackStored?
    ensures MainNext(p, choice) == p.(freeq := p.freeq.(head := p.main.h + 1), main := Looking)
  {}

  lemma MainFacts(p: Player)
    requires Inv(p)
    ensures p.main.Dropping? ==>
      p.readyq.tail < p.readyq.head && p.main.idx == p.readyq.idx[p.readyq.tail % CELLS] && MainOwns(p.main) == []
    ensures p.main.BackRoom? || p.main.BackStored? ==> p.main.h == p.freeq.head && MainOwns(p.main) == [p.main.idx]
    ensures p.main.BackStored? ==> p.freeq.idx[p.freeq.head % CELLS] == p.main.idx
  {
    hide VideoOk, FramesOk, EACH_ONCE, VideoOwns, HeldOwns, Contents, Owned;
  }

  lemma MainStates(i: nat, h: nat, freeq: IdxQ, readyq: IdxQ)
    requires |freeq.idx| == CELLS && |readyq.idx| == CELLS
    ensures MainOk(Owning(i), freeq, readyq) && MainOwns(Owning(i)) == [i]
    ensures MainOk(Looking, freeq, readyq) && MainOwns(Looking) == []
    ensures h == freeq.head && freeq.idx[h % CELLS] == i ==> MainOk(BackStored(i, h), freeq, readyq)
    ensures MainOwns(BackStored(i, h)) == [i]
  {}

  /** The main task's stores do not touch what the video task has loaded. */
  lemma VideoUnaffected(v: Video, held: int, freeq: IdxQ, readyq: IdxQ, freeq': IdxQ, readyq': IdxQ,
                        slots: seq<Option<Frame>>)
    requires |freeq.idx| == |freeq'.idx| == CELLS && |readyq.idx| == CELLS && |slots| == NSLOTS
    requires VideoOk(v, held, freeq, readyq, slots)
    requires readyq'.head == readyq.head && readyq'.idx == readyq.idx
    requires freeq'.tail == freeq.tail && freeq.head <= freeq'.head
    requires forall i | freeq.tail <= i < freeq.head :: freeq'.idx[i % CELLS] == freeq.idx[i % CELLS]
    ensures VideoOk(v, held, freeq', readyq', slots)
  {}

  lemma DropKeepsInv(p: Player, choice: Choice)
    requires Inv(p) && p.main.Dropping?
    ensures Inv(MainNext(p, choice))
  {
    hide MainNext, VideoOk, VideoOwns, MainOk, EACH_ONCE, MainOwns, Contents, HeldOwns;
    MainFacts(p);
    DropStep(p, choice);
    FirstTaken(p.readyq);
    var n := MainNext(p, choice);
    MainStates(p.main.idx, 0, n.freeq, n.readyq);
    VideoUnaffected(p.video, p.held, p.freeq, p.readyq, n.freeq, n.readyq, p.slots);
    hide FramesOk;
    SameHeldOwners(p, n);
  }

  lemma SameHeldOwners(p: Player, n: Player)
    requires p.held == n.held && p.video == n.video
    ensures HeldOwns(p) == HeldOwns(n)
  {}

  lemma BackStoreKeepsInv(p: Player, choice: Choice)
    requires Inv(p) && p.main.BackRoom?
    ensures Inv(MainNext(p, choice))
  {
    hide MainNext, VideoOk, VideoOwns, MainOk, FramesOk, EACH_ONCE, MainOwns, Contents, HeldOwns;
    MainFacts(p);
    BackStoreStep(p, choice);
    StoreUnseen(p.freeq, p.main.idx);
    var n := MainNext(p, choice);
    MainStates(p.main.idx, p.main.h, n.freeq, n.readyq);
    ReadyRoom(p);
    VideoUnaffected(p.video, p.held, p.freeq, p.readyq, n.freeq, n.readyq, p.slots);
    SameHeldOwners(p, n);
  }

  lemma BackPublishKeepsInv(p: Player, choice: Choice)
    requires Inv(p) && p.main.BackStored?
    ensures Inv(MainNext(p, choice))
  {
    hide MainNext, VideoOk, VideoOwns, MainOk, FramesOk, EACH_ONCE, MainOwns, Contents, HeldOwns;
    MainFacts(p);
    BackPublishStep(p, choice);
    Publish(p.freeq, p.main.idx);
    ReadyRoom(p);
    var n := MainNext(p, choice);
    MainStates(p.main.idx, p.main.h, n.freeq, n.readyq);
    VideoUnaffected(p.video, p.held, p.freeq, p.readyq, n.freeq, n.readyq, p.slots);
    SameHeldOwners(p, n);
  }

  lemma DecodedKeepsInv(p: Player, f: Frame)
    requires Inv(p) && p.video.Decoding?
    ensures Inv(Next(p, Decoded(f)))
  {
    hide MainOk, FramesOk, EACH_ONCE, MainOwns, Contents;
    var n := Next(p, Decoded(f));
    assert VideoOk(n.video, n.held, n.freeq, n.readyq, n.slots);
    hide VideoOk;
    assert HeldOwns(n) + VideoOwns(n.video) == HeldOwns(p) + VideoOwns(p.video);
    Regroup(multiset(Contents(p.freeq)), multiset(Contents(p.readyq)),
            multiset(HeldOwns(p)), multiset(VideoOwns(p.video)),
      multiset(MainOwns(p.main)), multiset(HeldOwns(n)), multiset(VideoOwns(n.video)));
  }

  lemma NextKeepsInv(p: Player, a: Action)
    requires Inv(p) && Enabled(p, a)
    ensures Inv(Next(p, a))
  {
    InvShape(p);
    match a
    case Decoded(f) => DecodedKeepsInv(p, f);
    case VideoStep => hide Inv, VideoNext; VideoKeepsInv(p);
    case MainStep(choice) => hide Inv, MainNext; MainStepKeepsInv(p, choice);
    case Bump => OthersKeepInv(p, a);
    case Stop => OthersKeepInv(p, a);
  }

  lemma OthersKeepInv(p: Player, a: Action)
    requires Inv(p) && (a.Bump? || a.Stop?)
    ensures Inv(Next(p, a))
  {
    hide VideoOk, VideoOwns, MainOk, FramesOk, EACH_ONCE, MainOwns, Contents;
  }

  predicate IsRun(p: Player, actions: seq<Action>)
    decreases |actions|
  {
    Shaped(p) && (actions == [] || (Enabled(p, actions[0]) && IsRun(Next(p, actions[0]), actions[1..])))
  }

  function Run(p: Player, actions: seq<Action>): Player
    requires IsRun(p, actions)
    decreases |actions|
  {
    if actions == [] then p else Run(Next(p, actions[0]), actions[1..])
  }

  lemma {:induction false} RunKeepsInv(p: Player, actions: seq<Action>)
    requires Inv(p) && IsRun(p, actions)
    ensures Inv(Run(p, actions))
    decreases |actions|
  {
    hide Inv, Next, Enabled;
    if actions != [] {
      NextKeepsInv(p, actions[0]);
      RunKeepsInv(Next(p, actions[0]), actions[1..]);
    }
  }

  // ---- What the slots promise ----

  /** In every interleaving of the two tasks with seeks, each slot has exactly one owner, no push ever
      fails, and each ready slot still holds the frame it was queued with, in order. */
  lemma EachSlotOnce(actions: seq<Action>)
    requires IsRun(Init(), actions)
    ensures var p := Run(Init(), actions);
      && Shaped(p) && p.freeq.tail <= p.freeq.head && p.readyq.tail <= p.readyq.head
      && Owned(p) == multiset{0, 1, 2, 3} && !p.pushFailed
      && |p.queued| == p.readyq.head
      && forall i | p.readyq.tail <= i < p.readyq.head ::
           var s := p.readyq.idx[i % CELLS]; s < NSLOTS && p.slots[s] == Some(p.queued[i])
  {
    InitInv();
    RunKeepsInv(Init(), actions);
    hide VideoOk, MainOk, Owned;
  }

  /** The slots the main task is reading: it looks at ready ones, and converts the one it has taken. */
  function MainReads(m: Main): set<nat>
  {
    match m
    case Peeked(i) => {i}
    case NextPeeked(i, n) => {i, n}
    case Dropping(i) => {i}
    case Owning(i) => {i}
    case _ => {}
  }

  /** The slot whose picture the video task is changing. */
  function VideoWrites(v: Video): set<int>
  {
    match v
    case Taken(_, s) => {s}
    case Current(_, s) => {s}
    case _ => {}
  }

  /** The two tasks never touch the same slot: a picture is never changed while the main task reads it. */
  lemma NoSharedSlot(actions: seq<Action>, s: nat)
    requires IsRun(Init(), actions)
    ensures var p := Run(Init(), actions); !(s in MainReads(p.main) && s in VideoWrites(p.video))
  {
    InitInv();
    RunKeepsInv(Init(), actions);
    var p := Run(Init(), actions);
    OnceEach(p, s);
    MainReadsReady(p, s);
    hide VideoOk, MainOk, FramesOk, Owned, Contents, EACH_ONCE;
  }

  lemma MainReadsLoaded(m: Main, freeq: IdxQ, readyq: IdxQ, s: nat)
    requires |freeq.idx| == CELLS && |readyq.idx| == CELLS && MainOk(m, freeq, readyq) && s in MainReads(m)
    ensures || (readyq.tail < readyq.head && s == readyq.idx[readyq.tail % CELLS])
            || (readyq.tail + 1 < readyq.head && s == readyq.idx[(readyq.tail + 1) % CELLS])
            || s in MainOwns(m)
  {}

  lemma MainReadsReady(p: Player, s: nat)
    requires Inv(p)
    ensures s in MainReads(p.main) ==> s in Contents(p.readyq) || s in MainOwns(p.main)
  {
    hide VideoOk, MainOk, FramesOk, EACH_ONCE, VideoOwns, MainOwns, MainReads, Contents, Owned;
    if s in MainReads(p.main) {
      MainReadsLoaded(p.main, p.freeq, p.readyq, s);
      if p.readyq.tail < p.readyq.head { InContents(p.readyq, p.readyq.tail); }
      if p.readyq.tail + 1 < p.readyq.head { InContents(p.readyq, p.readyq.tail + 1); }
    }
  }
}
