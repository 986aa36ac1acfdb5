/** Seeking in ports/video/papp_player.c: the demuxer bumps the serial and sends a flush down each
    packet queue; the decoders, the clock and the main task compare serials they read at different
    times. Each read or write of a shared variable is a step of its own; what the code does under
    the clock's lock is one step. The packet queues are first-in first-out, as PacketQueue proves. */
module SeekProtocol {
  import opened Wrappers

  datatype Kind = Packet | Flush | Eof

  datatype Item = Item(serial: nat, kind: Kind)

  /** A decoder task: nothing popped, an item popped, its serial compared with the player's, or given to the
      decoder, which then hands over what it has ready. */
  datatype Stage = Popping | Got(it: Item) | Compared(it: Item) | Receiving(it: Item)

  /** A packet queue and the decoder behind it. `local` is its copy of the serial; `epoch` is that of
      the last flush it popped (0 before any), and `fed` those of the items given to the decoder since. */
  datatype Line = Line(
    present: bool, queue: seq<Item>, started: bool, stage: Stage, local: nat, epoch: nat, fed: seq<nat>, eofSerial: int)

  /** The demuxer: at the top of its loop, or about to push something. */
  datatype Demux =
    | Top
    | FlushVideo(s: nat)
    | FlushAudio(s: nat)
    | EofVideo(s: nat)
    | EofAudio(s: nat)
    | EofMark(s: nat)
    | PushTo(video: bool, s: nat)

  /** The clock's point; `origin` is the serial of the picture or sound it was taken from. */
  datatype Clock = Clock(valid: bool, serial: nat, origin: nat)

  /** The main task. With the picture at the head of the ready queue: found its serial current, found the
      clock without a time, read the serial to pass on. In its check for the end of serial `n`: about to load
      the demuxer's mark, the video's, the ready queue's head, the sound's; `done` if all before were there.
      EndFound is the check come out true. */
  datatype Main =
    | Idle
    | Checked(frame: nat)
    | NoClock(frame: nat)
    | ArgRead(frame: nat, arg: nat)
    | EndDemux(n: nat)
    | EndVideo(n: nat, done: bool)
    | EndReady(n: nat, done: bool)
    | EndAudio(n: nat, done: bool)
    | EndFound(n: nat)

  /** Pictures and clock: the serial of the picture that the video task is about to put into the ready queue,
      and those of the pictures in it. */
  datatype Show = Show(picture: Option<nat>, ready: seq<nat>, clock: Clock, main: Main)

  /** `again` are the serials under which a seek failed after their end had been pushed. */
  datatype State = State(
    serial: nat, stop: bool, missed: bool, eof: bool, again: set<nat>, demuxEof: int,
    demux: Demux, video: Line, audio: Line, show: Show)

  datatype Action =
    | DemuxSeek | SeekFails | DemuxPacket(toVideo: bool) | DemuxEnd | DemuxPush(dropped: bool)
    | Start(ofVideo: bool) | Decode(ofVideo: bool)
    | PictureOut | PicturePut
    | AudioClock(from: nat)
    | MainCheck | MainEnd | MainStep | MainLeave(shown: bool)
    | StopAll

  function LineOf(s: State, ofVideo: bool): Line { if ofVideo then s.video else s.audio }

  function NewLine(present: bool): Line { Line(present, [], false, Popping, 0, 0, [], -1) }

  function Init(video: bool, audio: bool): State
  {
    State(0, false, false, false, {}, -1, Top, NewLine(video), NewLine(audio),
      Show(None, [], Clock(false, 0, 0), Idle))
  }

  function Push(l: Line, it: Item): Line { if l.present then l.(queue := l.queue + [it]) else l }

  /** What follows a push, whether the item got in or was dropped because of a stop. */
  function AfterPush(d: Demux): Demux
  {
    match d
    case FlushVideo(s) => FlushAudio(s)
    case EofVideo(s) => EofAudio(s)
    case EofAudio(s) => EofMark(s)
    case _ => Top
  }

  function Pushed(s: State): State
  {
    match s.demux
    case Top => s
    case FlushVideo(n) => s.(video := Push(s.video, Item(n, Flush)))
    case FlushAudio(n) => s.(audio := Push(s.audio, Item(n, Flush)))
    case EofVideo(n) => s.(video := Push(s.video, Item(n, Eof)))
    case EofAudio(n) => s.(audio := Push(s.audio, Item(n, Eof)))
    case EofMark(n) => s.(demuxEof := n, eof := true)
    case PushTo(v, n) =>
      if v then s.(video := Push(s.video, Item(n, Packet))) else s.(audio := Push(s.audio, Item(n, Packet)))
  }

  function DecodeStep(l: Line, serial: nat): Line
  {
    match l.stage
    case Popping =>
      if l.queue == [] then l
      else
        var it, rest := l.queue[0], l.queue[1..];
        if it.kind == Flush then l.(queue := rest, local := it.serial, epoch := it.serial, fed := [])
        else l.(queue := rest, stage := Got(it))
    case Got(it) => if it.serial != serial then l.(stage := Popping) else l.(stage := Compared(it))
    case Compared(it) => l.(stage := Receiving(it), fed := l.fed + [it.serial])
    case Receiving(it) => l.(stage := Popping, eofSerial := if it.kind == Eof then l.local else l.eofSerial)
  }

  /** clock_set, which is under the lock. */
  function ClockSet(w: Show, serial: nat, serialArg: nat, origin: nat): Show
  {
    if serialArg == serial then w.(clock := Clock(true, serialArg, origin)) else w
  }

  /** clock_get's verdict, under the lock. */
  predicate ClockGet(w: Show, serial: nat) { w.clock.valid && w.clock.serial == serial }

  /** The main task is done with the head of the ready queue. */
  function TakeHead(w: Show): Show { w.(main := Idle, ready := if w.ready == [] then [] else w.ready[1..]) }

  function MainNext(s: State): Show
  {
    var w := s.show;
    match w.main
    case Idle => w
    case Checked(frame) => if ClockGet(w, s.serial) then w else w.(main := NoClock(frame))
    case NoClock(frame) => w.(main := ArgRead(frame, s.serial))
    case ArgRead(frame, arg) => TakeHead(ClockSet(w, s.serial, arg, frame))
    case EndDemux(n) => w.(main := EndVideo(n, s.demuxEof == n))
    case EndVideo(n, done) =>
      if !s.video.present then w.(main := EndAudio(n, done))
      else if s.video.eofSerial == n then w.(main := EndReady(n, done))
      else w.(main := EndAudio(n, false))
    case EndReady(n, done) => w.(main := EndAudio(n, done && w.ready == []))
    case EndAudio(n, done) =>
      w.(main := if done && (s.audio.present ==> s.audio.eofSerial == n) then EndFound(n) else Idle)
    case EndFound(n) => w.(main := Idle)
  }

  predicate Enabled(s: State, a: Action)
  {
    match a
    case DemuxSeek => s.demux.Top? && !s.stop
    case SeekFails => s.demux.Top? && !s.stop
    case DemuxPacket(_) => s.demux.Top? && !s.stop && !s.eof
    case DemuxEnd => s.demux.Top? && !s.stop && !s.eof
    case DemuxPush(dropped) => !s.demux.Top? && (dropped ==> s.stop && !s.demux.EofMark?)
    case Start(v) => var l := LineOf(s, v); l.present && !l.started
    case Decode(v) =>
      var l := LineOf(s, v);
      l.started && (v && l.stage.Receiving? ==> s.show.picture == None)
    case AudioClock(from) => s.audio.stage.Receiving? && from < |s.audio.fed|
    case PictureOut => s.video.stage.Receiving? && s.show.picture == None
    case PicturePut => s.show.picture.Some?
    case MainCheck => s.show.main.Idle? && s.show.ready != []
    case MainEnd => s.show.main.Idle?
    case MainStep => !s.show.main.Idle?
    case MainLeave(_) => s.show.main.Checked? || s.show.main.NoClock?
    case StopAll => true
  }

  /** The actions of the pictures and the clock. */
  predicate OnShow(a: Action)
  {
    a.PictureOut? || a.PicturePut? || a.AudioClock? || a.MainCheck? || a.MainEnd? || a.MainStep? || a.MainLeave?
  }

  function ShowNext(s: State, a: Action): Show
    requires Enabled(s, a) && OnShow(a)
  {
    var w := s.show;
    match a
    case PictureOut => if s.video.local == s.serial then w.(picture := Some(s.video.local)) else w
    case PicturePut => w.(picture := None, ready := w.ready + [w.picture.value])
    case AudioClock(from) => ClockSet(w, s.serial, s.audio.local, s.audio.fed[from])
    case MainCheck =>
      if w.ready[0] == s.serial then w.(main := Checked(w.ready[0])) else w.(ready := w.ready[1..])
    case MainEnd => w.(main := EndDemux(s.serial))
    case MainStep => MainNext(s)
    case MainLeave(shown) => if shown then TakeHead(w) else w.(main := Idle)
  }

  /** A seek: the serial goes up and the clock is invalid, both under the lock. */
  function Sought(s: State): State
  {
    s.(serial := s.serial + 1, show := s.show.(clock := s.show.clock.(valid := false)), eof := false,
      demux := FlushVideo(s.serial + 1))
  }

  function Next(s: State, a: Action): State
    requires Enabled(s, a)
  {
    if OnShow(a) then s.(show := ShowNext(s, a))
    else if a.DemuxSeek? then Sought(s)
    else QueuesNext(s, a)
  }

  function QueuesNext(s: State, a: Action): State
    requires Enabled(s, a) && !OnShow(a) && !a.DemuxSeek?
  {
    match a
    case SeekFails => s.(eof := false, again := if s.eof then s.again + {s.serial} else s.again)
    case DemuxPacket(v) => s.(demux := PushTo(v, s.serial))
    case DemuxEnd => s.(demux := EofVideo(s.serial))
    case DemuxPush(dropped) =>
      var t := if dropped then s.(missed := s.missed || s.demux.FlushVideo? || s.demux.FlushAudio?) else Pushed(s);
      t.(demux := AfterPush(s.demux))
    case Start(v) =>
      if v then s.(video := s.video.(started := true, local := s.serial))
      else s.(audio := s.audio.(started := true, local := s.serial))
    case Decode(v) =>
      if v then s.(video := DecodeStep(s.video, s.serial)) else s.(audio := DecodeStep(s.audio, s.serial))
    case StopAll => s.(stop := true)
  }

  // ---- Serials in a queue ----

  /** Each flush starts a new, higher serial, and everything else carries the serial of the flush before it. */
  predicate WellOrdered(epoch: nat, q: seq<Item>)
    decreases |q|
  {
    q == [] ||
    (if q[0].kind == Flush then q[0].serial > epoch && WellOrdered(q[0].serial, q[1..])
     else q[0].serial == epoch && WellOrdered(epoch, q[1..]))
  }

  function LastEpoch(epoch: nat, q: seq<Item>): nat
    decreases |q|
  {
    if q == [] then epoch else LastEpoch(if q[0].kind == Flush then q[0].serial else epoch, q[1..])
  }

  /** The decoder has been through the end of its serial, or has it in hand. */
  predicate AtEnd(l: Line)
  {
    l.eofSerial == l.epoch || (!l.stage.Popping? && l.stage.it.kind == Eof)
  }

  /** The end of serial `n` has been pushed. */
  predicate EndSent(l: Line, n: nat)
  {
    (AtEnd(l) && l.epoch == n) || Item(n, Eof) in l.queue
  }

  ghost predicate LineOk(l: Line, serial: nat)
  {
    && WellOrdered(l.epoch, l.queue)
    && LastEpoch(l.epoch, l.queue) <= serial
    && -1 <= l.eofSerial <= l.epoch && l.local <= serial
    && (l.local != l.epoch ==> l.epoch == 0 && l.fed == [] && l.eofSerial == -1)
    && (forall i | 0 <= i < |l.fed| :: l.fed[i] == l.local)
    && (!l.stage.Popping? ==> l.stage.it.kind != Flush && l.stage.it.serial == l.epoch)
    && (l.stage.Compared? || l.stage.Receiving? ==> l.stage.it.serial == l.local)
    && (!l.present ==> l.queue == [] && !l.started)
    && (!l.started ==> l.stage.Popping? && l.epoch == 0 && l.fed == [] && l.eofSerial == -1)
  }

  /** None of these items is of serial n. */
  predicate Without(q: seq<Item>, n: nat) { forall i | 0 <= i < |q| :: q[i].serial != n }

  /** Nothing of serial n follows its end. */
  ghost predicate EndOk(l: Line, n: nat)
  {
    && (AtEnd(l) && l.epoch == n ==> Without(l.queue, n))
    && (l.eofSerial == l.epoch == n ==> l.stage.Popping?)
    && (forall i, j | 0 <= i < j < |l.queue| && l.queue[i] == Item(n, Eof) :: l.queue[j].serial != n)
  }

  ghost predicate EndsOk(l: Line, again: set<nat>) { forall n: nat | n !in again :: EndOk(l, n) }

  /** The line's last flush is that of the current serial. */
  predicate UpToDate(l: Line, serial: nat) { l.present ==> LastEpoch(l.epoch, l.queue) == serial }

  ghost predicate DemuxOk(s: State)
  {
    && (match s.demux
        case Top => true
        case FlushVideo(n) => n == s.serial && LastEpoch(s.video.epoch, s.video.queue) < n
        case FlushAudio(n) => n == s.serial
        case EofVideo(n) => n == s.serial
        case EofAudio(n) => n == s.serial
        case EofMark(n) => n == s.serial
        case PushTo(_, n) => n == s.serial)
    && (s.demux.FlushVideo? || s.demux.FlushAudio? ==> LastEpoch(s.audio.epoch, s.audio.queue) < s.serial)
    && (s.missed ==> s.stop && (s.demux.FlushAudio? || s.demux.Top?))
    && (s.demux.FlushVideo? || s.missed || UpToDate(s.video, s.serial))
    && (s.demux.FlushVideo? || s.demux.FlushAudio? || s.missed || UpToDate(s.audio, s.serial))
    && (s.eof ==> s.demux.Top?) && s.demuxEof <= s.serial
  }

  /** What holds of the end of the current serial until a seek fails after it. */
  ghost predicate Ends(s: State)
  {
    && (EndSent(s.video, s.serial) ==> s.eof || s.demux.EofAudio? || s.demux.EofMark?)
    && (EndSent(s.audio, s.serial) ==> s.eof || s.demux.EofMark?)
    && (s.demuxEof == s.serial ==> s.eof)
  }

  /** A line of the player has been sent the end of the current serial. */
  predicate Told(s: State, l: Line) { l.present && !s.stop ==> EndSent(l, s.serial) }

  /** The end has gone to the lines before it is marked. */
  ghost predicate EndsTold(s: State)
  {
    && (s.eof || s.demux.EofAudio? || s.demux.EofMark? ==> Told(s, s.video))
    && (s.eof || s.demux.EofMark? ==> Told(s, s.audio))
    && (s.eof ==> s.demuxEof == s.serial)
  }

  ghost predicate QueuesOk(s: State)
  {
    && LineOk(s.video, s.serial) && LineOk(s.audio, s.serial) && DemuxOk(s)
    && EndsOk(s.video, s.again) && EndsOk(s.audio, s.again) && (forall n <- s.again :: n <= s.serial)
    && (s.serial !in s.again ==> Ends(s)) && EndsTold(s)
  }

  /** In the check for the end, or just through it. */
  predicate InCheck(m: Main) { m.EndDemux? || m.EndVideo? || m.EndReady? || m.EndAudio? || m.EndFound? }

  ghost predicate ShowOk(w: Show, serial: nat)
  {
    && (w.picture.Some? ==> w.picture.value <= serial)
    && (forall i | 0 <= i < |w.ready| :: w.ready[i] <= serial)
    && (w.clock.valid ==> w.clock.serial == serial)
    && (w.main.Checked? || w.main.NoClock? ==> w.main.frame <= serial)
    && (w.main.ArgRead? ==> w.main.frame <= w.main.arg <= serial)
    && (InCheck(w.main) ==> w.main.n <= serial)
  }

  ghost predicate Inv(s: State) { QueuesOk(s) && ShowOk(s.show, s.serial) }

  lemma InitInv(video: bool, audio: bool)
    ensures Inv(Init(video, audio))
  {}

  // ---- Queue lemmas ----

  lemma {:induction false} PushOrdered(epoch: nat, q: seq<Item>, it: Item)
    requires WellOrdered(epoch, q)
    requires if it.kind == Flush then it.serial > LastEpoch(epoch, q) else it.serial == LastEpoch(epoch, q)
    ensures WellOrdered(epoch, q + [it])
    ensures LastEpoch(epoch, q + [it]) == it.serial
    decreases |q|
  {
    if q == [] {
      assert (q + [it])[1..] == [];
    } else {
      assert (q + [it])[1..] == q[1..] + [it];
      PushOrdered(if q[0].kind == Flush then q[0].serial else epoch, q[1..], it);
    }
  }

  /** The last item of a queue carries its last epoch. */
  lemma {:induction false} LastItem(epoch: nat, q: seq<Item>)
    requires WellOrdered(epoch, q)
    ensures q != [] ==> q[|q| - 1].serial == LastEpoch(epoch, q)
    ensures epoch <= LastEpoch(epoch, q)
    decreases |q|
  {
    if q != [] {
      LastItem(if q[0].kind == Flush then q[0].serial else epoch, q[1..]);
    }
  }

  /** An item put into a line that its serial suits. */
  lemma PushKeepsLine(l: Line, serial: nat, it: Item)
    requires LineOk(l, serial) && l.present && it.serial <= serial
    requires var last := LastEpoch(l.epoch, l.queue); if it.kind == Flush then it.serial > last else it.serial == last
    ensures var n := l.(queue := l.queue + [it]);
      LineOk(n, serial) && LastEpoch(n.epoch, n.queue) == it.serial
  {
    PushOrdered(l.epoch, l.queue, it);
    LastItem(l.epoch, l.queue);
  }

  lemma {:induction false} EarlierItems(epoch: nat, q: seq<Item>)
    requires WellOrdered(epoch, q)
    ensures forall it | it in q :: epoch <= it.serial <= LastEpoch(epoch, q)
    decreases |q|
  {
    if q != [] {
      var e := if q[0].kind == Flush then q[0].serial else epoch;
      EarlierItems(e, q[1..]);
      LastItem(e, q[1..]);
      forall it | it in q ensures epoch <= it.serial <= LastEpoch(epoch, q) {
        assert it == q[0] || it in q[1..];
      }
    }
  }

  /** Nothing of a serial that no flush has brought yet is in the queue. */
  lemma NothingAhead(l: Line, n: nat)
    requires WellOrdered(l.epoch, l.queue) && LastEpoch(l.epoch, l.queue) < n && l.eofSerial <= l.epoch
    ensures EndOk(l, n) && !EndSent(l, n) && Without(l.queue, n)
  {
    LastItem(l.epoch, l.queue);
    EarlierItems(l.epoch, l.queue);
    assert forall i | 0 <= i < |l.queue| :: l.queue[i] in l.queue;
  }

  /** What a decoder's step keeps. */
  ghost predicate Decoded(l: Line, n: Line, serial: nat)
  {
    && LineOk(n, serial) && n.present == l.present
    && LastEpoch(n.epoch, n.queue) == LastEpoch(l.epoch, l.queue)
    && (EndSent(n, serial) <==> EndSent(l, serial))
  }

  lemma PopKeepsLine(l: Line, serial: nat)
    requires LineOk(l, serial) && l.started && l.stage.Popping?
    ensures Decoded(l, DecodeStep(l, serial), serial)
  {
    if l.queue != [] {
      LastItem(if l.queue[0].kind == Flush then l.queue[0].serial else l.epoch, l.queue[1..]);
      assert l.queue == [l.queue[0]] + l.queue[1..];
    }
  }

  lemma DecodeKeepsLine(l: Line, serial: nat)
    requires LineOk(l, serial) && l.started
    ensures Decoded(l, DecodeStep(l, serial), serial)
  {
    if l.stage.Popping? {
      PopKeepsLine(l, serial);
    } else {
      LastItem(l.epoch, l.queue);
      hide WellOrdered, LastEpoch;
    }
  }

  lemma DecodeKeepsEnd(l: Line, serial: nat, n: nat)
    requires LineOk(l, serial) && l.started && EndOk(l, n)
    ensures EndOk(DecodeStep(l, serial), n)
  {
    var m := DecodeStep(l, serial);
    hide LastEpoch;
    if l.stage.Popping? && l.queue != [] {
      assert forall i | 0 <= i < |m.queue| :: m.queue[i] == l.queue[i + 1];
      assert l.queue[0].kind != Flush ==> l.queue[0].serial == l.epoch;
    }
  }

  lemma DecodeKeepsEnds(l: Line, serial: nat, again: set<nat>)
    requires LineOk(l, serial) && l.started && EndsOk(l, again)
    ensures EndsOk(DecodeStep(l, serial), again)
  {
    hide LineOk, EndOk, DecodeStep;
    forall n: nat | n !in again ensures EndOk(DecodeStep(l, serial), n) {
      assert EndOk(l, n);
      DecodeKeepsEnd(l, serial, n);
    }
  }

  lemma SeekKeepsQueues(s: State)
    requires QueuesOk(s) && Enabled(s, DemuxSeek)
    ensures QueuesOk(Next(s, DemuxSeek))
  {
    NothingAhead(s.video, s.serial + 1);
    NothingAhead(s.audio, s.serial + 1);
    hide EndsOk, EndSent, LastEpoch, WellOrdered;
  }

  lemma FailedSeekKeepsQueues(s: State)
    requires QueuesOk(s) && Enabled(s, SeekFails)
    ensures QueuesOk(Next(s, SeekFails))
  {
    hide LineOk, EndOk, EndSent, LastEpoch;
  }

  lemma PushKeepsEnds(l: Line, again: set<nat>, it: Item)
    requires EndsOk(l, again) && (it.serial in again || !EndSent(l, it.serial))
    ensures EndsOk(l.(queue := l.queue + [it]), again)
  {
    forall n: nat | n !in again ensures EndOk(l.(queue := l.queue + [it]), n) {
      assert EndOk(l, n);
      assert forall i | 0 <= i < |l.queue| :: l.queue[i] in l.queue;
    }
  }

  /** A push into one line, if the player has it. */
  lemma PushLine(l: Line, serial: nat, again: set<nat>, it: Item)
    requires LineOk(l, serial) && EndsOk(l, again) && it.serial == serial
    requires it.kind == Flush ==> LastEpoch(l.epoch, l.queue) < serial
    requires it.kind != Flush ==> UpToDate(l, serial) && (serial in again || !EndSent(l, serial))
    ensures var n := Push(l, it);
      && LineOk(n, serial) && UpToDate(n, serial) && EndsOk(n, again) && n.present == l.present
      && (EndSent(n, serial) <==> EndSent(l, serial) || (it.kind == Eof && l.present))
  {
    if it.kind == Flush {
      NothingAhead(l, serial);
    }
    if l.present {
      PushKeepsLine(l, serial, it);
      hide LineOk, EndsOk;
      PushKeepsEnds(l, again, it);
    }
  }

  lemma PushKeepsQueues(s: State, dropped: bool)
    requires QueuesOk(s) && Enabled(s, DemuxPush(dropped))
    ensures QueuesOk(Next(s, DemuxPush(dropped)))
  {
    hide LineOk, EndsOk, EndSent, LastEpoch, Push, UpToDate;
    if !dropped {
      match s.demux
      case FlushVideo(n) => PushLine(s.video, s.serial, s.again, Item(n, Flush));
      case FlushAudio(n) => PushLine(s.audio, s.serial, s.again, Item(n, Flush));
      case EofVideo(n) => PushLine(s.video, s.serial, s.again, Item(n, Eof));
      case EofAudio(n) => PushLine(s.audio, s.serial, s.again, Item(n, Eof));
      case EofMark(n) =>
      case PushTo(v, n) => PushLine(LineOf(s, v), s.serial, s.again, Item(n, Packet));
    }
  }

  lemma DecodeKeepsQueues(s: State, ofVideo: bool)
    requires QueuesOk(s) && Enabled(s, Decode(ofVideo))
    ensures QueuesOk(Next(s, Decode(ofVideo)))
  {
    DecodeKeepsLine(LineOf(s, ofVideo), s.serial);
    DecodeKeepsEnds(LineOf(s, ofVideo), s.serial, s.again);
    var n := Next(s, Decode(ofVideo));
    hide LineOk, EndsOk, EndSent, LastEpoch, DecodeStep, WellOrdered;
    assert n.serial == s.serial && n.demux == s.demux;
    if ofVideo { SameLast(s.video, n.video, s.serial); } else { SameLast(s.audio, n.audio, s.serial); }
  }

  lemma SameLast(l: Line, n: Line, serial: nat)
    requires LastEpoch(l.epoch, l.queue) == LastEpoch(n.epoch, n.queue) && l.present == n.present
    ensures UpToDate(l, serial) == UpToDate(n, serial)
  {}

  lemma StartKeepsQueues(s: State, ofVideo: bool)
    requires QueuesOk(s) && Enabled(s, Start(ofVideo))
    ensures QueuesOk(Next(s, Start(ofVideo)))
  {
    hide LastEpoch, WellOrdered, EndsOk;
    StartKeepsEnds(LineOf(s, ofVideo), s.serial, s.again);
  }

  lemma StartKeepsEnds(l: Line, serial: nat, again: set<nat>)
    requires EndsOk(l, again)
    ensures EndsOk(l.(started := true, local := serial), again)
  {
    forall n: nat | n !in again ensures EndOk(l.(started := true, local := serial), n) {
      assert EndOk(l, n);
    }
  }

  lemma FedSerials(l: Line, serial: nat)
    requires LineOk(l, serial)
    ensures forall i | 0 <= i < |l.fed| :: l.fed[i] == l.local <= serial
  {}

  lemma ShowStepKeepsQueues(s: State, show: Show)
    requires QueuesOk(s)
    ensures QueuesOk(s.(show := show))
  {
    hide LineOk, EndsOk, EndSent, LastEpoch, WellOrdered;
  }

  /** The serials of pictures are those of the video task's last flush, no later than the player's. */
  lemma ShowStepKeepsShow(s: State, a: Action)
    requires ShowOk(s.show, s.serial) && Enabled(s, a) && OnShow(a)
    requires LineOk(s.video, s.serial)
    ensures ShowOk(ShowNext(s, a), s.serial)
  {
    FedSerials(s.video, s.serial);
    hide LineOk;
  }

  lemma QueuesStepKeepsShow(s: State, a: Action)
    requires Enabled(s, a) && !OnShow(a) && !a.DemuxSeek?
    ensures var n := QueuesNext(s, a); n.show == s.show && n.serial == s.serial
  {
    hide DecodeStep, Push;
  }

  lemma OthersKeepQueues(s: State, a: Action)
    requires QueuesOk(s) && Enabled(s, a)
    requires a.DemuxPacket? || a.DemuxEnd? || a.StopAll?
    ensures QueuesOk(Next(s, a))
  {
    hide LineOk, EndsOk, EndSent, LastEpoch, WellOrdered;
  }

  lemma QueuesStepKeepsQueues(s: State, a: Action)
    requires QueuesOk(s) && Enabled(s, a) && !OnShow(a)
    ensures QueuesOk(Next(s, a))
  {
    hide QueuesOk, Next, Enabled;
    match a
    case DemuxSeek => SeekKeepsQueues(s);
    case SeekFails => FailedSeekKeepsQueues(s);
    case DemuxPush(dropped) => PushKeepsQueues(s, dropped);
    case Decode(v) => DecodeKeepsQueues(s, v);
    case Start(v) => StartKeepsQueues(s, v);
    case DemuxPacket(_) => OthersKeepQueues(s, a);
    case DemuxEnd => OthersKeepQueues(s, a);
    case StopAll => OthersKeepQueues(s, a);
  }

  lemma NextKeepsInv(s: State, a: Action)
    requires Inv(s) && Enabled(s, a)
    ensures Inv(Next(s, a))
  {
    hide LineOk, DemuxOk, Ends, EndsTold, QueuesNext, ShowNext;
    if OnShow(a) {
      ShowStepKeepsShow(s, a);
      ShowStepKeepsQueues(s, ShowNext(s, a));
    } else {
      QueuesStepKeepsQueues(s, a);
      if !a.DemuxSeek? {
        QueuesStepKeepsShow(s, a);
      }
    }
  }

  predicate IsRun(s: State, actions: seq<Action>)
    decreases |actions|
  {
    actions == [] || (Enabled(s, actions[0]) && IsRun(Next(s, actions[0]), actions[1..]))
  }

  function Run(s: State, actions: seq<Action>): State
    requires IsRun(s, actions)
    decreases |actions|
  {
    if actions == [] then s else Run(Next(s, actions[0]), actions[1..])
  }

  lemma {:induction false} RunKeepsInv(s: State, actions: seq<Action>)
    requires Inv(s) && IsRun(s, actions)
    ensures Inv(Run(s, actions))
    decreases |actions|
  {
    hide Inv, Next, Enabled;
    if actions != [] {
      NextKeepsInv(s, actions[0]);
      RunKeepsInv(Next(s, actions[0]), actions[1..]);
    }
  }

  // ---- Runs ----

  predicate NoFailedSeek(actions: seq<Action>) { SeekFails !in actions }

  lemma {:induction false} RunConcat(s: State, a: seq<Action>, b: seq<Action>)
    requires IsRun(s, a) && IsRun(Run(s, a), b)
    ensures IsRun(s, a + b) && Run(s, a + b) == Run(Run(s, a), b)
    decreases |a|
  {
    hide Next, Enabled;
    if a == [] {
      assert a + b == b;
    } else {
      assert (a + b)[0] == a[0] && (a + b)[1..] == a[1..] + b;
      RunConcat(Next(s, a[0]), a[1..], b);
    }
  }

  lemma RunOne(s: State, a: Action)
    requires Enabled(s, a)
    ensures IsRun(s, [a]) && Run(s, [a]) == Next(s, a)
  {
    hide Next, Enabled;
    assert [a][1..] == [];
  }

  lemma RunThree(s: State, a: Action, b: Action, c: Action)
    requires Enabled(s, a) && Enabled(Next(s, a), b) && Enabled(Next(Next(s, a), b), c)
    ensures IsRun(s, [a, b, c]) && Run(s, [a, b, c]) == Next(Next(Next(s, a), b), c)
  {
    hide Next, Enabled;
    RunOne(Next(Next(s, a), b), c);
    assert [a, b, c][1..] == [b, c] && [b, c][1..] == [c];
    assert IsRun(Next(s, a), [b, c]) && Run(Next(s, a), [b, c]) == Next(Next(Next(s, a), b), c);
  }

  function Decodes(l: Line, serial: nat, n: nat): Line
    decreases n
  {
    if n == 0 then l else Decodes(DecodeStep(l, serial), serial, n - 1)
  }

  function WithLine(s: State, ofVideo: bool, l: Line): State
  {
    if ofVideo then s.(video := l) else s.(audio := l)
  }

  function Repeat(ofVideo: bool, n: nat): seq<Action>
  {
    if n == 0 then [] else [Decode(ofVideo)] + Repeat(ofVideo, n - 1)
  }

  lemma {:induction false} DecodeRun(s: State, ofVideo: bool, n: nat)
    requires LineOf(s, ofVideo).started && (ofVideo ==> s.show.picture == None)
    ensures IsRun(s, Repeat(ofVideo, n)) && NoFailedSeek(Repeat(ofVideo, n))
    ensures Run(s, Repeat(ofVideo, n)) == WithLine(s, ofVideo, Decodes(LineOf(s, ofVideo), s.serial, n))
    decreases n
  {
    if n > 0 {
      DecodeRun(Next(s, Decode(ofVideo)), ofVideo, n - 1);
      assert Repeat(ofVideo, n)[1..] == Repeat(ofVideo, n - 1);
    }
  }

  /** A single packet or end through a decoder: popped, compared, given to it, and what it has ready taken. */
  lemma DecodeOne(l: Line, serial: nat, it: Item)
    requires l.stage.Popping? && l.queue == [it] && it.kind != Flush && it.serial == serial == l.local
    ensures Decodes(l, serial, 3) == l.(queue := [], stage := Receiving(it), fed := l.fed + [serial])
    ensures Decodes(l, serial, 4) ==
      l.(queue := [], fed := l.fed + [serial], eofSerial := if it.kind == Eof then serial else l.eofSerial)
  {
    var l1 := DecodeStep(l, serial);
    assert l1 == l.(queue := [], stage := Got(it));
    var l2 := DecodeStep(l1, serial);
    var l3 := DecodeStep(l2, serial);
    var l4 := DecodeStep(l3, serial);
    assert Decodes(l3, serial, 0) == l3 && Decodes(l2, serial, 1) == l3 && Decodes(l1, serial, 2) == l3;
    assert Decodes(l4, serial, 0) == l4 && Decodes(l3, serial, 1) == l4 && Decodes(l2, serial, 2) == l4;
    assert Decodes(l1, serial, 3) == l4;
  }

  // ---- What a seek promises ----

  /** In every run, whatever a decoder was given since its last flush carries the serial of that flush, an
      item about to be given does too, and in the queue behind it each serial starts with its flush. */
  lemma DecodersFedRight(video: bool, audio: bool, actions: seq<Action>, ofVideo: bool)
    requires IsRun(Init(video, audio), actions)
    ensures var s := Run(Init(video, audio), actions);
      var l := LineOf(s, ofVideo);
      && WellOrdered(l.epoch, l.queue)
      && (l.stage.Compared? || l.stage.Receiving? ==>
            l.stage.it.kind != Flush && l.stage.it.serial == l.epoch == l.local)
      && (forall i | 0 <= i < |l.fed| :: l.fed[i] == l.epoch == l.local)
  {
    InitInv(video, audio);
    RunKeepsInv(Init(video, audio), actions);
    hide WellOrdered, LastEpoch, AtEnd, DemuxOk;
  }

  /** Serials never go down along a queue, and go up only at a flush. */
  lemma {:induction false} SerialsAscend(epoch: nat, q: seq<Item>, i: nat, j: nat)
    requires WellOrdered(epoch, q) && i < j < |q|
    ensures q[i].serial <= q[j].serial
    ensures q[j].kind != Flush && q[i].serial < q[j].serial ==>
      exists k :: i < k < j && q[k] == Item(q[j].serial, Flush)
    decreases |q|
  {
    var e := if q[0].kind == Flush then q[0].serial else epoch;
    if i > 0 {
      SerialsAscend(e, q[1..], i - 1, j - 1);
      if q[j].kind != Flush && q[i].serial < q[j].serial {
        var k :| i - 1 < k < j - 1 && q[1..][k] == Item(q[j].serial, Flush);
        assert q[k + 1] == Item(q[j].serial, Flush);
      }
    } else {
      FlushBefore(e, q[1..], j - 1);
      if q[j].kind != Flush && e < q[j].serial {
        var k :| 0 <= k < j - 1 && q[1..][k] == Item(q[j].serial, Flush);
        assert q[k + 1] == Item(q[j].serial, Flush);
      }
    }
  }

  lemma {:induction false} FlushBefore(epoch: nat, q: seq<Item>, j: nat)
    requires WellOrdered(epoch, q) && j < |q|
    ensures epoch <= q[j].serial
    ensures q[j].kind != Flush && epoch < q[j].serial ==> exists k :: 0 <= k < j && q[k] == Item(q[j].serial, Flush)
    decreases |q|
  {
    if j > 0 {
      var e := if q[0].kind == Flush then q[0].serial else epoch;
      FlushBefore(e, q[1..], j - 1);
      if q[j].kind != Flush && epoch < q[j].serial {
        if e == q[j].serial {
          assert q[0] == Item(q[j].serial, Flush);
        } else {
          var k :| 0 <= k < j - 1 && q[1..][k] == Item(q[j].serial, Flush);
          assert q[k + 1] == Item(q[j].serial, Flush);
        }
      }
    }
  }

  /** clock_get never reports a point set before the last seek: a valid clock has the current serial. */
  lemma ClockIsCurrent(video: bool, audio: bool, actions: seq<Action>)
    requires IsRun(Init(video, audio), actions)
    ensures var s := Run(Init(video, audio), actions);
      && (ClockGet(s.show, s.serial) <==> s.show.clock.valid)
      && (s.show.clock.valid ==> s.show.clock.serial == s.serial)
  {
    InitInv(video, audio);
    RunKeepsInv(Init(video, audio), actions);
    hide LineOk, DemuxOk;
  }

  /** The clock shows a time of the current serial. */
  predicate Fresh(s: State) { s.show.clock.valid ==> s.show.clock.origin == s.serial }

  /** The main task passes the current serial with the time of a picture of an earlier one. */
  predicate Stale(s: State, a: Action)
  {
    var m := s.show.main;
    a.MainStep? && m.ArgRead? && m.arg == s.serial && m.frame != m.arg
  }

  lemma FreshStep(s: State, a: Action)
    requires Inv(s) && Enabled(s, a) && Fresh(s)
    ensures Fresh(Next(s, a)) <==> !Stale(s, a)
  {
    FedSerials(s.audio, s.serial);
    hide QueuesOk, LineOk, QueuesNext;
    if !OnShow(a) && !a.DemuxSeek? {
      QueuesStepKeepsShow(s, a);
    }
  }

  /** The sound's clock points are always of their own serial; so is the main task's exactly when the serial
      it read to pass on is still that of the picture it took the time from, or has gone out of date meanwhile. */
  lemma ClockFreshness(video: bool, audio: bool, actions: seq<Action>, a: Action)
    requires IsRun(Init(video, audio), actions) && Enabled(Run(Init(video, audio), actions), a)
    ensures var s := Run(Init(video, audio), actions);
      Fresh(s) ==> (Fresh(Next(s, a)) <==> !Stale(s, a))
  {
    InitInv(video, audio);
    RunKeepsInv(Init(video, audio), actions);
    hide Run, IsRun, Next, Enabled, Fresh, Stale;
    var s := Run(Init(video, audio), actions);
    if Fresh(s) {
      FreshStep(s, a);
    }
  }

  /** No seek comes between the main task's look at a picture and its reading of the serial. */
  predicate Undisturbed(s: State, actions: seq<Action>)
    requires IsRun(s, actions)
    decreases |actions|
  {
    actions == [] ||
    ((actions[0].MainStep? && s.show.main.NoClock? ==> s.show.main.frame == s.serial)
     && Undisturbed(Next(s, actions[0]), actions[1..]))
  }

  ghost predicate Calm(s: State)
  {
    Fresh(s) && (s.show.main.ArgRead? ==> s.show.main.frame == s.show.main.arg)
  }

  lemma CalmStep(s: State, a: Action)
    requires Inv(s) && Enabled(s, a) && Calm(s)
    requires a.MainStep? && s.show.main.NoClock? ==> s.show.main.frame == s.serial
    ensures Calm(Next(s, a))
  {
    FreshStep(s, a);
    hide QueuesOk, Fresh, QueuesNext;
    if !OnShow(a) && !a.DemuxSeek? {
      QueuesStepKeepsShow(s, a);
    }
  }

  lemma {:induction false} UndisturbedFresh(s: State, actions: seq<Action>)
    requires Inv(s) && IsRun(s, actions) && Undisturbed(s, actions) && Calm(s)
    ensures Calm(Run(s, actions))
    decreases |actions|
  {
    hide Inv, Next, Enabled, Calm;
    if actions != [] {
      NextKeepsInv(s, actions[0]);
      CalmStep(s, actions[0]);
      UndisturbedFresh(Next(s, actions[0]), actions[1..]);
    }
  }

  /** In a run without such a seek the clock never shows a time from before the last seek. */
  lemma UndisturbedRunsAreFresh(video: bool, audio: bool, actions: seq<Action>)
    requires IsRun(Init(video, audio), actions) && Undisturbed(Init(video, audio), actions)
    ensures Fresh(Run(Init(video, audio), actions))
  {
    InitInv(video, audio);
    UndisturbedFresh(Init(video, audio), actions);
  }

  /** The packet of a picture of serial 0 is pushed and decoded. */
  lemma DecodedRun()
    ensures var actions := [Start(true), DemuxPacket(true), DemuxPush(false)] + Repeat(true, 3);
      && IsRun(Init(true, false), actions)
      && var s := Run(Init(true, false), actions);
      && s.show == Init(true, false).show && s.serial == 0 && s.video.local == 0 && s.video.stage.Receiving?
      && s.demux.Top? && !s.stop
  {
    var s0 := Init(true, false);
    RunThree(s0, Start(true), DemuxPacket(true), DemuxPush(false));
    var s1 := Run(s0, [Start(true), DemuxPacket(true), DemuxPush(false)]);
    assert s1 == s0.(video := NewLine(true).(started := true, queue := [Item(0, Packet)]));
    DecodeRun(s1, true, 3);
    DecodeOne(s1.video, 0, Item(0, Packet));
    hide Decodes, DecodeStep, Next, Enabled, Repeat;
    RunConcat(s0, [Start(true), DemuxPacket(true), DemuxPush(false)], Repeat(true, 3));
  }

  /** It is queued, and the main task finds its serial current. */
  lemma CheckedRun(s: State)
    requires s.show == Init(true, false).show && s.serial == 0 && s.video.local == 0 && s.video.stage.Receiving?
    ensures var actions := [PictureOut, PicturePut, MainCheck];
      && IsRun(s, actions)
      && Run(s, actions) == s.(show := s.show.(ready := [0], main := Checked(0)))
  {
    var s1 := Next(s, PictureOut);
    var s2 := Next(s1, PicturePut);
    assert s2 == s.(show := s.show.(ready := [0]));
    RunThree(s, PictureOut, PicturePut, MainCheck);
  }

  /** A seek comes; the main task finds the clock without a time and sets it. */
  lemma SetRun(s: State)
    requires s.show.main == Checked(0) && s.serial == 0 && s.demux.Top? && !s.stop
    ensures var actions := [DemuxSeek] + [MainStep, MainStep, MainStep];
      && IsRun(s, actions)
      && Run(s, actions).show.clock == Clock(true, 1, 0) && Run(s, actions).serial == 1
  {
    var s1 := Next(s, DemuxSeek);
    var s2 := Next(s1, MainStep);
    assert s2 == s1.(show := s1.show.(main := NoClock(0)));
    var s3 := Next(s2, MainStep);
    assert s3 == s1.(show := s1.show.(main := ArgRead(0, 1)));
    RunOne(s, DemuxSeek);
    RunThree(s1, MainStep, MainStep, MainStep);
    RunConcat(s, [DemuxSeek], [MainStep, MainStep, MainStep]);
  }

  /** With such a seek it can: the main task passes the new serial with the time of a picture from before the seek. */
  lemma StaleClock()
    ensures var actions := ([Start(true), DemuxPacket(true), DemuxPush(false)] + Repeat(true, 3)) +
        ([PictureOut, PicturePut, MainCheck] + ([DemuxSeek] + [MainStep, MainStep, MainStep]));
      && IsRun(Init(true, false), actions)
      && var s := Run(Init(true, false), actions);
      ClockGet(s.show, s.serial) && !Fresh(s)
  {
    var decoded := [Start(true), DemuxPacket(true), DemuxPush(false)] + Repeat(true, 3);
    var checked, sought := [PictureOut, PicturePut, MainCheck], [DemuxSeek] + [MainStep, MainStep, MainStep];
    DecodedRun();
    var s0 := Run(Init(true, false), decoded);
    CheckedRun(s0);
    SetRun(Run(s0, checked));
    hide IsRun, Run, Repeat;
    RunConcat(s0, checked, sought);
    RunConcat(Init(true, false), decoded, checked + sought);
  }
}
