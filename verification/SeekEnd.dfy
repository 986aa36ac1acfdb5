/** When the main task of ports/video/papp_player.c finds that a stream has ended. It loads the serial, the
    demuxer's mark, the video's, the ready queue's head and the sound's one after the other, while the other
    tasks and seeks go on. */
module SeekEnd {
  import opened Wrappers
  import opened SeekProtocol

  // ---- What a mark means ----

  /** The decoder is through serial n: it has met its end, or a later flush. */
  predicate Over(l: Line, n: nat) { l.epoch > n || l.eofSerial == n }

  /** Nothing of serial n is in the queue or in the decoder's hands. */
  predicate NothingOf(l: Line, n: nat) { Without(l.queue, n) && (!l.stage.Popping? ==> l.stage.it.serial != n) }

  /** Nor is it among the pictures, but later ones may be. */
  predicate PicturesPast(w: Show, n: nat)
  {
    (w.picture.Some? ==> w.picture.value > n) && forall i | 0 <= i < |w.ready| :: w.ready[i] > n
  }

  /** The demuxer will push nothing of serial n, unless a seek fails. */
  predicate DemuxDone(s: State, n: nat) { s.serial > n || (s.serial == n && s.eof) }

  /** Nothing of serial n waits anywhere, or is about to be pushed. */
  predicate PlayedOut(s: State, n: nat)
  {
    && DemuxDone(s, n) && (s.serial == n ==> s.demux.Top?)
    && NothingOf(s.video, n) && NothingOf(s.audio, n) && PicturesPast(s.show, n)
  }

  /** Nothing waits anywhere. */
  predicate AllEmpty(s: State)
  {
    && s.video.queue == s.audio.queue == [] && s.video.stage.Popping? && s.audio.stage.Popping?
    && s.show.picture == None && s.show.ready == []
  }

  lemma OverMeansNothing(l: Line, serial: nat, again: set<nat>, n: nat)
    requires LineOk(l, serial) && EndsOk(l, again) && n !in again && Over(l, n)
    ensures NothingOf(l, n)
  {
    EarlierItems(l.epoch, l.queue);
    assert EndOk(l, n) && forall i | 0 <= i < |l.queue| :: l.queue[i] in l.queue;
    hide WellOrdered, LastEpoch;
  }

  lemma OverStays(l: Line, serial: nat, n: nat)
    requires LineOk(l, serial) && l.started && Over(l, n)
    ensures Over(DecodeStep(l, serial), n)
  {
    hide LastEpoch;
  }

  // ---- What every step of the check keeps ----

  /** The video task's pictures are of its serial, and it makes them only while it receives. */
  predicate PicturesOk(s: State)
  {
    && (s.show.picture.Some? ==> s.video.stage.Receiving? && s.show.picture.value == s.video.local)
    && (!s.video.present ==> s.show.ready == [])
  }

  predicate VideoDone(s: State, n: nat) { (s.video.present ==> Over(s.video, n)) && PicturesPast(s.show, n) }

  predicate AudioDone(s: State, n: nat) { s.audio.present ==> Over(s.audio, n) }

  /** What the loads of a check have shown, and what stays so whatever the others do. */
  predicate CheckOk(s: State)
  {
    match s.show.main
    case EndVideo(n, done) => done && n !in s.again ==> DemuxDone(s, n)
    case EndReady(n, done) => n !in s.again ==> Over(s.video, n) && (done ==> DemuxDone(s, n))
    case EndAudio(n, done) => done && n !in s.again ==> DemuxDone(s, n) && VideoDone(s, n)
    case EndFound(n) => n !in s.again ==> DemuxDone(s, n) && VideoDone(s, n) && AudioDone(s, n)
    case _ => true
  }

  ghost predicate EndInv(s: State) { Inv(s) && PicturesOk(s) && CheckOk(s) }

  lemma InitEndInv(video: bool, audio: bool)
    ensures EndInv(Init(video, audio))
  {
    InitInv(video, audio);
    hide Inv;
  }

  /** A picture the video task has in hand, or makes, is of a serial that it is not through. */
  lemma PictureAhead(s: State, n: nat)
    requires QueuesOk(s) && n !in s.again && Over(s.video, n) && s.video.stage.Receiving?
    ensures s.video.local > n
  {
    OverMeansNothing(s.video, s.serial, s.again, n);
    hide WellOrdered, LastEpoch, EndsOk, Ends, EndsTold, DemuxOk;
  }

  lemma PictureOutKeeps(s: State)
    requires EndInv(s) && Enabled(s, PictureOut)
    ensures PicturesOk(Next(s, PictureOut)) && CheckOk(Next(s, PictureOut))
  {
    if InCheck(s.show.main) && s.show.main.n !in s.again && Over(s.video, s.show.main.n) {
      PictureAhead(s, s.show.main.n);
    }
    assert s.video.present;
    hide QueuesOk, ShowOk, Over, DemuxDone;
  }

  lemma PictureStepKeeps(s: State, a: Action)
    requires EndInv(s) && Enabled(s, a) && (a.PicturePut? || a.AudioClock?)
    ensures PicturesOk(Next(s, a)) && CheckOk(Next(s, a))
  {
    assert s.video.stage.Receiving? ==> s.video.present;
    hide QueuesOk, ShowOk, Over, DemuxDone;
  }

  /** The marks of the current serial, unless a seek has failed behind its end. */
  lemma MarkMeansDone(s: State, n: nat)
    requires QueuesOk(s) && s.demuxEof == n <= s.serial && n !in s.again
    ensures DemuxDone(s, n)
  {
    hide LineOk, EndsOk, EndSent;
  }

  lemma CheckStepKeeps(s: State)
    requires EndInv(s) && InCheck(s.show.main)
    ensures var w := MainNext(s); PicturesOk(s.(show := w)) && CheckOk(s.(show := w))
  {
    var m := s.show.main;
    if m.n !in s.again {
      if m.EndDemux? && s.demuxEof == m.n {
        MarkMeansDone(s, m.n);
      }
      if m.EndReady? && s.video.stage.Receiving? {
        PictureAhead(s, m.n);
      }
    }
    hide QueuesOk, ShowOk, DemuxDone;
  }

  lemma MainStepKeeps(s: State, a: Action)
    requires EndInv(s) && Enabled(s, a) && (a.MainCheck? || a.MainEnd? || a.MainStep? || a.MainLeave?)
    ensures PicturesOk(Next(s, a)) && CheckOk(Next(s, a))
  {
    if a.MainStep? && InCheck(s.show.main) {
      CheckStepKeeps(s);
    } else {
      hide Inv;
      assert !InCheck(Next(s, a).show.main) || Next(s, a).show.main.EndDemux?;
    }
  }

  lemma DecodeKeepsCheck(s: State, v: bool)
    requires EndInv(s) && Enabled(s, Decode(v))
    ensures PicturesOk(Next(s, Decode(v))) && CheckOk(Next(s, Decode(v)))
  {
    var l := LineOf(s, v);
    if InCheck(s.show.main) && Over(l, s.show.main.n) {
      OverStays(l, s.serial, s.show.main.n);
    }
    var n := Next(s, Decode(v));
    assert n == if v then s.(video := DecodeStep(l, s.serial)) else s.(audio := DecodeStep(l, s.serial));
    assert DecodeStep(l, s.serial).present == l.present;
    hide QueuesOk, ShowOk, Over, DemuxDone, Next, PicturesPast;
  }

  lemma StartKeepsCheck(s: State, v: bool)
    requires EndInv(s) && Enabled(s, Start(v))
    ensures PicturesOk(Next(s, Start(v))) && CheckOk(Next(s, Start(v)))
  {
    assert LineOf(s, v).stage.Popping?;
    hide QueuesOk, ShowOk, PicturesPast, DemuxDone;
  }

  /** Of a line a step of the demuxer changes only the queue. */
  predicate SameDecoder(l: Line, n: Line) { n == l.(queue := n.queue) }

  lemma PushedStep(s: State)
    ensures var n := Pushed(s);
      n == s.(video := n.video, audio := n.audio, demuxEof := n.demuxEof, eof := n.eof)
    ensures SameDecoder(s.video, Pushed(s).video) && SameDecoder(s.audio, Pushed(s).audio)
  {}

  /** A step of the demuxer, or a stop. */
  predicate DemuxStep(s: State, n: State)
  {
    && SameDecoder(s.video, n.video) && SameDecoder(s.audio, n.audio) && s.again <= n.again
    && n.show == s.show.(clock := n.show.clock)
  }

  lemma IsDemuxStep(s: State, a: Action)
    requires Enabled(s, a) && !OnShow(a) && !a.Decode? && !a.Start?
    ensures DemuxStep(s, Next(s, a))
  {
    hide Pushed, SameDecoder, DecodeStep;
    SameItself(s.video);
    SameItself(s.audio);
    if a.DemuxPush? {
      PushedStep(s);
    }
  }

  lemma SameItself(l: Line)
    ensures SameDecoder(l, l)
  {}

  lemma DoneStays(s: State, a: Action, k: nat)
    requires Enabled(s, a) && !OnShow(a) && DemuxDone(s, k)
    ensures k in Next(s, a).again || DemuxDone(Next(s, a), k)
  {
    hide DecodeStep, Push;
  }

  lemma DemuxKeepsCheck(s: State, a: Action)
    requires EndInv(s) && Enabled(s, a) && !OnShow(a) && !a.Decode? && !a.Start?
    ensures PicturesOk(Next(s, a)) && CheckOk(Next(s, a))
  {
    IsDemuxStep(s, a);
    hide Inv, Next, Enabled, PicturesPast, DemuxDone;
    if InCheck(s.show.main) && DemuxDone(s, s.show.main.n) {
      DoneStays(s, a, s.show.main.n);
    }
  }

  lemma NextKeepsEndInv(s: State, a: Action)
    requires EndInv(s) && Enabled(s, a)
    ensures EndInv(Next(s, a))
  {
    NextKeepsInv(s, a);
    hide Inv, PicturesOk, CheckOk, Next, Enabled;
    if a.Decode? {
      DecodeKeepsCheck(s, a.ofVideo);
    } else if a.Start? {
      StartKeepsCheck(s, a.ofVideo);
    } else if a.PictureOut? {
      PictureOutKeeps(s);
    } else if a.PicturePut? || a.AudioClock? {
      PictureStepKeeps(s, a);
    } else if OnShow(a) {
      MainStepKeeps(s, a);
    } else {
      DemuxKeepsCheck(s, a);
    }
  }

  lemma {:induction false} RunKeepsEndInv(s: State, actions: seq<Action>)
    requires EndInv(s) && IsRun(s, actions)
    ensures EndInv(Run(s, actions))
    decreases |actions|
  {
    hide EndInv, Next, Enabled;
    if actions != [] {
      NextKeepsEndInv(s, actions[0]);
      RunKeepsEndInv(Next(s, actions[0]), actions[1..]);
    }
  }

  // ---- What a check that comes out true has found ----

  lemma FoundMeansPlayed(s: State)
    requires EndInv(s) && s.show.main.EndFound? && s.show.main.n !in s.again
    ensures PlayedOut(s, s.show.main.n) && (s.serial == s.show.main.n ==> AllEmpty(s))
  {
    var n := s.show.main.n;
    NothingLeft(s.video, s.serial, s.again, n);
    NothingLeft(s.audio, s.serial, s.again, n);
    hide LineOk, EndsOk, Ends, EndsTold, EndSent, LastEpoch;
    assert s.show.ready != [] ==> n < s.show.ready[0];
  }

  /** Of a line that is through serial n, or that the player does not have. */
  lemma NothingLeft(l: Line, serial: nat, again: set<nat>, n: nat)
    requires LineOk(l, serial) && EndsOk(l, again) && n !in again && (l.present ==> Over(l, n))
    ensures NothingOf(l, n) && (serial == n ==> l.queue == [] && l.stage.Popping?)
  {
    if l.present {
      OverMeansNothing(l, serial, again, n);
      EarlierItems(l.epoch, l.queue);
      LastItem(l.epoch, l.queue);
      assert forall i | 0 <= i < |l.queue| :: l.queue[i] in l.queue;
    }
    hide WellOrdered, LastEpoch, EndsOk;
  }

  /** In every run: when the main task's check comes out true for the serial n it has loaded, nothing of n waits
      in a queue, in a decoder's hands, or among the pictures, or is about to be pushed, unless a seek failed
      under n after its end had been pushed. If n is still the player's serial, nothing waits at all. */
  lemma EndMeansDrained(video: bool, audio: bool, actions: seq<Action>)
    requires IsRun(Init(video, audio), actions)
    ensures var s := Run(Init(video, audio), actions); var m := s.show.main;
      m.EndFound? && m.n !in s.again ==> PlayedOut(s, m.n) && (s.serial == m.n ==> AllEmpty(s))
  {
    InitEndInv(video, audio);
    RunKeepsEndInv(Init(video, audio), actions);
    hide EndInv, PlayedOut, AllEmpty;
    var s := Run(Init(video, audio), actions);
    if s.show.main.EndFound? && s.show.main.n !in s.again {
      FoundMeansPlayed(s);
    }
  }

  // ---- Whose end it is ----

  /** The serial goes up at each seek that succeeds, and only there; a check stays one of the serial it loaded. */
  lemma CheckStep(s: State, a: Action)
    requires Enabled(s, a)
    ensures Next(s, a).serial == if a == DemuxSeek then s.serial + 1 else s.serial
    ensures var m := Next(s, a).show.main;
      a != MainEnd && InCheck(m) ==> InCheck(s.show.main) && m.n == s.show.main.n
  {
    if !OnShow(a) && !a.DemuxSeek? {
      QueuesStepKeepsShow(s, a);
    }
    hide QueuesNext;
  }

  lemma {:induction false} CheckRun(s: State, rest: seq<Action>)
    requires IsRun(s, rest) && MainEnd !in rest
    ensures var t := Run(s, rest);
      && t.serial >= s.serial && (t.serial == s.serial <==> DemuxSeek !in rest)
      && (InCheck(t.show.main) ==> InCheck(s.show.main) && t.show.main.n == s.show.main.n)
    decreases |rest|
  {
    hide Next, Enabled, InCheck;
    if rest != [] {
      CheckStep(s, rest[0]);
      assert rest == [rest[0]] + rest[1..];
      CheckRun(Next(s, rest[0]), rest[1..]);
    }
  }

  /** A check that begins at the end of a run `before` and comes out true at the end of `rest` has found the end
      of the serial the player had when it began. It is that of the current serial exactly if no seek has
      succeeded meanwhile; and then nothing waits, unless a seek failed behind that end. */
  lemma EndIsCurrent(video: bool, audio: bool, before: seq<Action>, rest: seq<Action>)
    requires IsRun(Init(video, audio), before)
    requires var s := Run(Init(video, audio), before);
      Enabled(s, MainEnd) && IsRun(Next(s, MainEnd), rest) && MainEnd !in rest
    requires var s := Run(Init(video, audio), before); Run(Next(s, MainEnd), rest).show.main.EndFound?
    ensures var s := Run(Init(video, audio), before); var t := Run(Next(s, MainEnd), rest);
      && t.show.main.n == s.serial
      && (t.show.main.n == t.serial <==> DemuxSeek !in rest)
      && (DemuxSeek !in rest && s.serial !in t.again ==> AllEmpty(t))
  {
    var s := Run(Init(video, audio), before);
    var t := Run(Next(s, MainEnd), rest);
    InitEndInv(video, audio);
    RunKeepsEndInv(Init(video, audio), before);
    NextKeepsEndInv(s, MainEnd);
    RunKeepsEndInv(Next(s, MainEnd), rest);
    CheckStep(s, MainEnd);
    CheckRun(Next(s, MainEnd), rest);
    assert Next(s, MainEnd).show.main == EndDemux(s.serial);
    hide EndInv, IsRun, Run, Next, Enabled, PlayedOut, AllEmpty;
    if s.serial !in t.again {
      FoundMeansPlayed(t);
    }
  }

  // ---- Getting there ----

  /** Some actions, none a seek that fails, lead from one state to another. */
  predicate Leads(s: State, more: seq<Action>, t: State)
  {
    IsRun(s, more) && NoFailedSeek(more) && Run(s, more) == t
  }

  lemma LeadsOn(s: State, a: seq<Action>, t: State, b: seq<Action>, u: State)
    requires Leads(s, a, t) && Leads(t, b, u)
    ensures Leads(s, a + b, u)
  {
    hide IsRun, Run;
    RunConcat(s, a, b);
  }

  lemma LeadsOne(s: State, a: Action)
    requires Enabled(s, a) && a != SeekFails
    ensures Leads(s, [a], Next(s, a))
  {
    hide IsRun, Run, Next, Enabled;
    RunOne(s, a);
  }

  lemma LeadsNowhere(s: State)
    ensures Leads(s, [], s)
  {}

  lemma {:induction false} LeadsKeepsInv(s: State, more: seq<Action>, t: State)
    requires EndInv(s) && Leads(s, more, t)
    ensures EndInv(t)
  {
    hide EndInv, IsRun, Run;
    RunKeepsEndInv(s, more);
  }

  /** The same but for the main task and the pictures. */
  predicate OnlyShow(s: State, t: State) { t == s.(show := t.show) && t.show.picture == s.show.picture }

  function StepsLeft(m: Main): nat
  {
    match m
    case Idle => 0
    case EndDemux(_) => 5
    case EndVideo(_, _) => 4
    case EndReady(_, _) => 3
    case EndAudio(_, _) => 2
    case _ => 1
  }

  /** The main task gets through what it is doing. */
  lemma {:induction false} GetIdle(s: State) returns (more: seq<Action>, t: State)
    ensures Leads(s, more, t) && OnlyShow(s, t) && t.show.main.Idle?
    decreases StepsLeft(s.show.main)
  {
    if s.show.main.Idle? {
      LeadsNowhere(s);
      return [], s;
    }
    var a := if s.show.main.Checked? || s.show.main.NoClock? then MainLeave(false) else MainStep;
    LeadsOne(s, a);
    more, t := GetIdle(Next(s, a));
    LeadsOn(s, [a], Next(s, a), more, t);
    more := [a] + more;
  }

  /** The video task puts the picture it has in hand. */
  lemma PutPicture(s: State) returns (more: seq<Action>, t: State)
    ensures Leads(s, more, t) && t == s.(show := t.show) && t.show.picture == None && t.show.main == s.show.main
  {
    if s.show.picture == None {
      LeadsNowhere(s);
      return [], s;
    }
    LeadsOne(s, PicturePut);
    return [PicturePut], Next(s, PicturePut);
  }

  /** The main task takes the pictures there are. */
  lemma {:induction false} EmptyReady(s: State) returns (more: seq<Action>, t: State)
    requires s.show.main.Idle?
    ensures Leads(s, more, t) && OnlyShow(s, t) && t.show.main.Idle? && t.show.ready == []
    decreases |s.show.ready|
  {
    if s.show.ready == [] {
      LeadsNowhere(s);
      return [], s;
    }
    LeadsOne(s, MainCheck);
    var s1, first := Next(s, MainCheck), [MainCheck];
    if s1.show.main.Checked? {
      LeadsOne(s1, MainLeave(true));
      LeadsOn(s, first, s1, [MainLeave(true)], Next(s1, MainLeave(true)));
      s1, first := Next(s1, MainLeave(true)), first + [MainLeave(true)];
    }
    more, t := EmptyReady(s1);
    LeadsOn(s, first, s1, more, t);
    more := first + more;
  }

  /** Everything the check loads is there. */
  predicate AllMarked(s: State)
  {
    && s.demuxEof == s.serial && s.show.ready == []
    && (s.video.present ==> s.video.eofSerial == s.serial)
    && (s.audio.present ==> s.audio.eofSerial == s.serial)
  }

  /** The main task's next step of the check. */
  lemma CheckOn(s: State, m: Main) returns (t: State)
    requires InCheck(s.show.main) && MainNext(s) == s.show.(main := m)
    ensures Leads(s, [MainStep], t) && t == s.(show := s.show.(main := m))
  {
    hide MainNext;
    t := Next(s, MainStep);
    LeadsOne(s, MainStep);
  }

  lemma ReachFound(s: State) returns (more: seq<Action>, t: State)
    requires s.show.main.Idle? && AllMarked(s)
    ensures Leads(s, more, t) && t == s.(show := s.show.(main := EndFound(s.serial)))
  {
    var n := s.serial;
    LeadsOne(s, MainEnd);
    var s1 := Next(s, MainEnd);
    var s2 := CheckOn(s1, EndVideo(n, true));
    more, t := ReachAudio(s2);
    var s4 := CheckOn(t, EndFound(n));
    hide Leads, Next, Enabled;
    LeadsOn(s, [MainEnd], s1, [MainStep], s2);
    LeadsOn(s, [MainEnd] + [MainStep], s2, more, t);
    LeadsOn(s, [MainEnd] + [MainStep] + more, t, [MainStep], s4);
    more, t := [MainEnd] + [MainStep] + more + [MainStep], s4;
  }

  lemma ReachAudio(s: State) returns (more: seq<Action>, t: State)
    requires s.show.main == EndVideo(s.serial, true) && AllMarked(s)
    ensures Leads(s, more, t) && t == s.(show := s.show.(main := EndAudio(s.serial, true)))
  {
    var n := s.serial;
    if !s.video.present {
      t := CheckOn(s, EndAudio(n, true));
      return [MainStep], t;
    }
    var s1 := CheckOn(s, EndReady(n, true));
    t := CheckOn(s1, EndAudio(n, true));
    LeadsOn(s, [MainStep], s1, [MainStep], t);
    more := [MainStep] + [MainStep];
  }

  // ---- A seek that fails ----

  /** A decoder behind whose end of the serial another one waits gets to the first while the second waits. */
  lemma {:induction false} DrainLine(l: Line, serial: nat, it: Item) returns (n: nat)
    requires LineOk(l, serial) && l.started && EndSent(l, serial) && it == Item(serial, Eof)
    ensures var d := Decodes(l.(queue := l.queue + [it]), serial, n);
      d.queue == [it] && d.eofSerial == serial && d.present == l.present
    decreases |l.queue|, if l.stage.Popping? then 0 else if l.stage.Got? then 3 else if l.stage.Compared? then 2 else 1
  {
    if l.stage.Popping? && l.queue == [] {
      n := 0;
      assert l.queue + [it] == [it];
    } else {
      var more := l.(queue := l.queue + [it]);
      var next := DecodeStep(l, serial);
      DecodeKeepsLine(l, serial);
      assert l.queue != [] ==> more.queue[0] == l.queue[0] && more.queue[1..] == l.queue[1..] + [it];
      assert DecodeStep(more, serial) == next.(queue := next.queue + [it]);
      hide LineOk, EndSent;
      n := DrainLine(next, serial, it);
      n := n + 1;
    }
  }

  const TO_THE_END: seq<Action> := [DemuxEnd, DemuxPush(false), DemuxPush(false), DemuxPush(false)]

  /** The demuxer finds the end, and pushes and marks it. */
  lemma EndRun(s: State)
    requires s.demux.Top? && !s.stop && !s.eof
    ensures Leads(s, TO_THE_END, s.(video := Push(s.video, Item(s.serial, Eof)),
      audio := Push(s.audio, Item(s.serial, Eof)), demuxEof := s.serial, eof := true))
  {
    hide Push;
    var s1 := Next(s, DemuxEnd);
    RunOne(s, DemuxEnd);
    RunThree(s1, DemuxPush(false), DemuxPush(false), DemuxPush(false));
    hide IsRun, Run;
    RunConcat(s, [DemuxEnd], [DemuxPush(false), DemuxPush(false), DemuxPush(false)]);
    assert TO_THE_END == [DemuxEnd] + [DemuxPush(false), DemuxPush(false), DemuxPush(false)];
  }

  /** The decoder's task is running, if the player has that line. */
  lemma GetStarted(s: State, v: bool) returns (more: seq<Action>, t: State)
    requires EndInv(s)
    ensures Leads(s, more, t) && EndInv(t) && t == WithLine(s, v, LineOf(t, v))
    ensures var l, m := LineOf(s, v), LineOf(t, v);
      m.present == l.present && (l.present ==> m.started) && (EndSent(l, s.serial) ==> EndSent(m, s.serial))
  {
    if !LineOf(s, v).present || LineOf(s, v).started {
      LeadsNowhere(s);
      return [], s;
    }
    LeadsOne(s, Start(v));
    more, t := [Start(v)], Next(s, Start(v));
    LeadsKeepsInv(s, more, t);
    hide EndInv;
  }

  /** The end has been pushed to every line, and to one at least. */
  predicate AllTold(s: State)
  {
    && (s.video.present || s.audio.present)
    && (s.video.present ==> EndSent(s.video, s.serial)) && (s.audio.present ==> EndSent(s.audio, s.serial))
  }

  predicate AtTop(s: State) { s.demux.Top? && !s.stop && !s.eof }

  /** Everybody gets ready: the main task idle, no picture in hand, the decoders running. */
  lemma GetReady(s: State) returns (more: seq<Action>, t: State)
    requires EndInv(s) && AtTop(s) && AllTold(s)
    ensures Leads(s, more, t) && EndInv(t) && AtTop(t) && AllTold(t) && t.serial == s.serial
    ensures t.show.main.Idle? && t.show.picture == None
    ensures (t.video.present ==> t.video.started) && (t.audio.present ==> t.audio.started)
  {
    var a, s1 := GetIdle(s);
    var b, s2 := PutPicture(s1);
    LeadsOn(s, a, s1, b, s2);
    LeadsKeepsInv(s, a + b, s2);
    var c, s3 := GetStarted(s2, true);
    var d, s4 := GetStarted(s3, false);
    hide EndInv, Leads, EndSent;
    LeadsOn(s, a + b, s2, c, s3);
    LeadsOn(s, a + b + c, s3, d, s4);
    return a + b + c + d, s4;
  }

  /** A line with another end pushed behind the first comes to the first. */
  predicate Behind(l: Line, serial: nat) { l.present ==> l.queue == [Item(serial, Eof)] && l.eofSerial == serial }

  lemma DrainOne(s: State, v: bool, l: Line) returns (more: seq<Action>, t: State)
    requires s.show.picture == None && LineOk(l, s.serial) && LineOf(s, v) == Push(l, Item(s.serial, Eof))
    requires l.present ==> l.started && EndSent(l, s.serial)
    ensures Leads(s, more, t) && t == WithLine(s, v, LineOf(t, v)) && Behind(LineOf(t, v), s.serial)
    ensures LineOf(t, v).present == l.present
  {
    if !l.present {
      LeadsNowhere(s);
      return [], s;
    }
    var n := DrainLine(l, s.serial, Item(s.serial, Eof));
    hide Decodes, EndSent, LineOk;
    DecodeRun(s, v, n);
    more, t := Repeat(v, n), Run(s, Repeat(v, n));
  }

  /** After a seek that failed behind the end some run lets the main task find the end while an item waits. */
  lemma FindsTooEarly(s: State) returns (more: seq<Action>, t: State)
    requires EndInv(s) && AtTop(s) && AllTold(s)
    ensures Leads(s, more, t) && t.show.main == EndFound(s.serial) && !PlayedOut(t, s.serial)
  {
    var a, s1 := GetReady(s);
    EndRun(s1);
    var it := Item(s.serial, Eof);
    var s2 := s1.(video := Push(s1.video, it), audio := Push(s1.audio, it), demuxEof := s1.serial, eof := true);
    var c, s3 := DrainOne(s2, true, s1.video);
    var d, s4 := DrainOne(s3, false, s1.audio);
    var e, s5 := EmptyReady(s4);
    var f, s6 := ReachFound(s5);
    hide Leads, EndInv, AllTold, Push;
    LeadsOn(s, a, s1, TO_THE_END, s2);
    LeadsOn(s, a + TO_THE_END, s2, c, s3);
    LeadsOn(s, a + TO_THE_END + c, s3, d, s4);
    LeadsOn(s, a + TO_THE_END + c + d, s4, e, s5);
    LeadsOn(s, a + TO_THE_END + c + d + e, s5, f, s6);
    more, t := a + TO_THE_END + c + d + e + f, s6;
    assert s6.video.present ==> s6.video.queue[0] == it;
    assert s6.audio.present ==> s6.audio.queue[0] == it;
  }

  lemma AgainStep(s: State, a: Action)
    requires Enabled(s, a) && a != SeekFails
    ensures Next(s, a).again == s.again
  {
    hide DecodeStep, Push, ShowNext;
  }

  lemma {:induction false} AgainRun(s: State, actions: seq<Action>)
    requires IsRun(s, actions) && NoFailedSeek(actions)
    ensures Run(s, actions).again == s.again
    decreases |actions|
  {
    hide Next, Enabled;
    if actions != [] {
      AgainStep(s, actions[0]);
      AgainRun(Next(s, actions[0]), actions[1..]);
    }
  }

  /** If the main task has just found the end of a serial from this one on, nothing of it waits. */
  predicate RightFrom(s: State, from: nat)
  {
    s.show.main.EndFound? && s.show.main.n >= from ==> PlayedOut(s, s.show.main.n)
  }

  lemma FailedSeekRight(s: State, more: seq<Action>)
    requires EndInv(s) && Enabled(s, SeekFails) && s.serial !in s.again && !s.eof
    requires IsRun(Next(s, SeekFails), more) && NoFailedSeek(more)
    ensures RightFrom(Run(Next(s, SeekFails), more), s.serial)
  {
    var n := Next(s, SeekFails);
    var t := Run(n, more);
    NextKeepsEndInv(s, SeekFails);
    RunKeepsEndInv(n, more);
    AgainRun(n, more);
    assert forall k <- s.again :: k <= s.serial;
    hide EndInv, IsRun, Run, PlayedOut;
    if t.show.main.EndFound? && t.show.main.n >= s.serial {
      FoundMeansPlayed(t);
    }
  }

  /** Whether a seek that fails may let the main task find the end of the current serial, or a later one, while
      something of it waits: exactly when it fails after the end of the current serial has been pushed. */
  lemma FailedSeekExact(video: bool, audio: bool, actions: seq<Action>)
    requires IsRun(Init(video, audio), actions)
    requires var s := Run(Init(video, audio), actions);
      Enabled(s, SeekFails) && s.serial !in s.again && (s.video.present || s.audio.present)
    ensures var s := Run(Init(video, audio), actions); var n := Next(s, SeekFails);
      (forall more | IsRun(n, more) && NoFailedSeek(more) :: RightFrom(Run(n, more), s.serial)) <==> !s.eof
  {
    InitEndInv(video, audio);
    RunKeepsEndInv(Init(video, audio), actions);
    var s := Run(Init(video, audio), actions);
    var n := Next(s, SeekFails);
    NextKeepsEndInv(s, SeekFails);
    if s.eof {
      var more, t := FindsTooEarly(n);
      assert IsRun(n, more);
    } else {
      forall more | IsRun(n, more) && NoFailedSeek(more) ensures RightFrom(Run(n, more), s.serial) {
        FailedSeekRight(s, more);
      }
    }
  }

  // ---- Two runs ----

  /** The decoder of the only line meets the end. */
  lemma EndHeard(s: State, v: bool)
    requires s.serial == 0 && s.show.picture == None && LineOf(s, v).started && LineOf(s, v).local == 0
    requires LineOf(s, v).stage.Popping? && LineOf(s, v).queue == [Item(0, Eof)]
    ensures var l := LineOf(s, v);
      Leads(s, Repeat(v, 4), WithLine(s, v, l.(queue := [], fed := l.fed + [0], eofSerial := 0)))
  {
    DecodeRun(s, v, 4);
    DecodeOne(LineOf(s, v), 0, Item(0, Eof));
    hide Decodes, DecodeStep;
  }

  /** The stream is pushed and decoded to its end. */
  function ToItsEnd(v: bool): seq<Action> { [Start(v)] + TO_THE_END + Repeat(v, 4) }

  /** The only line, and its decoder, at the end. */
  predicate AtItsEnd(s: State, v: bool)
  {
    && s.serial == 0 && s.demux.Top? && !s.stop && s.eof && s.demuxEof == 0 && s.again == {}
    && s.show == Init(v, !v).show && !LineOf(s, !v).present && LineOf(s, v).queue == []
    && LineOf(s, v).present && LineOf(s, v).eofSerial == 0
  }

  lemma EndDecoded(v: bool) returns (t: State)
    ensures Leads(Init(v, !v), ToItsEnd(v), t) && AtItsEnd(t, v)
  {
    var s0 := Init(v, !v);
    LeadsOne(s0, Start(v));
    var s1 := Next(s0, Start(v));
    EndRun(s1);
    var it := Item(0, Eof);
    var s2 := s1.(video := Push(s1.video, it), audio := Push(s1.audio, it), demuxEof := 0, eof := true);
    assert LineOf(s2, v).queue == [it];
    EndHeard(s2, v);
    var l := LineOf(s2, v);
    t := WithLine(s2, v, l.(queue := [], fed := l.fed + [0], eofSerial := 0));
    hide Leads, Repeat, TO_THE_END;
    LeadsOn(s0, [Start(v)], s1, TO_THE_END, s2);
    LeadsOn(s0, [Start(v)] + TO_THE_END, s2, Repeat(v, 4), t);
  }

  const LOOKED: seq<Action> := TO_THE_END + [MainEnd] + [MainStep] + [MainStep] + [MainStep]

  /** After a failed seek: the demuxer finds the end again, and the main task looks. */
  lemma LooksTooEarly(s: State) returns (t: State)
    requires AtItsEnd(s.(eof := true, again := {}), false) && !s.eof
    ensures Leads(s, LOOKED, t)
    ensures t.show.main == EndFound(0) && t.serial == 0 && t.audio.queue == [Item(0, Eof)]
  {
    EndRun(s);
    var s1 := s.(audio := s.audio.(queue := [Item(0, Eof)]), demuxEof := 0, eof := true);
    assert Push(s.audio, Item(0, Eof)) == s1.audio;
    LeadsOne(s1, MainEnd);
    var s2 := Next(s1, MainEnd);
    var s3 := CheckOn(s2, EndVideo(0, true));
    var s4 := CheckOn(s3, EndAudio(0, true));
    t := CheckOn(s4, EndFound(0));
    hide Leads, TO_THE_END;
    LeadsOn(s, TO_THE_END, s1, [MainEnd], s2);
    LeadsOn(s, TO_THE_END + [MainEnd], s2, [MainStep], s3);
    LeadsOn(s, TO_THE_END + [MainEnd] + [MainStep], s3, [MainStep], s4);
    LeadsOn(s, TO_THE_END + [MainEnd] + [MainStep] + [MainStep], s4, [MainStep], t);
  }

  /** Sound alone, paused behind its end: a seek fails, the demuxer finds the end again, and the main task finds
      the stream ended while an item of it waits. */
  lemma EndTooEarly()
    ensures var actions := ToItsEnd(false) + ([SeekFails] + LOOKED);
      && IsRun(Init(false, true), actions)
      && var s := Run(Init(false, true), actions);
      && s.show.main == EndFound(0) && s.serial == 0 && s.audio.queue == [Item(0, Eof)]
  {
    var s0 := Init(false, true);
    var s1 := EndDecoded(false);
    RunOne(s1, SeekFails);
    var s2 := Next(s1, SeekFails);
    assert s2.(eof := true, again := {}) == s1;
    var s3 := LooksTooEarly(s2);
    hide IsRun, Run, LOOKED, ToItsEnd;
    RunConcat(s1, [SeekFails], LOOKED);
    RunConcat(s0, ToItsEnd(false), [SeekFails] + LOOKED);
  }

  /** A seek, with its flush; and the first packet behind it. */
  const SEEK: seq<Action> := [DemuxSeek, DemuxPush(false), DemuxPush(false)]
  const PACKET: seq<Action> := [DemuxPacket(true)] + [DemuxPush(false)]

  lemma SeekRun(s: State)
    requires s.demux.Top? && !s.stop && s.serial == 0 && s.video.present && s.video.queue == [] && !s.audio.present
    ensures Leads(s, SEEK, s.(serial := 1, show := s.show.(clock := s.show.clock.(valid := false)), eof := false,
      video := s.video.(queue := [Item(1, Flush)])))
  {
    var s1 := Next(s, DemuxSeek);
    var s2 := Next(s1, DemuxPush(false));
    assert s2.video == s.video.(queue := [Item(1, Flush)]);
    RunThree(s, DemuxSeek, DemuxPush(false), DemuxPush(false));
  }

  lemma PacketRun(s: State)
    requires s.demux.Top? && !s.stop && !s.eof && s.video.present
    ensures Leads(s, PACKET, s.(video := s.video.(queue := s.video.queue + [Item(s.serial, Packet)])))
  {
    LeadsOne(s, DemuxPacket(true));
    var s1 := Next(s, DemuxPacket(true));
    LeadsOne(s1, DemuxPush(false));
    LeadsOn(s, [DemuxPacket(true)], s1, [DemuxPush(false)], Next(s1, DemuxPush(false)));
  }

  /** The main task loads the serial, a seek succeeds and its first packet is pushed, and the marks are loaded. */
  const SOUGHT_MEANWHILE: seq<Action> :=
    [MainEnd] + SEEK + PACKET + [MainStep] + [MainStep] + [MainStep] + [MainStep]

  lemma SeekMeanwhile(s: State) returns (t: State)
    requires AtItsEnd(s, true)
    ensures Leads(s, [MainEnd] + SEEK + PACKET, t)
    ensures t.show.main == EndDemux(0) && t.show.ready == [] && t.serial == 1 && t.again == {} && t.demuxEof == 0
    ensures t.video.queue == [Item(1, Flush), Item(1, Packet)] && t.video.present && t.video.eofSerial == 0
    ensures !t.audio.present
  {
    LeadsOne(s, MainEnd);
    var s1 := Next(s, MainEnd);
    SeekRun(s1);
    var s2 := s1.(serial := 1, show := s1.show.(clock := s1.show.clock.(valid := false)), eof := false,
      video := s1.video.(queue := [Item(1, Flush)]));
    PacketRun(s2);
    t := s2.(video := s2.video.(queue := s2.video.queue + [Item(1, Packet)]));
    hide Leads, SEEK, PACKET;
    LeadsOn(s, [MainEnd], s1, SEEK, s2);
    LeadsOn(s, [MainEnd] + SEEK, s2, PACKET, t);
  }

  /** Pictures alone: no seek fails, but one succeeds between the load of the serial and those of the marks, and
      the main task finds the end of the old serial while a flush and a packet of the new one wait. */
  lemma OldEndFound()
    ensures var actions := ToItsEnd(true) + SOUGHT_MEANWHILE;
      && IsRun(Init(true, false), actions) && NoFailedSeek(actions)
      && var s := Run(Init(true, false), actions);
      && s.show.main == EndFound(0) && s.serial == 1 && s.again == {}
      && s.video.queue == [Item(1, Flush), Item(1, Packet)]
  {
    var s0 := Init(true, false);
    var s1 := EndDecoded(true);
    var s2 := SeekMeanwhile(s1);
    var s3 := CheckOn(s2, EndVideo(0, true));
    var s4 := CheckOn(s3, EndReady(0, true));
    var s5 := CheckOn(s4, EndAudio(0, true));
    var s6 := CheckOn(s5, EndFound(0));
    var sought := [MainEnd] + SEEK + PACKET;
    assert SOUGHT_MEANWHILE == sought + [MainStep] + [MainStep] + [MainStep] + [MainStep];
    assert Leads(s0, ToItsEnd(true) + SOUGHT_MEANWHILE, s6) by {
      hide Leads, ToItsEnd;
      LeadsOn(s1, sought, s2, [MainStep], s3);
      LeadsOn(s1, sought + [MainStep], s3, [MainStep], s4);
      LeadsOn(s1, sought + [MainStep] + [MainStep], s4, [MainStep], s5);
      LeadsOn(s1, sought + [MainStep] + [MainStep] + [MainStep], s5, [MainStep], s6);
      LeadsOn(s0, ToItsEnd(true), s1, SOUGHT_MEANWHILE, s6);
    }
  }
}
