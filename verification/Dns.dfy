/** Host name lookups in ports/netsurf/papp_http.c: six job slots shared by the fetcher, which queues, reads
    and abandons lookups, and a worker task, which answers them. Every load and store of a shared field is a
    step of its own (a host name is written and read in two), in any interleaving of the two tasks.

    A slot's `serial`, `asked` and `late` only record what happened. */
module Dns {
  import opened Wrappers

  const JOBS := 6

  datatype JobState = Free | Queued | Done

  /** The host field: a name, or one half written. */
  datatype Host = Torn | Name(name: string)

  /** What net_resolve answered, to which queueing of a slot and for which name. */
  datatype Answer = Answer(serial: nat, host: Host, ok: bool, ip: nat)

  /** A slot; `ok` and `ip` are of the answers they were taken from. */
  datatype Job = Job(state: JobState, abandoned: bool, host: Host, ok: Option<Answer>, ip: Option<Answer>, serial: nat)

  datatype Worker =
    | Look(i: nat)
    | Picked(i: nat)
    | Reading(i: nat, first: Host)
    | Answered(i: nat, a: Answer)
    | OkStored(i: nat, a: Answer)
    | IpStored(i: nat, a: Answer)

  /** What a reap was called for. */
  datatype Then = Nothing | Queue(f: nat, host: string)

  datatype Fetcher =
    | Idle
    | Reap(n: nat, then_: Then)
    | Clear(n: nat, then_: Then)
    | Release(n: nat, then_: Then)
    | Scan(n: nat, f: nat, host: string)
    | HostBegin(n: nat, f: nat, host: string)
    | HostEnd(n: nat, f: nat, host: string)
    | OkClear(n: nat, f: nat, host: string)
    | StoreQueued(n: nat, f: nat, host: string)
    | Check(f: nat)
    | ReadOk(f: nat)
    | ReadIp(f: nat, ok: Option<Answer>)
    | StoreFree(f: nat, ok: Option<Answer>, ip: Option<Answer>)

  /** A fetch's lookup slot, and which queueing that is. */
  datatype Wait = Wait(slot: nat, serial: nat)

  datatype Result = Result(to: nat, ok: Option<Answer>, ip: Option<Answer>)

  /** A queueing: by whom, for which host, whether the worker is done with it, and what was handed on. */
  datatype Asked = Asked(f: nat, host: string, slot: nat, looked: bool, results: seq<Result>)

  datatype State = State(
    jobs: seq<Job>, worker: Worker, fetcher: Fetcher, wait: map<nat, Wait>, asked: seq<Asked>, late: set<nat>)

  datatype Action =
    | Start(f: nat, host: string)
    | AskResult(f: nat)
    | Abandon(f: nat)
    | ReapNow
    | FetcherStep
    | WorkerStep(ok: bool, ip: nat)

  const NO_JOB := Job(Free, false, Torn, None, None, 0)

  function Init(): State { State(seq(JOBS, i => NO_JOB), Look(0), Idle, map[], [], {}) }

  predicate Enabled(s: State, a: Action)
  {
    match a
    case Start(f, _) => s.fetcher.Idle? && f !in s.wait
    case AskResult(f) => s.fetcher.Idle? && f in s.wait
    case Abandon(f) => s.fetcher.Idle? && f in s.wait
    case ReapNow => s.fetcher.Idle?
    case FetcherStep => !s.fetcher.Idle?
    case WorkerStep(_, _) => true
  }

  /** Slots and histories in range, as every index in a step needs. */
  predicate InRange(s: State)
  {
    && |s.jobs| == JOBS && s.worker.i < JOBS
    && (forall f <- s.wait :: s.wait[f].slot < JOBS && s.wait[f].serial < |s.asked|)
    && (forall k | 0 <= k < |s.asked| :: s.asked[k].slot < JOBS)
    && match s.fetcher
       case Idle => true
       case Reap(n, _) => n <= JOBS
       case Clear(n, _) => n < JOBS
       case Release(n, _) => n < JOBS
       case Scan(n, _, _) => n <= JOBS
       case HostBegin(n, _, _) => n < JOBS
       case HostEnd(n, _, _) => n < JOBS
       case OkClear(n, _, _) => n < JOBS
       case StoreQueued(n, _, _) => n < JOBS
       case Check(f) => f in s.wait
       case ReadOk(f) => f in s.wait
       case ReadIp(f, _) => f in s.wait
       case StoreFree(f, _, _) => f in s.wait
  }

  /** The worker's next load or store. */
  function WorkerNext(s: State, ok: bool, ip: nat): State
    requires InRange(s)
  {
    var i := s.worker.i;
    var j := s.jobs[i];
    match s.worker
    case Look(_) => s.(worker := if j.state == Queued then Picked(i) else Look((i + 1) % JOBS))
    case Picked(_) => s.(worker := Reading(i, j.host))
    case Reading(_, first) =>
      s.(worker := Answered(i, Answer(j.serial, if j.host == first then first else Torn, ok, ip)))
    case Answered(_, a) => s.(jobs := s.jobs[i := j.(ok := Some(a))], worker := OkStored(i, a))
    case OkStored(_, a) => s.(jobs := s.jobs[i := j.(ip := Some(a))], worker := IpStored(i, a))
    case IpStored(_, _) =>
      s.(jobs := s.jobs[i := j.(state := Done)], worker := Look((i + 1) % JOBS),
         asked := if j.serial < |s.asked| then s.asked[j.serial := s.asked[j.serial].(looked := true)] else s.asked,
         late := if Passed(s.fetcher, i) then s.late + {i} else s.late)
  }

  /** The reap under way has looked at slot i. */
  predicate Passed(p: Fetcher, i: nat) { (p.Reap? || p.Clear? || p.Release?) && i < p.n }

  /** The fetcher's next load or store. */
  function FetcherNext(s: State): State
    requires InRange(s) && !s.fetcher.Idle?
  {
    match s.fetcher
    case Idle => s
    case Reap(n, then_) =>
      if n < JOBS then
        if s.jobs[n].abandoned && s.jobs[n].state == Done then s.(fetcher := Clear(n, then_))
        else s.(fetcher := Reap(n + 1, then_))
      else if then_.Queue? then s.(fetcher := Scan(0, then_.f, then_.host))
      else s.(fetcher := Idle)
    case Clear(n, then_) => s.(jobs := s.jobs[n := s.jobs[n].(abandoned := false)], fetcher := Release(n, then_))
    case Release(n, then_) => s.(jobs := s.jobs[n := s.jobs[n].(state := Free)], fetcher := Reap(n + 1, then_))
    case Scan(n, f, host) =>
      if n == JOBS then s.(fetcher := Idle)
      else if s.jobs[n].state == Free && !s.jobs[n].abandoned then s.(fetcher := HostBegin(n, f, host))
      else s.(fetcher := Scan(n + 1, f, host))
    case HostBegin(n, f, host) => s.(jobs := s.jobs[n := s.jobs[n].(host := Torn)], fetcher := HostEnd(n, f, host))
    case HostEnd(n, f, host) => s.(jobs := s.jobs[n := s.jobs[n].(host := Name(host))], fetcher := OkClear(n, f, host))
    case OkClear(n, f, host) => s.(jobs := s.jobs[n := s.jobs[n].(ok := None)], fetcher := StoreQueued(n, f, host))
    case StoreQueued(n, f, host) =>
      s.(jobs := s.jobs[n := s.jobs[n].(state := Queued, serial := |s.asked|)], fetcher := Idle,
         wait := s.wait[f := Wait(n, |s.asked|)], asked := s.asked + [Asked(f, host, n, false, [])])
    case Check(f) => s.(fetcher := if s.jobs[s.wait[f].slot].state == Done then ReadOk(f) else Idle)
    case ReadOk(f) => s.(fetcher := ReadIp(f, s.jobs[s.wait[f].slot].ok))
    case ReadIp(f, ok) => s.(fetcher := StoreFree(f, ok, s.jobs[s.wait[f].slot].ip))
    case StoreFree(f, ok, ip) =>
      var w := s.wait[f];
      s.(jobs := s.jobs[w.slot := s.jobs[w.slot].(state := Free)], fetcher := Idle, wait := s.wait - {f},
         asked := s.asked[w.serial := s.asked[w.serial].(results := s.asked[w.serial].results + [Result(f, ok, ip)])])
  }

  function Next(s: State, a: Action): State
    requires InRange(s) && Enabled(s, a)
  {
    match a
    case Start(f, host) => s.(fetcher := Reap(0, Queue(f, host)), late := {})
    case AskResult(f) => s.(fetcher := Check(f))
    case Abandon(f) =>
      var i := s.wait[f].slot;
      s.(jobs := s.jobs[i := s.jobs[i].(abandoned := true)], wait := s.wait - {f},
         fetcher := Reap(0, Nothing), late := {})
    case ReapNow => s.(fetcher := Reap(0, Nothing), late := {})
    case FetcherStep => FetcherNext(s)
    case WorkerStep(ok, ip) => WorkerNext(s, ok, ip)
  }

  // ---- What every step keeps ----

  /** The slot that the fetcher writes before queueing it. */
  function Filling(p: Fetcher): Option<nat>
  {
    match p
    case HostBegin(n, _, _) => Some(n)
    case HostEnd(n, _, _) => Some(n)
    case OkClear(n, _, _) => Some(n)
    case StoreQueued(n, _, _) => Some(n)
    case _ => None
  }

  /** A slot, by itself. */
  predicate JobOk(i: nat, j: Job, asked: seq<Asked>, wait: map<nat, Wait>, p: Fetcher)
  {
    if j.state == Free then !j.abandoned
    else
      && j.serial < |asked| && asked[j.serial].slot == i && j.host == Name(asked[j.serial].host)
      && (asked[j.serial].looked <==> j.state == Done)
      && (j.state == Done ==> RightAnswer(j.ok, j.serial, asked[j.serial].host) && j.ip == j.ok)
      && Filling(p) != Some(i)
      && (if p.Release? && p.n == i then j.state == Done && !j.abandoned && NobodyWaits(i, wait)
          else if p.Clear? && p.n == i then j.state == Done && j.abandoned && NobodyWaits(i, wait)
          else if j.abandoned then NobodyWaits(i, wait)
          else asked[j.serial].f in wait && wait[asked[j.serial].f] == Wait(i, j.serial))
  }

  predicate NobodyWaits(i: nat, wait: map<nat, Wait>) { forall f <- wait :: wait[f].slot != i }

  /** The answer to that queueing, for its host. */
  predicate RightAnswer(a: Option<Answer>, serial: nat, host: string)
  {
    a.Some? && a.value.serial == serial && a.value.host == Name(host)
  }

  predicate WorkerOk(w: Worker, j: Job, asked: seq<Asked>)
  {
    !w.Look? ==>
      && j.state == Queued && j.serial < |asked|
      && (w.Reading? ==> w.first == j.host)
      && (w.Answered? || w.OkStored? || w.IpStored? ==> RightAnswer(Some(w.a), j.serial, asked[j.serial].host))
      && (w.OkStored? || w.IpStored? ==> j.ok == Some(w.a)) && (w.IpStored? ==> j.ip == Some(w.a))
  }

  predicate WaitOk(f: nat, w: Wait, jobs: seq<Job>, asked: seq<Asked>)
    requires w.slot < |jobs| && w.serial < |asked|
  {
    && asked[w.serial].f == f && asked[w.serial].slot == w.slot && asked[w.serial].results == []
    && jobs[w.slot].serial == w.serial && jobs[w.slot].state != Free && !jobs[w.slot].abandoned
  }

  predicate FetcherOk(s: State)
    requires InRange(s)
  {
    match s.fetcher
    case Idle => true
    case Reap(_, then_) => then_.Queue? ==> then_.f !in s.wait
    case Clear(n, then_) => s.jobs[n].abandoned && s.jobs[n].state == Done && (then_.Queue? ==> then_.f !in s.wait)
    case Release(n, then_) => !s.jobs[n].abandoned && s.jobs[n].state == Done && (then_.Queue? ==> then_.f !in s.wait)
    case Scan(_, f, _) => f !in s.wait
    case HostBegin(n, f, _) => f !in s.wait && s.jobs[n].state == Free
    case HostEnd(n, f, _) => f !in s.wait && s.jobs[n].state == Free
    case OkClear(n, f, host) => f !in s.wait && s.jobs[n].state == Free && s.jobs[n].host == Name(host)
    case StoreQueued(n, f, host) => f !in s.wait && s.jobs[n].state == Free && s.jobs[n].host == Name(host)
    case Check(_) => true
    case ReadOk(f) => s.jobs[s.wait[f].slot].state == Done
    case ReadIp(f, ok) => s.jobs[s.wait[f].slot].state == Done && ok == s.jobs[s.wait[f].slot].ok
    case StoreFree(f, ok, ip) =>
      var j := s.jobs[s.wait[f].slot];
      j.state == Done && ok == j.ok && ip == j.ip
  }

  /** What became of a queueing. */
  predicate AskedOk(k: nat, a: Asked, jobs: seq<Job>)
    requires a.slot < |jobs|
  {
    && (!a.looked ==> jobs[a.slot].serial == k && jobs[a.slot].state == Queued)
    && |a.results| <= 1
    && (a.results != [] ==> Delivered(k, a))
  }

  predicate Delivered(k: nat, a: Asked)
  {
    && a.results != [] && a.results[0].to == a.f
    && RightAnswer(a.results[0].ok, k, a.host) && a.results[0].ip == a.results[0].ok
  }

  /** Of the slots a reap has looked at, the abandoned and done ones are those whose lookup ended behind it. */
  predicate LateOk(i: nat, j: Job, p: Fetcher, late: set<nat>)
  {
    && (Passed(p, i) && j.abandoned ==> (j.state == Done <==> i in late))
    && ((p.Reap? || p.Clear? || p.Release?) && i >= p.n ==> i !in late)
  }

  ghost predicate JobsOk(jobs: seq<Job>, asked: seq<Asked>, wait: map<nat, Wait>, p: Fetcher)
  {
    forall i: nat | i < |jobs| :: JobOk(i, jobs[i], asked, wait, p)
  }

  predicate WaitsOk(wait: map<nat, Wait>, jobs: seq<Job>, asked: seq<Asked>)
  {
    forall f <- wait :: wait[f].slot < |jobs| && wait[f].serial < |asked| && WaitOk(f, wait[f], jobs, asked)
  }

  ghost predicate AllAskedOk(asked: seq<Asked>, jobs: seq<Job>)
  {
    forall k: nat | k < |asked| :: asked[k].slot < |jobs| && AskedOk(k, asked[k], jobs)
  }

  ghost predicate LatesOk(jobs: seq<Job>, p: Fetcher, late: set<nat>)
  {
    forall i: nat | i < |jobs| :: LateOk(i, jobs[i], p, late)
  }

  ghost predicate Inv(s: State)
  {
    && InRange(s) && WorkerOk(s.worker, s.jobs[s.worker.i], s.asked) && FetcherOk(s)
    && JobsOk(s.jobs, s.asked, s.wait, s.fetcher) && WaitsOk(s.wait, s.jobs, s.asked)
    && AllAskedOk(s.asked, s.jobs) && LatesOk(s.jobs, s.fetcher, s.late)
  }

  lemma InitInv()
    ensures Inv(Init())
  {}

  // ---- The worker's steps ----

  /** Looking changes nothing but where the worker is. */
  lemma WorkerLooks(s: State, ok: bool, ip: nat)
    requires Inv(s) && (s.worker.Look? || s.worker.Picked? || s.worker.Reading?)
    ensures Inv(WorkerNext(s, ok, ip))
  {
    hide WaitsOk, AllAskedOk, LatesOk;
    assert JobOk(s.worker.i, s.jobs[s.worker.i], s.asked, s.wait, s.fetcher);
    hide JobsOk;
  }

  /** Writing the answer into a queued slot is seen by nobody. */
  lemma WriteAnswer(s: State, i: nat, j: Job)
    requires Inv(s) && i < JOBS && s.jobs[i].state == Queued && j == s.jobs[i].(ok := j.ok, ip := j.ip)
    ensures InRange(s.(jobs := s.jobs[i := j])) && FetcherOk(s.(jobs := s.jobs[i := j]))
    ensures var jobs := s.jobs[i := j];
      && JobsOk(jobs, s.asked, s.wait, s.fetcher) && WaitsOk(s.wait, jobs, s.asked)
      && AllAskedOk(s.asked, jobs) && LatesOk(jobs, s.fetcher, s.late)
  {
    hide WorkerOk;
    var jobs := s.jobs[i := j];
    assert JobsOk(jobs, s.asked, s.wait, s.fetcher) by {
      hide WaitsOk, AllAskedOk, LatesOk, FetcherOk;
      assert JobOk(i, s.jobs[i], s.asked, s.wait, s.fetcher);
    }
    assert WaitsOk(s.wait, jobs, s.asked) by { hide JobsOk, AllAskedOk, LatesOk, FetcherOk; }
    assert AllAskedOk(s.asked, jobs) by { hide JobsOk, WaitsOk, LatesOk, FetcherOk, Delivered; }
    assert LatesOk(jobs, s.fetcher, s.late) by { hide JobsOk, WaitsOk, AllAskedOk, FetcherOk; }
    hide JobsOk, WaitsOk, AllAskedOk, LatesOk;
  }

  lemma WorkerWrites(s: State, ok: bool, ip: nat)
    requires Inv(s) && (s.worker.Answered? || s.worker.OkStored?)
    ensures Inv(WorkerNext(s, ok, ip))
  {
    var i := s.worker.i;
    WriteAnswer(s, i, WorkerNext(s, ok, ip).jobs[i]);
    hide JobsOk, WaitsOk, AllAskedOk, LatesOk, FetcherOk;
  }

  lemma FinishRest(s: State, ok: bool, ip: nat)
    requires Inv(s) && s.worker.IpStored?
    ensures var t := WorkerNext(s, ok, ip);
      WaitsOk(t.wait, t.jobs, t.asked) && AllAskedOk(t.asked, t.jobs) && LatesOk(t.jobs, t.fetcher, t.late)
  {
    var t := WorkerNext(s, ok, ip);
    hide JobsOk, FetcherOk;
    assert WaitsOk(t.wait, t.jobs, t.asked) by { hide AllAskedOk, LatesOk, WorkerOk; }
    assert AllAskedOk(t.asked, t.jobs) by { hide WaitsOk, LatesOk, Delivered; }
    hide WaitsOk, AllAskedOk, WorkerOk;
  }

  /** The lookup is done, and its queueing knows. */
  lemma WorkerFinishes(s: State, ok: bool, ip: nat)
    requires Inv(s) && s.worker.IpStored?
    ensures Inv(WorkerNext(s, ok, ip))
  {
    FinishRest(s, ok, ip);
    hide JobsOk, WaitsOk, AllAskedOk, LatesOk;
  }

  lemma WorkerKeepsInv(s: State, ok: bool, ip: nat)
    requires Inv(s)
    ensures Inv(WorkerNext(s, ok, ip))
  {
    hide Inv, WorkerNext;
    if s.worker.IpStored? {
      WorkerFinishes(s, ok, ip);
    } else if s.worker.Answered? || s.worker.OkStored? {
      WorkerWrites(s, ok, ip);
    } else {
      WorkerLooks(s, ok, ip);
    }
  }

  // ---- The fetcher's steps ----

  lemma NotReaping(jobs: seq<Job>, p: Fetcher, late: set<nat>)
    requires !p.Reap? && !p.Clear? && !p.Release?
    ensures LatesOk(jobs, p, late)
  {}

  lemma LookAtResult(s: State)
    requires Inv(s) && (s.fetcher.Check? || s.fetcher.ReadOk? || s.fetcher.ReadIp?)
    ensures Inv(FetcherNext(s))
  {
    NotReaping(s.jobs, FetcherNext(s).fetcher, s.late);
  }

  lemma ReapLooks(s: State)
    requires Inv(s) && s.fetcher.Reap?
    ensures Inv(FetcherNext(s))
  {
    var n, p := s.fetcher.n, FetcherNext(s).fetcher;
    hide WaitsOk, AllAskedOk, WorkerOk;
    if p.Clear? {
      forall i: nat | i < JOBS ensures JobOk(i, s.jobs[i], s.asked, s.wait, p) {
        assert JobOk(i, s.jobs[i], s.asked, s.wait, s.fetcher);
      }
      assert LatesOk(s.jobs, p, s.late);
      hide JobsOk, LatesOk;
    } else {
      assert LatesOk(s.jobs, p, s.late);
      hide JobsOk, LatesOk;
    }
  }

  lemma ScanLooks(s: State)
    requires Inv(s) && s.fetcher.Scan?
    ensures Inv(FetcherNext(s))
  {
    var p := FetcherNext(s).fetcher;
    NotReaping(s.jobs, p, s.late);
    hide WaitsOk, AllAskedOk, WorkerOk, LatesOk;
    if p.HostBegin? {
      forall i: nat | i < JOBS ensures JobOk(i, s.jobs[i], s.asked, s.wait, p) {
        assert JobOk(i, s.jobs[i], s.asked, s.wait, s.fetcher);
      }
      hide JobsOk;
    } else {
      hide JobsOk;
    }
  }

  lemma FillJobs(s: State)
    requires Inv(s) && (s.fetcher.HostBegin? || s.fetcher.HostEnd? || s.fetcher.OkClear?)
    ensures var t := FetcherNext(s); JobsOk(t.jobs, t.asked, t.wait, t.fetcher)
  {
    var t := FetcherNext(s);
    hide WaitsOk, AllAskedOk, LatesOk, WorkerOk;
    forall i: nat | i < JOBS ensures JobOk(i, t.jobs[i], t.asked, t.wait, t.fetcher) {
      assert JobOk(i, s.jobs[i], s.asked, s.wait, s.fetcher);
    }
  }

  /** Writing into a free slot is seen by nobody. */
  lemma FillSlot(s: State)
    requires Inv(s) && (s.fetcher.HostBegin? || s.fetcher.HostEnd? || s.fetcher.OkClear?)
    ensures Inv(FetcherNext(s))
  {
    hide JobsOk, WaitsOk, AllAskedOk, LatesOk, FetcherNext, FetcherOk, WorkerOk, InRange;
    FillJobs(s);
    FillRest(s);
    FillSelf(s);
  }

  lemma FillSelf(s: State)
    requires Inv(s) && (s.fetcher.HostBegin? || s.fetcher.HostEnd? || s.fetcher.OkClear?)
    ensures var t := FetcherNext(s);
      InRange(t) && FetcherOk(t) && WorkerOk(t.worker, t.jobs[t.worker.i], t.asked)
  {
    hide JobsOk, WaitsOk, AllAskedOk, LatesOk, RightAnswer;
  }

  lemma FillRest(s: State)
    requires Inv(s) && (s.fetcher.HostBegin? || s.fetcher.HostEnd? || s.fetcher.OkClear?)
    ensures var t := FetcherNext(s);
      WaitsOk(t.wait, t.jobs, t.asked) && AllAskedOk(t.asked, t.jobs) && LatesOk(t.jobs, t.fetcher, t.late)
  {
    var t := FetcherNext(s);
    hide JobsOk;
    NotReaping(t.jobs, t.fetcher, t.late);
    hide LatesOk;
    assert WaitsOk(t.wait, t.jobs, t.asked) by { hide AllAskedOk, WorkerOk; }
    hide WaitsOk, WorkerOk, Delivered;
  }

  lemma FreeRest(s: State)
    requires Inv(s) && (s.fetcher.Clear? || s.fetcher.Release?)
    ensures var t := FetcherNext(s); AllAskedOk(t.asked, t.jobs) && LatesOk(t.jobs, t.fetcher, t.late)
  {
    hide JobsOk, WaitsOk, WorkerOk, Delivered;
    var t := FetcherNext(s);
    assert LatesOk(t.jobs, t.fetcher, t.late) by { hide AllAskedOk; }
    hide LatesOk;
  }

  lemma FreeWaits(s: State)
    requires Inv(s) && (s.fetcher.Clear? || s.fetcher.Release?)
    ensures var t := FetcherNext(s); WaitsOk(t.wait, t.jobs, t.asked)
  {
    hide AllAskedOk, WorkerOk, LatesOk;
    var n := s.fetcher.n;
    assert JobOk(n, s.jobs[n], s.asked, s.wait, s.fetcher) && NobodyWaits(n, s.wait);
    hide JobsOk, JobOk;
  }

  /** An abandoned slot whose lookup is done is freed. */
  lemma ReapFrees(s: State)
    requires Inv(s) && (s.fetcher.Clear? || s.fetcher.Release?)
    ensures Inv(FetcherNext(s))
  {
    FreeRest(s);
    FreeWaits(s);
    hide JobsOk, WaitsOk, AllAskedOk, LatesOk;
  }

  lemma QueueJobs(s: State)
    requires Inv(s) && s.fetcher.StoreQueued?
    ensures var t := FetcherNext(s); JobsOk(t.jobs, t.asked, t.wait, t.fetcher)
  {
    var t := FetcherNext(s);
    hide AllAskedOk, LatesOk, WorkerOk, WaitsOk;
    forall i: nat | i < JOBS ensures JobOk(i, t.jobs[i], t.asked, t.wait, t.fetcher) {
      assert JobOk(i, s.jobs[i], s.asked, s.wait, s.fetcher);
    }
  }

  lemma QueueRest(s: State)
    requires Inv(s) && s.fetcher.StoreQueued?
    ensures var t := FetcherNext(s);
      WaitsOk(t.wait, t.jobs, t.asked) && AllAskedOk(t.asked, t.jobs) && LatesOk(t.jobs, t.fetcher, t.late)
  {
    var t := FetcherNext(s);
    NotReaping(t.jobs, t.fetcher, t.late);
    assert JobOk(s.fetcher.n, s.jobs[s.fetcher.n], s.asked, s.wait, s.fetcher);
    hide JobsOk, WorkerOk, LatesOk;
    assert WaitsOk(t.wait, t.jobs, t.asked) by { hide AllAskedOk; }
    hide WaitsOk, Delivered;
  }

  /** The slot is queued, and the fetch waits for it. */
  lemma QueueKeepsInv(s: State)
    requires Inv(s) && s.fetcher.StoreQueued?
    ensures Inv(FetcherNext(s))
  {
    QueueJobs(s);
    QueueRest(s);
    hide JobsOk, WaitsOk, AllAskedOk, LatesOk;
  }

  lemma TakeWaits(s: State)
    requires Inv(s) && s.fetcher.StoreFree?
    ensures var t := FetcherNext(s); WaitsOk(t.wait, t.jobs, t.asked) && LatesOk(t.jobs, t.fetcher, t.late)
  {
    var t, f := FetcherNext(s), s.fetcher.f;
    NotReaping(t.jobs, t.fetcher, t.late);
    hide AllAskedOk, LatesOk, WorkerOk, FetcherOk, JobsOk;
    assert WaitOk(f, s.wait[f], s.jobs, s.asked);
    forall g | g in t.wait ensures WaitOk(g, t.wait[g], t.jobs, t.asked) {
      assert WaitOk(g, s.wait[g], s.jobs, s.asked);
    }
  }

  lemma TakeAsked(s: State)
    requires Inv(s) && s.fetcher.StoreFree?
    ensures var t := FetcherNext(s); AllAskedOk(t.asked, t.jobs)
  {
    var t, w := FetcherNext(s), s.wait[s.fetcher.f];
    assert WaitOk(s.fetcher.f, w, s.jobs, s.asked);
    assert JobOk(w.slot, s.jobs[w.slot], s.asked, s.wait, s.fetcher);
    hide LatesOk, WorkerOk, JobsOk, WaitsOk;
    forall k: nat | k < |t.asked| ensures AskedOk(k, t.asked[k], t.jobs) {
      assert AskedOk(k, s.asked[k], s.jobs);
    }
  }

  /** The result goes to the fetch that waits for it, and the slot is free. */
  lemma TakeKeepsInv(s: State)
    requires Inv(s) && s.fetcher.StoreFree?
    ensures Inv(FetcherNext(s))
  {
    TakeWaits(s);
    TakeAsked(s);
    hide JobsOk, WaitsOk, AllAskedOk, LatesOk;
  }

  lemma FetcherKeepsInv(s: State)
    requires Inv(s) && !s.fetcher.Idle?
    ensures Inv(FetcherNext(s))
  {
    hide Inv, FetcherNext;
    var p := s.fetcher;
    if p.Reap? { ReapLooks(s); }
    else if p.Clear? || p.Release? { ReapFrees(s); }
    else if p.Scan? { ScanLooks(s); }
    else if p.HostBegin? || p.HostEnd? || p.OkClear? { FillSlot(s); }
    else if p.StoreQueued? { QueueKeepsInv(s); }
    else if p.StoreFree? { TakeKeepsInv(s); }
    else { LookAtResult(s); }
  }

  // ---- Runs ----

  lemma ReapBegins(s: State, then_: Then)
    requires Inv(s) && s.fetcher.Idle? && (then_.Queue? ==> then_.f !in s.wait)
    ensures Inv(s.(fetcher := Reap(0, then_), late := {}))
  {
    var t := s.(late := {});
    assert LatesOk(t.jobs, t.fetcher, {}) && LatesOk(t.jobs, Reap(0, then_), {});
    hide WaitsOk, AllAskedOk, JobsOk, WorkerOk, LatesOk;
  }

  lemma AbandonJobs(s: State, f: nat)
    requires Inv(s) && s.fetcher.Idle? && f in s.wait
    ensures var t := Next(s, Abandon(f));
      JobsOk(t.jobs, t.asked, t.wait, t.fetcher) && WaitsOk(t.wait, t.jobs, t.asked)
  {
    var t := Next(s, Abandon(f));
    hide AllAskedOk, LatesOk, WorkerOk, FetcherOk, RightAnswer;
    forall i: nat | i < JOBS ensures JobOk(i, t.jobs[i], t.asked, t.wait, t.fetcher) {
      assert JobOk(i, s.jobs[i], s.asked, s.wait, s.fetcher);
      if i != s.wait[f].slot && s.jobs[i].state != Free && !s.jobs[i].abandoned {
        assert WaitOk(f, s.wait[f], s.jobs, s.asked);
      }
    }
    hide JobsOk;
    assert WaitsOk(t.wait, t.jobs, t.asked);
  }

  lemma AbandonKeepsInv(s: State, f: nat)
    requires Inv(s) && s.fetcher.Idle? && f in s.wait
    ensures Inv(Next(s, Abandon(f)))
  {
    var t := Next(s, Abandon(f));
    AbandonJobs(s, f);
    hide JobsOk, WaitsOk;
    assert LatesOk(t.jobs, t.fetcher, t.late);
    hide LatesOk, Delivered;
  }

  lemma AskKeepsInv(s: State, f: nat)
    requires Inv(s) && s.fetcher.Idle? && f in s.wait
    ensures Inv(Next(s, AskResult(f)))
  {
    NotReaping(s.jobs, Check(f), s.late);
    hide WaitsOk, AllAskedOk, JobsOk, WorkerOk, LatesOk;
  }

  lemma NextKeepsInv(s: State, a: Action)
    requires Inv(s) && Enabled(s, a)
    ensures Inv(Next(s, a))
  {
    hide Inv, FetcherNext, WorkerNext;
    match a
    case Start(f, host) => ReapBegins(s, Queue(f, host));
    case AskResult(f) => AskKeepsInv(s, f);
    case Abandon(f) => AbandonKeepsInv(s, f);
    case ReapNow => ReapBegins(s, Nothing);
    case FetcherStep => FetcherKeepsInv(s);
    case WorkerStep(ok, ip) => WorkerKeepsInv(s, ok, ip);
  }

  predicate IsRun(s: State, actions: seq<Action>)
    decreases |actions|
  {
    actions == [] || (InRange(s) && Enabled(s, actions[0]) && IsRun(Next(s, actions[0]), actions[1..]))
  }

  function Run(s: State, actions: seq<Action>): State
    requires IsRun(s, actions)
    decreases |actions|
  {
    if actions == [] then s else Run(Next(s, actions[0]), actions[1..])
  }

  lemma {:induction false} RunKeepsInv(s: State, actions: seq<Action>)
    requires Inv(s) && IsRun(s, actions)
    ensures Inv(Run(s, actions))
    decreases |actions|
  {
    hide Inv, Next, Enabled;
    if actions != [] {
      NextKeepsInv(s, actions[0]);
      RunKeepsInv(Next(s, actions[0]), actions[1..]);
    }
  }

  /** In every run, a lookup's result is handed on at most once, to the fetch that queued it, and is what the
      worker found for that queueing and the whole host name asked for. */
  lemma ResultsReachTheirFetch(actions: seq<Action>, k: nat)
    requires IsRun(Init(), actions) && k < |Run(Init(), actions).asked|
    ensures var a := Run(Init(), actions).asked[k];
      |a.results| <= 1 && forall r <- a.results :: r.to == a.f && RightAnswer(r.ok, k, a.host) && r.ip == r.ok
  {
    InitInv();
    RunKeepsInv(Init(), actions);
    hide JobsOk, WaitsOk, LatesOk, RightAnswer;
    var s := Run(Init(), actions);
    assert AskedOk(k, s.asked[k], s.jobs);
  }

  /** A slot goes to nobody else, abandoned or not, before the worker is done with what was queued in it. */
  lemma NotReusedUntilDone(actions: seq<Action>, k: nat)
    requires IsRun(Init(), actions) && k < |Run(Init(), actions).asked|
    ensures var s := Run(Init(), actions); var a := s.asked[k];
      && a.slot < |s.jobs|
      && (!a.looked ==>
            var j := s.jobs[a.slot]; j.serial == k && j.state == Queued && j.host == Name(a.host))
  {
    InitInv();
    RunKeepsInv(Init(), actions);
    hide WaitsOk, LatesOk, RightAnswer;
    var s := Run(Init(), actions);
    var a := s.asked[k];
    assert AskedOk(k, a, s.jobs) && JobOk(a.slot, s.jobs[a.slot], s.asked, s.wait, s.fetcher);
  }

  /** Two fetches never wait for the same slot, and a slot somebody waits for is not abandoned. */
  lemma OneWaiter(actions: seq<Action>, f: nat, g: nat)
    requires IsRun(Init(), actions)
    ensures var s := Run(Init(), actions);
      f in s.wait ==>
        && s.wait[f].slot < |s.jobs| && !s.jobs[s.wait[f].slot].abandoned && s.jobs[s.wait[f].slot].state != Free
        && (g in s.wait && g != f ==> s.wait[g].slot != s.wait[f].slot)
  {
    InitInv();
    RunKeepsInv(Init(), actions);
    var s := Run(Init(), actions);
    hide JobsOk, WaitsOk, AllAskedOk, LatesOk;
  }

  /** When a reap is through, the slots that are both abandoned and done are exactly the abandoned ones whose
      lookup ended behind its back: after it had looked at that slot. */
  lemma AfterReap(actions: seq<Action>, i: nat)
    requires IsRun(Init(), actions) && i < JOBS
    ensures var s := Run(Init(), actions);
      |s.jobs| == JOBS && (s.fetcher.Reap? && s.fetcher.n == JOBS ==>
        (s.jobs[i].abandoned && s.jobs[i].state == Done <==> s.jobs[i].abandoned && i in s.late))
  {
    InitInv();
    RunKeepsInv(Init(), actions);
    hide JobsOk, WaitsOk, AllAskedOk, WorkerOk, FetcherOk;
    var s := Run(Init(), actions);
    assert LateOk(i, s.jobs[i], s.fetcher, s.late);
  }

  // ---- Such a slot exists ----

  function Times(a: Action, n: nat): seq<Action> { seq(n, i => a) }

  lemma {:induction false} RunConcat(s: State, first: seq<Action>, then_: seq<Action>)
    requires IsRun(s, first) && IsRun(Run(s, first), then_)
    ensures IsRun(s, first + then_) && Run(s, first + then_) == Run(Run(s, first), then_)
    decreases |first|
  {
    hide Next, Enabled, InRange;
    if first == [] {
      assert first + then_ == then_;
    } else {
      assert (first + then_)[1..] == first[1..] + then_;
      RunConcat(Next(s, first[0]), first[1..], then_);
    }
  }

  lemma RunOne(s: State, a: Action)
    requires InRange(s) && Enabled(s, a)
    ensures IsRun(s, [a]) && Run(s, [a]) == Next(s, a)
  {
    assert [a][1..] == [] && IsRun(Next(s, a), []);
  }

  lemma {:induction false} ReapWalks(s: State, n: nat)
    requires InRange(s) && s.fetcher.Reap? && s.fetcher.n + n <= JOBS
    requires forall i | s.fetcher.n <= i < s.fetcher.n + n :: !(s.jobs[i].abandoned && s.jobs[i].state == Done)
    ensures IsRun(s, Times(FetcherStep, n))
    ensures Run(s, Times(FetcherStep, n)) == s.(fetcher := Reap(s.fetcher.n + n, s.fetcher.then_))
    decreases n
  {
    if n > 0 {
      var t := s.(fetcher := Reap(s.fetcher.n + 1, s.fetcher.then_));
      assert Next(s, FetcherStep) == t;
      assert Times(FetcherStep, n)[1..] == Times(FetcherStep, n - 1) && Times(FetcherStep, n)[0] == FetcherStep;
      ReapWalks(t, n - 1);
    }
  }

  /** Slot 0 as given, the others free. */
  function Slot0(j: Job): seq<Job> { [j, NO_JOB, NO_JOB, NO_JOB, NO_JOB, NO_JOB] }

  /** The states of a run in which fetch 1 looks up "h", in slot 0. */
  function Filling0(j: Job, p: Fetcher): State { State(Slot0(j), Look(0), p, map[], [], {}) }

  function Queued0(j: Job, w: Worker, p: Fetcher, wait: map<nat, Wait>, looked: bool, late: set<nat>): State
  {
    State(Slot0(j), w, p, wait, [Asked(1, "h", 0, looked, [])], late)
  }

  /** One step from s to t. */
  predicate Goes(s: State, a: Action, t: State) { InRange(s) && Enabled(s, a) && Next(s, a) == t }

  ghost predicate Reachable(t: State) { exists actions :: IsRun(Init(), actions) && Run(Init(), actions) == t }

  lemma ReachNext(s: State, a: Action, t: State)
    requires Reachable(s) && Goes(s, a, t)
    ensures Reachable(t)
  {
    var actions :| IsRun(Init(), actions) && Run(Init(), actions) == s;
    RunOne(s, a);
    hide Next, Enabled, InRange;
    RunConcat(Init(), actions, [a]);
    assert IsRun(Init(), actions + [a]);
  }

  lemma ReachWalk(s: State, n: nat)
    requires Reachable(s) && InRange(s) && s.fetcher.Reap? && s.fetcher.n + n <= JOBS
    requires forall i | s.fetcher.n <= i < s.fetcher.n + n :: !(s.jobs[i].abandoned && s.jobs[i].state == Done)
    ensures Reachable(s.(fetcher := Reap(s.fetcher.n + n, s.fetcher.then_)))
  {
    var actions :| IsRun(Init(), actions) && Run(Init(), actions) == s;
    ReapWalks(s, n);
    hide Next, Enabled, InRange;
    RunConcat(Init(), actions, Times(FetcherStep, n));
    assert IsRun(Init(), actions + Times(FetcherStep, n));
  }

  const NAMED := NO_JOB.(host := Name("h"))
  const WAITING: map<nat, Wait> := map[1 := Wait(0, 0)]
  const FOUND := Answer(0, Name("h"), true, 1)

  lemma FillBegins()
    ensures Goes(Filling0(NO_JOB, Reap(6, Queue(1, "h"))), FetcherStep, Filling0(NO_JOB, Scan(0, 1, "h")))
    ensures Goes(Filling0(NO_JOB, Scan(0, 1, "h")), FetcherStep, Filling0(NO_JOB, HostBegin(0, 1, "h")))
    ensures Goes(Filling0(NO_JOB, HostBegin(0, 1, "h")), FetcherStep, Filling0(NO_JOB, HostEnd(0, 1, "h")))
  {}

  lemma FillEnds()
    ensures Goes(Filling0(NO_JOB, HostEnd(0, 1, "h")), FetcherStep, Filling0(NAMED, OkClear(0, 1, "h")))
    ensures Goes(Filling0(NAMED, OkClear(0, 1, "h")), FetcherStep, Filling0(NAMED, StoreQueued(0, 1, "h")))
    ensures Goes(Filling0(NAMED, StoreQueued(0, 1, "h")), FetcherStep,
                 Queued0(NAMED.(state := Queued), Look(0), Idle, WAITING, false, {}))
  {
    assert WAITING == map[][1 := Wait(0, 0)];
  }

  lemma LookBegins()
    ensures var j := NAMED.(state := Queued);
      && Goes(Queued0(j, Look(0), Idle, WAITING, false, {}), WorkerStep(true, 1),
              Queued0(j, Picked(0), Idle, WAITING, false, {}))
      && Goes(Queued0(j, Picked(0), Idle, WAITING, false, {}), WorkerStep(true, 1),
              Queued0(j, Reading(0, Name("h")), Idle, WAITING, false, {}))
      && Goes(Queued0(j, Reading(0, Name("h")), Idle, WAITING, false, {}), WorkerStep(true, 1),
              Queued0(j, Answered(0, FOUND), Idle, WAITING, false, {}))
  {}

  lemma LookEnds()
    ensures var j := NAMED.(state := Queued); var k := j.(ok := Some(FOUND)); var l := k.(ip := Some(FOUND));
      && Goes(Queued0(j, Answered(0, FOUND), Idle, WAITING, false, {}), WorkerStep(true, 1),
              Queued0(k, OkStored(0, FOUND), Idle, WAITING, false, {}))
      && Goes(Queued0(k, OkStored(0, FOUND), Idle, WAITING, false, {}), WorkerStep(true, 1),
              Queued0(l, IpStored(0, FOUND), Idle, WAITING, false, {}))
  {}

  /** The fetch gives up its lookup. */
  lemma GiveUp()
    ensures var l := NAMED.(state := Queued, ok := Some(FOUND), ip := Some(FOUND));
      Goes(Queued0(l, IpStored(0, FOUND), Idle, WAITING, false, {}), Abandon(1),
           Queued0(l.(abandoned := true), IpStored(0, FOUND), Reap(0, Nothing), map[], false, {}))
  {
    assert WAITING - {1} == map[];
  }

  /** The reap passes its slot, and then the worker is done with it. */
  lemma ReapPasses()
    ensures var m := NAMED.(state := Queued, ok := Some(FOUND), ip := Some(FOUND), abandoned := true);
      && Goes(Queued0(m, IpStored(0, FOUND), Reap(0, Nothing), map[], false, {}), FetcherStep,
              Queued0(m, IpStored(0, FOUND), Reap(1, Nothing), map[], false, {}))
      && Goes(Queued0(m, IpStored(0, FOUND), Reap(1, Nothing), map[], false, {}), WorkerStep(true, 1),
              Queued0(m.(state := Done), Look(1), Reap(1, Nothing), map[], true, {0}))
  {}

  /** A slot abandoned and done when a reap is through, in spite of it. */
  predicate Missed(s: State)
  {
    s.fetcher == Reap(JOBS, Nothing) && |s.jobs| == JOBS && s.jobs[0].abandoned && s.jobs[0].state == Done
  }

  /** Such a slot does turn up: fetch 1's lookup is abandoned while queued, the reap looks at it, and the worker
      is done before the reap is through. */
  lemma ReapMissesOne()
    ensures exists s :: Reachable(s) && Missed(s)
  {
    var w := WorkerStep(true, 1);
    var j := NAMED.(state := Queued);
    var k := j.(ok := Some(FOUND));
    var l := k.(ip := Some(FOUND));
    var m := l.(abandoned := true);
    Opening();
    FillBegins(); FillEnds(); LookBegins(); LookEnds(); GiveUp(); ReapPasses();
    hide Goes, Filling0, Queued0, Reachable;
    ReachNext(Filling0(NO_JOB, Reap(6, Queue(1, "h"))), FetcherStep, Filling0(NO_JOB, Scan(0, 1, "h")));
    ReachNext(Filling0(NO_JOB, Scan(0, 1, "h")), FetcherStep, Filling0(NO_JOB, HostBegin(0, 1, "h")));
    ReachNext(Filling0(NO_JOB, HostBegin(0, 1, "h")), FetcherStep, Filling0(NO_JOB, HostEnd(0, 1, "h")));
    ReachNext(Filling0(NO_JOB, HostEnd(0, 1, "h")), FetcherStep, Filling0(NAMED, OkClear(0, 1, "h")));
    ReachNext(Filling0(NAMED, OkClear(0, 1, "h")), FetcherStep, Filling0(NAMED, StoreQueued(0, 1, "h")));
    ReachNext(Filling0(NAMED, StoreQueued(0, 1, "h")), FetcherStep, Queued0(j, Look(0), Idle, WAITING, false, {}));
    ReachNext(Queued0(j, Look(0), Idle, WAITING, false, {}), w, Queued0(j, Picked(0), Idle, WAITING, false, {}));
    ReachNext(Queued0(j, Picked(0), Idle, WAITING, false, {}), w,
              Queued0(j, Reading(0, Name("h")), Idle, WAITING, false, {}));
    ReachNext(Queued0(j, Reading(0, Name("h")), Idle, WAITING, false, {}), w,
              Queued0(j, Answered(0, FOUND), Idle, WAITING, false, {}));
    ReachNext(Queued0(j, Answered(0, FOUND), Idle, WAITING, false, {}), w,
              Queued0(k, OkStored(0, FOUND), Idle, WAITING, false, {}));
    ReachNext(Queued0(k, OkStored(0, FOUND), Idle, WAITING, false, {}), w,
              Queued0(l, IpStored(0, FOUND), Idle, WAITING, false, {}));
    ReachNext(Queued0(l, IpStored(0, FOUND), Idle, WAITING, false, {}), Abandon(1),
              Queued0(m, IpStored(0, FOUND), Reap(0, Nothing), map[], false, {}));
    ReachNext(Queued0(m, IpStored(0, FOUND), Reap(0, Nothing), map[], false, {}), FetcherStep,
              Queued0(m, IpStored(0, FOUND), Reap(1, Nothing), map[], false, {}));
    ReachNext(Queued0(m, IpStored(0, FOUND), Reap(1, Nothing), map[], false, {}), w,
              Queued0(m.(state := Done), Look(1), Reap(1, Nothing), map[], true, {0}));
    LastWalk(m.(state := Done));
  }

  lemma Opening()
    ensures Reachable(Filling0(NO_JOB, Reap(6, Queue(1, "h"))))
  {
    var s1 := Filling0(NO_JOB, Reap(0, Queue(1, "h")));
    assert Init().jobs == Slot0(NO_JOB);
    assert IsRun(Init(), []) && Run(Init(), []) == Init();
    ReachNext(Init(), Start(1, "h"), s1);
    ReachWalk(s1, 6);
  }

  lemma LastWalk(j: Job)
    requires j.abandoned && j.state == Done && Reachable(Queued0(j, Look(1), Reap(1, Nothing), map[], true, {0}))
    ensures exists s :: Reachable(s) && Missed(s)
  {
    var s := Queued0(j, Look(1), Reap(1, Nothing), map[], true, {0});
    ReachWalk(s, 5);
    assert Missed(s.(fetcher := Reap(JOBS, Nothing)));
  }
}
